# Auto-rename bot: file-name extraction and renaming, in Dafny

This project models the part of DV-AUTO-RENAME-BOT that decides what a
file sent to the bot is renamed to, and the bookkeeping around one rename.

- `extract_episode_number` (plugins/file_rename.py) tries five regular
  expressions in a fixed order. The captured group of the first that matches
  is the episode number.
- `extract_quality` tries pattern 5 (a resolution such as `1080p`), then
  the fixed labels `4k`, `2k`, `HdRip`, `4kX264` and `4kx265`. It falls back
  to `Unknown`.
- `auto_rename_files` builds the new name from the user's format template.
  It chooses a working name and a media type from the message kind. It
  replaces the episode aliases (first occurrence of each), the quality
  aliases (every occurrence) and `{old_name}`, then appends the original
  extension.
- The `renaming_operations` dictionary drops a second event for the same
  file within ten seconds. The handler deletes the file's entry on every
  exit after the stamp except the caption and thumbnail crashes. The
  downloaded file and the thumbnail are removed on the upload-failure and
  success exits only.
- `TimeFormatter` and `convert` (helper/utils.py) spell durations.

The modules:

| file | module | what it holds |
|---|---|---|
| wrappers.dfy | `Wrappers` | `Option` |
| chars.dfy | `Chars` | `\d`, `\s`, `\w` and `re.IGNORECASE` on single characters |
| regex.dfy | `Regex` | a backtracking matcher with Python's exploration order; `Search` is `re.search` |
| text.dfy | `Text` | `in`, `str.replace` with and without a count of one, `os.path.splitext`, `str()` of an integer |
| episode.dfy | `Episode` | patterns 1 to 4 with pattern 3_2, their closed forms, and `extract_episode_number` |
| quality.dfy | `Quality` | patterns 5 to 10, their closed forms, and `extract_quality` |
| rename.dfy | `Rename` | the working name, the media type and the template loops |
| operations.dfy | `Operations` | `renaming_operations` as a class with a `map` field |
| handler.dfy | `Handler` | the exit paths of `auto_rename_files` |
| timeformat.dfy | `TimeFormat` | `TimeFormatter` and `convert` |
| episode_examples.dfy, quality_examples.dfy, script_example.dfy | `EpisodeExamples`, `QualityExamples`, `ScriptExample` | concrete file names worked through the extractors |
| rename_example.dfy | `RenameExample` | one file name and one template worked through the whole renderer |

Each compiled pattern is spelled out as a `Regex.Pattern` node by node,
following the Python source. A closed form for each pattern (`Pattern1At`,
`ResolutionAt` and so on) says directly where the pattern ends and what it
captures. A `...Match` lemma proves the closed form and the matcher agree
from every position. The extractors are stated once over the matcher, as
the source runs them. Their properties are proved through the closed forms.

The handler's loops over the alias lists are `for` loops that rebind the
template, as the source's are. They are proved against fold functions.
The dictionary is a class whose methods change its `map` field, with
`modifies` clauses.

Behaviour the code has, which the model keeps:

- `{episode}` keeps its braces. The alias `episode` comes first in the list
  and rewrites the inside of the braces (`Rename.BracedEpisode`). So
  `Show.Name.S02E07.1080p.mkv` with `{old_name} - Episode {episode} [{quality}]`
  becomes `Show.Name.S02E07.1080p - 07 {07} [{1080p}].mkv`
  (`RenameExample.ShowRenamed`).
- Every episode alias present in the template is replaced once, not only
  the first alias found.
- Pattern 3_2 matches any dash followed by digits. `Spider-Man-2002` has the
  episode `2002`.
- Pattern 4 backtracks. `S12` has the episode `2`.
- Pattern 5's group 1 runs lazily to the first `p` after three or four
  digits. `Movie 2015 Hindi.mp4` has the quality `2015 Hindi.mp`.
- The quality labels `4kX264` and `4kx265` can never be returned, because
  the `4k` pattern is tried first and matches wherever they do.
- The age of an entry is read through `timedelta.seconds`. That drops whole
  days, so an event a whole number of days and under ten seconds after the
  stamp is also dropped. A stamp in the future reads as almost a day old.
- The table entry is deleted on a download failure, an upload failure and
  success. No file is removed on a download failure.
- With no custom thumbnail, a media type of `video` (a stored preference)
  on a document or audio message reads `message.video.thumbs` of `None`.
  That raises `AttributeError`, which leaves the table entry in place and
  the downloaded file on disk (`Handler.ThumbnailCrash`).
- A stored caption with an unknown field or a stray brace makes
  `str.format` raise before the thumbnail is fetched. That also leaves the
  table entry and the downloaded file in place (`Handler.CaptionCrash`).
- A stored media type other than `document`, `video` and `audio` sends
  nothing, yet the handler ends normally and cleans up (`Finished(false)`).

## Model

| member | source | states |
|---|---|---|
| Text.Find | plugins/file_rename.py:167 | the leftmost index at which the pattern occurs, or none when it occurs nowhere |
| Text.ReplaceFirst | plugins/file_rename.py:168 | `str.replace(a, b, 1)`: unchanged when `a` is absent, otherwise the text before the leftmost occurrence, then `b`, then the rest |
| Text.ReplaceAbsent | plugins/file_rename.py:177 | a global replace of a target that does not occur changes nothing |
| Text.ReplaceSelf | plugins/file_rename.py:177 | replacing a target by itself changes nothing |
| Text.ReplaceLength | plugins/file_rename.py:177 | the length changes by the number of non-overlapping occurrences times the length difference |
| Text.ReplaceAtFirst | plugins/file_rename.py:177 | the global replace rewrites the leftmost occurrence exactly as the single replace does, then carries on after it |
| Text.ReplaceBefore | plugins/file_rename.py:177 | the global replace copies the text before the first occurrence unchanged |
| Text.ReplaceOnce | plugins/file_rename.py:177 | with no second occurrence, the global replace equals the single replace |
| Text.FindIs | plugins/file_rename.py:167-168 | an occurrence at `k` with none before it is what `find` reports |
| Text.LastIndex | plugins/file_rename.py:181 | `rfind`: the last index holding the character, or -1, with no such character after it |
| Text.LastIndexUnique | plugins/file_rename.py:181 | any index meeting `LastIndex`'s description is `LastIndex` |
| Text.SplitExtJoins | plugins/file_rename.py:181-185 | `splitext`'s root followed by its extension is the path |
| Text.SplitExtShape | plugins/file_rename.py:185 | a non-empty extension is a dot and then neither dots nor slashes, after a last component that is not only dots |
| Text.SplitExtNoExtension | plugins/file_rename.py:185 | an empty extension leaves the root as the whole path, every dot of the last component having only dots before it |
| Text.SplitExtAppend | plugins/file_rename.py:185 | a root and a dotted extension split back into exactly that root and extension |
| Text.DecimalRoundTrip | helper/utils.py:60-64 | `str(n)` of a natural number is a non-empty digit string with no leading zero that reads back as `n` |
| Rename.WorkingName | plugins/file_rename.py:132-148 | there is a working name exactly for a document, a video or an audio message |
| Rename.MediaType | plugins/file_rename.py:136-146 | a truthy stored preference wins, otherwise the kind's own media type |
| Rename.WorkingNameSplits | plugins/file_rename.py:139-144 | a video or audio name splits back into the name Telegram gave and ".mp4" or ".mp3" |
| Rename.FillEpisode | plugins/file_rename.py:161-170 | the loop's template is the fold of the single replace over the episode aliases in list order, and is unchanged without an episode |
| Rename.FillQuality | plugins/file_rename.py:173-177 | the loop's template is the fold of the global replace over the quality aliases in list order |
| Rename.RenderName | plugins/file_rename.py:161-187 | the new name is `NewFileName` of the template and the working name, and the path puts it under "downloads/" |
| Rename.AllReplacedIsReplace | plugins/file_rename.py:176-177 | the `in` test in front of the global replace changes nothing |
| Rename.NoAliasUnchanged | plugins/file_rename.py:165-177 | a template holding none of the aliases comes out of either loop unchanged |
| Rename.FirstReplacedAt | plugins/file_rename.py:167-168 | an alias first occurring at `k` is replaced in place: text before, value, text after |
| Rename.NewFileNameShape | plugins/file_rename.py:179-187 | the new name ends with the working name's extension, and root plus extension is the working name |
| Rename.PlainTemplate | plugins/file_rename.py:161-187 | a template without placeholders is kept as it is, followed by the extension |
| Rename.BracedEpisode | plugins/file_rename.py:165-168 | the template `{episode}` with a digit episode `e` becomes `{e}`: the braces stay |
| Rename.BracedFirst | plugins/file_rename.py:165-168 | the first alias rewrites the inside of `{episode}` |
| Rename.BracedRest | plugins/file_rename.py:165-168 | a digit run in braces holds none of the later episode aliases |
| Rename.EachFirstStep | plugins/file_rename.py:166-168 | one more alias of the list is one more single-replace step of the fold |
| Rename.EachAllStep | plugins/file_rename.py:175-177 | one more alias of the list is one more global-replace step of the fold |
| RenameExample.Rule1Decides | plugins/file_rename.py:83-86 | pattern 1 matching first at some position decides the episode: its group 2 |
| RenameExample.ShowEpisode | plugins/file_rename.py:81-86 | `Show.Name.S02E07.1080p.mkv` has the episode `07`, from pattern 1 at `S02E07` |
| RenameExample.ShowQuality | plugins/file_rename.py:33-40 | `Show.Name.S02E07.1080p.mkv` has the quality `1080p`: the digit runs of `S02E07` are too short |
| RenameExample.FirstAfter | plugins/file_rename.py:168 | an alias placed right after a text in which it does not start is the one the single replace rewrites: text, value, rest |
| RenameExample.AllAfter | plugins/file_rename.py:177 | the same for the global replace, when the alias does not occur again after it |
| RenameExample.AllAtStart | plugins/file_rename.py:180-182 | a placeholder that opens the text and does not occur again is replaced once, in front |
| RenameExample.TemplateEpisodeFilled | plugins/file_rename.py:162-168 | the episode loop turns `{old_name} - Episode {episode} [{quality}]` with `07` into `{old_name} - 07 {07} [{quality}]`: `episode` rewrites the inside of the braces, `Episode` the word |
| RenameExample.TemplateQualityFilled | plugins/file_rename.py:173-177 | the quality loop then puts `1080p` in place of `quality` and finds no other quality alias |
| RenameExample.TemplateOldNameFilled | plugins/file_rename.py:180-182 | `{old_name}` opens that text once, and is replaced by the given root |
| RenameExample.ShowSplit | plugins/file_rename.py:181-185 | `os.path.splitext` splits `Show.Name.S02E07.1080p.mkv` into `Show.Name.S02E07.1080p` and `.mkv` |
| RenameExample.NewFileNameFrom | plugins/file_rename.py:161-186 | the new name is the result of the old-name step followed by the extension, given what the earlier steps produce |
| RenameExample.ShowRenamed | plugins/file_rename.py:161-186 | `Show.Name.S02E07.1080p.mkv` with `{old_name} - Episode {episode} [{quality}]` is renamed `Show.Name.S02E07.1080p - 07 {07} [{1080p}].mkv` |
| Operations.SecondsField | plugins/file_rename.py:154 | `timedelta.seconds` of a microsecond difference lies in 0..86399 |
| Operations.RenamingOperations.constructor | plugins/file_rename.py:16 | the table starts empty |
| Operations.RenamingOperations.Admit | plugins/file_rename.py:152-159 | the event is admitted exactly when it is not a recent duplicate; then the file is stamped with `now` and no other entry changes; otherwise the table is unchanged |
| Operations.RenamingOperations.Release | plugins/file_rename.py:199 | `del`: exactly the file's entry is removed, and the key must be present |
| Operations.SecondsFieldSameDay | plugins/file_rename.py:154-155 | within the first day the field is the elapsed whole seconds |
| Operations.SecondsFieldDaily | plugins/file_rename.py:154 | adding whole days to the age does not change the field |
| Operations.SecondsFieldJustBefore | plugins/file_rename.py:154 | a stamp up to one second in the future reads as 86399 seconds |
| Operations.DroppedAfterDays | plugins/file_rename.py:153-157 | an event under ten seconds after the stamp, plus any whole number of days, is a recent duplicate |
| Operations.AdmittedLater | plugins/file_rename.py:153-159 | an event between ten seconds and one day after the stamp is not a recent duplicate |
| Handler.Thumbnail | plugins/file_rename.py:228-238 | the attribute error happens exactly without a custom thumbnail, for the media type `video` on a message that is not a video; otherwise the path is the downloaded one exactly when there is a custom thumbnail or a video with thumbnails, and `None` else |
| Handler.Cleanup | plugins/file_rename.py:271-280 | the removal list is the file path, followed by the thumbnail path exactly when that is truthy |
| Handler.Transfer | plugins/file_rename.py:191-282 | the download fails exactly when it raises, removing no file; the caption crash happens exactly when a truthy stored caption fails to format, and the thumbnail crash exactly when neither earlier exit is taken and the thumbnail read raises; every exit but the two crashes deletes the entry, and the crashes remove no file; the upload fails exactly for a sendable media type whose upload raises; both later exits remove the file and the thumbnail |
| Handler.AutoRename | plugins/file_rename.py:120-282 | each of the no-template, unsupported-kind and duplicate exits is taken exactly when its condition holds, the first two before the table is touched; an admitted file ends in one of the five transfer exits, with the download failure and the two crashes each taken exactly when the environment says so; the entry is kept and stamped on the crashes and deleted otherwise; the new file's path and the removal list on each exit |
| Regex.SearchFrom | plugins/file_rename.py:83 | `re.search`: the leftmost start where the pattern matches, failing at every earlier start, or none when it matches nowhere |
| Regex.SearchIsFirstHit | plugins/file_rename.py:83-106 | a search ends in the first success of any description that agrees with the matcher at each position |
| Regex.FirstHitIs | plugins/file_rename.py:83-106 | failing before `p` and succeeding at `p` makes `p`'s the first success |
| Regex.FirstHitNone | plugins/file_rename.py:83-106 | there is no first success exactly when every attempt fails |
| Episode.Pattern1Match | plugins/file_rename.py:19 | pattern 1 matches from every position exactly as its closed form says |
| Episode.Pattern2Match | plugins/file_rename.py:20 | pattern 2, with its `E`, `EP` and `-\s*EP` markers in Python's order, agrees with its closed form |
| Episode.Pattern3Match | plugins/file_rename.py:21 | pattern 3 agrees with its closed form from every position |
| Episode.Pattern3_2Match | plugins/file_rename.py:22 | pattern 3_2 agrees with its closed form from every position |
| Episode.Pattern4Match | plugins/file_rename.py:23 | pattern 4, backtracking included, agrees with its closed form |
| Episode.Pattern4Backtrack | plugins/file_rename.py:23 | when no digit follows the season, group 2 is the season's last digit |
| Episode.SearchIsFirst | plugins/file_rename.py:83-106 | `re.search` with a rule's pattern finds the leftmost success of its closed form |
| Episode.SearchRulesByRules | plugins/file_rename.py:81-109 | the cascade of searches is the cascade over the closed forms |
| Episode.RuleAtCaptures | plugins/file_rename.py:19-23 | the episode group of every successful rule is a non-empty digit run with no digit after it |
| Episode.FirstFromAt | plugins/file_rename.py:83-106 | a rule's leftmost success is its success at some position |
| Episode.FirstFromNone | plugins/file_rename.py:83-106 | a rule has no leftmost success exactly when it fails at every position |
| Episode.FirstFromIs | plugins/file_rename.py:83-106 | the first position where the rule succeeds gives its leftmost success |
| Episode.EpisodeByDigits | plugins/file_rename.py:81-109 | whatever the cascade returns is a digit run of the name, up to a non-digit |
| Episode.EpisodeByNone | plugins/file_rename.py:81-109 | the cascade returns nothing exactly when no rule succeeds anywhere |
| Episode.EpisodeByFirst | plugins/file_rename.py:81-109 | the first rule of the list that succeeds somewhere decides, through its episode group |
| Episode.EpisodeByAllFail | plugins/file_rename.py:108-109 | with every rule failing, there is no episode |
| Episode.ExtractEpisodeDigits | plugins/file_rename.py:81-109 | a returned episode number is a non-empty run of the name's digits, taken up to the next non-digit |
| Episode.ExtractEpisodeNone | plugins/file_rename.py:81-109 | `None` is returned exactly when none of the five patterns matches at any position |
| Episode.EpisodeCascade | plugins/file_rename.py:81-109 | the result, spelled out: group 2 of pattern 1, else group 2 of pattern 2, else group 1 of pattern 3, else group 1 of pattern 3_2, else group 2 of pattern 4, else none |
| Episode.EpisodeDecided | plugins/file_rename.py:81-109 | the first pattern in the source's order that matches somewhere decides the result |
| Episode.SeasonNeeded | plugins/file_rename.py:19-23 | patterns 1, 2 and 4 only match where an `S` or `s` is directly followed by a digit |
| Episode.BracketNeeded | plugins/file_rename.py:21 | pattern 3 only matches at an opening bracket |
| Episode.DashNeeded | plugins/file_rename.py:22 | pattern 3_2 matches exactly where white space, a dash, white space and a digit follow |
| Episode.NoSeason | plugins/file_rename.py:19-23 | a name without an `S` directly before a digit matches none of patterns 1, 2 and 4 |
| Episode.NoBracket | plugins/file_rename.py:21 | a name without an opening bracket does not match pattern 3 |
| Episode.NoDash | plugins/file_rename.py:22 | a name without a dash does not match pattern 3_2 |
| EpisodeExamples.SpacedEpisode | plugins/file_rename.py:88-91 | `S01 EP05` has the episode `05`, from pattern 2 |
| EpisodeExamples.BracketEpisode | plugins/file_rename.py:93-96 | `[EP05]` has the episode `05`, from pattern 3 |
| EpisodeExamples.LettersEpisode | plugins/file_rename.py:103-106 | `S01xyz05` has the episode `05`, from pattern 4 |
| EpisodeExamples.TitleEpisode | plugins/file_rename.py:98-101 | `Spider-Man-2002` has the episode `2002`, from pattern 3_2 at the second dash |
| EpisodeExamples.SeasonOnlyEpisode | plugins/file_rename.py:103-106 | `S12` has the episode `2`: pattern 4 gives the season's last digit to group 2 |
| Quality.ResolutionAt | plugins/file_rename.py:26 | a resolution found at `t` is at least four characters long |
| Quality.NextResolution | plugins/file_rename.py:26 | the leftmost position from `t` at which a resolution starts, none failing before it; or none anywhere |
| Quality.NextResolutionIs | plugins/file_rename.py:26 | a resolution at `u` with none between `x` and `u` is the next one from `x` |
| Quality.ResolutionMatch | plugins/file_rename.py:26 | group 1 of pattern 5 matches from `t` exactly as `ResolutionAt` says |
| Quality.ShortResolutionMatch | plugins/file_rename.py:26 | group 2 of pattern 5 can only match where group 1 can |
| Quality.Branch1Found | plugins/file_rename.py:26 | `.*?` stops at the first resolution in reach, which group 1 takes |
| Quality.Branch2Match | plugins/file_rename.py:26 | the second alternative fails wherever the first finds nothing |
| Quality.Pattern5Match | plugins/file_rename.py:26 | pattern 5 matches from `i` exactly as its closed form says, with group 1 alone captured |
| Quality.SearchPattern5 | plugins/file_rename.py:35-40 | `re.search` with pattern 5 succeeds exactly when the name holds a resolution, and group 1 is then the leftmost one |
| Quality.MatchAtWordStart | plugins/file_rename.py:35 | pattern 5 matches at the start of the word that holds the leftmost resolution |
| Quality.SearchPattern5Found | plugins/file_rename.py:35-38 | once pattern 5 matches somewhere, the search captures the leftmost resolution |
| Quality.SearchPattern5None | plugins/file_rename.py:35-36 | without a resolution, pattern 5 matches nowhere |
| Quality.BracketedMatch | plugins/file_rename.py:27-31 | the bracketed word pattern matches from `i` exactly when the word stands after the optional bracket and spaces |
| Quality.WordThenTail | plugins/file_rename.py:27-31 | the word followed by `\s*[)\]}>]?` matches exactly where the word is |
| Quality.SearchBracketed | plugins/file_rename.py:27-31 | `re.search` with patterns 6, 7, 9 and 10 succeeds exactly when their word occurs, case ignored |
| Quality.SearchPattern8 | plugins/file_rename.py:29 | pattern 8 is found exactly when `HdRip` occurs; its `\bHdRip\b` branch adds nothing |
| Quality.OccursPrefix | plugins/file_rename.py:30-31 | a name holding `4kX264` or `4kx265` holds `4k` |
| Quality.ExtractQualityIs | plugins/file_rename.py:33-79 | `extract_quality` is the leftmost resolution, else the first of `4k`, `2k`, `HdRip` that occurs, else "Unknown" |
| Quality.ResolutionQuality | plugins/file_rename.py:35-40 | the text of the leftmost resolution is the quality |
| Quality.LabelQuality | plugins/file_rename.py:42-79 | without a resolution the labels are tried in the source's order, "4kX264" and "4kx265" shadowed by "4k" |
| Quality.ExtractQualityLabels | plugins/file_rename.py:33-79 | the quality is never `None`, never empty, and never "4kX264" or "4kx265" |
| Quality.QualityOfLabels | plugins/file_rename.py:42-79 | the label is never empty and never one of the two shadowed labels |
| Quality.ResolutionLabel | plugins/file_rename.py:26 | a resolution is at least four characters long and ends in `p` or `P` |
| Quality.ResolutionShape | plugins/file_rename.py:26 | a resolution is three or four digits, then only characters that are neither digits nor `p`, then the first `p` |
| QualityExamples.PlainQuality | plugins/file_rename.py:35-40 | `Movie.1080p.mkv` has the quality `1080p` |
| QualityExamples.StretchedQuality | plugins/file_rename.py:35-40 | `Movie 2015 Hindi.mp4` has the quality `2015 Hindi.mp` |
| ScriptExample.NoEpisode | plugins/file_rename.py:81-109 | a name with no `S` before a digit, no opening bracket and no dash has no episode number |
| ScriptExample.NoResolution | plugins/file_rename.py:26 | a name without two digits in a row holds no resolution |
| ScriptExample.NotOccurs | plugins/file_rename.py:27-31 | a word whose first two letters never stand side by side does not occur |
| ScriptExample.UnknownQuality | plugins/file_rename.py:33-79 | with no resolution and none of `4k`, `2k`, `Hd` side by side, the quality is "Unknown" |
| ScriptExample.ScriptNameExtracts | plugins/file_rename.py:112-117 | the `__main__` name "I Got a Cheat Skill in Another World and Became Unrivale.mp4.mp4" has no episode number and the quality "Unknown" |
| TimeFormat.Split | helper/utils.py:56-59 | the parts recombine to the input; hours, minutes, seconds and milliseconds lie below 24, 60, 60 and 1000; days are non-negative for a non-negative input |
| TimeFormat.TimeFormatterJoins | helper/utils.py:55-65 | the result is the non-zero parts with their units, days first, joined by ", " |
| TimeFormat.PieceIsLabel | helper/utils.py:60-64 | one piece of the concatenation is its part's label followed by ", ", or nothing for a zero part |
| TimeFormat.TimeFormatterEmpty | helper/utils.py:60-65 | the result is empty exactly for zero milliseconds |
| TimeFormat.LabelsShape | helper/utils.py:60-64 | every label is a number followed by a unit ending in `d`, `h`, `m` or `s` |
| TimeFormat.TimeFormatterEnd | helper/utils.py:65 | a non-empty result ends with a unit letter, never with the separator |
| TimeFormat.Pad2Reads | helper/utils.py:73 | `%02d` of a value below 100 is two digits that read back as the value |
| TimeFormat.ConvertReadsBack | helper/utils.py:67-73 | `convert` writes `H:MM:SS` whose fields lie below 24, 60 and 60 and read back as the seconds within the day |
| TimeFormat.ConvertDaily | helper/utils.py:68 | `convert` of a time and of the same time plus whole days agree |

## Left out

- `\d` and `\w` are the ASCII digits and word characters. Python's `str`
  patterns also accept digits and letters of other scripts.
- `re.IGNORECASE` is modelled only for the ASCII letters the patterns
  contain, with the four non-ASCII characters Python folds onto them.
- The Telegram client calls (`reply_text`, `download_media`, `send_*`,
  `edit`, `delete`) are inputs: whether the download and the upload raise,
  and the path a thumbnail download returns.
- Python's format-string grammar is not modelled. Whether `str.format` of
  the stored caption raises is an input (`captionFormats`); the caption's
  text is left out.
- A `file_name` of `None` on a document is not modelled: names are strings.
- The database reads (format template, media preference, caption,
  thumbnail) are parameters.
- The duration probe with hachoir (its errors are caught), the text of the
  caption, `humanbytes` and `progress_for_pyrogram` change none of the
  modelled state and are left out (floating point and foreign libraries).
- The PIL conversion of a video thumbnail is left out. An exception it
  raises, like one from a thumbnail download, is not modelled.
- `send_log`, bot.py and every `print` call are left out.
- Concurrency: the check and the stamp in lines 153-159 have no `await`
  between them, so the table is modelled sequentially.
- `datetime.now()` is the parameter `now`, in whole microseconds.
