/**
 * How `auto_rename_files` (plugins/file_rename.py) turns a user's format
 * template and an incoming file's name into the new file name and the
 * download path: the working name and media type chosen from the message
 * kind, the episode aliases replaced once each, the quality aliases
 * replaced everywhere, `{old_name}` replaced by the name without its
 * extension, and the original extension put back at the end.
 *
 * The source rebinds `format_template` in `for` loops over the alias
 * lists; the methods below do the same and are proved against the fold
 * functions `EachFirstReplaced` and `EachAllReplaced`.
 */
module Rename {
  import opened Wrappers
  import opened Text
  import Episode
  import Quality

  /** Which of `message.document`, `message.video`, `message.audio` is set, if any. */
  datatype Kind = Document | Video | Audio | OtherKind

  /** The name the handler works with: video names get ".mp4" and audio names ".mp3" appended. */
  function WorkingName(kind: Kind, fileName: string): (r: Option<string>)
    ensures r.None? <==> kind == OtherKind
  {
    match kind
    case Document => Some(fileName)
    case Video => Some(fileName + ".mp4")
    case Audio => Some(fileName + ".mp3")
    case OtherKind => None
  }

  /** A value Python treats as true in `x or default`: present and not empty. */
  predicate Truthy(x: Option<string>) {
    x.Some? && x.value != ""
  }

  /** `media_preference or "document"` (or "video", "audio", after the kind). */
  function MediaType(kind: Kind, preference: Option<string>): (r: string)
    requires kind != OtherKind
    ensures Truthy(preference) ==> r == preference.value
    ensures !Truthy(preference) ==> r == (if kind == Document then "document" else if kind == Video then "video" else "audio")
  {
    if Truthy(preference) then preference.value
    else match kind
      case Document => "document"
      case Video => "video"
      case Audio => "audio"
  }

  /**
   * A video or audio name whose last path component is not only dots splits
   * back into the name Telegram gave and the appended extension.
   */
  lemma WorkingNameSplits(kind: Kind, fileName: string)
    requires kind == Video || kind == Audio
    requires HasNonDot(fileName, LastIndex(fileName, '/') + 1, |fileName|)
    ensures SplitExt(WorkingName(kind, fileName).value) == (fileName, if kind == Video then ".mp4" else ".mp3")
  {
    var ext := if kind == Video then ".mp4" else ".mp3";
    MediaExtension(ext);
    SplitExtAppend(fileName, ext);
  }

  lemma MediaExtension(ext: string)
    requires ext == ".mp4" || ext == ".mp3"
    ensures |ext| >= 1 && ext[0] == '.'
    ensures forall j :: 1 <= j < |ext| ==> ext[j] != '.' && ext[j] != '/'
  {
  }

  // ----- The placeholders -----

  const EpisodeAliases: seq<string> := ["episode", "Episode", "EPISODE", "{episode}"]

  const QualityAliases: seq<string> := ["quality", "Quality", "QUALITY", "{quality}"]

  const OldName: string := "{old_name}"

  /** `if alias in t: t = t.replace(alias, value, 1)` */
  function FirstReplaced(t: string, alias: string, value: string): string {
    if Contains(t, alias) then ReplaceFirst(t, alias, value) else t
  }

  /** `if alias in t: t = t.replace(alias, value)` */
  function AllReplaced(t: string, alias: string, value: string): string {
    if Contains(t, alias) then Replace(t, alias, value) else t
  }

  /** The template after the loop over `aliases` with `FirstReplaced`, in list order. */
  function EachFirstReplaced(t: string, aliases: seq<string>, value: string): string
    decreases |aliases|
  {
    if |aliases| == 0 then t
    else FirstReplaced(EachFirstReplaced(t, aliases[..|aliases| - 1], value), aliases[|aliases| - 1], value)
  }

  /** The template after the loop over `aliases` with `AllReplaced`, in list order. */
  function EachAllReplaced(t: string, aliases: seq<string>, value: string): string
    decreases |aliases|
  {
    if |aliases| == 0 then t
    else AllReplaced(EachAllReplaced(t, aliases[..|aliases| - 1], value), aliases[|aliases| - 1], value)
  }

  /** The template once the episode, if there is one, has been put in. */
  function EpisodeFilled(template: string, episode: Option<string>): string {
    if Truthy(episode) then EachFirstReplaced(template, EpisodeAliases, episode.value) else template
  }

  /** The template once the episode, the quality and the old name are all put in. */
  function Filled(template: string, fileName: string): string {
    var t := EachAllReplaced(EpisodeFilled(template, Episode.ExtractEpisode(fileName)), QualityAliases, Quality.QualityOf(fileName));
    if Contains(t, OldName) then Replace(t, OldName, SplitExt(fileName).0) else t
  }

  /** `new_file_name`: the filled template followed by the extension of the working name. */
  function NewFileName(template: string, fileName: string): string {
    Filled(template, fileName) + SplitExt(fileName).1
  }

  // ----- The loops of the handler -----

  /** Lines 161-168: each episode alias present has its first occurrence replaced by the episode. */
  method FillEpisode(template: string, episode: Option<string>) returns (t: string)
    ensures t == EpisodeFilled(template, episode)
    ensures !Truthy(episode) ==> t == template
  {
    t := template;
    if Truthy(episode) {
      for k := 0 to |EpisodeAliases|
        invariant t == EachFirstReplaced(template, EpisodeAliases[..k], episode.value)
      {
        var alias := EpisodeAliases[k];
        assert EpisodeAliases[..k + 1][..k] == EpisodeAliases[..k];
        if Contains(t, alias) {
          t := ReplaceFirst(t, alias, episode.value);
        }
      }
      assert EpisodeAliases[..|EpisodeAliases|] == EpisodeAliases;
    }
  }

  /** Lines 173-177: each quality alias present is replaced, at every occurrence, by the quality. */
  method FillQuality(template: string, quality: string) returns (t: string)
    ensures t == EachAllReplaced(template, QualityAliases, quality)
  {
    t := template;
    for k := 0 to |QualityAliases|
      invariant t == EachAllReplaced(template, QualityAliases[..k], quality)
    {
      var alias := QualityAliases[k];
      assert QualityAliases[..k + 1][..k] == QualityAliases[..k];
      if Contains(t, alias) {
        t := Replace(t, alias, quality);
      }
    }
    assert QualityAliases[..|QualityAliases|] == QualityAliases;
  }

  /** Lines 161-187: the new file name and the path it is downloaded to. */
  method RenderName(template: string, fileName: string) returns (newFileName: string, filePath: string)
    ensures newFileName == NewFileName(template, fileName)
    ensures filePath == "downloads/" + newFileName
  {
    var episode := Episode.ExtractEpisode(fileName);
    var t := FillEpisode(template, episode);
    Quality.ExtractQualityIs(fileName);
    var quality := Quality.ExtractQuality(fileName).value;
    t := FillQuality(t, quality);
    if Contains(t, OldName) {
      var (root, _) := SplitExt(fileName);
      t := Replace(t, OldName, root);
    }
    var (_, extension) := SplitExt(fileName);
    newFileName := t + extension;
    filePath := "downloads/" + newFileName;
  }

  // ----- What the substitutions do -----

  /** `AllReplaced` is the plain global replace: the `in` test in front of it changes nothing. */
  lemma AllReplacedIsReplace(t: string, alias: string, value: string)
    requires |alias| > 0
    ensures AllReplaced(t, alias, value) == Replace(t, alias, value)
  {
    if !Contains(t, alias) {
      ReplaceAbsent(t, alias, value);
    }
  }

  /** A template in which no alias of the list occurs comes out of either loop unchanged. */
  lemma {:induction false} NoAliasUnchanged(t: string, aliases: seq<string>, value: string)
    requires forall k :: 0 <= k < |aliases| ==> !Contains(t, aliases[k])
    ensures EachFirstReplaced(t, aliases, value) == t
    ensures EachAllReplaced(t, aliases, value) == t
    decreases |aliases|
  {
    if |aliases| > 0 {
      var init := aliases[..|aliases| - 1];
      forall k | 0 <= k < |init| ensures !Contains(t, init[k]) {
        assert init[k] == aliases[k];
      }
      NoAliasUnchanged(t, init, value);
    }
  }

  /**
   * An alias the template holds once is rewritten in place by the first
   * alias step: the text before it, the value, the text after it.
   */
  lemma FirstReplacedAt(t: string, alias: string, value: string, k: nat)
    requires OccursAt(t, alias, k)
    requires forall j :: 0 <= j < k ==> !OccursAt(t, alias, j)
    ensures FirstReplaced(t, alias, value) == t[..k] + value + t[k + |alias|..]
  {
    FindIs(t, alias, k);
  }

  /** The new name keeps the extension of the working name, and the path puts it under "downloads/". */
  lemma NewFileNameShape(template: string, fileName: string)
    ensures var n := NewFileName(template, fileName);
            var ext := SplitExt(fileName).1;
            |n| >= |ext| && n[|n| - |ext|..] == ext
            && SplitExt(fileName).0 + ext == fileName
  {
    SplitExtJoins(fileName);
    var n := NewFileName(template, fileName);
    var ext := SplitExt(fileName).1;
    assert n == Filled(template, fileName) + ext;
    assert n[|n| - |ext|..] == ext;
  }

  /** A template with no placeholder at all is kept, and the extension put after it. */
  lemma PlainTemplate(template: string, fileName: string)
    requires forall k :: 0 <= k < |EpisodeAliases| ==> !Contains(template, EpisodeAliases[k])
    requires forall k :: 0 <= k < |QualityAliases| ==> !Contains(template, QualityAliases[k])
    requires !Contains(template, OldName)
    ensures NewFileName(template, fileName) == template + SplitExt(fileName).1
  {
    NoAliasUnchanged(template, EpisodeAliases, "");
    var episode := Episode.ExtractEpisode(fileName);
    if Truthy(episode) {
      NoAliasUnchanged(template, EpisodeAliases, episode.value);
    }
    NoAliasUnchanged(template, QualityAliases, Quality.QualityOf(fileName));
  }

  /** A text without the character `c` contains no pattern that has `c` in it. */
  lemma AbsentChar(s: string, pat: string, i: nat)
    requires i < |pat| && forall j :: 0 <= j < |s| ==> s[j] != pat[i]
    ensures !Contains(s, pat)
  {
  }

  /**
   * `{episode}` keeps its braces: the alias "episode" comes first in the
   * list and rewrites the inside of the braces, after which "{episode}" no
   * longer occurs.
   */
  lemma BracedEpisode(e: string)
    requires |e| > 0 && Chars.AllDigits(e)
    ensures EpisodeFilled("{episode}", Some(e)) == "{" + e + "}"
  {
    var t0 := "{episode}";
    var t1 := "{" + e + "}";
    BracedFirst(e);
    BracedRest(e);
    EachFirstStep(t0, EpisodeAliases, e, 0);
    EachFirstStep(t0, EpisodeAliases, e, 1);
    EachFirstStep(t0, EpisodeAliases, e, 2);
    EachFirstStep(t0, EpisodeAliases, e, 3);
    assert EpisodeAliases[..0] == [];
    assert EpisodeAliases[..4] == EpisodeAliases;
  }

  /** The first alias rewrites the inside of the braces. */
  lemma BracedFirst(e: string)
    ensures FirstReplaced("{episode}", "episode", e) == "{" + e + "}"
  {
    var t0 := "{episode}";
    assert OccursAt(t0, "episode", 1) by { assert t0[1..8] == "episode"; }
    assert !OccursAt(t0, "episode", 0) by { assert t0[0] != 'e'; }
    FindIs(t0, "episode", 1);
    assert t0[..1] + e + t0[8..] == "{" + e + "}";
  }

  /** After that, a digit run in braces holds none of the other aliases. */
  lemma BracedRest(e: string)
    requires Chars.AllDigits(e)
    ensures !Contains("{" + e + "}", "Episode") && !Contains("{" + e + "}", "EPISODE") && !Contains("{" + e + "}", "{episode}")
  {
    var t1 := "{" + e + "}";
    forall j | 0 <= j < |t1| ensures t1[j] != 'E' && t1[j] != 'e' {
      if 0 < j < |t1| - 1 {
        assert t1[j] == e[j - 1];
      }
    }
    AbsentChar(t1, "Episode", 0);
    AbsentChar(t1, "EPISODE", 0);
    AbsentChar(t1, "{episode}", 1);
  }

  /** One more alias of the list handled by the episode loop. */
  lemma EachFirstStep(t: string, aliases: seq<string>, value: string, k: nat)
    requires k < |aliases|
    ensures EachFirstReplaced(t, aliases[..k + 1], value)
         == FirstReplaced(EachFirstReplaced(t, aliases[..k], value), aliases[k], value)
  {
    assert aliases[..k + 1][..k] == aliases[..k];
  }

  /** One more alias of the list handled by the quality loop. */
  lemma EachAllStep(t: string, aliases: seq<string>, value: string, k: nat)
    requires k < |aliases|
    ensures EachAllReplaced(t, aliases[..k + 1], value)
         == AllReplaced(EachAllReplaced(t, aliases[..k], value), aliases[k], value)
  {
    assert aliases[..k + 1][..k] == aliases[..k];
  }
}
