/**
 * The rename worked through for one file and one template: the episode of
 * "Show.Name.S02E07.1080p.mkv" is "07" and its quality "1080p", so the
 * template "{old_name} - Episode {episode} [{quality}]" gives
 * "Show.Name.S02E07.1080p - 07 {07} [{1080p}].mkv" (plugins/file_rename.py,
 * lines 131-187).
 *
 * The template is written as a concatenation of short pieces. Where an alias
 * first occurs, and that it does not occur at all, follows from a character
 * (or a pair of neighbours) that a piece lacks, checked piece by piece and
 * carried across each join.
 */
module RenameExample {
  import opened Wrappers
  import opened Chars
  import opened Regex
  import opened Text
  import opened Rename
  import Episode
  import Quality
  import QualityExamples

  // The literal pieces of the template between its placeholders.
  const Dash: string := " - "
  const Open: string := " {"
  const Between: string := "} [{"
  const Close: string := "}]"

  // ----- Characters a text lacks -----

  /** No character of `cs` occurs in `s`. */
  predicate LacksAll(s: string, cs: string) {
    forall j :: 0 <= j < |s| ==> s[j] !in cs
  }

  /** `s[k..]` has no character of `cs`, checked one character at a time. */
  predicate LackedFrom(s: string, cs: string, k: nat)
    decreases |s| - k
  {
    k >= |s| || (s[k] !in cs && LackedFrom(s, cs, k + 1))
  }

  lemma {:induction false} LackedFromAll(s: string, cs: string, k: nat)
    requires LackedFrom(s, cs, k)
    ensures forall j :: k <= j < |s| ==> s[j] !in cs
    decreases |s| - k
  {
    if k < |s| {
      LackedFromAll(s, cs, k + 1);
    }
  }

  lemma Lacked(s: string, cs: string)
    requires LackedFrom(s, cs, 0)
    ensures LacksAll(s, cs)
  {
    LackedFromAll(s, cs, 0);
  }

  /** Two texts that lack `cs` join into one that does. */
  lemma LacksJoin(a: string, b: string, cs: string)
    requires LacksAll(a, cs) && LacksAll(b, cs)
    ensures LacksAll(a + b, cs)
  {
    forall j | 0 <= j < |a + b| ensures (a + b)[j] !in cs {
      if j < |a| { assert (a + b)[j] == a[j]; } else { assert (a + b)[j] == b[j - |a|]; }
    }
  }

  /** Lacking every character of `cs`, `s` lacks those of any `ds` drawn from it. */
  lemma Fewer(s: string, cs: string, ds: string)
    requires LacksAll(s, cs) && forall c :: c in ds ==> c in cs
    ensures LacksAll(s, ds)
  {
  }

  /** No `c` in `s` is directly followed by `d`. */
  predicate LacksPair(s: string, c: char, d: char) {
    forall j :: 0 <= j < |s| - 1 ==> !(s[j] == c && s[j + 1] == d)
  }

  predicate PairLackedFrom(s: string, c: char, d: char, k: nat)
    decreases |s| - k
  {
    k + 1 >= |s| || (!(s[k] == c && s[k + 1] == d) && PairLackedFrom(s, c, d, k + 1))
  }

  lemma {:induction false} PairLackedFromAll(s: string, c: char, d: char, k: nat)
    requires PairLackedFrom(s, c, d, k)
    ensures forall j :: k <= j < |s| - 1 ==> !(s[j] == c && s[j + 1] == d)
    decreases |s| - k
  {
    if k + 1 < |s| {
      PairLackedFromAll(s, c, d, k + 1);
    }
  }

  /** The same for a pair, when the two sides do not meet in it. */
  lemma PairJoin(a: string, b: string, c: char, d: char)
    requires |a| > 0 && |b| > 0
    requires LacksPair(a, c, d) && LacksPair(b, c, d) && !(a[|a| - 1] == c && b[0] == d)
    ensures LacksPair(a + b, c, d)
  {
    var s := a + b;
    forall j | 0 <= j < |s| - 1 ensures !(s[j] == c && s[j + 1] == d) {
      if j + 1 < |a| {
        assert s[j] == a[j] && s[j + 1] == a[j + 1];
      } else if j + 1 == |a| {
        assert s[j] == a[|a| - 1] && s[j + 1] == b[0];
      } else {
        assert s[j] == b[j - |a|] && s[j + 1] == b[j - |a| + 1];
      }
    }
  }

  // Each piece passes the scan for the characters that matter here: `E` and
  // `p` rule out the episode aliases, `q` and `Q` the quality aliases, `_`
  // the old-name placeholder.

  lemma Scans1()
    ensures LackedFrom(Dash, "EpqQ_", 0) && LackedFrom("07", "EpqQ_", 0) && LackedFrom(Open, "EpqQ_", 0)
  {
  }

  lemma Scans2()
    ensures LackedFrom(Between, "EpqQ_", 0) && LackedFrom(Close, "EpqQ_", 0) && LackedFrom(OldName, "EpqQ", 0)
  {
  }

  lemma Scans3()
    ensures LackedFrom("quality", "Ep", 0) && LackedFrom("1080p", "qQ_", 0)
  {
  }

  lemma PiecesLack()
    ensures LacksAll(Dash, "EpqQ_") && LacksAll("07", "EpqQ_") && LacksAll(Open, "EpqQ_")
    ensures LacksAll(Between, "EpqQ_") && LacksAll(Close, "EpqQ_") && LacksAll(OldName, "EpqQ")
    ensures LacksAll("quality", "Ep") && LacksAll("1080p", "qQ_")
  {
    Scans1();
    Scans2();
    Scans3();
    Lacked(Dash, "EpqQ_");
    Lacked("07", "EpqQ_");
    Lacked(Open, "EpqQ_");
    Lacked(Between, "EpqQ_");
    Lacked(Close, "EpqQ_");
    Lacked(OldName, "EpqQ");
    Lacked("quality", "Ep");
    Lacked("1080p", "qQ_");
  }

  // ----- Where the first occurrence is -----

  /** Nothing in `a` starts `pat` when `a` lacks its first character. */
  lemma NoneBeforeByChar(a: string, pat: string, rest: string, cs: string)
    requires |pat| > 0 && pat[0] in cs && LacksAll(a, cs)
    ensures forall j :: 0 <= j < |a| ==> !OccursAt(a + pat + rest, pat, j)
  {
    var s := a + pat + rest;
    forall j | 0 <= j < |a| ensures !OccursAt(s, pat, j) {
      assert s[j] == a[j];
      if j + |pat| <= |s| {
        assert s[j..j + |pat|][0] == s[j];
      }
    }
  }

  /** Nor when no character of `a` is followed by the first two of `pat`, and those differ. */
  lemma NoneBeforeByPair(a: string, pat: string, rest: string)
    requires |pat| >= 2 && pat[0] != pat[1] && LacksPair(a, pat[0], pat[1])
    ensures forall j :: 0 <= j < |a| ==> !OccursAt(a + pat + rest, pat, j)
  {
    var s := a + pat + rest;
    forall j | 0 <= j < |a| ensures !OccursAt(s, pat, j) {
      if j + 1 < |a| {
        assert s[j] == a[j] && s[j + 1] == a[j + 1];
      } else {
        assert s[j + 1] == pat[0];
      }
      if j + |pat| <= |s| {
        assert s[j..j + |pat|][0] == s[j] && s[j..j + |pat|][1] == s[j + 1];
      }
    }
  }

  /** The first occurrence of `pat` right after `a` is the one the first alias step rewrites. */
  lemma FirstAfter(a: string, pat: string, rest: string, v: string)
    requires forall j :: 0 <= j < |a| ==> !OccursAt(a + pat + rest, pat, j)
    ensures Find(a + pat + rest, pat) == Some(|a|)
    ensures FirstReplaced(a + pat + rest, pat, v) == a + v + rest
  {
    var s := a + pat + rest;
    assert s[|a|..|a| + |pat|] == pat;
    FirstReplacedAt(s, pat, v, |a|);
    FindIs(s, pat, |a|);
    assert s[..|a|] == a;
    assert s[|a| + |pat|..] == rest;
  }

  /** And the global one, when `pat` does not occur again after it. */
  lemma AllAfter(a: string, pat: string, rest: string, v: string)
    requires |pat| > 0 && !Contains(rest, pat)
    requires forall j :: 0 <= j < |a| ==> !OccursAt(a + pat + rest, pat, j)
    ensures AllReplaced(a + pat + rest, pat, v) == a + v + rest
  {
    var s := a + pat + rest;
    FirstAfter(a, pat, rest, v);
    assert s[|a| + |pat|..] == rest;
    ReplaceOnce(s, pat, v);
  }

  /** A text lacking some character of `pat` does not hold it. */
  lemma Absent(s: string, cs: string, pat: string, i: nat)
    requires LacksAll(s, cs) && i < |pat| && pat[i] in cs
    ensures !Contains(s, pat)
  {
    AbsentChar(s, pat, i);
  }

  // ----- The two extractors on the file name -----

  lemma ShowRule1At(s: string)
    requires s == "Show.Name.S02E07.1080p.mkv"
    ensures Episode.RuleAt(Episode.Rule1, s, 10) == Some(State(16, map[1 := (11, 13), 2 := (14, 16)]))
  {
    RunIs(Digit, s, 11, true, Unbounded, 2);
    RunIs(Digit, s, 14, true, Unbounded, 2);
  }

  /** A rule that needs an `S` before a digit finds nothing before `p` where there is none. */
  lemma SeasonlessBefore(rule: Episode.Rule, s: string, p: nat)
    requires rule == Episode.Rule1 || rule == Episode.Rule2 || rule == Episode.Rule4
    requires p <= |s| && forall k :: 0 <= k < p ==> !Episode.SeasonAt(s, k)
    ensures forall k :: 0 <= k < p ==> Episode.RuleAt(rule, s, k).None?
  {
    forall k | 0 <= k < p ensures Episode.RuleAt(rule, s, k).None? {
      if Episode.RuleAt(rule, s, k).Some? {
        Episode.SeasonNeeded(rule, s, k);
      }
    }
  }

  lemma ShowSeasonless(s: string)
    requires s == "Show.Name.S02E07.1080p.mkv"
    ensures forall k :: 0 <= k < 10 ==> !Episode.SeasonAt(s, k)
  {
    forall k | 0 <= k < 10 ensures !Episode.SeasonAt(s, k) {
      if k == 0 {
        assert !IsDigit(s[1]);
      } else {
        assert !CharIs('S', s[k], true);
      }
    }
  }

  /** Pattern 1 matching first at `p` decides the episode: its group 2. */
  lemma Rule1Decides(s: string, p: nat, st: State)
    requires p <= |s| && forall k :: 0 <= k < p ==> Episode.RuleAt(Episode.Rule1, s, k).None?
    requires Episode.RuleAt(Episode.Rule1, s, p) == Some(st)
    ensures Episode.ExtractEpisode(s) == GroupText(s, st, 2)
  {
    Episode.FirstFromIs(Episode.Rule1, s, 0, p);
    assert Episode.EpisodeRules[0] == Episode.Rule1;
    Episode.EpisodeDecided(s, 0);
  }

  /** Pattern 1 finds `S02E07` and takes `07`. */
  lemma ShowEpisode(s: string)
    requires s == "Show.Name.S02E07.1080p.mkv"
    ensures Episode.ExtractEpisode(s) == Some("07")
  {
    ShowRule1At(s);
    ShowSeasonless(s);
    SeasonlessBefore(Episode.Rule1, s, 10);
    Rule1Decides(s, 10, State(16, map[1 := (11, 13), 2 := (14, 16)]));
    assert s[14..16] == "07";
  }

  lemma ShowResolution(s: string)
    requires s == "Show.Name.S02E07.1080p.mkv"
    ensures Quality.ResolutionAt(s, 17) == Some(22)
  {
    RunIs(Digit, s, 17, true, AtMost(4), 4);
    RunIs(Quality.NotDigitNorP, s, 21, true, Unbounded, 0);
  }

  /** The digit runs of `S02E07` are too short for a resolution. */
  lemma ShowShortRuns(s: string)
    requires s == "Show.Name.S02E07.1080p.mkv"
    ensures forall k :: k in {11, 12, 14, 15} ==> Quality.ResolutionAt(s, k).None?
  {
    RunIs(Digit, s, 11, true, AtMost(4), 2);
    RunIs(Digit, s, 12, true, AtMost(4), 1);
    RunIs(Digit, s, 14, true, AtMost(4), 2);
    RunIs(Digit, s, 15, true, AtMost(4), 1);
  }

  lemma ShowFirstResolution(s: string)
    requires s == "Show.Name.S02E07.1080p.mkv"
    ensures Quality.FirstResolution(s) == Some((17, 22))
  {
    ShowShortRuns(s);
    forall k | 0 <= k < 17 ensures Quality.ResolutionAt(s, k).None? {
      if k !in {11, 12, 14, 15} {
        QualityExamples.NoResolutionAt(s, k);
      }
    }
    ShowResolution(s);
    Quality.NextResolutionIs(s, 0, 17);
  }

  /** The quality is "1080p". */
  lemma ShowQuality(s: string)
    requires s == "Show.Name.S02E07.1080p.mkv"
    ensures Quality.ExtractQuality(s) == Some("1080p")
    ensures Quality.QualityOf(s) == "1080p"
  {
    ShowFirstResolution(s);
    assert s[17..22] == "1080p";
    Quality.ResolutionQuality(s, 17, 22, "1080p");
  }

  // ----- The worked rename -----

  /** "{old_name} - Episode {episode} [{quality}]", in pieces. */
  const Template: string := OldName + Dash + "Episode" + Open + "episode" + Between + "quality" + Close

  /** Before the old-name step: everything after `{old_name}`, with the quality in. */
  const Rest: string := Dash + "07" + Open + "07" + Between + "1080p" + Close

  /** The file name without ".mkv". */
  const Root: string := "Show.Name." + "S02E07.1080p"

  /** The text before the second episode alias, and after the first. */
  lemma EpisodeFirstStep()
    ensures FirstReplaced(Template, "episode", "07") == OldName + Dash + "Episode" + Open + "07" + (Between + "quality" + Close)
  {
    var a := OldName + Dash + "Episode" + Open;
    var rest := Between + "quality" + Close;
    assert Template == a + "episode" + rest;
    assert PairLackedFrom(OldName, 'e', 'p', 0);
    assert PairLackedFrom(Dash, 'e', 'p', 0);
    assert PairLackedFrom("Episode", 'e', 'p', 0);
    assert PairLackedFrom(Open, 'e', 'p', 0);
    PairLackedFromAll(OldName, 'e', 'p', 0);
    PairLackedFromAll(Dash, 'e', 'p', 0);
    PairLackedFromAll("Episode", 'e', 'p', 0);
    PairLackedFromAll(Open, 'e', 'p', 0);
    PairJoin(OldName, Dash, 'e', 'p');
    PairJoin(OldName + Dash, "Episode", 'e', 'p');
    PairJoin(OldName + Dash + "Episode", Open, 'e', 'p');
    NoneBeforeByPair(a, "episode", rest);
    FirstAfter(a, "episode", rest, "07");
  }

  /** The template once both episode aliases that occur are replaced. */
  const WithEpisode: string := OldName + Dash + "07" + Open + "07" + Between + "quality" + Close

  lemma EpisodeSecondStep()
    ensures FirstReplaced(OldName + Dash + "Episode" + Open + "07" + (Between + "quality" + Close), "Episode", "07") == WithEpisode
  {
    var a := OldName + Dash;
    var rest := Open + "07" + (Between + "quality" + Close);
    assert OldName + Dash + "Episode" + Open + "07" + (Between + "quality" + Close) == a + "Episode" + rest;
    PiecesLack();
    Fewer(OldName, "EpqQ", "E");
    Fewer(Dash, "EpqQ_", "E");
    LacksJoin(OldName, Dash, "E");
    NoneBeforeByChar(a, "Episode", rest, "E");
    FirstAfter(a, "Episode", rest, "07");
    assert a + "07" + rest == WithEpisode;
  }

  lemma WithEpisodeLacks()
    ensures LacksAll(WithEpisode, "Ep")
  {
    PiecesLack();
    Fewer(OldName, "EpqQ", "Ep");
    Fewer(Dash, "EpqQ_", "Ep");
    Fewer("07", "EpqQ_", "Ep");
    Fewer(Open, "EpqQ_", "Ep");
    Fewer(Between, "EpqQ_", "Ep");
    Fewer(Close, "EpqQ_", "Ep");
    LacksJoin(OldName, Dash, "Ep");
    LacksJoin(OldName + Dash, "07", "Ep");
    LacksJoin(OldName + Dash + "07", Open, "Ep");
    LacksJoin(OldName + Dash + "07" + Open, "07", "Ep");
    LacksJoin(OldName + Dash + "07" + Open + "07", Between, "Ep");
    LacksJoin(OldName + Dash + "07" + Open + "07" + Between, "quality", "Ep");
    LacksJoin(OldName + Dash + "07" + Open + "07" + Between + "quality", Close, "Ep");
  }

  /** `Episode 07` is not rewritten again: the lower-case alias took the braces, the capitalised one the word. */
  lemma TemplateEpisodeFilled()
    ensures EpisodeFilled(Template, Some("07")) == WithEpisode
  {
    EpisodeFirstStep();
    EpisodeSecondStep();
    WithEpisodeLacks();
    Absent(WithEpisode, "Ep", "EPISODE", 0);
    Absent(WithEpisode, "Ep", "{episode}", 2);
    EachFirstStep(Template, EpisodeAliases, "07", 0);
    EachFirstStep(Template, EpisodeAliases, "07", 1);
    EachFirstStep(Template, EpisodeAliases, "07", 2);
    EachFirstStep(Template, EpisodeAliases, "07", 3);
    assert EpisodeAliases[..0] == [];
    assert EpisodeAliases[..4] == EpisodeAliases;
  }

  /** What precedes the quality alias. */
  const BeforeQuality: string := OldName + Dash + "07" + Open + "07" + Between

  /** The template once the quality is in as well. */
  const WithQuality: string := BeforeQuality + "1080p" + Close

  lemma BeforeQualityLacks()
    ensures LacksAll(BeforeQuality, "qQ") && LacksAll(WithQuality, "qQ")
  {
    PiecesLack();
    Fewer(OldName, "EpqQ", "qQ");
    Fewer(Dash, "EpqQ_", "qQ");
    Fewer("07", "EpqQ_", "qQ");
    Fewer(Open, "EpqQ_", "qQ");
    Fewer(Between, "EpqQ_", "qQ");
    Fewer(Close, "EpqQ_", "qQ");
    Fewer("1080p", "qQ_", "qQ");
    LacksJoin(OldName, Dash, "qQ");
    LacksJoin(OldName + Dash, "07", "qQ");
    LacksJoin(OldName + Dash + "07", Open, "qQ");
    LacksJoin(OldName + Dash + "07" + Open, "07", "qQ");
    LacksJoin(OldName + Dash + "07" + Open + "07", Between, "qQ");
    LacksJoin(BeforeQuality, "1080p", "qQ");
    LacksJoin(BeforeQuality + "1080p", Close, "qQ");
  }

  /** Only the lower-case quality alias occurs, once; its replacement holds no other. */
  lemma TemplateQualityFilled()
    ensures EachAllReplaced(WithEpisode, QualityAliases, "1080p") == WithQuality
  {
    BeforeQualityLacks();
    NoneBeforeByChar(BeforeQuality, "quality", Close, "qQ");
    assert !Contains(Close, "quality");
    AllAfter(BeforeQuality, "quality", Close, "1080p");
    Absent(WithQuality, "qQ", "Quality", 0);
    Absent(WithQuality, "qQ", "QUALITY", 0);
    Absent(WithQuality, "qQ", "{quality}", 1);
    EachAllStep(WithEpisode, QualityAliases, "1080p", 0);
    EachAllStep(WithEpisode, QualityAliases, "1080p", 1);
    EachAllStep(WithEpisode, QualityAliases, "1080p", 2);
    EachAllStep(WithEpisode, QualityAliases, "1080p", 3);
    assert QualityAliases[..0] == [];
    assert QualityAliases[..4] == QualityAliases;
  }

  lemma RestLacks()
    ensures LacksAll(Rest, "_")
  {
    PiecesLack();
    Fewer(Dash, "EpqQ_", "_");
    Fewer("07", "EpqQ_", "_");
    Fewer(Open, "EpqQ_", "_");
    Fewer(Between, "EpqQ_", "_");
    Fewer(Close, "EpqQ_", "_");
    Fewer("1080p", "qQ_", "_");
    LacksJoin(Dash, "07", "_");
    LacksJoin(Dash + "07", Open, "_");
    LacksJoin(Dash + "07" + Open, "07", "_");
    LacksJoin(Dash + "07" + Open + "07", Between, "_");
    LacksJoin(Dash + "07" + Open + "07" + Between, "1080p", "_");
    LacksJoin(Dash + "07" + Open + "07" + Between + "1080p", Close, "_");
  }

  /** A pattern that opens the text and does not occur again is replaced once, in front. */
  lemma AllAtStart(pat: string, rest: string, v: string)
    requires |pat| > 0 && !Contains(rest, pat)
    ensures Contains(pat + rest, pat)
    ensures AllReplaced(pat + rest, pat, v) == v + rest
  {
    assert "" + pat + rest == pat + rest;
    FirstAfter("", pat, rest, v);
    AllAfter("", pat, rest, v);
    assert "" + v + rest == v + rest;
  }

  /** `{old_name}` opens the text and does not occur again. */
  lemma TemplateOldNameFilled(root: string)
    ensures Contains(WithQuality, OldName)
    ensures AllReplaced(WithQuality, OldName, root) == root + Rest
  {
    assert WithQuality == OldName + Rest;
    RestLacks();
    Absent(Rest, "_", OldName, 4);
    AllAtStart(OldName, Rest, root);
  }

  lemma RootLacks()
    ensures LacksAll(Root, "/")
  {
    assert LackedFrom("Show.Name.", "/", 0) && LackedFrom("S02E07.1080p", "/", 0);
    Lacked("Show.Name.", "/");
    Lacked("S02E07.1080p", "/");
    LacksJoin("Show.Name.", "S02E07.1080p", "/");
  }

  /** `posixpath.splitext` takes ".mkv" off. */
  lemma ShowSplit(f: string)
    requires f == "Show.Name.S02E07.1080p.mkv"
    ensures SplitExt(f) == ("Show.Name.S02E07.1080p", ".mkv")
  {
    assert f == Root + ".mkv";
    RootLacks();
    LastIndexUnique(Root, '/', -1);
    assert Root[0] != '.';
    SplitExtAppend(Root, ".mkv");
    assert Root == "Show.Name.S02E07.1080p";
  }

  // ----- The whole rename -----

  /** `new_file_name` from what each step of the renderer gives. */
  lemma NewFileNameFrom(template: string, f: string, episode: string, quality: string,
                        t1: string, t2: string, root: string, ext: string, rest: string)
    requires Episode.ExtractEpisode(f) == Some(episode) && episode != ""
    requires Quality.QualityOf(f) == quality
    requires EpisodeFilled(template, Some(episode)) == t1
    requires EachAllReplaced(t1, QualityAliases, quality) == t2
    requires SplitExt(f) == (root, ext)
    requires AllReplaced(t2, OldName, root) == root + rest
    ensures NewFileName(template, f) == root + rest + ext
  {
  }

  lemma TemplateText()
    ensures Template == "{old_name} - Episode {episode} [{quality}]"
  {
    var a := OldName + Dash + "Episode" + Open;
    assert a == "{old_name} - Episode {";
    var b := "episode" + Between + "quality" + Close;
    assert b == "episode} [{quality}]";
    assert Template == a + b;
    assert "{old_name} - Episode {" + "episode} [{quality}]" == "{old_name} - Episode {episode} [{quality}]";
  }

  lemma RootText()
    ensures Root == "Show.Name.S02E07.1080p"
  {
  }

  lemma RestText()
    ensures Rest + ".mkv" == " - 07 {07} [{1080p}].mkv"
  {
  }

  lemma RenamedText()
    ensures Root + Rest + ".mkv" == "Show.Name.S02E07.1080p - 07 {07} [{1080p}].mkv"
  {
    RootText();
    RestText();
    assert Root + Rest + ".mkv" == Root + (Rest + ".mkv");
    assert "Show.Name.S02E07.1080p" + " - 07 {07} [{1080p}].mkv" == "Show.Name.S02E07.1080p - 07 {07} [{1080p}].mkv";
  }

  /** The worked rename: episode, quality and old name put in, and the extension put back. */
  lemma ShowRenamed()
    ensures NewFileName("{old_name} - Episode {episode} [{quality}]", "Show.Name.S02E07.1080p.mkv")
         == "Show.Name.S02E07.1080p - 07 {07} [{1080p}].mkv"
  {
    var f := "Show.Name.S02E07.1080p.mkv";
    TemplateText();
    RootText();
    ShowEpisode(f);
    ShowQuality(f);
    ShowSplit(f);
    TemplateEpisodeFilled();
    TemplateQualityFilled();
    TemplateOldNameFilled(Root);
    NewFileNameFrom(Template, f, "07", "1080p", WithEpisode, WithQuality, Root, ".mkv", Rest);
    RenamedText();
  }
}
