/**
 * File names worked through `extract_episode_number`: one for each of the
 * patterns 2, 3, 3_2 and 4, and a season-only name on which pattern 4
 * backtracks.
 *
 * The shape lemmas first say, for any name, what a rule does on a given
 * arrangement of characters; each example then only has to measure its runs
 * of digits and spaces, and `EpisodeDecided` puts the rules together.
 */
module EpisodeExamples {
  import opened Wrappers
  import opened Chars
  import opened Regex
  import opened Episode

  // ----- Shapes -----
  // Each lemma takes the lengths of the runs it crosses as preconditions;
  // the examples measure those runs with `RunIs`.

  lemma SquareBrackets()
    ensures InClass(Opening, '[', true) && InClass(Closing, ']', true)
  {
  }

  /** A rule that needs `S` and a digit, on a name with no `S` after its first character, can only succeed at 0. */
  lemma OnlyStartSeason(rule: Rule, s: string)
    requires rule == Rule1 || rule == Rule2 || rule == Rule4
    requires forall k :: 1 <= k < |s| ==> !CharIs('S', s[k], true)
    requires rule == Rule1 ==> Pattern1At(s, 0, map[]).None?
    requires rule == Rule2 ==> Pattern2At(s, 0, map[]).None?
    requires rule == Rule4 ==> Pattern4At(s, 0, map[]).None?
    ensures FirstFrom(rule, s, 0).None?
  {
    assert RuleAt(rule, s, 0).None?;
    forall k | 0 <= k <= |s| ensures RuleAt(rule, s, k).None? {
      if k > 0 && RuleAt(rule, s, k).Some? {
        SeasonNeeded(rule, s, k);
      }
    }
    FirstFromNone(rule, s, 0);
  }

  /** `S` and `n` digits, then neither `E` nor the end: pattern 1 fails at 0. */
  lemma SeasonNoMarker(s: string, n: nat)
    requires n >= 1 && 1 + n < |s|
    requires Digits(s, 1) == n && !CharIs('E', s[1 + n], true)
    ensures Pattern1At(s, 0, map[]).None?
  {
  }

  /** `S` and `n` digits, then the end or a character that starts no marker: patterns 1 and 2 fail at 0. */
  lemma SeasonStops(s: string, n: nat)
    requires n >= 1 && 1 + n <= |s|
    requires Digits(s, 1) == n && Spaces(s, 1 + n) == 0
    requires 1 + n == |s| || (!CharIs('E', s[1 + n], true) && s[1 + n] != '-')
    ensures Pattern1At(s, 0, map[]).None? && Pattern2At(s, 0, map[]).None?
  {
  }

  /** The marker `EP` at `k` followed by `m` digits: the `E` branch finds no digit, `EP` takes them as group 2. */
  lemma MarkerEPAt(s: string, k: nat, c: Captures, m: nat)
    requires m >= 1 && k + 2 + m <= |s|
    requires CharIs('E', s[k], true) && Digits(s, k + 1) == 0
    requires CharIs('P', s[k + 1], true) && Digits(s, k + 2) == m
    ensures MarkerEpisode(s, k, c) == Some(State(k + 2 + m, c[2 := (k + 2, k + 2 + m)]))
  {
    assert EDigits(s, k, c).None?;
  }

  /** Pattern 2 on `S`, `n` digits, `w` spaces, `EP` and `m` digits. */
  lemma SeasonSpacedEP(s: string, n: nat, w: nat, m: nat)
    requires n >= 1 && m >= 1 && 3 + n + w + m <= |s|
    requires CharIs('S', s[0], true) && Digits(s, 1) == n && Spaces(s, 1 + n) == w
    requires CharIs('E', s[1 + n + w], true) && Digits(s, 2 + n + w) == 0
    requires CharIs('P', s[2 + n + w], true) && Digits(s, 3 + n + w) == m
    ensures Pattern2At(s, 0, map[]) == Some(State(3 + n + w + m, map[1 := (1, 1 + n), 2 := (3 + n + w, 3 + n + w + m)]))
  {
    MarkerEPAt(s, 1 + n + w, map[1 := (1, 1 + n)], m);
  }

  /** An opening bracket at 0 and no space after it: pattern 3 continues with its marker at 1. */
  lemma BracketStart(s: string)
    requires 1 < |s| && InClass(Opening, s[0], true) && Spaces(s, 1) == 0
    ensures Pattern3At(s, 0, map[]) == BracketMarker(s, 1, map[])
  {
  }

  /** `EP` at 1 with no space after either letter: the `E` branch finds no digit, the `EP` branch continues at 3. */
  lemma MarkerEP(s: string)
    requires 3 < |s| && CharIs('E', s[1], true) && CharIs('P', s[2], true)
    requires Spaces(s, 2) == 0 && Spaces(s, 3) == 0 && Digits(s, 2) == 0
    ensures BracketMarker(s, 1, map[]) == NumberClosing(s, 3, map[])
  {
    assert NumberClosing(s, 2, map[]).None?;
  }

  /** `n` digits at 3 closed directly by a closing bracket. */
  lemma DigitsClosed(s: string, n: nat)
    requires n >= 1 && 4 + n <= |s| && InClass(Closing, s[3 + n], true)
    requires Digits(s, 3) == n && Spaces(s, 3 + n) == 0
    ensures NumberClosing(s, 3, map[]) == Some(State(4 + n, map[1 := (3, 3 + n)]))
  {
  }

  /** Pattern 4 on `S`, `n` digits, `g` other characters and `m` digits. */
  lemma SeasonGapNumber(s: string, n: nat, g: nat, m: nat)
    requires n >= 1 && 1 + n + g < |s|
    requires CharIs('S', s[0], true) && Digits(s, 1) == n && NonDigits(s, 1 + n) == g && Digits(s, 1 + n + g) == m
    ensures Pattern4At(s, 0, map[]) == Some(State(1 + n + g + m, map[1 := (1, 1 + n), 2 := (1 + n + g, 1 + n + g + m)]))
  {
  }

  /** Pattern 4 on `S` and `n` digits with nothing after them: the last digit becomes group 2. */
  lemma SeasonSplit(s: string, n: nat)
    requires n >= 2 && |s| == 1 + n
    requires CharIs('S', s[0], true) && Digits(s, 1) == n
    ensures Pattern4At(s, 0, map[]) == Some(State(1 + n, map[1 := (1, n), 2 := (n, 1 + n)]))
  {
    assert NonDigits(s, 1 + n) == 0;
  }

  /** Pattern 3_2 fails at a character that is neither white space nor `-`. */
  lemma DashSkipped(s: string, k: nat)
    requires k < |s| && !IsSpace(s[k]) && s[k] != '-'
    ensures Pattern3_2At(s, k, map[]).None?
  {
    RunIs(Space, s, k, true, Unbounded, 0);
  }

  /** Pattern 3_2 fails at a `-` with neither white space nor a digit after it. */
  lemma DashNoDigit(s: string, k: nat)
    requires k + 1 < |s| && s[k] == '-'
    requires Spaces(s, k) == 0 && Spaces(s, k + 1) == 0 && Digits(s, k + 1) == 0
    ensures Pattern3_2At(s, k, map[]).None?
  {
  }

  /** Pattern 3_2 on `-` and `n` digits with no white space around them. */
  lemma DashNumber(s: string, k: nat, n: nat)
    requires n >= 1 && k + 1 + n <= |s| && s[k] == '-'
    requires Spaces(s, k) == 0 && Spaces(s, k + 1) == 0 && Digits(s, k + 1) == n && Spaces(s, k + 1 + n) == 0
    ensures Pattern3_2At(s, k, map[]) == Some(State(k + 1 + n, map[1 := (k + 1, k + 1 + n)]))
  {
  }

  // ----- From the closed forms to the leftmost search -----

  lemma Rule2First(s: string, st: State)
    requires Pattern2At(s, 0, map[]) == Some(st)
    ensures FirstFrom(Rule2, s, 0) == Some(st)
  {
  }

  lemma Rule3First(s: string, st: State)
    requires Pattern3At(s, 0, map[]) == Some(st)
    ensures FirstFrom(Rule3, s, 0) == Some(st)
  {
  }

  lemma Rule4First(s: string, st: State)
    requires Pattern4At(s, 0, map[]) == Some(st)
    ensures FirstFrom(Rule4, s, 0) == Some(st)
  {
  }

  /** Pattern 3_2 failing before `p` and succeeding at `p` is the leftmost search's answer. */
  lemma DashFirst(s: string, p: nat, st: State)
    requires p <= |s|
    requires forall k :: 0 <= k < p ==> Pattern3_2At(s, k, map[]).None?
    requires Pattern3_2At(s, p, map[]) == Some(st)
    ensures FirstFrom(Rule3_2, s, 0) == Some(st)
  {
    forall k | 0 <= k < p ensures RuleAt(Rule3_2, s, k).None? {
    }
    FirstFromIs(Rule3_2, s, 0, p);
  }

  // ----- "S01 EP05": pattern 1 stops at the space, pattern 2 skips it -----

  lemma SpacedRule1(s: string)
    requires s == "S01 EP05"
    ensures FirstFrom(Rule1, s, 0).None?
  {
    RunIs(Digit, s, 1, true, Unbounded, 2);
    SeasonNoMarker(s, 2);
    OnlyStartSeason(Rule1, s);
  }

  lemma SpacedRule2(s: string)
    requires s == "S01 EP05"
    ensures FirstFrom(Rule2, s, 0) == Some(State(8, map[1 := (1, 3), 2 := (6, 8)]))
  {
    RunIs(Digit, s, 1, true, Unbounded, 2);
    RunIs(Space, s, 3, true, Unbounded, 1);
    RunIs(Digit, s, 5, true, Unbounded, 0);
    RunIs(Digit, s, 6, true, Unbounded, 2);
    SeasonSpacedEP(s, 2, 1, 2);
    Rule2First(s, State(8, map[1 := (1, 3), 2 := (6, 8)]));
  }

  lemma BracketRule3(s: string)
    requires s == "[EP05]"
    ensures FirstFrom(Rule3, s, 0) == Some(State(6, map[1 := (3, 5)]))
  {
    RunIs(Space, s, 1, true, Unbounded, 0);
    RunIs(Space, s, 2, true, Unbounded, 0);
    RunIs(Space, s, 3, true, Unbounded, 0);
    RunIs(Digit, s, 2, true, Unbounded, 0);
    RunIs(Digit, s, 3, true, Unbounded, 2);
    RunIs(Space, s, 5, true, Unbounded, 0);
    SquareBrackets();
    BracketStart(s);
    MarkerEP(s);
    DigitsClosed(s, 2);
    Rule3First(s, State(6, map[1 := (3, 5)]));
  }

  lemma BracketNoSeason(s: string)
    requires s == "[EP05]"
    ensures FirstFrom(Rule1, s, 0).None? && FirstFrom(Rule2, s, 0).None?
  {
    forall k | 0 <= k < |s| ensures !SeasonAt(s, k) {
      assert !CharIs('S', s[k], true);
    }
    NoSeason(Rule1, s);
    NoSeason(Rule2, s);
  }

  lemma LettersRules12(s: string)
    requires s == "S01xyz05"
    ensures FirstFrom(Rule1, s, 0).None? && FirstFrom(Rule2, s, 0).None?
  {
    RunIs(Digit, s, 1, true, Unbounded, 2);
    RunIs(Space, s, 3, true, Unbounded, 0);
    SeasonStops(s, 2);
    OnlyStartSeason(Rule1, s);
    OnlyStartSeason(Rule2, s);
  }

  lemma LettersNoBracketNoDash(s: string)
    requires s == "S01xyz05"
    ensures FirstFrom(Rule3, s, 0).None? && FirstFrom(Rule3_2, s, 0).None?
  {
    NoBracket(s);
    NoDash(s);
  }

  lemma LettersRule4(s: string)
    requires s == "S01xyz05"
    ensures FirstFrom(Rule4, s, 0) == Some(State(8, map[1 := (1, 3), 2 := (6, 8)]))
  {
    RunIs(Digit, s, 1, true, Unbounded, 2);
    RunIs(NonDigit, s, 3, true, Unbounded, 3);
    RunIs(Digit, s, 6, true, Unbounded, 2);
    SeasonGapNumber(s, 2, 3, 2);
    Rule4First(s, State(8, map[1 := (1, 3), 2 := (6, 8)]));
  }

  lemma TitleNoSeason(s: string)
    requires s == "Spider-Man-2002"
    ensures FirstFrom(Rule1, s, 0).None? && FirstFrom(Rule2, s, 0).None?
  {
    forall k | 0 <= k < |s| ensures !SeasonAt(s, k) {
      if k == 0 {
        assert !IsDigit(s[1]);
      } else {
        assert !CharIs('S', s[k], true);
      }
    }
    NoSeason(Rule1, s);
    NoSeason(Rule2, s);
  }

  lemma TitleNoBracket(s: string)
    requires s == "Spider-Man-2002"
    ensures FirstFrom(Rule3, s, 0).None?
  {
    NoBracket(s);
  }

  lemma TitleFirstDash(s: string)
    requires s == "Spider-Man-2002"
    ensures forall k :: 0 <= k < 10 ==> Pattern3_2At(s, k, map[]).None?
  {
    forall k | 0 <= k < 10 ensures Pattern3_2At(s, k, map[]).None? {
      if k == 6 {
        RunIs(Space, s, 6, true, Unbounded, 0);
        RunIs(Space, s, 7, true, Unbounded, 0);
        RunIs(Digit, s, 7, true, Unbounded, 0);
        DashNoDigit(s, 6);
      } else {
        DashSkipped(s, k);
      }
    }
  }

  lemma TitleSecondDash(s: string)
    requires s == "Spider-Man-2002"
    ensures Pattern3_2At(s, 10, map[]) == Some(State(15, map[1 := (11, 15)]))
  {
    RunIs(Space, s, 10, true, Unbounded, 0);
    RunIs(Space, s, 11, true, Unbounded, 0);
    RunIs(Digit, s, 11, true, Unbounded, 4);
    RunIs(Space, s, 15, true, Unbounded, 0);
    DashNumber(s, 10, 4);
  }

  lemma TitleRule3_2(s: string)
    requires s == "Spider-Man-2002"
    ensures FirstFrom(Rule3_2, s, 0) == Some(State(15, map[1 := (11, 15)]))
  {
    TitleFirstDash(s);
    TitleSecondDash(s);
    DashFirst(s, 10, State(15, map[1 := (11, 15)]));
  }

  lemma SeasonOnlyRules12(s: string)
    requires s == "S12"
    ensures FirstFrom(Rule1, s, 0).None? && FirstFrom(Rule2, s, 0).None?
  {
    RunIs(Digit, s, 1, true, Unbounded, 2);
    SeasonStops(s, 2);
    OnlyStartSeason(Rule1, s);
    OnlyStartSeason(Rule2, s);
  }

  lemma SeasonOnlyRule4(s: string)
    requires s == "S12"
    ensures FirstFrom(Rule4, s, 0) == Some(State(3, map[1 := (1, 2), 2 := (2, 3)]))
  {
    RunIs(Digit, s, 1, true, Unbounded, 2);
    SeasonSplit(s, 2);
    Rule4First(s, State(3, map[1 := (1, 2), 2 := (2, 3)]));
  }

  // ----- The five examples -----

  lemma SpacedRules(s: string)
    requires s == "S01 EP05"
    ensures forall m :: 0 <= m < 1 ==> FirstFrom(EpisodeRules[m], s, 0).None?
    ensures EpisodeRules[1] == Rule2 && FirstFrom(EpisodeRules[1], s, 0) == Some(State(8, map[1 := (1, 3), 2 := (6, 8)]))
  {
    SpacedRule1(s);
    SpacedRule2(s);
    forall m | 0 <= m < 1 ensures FirstFrom(EpisodeRules[m], s, 0).None? {
      assert EpisodeRules[m] == Rule1;
    }
  }

  /** `S01 EP05` gives `05`. */
  lemma SpacedEpisode(s: string)
    requires s == "S01 EP05"
    ensures ExtractEpisode(s) == Some("05")
  {
    assert s[6..8] == "05";
    SpacedRules(s);
    EpisodeDecided(s, 1);
  }

  lemma BracketRules(s: string)
    requires s == "[EP05]"
    ensures forall m :: 0 <= m < 2 ==> FirstFrom(EpisodeRules[m], s, 0).None?
    ensures EpisodeRules[2] == Rule3 && FirstFrom(EpisodeRules[2], s, 0) == Some(State(6, map[1 := (3, 5)]))
  {
    BracketNoSeason(s);
    BracketRule3(s);
    forall m | 0 <= m < 2 ensures FirstFrom(EpisodeRules[m], s, 0).None? {
      if m == 0 { assert EpisodeRules[m] == Rule1; }
      else { assert EpisodeRules[m] == Rule2; }
    }
  }

  /** `[EP05]` gives `05`. */
  lemma BracketEpisode(s: string)
    requires s == "[EP05]"
    ensures ExtractEpisode(s) == Some("05")
  {
    assert s[3..5] == "05";
    BracketRules(s);
    EpisodeDecided(s, 2);
  }

  lemma LettersRules(s: string)
    requires s == "S01xyz05"
    ensures forall m :: 0 <= m < 4 ==> FirstFrom(EpisodeRules[m], s, 0).None?
    ensures EpisodeRules[4] == Rule4 && FirstFrom(EpisodeRules[4], s, 0) == Some(State(8, map[1 := (1, 3), 2 := (6, 8)]))
  {
    LettersRules12(s);
    LettersNoBracketNoDash(s);
    LettersRule4(s);
    forall m | 0 <= m < 4 ensures FirstFrom(EpisodeRules[m], s, 0).None? {
      if m == 0 { assert EpisodeRules[m] == Rule1; }
      else if m == 1 { assert EpisodeRules[m] == Rule2; }
      else if m == 2 { assert EpisodeRules[m] == Rule3; }
      else { assert EpisodeRules[m] == Rule3_2; }
    }
  }

  /** `S01xyz05` gives `05`. */
  lemma LettersEpisode(s: string)
    requires s == "S01xyz05"
    ensures ExtractEpisode(s) == Some("05")
  {
    assert s[6..8] == "05";
    LettersRules(s);
    EpisodeDecided(s, 4);
  }

  lemma TitleRules(s: string)
    requires s == "Spider-Man-2002"
    ensures forall m :: 0 <= m < 3 ==> FirstFrom(EpisodeRules[m], s, 0).None?
    ensures EpisodeRules[3] == Rule3_2 && FirstFrom(EpisodeRules[3], s, 0) == Some(State(15, map[1 := (11, 15)]))
  {
    TitleNoSeason(s);
    TitleNoBracket(s);
    TitleRule3_2(s);
    forall m | 0 <= m < 3 ensures FirstFrom(EpisodeRules[m], s, 0).None? {
      if m == 0 { assert EpisodeRules[m] == Rule1; }
      else if m == 1 { assert EpisodeRules[m] == Rule2; }
      else { assert EpisodeRules[m] == Rule3; }
    }
  }

  /** `Spider-Man-2002` gives `2002`, although the name has no episode. */
  lemma TitleEpisode(s: string)
    requires s == "Spider-Man-2002"
    ensures ExtractEpisode(s) == Some("2002")
  {
    assert s[11..15] == "2002";
    TitleRules(s);
    EpisodeDecided(s, 3);
  }

  lemma SeasonOnlyRules(s: string)
    requires s == "S12"
    ensures forall m :: 0 <= m < 4 ==> FirstFrom(EpisodeRules[m], s, 0).None?
    ensures EpisodeRules[4] == Rule4 && FirstFrom(EpisodeRules[4], s, 0) == Some(State(3, map[1 := (1, 2), 2 := (2, 3)]))
  {
    SeasonOnlyRules12(s);
    NoBracket(s);
    NoDash(s);
    SeasonOnlyRule4(s);
    forall m | 0 <= m < 4 ensures FirstFrom(EpisodeRules[m], s, 0).None? {
      if m == 0 { assert EpisodeRules[m] == Rule1; }
      else if m == 1 { assert EpisodeRules[m] == Rule2; }
      else if m == 2 { assert EpisodeRules[m] == Rule3; }
      else { assert EpisodeRules[m] == Rule3_2; }
    }
  }

  /**
   * `S12` gives `2`: no digit follows the season, so `(\d+)` of pattern 4
   * takes the last digit of the season's run.
   */
  lemma SeasonOnlyEpisode(s: string)
    requires s == "S12"
    ensures ExtractEpisode(s) == Some("2")
  {
    assert s[2..3] == "2";
    SeasonOnlyRules(s);
    EpisodeDecided(s, 4);
  }
}
