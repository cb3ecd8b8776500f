/**
 * Episode-number extraction (`extract_episode_number` in
 * plugins/file_rename.py): five compiled patterns tried in a fixed order,
 * the first one that `re.search` finds deciding the answer.
 *
 * Each pattern is written out as a `Regex.Pattern`, and a closed form
 * (`Pattern1At` and so on) says directly what `Match` does with it from a
 * given position; a `...Match` lemma proves the two agree on every input.
 */
module Episode {
  import opened Wrappers
  import opened Chars
  import opened Regex

  // ----- The patterns -----

  /** `(\d+)` as group 1. */
  const Number1: Node := Group(1, Cons(Plus(Digit), Nil))

  /** `(\d+)` as group 2. */
  const Number2: Node := Group(2, Cons(Plus(Digit), Nil))

  /** `(?:E|EP)` */
  const EOrEP: Node := Alt(Cons(Ch('E'), Nil), Cons(Ch('E'), Cons(Ch('P'), Nil)))

  // pattern1 = re.compile(r'S(\d+)(?:E|EP)(\d+)', re.IGNORECASE)
  const Pattern1: Pattern := Pattern(Cons(Ch('S'), Cons(Number1, Cons(EOrEP, Cons(Number2, Nil)))), true)

  /** `-\s*EP` */
  const DashEP: Nodes := Cons(Ch('-'), Cons(Star(Space), Cons(Ch('E'), Cons(Ch('P'), Nil))))

  /** `(?:E|EP|-\s*EP)`, as Python parses it: `E`, else (`EP`, else `-\s*EP`). */
  const Marker: Node := Alt(Cons(Ch('E'), Nil), Cons(Alt(Cons(Ch('E'), Cons(Ch('P'), Nil)), DashEP), Nil))

  // pattern2 = re.compile(r'S(\d+)\s*(?:E|EP|-\s*EP)(\d+)', re.IGNORECASE)
  const Pattern2: Pattern :=
    Pattern(Cons(Ch('S'), Cons(Number1, Cons(Star(Space), Cons(Marker, Cons(Number2, Nil))))), true)

  /** `[([{<]` */
  const Opening: Class := Set(false, false, "([{<")

  /** `[)\]}>]` */
  const Closing: Class := Set(false, false, ")]}>")

  /** `\s*[)\]}>]` */
  const ClosingNodes: Nodes := Cons(Star(Space), Cons(One(Closing), Nil))

  /** `\s*(\d+)\s*[)\]}>]` */
  const SpacedNumberClosing: Nodes := Cons(Star(Space), Cons(Number1, ClosingNodes))

  // pattern3 = re.compile(r'(?:[([{<]\s*(?:E|EP)\s*(\d+)\s*[)\]}>])', re.IGNORECASE)
  const Pattern3: Pattern := Pattern(Cons(One(Opening), Cons(Star(Space), Cons(EOrEP, SpacedNumberClosing))), true)

  // pattern3_2 = re.compile(r'(?:\s*-\s*(\d+)\s*)')
  const Pattern3_2: Pattern :=
    Pattern(Cons(Star(Space), Cons(Ch('-'), Cons(Star(Space), Cons(Number1, Cons(Star(Space), Nil))))), false)

  /** `[^\d]` */
  const NonDigit: Class := Set(true, true, "")

  // pattern4 = re.compile(r'S(\d+)[^\d]*(\d+)', re.IGNORECASE)
  const Pattern4: Pattern := Pattern(Cons(Ch('S'), Cons(Number1, Cons(Star(NonDigit), Cons(Number2, Nil)))), true)

  // ----- Runs of characters -----

  /** The longest digit run starting at `k`. */
  function Digits(s: string, k: nat): nat
    requires k <= |s|
  {
    Run(Digit, s, k, true, Unbounded)
  }

  /** The longest run of white space starting at `k`. */
  function Spaces(s: string, k: nat): nat
    requires k <= |s|
  {
    Run(Space, s, k, true, Unbounded)
  }

  /** The longest run of non-digits starting at `k`. */
  function NonDigits(s: string, k: nat): nat
    requires k <= |s|
  {
    Run(NonDigit, s, k, true, Unbounded)
  }

  // ----- Shared pieces: `E(\d+)`, `EP(\d+)` and `S(\d+)` -----

  /** `E(\d+)` at `k`, the digits captured as group 2. */
  function EDigits(s: string, k: nat, caps: Captures): Option<State>
    requires k <= |s|
  {
    if k < |s| && CharIs('E', s[k], true) && Digits(s, k + 1) >= 1 then
      Some(State(k + 1 + Digits(s, k + 1), caps[2 := (k + 1, k + 1 + Digits(s, k + 1))]))
    else None
  }

  /** `EP(\d+)` at `k`, the digits captured as group 2. */
  function EPDigits(s: string, k: nat, caps: Captures): Option<State>
    requires k <= |s|
  {
    if k + 1 < |s| && CharIs('E', s[k], true) && CharIs('P', s[k + 1], true) && Digits(s, k + 2) >= 1 then
      Some(State(k + 2 + Digits(s, k + 2), caps[2 := (k + 2, k + 2 + Digits(s, k + 2))]))
    else None
  }

  /** `(?:E|EP)(\d+)` at `k`: the `E` branch first. */
  function EOrEPDigits(s: string, k: nat, caps: Captures): Option<State>
    requires k <= |s|
  {
    if EDigits(s, k, caps).Some? then EDigits(s, k, caps) else EPDigits(s, k, caps)
  }

  lemma EDigitsMatch(s: string, k: nat, caps: Captures)
    requires k <= |s|
    ensures Match(Cons(Ch('E'), Cons(Number2, Nil)), s, k, caps, true) == EDigits(s, k, caps)
  {
    MatchOne(Lit('E'), Cons(Number2, Nil), s, k, caps, true);
    if k < |s| {
      TrailingDigits(2, s, k + 1, caps, true);
    }
  }

  lemma EPDigitsMatch(s: string, k: nat, caps: Captures)
    requires k <= |s|
    ensures Match(Cons(Ch('E'), Cons(Ch('P'), Cons(Number2, Nil))), s, k, caps, true) == EPDigits(s, k, caps)
  {
    MatchOne(Lit('E'), Cons(Ch('P'), Cons(Number2, Nil)), s, k, caps, true);
    if k < |s| {
      MatchOne(Lit('P'), Cons(Number2, Nil), s, k + 1, caps, true);
      if k + 1 < |s| {
        TrailingDigits(2, s, k + 2, caps, true);
      }
    }
  }

  lemma EOrEPDigitsMatch(s: string, k: nat, caps: Captures)
    requires k <= |s|
    ensures Match(Cons(EOrEP, Cons(Number2, Nil)), s, k, caps, true) == EOrEPDigits(s, k, caps)
  {
    var r := Cons(Number2, Nil);
    MatchAlt(Cons(Ch('E'), Nil), Cons(Ch('E'), Cons(Ch('P'), Nil)), r, s, k, caps, true);
    assert Append(Cons(Ch('E'), Nil), r) == Cons(Ch('E'), r);
    assert Append(Cons(Ch('E'), Cons(Ch('P'), Nil)), r) == Cons(Ch('E'), Cons(Ch('P'), r));
    EDigitsMatch(s, k, caps);
    EPDigitsMatch(s, k, caps);
  }

  /**
   * A pattern that starts with `S(\d+)`, and whose remainder cannot begin at
   * a digit, takes the longest digit run after the `S` as group 1.
   */
  lemma SeasonMatch(tail: Nodes, s: string, i: nat, caps: Captures)
    requires i <= |s|
    requires FailsOn(Digit, Cons(Close(1, i + 1), tail), s, i + 2, caps, true)
    ensures Match(Cons(Ch('S'), Cons(Number1, tail)), s, i, caps, true)
         == if i < |s| && CharIs('S', s[i], true) && Digits(s, i + 1) >= 1
            then Match(tail, s, i + 1 + Digits(s, i + 1), caps[1 := (i + 1, i + 1 + Digits(s, i + 1))], true)
            else None
  {
    MatchOne(Lit('S'), Cons(Number1, tail), s, i, caps, true);
    if i < |s| && CharIs('S', s[i], true) {
      DigitGroupLongest(1, tail, s, i + 1, caps, true);
    }
  }

  // ----- pattern1 -----

  /** Pattern 1 from position `i`, in closed form. */
  function Pattern1At(s: string, i: nat, caps: Captures): Option<State>
    requires i <= |s|
  {
    if i < |s| && CharIs('S', s[i], true) && Digits(s, i + 1) >= 1 then
      var j := i + 1 + Digits(s, i + 1);
      EOrEPDigits(s, j, caps[1 := (i + 1, j)])
    else None
  }

  lemma Pattern1TailNotAtDigit(s: string, a: nat, j: nat, caps: Captures)
    requires j < |s| && IsDigit(s[j])
    ensures Match(Cons(Close(1, a), Cons(EOrEP, Cons(Number2, Nil))), s, j, caps, true).None?
  {
    MatchClose(1, a, Cons(EOrEP, Cons(Number2, Nil)), s, j, caps, true);
    EOrEPDigitsMatch(s, j, caps[1 := (a, j)]);
  }

  lemma Pattern1TailNone(s: string, a: nat, caps: Captures)
    ensures FailsOn(Digit, Cons(Close(1, a), Cons(EOrEP, Cons(Number2, Nil))), s, a + 1, caps, true)
  {
    forall j | a + 1 <= j < |s| && InClass(Digit, s[j], true)
      ensures Match(Cons(Close(1, a), Cons(EOrEP, Cons(Number2, Nil))), s, j, caps, true).None?
    {
      Pattern1TailNotAtDigit(s, a, j, caps);
    }
  }

  lemma Pattern1Match(s: string, i: nat, caps: Captures)
    requires i <= |s|
    ensures Match(Pattern1.nodes, s, i, caps, true) == Pattern1At(s, i, caps)
  {
    var tail := Cons(EOrEP, Cons(Number2, Nil));
    Pattern1TailNone(s, i + 1, caps);
    SeasonMatch(tail, s, i, caps);
    if i < |s| && CharIs('S', s[i], true) && Digits(s, i + 1) >= 1 {
      var j := i + 1 + Digits(s, i + 1);
      EOrEPDigitsMatch(s, j, caps[1 := (i + 1, j)]);
    }
  }

  // ----- pattern2 -----

  /** `-\s*EP(\d+)` at `k`. */
  function DashEPDigits(s: string, k: nat, caps: Captures): Option<State>
    requires k <= |s|
  {
    if k < |s| && s[k] == '-' then EPDigits(s, k + 1 + Spaces(s, k + 1), caps) else None
  }

  /** Pattern 2 from its marker on: `E`, `EP` or `-\s*EP` at `k`, then the episode digits. */
  function MarkerEpisode(s: string, k: nat, caps: Captures): Option<State>
    requires k <= |s|
  {
    if EOrEPDigits(s, k, caps).Some? then EOrEPDigits(s, k, caps) else DashEPDigits(s, k, caps)
  }

  /** Pattern 2 from position `i`, in closed form. */
  function Pattern2At(s: string, i: nat, caps: Captures): Option<State>
    requires i <= |s|
  {
    if i < |s| && CharIs('S', s[i], true) && Digits(s, i + 1) >= 1 then
      var j := i + 1 + Digits(s, i + 1);
      MarkerEpisode(s, j + Spaces(s, j), caps[1 := (i + 1, j)])
    else None
  }

  lemma DashEPDigitsMatch(s: string, k: nat, caps: Captures)
    requires k <= |s|
    ensures Match(Cons(Ch('-'), Cons(Star(Space), Cons(Ch('E'), Cons(Ch('P'), Cons(Number2, Nil))))), s, k, caps, true)
         == DashEPDigits(s, k, caps)
  {
    var ep := Cons(Ch('E'), Cons(Ch('P'), Cons(Number2, Nil)));
    MatchOne(Lit('-'), Cons(Star(Space), ep), s, k, caps, true);
    if k < |s| && s[k] == '-' {
      SpacesEPDigitsMatch(s, k + 1, caps);
    }
  }

  /** `\s*EP(\d+)` at `k`. */
  lemma SpacesEPDigitsMatch(s: string, k: nat, caps: Captures)
    requires k <= |s|
    ensures Match(Cons(Star(Space), Cons(Ch('E'), Cons(Ch('P'), Cons(Number2, Nil)))), s, k, caps, true)
         == EPDigits(s, k + Spaces(s, k), caps)
  {
    var ep := Cons(Ch('E'), Cons(Ch('P'), Cons(Number2, Nil)));
    EPNoneAtSpace(s, k, caps);
    StarLongest(Space, ep, s, k, caps, true);
    EPDigitsMatch(s, k + Spaces(s, k), caps);
  }

  lemma EPNoneAtSpace(s: string, k: nat, caps: Captures)
    ensures FailsOn(Space, Cons(Ch('E'), Cons(Ch('P'), Cons(Number2, Nil))), s, k, caps, true)
  {
    forall j | k <= j < |s| && InClass(Space, s[j], true)
      ensures Match(Cons(Ch('E'), Cons(Ch('P'), Cons(Number2, Nil))), s, j, caps, true).None?
    {
      MatchOne(Lit('E'), Cons(Ch('P'), Cons(Number2, Nil)), s, j, caps, true);
    }
  }

  lemma MarkerMatch(s: string, k: nat, caps: Captures)
    requires k <= |s|
    ensures Match(Cons(Marker, Cons(Number2, Nil)), s, k, caps, true) == MarkerEpisode(s, k, caps)
  {
    var r := Cons(Number2, Nil);
    var ep := Cons(Ch('E'), Cons(Ch('P'), Nil));
    var inner := Alt(ep, DashEP);
    MatchAlt(Cons(Ch('E'), Nil), Cons(inner, Nil), r, s, k, caps, true);
    assert Append(Cons(Ch('E'), Nil), r) == Cons(Ch('E'), r);
    assert Append(Cons(inner, Nil), r) == Cons(inner, r);
    MatchAlt(ep, DashEP, r, s, k, caps, true);
    assert Append(ep, r) == Cons(Ch('E'), Cons(Ch('P'), r));
    assert Append(DashEP, r) == Cons(Ch('-'), Cons(Star(Space), Cons(Ch('E'), Cons(Ch('P'), r))));
    EDigitsMatch(s, k, caps);
    EPDigitsMatch(s, k, caps);
    DashEPDigitsMatch(s, k, caps);
  }

  lemma Pattern2TailMatch(s: string, j: nat, caps: Captures)
    requires j <= |s|
    ensures Match(Cons(Star(Space), Cons(Marker, Cons(Number2, Nil))), s, j, caps, true)
         == MarkerEpisode(s, j + Spaces(s, j), caps)
  {
    var r := Cons(Marker, Cons(Number2, Nil));
    MarkerNoneAtSpace(s, j, caps);
    StarLongest(Space, r, s, j, caps, true);
    MarkerMatch(s, j + Spaces(s, j), caps);
  }

  lemma MarkerNoneAtSpace(s: string, j: nat, caps: Captures)
    ensures FailsOn(Space, Cons(Marker, Cons(Number2, Nil)), s, j, caps, true)
  {
    forall q | j <= q < |s| && InClass(Space, s[q], true)
      ensures Match(Cons(Marker, Cons(Number2, Nil)), s, q, caps, true).None?
    {
      MarkerMatch(s, q, caps);
    }
  }

  lemma Pattern2TailNotAtDigit(s: string, a: nat, j: nat, caps: Captures)
    requires j < |s| && IsDigit(s[j])
    ensures Match(Cons(Close(1, a), Cons(Star(Space), Cons(Marker, Cons(Number2, Nil)))), s, j, caps, true).None?
  {
    MatchClose(1, a, Cons(Star(Space), Cons(Marker, Cons(Number2, Nil))), s, j, caps, true);
    Pattern2TailMatch(s, j, caps[1 := (a, j)]);
    assert Spaces(s, j) == 0;
  }

  lemma Pattern2TailNone(s: string, a: nat, caps: Captures)
    ensures FailsOn(Digit, Cons(Close(1, a), Cons(Star(Space), Cons(Marker, Cons(Number2, Nil)))), s, a + 1, caps, true)
  {
    forall j | a + 1 <= j < |s| && InClass(Digit, s[j], true)
      ensures Match(Cons(Close(1, a), Cons(Star(Space), Cons(Marker, Cons(Number2, Nil)))), s, j, caps, true).None?
    {
      Pattern2TailNotAtDigit(s, a, j, caps);
    }
  }

  lemma Pattern2Match(s: string, i: nat, caps: Captures)
    requires i <= |s|
    ensures Match(Pattern2.nodes, s, i, caps, true) == Pattern2At(s, i, caps)
  {
    var tail := Cons(Star(Space), Cons(Marker, Cons(Number2, Nil)));
    Pattern2TailNone(s, i + 1, caps);
    SeasonMatch(tail, s, i, caps);
    if i < |s| && CharIs('S', s[i], true) && Digits(s, i + 1) >= 1 {
      var j := i + 1 + Digits(s, i + 1);
      Pattern2TailMatch(s, j, caps[1 := (i + 1, j)]);
    }
  }

  // ----- pattern3 -----

  /** `\s*[)\]}>]` at `k`. */
  function ClosingAfter(s: string, k: nat, caps: Captures): Option<State>
    requires k <= |s|
  {
    var m := k + Spaces(s, k);
    if m < |s| && InClass(Closing, s[m], true) then Some(State(m + 1, caps)) else None
  }

  /** `(\d+)\s*[)\]}>]` at `k`, the digits captured as group 1. */
  function NumberClosing(s: string, k: nat, caps: Captures): Option<State>
    requires k <= |s|
  {
    var n := Digits(s, k);
    if n >= 1 then ClosingAfter(s, k + n, caps[1 := (k, k + n)]) else None
  }

  /** `\s*(\d+)\s*[)\]}>]` at `k`. */
  function SpacedNumberClosingAt(s: string, k: nat, caps: Captures): Option<State>
    requires k <= |s|
  {
    NumberClosing(s, k + Spaces(s, k), caps)
  }

  /** `(?:E|EP)\s*(\d+)\s*[)\]}>]` at `k`: the `E` branch first. */
  function BracketMarker(s: string, k: nat, caps: Captures): Option<State>
    requires k <= |s|
  {
    if k < |s| && CharIs('E', s[k], true) then
      var first := SpacedNumberClosingAt(s, k + 1, caps);
      if first.Some? then first
      else if k + 1 < |s| && CharIs('P', s[k + 1], true) then SpacedNumberClosingAt(s, k + 2, caps)
      else None
    else None
  }

  /** `\s*(?:E|EP)\s*(\d+)\s*[)\]}>]` at `k`. */
  function SpacedBracketMarker(s: string, k: nat, caps: Captures): Option<State>
    requires k <= |s|
  {
    BracketMarker(s, k + Spaces(s, k), caps)
  }

  /** Pattern 3 from position `i`, in closed form. */
  function Pattern3At(s: string, i: nat, caps: Captures): Option<State>
    requires i <= |s|
  {
    if i < |s| && InClass(Opening, s[i], true) then SpacedBracketMarker(s, i + 1, caps) else None
  }

  lemma NotClosing(c: char)
    requires IsSpace(c) || IsDigit(c)
    ensures !InClass(Closing, c, true)
  {
  }

  lemma ClosingFailsOnSpace(s: string, k: nat, caps: Captures)
    ensures FailsOn(Space, Cons(One(Closing), Nil), s, k, caps, true)
  {
    forall j | k <= j < |s| && InClass(Space, s[j], true)
      ensures Match(Cons(One(Closing), Nil), s, j, caps, true).None?
    {
      NotClosing(s[j]);
      MatchOne(Closing, Nil, s, j, caps, true);
    }
  }

  lemma ClosingMatch(s: string, k: nat, caps: Captures)
    requires k <= |s|
    ensures Match(ClosingNodes, s, k, caps, true) == ClosingAfter(s, k, caps)
  {
    var r := Cons(One(Closing), Nil);
    ClosingFailsOnSpace(s, k, caps);
    StarLongest(Space, r, s, k, caps, true);
    MatchOne(Closing, Nil, s, k + Spaces(s, k), caps, true);
  }

  lemma ClosingNotAtDigit(s: string, a: nat, j: nat, caps: Captures)
    requires j < |s| && IsDigit(s[j])
    ensures Match(Cons(Close(1, a), ClosingNodes), s, j, caps, true).None?
  {
    MatchClose(1, a, ClosingNodes, s, j, caps, true);
    ClosingMatch(s, j, caps[1 := (a, j)]);
    assert Spaces(s, j) == 0;
    NotClosing(s[j]);
  }

  lemma ClosingFailsOnDigit(s: string, a: nat, caps: Captures)
    ensures FailsOn(Digit, Cons(Close(1, a), ClosingNodes), s, a + 1, caps, true)
  {
    forall j | a + 1 <= j < |s| && InClass(Digit, s[j], true)
      ensures Match(Cons(Close(1, a), ClosingNodes), s, j, caps, true).None?
    {
      ClosingNotAtDigit(s, a, j, caps);
    }
  }

  lemma NumberClosingMatch(s: string, k: nat, caps: Captures)
    requires k <= |s|
    ensures Match(Cons(Number1, ClosingNodes), s, k, caps, true) == NumberClosing(s, k, caps)
  {
    ClosingFailsOnDigit(s, k, caps);
    DigitGroupLongest(1, ClosingNodes, s, k, caps, true);
    if Digits(s, k) >= 1 {
      ClosingMatch(s, k + Digits(s, k), caps[1 := (k, k + Digits(s, k))]);
    }
  }

  lemma NumberClosingFailsOnSpace(s: string, k: nat, caps: Captures)
    ensures FailsOn(Space, Cons(Number1, ClosingNodes), s, k, caps, true)
  {
    forall j | k <= j < |s| && InClass(Space, s[j], true)
      ensures Match(Cons(Number1, ClosingNodes), s, j, caps, true).None?
    {
      NumberClosingMatch(s, j, caps);
      assert Digits(s, j) == 0;
    }
  }

  lemma SpacedNumberClosingMatch(s: string, k: nat, caps: Captures)
    requires k <= |s|
    ensures Match(SpacedNumberClosing, s, k, caps, true) == SpacedNumberClosingAt(s, k, caps)
  {
    var r := Cons(Number1, ClosingNodes);
    NumberClosingFailsOnSpace(s, k, caps);
    StarLongest(Space, r, s, k, caps, true);
    NumberClosingMatch(s, k + Spaces(s, k), caps);
  }

  lemma BracketMarkerMatch(s: string, k: nat, caps: Captures)
    requires k <= |s|
    ensures Match(Cons(EOrEP, SpacedNumberClosing), s, k, caps, true) == BracketMarker(s, k, caps)
  {
    var r := SpacedNumberClosing;
    MatchAlt(Cons(Ch('E'), Nil), Cons(Ch('E'), Cons(Ch('P'), Nil)), r, s, k, caps, true);
    assert Append(Cons(Ch('E'), Nil), r) == Cons(Ch('E'), r);
    assert Append(Cons(Ch('E'), Cons(Ch('P'), Nil)), r) == Cons(Ch('E'), Cons(Ch('P'), r));
    BracketEMatch(s, k, caps);
    BracketEPMatch(s, k, caps);
  }

  /** The `E` branch of pattern 3's marker. */
  lemma BracketEMatch(s: string, k: nat, caps: Captures)
    requires k <= |s|
    ensures Match(Cons(Ch('E'), SpacedNumberClosing), s, k, caps, true)
         == if k < |s| && CharIs('E', s[k], true) then SpacedNumberClosingAt(s, k + 1, caps) else None
  {
    MatchOne(Lit('E'), SpacedNumberClosing, s, k, caps, true);
    if k < |s| && CharIs('E', s[k], true) {
      SpacedNumberClosingMatch(s, k + 1, caps);
    }
  }

  /** The `EP` branch of pattern 3's marker. */
  lemma BracketEPMatch(s: string, k: nat, caps: Captures)
    requires k <= |s|
    ensures Match(Cons(Ch('E'), Cons(Ch('P'), SpacedNumberClosing)), s, k, caps, true)
         == if k + 1 < |s| && CharIs('E', s[k], true) && CharIs('P', s[k + 1], true)
            then SpacedNumberClosingAt(s, k + 2, caps) else None
  {
    MatchOne(Lit('E'), Cons(Ch('P'), SpacedNumberClosing), s, k, caps, true);
    if k < |s| && CharIs('E', s[k], true) {
      MatchOne(Lit('P'), SpacedNumberClosing, s, k + 1, caps, true);
      if k + 1 < |s| && CharIs('P', s[k + 1], true) {
        SpacedNumberClosingMatch(s, k + 2, caps);
      }
    }
  }

  lemma BracketFailsOnSpace(s: string, k: nat, caps: Captures)
    ensures FailsOn(Space, Cons(EOrEP, SpacedNumberClosing), s, k, caps, true)
  {
    forall j | k <= j < |s| && InClass(Space, s[j], true)
      ensures Match(Cons(EOrEP, SpacedNumberClosing), s, j, caps, true).None?
    {
      BracketMarkerMatch(s, j, caps);
    }
  }

  lemma Pattern3Match(s: string, i: nat, caps: Captures)
    requires i <= |s|
    ensures Match(Pattern3.nodes, s, i, caps, true) == Pattern3At(s, i, caps)
  {
    var rest := Cons(Star(Space), Cons(EOrEP, SpacedNumberClosing));
    assert Pattern3.nodes == Cons(One(Opening), rest);
    MatchOne(Opening, rest, s, i, caps, true);
    if i < |s| && InClass(Opening, s[i], true) {
      SpacedBracketMarkerMatch(s, i + 1, caps);
    }
  }

  /** `\s*(?:E|EP)\s*(\d+)\s*[)\]}>]` at `k`. */
  lemma SpacedBracketMarkerMatch(s: string, k: nat, caps: Captures)
    requires k <= |s|
    ensures Match(Cons(Star(Space), Cons(EOrEP, SpacedNumberClosing)), s, k, caps, true) == SpacedBracketMarker(s, k, caps)
  {
    BracketFailsOnSpace(s, k, caps);
    StarLongest(Space, Cons(EOrEP, SpacedNumberClosing), s, k, caps, true);
    BracketMarkerMatch(s, k + Spaces(s, k), caps);
  }

  // ----- pattern3_2 -----

  /** `\s*` ending the pattern at `k`: it always matches. */
  function TrailingSpaces(s: string, k: nat, caps: Captures): Option<State>
    requires k <= |s|
  {
    Some(State(k + Spaces(s, k), caps))
  }

  /** `(\d+)\s*` at `k`, the digits captured as group 1. */
  function NumberSpaces(s: string, k: nat, caps: Captures): Option<State>
    requires k <= |s|
  {
    var n := Digits(s, k);
    if n >= 1 then TrailingSpaces(s, k + n, caps[1 := (k, k + n)]) else None
  }

  /** `\s*(\d+)\s*` at `k`. */
  function SpacedNumberSpaces(s: string, k: nat, caps: Captures): Option<State>
    requires k <= |s|
  {
    NumberSpaces(s, k + Spaces(s, k), caps)
  }

  /** `-\s*(\d+)\s*` at `k`. */
  function DashNumberSpaces(s: string, k: nat, caps: Captures): Option<State>
    requires k <= |s|
  {
    if k < |s| && s[k] == '-' then SpacedNumberSpaces(s, k + 1, caps) else None
  }

  /** Pattern 3_2 from position `i`, in closed form. */
  function Pattern3_2At(s: string, i: nat, caps: Captures): Option<State>
    requires i <= |s|
  {
    DashNumberSpaces(s, i + Spaces(s, i), caps)
  }

  lemma TrailingSpacesMatch(s: string, k: nat, caps: Captures)
    requires k <= |s|
    ensures Match(Cons(Star(Space), Nil), s, k, caps, false) == TrailingSpaces(s, k, caps)
  {
    RunCaseFree(Space, s, k, Unbounded);
    MatchRepeat(Space, 0, Unbounded, true, Nil, s, k, caps, false);
  }

  lemma NumberSpacesMatch(s: string, k: nat, caps: Captures)
    requires k <= |s|
    ensures Match(Cons(Number1, Cons(Star(Space), Nil)), s, k, caps, false) == NumberSpaces(s, k, caps)
  {
    var rest := Cons(Close(1, k), Cons(Star(Space), Nil));
    RunCaseFree(Digit, s, k, Unbounded);
    var n := Digits(s, k);
    MatchGroup(1, Cons(Plus(Digit), Nil), Cons(Star(Space), Nil), s, k, caps, false);
    assert Append(Cons(Plus(Digit), Nil), rest) == Cons(Plus(Digit), rest);
    MatchRepeat(Digit, 1, Unbounded, true, rest, s, k, caps, false);
    if n >= 1 {
      DigitsThenSpaces(s, k, n, caps);
    }
  }

  /** After `n` digits, closing group 1 and taking the trailing spaces always succeeds. */
  lemma DigitsThenSpaces(s: string, k: nat, n: nat, caps: Captures)
    requires k + n <= |s|
    ensures Greedy(Cons(Close(1, k), Cons(Star(Space), Nil)), s, k, caps, false, 1, n) == TrailingSpaces(s, k + n, caps[1 := (k, k + n)])
  {
    MatchClose(1, k, Cons(Star(Space), Nil), s, k + n, caps, false);
    TrailingSpacesMatch(s, k + n, caps[1 := (k, k + n)]);
    GreedyFirst(Cons(Close(1, k), Cons(Star(Space), Nil)), s, k, caps, false, 1, n);
  }

  lemma NumberSpacesFailsOnSpace(s: string, k: nat, caps: Captures)
    ensures FailsOn(Space, Cons(Number1, Cons(Star(Space), Nil)), s, k, caps, false)
  {
    forall j | k <= j < |s| && InClass(Space, s[j], false)
      ensures Match(Cons(Number1, Cons(Star(Space), Nil)), s, j, caps, false).None?
    {
      NumberSpacesMatch(s, j, caps);
      assert Digits(s, j) == 0;
    }
  }

  lemma SpacedNumberSpacesMatch(s: string, k: nat, caps: Captures)
    requires k <= |s|
    ensures Match(Cons(Star(Space), Cons(Number1, Cons(Star(Space), Nil))), s, k, caps, false)
         == SpacedNumberSpaces(s, k, caps)
  {
    var r := Cons(Number1, Cons(Star(Space), Nil));
    NumberSpacesFailsOnSpace(s, k, caps);
    StarLongest(Space, r, s, k, caps, false);
    RunCaseFree(Space, s, k, Unbounded);
    NumberSpacesMatch(s, k + Spaces(s, k), caps);
  }

  lemma DashFailsOnSpace(s: string, i: nat, caps: Captures)
    ensures FailsOn(Space, Cons(Ch('-'), Cons(Star(Space), Cons(Number1, Cons(Star(Space), Nil)))), s, i, caps, false)
  {
    var after := Cons(Star(Space), Cons(Number1, Cons(Star(Space), Nil)));
    forall j | i <= j < |s| && InClass(Space, s[j], false)
      ensures Match(Cons(Ch('-'), after), s, j, caps, false).None?
    {
      MatchOne(Lit('-'), after, s, j, caps, false);
    }
  }

  lemma Pattern3_2Match(s: string, i: nat, caps: Captures)
    requires i <= |s|
    ensures Match(Pattern3_2.nodes, s, i, caps, false) == Pattern3_2At(s, i, caps)
  {
    var r := Cons(Ch('-'), Cons(Star(Space), Cons(Number1, Cons(Star(Space), Nil))));
    DashFailsOnSpace(s, i, caps);
    StarLongest(Space, r, s, i, caps, false);
    RunCaseFree(Space, s, i, Unbounded);
    DashNumberSpacesMatch(s, i + Spaces(s, i), caps);
  }

  /** `-\s*(\d+)\s*` at `k`. */
  lemma DashNumberSpacesMatch(s: string, k: nat, caps: Captures)
    requires k <= |s|
    ensures Match(Cons(Ch('-'), Cons(Star(Space), Cons(Number1, Cons(Star(Space), Nil)))), s, k, caps, false)
         == DashNumberSpaces(s, k, caps)
  {
    var after := Cons(Star(Space), Cons(Number1, Cons(Star(Space), Nil)));
    MatchOne(Lit('-'), after, s, k, caps, false);
    if k < |s| && s[k] == '-' {
      SpacedNumberSpacesMatch(s, k + 1, caps);
    }
  }

  // ----- pattern4 -----

  /**
   * Pattern 4 from position `i`, in closed form. Normally group 1 is the
   * whole digit run after the `S` and group 2 the next digit run. When no
   * digit follows that run, the engine backtracks: group 1 gives up its last
   * digit, which becomes group 2 (`S12` yields group 2 = `2`).
   */
  function Pattern4At(s: string, i: nat, caps: Captures): Option<State>
    requires i <= |s|
  {
    if i < |s| && CharIs('S', s[i], true) then Pattern4Season(s, i + 1, caps) else None
  }


  /** `[^\d]*(\d+)` at `j`, the digits captured as group 2. */
  function NonDigitsNumber(s: string, j: nat, caps: Captures): Option<State>
    requires j <= |s|
  {
    var k := j + NonDigits(s, j);
    if k < |s| then Some(State(k + Digits(s, k), caps[2 := (k, k + Digits(s, k))])) else None
  }

  /** `(\d+)` ending the pattern cannot start at a character that is not a digit. */
  lemma Number2NotAt(s: string, q: nat, caps: Captures)
    requires q < |s| && !IsDigit(s[q])
    ensures Match(Cons(Number2, Nil), s, q, caps, true).None?
  {
    TrailingDigits(2, s, q, caps, true);
  }

  lemma Number2FailsOnNonDigit(s: string, j: nat, caps: Captures)
    ensures FailsOn(NonDigit, Cons(Number2, Nil), s, j, caps, true)
  {
    forall q | j <= q < |s| && InClass(NonDigit, s[q], true)
      ensures Match(Cons(Number2, Nil), s, q, caps, true).None?
    {
      Number2NotAt(s, q, caps);
    }
  }

  lemma NonDigitsNumberMatch(s: string, j: nat, caps: Captures)
    requires j <= |s|
    ensures Match(Cons(Star(NonDigit), Cons(Number2, Nil)), s, j, caps, true) == NonDigitsNumber(s, j, caps)
  {
    var r := Cons(Number2, Nil);
    Number2FailsOnNonDigit(s, j, caps);
    StarLongest(NonDigit, r, s, j, caps, true);
    var k := j + NonDigits(s, j);
    TrailingDigits(2, s, k, caps, true);
  }


  /** After `S(\d+` has taken `c` digits from `a`: `)[^\d]*(\d+)` from there. */
  lemma Pattern4RestMatch(s: string, a: nat, c: nat, caps: Captures)
    requires a + c <= |s|
    ensures Match(Cons(Close(1, a), Cons(Star(NonDigit), Cons(Number2, Nil))), s, a + c, caps, true)
         == NonDigitsNumber(s, a + c, caps[1 := (a, a + c)])
  {
    MatchClose(1, a, Cons(Star(NonDigit), Cons(Number2, Nil)), s, a + c, caps, true);
    NonDigitsNumberMatch(s, a + c, caps[1 := (a, a + c)]);
  }

  /** `S(\d+)[^\d]*(\d+)` after the `S`, in closed form, backtracking included. */
  function Pattern4Season(s: string, a: nat, caps: Captures): Option<State>
    requires a <= |s|
  {
    var n := Digits(s, a);
    if n >= 1 then
      var j := a + n;
      if j + NonDigits(s, j) < |s| then NonDigitsNumber(s, j, caps[1 := (a, j)])
      else if n >= 2 then Some(State(j, caps[1 := (a, j - 1)][2 := (j - 1, j)]))
      else None
    else None
  }

  /** When no digit follows the run, the last digit of the run is all group 2 can take. */
  lemma Pattern4Backtrack(s: string, a: nat, caps: Captures)
    requires a <= |s|
    requires Digits(s, a) >= 2
    ensures (var j := a + Digits(s, a);
             NonDigitsNumber(s, j - 1, caps[1 := (a, j - 1)]) == Some(State(j, caps[1 := (a, j - 1)][2 := (j - 1, j)])))
  {
    var j := a + Digits(s, a);
    RunIn(Digit, s, a, true, Unbounded, j - 1);
    RunFrom(Digit, s, a, true, j - 1);
    assert NonDigits(s, j - 1) == 0;
  }

  lemma Pattern4SeasonMatch(s: string, a: nat, caps: Captures)
    requires a <= |s|
    ensures Match(Cons(Number1, Cons(Star(NonDigit), Cons(Number2, Nil))), s, a, caps, true) == Pattern4Season(s, a, caps)
  {
    var tail := Cons(Star(NonDigit), Cons(Number2, Nil));
    var rest := Cons(Close(1, a), tail);
    MatchGroup(1, Cons(Plus(Digit), Nil), tail, s, a, caps, true);
    assert Append(Cons(Plus(Digit), Nil), rest) == Cons(Plus(Digit), rest);
    MatchRepeat(Digit, 1, Unbounded, true, rest, s, a, caps, true);
    var n := Digits(s, a);
    if n >= 1 {
      Pattern4RestMatch(s, a, n, caps);
      if n >= 2 {
        Pattern4RestMatch(s, a, n - 1, caps);
        Pattern4Backtrack(s, a, caps);
      }
    }
  }

  lemma Pattern4Match(s: string, i: nat, caps: Captures)
    requires i <= |s|
    ensures Match(Pattern4.nodes, s, i, caps, true) == Pattern4At(s, i, caps)
  {
    MatchOne(Lit('S'), Cons(Number1, Cons(Star(NonDigit), Cons(Number2, Nil))), s, i, caps, true);
    if i < |s| && CharIs('S', s[i], true) {
      Pattern4SeasonMatch(s, i + 1, caps);
    }
  }

  // ----- extract_episode_number -----

  /**
   * `extract_episode_number(filename)`: the patterns are searched for in
   * the order of `EpisodeRules`, and the first that `re.search` finds
   * decides, through the group that holds its episode number.
   */
  function ExtractEpisode(filename: string): Option<string> {
    SearchRules(filename, EpisodeRules)
  }

  function SearchRules(filename: string, rules: seq<Rule>): Option<string>
    decreases |rules|
  {
    if |rules| == 0 then None
    else match Search(RulePattern(rules[0]), filename)
      case Some(m) => GroupText(filename, m.state, RuleGroup(rules[0]))
      case None => SearchRules(filename, rules[1..])
  }

  // ----- The same cascade over the closed forms -----

  /** The five patterns, in the order they are tried. */
  datatype Rule = Rule1 | Rule2 | Rule3 | Rule3_2 | Rule4

  const EpisodeRules: seq<Rule> := [Rule1, Rule2, Rule3, Rule3_2, Rule4]

  function RulePattern(rule: Rule): Pattern {
    match rule
    case Rule1 => Pattern1
    case Rule2 => Pattern2
    case Rule3 => Pattern3
    case Rule3_2 => Pattern3_2
    case Rule4 => Pattern4
  }

  /** The group that holds the episode number. */
  function RuleGroup(rule: Rule): nat {
    if rule == Rule3 || rule == Rule3_2 then 1 else 2
  }

  /** A rule's pattern from position `i` of a fresh search, in closed form. */
  function RuleAt(rule: Rule, s: string, i: nat): Option<State>
    requires i <= |s|
  {
    match rule
    case Rule1 => Pattern1At(s, i, map[])
    case Rule2 => Pattern2At(s, i, map[])
    case Rule3 => Pattern3At(s, i, map[])
    case Rule3_2 => Pattern3_2At(s, i, map[])
    case Rule4 => Pattern4At(s, i, map[])
  }

  /** The rule's closed form at every position of `s`. */
  function RuleHits(rule: Rule, s: string): nat -> Option<State> {
    (k: nat) => if k <= |s| then RuleAt(rule, s, k) else None
  }

  /** The leftmost success of the rule's closed form from position `i` on. */
  function FirstFrom(rule: Rule, s: string, i: nat): Option<State>
    requires i <= |s|
  {
    FirstHit(RuleHits(rule, s), i, |s|)
  }

  /** The cascade over `rules`: the episode group of the first rule that succeeds somewhere. */
  function EpisodeBy(s: string, rules: seq<Rule>): Option<string>
    decreases |rules|
  {
    if |rules| == 0 then None
    else match FirstFrom(rules[0], s, 0)
      case Some(st) => GroupText(s, st, RuleGroup(rules[0]))
      case None => EpisodeBy(s, rules[1..])
  }

  lemma RuleMatch(rule: Rule, s: string, i: nat)
    requires i <= |s|
    ensures Match(RulePattern(rule).nodes, s, i, map[], RulePattern(rule).ignoreCase) == RuleAt(rule, s, i)
  {
    match rule
    case Rule1 => Pattern1Match(s, i, map[]);
    case Rule2 => Pattern2Match(s, i, map[]);
    case Rule3 => Pattern3Match(s, i, map[]);
    case Rule3_2 => Pattern3_2Match(s, i, map[]);
    case Rule4 => Pattern4Match(s, i, map[]);
  }

  /** `re.search` with a rule's pattern finds what the closed form finds. */
  lemma SearchIsFirst(rule: Rule, s: string, i: nat)
    requires i <= |s|
    ensures Ended(SearchFrom(RulePattern(rule), s, i)) == FirstFrom(rule, s, i)
  {
    var pat := RulePattern(rule);
    forall k | i <= k <= |s|
      ensures Match(pat.nodes, s, k, map[], pat.ignoreCase) == RuleHits(rule, s)(k)
    {
      RuleMatch(rule, s, k);
    }
    SearchIsFirstHit(pat, s, i, RuleHits(rule, s));
  }

  /** Searching with the patterns is running the cascade over their closed forms. */
  lemma {:induction false} SearchRulesByRules(filename: string, rules: seq<Rule>)
    ensures SearchRules(filename, rules) == EpisodeBy(filename, rules)
    decreases |rules|
  {
    if |rules| > 0 {
      SearchIsFirst(rules[0], filename, 0);
      SearchRulesByRules(filename, rules[1..]);
    }
  }

  // ----- What the episode number is -----

  /** `s[a..b]` is a non-empty run of digits with no digit right after it. */
  predicate DigitRunTo(s: string, a: nat, b: nat) {
    && a < b <= |s|
    && (forall k :: a <= k < b ==> IsDigit(s[k]))
    && (b == |s| || !IsDigit(s[b]))
  }

  /** Group `g` of a match state holds such a digit run. */
  predicate Captured(s: string, st: State, g: nat) {
    g in st.caps && DigitRunTo(s, st.caps[g].0, st.caps[g].1)
  }

  lemma DigitsRun(s: string, k: nat)
    requires k <= |s| && Digits(s, k) >= 1
    ensures DigitRunTo(s, k, k + Digits(s, k))
  {
    forall j | k <= j < k + Digits(s, k) ensures IsDigit(s[j]) {
      RunIn(Digit, s, k, true, Unbounded, j);
    }
  }

  lemma EOrEPDigitsCaptures(s: string, k: nat, caps: Captures)
    requires k <= |s| && EOrEPDigits(s, k, caps).Some?
    ensures Captured(s, EOrEPDigits(s, k, caps).value, 2)
  {
    if EDigits(s, k, caps).Some? {
      DigitsRun(s, k + 1);
    } else {
      DigitsRun(s, k + 2);
    }
  }

  lemma MarkerEpisodeCaptures(s: string, k: nat, caps: Captures)
    requires k <= |s| && MarkerEpisode(s, k, caps).Some?
    ensures Captured(s, MarkerEpisode(s, k, caps).value, 2)
  {
    if EOrEPDigits(s, k, caps).Some? {
      EOrEPDigitsCaptures(s, k, caps);
    } else {
      var m := k + 1 + Spaces(s, k + 1);
      DigitsRun(s, m + 2);
    }
  }

  lemma NumberClosingCaptures(s: string, k: nat, caps: Captures)
    requires k <= |s| && NumberClosing(s, k, caps).Some?
    ensures Captured(s, NumberClosing(s, k, caps).value, 1)
  {
    DigitsRun(s, k);
  }

  lemma BracketMarkerCaptures(s: string, k: nat, caps: Captures)
    requires k <= |s| && BracketMarker(s, k, caps).Some?
    ensures Captured(s, BracketMarker(s, k, caps).value, 1)
  {
    if SpacedNumberClosingAt(s, k + 1, caps).Some? {
      SpacedNumberClosingCaptures(s, k + 1, caps);
    } else {
      SpacedNumberClosingCaptures(s, k + 2, caps);
    }
  }

  lemma SpacedNumberClosingCaptures(s: string, k: nat, caps: Captures)
    requires k <= |s| && SpacedNumberClosingAt(s, k, caps).Some?
    ensures Captured(s, SpacedNumberClosingAt(s, k, caps).value, 1)
  {
    NumberClosingCaptures(s, k + Spaces(s, k), caps);
  }

  lemma Pattern3AtCaptures(s: string, i: nat, caps: Captures)
    requires i <= |s| && Pattern3At(s, i, caps).Some?
    ensures Captured(s, Pattern3At(s, i, caps).value, 1)
  {
    BracketMarkerCaptures(s, i + 1 + Spaces(s, i + 1), caps);
  }

  lemma Pattern3_2AtCaptures(s: string, i: nat, caps: Captures)
    requires i <= |s| && Pattern3_2At(s, i, caps).Some?
    ensures Captured(s, Pattern3_2At(s, i, caps).value, 1)
  {
    var k := i + Spaces(s, i);
    DigitsRun(s, k + 1 + Spaces(s, k + 1));
  }

  lemma NonDigitsNumberCaptures(s: string, j: nat, caps: Captures)
    requires j <= |s| && NonDigitsNumber(s, j, caps).Some?
    ensures Captured(s, NonDigitsNumber(s, j, caps).value, 2)
  {
    var k := j + NonDigits(s, j);
    assert IsDigit(s[k]);
    DigitsRun(s, k);
  }

  lemma Pattern4SeasonCaptures(s: string, a: nat, caps: Captures)
    requires a <= |s| && Pattern4Season(s, a, caps).Some?
    ensures Captured(s, Pattern4Season(s, a, caps).value, 2)
  {
    var n := Digits(s, a);
    var j := a + n;
    if j + NonDigits(s, j) < |s| {
      NonDigitsNumberCaptures(s, j, caps[1 := (a, j)]);
    } else {
      RunIn(Digit, s, a, true, Unbounded, j - 1);
    }
  }

  lemma Pattern1AtCaptures(s: string, i: nat, caps: Captures)
    requires i <= |s| && Pattern1At(s, i, caps).Some?
    ensures Captured(s, Pattern1At(s, i, caps).value, 2)
  {
    var j := i + 1 + Digits(s, i + 1);
    EOrEPDigitsCaptures(s, j, caps[1 := (i + 1, j)]);
  }

  lemma Pattern2AtCaptures(s: string, i: nat, caps: Captures)
    requires i <= |s| && Pattern2At(s, i, caps).Some?
    ensures Captured(s, Pattern2At(s, i, caps).value, 2)
  {
    var j := i + 1 + Digits(s, i + 1);
    MarkerEpisodeCaptures(s, j + Spaces(s, j), caps[1 := (i + 1, j)]);
  }

  /** Whatever group holds the episode number of a successful rule is a digit run. */
  lemma RuleAtCaptures(rule: Rule, s: string, i: nat)
    requires i <= |s| && RuleAt(rule, s, i).Some?
    ensures Captured(s, RuleAt(rule, s, i).value, RuleGroup(rule))
  {
    match rule
    case Rule1 => Pattern1AtCaptures(s, i, map[]);
    case Rule2 => Pattern2AtCaptures(s, i, map[]);
    case Rule3 => Pattern3AtCaptures(s, i, map[]);
    case Rule3_2 => Pattern3_2AtCaptures(s, i, map[]);
    case Rule4 => Pattern4SeasonCaptures(s, i + 1, map[]);
  }

  /** The leftmost success of a rule is a success at some position. */
  lemma FirstFromAt(rule: Rule, s: string, i: nat)
    requires i <= |s| && FirstFrom(rule, s, i).Some?
    ensures exists k :: i <= k <= |s| && RuleAt(rule, s, k) == FirstFrom(rule, s, i)
  {
    FirstHitAt(RuleHits(rule, s), i, |s|);
    var k :| i <= k <= |s| && RuleHits(rule, s)(k) == FirstFrom(rule, s, i);
    assert RuleAt(rule, s, k) == FirstFrom(rule, s, i);
  }

  /** A rule's leftmost success fails nowhere only if the rule fails everywhere. */
  lemma FirstFromNone(rule: Rule, s: string, i: nat)
    requires i <= |s|
    ensures FirstFrom(rule, s, i).None? <==> forall k :: i <= k <= |s| ==> RuleAt(rule, s, k).None?
  {
    FirstHitNone(RuleHits(rule, s), i, |s|);
    assert forall k :: i <= k <= |s| ==> RuleHits(rule, s)(k) == RuleAt(rule, s, k);
  }

  /** Whatever the cascade returns is a digit run of the filename that no digit follows. */
  lemma {:induction false} EpisodeByDigits(s: string, rules: seq<Rule>)
    requires EpisodeBy(s, rules).Some?
    ensures exists a: nat, b: nat :: DigitRunTo(s, a, b) && EpisodeBy(s, rules).value == s[a..b]
    decreases |rules|
  {
    match FirstFrom(rules[0], s, 0)
    case Some(st) =>
      FirstFromAt(rules[0], s, 0);
      var k :| 0 <= k <= |s| && RuleAt(rules[0], s, k) == Some(st);
      RuleAtCaptures(rules[0], s, k);
      var g := RuleGroup(rules[0]);
      assert EpisodeBy(s, rules).value == s[st.caps[g].0..st.caps[g].1];
    case None =>
      EpisodeByDigits(s, rules[1..]);
  }

  /** The cascade returns nothing exactly when no rule succeeds at any position. */
  lemma {:induction false} EpisodeByNone(s: string, rules: seq<Rule>)
    ensures EpisodeBy(s, rules).None? <==>
            forall r, k :: r in rules && 0 <= k <= |s| ==> RuleAt(r, s, k).None?
    decreases |rules|
  {
    if |rules| > 0 {
      FirstFromNone(rules[0], s, 0);
      match FirstFrom(rules[0], s, 0)
      case Some(st) =>
        FirstFromAt(rules[0], s, 0);
        var k :| 0 <= k <= |s| && RuleAt(rules[0], s, k) == Some(st);
        RuleAtCaptures(rules[0], s, k);
      case None =>
        EpisodeByNone(s, rules[1..]);
        assert forall r :: r in rules ==> r == rules[0] || r in rules[1..];
    }
  }

  /**
   * A non-`None` episode number is a non-empty run of the filename's digits,
   * taken up to the next character that is not a digit.
   */
  lemma ExtractEpisodeDigits(filename: string)
    requires ExtractEpisode(filename).Some?
    ensures exists a: nat, b: nat :: DigitRunTo(filename, a, b) && ExtractEpisode(filename).value == filename[a..b]
  {
    SearchRulesByRules(filename, EpisodeRules);
    EpisodeByDigits(filename, EpisodeRules);
  }

  /** `extract_episode_number` returns `None` exactly when none of the five patterns matches anywhere. */
  lemma ExtractEpisodeNone(filename: string)
    ensures ExtractEpisode(filename).None? <==>
            forall r, k :: r in EpisodeRules && 0 <= k <= |filename| ==> RuleAt(r, filename, k).None?
  {
    SearchRulesByRules(filename, EpisodeRules);
    EpisodeByNone(filename, EpisodeRules);
  }

  // ----- What each pattern needs at its start -----

  /** An `S` (either case) directly followed by a digit starts at `i`. */
  predicate SeasonAt(s: string, i: nat) {
    i + 1 < |s| && CharIs('S', s[i], true) && IsDigit(s[i + 1])
  }

  /** Patterns 1, 2 and 4 can only match where an `S` is directly followed by a digit. */
  lemma SeasonNeeded(rule: Rule, s: string, i: nat)
    requires rule == Rule1 || rule == Rule2 || rule == Rule4
    requires i <= |s| && RuleAt(rule, s, i).Some?
    ensures SeasonAt(s, i)
  {
    RunIn(Digit, s, i + 1, true, Unbounded, i + 1);
  }

  /** Pattern 3 can only match at an opening bracket. */
  lemma BracketNeeded(s: string, i: nat)
    requires i <= |s| && RuleAt(Rule3, s, i).Some?
    ensures i < |s| && s[i] in "([{<"
  {
  }

  /** Pattern 3_2 can only match where white space, a dash, white space and a digit follow. */
  lemma DashNeeded(s: string, i: nat)
    requires i <= |s|
    ensures RuleAt(Rule3_2, s, i).Some? <==>
            var k := i + Spaces(s, i);
            k < |s| && s[k] == '-' && (var m := k + 1 + Spaces(s, k + 1); m < |s| && IsDigit(s[m]))
  {
    var k := i + Spaces(s, i);
    if k < |s| && s[k] == '-' {
      var m := k + 1 + Spaces(s, k + 1);
      if m < |s| && IsDigit(s[m]) {
        RunIn(Digit, s, m, true, Unbounded, m);
      }
    }
  }

  /** The leftmost success is the first position from which the rule succeeds. */
  lemma FirstFromIs(rule: Rule, s: string, i: nat, p: nat)
    requires i <= p <= |s|
    requires forall k :: i <= k < p ==> RuleAt(rule, s, k).None?
    requires RuleAt(rule, s, p).Some?
    ensures FirstFrom(rule, s, i) == RuleAt(rule, s, p)
  {
    forall k | i <= k < p ensures RuleHits(rule, s)(k).None? {
    }
    FirstHitIs(RuleHits(rule, s), i, |s|, p);
  }

  /** A filename with no `S` directly followed by a digit matches none of patterns 1, 2 and 4. */
  lemma NoSeason(rule: Rule, s: string)
    requires rule == Rule1 || rule == Rule2 || rule == Rule4
    requires forall k :: 0 <= k < |s| ==> !SeasonAt(s, k)
    ensures FirstFrom(rule, s, 0).None?
  {
    forall k | 0 <= k <= |s| ensures RuleAt(rule, s, k).None? {
      if RuleAt(rule, s, k).Some? {
        SeasonNeeded(rule, s, k);
      }
    }
    FirstFromNone(rule, s, 0);
  }

  /** A filename with no opening bracket matches no pattern 3. */
  lemma NoBracket(s: string)
    requires forall k :: 0 <= k < |s| ==> s[k] !in "([{<"
    ensures FirstFrom(Rule3, s, 0).None?
  {
    forall k | 0 <= k <= |s| ensures RuleAt(Rule3, s, k).None? {
      if RuleAt(Rule3, s, k).Some? {
        BracketNeeded(s, k);
      }
    }
    FirstFromNone(Rule3, s, 0);
  }

  /** A filename without a dash matches no pattern 3_2. */
  lemma NoDash(s: string)
    requires forall k :: 0 <= k < |s| ==> s[k] != '-'
    ensures FirstFrom(Rule3_2, s, 0).None?
  {
    forall k | 0 <= k <= |s| ensures RuleAt(Rule3_2, s, k).None? {
      DashNeeded(s, k);
    }
    FirstFromNone(Rule3_2, s, 0);
  }

  /** The cascade spelled out over the five rules. */
  lemma EpisodeCascade(s: string)
    ensures EpisodeBy(s, EpisodeRules) ==
      if FirstFrom(Rule1, s, 0).Some? then GroupText(s, FirstFrom(Rule1, s, 0).value, 2)
      else if FirstFrom(Rule2, s, 0).Some? then GroupText(s, FirstFrom(Rule2, s, 0).value, 2)
      else if FirstFrom(Rule3, s, 0).Some? then GroupText(s, FirstFrom(Rule3, s, 0).value, 1)
      else if FirstFrom(Rule3_2, s, 0).Some? then GroupText(s, FirstFrom(Rule3_2, s, 0).value, 1)
      else if FirstFrom(Rule4, s, 0).Some? then GroupText(s, FirstFrom(Rule4, s, 0).value, 2)
      else None
  {
    var r := EpisodeRules;
    assert r[0] == Rule1 && r[1..][0] == Rule2 && r[1..][1..][0] == Rule3;
    assert r[1..][1..][1..][0] == Rule3_2 && r[1..][1..][1..][1..][0] == Rule4;
    assert |r[1..][1..][1..][1..][1..]| == 0;
  }

  /** The first rule of the list that succeeds somewhere decides, through its episode group. */
  lemma {:induction false} EpisodeByFirst(s: string, rules: seq<Rule>, n: nat)
    requires n < |rules|
    requires forall m :: 0 <= m < n ==> FirstFrom(rules[m], s, 0).None?
    requires FirstFrom(rules[n], s, 0).Some?
    ensures EpisodeBy(s, rules) == GroupText(s, FirstFrom(rules[n], s, 0).value, RuleGroup(rules[n]))
    decreases n
  {
    if n > 0 {
      assert FirstFrom(rules[0], s, 0).None?;
      forall m | 0 <= m < n - 1 ensures FirstFrom(rules[1..][m], s, 0).None? {
        assert rules[1..][m] == rules[m + 1];
      }
      EpisodeByFirst(s, rules[1..], n - 1);
    }
  }

  /** With every rule failing everywhere, there is no episode number. */
  lemma {:induction false} EpisodeByAllFail(s: string, rules: seq<Rule>)
    requires forall m :: 0 <= m < |rules| ==> FirstFrom(rules[m], s, 0).None?
    ensures EpisodeBy(s, rules).None?
    decreases |rules|
  {
    if |rules| > 0 {
      assert FirstFrom(rules[0], s, 0).None?;
      forall m | 0 <= m < |rules| - 1 ensures FirstFrom(rules[1..][m], s, 0).None? {
        assert rules[1..][m] == rules[m + 1];
      }
      EpisodeByAllFail(s, rules[1..]);
    }
  }

  /** `extract_episode_number` answers with the first rule, in the source's order, that succeeds somewhere. */
  lemma EpisodeDecided(s: string, n: nat)
    requires n < |EpisodeRules|
    requires forall m :: 0 <= m < n ==> FirstFrom(EpisodeRules[m], s, 0).None?
    requires FirstFrom(EpisodeRules[n], s, 0).Some?
    ensures ExtractEpisode(s) == GroupText(s, FirstFrom(EpisodeRules[n], s, 0).value, RuleGroup(EpisodeRules[n]))
  {
    SearchRulesByRules(s, EpisodeRules);
    EpisodeByFirst(s, EpisodeRules, n);
  }
}
