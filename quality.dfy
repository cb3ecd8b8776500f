/**
 * Quality extraction (`extract_quality` in plugins/file_rename.py): a
 * resolution such as "1080p" found by pattern 5, else one of the fixed
 * labels "4k", "2k", "HdRip", "4kX264", "4kx265" whose pattern occurs, else
 * "Unknown".
 *
 * Pattern 5 is `\b(?:.*?(\d{3,4}[^\dp]*p).*?|.*?(\d{3,4}p))\b`. The lemmas
 * below show that whatever way the engine finds it, the text it captures is
 * the leftmost place where three or four digits, then characters that are
 * neither digits nor `p`, then a `p` occur (`FirstResolution`); the second
 * alternative never contributes. Patterns 6 to 10 each match exactly when
 * their word occurs, letter case ignored.
 */
module Quality {
  import opened Wrappers
  import opened Chars
  import opened Regex
  import Episode

  // ----- The patterns -----

  /** `\d{3,4}` */
  const ThreeOrFourDigits: Node := Repeat(Digit, 3, AtMost(4), true)

  /** `[^\dp]` */
  const NotDigitNorP: Class := Set(true, true, "p")

  /** `\d{3,4}[^\dp]*p`, the body of group 1. */
  const Resolution: Nodes := Cons(ThreeOrFourDigits, Cons(Star(NotDigitNorP), Cons(Ch('p'), Nil)))

  /** `\d{3,4}p`, the body of group 2. */
  const ShortResolution: Nodes := Cons(ThreeOrFourDigits, Cons(Ch('p'), Nil))

  /** `.*?(\d{3,4}[^\dp]*p).*?` */
  const Branch1: Nodes := Cons(LazyStar(AnyChar), Cons(Group(1, Resolution), Cons(LazyStar(AnyChar), Nil)))

  /** `.*?(\d{3,4}p)` */
  const Branch2: Nodes := Cons(LazyStar(AnyChar), Cons(Group(2, ShortResolution), Nil))

  /** `\b` closing the pattern. */
  const EndBoundary: Nodes := Cons(Boundary, Nil)

  // pattern5 = re.compile(r'\b(?:.*?(\d{3,4}[^\dp]*p).*?|.*?(\d{3,4}p))\b', re.IGNORECASE)
  const Pattern5: Pattern := Pattern(Cons(Boundary, Cons(Alt(Branch1, Branch2), EndBoundary)), true)

  /** `\s*[)\]}>]?` after the word of patterns 6 to 10. */
  const BracketTail: Nodes := Cons(Star(Space), Cons(Optional(Episode.Closing), Nil))

  /** `[([{<]?\s*w\s*[)\]}>]?` */
  function Bracketed(w: string): Nodes {
    Cons(Optional(Episode.Opening), Cons(Star(Space), Word(w, BracketTail)))
  }

  // pattern6 = re.compile(r'[([{<]?\s*4k\s*[)\]}>]?', re.IGNORECASE)
  const Pattern6: Pattern := Pattern(Bracketed("4k"), true)

  // pattern7 = re.compile(r'[([{<]?\s*2k\s*[)\]}>]?', re.IGNORECASE)
  const Pattern7: Pattern := Pattern(Bracketed("2k"), true)

  // pattern8 = re.compile(r'[([{<]?\s*HdRip\s*[)\]}>]?|\bHdRip\b', re.IGNORECASE)
  const Pattern8: Pattern :=
    Pattern(Cons(Alt(Bracketed("HdRip"), Cons(Boundary, Word("HdRip", EndBoundary))), Nil), true)

  // pattern9 = re.compile(r'[([{<]?\s*4kX264\s*[)\]}>]?', re.IGNORECASE)
  const Pattern9: Pattern := Pattern(Bracketed("4kX264"), true)

  // pattern10 = re.compile(r'[([{<]?\s*4kx265\s*[)\]}>]?', re.IGNORECASE)
  const Pattern10: Pattern := Pattern(Bracketed("4kx265"), true)

  /** `extract_quality(filename)`; `None` stands for a pattern-5 match in which neither group took part. */
  function ExtractQuality(filename: string): Option<string> {
    match Search(Pattern5, filename)
    case Some(m) =>
      var g1 := GroupText(filename, m.state, 1);
      if g1.Some? && g1.value != "" then g1 else GroupText(filename, m.state, 2)
    case None =>
      if Search(Pattern6, filename).Some? then Some("4k")
      else if Search(Pattern7, filename).Some? then Some("2k")
      else if Search(Pattern8, filename).Some? then Some("HdRip")
      else if Search(Pattern9, filename).Some? then Some("4kX264")
      else if Search(Pattern10, filename).Some? then Some("4kx265")
      else Some("Unknown")
  }

  // ----- What the patterns find, stated directly -----

  /** Where `\d{3,4}[^\dp]*p` ends when it is matched from `t`, if it matches there. */
  function ResolutionAt(s: string, t: nat): (r: Option<nat>)
    requires t <= |s|
    ensures r.Some? ==> t + 4 <= r.value <= |s|
  {
    var n := Run(Digit, s, t, true, AtMost(4));
    if n < 3 then None
    else
      var k := t + n + Run(NotDigitNorP, s, t + n, true, Unbounded);
      if k < |s| && CharIs('p', s[k], true) then Some(k + 1) else None
  }

  /** The leftmost position at or after `t` where a resolution starts. */
  function NextResolution(s: string, t: nat): (r: Option<nat>)
    requires t <= |s|
    decreases |s| - t
    ensures r.Some? ==> t <= r.value <= |s| && ResolutionAt(s, r.value).Some?
    ensures r.Some? ==> forall j :: t <= j < r.value ==> ResolutionAt(s, j).None?
    ensures r.None? ==> forall j :: t <= j <= |s| ==> ResolutionAt(s, j).None?
  {
    if ResolutionAt(s, t).Some? then Some(t)
    else if t == |s| then None
    else NextResolution(s, t + 1)
  }

  /** The leftmost resolution in `s`, as its start and end. */
  function FirstResolution(s: string): Option<(nat, nat)> {
    match NextResolution(s, 0)
    case Some(u) => Some((u, ResolutionAt(s, u).value))
    case None => None
  }

  /** Where pattern 5, tried from `i`, puts group 1, if it matches there. */
  function Pattern5At(s: string, i: nat): Option<(nat, nat)>
    requires i <= |s|
  {
    if !AtBoundary(s, i) then None
    else
      match NextResolution(s, i)
      case Some(u) =>
        if u <= i + Run(AnyChar, s, i, true, Unbounded) then Some((u, ResolutionAt(s, u).value)) else None
      case None => None
  }

  /** `w` occurs somewhere in `s`, letter case ignored. */
  predicate Occurs(s: string, w: string) {
    exists p: nat :: 0 <= p <= |s| && WordAt(s, p, w, true)
  }

  /** The quality label for `filename`, described without the matcher. */
  function QualityOf(filename: string): string {
    match FirstResolution(filename)
    case Some((t, e)) => filename[t..e]
    case None =>
      if Occurs(filename, "4k") then "4k"
      else if Occurs(filename, "2k") then "2k"
      else if Occurs(filename, "HdRip") then "HdRip"
      else "Unknown"
  }

  // ----- Group 1 and group 2 of pattern 5 -----

  /** What `[^\dp]*p` followed by `x` does from `j`. */
  lemma NotDigitsThenP(s: string, j: nat, x: Nodes, caps: Captures)
    requires j <= |s|
    ensures (var k := j + Run(NotDigitNorP, s, j, true, Unbounded);
             Match(Cons(Star(NotDigitNorP), Cons(Ch('p'), x)), s, j, caps, true)
             == if k < |s| && CharIs('p', s[k], true) then Match(x, s, k + 1, caps, true) else None)
  {
    var r := Cons(Ch('p'), x);
    forall m | j <= m < |s| && InClass(NotDigitNorP, s[m], true)
      ensures Match(r, s, m, caps, true).None?
    {
      MatchOne(Lit('p'), x, s, m, caps, true);
    }
    StarLongest(NotDigitNorP, r, s, j, caps, true);
    MatchOne(Lit('p'), x, s, j + Run(NotDigitNorP, s, j, true, Unbounded), caps, true);
  }

  /** With four digits at `t`, `[^\dp]*p` cannot start at the fourth: `\d{3,4}` gains nothing by giving it back. */
  lemma FourthDigitFails(s: string, t: nat, x: Nodes, caps: Captures)
    requires t <= |s| && Run(Digit, s, t, true, AtMost(4)) == 4
    ensures Match(Cons(Star(NotDigitNorP), Cons(Ch('p'), x)), s, t + 3, caps, true).None?
  {
    RunIn(Digit, s, t, true, AtMost(4), t + 3);
    NotDigitsThenP(s, t + 3, x, caps);
  }

  /** `\d{3,4}` followed by `[^\dp]*p` keeps every digit it can take. */
  lemma ResolutionDigits(s: string, t: nat, x: Nodes, caps: Captures)
    requires t <= |s| && Run(Digit, s, t, true, AtMost(4)) >= 3
    ensures (var tail := Cons(Star(NotDigitNorP), Cons(Ch('p'), x));
             Match(Cons(ThreeOrFourDigits, tail), s, t, caps, true)
             == Match(tail, s, t + Run(Digit, s, t, true, AtMost(4)), caps, true))
  {
    var tail := Cons(Star(NotDigitNorP), Cons(Ch('p'), x));
    var n := Run(Digit, s, t, true, AtMost(4));
    MatchRepeat(Digit, 3, AtMost(4), true, tail, s, t, caps, true);
    if n == 4 {
      FourthDigitFails(s, t, x, caps);
    }
    GreedyLongest(tail, s, t, caps, true, 3, n);
  }

  /** Group 1 of pattern 5 from `t`, once its digits are taken. */
  lemma ResolutionPrefix(s: string, t: nat, r: Nodes, caps: Captures)
    requires t <= |s| && Run(Digit, s, t, true, AtMost(4)) >= 3
    ensures Match(Cons(Group(1, Resolution), r), s, t, caps, true)
         == Match(Cons(Star(NotDigitNorP), Cons(Ch('p'), Cons(Close(1, t), r))), s, t + Run(Digit, s, t, true, AtMost(4)), caps, true)
  {
    var x := Cons(Close(1, t), r);
    MatchGroup(1, Resolution, r, s, t, caps, true);
    assert Append(Resolution, x) == Cons(ThreeOrFourDigits, Cons(Star(NotDigitNorP), Cons(Ch('p'), x)));
    ResolutionDigits(s, t, x, caps);
  }

  /** Where `ResolutionAt` finds a resolution, group 1 takes it. */
  lemma ResolutionFound(s: string, t: nat, r: Nodes, caps: Captures)
    requires t <= |s| && ResolutionAt(s, t).Some?
    ensures var e := ResolutionAt(s, t).value;
            Match(Cons(Group(1, Resolution), r), s, t, caps, true) == Match(r, s, e, caps[1 := (t, e)], true)
  {
    var x := Cons(Close(1, t), r);
    var n := Run(Digit, s, t, true, AtMost(4));
    var k := t + n + Run(NotDigitNorP, s, t + n, true, Unbounded);
    ResolutionPrefix(s, t, r, caps);
    NotDigitsThenP(s, t + n, x, caps);
    assert k < |s| && CharIs('p', s[k], true);
    MatchClose(1, t, r, s, k + 1, caps, true);
  }

  /** Where `ResolutionAt` finds none, group 1 fails. */
  lemma ResolutionMissing(s: string, t: nat, r: Nodes, caps: Captures)
    requires t <= |s| && ResolutionAt(s, t).None?
    ensures Match(Cons(Group(1, Resolution), r), s, t, caps, true).None?
  {
    var x := Cons(Close(1, t), r);
    var n := Run(Digit, s, t, true, AtMost(4));
    if n >= 3 {
      ResolutionPrefix(s, t, r, caps);
      NotDigitsThenP(s, t + n, x, caps);
    } else {
      var tail := Cons(Star(NotDigitNorP), Cons(Ch('p'), x));
      MatchGroup(1, Resolution, r, s, t, caps, true);
      assert Append(Resolution, x) == Cons(ThreeOrFourDigits, tail);
      MatchRepeat(Digit, 3, AtMost(4), true, tail, s, t, caps, true);
    }
  }

  /** Group 1 of pattern 5 matches from `t` exactly as `ResolutionAt` says. */
  lemma ResolutionMatch(s: string, t: nat, r: Nodes, caps: Captures)
    requires t <= |s|
    ensures Match(Cons(Group(1, Resolution), r), s, t, caps, true)
         == match ResolutionAt(s, t)
            case Some(e) => Match(r, s, e, caps[1 := (t, e)], true)
            case None => None
  {
    if ResolutionAt(s, t).Some? {
      ResolutionFound(s, t, r, caps);
    } else {
      ResolutionMissing(s, t, r, caps);
    }
  }

  /** Group 2 of pattern 5 can only match where group 1 could. */
  lemma ShortResolutionMatch(s: string, t: nat, r: Nodes, caps: Captures)
    requires t <= |s|
    requires ResolutionAt(s, t).None?
    ensures Match(Cons(Group(2, ShortResolution), r), s, t, caps, true).None?
  {
    var x := Cons(Close(2, t), r);
    var tail := Cons(Ch('p'), x);
    MatchGroup(2, ShortResolution, r, s, t, caps, true);
    assert Append(ShortResolution, x) == Cons(ThreeOrFourDigits, tail);
    MatchRepeat(Digit, 3, AtMost(4), true, tail, s, t, caps, true);
    var n := Run(Digit, s, t, true, AtMost(4));
    if n >= 3 {
      forall j | t + 3 <= j <= t + n
        ensures Match(tail, s, j, caps, true).None?
      {
        MatchOne(Lit('p'), x, s, j, caps, true);
        if j < t + n {
          RunIn(Digit, s, t, true, AtMost(4), j);
        }
      }
      GreedyFails(tail, s, t, caps, true, 3, n);
    }
  }

  /** `.*?\b` from just after a word character, as a lazy repetition, succeeds and leaves the groups alone. */
  lemma {:induction false} LazyToBoundary(s: string, e: nat, caps: Captures)
    requires 0 < e <= |s| && IsWordChar(s[e - 1])
    ensures var m := Lazy(EndBoundary, s, e, caps, true, 0, Run(AnyChar, s, e, true, Unbounded));
            m.Some? && m.value.caps == caps
    decreases |s| - e
  {
    var top := Run(AnyChar, s, e, true, Unbounded);
    MatchBoundary(Nil, s, e, caps, true);
    if !AtBoundary(s, e) {
      assert e < |s| && IsWordChar(s[e]);
      var top' := Run(AnyChar, s, e + 1, true, Unbounded);
      assert top == 1 + top';
      LazyShift(EndBoundary, s, e, caps, true, 0, top');
      LazyToBoundary(s, e + 1, caps);
    }
  }

  /** The `.*?\b` that ends the first alternative succeeds after a resolution, keeping the groups. */
  lemma TrailMatch(s: string, e: nat, caps: Captures)
    requires 0 < e <= |s| && IsWordChar(s[e - 1])
    ensures var m := Match(Cons(LazyStar(AnyChar), EndBoundary), s, e, caps, true);
            m.Some? && m.value.caps == caps
  {
    MatchRepeat(AnyChar, 0, Unbounded, false, EndBoundary, s, e, caps, true);
    LazyToBoundary(s, e, caps);
  }

  /** A resolution ends with `p` or `P`, a word character. */
  lemma ResolutionEnd(s: string, t: nat)
    requires t <= |s| && ResolutionAt(s, t).Some?
    ensures var e := ResolutionAt(s, t).value;
            0 < e <= |s| && IsWordChar(s[e - 1]) && (s[e - 1] == 'p' || s[e - 1] == 'P')
  {
  }

  /** The first alternative of pattern 5, from `i`, finds the first resolution in reach of `.*?`. */
  /** Group 1 and what follows it fail at every position before the next resolution. */
  lemma NoGroupBefore(s: string, i: nat, reach: nat, caps: Captures)
    requires i <= |s|
    requires forall j :: i <= j < reach && j <= |s| ==> ResolutionAt(s, j).None?
    ensures forall j :: i <= j < reach && j <= |s| ==>
              Match(Cons(Group(1, Resolution), Cons(LazyStar(AnyChar), EndBoundary)), s, j, caps, true).None?
  {
    forall j | i <= j < reach && j <= |s|
      ensures Match(Cons(Group(1, Resolution), Cons(LazyStar(AnyChar), EndBoundary)), s, j, caps, true).None?
    {
      ResolutionMissing(s, j, Cons(LazyStar(AnyChar), EndBoundary), caps);
    }
  }

  lemma Branch1Match(s: string, i: nat, caps: Captures)
    requires i <= |s|
    ensures (var m := Match(Append(Branch1, EndBoundary), s, i, caps, true);
             var top := Run(AnyChar, s, i, true, Unbounded);
             match NextResolution(s, i)
             case Some(u) =>
               if u <= i + top then m.Some? && m.value.caps == caps[1 := (u, ResolutionAt(s, u).value)]
               else m.None?
             case None => m.None?)
  {
    var t := Cons(LazyStar(AnyChar), EndBoundary);
    var rest := Cons(Group(1, Resolution), t);
    assert Append(Branch1, EndBoundary) == Cons(LazyStar(AnyChar), rest);
    MatchRepeat(AnyChar, 0, Unbounded, false, rest, s, i, caps, true);
    var top := Run(AnyChar, s, i, true, Unbounded);
    var next := NextResolution(s, i);
    if next.Some? && next.value <= i + top {
      Branch1Found(s, i, next.value, caps);
    } else {
      NoGroupBefore(s, i, i + top + 1, caps);
      LazyFails(rest, s, i, caps, true, 0, top);
    }
  }

  /** `.*?` stops at the first resolution it can reach, and group 1 takes that resolution. */
  lemma Branch1Found(s: string, i: nat, u: nat, caps: Captures)
    requires i <= |s| && i <= u <= i + Run(AnyChar, s, i, true, Unbounded) && NextResolution(s, i) == Some(u)
    ensures var rest := Cons(Group(1, Resolution), Cons(LazyStar(AnyChar), EndBoundary));
            var m := Lazy(rest, s, i, caps, true, 0, Run(AnyChar, s, i, true, Unbounded));
            m.Some? && m.value.caps == caps[1 := (u, ResolutionAt(s, u).value)]
  {
    var t := Cons(LazyStar(AnyChar), EndBoundary);
    var rest := Cons(Group(1, Resolution), t);
    var top := Run(AnyChar, s, i, true, Unbounded);
    var e := ResolutionAt(s, u).value;
    NoGroupBefore(s, i, u, caps);
    LazyFrom(rest, s, i, caps, true, 0, u - i, top);
    ResolutionFound(s, u, t, caps);
    ResolutionEnd(s, u);
    TrailMatch(s, e, caps[1 := (u, e)]);
  }

  /** The second alternative of pattern 5 fails where the first finds nothing. */
  lemma Branch2Match(s: string, i: nat, caps: Captures)
    requires i <= |s|
    requires forall j :: i <= j <= i + Run(AnyChar, s, i, true, Unbounded) ==> ResolutionAt(s, j).None?
    ensures Match(Append(Branch2, EndBoundary), s, i, caps, true).None?
  {
    var rest := Cons(Group(2, ShortResolution), EndBoundary);
    assert Append(Branch2, EndBoundary) == Cons(LazyStar(AnyChar), rest);
    MatchRepeat(AnyChar, 0, Unbounded, false, rest, s, i, caps, true);
    var top := Run(AnyChar, s, i, true, Unbounded);
    forall j | i <= j <= i + top
      ensures Match(rest, s, j, caps, true).None?
    {
      ShortResolutionMatch(s, j, EndBoundary, caps);
    }
    LazyFails(rest, s, i, caps, true, 0, top);
  }

  /** Pattern 5 matches from `i` exactly as `Pattern5At` says, group 1 alone captured. */
  lemma Pattern5Match(s: string, i: nat)
    requires i <= |s|
    ensures var m := Match(Pattern5.nodes, s, i, map[], true);
            && m.Some? == Pattern5At(s, i).Some?
            && (m.Some? ==> m.value.caps == map[1 := Pattern5At(s, i).value])
  {
    var cm: Captures := map[];
    MatchBoundary(Cons(Alt(Branch1, Branch2), EndBoundary), s, i, cm, true);
    MatchAlt(Branch1, Branch2, EndBoundary, s, i, cm, true);
    Branch1Match(s, i, cm);
    var top := Run(AnyChar, s, i, true, Unbounded);
    var next := NextResolution(s, i);
    if !(next.Some? && next.value <= i + top) {
      Branch2Match(s, i, cm);
    }
  }

  // ----- From the start positions to the whole search -----

  /** Where the word around position `t` begins: the run of word characters reaching `t` from the left. */
  function WordStart(s: string, t: nat): (b: nat)
    requires t <= |s|
    ensures b <= t
    ensures forall j :: b <= j < t ==> IsWordChar(s[j])
    ensures b == 0 || !IsWordChar(s[b - 1])
  {
    if t > 0 && IsWordChar(s[t - 1]) then WordStart(s, t - 1) else t
  }

  lemma {:induction false} NextResolutionIs(s: string, x: nat, u: nat)
    requires x <= u <= |s| && ResolutionAt(s, u).Some?
    requires forall j :: x <= j < u ==> ResolutionAt(s, j).None?
    ensures NextResolution(s, x) == Some(u)
    decreases u - x
  {
    if ResolutionAt(s, x).None? {
      NextResolutionIs(s, x + 1, u);
    }
  }

  /**
   * `re.search` with pattern 5 succeeds exactly when `s` holds a resolution,
   * and its only captured group is then the leftmost one.
   */
  lemma SearchPattern5(s: string)
    ensures var r := Search(Pattern5, s);
            && r.Some? == FirstResolution(s).Some?
            && (r.Some? ==> r.value.state.caps == map[1 := FirstResolution(s).value])
  {
    match NextResolution(s, 0)
    case Some(u) =>
      MatchAtWordStart(s, u);
      SearchPattern5Found(s, u);
    case None =>
      SearchPattern5None(s);
  }

  /** Pattern 5 matches at the start of the word that holds the leftmost resolution. */
  lemma MatchAtWordStart(s: string, u: nat)
    requires NextResolution(s, 0) == Some(u)
    ensures Match(Pattern5.nodes, s, WordStart(s, u), map[], true).Some?
  {
    var b := WordStart(s, u);
    RunCovers(AnyChar, s, b, true, u - b);
    NextResolutionIs(s, b, u);
    assert u < |s|;
    RunIn(Digit, s, u, true, AtMost(4), u);
    assert AtBoundary(s, b);
    Pattern5Match(s, b);
  }

  /** Once pattern 5 matches somewhere, the search finds the leftmost resolution. */
  lemma SearchPattern5Found(s: string, u: nat)
    requires NextResolution(s, 0) == Some(u)
    requires Match(Pattern5.nodes, s, WordStart(s, u), map[], true).Some?
    ensures Search(Pattern5, s).Some? && Search(Pattern5, s).value.state.caps == map[1 := (u, ResolutionAt(s, u).value)]
  {
    var r := Search(Pattern5, s);
    assert r.Some?;
    var st := r.value.start;
    Pattern5Match(s, st);
    NextResolutionIs(s, st, u);
  }

  /** Without a resolution, pattern 5 matches nowhere. */
  lemma SearchPattern5None(s: string)
    requires NextResolution(s, 0).None?
    ensures Search(Pattern5, s).None?
  {
    forall j | 0 <= j <= |s|
      ensures Match(Pattern5.nodes, s, j, map[], true).None?
    {
      Pattern5Match(s, j);
    }
  }

  // ----- Patterns 6 to 10 -----

  /** A word beginning with a letter or digit, so never with a space or a bracket. */
  predicate PlainWord(w: string) {
    |w| > 0 && (IsDigit(w[0]) || 'a' <= w[0] <= 'z' || 'A' <= w[0] <= 'Z')
  }

  lemma PlainStart(w: string, c: char)
    requires PlainWord(w)
    requires CharIs(w[0], c, true)
    ensures !IsSpace(c) && !InClass(Episode.Opening, c, true)
  {
  }

  /** `\s*[)\]}>]?` always matches. */
  lemma BracketTailMatch(s: string, k: nat, caps: Captures)
    requires k <= |s|
    ensures Match(BracketTail, s, k, caps, true).Some?
  {
    var oc := Cons(Optional(Episode.Closing), Nil);
    MatchRepeat(Space, 0, Unbounded, true, oc, s, k, caps, true);
    var n := Run(Space, s, k, true, Unbounded);
    MatchRepeat(Episode.Closing, 0, AtMost(1), true, Nil, s, k + n, caps, true);
  }

  /** Where the word of `[([{<]?\s*w...` is looked for when matching from `i`. */
  function BracketedWordStart(s: string, i: nat): nat
    requires i <= |s|
  {
    var o := Run(Episode.Opening, s, i, true, AtMost(1));
    i + o + Episode.Spaces(s, i + o)
  }

  /** `\s*w\s*[)\]}>]?` from `x` matches exactly when `w` follows the spaces. */
  lemma SpacedWordMatch(w: string, s: string, x: nat, caps: Captures)
    requires x <= |s| && PlainWord(w)
    ensures Match(Cons(Star(Space), Word(w, BracketTail)), s, x, caps, true).Some?
         <==> WordAt(s, x + Episode.Spaces(s, x), w, true)
  {
    SpacesBeforeWord(w, s, x, caps);
    StarLongest(Space, Word(w, BracketTail), s, x, caps, true);
    WordThenTail(w, s, x + Episode.Spaces(s, x), caps);
  }

  /** A word that starts with a letter or digit cannot start at white space. */
  lemma SpacesBeforeWord(w: string, s: string, x: nat, caps: Captures)
    requires x <= |s| && PlainWord(w)
    ensures FailsOn(Space, Word(w, BracketTail), s, x, caps, true)
  {
    forall j | x <= j < |s| && InClass(Space, s[j], true)
      ensures Match(Word(w, BracketTail), s, j, caps, true).None?
    {
      WordMatch(w, BracketTail, s, j, caps, true);
      if WordAt(s, j, w, true) {
        assert CharIs(w[0], s[j + 0], true);
        PlainStart(w, s[j]);
      }
    }
  }

  /** The word followed by `\s*[)\]}>]?` matches exactly where the word is. */
  lemma WordThenTail(w: string, s: string, k: nat, caps: Captures)
    requires k <= |s|
    ensures Match(Word(w, BracketTail), s, k, caps, true).Some? <==> WordAt(s, k, w, true)
  {
    WordMatch(w, BracketTail, s, k, caps, true);
    if WordAt(s, k, w, true) {
      BracketTailMatch(s, k + |w|, caps);
    }
  }

  /** `[([{<]?\s*w\s*[)\]}>]?` matches from `i` exactly when `w` stands at `BracketedWordStart`. */
  lemma BracketedMatch(w: string, s: string, i: nat, caps: Captures)
    requires i <= |s| && PlainWord(w)
    ensures Match(Bracketed(w), s, i, caps, true).Some? <==> WordAt(s, BracketedWordStart(s, i), w, true)
  {
    BracketSkipped(w, s, i, caps);
    SpacedWordMatch(w, s, i + Run(Episode.Opening, s, i, true, AtMost(1)), caps);
  }

  /** `[([{<]?` takes an opening bracket when there is one and never gives it back. */
  lemma BracketSkipped(w: string, s: string, i: nat, caps: Captures)
    requires i <= |s| && PlainWord(w)
    ensures Match(Bracketed(w), s, i, caps, true)
         == Match(Cons(Star(Space), Word(w, BracketTail)), s, i + Run(Episode.Opening, s, i, true, AtMost(1)), caps, true)
  {
    var rest := Cons(Star(Space), Word(w, BracketTail));
    assert Bracketed(w) == Cons(Optional(Episode.Opening), rest);
    if Run(Episode.Opening, s, i, true, AtMost(1)) == 1 {
      NoWordAtBracket(w, s, i, caps);
    }
    OptionalLongest(Episode.Opening, rest, s, i, caps, true);
  }

  /** Where an opening bracket stands, `\s*` and the word cannot start: the optional bracket is not given back. */
  lemma NoWordAtBracket(w: string, s: string, i: nat, caps: Captures)
    requires i <= |s| && PlainWord(w) && Run(Episode.Opening, s, i, true, AtMost(1)) == 1
    ensures Match(Cons(Star(Space), Word(w, BracketTail)), s, i, caps, true).None?
  {
    RunIn(Episode.Opening, s, i, true, AtMost(1), i);
    SpacedWordMatch(w, s, i, caps);
    assert Episode.Spaces(s, i) == 0;
    if WordAt(s, i, w, true) {
      assert CharIs(w[0], s[i + 0], true);
      PlainStart(w, s[i]);
    }
  }

  /** A word that occurs at `p` is found by the bracketed pattern starting right there. */
  lemma WordStartsBracketed(w: string, s: string, p: nat)
    requires p <= |s| && PlainWord(w) && WordAt(s, p, w, true)
    ensures BracketedWordStart(s, p) == p
  {
    assert CharIs(w[0], s[p + 0], true);
    PlainStart(w, s[p]);
  }

  /** `re.search` with `[([{<]?\s*w\s*[)\]}>]?` succeeds exactly when `w` occurs. */
  lemma SearchBracketed(w: string, s: string)
    requires PlainWord(w)
    ensures Search(Pattern(Bracketed(w), true), s).Some? <==> Occurs(s, w)
  {
    var pat := Pattern(Bracketed(w), true);
    var r := Search(pat, s);
    if r.Some? {
      BracketedMatch(w, s, r.value.start, map[]);
    }
    if Occurs(s, w) {
      var p: nat :| p <= |s| && WordAt(s, p, w, true);
      WordStartsBracketed(w, s, p);
      BracketedMatch(w, s, p, map[]);
    }
  }

  /** `re.search` with pattern 8 succeeds exactly when "HdRip" occurs; its `\bHdRip\b` branch adds nothing. */
  lemma SearchPattern8(s: string)
    ensures Search(Pattern8, s).Some? <==> Occurs(s, "HdRip")
  {
    var w := "HdRip";
    var left, right := Bracketed(w), Cons(Boundary, Word(w, EndBoundary));
    AppendNil(left);
    AppendNil(right);
    var r := Search(Pattern8, s);
    if r.Some? {
      var i := r.value.start;
      MatchAlt(left, right, Nil, s, i, map[], true);
      BracketedMatch(w, s, i, map[]);
      MatchBoundary(Word(w, EndBoundary), s, i, map[], true);
      WordMatch(w, EndBoundary, s, i, map[], true);
    }
    if Occurs(s, w) {
      var p: nat :| p <= |s| && WordAt(s, p, w, true);
      WordStartsBracketed(w, s, p);
      BracketedMatch(w, s, p, map[]);
      MatchAlt(left, right, Nil, s, p, map[], true);
    }
  }

  /** A word that contains another at its start occurs only where the shorter one does. */
  lemma OccursPrefix(s: string, w: string, v: string)
    requires |v| <= |w| && w[..|v|] == v
    requires Occurs(s, w)
    ensures Occurs(s, v)
  {
    var p: nat :| p <= |s| && WordAt(s, p, w, true);
    forall j | 0 <= j < |v| ensures CharIs(v[j], s[p + j], true) {
      assert v[j] == w[j];
    }
    assert WordAt(s, p, v, true);
  }

  // ----- extract_quality, stated without the matcher -----

  /** `extract_quality` returns `QualityOf`: the leftmost resolution, else the first label whose word occurs, else "Unknown". */
  lemma ExtractQualityIs(filename: string)
    ensures ExtractQuality(filename) == Some(QualityOf(filename))
  {
    SearchPattern5(filename);
    if FirstResolution(filename).None? {
      LabelQuality(filename);
    }
  }

  /** Where the leftmost resolution spans the text `q`, `q` is the quality. */
  lemma ResolutionQuality(filename: string, t: nat, e: nat, q: string)
    requires FirstResolution(filename) == Some((t, e))
    requires t <= e <= |filename| && filename[t..e] == q
    ensures ExtractQuality(filename) == Some(q)
  {
    ExtractQualityIs(filename);
  }

  /** Without a resolution the labels are tried in the source's order, and "4kX264" and "4kx265" are shadowed by "4k". */
  lemma LabelQuality(filename: string)
    requires Search(Pattern5, filename).None?
    ensures ExtractQuality(filename) == Some(QualityOf(filename))
  {
    assert FirstResolution(filename).None? by { SearchPattern5(filename); }
    SearchBracketed("4k", filename);
    SearchBracketed("2k", filename);
    SearchPattern8(filename);
    SearchBracketed("4kX264", filename);
    SearchBracketed("4kx265", filename);
    if Occurs(filename, "4kX264") {
      OccursPrefix(filename, "4kX264", "4k");
    }
    if Occurs(filename, "4kx265") {
      OccursPrefix(filename, "4kx265", "4k");
    }
  }


  /**
   * `extract_quality` always returns a non-empty text: never `None`, and
   * never the labels "4kX264" and "4kx265", whose patterns can only match
   * where the "4k" pattern, tried before them, already has.
   */
  lemma ExtractQualityLabels(filename: string)
    ensures var q := ExtractQuality(filename);
            && q.Some? && q.value != ""
            && q.value != "4kX264" && q.value != "4kx265"
  {
    ExtractQualityIs(filename);
    QualityOfLabels(filename);
  }

  /** The label is never empty, and never one of the two labels that "4k" shadows. */
  lemma QualityOfLabels(filename: string)
    ensures var q := QualityOf(filename);
            q != "" && q != "4kX264" && q != "4kx265"
  {
    match FirstResolution(filename)
    case Some((t, e)) =>
      ResolutionLabel(filename, t);
    case None =>
  }

  /** A resolution is at least four characters long and ends in `p`. */
  lemma ResolutionLabel(s: string, t: nat)
    requires t <= |s| && ResolutionAt(s, t).Some?
    ensures var q := s[t..ResolutionAt(s, t).value];
            |q| >= 4 && (q[|q| - 1] == 'p' || q[|q| - 1] == 'P')
  {
    var e := ResolutionAt(s, t).value;
    ResolutionEnd(s, t);
    var q := s[t..e];
    assert q[|q| - 1] == s[e - 1];
  }


  /**
   * A resolution found by pattern 5: three or four digits, then only
   * characters that are neither digits nor `p`/`P`, then the first `p` or `P`.
   */
  lemma ResolutionShape(s: string, t: nat)
    requires t <= |s| && ResolutionAt(s, t).Some?
    ensures var e := ResolutionAt(s, t).value;
            var n := Run(Digit, s, t, true, AtMost(4));
            && (n == 3 || n == 4) && t + n < e
            && (forall j :: t <= j < t + n ==> IsDigit(s[j]))
            && (forall j :: t + n <= j < e - 1 ==> !IsDigit(s[j]) && s[j] != 'p' && s[j] != 'P')
            && (s[e - 1] == 'p' || s[e - 1] == 'P')
  {
    var n := Run(Digit, s, t, true, AtMost(4));
    forall j | t <= j < t + n ensures IsDigit(s[j]) {
      RunIn(Digit, s, t, true, AtMost(4), j);
    }
    forall j | t + n <= j < ResolutionAt(s, t).value - 1
      ensures !IsDigit(s[j]) && s[j] != 'p' && s[j] != 'P'
    {
      RunIn(NotDigitNorP, s, t + n, true, Unbounded, j);
    }
  }
}
