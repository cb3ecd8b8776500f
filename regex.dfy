/**
 * A backtracking matcher for the fragment of Python's `re` syntax that the
 * rename plugin's patterns use: single characters and character classes,
 * greedy and lazy repetition of one character class, capturing groups,
 * non-capturing alternation and the word boundary `\b`.
 *
 * `Match` explores the alternatives in the order Python's engine does
 * (a greedy repetition tries the longest run first and gives back one
 * character at a time, a lazy one does the opposite, an alternation tries
 * its branches from left to right), and the first success is the result.
 * `Search` is `re.search`: the leftmost start position at which `Match`
 * succeeds.
 */
module Regex {
  import opened Wrappers
  import opened Chars

  /** The character tests: `.`, `\d`, `\s`, a literal, and `[...]` / `[^...]`. */
  datatype Class =
    | AnyChar
    | Digit
    | Space
    | Lit(c: char)
    | Set(negated: bool, digits: bool, members: string)

  /** Pattern character `p` against subject character `c`, honouring `re.IGNORECASE`. */
  predicate CharIs(p: char, c: char, icase: bool) {
    if icase then MatchesIgnoringCase(p, c) else c == p
  }

  predicate InClass(cl: Class, c: char, icase: bool) {
    match cl
    case AnyChar => c != '\n'
    case Digit => IsDigit(c)
    case Space => IsSpace(c)
    case Lit(p) => CharIs(p, c, icase)
    case Set(negated, digits, members) =>
      ((digits && IsDigit(c)) || InMembers(members, c, icase)) != negated
  }

  /** Whether one of the listed characters of a `[...]` matches `c`. */
  predicate InMembers(members: string, c: char, icase: bool)
    decreases |members|
  {
    |members| > 0 && (CharIs(members[0], c, icase) || InMembers(members[1..], c, icase))
  }

  /** The upper bound of a repetition: `{m,n}` or unbounded (`*`, `+`). */
  datatype Limit = AtMost(n: nat) | Unbounded

  /**
   * One element of a pattern. `Close(g, start)` never appears in a written
   * pattern: the matcher inserts it after a group's body to record where the
   * group `g` began.
   */
  datatype Node =
    | One(cl: Class)
    | Repeat(cl: Class, min: nat, max: Limit, greedy: bool)
    | Group(index: nat, body: Nodes)
    | Alt(left: Nodes, right: Nodes)
    | Boundary
    | Close(index: nat, start: nat)

  /** A sequence of pattern elements, as a list. */
  datatype Nodes = Nil | Cons(head: Node, tail: Nodes)

  /** The elements of `a` followed by those of `b`. */
  function Append(a: Nodes, b: Nodes): Nodes
    decreases a
  {
    match a
    case Nil => b
    case Cons(h, t) => Cons(h, Append(t, b))
  }

  /** Group number to the (start, end) positions of its last capture. */
  type Captures = map<nat, (nat, nat)>

  /** Where a successful match ends, and what its groups captured. */
  datatype State = State(end: nat, caps: Captures)

  function Size(p: Nodes): nat
    decreases p
  {
    match p
    case Nil => 0
    case Cons(h, t) => NodeSize(h) + Size(t)
  }

  function NodeSize(n: Node): nat
    decreases n
  {
    match n
    case Group(_, body) => 2 + Size(body)
    case Alt(left, right) => 1 + Size(left) + Size(right)
    case _ => 1
  }

  lemma {:induction false} SizeAppend(a: Nodes, b: Nodes)
    ensures Size(Append(a, b)) == Size(a) + Size(b)
    decreases a
  {
    match a
    case Nil =>
    case Cons(h, t) => SizeAppend(t, b);
  }

  /** `\b` at position `i`: exactly one of the characters around it is a word character. */
  predicate AtBoundary(s: string, i: nat)
    requires i <= |s|
  {
    (i > 0 && IsWordChar(s[i - 1])) != (i < |s| && IsWordChar(s[i]))
  }

  /** How far from `i` a repetition of `cl` can reach: the longest run of `cl` characters, cut at `max`. */
  function Run(cl: Class, s: string, i: nat, icase: bool, max: Limit): (n: nat)
    requires i <= |s|
    decreases |s| - i
    ensures i + n <= |s|
    ensures max.AtMost? ==> n <= max.n
    ensures i + n < |s| && (max.AtMost? ==> n < max.n) ==> !InClass(cl, s[i + n], icase)
  {
    if i < |s| && InClass(cl, s[i], icase) && max != AtMost(0) then
      1 + Run(cl, s, i + 1, icase, if max.AtMost? then AtMost(max.n - 1) else Unbounded)
    else
      0
  }

  /** Every character of a run is in the class. */
  lemma {:induction false} RunIn(cl: Class, s: string, i: nat, icase: bool, max: Limit, k: nat)
    requires i <= |s| && i <= k < i + Run(cl, s, i, icase, max)
    ensures InClass(cl, s[k], icase)
    decreases |s| - i
  {
    if k > i {
      RunIn(cl, s, i + 1, icase, if max.AtMost? then AtMost(max.n - 1) else Unbounded, k);
    }
  }

  /** The first way `p` matches `s` from position `i`, in Python's backtracking order. */
  function Match(p: Nodes, s: string, i: nat, caps: Captures, icase: bool): Option<State>
    requires i <= |s|
    decreases Size(p), 1, |s| - i
  {
    match p
    case Nil => Some(State(i, caps))
    case Cons(n, rest) =>
      assert Size(p) == NodeSize(n) + Size(rest);
      match n
      case One(cl) =>
        if i < |s| && InClass(cl, s[i], icase) then Match(rest, s, i + 1, caps, icase) else None
      case Repeat(cl, min, max, greedy) =>
        var c := Run(cl, s, i, icase, max);
        if c < min then None
        else if greedy then Greedy(rest, s, i, caps, icase, min, c)
        else Lazy(rest, s, i, caps, icase, min, c)
      case Group(g, body) =>
        SizeAppend(body, Cons(Close(g, i), rest));
        Match(Append(body, Cons(Close(g, i), rest)), s, i, caps, icase)
      case Close(g, start) =>
        Match(rest, s, i, caps[g := (start, i)], icase)
      case Alt(left, right) =>
        SizeAppend(left, rest);
        SizeAppend(right, rest);
        (match Match(Append(left, rest), s, i, caps, icase)
         case Some(st) => Some(st)
         case None => Match(Append(right, rest), s, i, caps, icase))
      case Boundary =>
        if AtBoundary(s, i) then Match(rest, s, i, caps, icase) else None
  }

  /** A greedy repetition: continue with `rest` after `c` characters, then after fewer, down to `min`. */
  function Greedy(rest: Nodes, s: string, i: nat, caps: Captures, icase: bool, min: nat, c: nat): Option<State>
    requires i + c <= |s|
    decreases Size(rest) + 1, 0, c
  {
    match Match(rest, s, i + c, caps, icase)
    case Some(st) => Some(st)
    case None => if c <= min then None else Greedy(rest, s, i, caps, icase, min, c - 1)
  }

  /** A lazy repetition: continue with `rest` after `c` characters, then after more, up to `top`. */
  function Lazy(rest: Nodes, s: string, i: nat, caps: Captures, icase: bool, c: nat, top: nat): Option<State>
    requires i + top <= |s|
    decreases Size(rest) + 1, 0, if c <= top then top - c else 0
  {
    if top < c then None
    else
      match Match(rest, s, i + c, caps, icase)
      case Some(st) => Some(st)
      case None => if c == top then None else Lazy(rest, s, i, caps, icase, c + 1, top)
  }

  /** A compiled pattern: its elements and whether it was compiled with `re.IGNORECASE`. */
  datatype Pattern = Pattern(nodes: Nodes, ignoreCase: bool)

  /** A successful `re.search`: where the match starts, and how it ended. */
  datatype Found = Found(start: nat, state: State)

  /** `re.search` from position `i` on: the leftmost start where the pattern matches. */
  function SearchFrom(pat: Pattern, s: string, i: nat): (r: Option<Found>)
    requires i <= |s|
    decreases |s| - i
    ensures r.Some? ==> i <= r.value.start <= |s|
    ensures r.Some? ==> Match(pat.nodes, s, r.value.start, map[], pat.ignoreCase) == Some(r.value.state)
    ensures r.Some? ==> forall j :: i <= j < r.value.start ==> Match(pat.nodes, s, j, map[], pat.ignoreCase).None?
    ensures r.None? <==> forall j :: i <= j <= |s| ==> Match(pat.nodes, s, j, map[], pat.ignoreCase).None?
  {
    match Match(pat.nodes, s, i, map[], pat.ignoreCase)
    case Some(st) => Some(Found(i, st))
    case None => if i == |s| then None else SearchFrom(pat, s, i + 1)
  }

  /** `re.search(pat, s)`. */
  function Search(pat: Pattern, s: string): Option<Found> {
    SearchFrom(pat, s, 0)
  }

  /** The state a search ends in, if it succeeds. */
  function Ended(f: Option<Found>): Option<State> {
    match f
    case Some(fd) => Some(fd.state)
    case None => None
  }

  /** The first success among the attempts `hit(i)`, ..., `hit(n)`, in that order. */
  function FirstHit(hit: nat -> Option<State>, i: nat, n: nat): Option<State>
    requires i <= n
    decreases n - i
  {
    match hit(i)
    case Some(st) => Some(st)
    case None => if i == n then None else FirstHit(hit, i + 1, n)
  }

  /** The first success is a success at some position. */
  lemma {:induction false} FirstHitAt(hit: nat -> Option<State>, i: nat, n: nat)
    requires i <= n && FirstHit(hit, i, n).Some?
    ensures exists k :: i <= k <= n && hit(k) == FirstHit(hit, i, n)
    decreases n - i
  {
    if hit(i).None? {
      FirstHitAt(hit, i + 1, n);
    }
  }

  /** There is no first success exactly when every attempt fails. */
  lemma {:induction false} FirstHitNone(hit: nat -> Option<State>, i: nat, n: nat)
    requires i <= n
    ensures FirstHit(hit, i, n).None? <==> forall k :: i <= k <= n ==> hit(k).None?
    decreases n - i
  {
    if hit(i).None? && i < n {
      FirstHitNone(hit, i + 1, n);
    }
  }

  /** Failing before `p` and succeeding at `p` makes `p` the first success. */
  lemma {:induction false} FirstHitIs(hit: nat -> Option<State>, i: nat, n: nat, p: nat)
    requires i <= p <= n
    requires forall k :: i <= k < p ==> hit(k).None?
    requires hit(p).Some?
    ensures FirstHit(hit, i, n) == hit(p)
    decreases p - i
  {
    if hit(i).None? {
      FirstHitIs(hit, i + 1, n, p);
    }
  }

  /** `re.search` ends as the first success of `hit` when `hit` is what the pattern does at each position. */
  lemma {:induction false} SearchIsFirstHit(pat: Pattern, s: string, i: nat, hit: nat -> Option<State>)
    requires i <= |s|
    requires forall k :: i <= k <= |s| ==> Match(pat.nodes, s, k, map[], pat.ignoreCase) == hit(k)
    ensures Ended(SearchFrom(pat, s, i)) == FirstHit(hit, i, |s|)
    decreases |s| - i
  {
    if i < |s| {
      SearchIsFirstHit(pat, s, i + 1, hit);
    }
  }

  /** `match.group(g)`: the text group `g` captured, or `None` if it took no part. */
  function GroupText(s: string, st: State, g: nat): Option<string> {
    if g in st.caps && st.caps[g].0 <= st.caps[g].1 <= |s| then Some(s[st.caps[g].0..st.caps[g].1]) else None
  }

  // ----- How the matcher steps over one element -----

  lemma MatchOne(cl: Class, r: Nodes, s: string, i: nat, caps: Captures, icase: bool)
    requires i <= |s|
    ensures Match(Cons(One(cl), r), s, i, caps, icase)
         == if i < |s| && InClass(cl, s[i], icase) then Match(r, s, i + 1, caps, icase) else None
  {
  }

  lemma MatchRepeat(cl: Class, min: nat, max: Limit, greedy: bool, r: Nodes, s: string, i: nat, caps: Captures, icase: bool)
    requires i <= |s|
    ensures (var n := Run(cl, s, i, icase, max);
             Match(Cons(Repeat(cl, min, max, greedy), r), s, i, caps, icase)
             == if n < min then None
                else if greedy then Greedy(r, s, i, caps, icase, min, n)
                else Lazy(r, s, i, caps, icase, min, n))
  {
  }

  lemma MatchGroup(g: nat, body: Nodes, r: Nodes, s: string, i: nat, caps: Captures, icase: bool)
    requires i <= |s|
    ensures Match(Cons(Group(g, body), r), s, i, caps, icase) == Match(Append(body, Cons(Close(g, i), r)), s, i, caps, icase)
  {
  }

  lemma MatchClose(g: nat, start: nat, r: Nodes, s: string, i: nat, caps: Captures, icase: bool)
    requires i <= |s|
    ensures Match(Cons(Close(g, start), r), s, i, caps, icase) == Match(r, s, i, caps[g := (start, i)], icase)
  {
  }

  lemma MatchAlt(left: Nodes, right: Nodes, r: Nodes, s: string, i: nat, caps: Captures, icase: bool)
    requires i <= |s|
    ensures Match(Cons(Alt(left, right), r), s, i, caps, icase)
         == if Match(Append(left, r), s, i, caps, icase).Some? then Match(Append(left, r), s, i, caps, icase)
            else Match(Append(right, r), s, i, caps, icase)
  {
  }

  lemma MatchBoundary(r: Nodes, s: string, i: nat, caps: Captures, icase: bool)
    requires i <= |s|
    ensures Match(Cons(Boundary, r), s, i, caps, icase) == if AtBoundary(s, i) then Match(r, s, i, caps, icase) else None
  {
  }

  // ----- Backtracking over the length of a repetition -----

  /** A greedy repetition gives back characters until `rest` matches. */
  lemma {:induction false} GreedyFrom(rest: Nodes, s: string, i: nat, caps: Captures, icase: bool, min: nat, c: nat, d: nat)
    requires min <= d <= c && i + c <= |s|
    requires forall j :: i + d < j <= i + c ==> Match(rest, s, j, caps, icase).None?
    ensures Greedy(rest, s, i, caps, icase, min, c) == Greedy(rest, s, i, caps, icase, min, d)
    decreases c
  {
    if d < c {
      GreedyFrom(rest, s, i, caps, icase, min, c - 1, d);
    }
  }

  /** A greedy repetition that `rest` can follow after `c` characters takes all `c`. */
  lemma GreedyFirst(rest: Nodes, s: string, i: nat, caps: Captures, icase: bool, min: nat, c: nat)
    requires i + c <= |s| && Match(rest, s, i + c, caps, icase).Some?
    ensures Greedy(rest, s, i, caps, icase, min, c) == Match(rest, s, i + c, caps, icase)
  {
  }

  /** A greedy repetition that `rest` can follow at no count from `min` to `c` fails. */
  lemma GreedyFails(rest: Nodes, s: string, i: nat, caps: Captures, icase: bool, min: nat, c: nat)
    requires min <= c && i + c <= |s|
    requires forall j :: i + min <= j <= i + c ==> Match(rest, s, j, caps, icase).None?
    ensures Greedy(rest, s, i, caps, icase, min, c).None?
  {
    GreedyFrom(rest, s, i, caps, icase, min, c, min);
    assert Match(rest, s, i + min, caps, icase).None?;
  }

  /** A lazy repetition takes characters until `rest` matches. */
  lemma {:induction false} LazyFrom(rest: Nodes, s: string, i: nat, caps: Captures, icase: bool, c: nat, d: nat, top: nat)
    requires c <= d <= top && i + top <= |s|
    requires forall j :: i + c <= j < i + d ==> Match(rest, s, j, caps, icase).None?
    ensures Lazy(rest, s, i, caps, icase, c, top) == Lazy(rest, s, i, caps, icase, d, top)
    decreases d - c
  {
    if c < d {
      LazyFrom(rest, s, i, caps, icase, c + 1, d, top);
    }
  }

  /** A lazy repetition that `rest` can follow at no count from `c` to `top` fails. */
  lemma LazyFails(rest: Nodes, s: string, i: nat, caps: Captures, icase: bool, c: nat, top: nat)
    requires c <= top && i + top <= |s|
    requires forall j :: i + c <= j <= i + top ==> Match(rest, s, j, caps, icase).None?
    ensures Lazy(rest, s, i, caps, icase, c, top).None?
  {
    LazyFrom(rest, s, i, caps, icase, c, top, top);
    assert Match(rest, s, i + top, caps, icase).None?;
  }

  /** A greedy repetition that `rest` cannot follow early on matches as `rest` after the longest run. */
  lemma GreedyLongest(rest: Nodes, s: string, i: nat, caps: Captures, icase: bool, min: nat, c: nat)
    requires min <= c && i + c <= |s|
    requires forall j :: i + min <= j < i + c ==> Match(rest, s, j, caps, icase).None?
    ensures Greedy(rest, s, i, caps, icase, min, c) == Match(rest, s, i + c, caps, icase)
  {
    if Match(rest, s, i + c, caps, icase).None? {
      GreedyFails(rest, s, i, caps, icase, min, c);
    }
  }

  /** `re.IGNORECASE` does not change what `.`, `\d` and `\s` match. */
  lemma {:induction false} RunCaseFree(cl: Class, s: string, i: nat, max: Limit)
    requires i <= |s|
    requires cl == AnyChar || cl == Digit || cl == Space
    ensures Run(cl, s, i, false, max) == Run(cl, s, i, true, max)
    decreases |s| - i
  {
    if i < |s| {
      assert InClass(cl, s[i], false) == InClass(cl, s[i], true);
      if InClass(cl, s[i], false) && max != AtMost(0) {
        RunCaseFree(cl, s, i + 1, if max.AtMost? then AtMost(max.n - 1) else Unbounded);
      }
    }
  }

  // ----- Spelling patterns the way Python writes them -----

  /** `x+` */
  function Plus(cl: Class): Node { Repeat(cl, 1, Unbounded, true) }

  /** `x*` */
  function Star(cl: Class): Node { Repeat(cl, 0, Unbounded, true) }

  /** `x*?` */
  function LazyStar(cl: Class): Node { Repeat(cl, 0, Unbounded, false) }

  /** `x?` */
  function Optional(cl: Class): Node { Repeat(cl, 0, AtMost(1), true) }

  /** One literal character. */
  function Ch(c: char): Node { One(Lit(c)) }

  /** A capturing group `(\d+)` that ends its pattern matches the whole digit run. */
  lemma TrailingDigits(g: nat, s: string, k: nat, caps: Captures, icase: bool)
    requires k <= |s|
    ensures (var m := Run(Digit, s, k, icase, Unbounded);
             Match(Cons(Group(g, Cons(Plus(Digit), Nil)), Nil), s, k, caps, icase)
             == if m >= 1 then Some(State(k + m, caps[g := (k, k + m)])) else None)
  {
    var m := Run(Digit, s, k, icase, Unbounded);
    MatchGroup(g, Cons(Plus(Digit), Nil), Nil, s, k, caps, icase);
    assert Append(Cons(Plus(Digit), Nil), Cons(Close(g, k), Nil)) == Cons(Plus(Digit), Cons(Close(g, k), Nil));
    MatchRepeat(Digit, 1, Unbounded, true, Cons(Close(g, k), Nil), s, k, caps, icase);
    if m >= 1 {
      MatchClose(g, k, Nil, s, k + m, caps, icase);
    }
  }

  /** A run of `cl` characters ends where the run from any of its positions ends. */
  lemma {:induction false} RunFrom(cl: Class, s: string, i: nat, icase: bool, k: nat)
    requires i <= |s| && i <= k <= i + Run(cl, s, i, icase, Unbounded)
    ensures k + Run(cl, s, k, icase, Unbounded) == i + Run(cl, s, i, icase, Unbounded)
    decreases k - i
  {
    if i < k {
      RunFrom(cl, s, i + 1, icase, k);
    }
  }

  /** `r` fails from every `cl` character of `s` at or after `i`. */
  predicate FailsOn(cl: Class, r: Nodes, s: string, i: nat, caps: Captures, icase: bool) {
    forall j {:trigger Match(r, s, j, caps, icase)} :: i <= j < |s| && InClass(cl, s[j], icase) ==> Match(r, s, j, caps, icase).None?
  }

  /** If `r` cannot start at any `cl` character, it cannot start inside a run of them. */
  lemma RunNone(cl: Class, r: Nodes, s: string, i: nat, caps: Captures, icase: bool)
    requires i <= |s|
    requires FailsOn(cl, r, s, i, caps, icase)
    ensures forall j :: i <= j < i + Run(cl, s, i, icase, Unbounded) ==> Match(r, s, j, caps, icase).None?
  {
    forall j | i <= j < i + Run(cl, s, i, icase, Unbounded)
      ensures Match(r, s, j, caps, icase).None?
    {
      RunIn(cl, s, i, icase, Unbounded, j);
    }
  }

  /** A greedy repetition of a class that `r` can never start from matches as `r` after the whole run. */
  lemma StarLongest(cl: Class, r: Nodes, s: string, i: nat, caps: Captures, icase: bool)
    requires i <= |s|
    requires FailsOn(cl, r, s, i, caps, icase)
    ensures Match(Cons(Star(cl), r), s, i, caps, icase) == Match(r, s, i + Run(cl, s, i, icase, Unbounded), caps, icase)
  {
    RunNone(cl, r, s, i, caps, icase);
    MatchRepeat(cl, 0, Unbounded, true, r, s, i, caps, icase);
    GreedyLongest(r, s, i, caps, icase, 0, Run(cl, s, i, icase, Unbounded));
  }

  /** `cl?` followed by a remainder that cannot start where `cl` stands takes the character when it can. */
  lemma OptionalLongest(cl: Class, r: Nodes, s: string, i: nat, caps: Captures, icase: bool)
    requires i <= |s|
    requires Run(cl, s, i, icase, AtMost(1)) == 1 ==> Match(r, s, i, caps, icase).None?
    ensures Match(Cons(Optional(cl), r), s, i, caps, icase) == Match(r, s, i + Run(cl, s, i, icase, AtMost(1)), caps, icase)
  {
    MatchRepeat(cl, 0, AtMost(1), true, r, s, i, caps, icase);
    GreedyLongest(r, s, i, caps, icase, 0, Run(cl, s, i, icase, AtMost(1)));
  }

  /** `(\d+)` followed by a remainder that can never start at a digit takes the whole digit run. */
  lemma DigitGroupLongest(g: nat, r: Nodes, s: string, i: nat, caps: Captures, icase: bool)
    requires i <= |s|
    requires FailsOn(Digit, Cons(Close(g, i), r), s, i + 1, caps, icase)
    ensures (var n := Run(Digit, s, i, icase, Unbounded);
             Match(Cons(Group(g, Cons(Plus(Digit), Nil)), r), s, i, caps, icase)
             == if n >= 1 then Match(r, s, i + n, caps[g := (i, i + n)], icase) else None)
  {
    var n := Run(Digit, s, i, icase, Unbounded);
    var rest := Cons(Close(g, i), r);
    MatchGroup(g, Cons(Plus(Digit), Nil), r, s, i, caps, icase);
    assert Append(Cons(Plus(Digit), Nil), rest) == Cons(Plus(Digit), rest);
    MatchRepeat(Digit, 1, Unbounded, true, rest, s, i, caps, icase);
    if n >= 1 {
      RunNone(Digit, rest, s, i + 1, caps, icase);
      RunFrom(Digit, s, i, icase, i + 1);
      GreedyLongest(rest, s, i, caps, icase, 1, n);
      MatchClose(g, i, r, s, i + n, caps, icase);
    }
  }

  /** A lazy repetition that has taken one character behaves as a fresh one a character later. */
  lemma {:induction false} LazyShift(rest: Nodes, s: string, i: nat, caps: Captures, icase: bool, c: nat, top: nat)
    requires i + 1 + top <= |s|
    ensures Lazy(rest, s, i, caps, icase, c + 1, top + 1) == Lazy(rest, s, i + 1, caps, icase, c, top)
    decreases if c <= top then top - c else 0
  {
    if c < top {
      LazyShift(rest, s, i, caps, icase, c + 1, top);
    }
  }

  lemma {:induction false} AppendNil(a: Nodes)
    ensures Append(a, Nil) == a
    decreases a
  {
    match a
    case Nil =>
    case Cons(_, t) => AppendNil(t);
  }

  /** The literal characters of `w`, followed by `rest`. */
  function Word(w: string, rest: Nodes): Nodes
    decreases |w|
  {
    if |w| == 0 then rest else Cons(Ch(w[0]), Word(w[1..], rest))
  }

  /** `w` occurs at position `p` of `s`, letter case ignored when `icase` holds. */
  predicate WordAt(s: string, p: nat, w: string, icase: bool) {
    p + |w| <= |s| && forall j :: 0 <= j < |w| ==> CharIs(w[j], s[p + j], icase)
  }

  /** A literal word matches exactly where it occurs. */
  lemma {:induction false} WordMatch(w: string, rest: Nodes, s: string, p: nat, caps: Captures, icase: bool)
    requires p <= |s|
    ensures Match(Word(w, rest), s, p, caps, icase)
         == if WordAt(s, p, w, icase) then Match(rest, s, p + |w|, caps, icase) else None
    decreases |w|
  {
    if |w| > 0 {
      MatchOne(Lit(w[0]), Word(w[1..], rest), s, p, caps, icase);
      if p < |s| && CharIs(w[0], s[p], icase) {
        WordMatch(w[1..], rest, s, p + 1, caps, icase);
        if WordAt(s, p + 1, w[1..], icase) {
          forall j | 0 <= j < |w| ensures CharIs(w[j], s[p + j], icase) {
            if j > 0 {
              assert w[j] == w[1..][j - 1];
            }
          }
        } else if p + |w| <= |s| {
          var j :| 0 <= j < |w| - 1 && !CharIs(w[1..][j], s[p + 1 + j], icase);
          assert w[1..][j] == w[j + 1];
        }
      }
    }
  }

  /** Every position of `s[i..i + n]` holds a character of the class. */
  lemma {:induction false} RunCovers(cl: Class, s: string, i: nat, icase: bool, n: nat)
    requires i + n <= |s|
    requires forall j :: i <= j < i + n ==> InClass(cl, s[j], icase)
    ensures Run(cl, s, i, icase, Unbounded) >= n
    decreases n
  {
    if n > 0 {
      RunCovers(cl, s, i + 1, icase, n - 1);
    }
  }

  /** The run from `i` is exactly `n` long: `n` class characters, then the end, a character outside the class or the limit. */
  lemma {:induction false} RunIs(cl: Class, s: string, i: nat, icase: bool, max: Limit, n: nat)
    requires i + n <= |s|
    requires max.AtMost? ==> n <= max.n
    requires forall j :: i <= j < i + n ==> InClass(cl, s[j], icase)
    requires i + n == |s| || !InClass(cl, s[i + n], icase) || (max.AtMost? && n == max.n)
    ensures Run(cl, s, i, icase, max) == n
    decreases n
  {
    if n > 0 {
      RunIs(cl, s, i + 1, icase, if max.AtMost? then AtMost(max.n - 1) else Unbounded, n - 1);
    }
  }
}
