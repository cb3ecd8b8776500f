/**
 * The Python string operations the rename handler relies on: `in` on
 * strings, `str.replace` (global and with a count of one),
 * `os.path.splitext` on POSIX paths, and `str()` of an integer.
 */
module Text {
  import opened Wrappers
  import opened Chars

  /** `pat` occurs in `s` starting at index `k`. */
  predicate OccursAt(s: string, pat: string, k: nat) {
    k + |pat| <= |s| && s[k..k + |pat|] == pat
  }

  /** `s.find(pat)`, as an option: the leftmost index where `pat` occurs. */
  function Find(s: string, pat: string): (r: Option<nat>)
    ensures r.Some? ==> OccursAt(s, pat, r.value)
    ensures r.Some? ==> forall j :: 0 <= j < r.value ==> !OccursAt(s, pat, j)
    ensures r.None? ==> forall j :: 0 <= j <= |s| ==> !OccursAt(s, pat, j)
  {
    FindFrom(s, pat, 0)
  }

  function FindFrom(s: string, pat: string, i: nat): (r: Option<nat>)
    decreases |s| - i
    ensures r.Some? ==> i <= r.value && OccursAt(s, pat, r.value)
    ensures r.Some? ==> forall j :: i <= j < r.value ==> !OccursAt(s, pat, j)
    ensures r.None? ==> forall j :: i <= j <= |s| ==> !OccursAt(s, pat, j)
  {
    if i + |pat| > |s| then None
    else if s[i..i + |pat|] == pat then Some(i)
    else FindFrom(s, pat, i + 1)
  }

  /** `pat in s`. */
  predicate Contains(s: string, pat: string) {
    Find(s, pat).Some?
  }

  /**
   * `s.replace(target, repl)`: every occurrence of a non-empty `target`, scanning
   * left to right and never overlapping, is replaced by `repl`; the text put
   * in is not scanned again. An empty `target` puts `repl` before every
   * character and at the end.
   */
  function Replace(s: string, target: string, repl: string): string
    decreases |s|
  {
    if |target| == 0 then Interleave(s, repl)
    else if |s| < |target| then s
    else if s[..|target|] == target then repl + Replace(s[|target|..], target, repl)
    else [s[0]] + Replace(s[1..], target, repl)
  }

  /** `s.replace("", repl)`. */
  function Interleave(s: string, repl: string): string
    decreases |s|
  {
    if |s| == 0 then repl else repl + [s[0]] + Interleave(s[1..], repl)
  }

  /** `s.replace(target, repl, 1)`: only the leftmost occurrence is replaced. */
  function ReplaceFirst(s: string, target: string, repl: string): (r: string)
    ensures Find(s, target).None? ==> r == s
    ensures Find(s, target).Some? ==>
      var k := Find(s, target).value;
      r == s[..k] + repl + s[k + |target|..]
  {
    match Find(s, target)
    case None => s
    case Some(k) => s[..k] + repl + s[k + |target|..]
  }

  /** The number of occurrences `Replace` rewrites: leftmost first, none overlapping. */
  function Count(s: string, target: string): nat
    requires |target| > 0
    decreases |s|
  {
    if |s| < |target| then 0
    else if s[..|target|] == target then 1 + Count(s[|target|..], target)
    else Count(s[1..], target)
  }

  /** Text in which `target` does not occur comes out of `Replace` unchanged. */
  lemma {:induction false} ReplaceAbsent(s: string, target: string, repl: string)
    requires |target| > 0
    requires !Contains(s, target)
    ensures Replace(s, target, repl) == s
    decreases |s|
  {
    if |s| >= |target| {
      assert s[0..|target|] == s[..|target|];
      assert !OccursAt(s, target, 0);
      NotContainsTail(s, target);
      ReplaceAbsent(s[1..], target, repl);
    }
  }

  /** Dropping the first character cannot make a string contain `target`. */
  lemma NotContainsTail(s: string, target: string)
    requires |s| > 0
    requires !Contains(s, target)
    ensures !Contains(s[1..], target)
  {
    if Contains(s[1..], target) {
      var k := Find(s[1..], target).value;
      assert s[1..][k..k + |target|] == s[k + 1..k + 1 + |target|];
      assert OccursAt(s, target, k + 1);
      assert false;
    }
  }

  /** Replacing `target` by itself changes nothing. */
  lemma {:induction false} ReplaceSelf(s: string, target: string)
    requires |target| > 0
    ensures Replace(s, target, target) == s
    decreases |s|
  {
    if |s| >= |target| {
      if s[..|target|] == target {
        ReplaceSelf(s[|target|..], target);
        assert s == s[..|target|] + s[|target|..];
      } else {
        ReplaceSelf(s[1..], target);
        assert s == [s[0]] + s[1..];
      }
    }
  }

  /** Each rewritten occurrence changes the length by `|repl| - |target|`. */
  lemma {:induction false} ReplaceLength(s: string, target: string, repl: string)
    requires |target| > 0
    ensures |Replace(s, target, repl)| == |s| + Count(s, target) * (|repl| - |target|)
    decreases |s|
  {
    if |s| >= |target| {
      var d := |repl| - |target|;
      if s[..|target|] == target {
        ReplaceHit(s, target, repl);
        ReplaceLength(s[|target|..], target, repl);
        Distribute(Count(s[|target|..], target), d);
      } else {
        ReplaceSkip(s, target, repl);
        ReplaceLength(s[1..], target, repl);
      }
    }
  }

  /**
   * The global replace rewrites the leftmost occurrence first, exactly as
   * `ReplaceFirst` does, and then carries on after it.
   */
  lemma ReplaceAtFirst(s: string, target: string, repl: string)
    requires |target| > 0
    requires Contains(s, target)
    ensures var k := Find(s, target).value;
            Replace(s, target, repl) == s[..k] + repl + Replace(s[k + |target|..], target, repl)
  {
    var k := Find(s, target).value;
    ReplaceBefore(s, target, repl, k);
    var u := s[k..];
    assert u[..|target|] == s[k..k + |target|];
    ReplaceHit(u, target, repl);
    assert u[|target|..] == s[k + |target|..];
  }

  /** Before the first occurrence, `Replace` copies the text unchanged. */
  lemma {:induction false} ReplaceBefore(s: string, target: string, repl: string, j: nat)
    requires |target| > 0 && j + |target| <= |s|
    requires forall i :: 0 <= i < j ==> !OccursAt(s, target, i)
    ensures Replace(s, target, repl) == s[..j] + Replace(s[j..], target, repl)
    decreases j
  {
    if j == 0 {
      assert s[..0] + s[0..] == s[0..];
    } else {
      ReplaceBefore(s, target, repl, j - 1);
      SkipAt(s, target, repl, j - 1);
      SliceSteps(s, j);
      ConcatAssoc(s[..j - 1], [s[j - 1]], Replace(s[j..], target, repl));
    }
  }

  /** Where `target` does not occur, `Replace` copies one character and goes on. */
  lemma SkipAt(s: string, target: string, repl: string, k: nat)
    requires |target| > 0 && k + |target| <= |s|
    requires !OccursAt(s, target, k)
    ensures Replace(s[k..], target, repl) == [s[k]] + Replace(s[k + 1..], target, repl)
  {
    var u := s[k..];
    assert u[..|target|] == s[k..k + |target|];
    ReplaceSkip(u, target, repl);
    assert u[1..] == s[k + 1..];
  }

  lemma SliceSteps(s: string, j: nat)
    requires 0 < j <= |s|
    ensures s[j - 1..][0] == s[j - 1] && s[j - 1..][1..] == s[j..]
    ensures s[..j - 1] + [s[j - 1]] == s[..j]
  {
  }

  lemma ConcatAssoc(a: string, b: string, c: string)
    ensures a + (b + c) == (a + b) + c
  {
  }

  lemma Distribute(c: int, d: int)
    ensures (1 + c) * d == d + c * d
  {
  }

  /** One step of `Replace` at an occurrence. */
  lemma ReplaceHit(s: string, target: string, repl: string)
    requires |target| > 0 && |s| >= |target| && s[..|target|] == target
    ensures Replace(s, target, repl) == repl + Replace(s[|target|..], target, repl)
  {
  }

  /** One step of `Replace` where `target` does not start. */
  lemma ReplaceSkip(s: string, target: string, repl: string)
    requires |target| > 0 && |s| >= |target| && s[..|target|] != target
    ensures Replace(s, target, repl) == [s[0]] + Replace(s[1..], target, repl)
  {
  }

  /** When `target` does not occur again after its first occurrence, the global replace is the single one. */
  lemma ReplaceOnce(s: string, target: string, repl: string)
    requires |target| > 0 && Contains(s, target)
    requires !Contains(s[Find(s, target).value + |target|..], target)
    ensures Replace(s, target, repl) == ReplaceFirst(s, target, repl)
  {
    var k := Find(s, target).value;
    ReplaceAbsent(s[k + |target|..], target, repl);
    ReplaceAtFirst(s, target, repl);
  }

  /** The leftmost occurrence is the one `Find` reports. */
  lemma FindIs(s: string, pat: string, k: nat)
    requires OccursAt(s, pat, k)
    requires forall j :: 0 <= j < k ==> !OccursAt(s, pat, j)
    ensures Find(s, pat) == Some(k)
  {
  }

  // ----- os.path.splitext -----

  /** The index of the last `c` in `s` (`s.rfind(c)`), or -1. */
  function LastIndex(s: string, c: char): (r: int)
    decreases |s|
    ensures -1 <= r < |s|
    ensures r >= 0 ==> s[r] == c
    ensures forall j :: r < j < |s| ==> s[j] != c
  {
    if |s| == 0 then -1
    else if s[|s| - 1] == c then |s| - 1
    else LastIndex(s[..|s| - 1], c)
  }

  /** Some character of `s[from..to]` is not a dot. */
  predicate HasNonDot(s: string, from: nat, to: nat)
    requires from <= to <= |s|
  {
    exists j :: from <= j < to && s[j] != '.'
  }

  /**
   * `posixpath.splitext(p)`: the extension runs from the last dot of the last
   * path component to the end, unless that component has only dots before
   * it (a leading dot starts a hidden name, not an extension).
   */
  function SplitExt(p: string): (r: (string, string))
  {
    var sep := LastIndex(p, '/');
    var dot := LastIndex(p, '.');
    if dot > sep && HasNonDot(p, sep + 1, dot) then (p[..dot], p[dot..]) else (p, "")
  }

  /** The root followed by the extension gives back the path. */
  lemma SplitExtJoins(p: string)
    ensures SplitExt(p).0 + SplitExt(p).1 == p
  {
    var sep := LastIndex(p, '/');
    var dot := LastIndex(p, '.');
    if dot > sep && HasNonDot(p, sep + 1, dot) {
      assert p[..dot] + p[dot..] == p;
    }
  }

  /**
   * A non-empty extension is a dot followed by characters that are neither
   * dots nor slashes, and the root before it has a last component that is
   * not made of dots only.
   */
  lemma SplitExtShape(p: string)
    ensures var (root, ext) := SplitExt(p);
            ext != "" ==>
              && ext[0] == '.'
              && (forall j :: 1 <= j < |ext| ==> ext[j] != '.' && ext[j] != '/')
              && HasNonDot(root, LastIndex(root, '/') + 1, |root|)
  {
    var sep := LastIndex(p, '/');
    var dot := LastIndex(p, '.');
    if dot > sep && HasNonDot(p, sep + 1, dot) {
      var root := p[..dot];
      var ext := p[dot..];
      forall j | 1 <= j < |ext| ensures ext[j] != '.' && ext[j] != '/' {
        assert ext[j] == p[dot + j];
      }
      LastIndexPrefix(p, '/', dot);
      var w :| sep + 1 <= w < dot && p[w] != '.';
      assert root[w] == p[w];
    }
  }

  /** Text without `c` appended after `s` leaves the last `c` where it was. */
  lemma {:induction false} LastIndexAppend(s: string, t: string, c: char)
    requires forall j :: 0 <= j < |t| ==> t[j] != c
    ensures LastIndex(s + t, c) == LastIndex(s, c)
    decreases |t|
  {
    if |t| > 0 {
      var u := s + t;
      assert u[..|u| - 1] == s + t[..|t| - 1];
      LastIndexAppend(s, t[..|t| - 1], c);
    } else {
      assert s + t == s;
    }
  }

  /** Cutting `s` after its last `c` keeps that index as the last `c`. */
  lemma LastIndexPrefix(s: string, c: char, n: nat)
    requires LastIndex(s, c) < n <= |s|
    ensures LastIndex(s[..n], c) == LastIndex(s, c)
  {
    var r := LastIndex(s, c);
    var t := s[..n];
    LastIndexUnique(t, c, r);
  }

  /** `LastIndex` is the position of the last `c`. */
  lemma {:induction false} LastIndexUnique(s: string, c: char, r: int)
    requires -1 <= r < |s|
    requires r >= 0 ==> s[r] == c
    requires forall j :: r < j < |s| ==> s[j] != c
    ensures LastIndex(s, c) == r
    decreases |s|
  {
    if |s| > 0 && r < |s| - 1 {
      LastIndexUnique(s[..|s| - 1], c, r);
    }
  }

  /** An empty extension means that every dot of the last component has only dots before it. */
  lemma SplitExtNoExtension(p: string)
    requires SplitExt(p).1 == ""
    ensures SplitExt(p).0 == p
    ensures var sep := LastIndex(p, '/');
            forall k, j :: sep < j < k < |p| && p[k] == '.' ==> p[j] == '.'
  {
    var sep := LastIndex(p, '/');
    var dot := LastIndex(p, '.');
    forall k, j | sep < j < k < |p| && p[k] == '.' ensures p[j] == '.' {
      assert k <= dot;
      assert !HasNonDot(p, sep + 1, dot);
    }
  }

  /**
   * The converse of `SplitExtShape`: a root whose last component is not made
   * of dots only, followed by a dot and characters that are neither dots nor
   * slashes, splits back into that root and that extension.
   */
  lemma SplitExtAppend(root: string, ext: string)
    requires |ext| >= 1 && ext[0] == '.'
    requires forall j :: 1 <= j < |ext| ==> ext[j] != '.' && ext[j] != '/'
    requires HasNonDot(root, LastIndex(root, '/') + 1, |root|)
    ensures SplitExt(root + ext) == (root, ext)
  {
    var p := root + ext;
    var sep := LastIndex(root, '/');
    ExtensionIndices(root, ext);
    var w :| sep + 1 <= w < |root| && root[w] != '.';
    assert p[w] == root[w];
    assert HasNonDot(p, sep + 1, |root|);
    assert p[..|root|] == root;
    assert p[|root|..] == ext;
  }

  /** Where the last dot and the last slash of a root followed by an extension are. */
  lemma ExtensionIndices(root: string, ext: string)
    requires |ext| >= 1 && ext[0] == '.'
    requires forall j :: 1 <= j < |ext| ==> ext[j] != '.' && ext[j] != '/'
    ensures LastIndex(root + ext, '.') == |root|
    ensures LastIndex(root + ext, '/') == LastIndex(root, '/')
  {
    ExtensionSlash(root, ext);
    var p := root + ext;
    forall j | |root| < j < |p| ensures p[j] != '.' {
      assert p[j] == ext[j - |root|];
    }
    LastIndexUnique(p, '.', |root|);
  }

  lemma ExtensionSlash(root: string, ext: string)
    requires |ext| >= 1 && ext[0] == '.'
    requires forall j :: 1 <= j < |ext| ==> ext[j] != '/'
    ensures LastIndex(root + ext, '/') == LastIndex(root, '/')
  {
    forall j | 0 <= j < |ext| ensures ext[j] != '/' {
      if j == 0 {
        assert ext[0] == '.';
      }
    }
    LastIndexAppend(root, ext, '/');
  }

  // ----- str() of an integer -----

  /** The decimal digits of `n`, without leading zeros. */
  function Decimal(n: nat): (r: string)
    decreases n
  {
    if n < 10 then [DigitChar(n)] else Decimal(n / 10) + [DigitChar(n % 10)]
  }

  function DigitChar(d: nat): (c: char)
    requires d < 10
    ensures IsDigit(c)
  {
    ('0' as int + d) as char
  }

  /** The number written by a string of decimal digits. */
  function DecimalValue(s: string): (v: nat)
    requires AllDigits(s)
    decreases |s|
  {
    if |s| == 0 then 0 else DecimalValue(s[..|s| - 1]) * 10 + (s[|s| - 1] as int - '0' as int)
  }

  /** `Decimal` writes a non-empty string of digits, with no leading zero, that reads back as `n`. */
  lemma {:induction false} DecimalRoundTrip(n: nat)
    ensures |Decimal(n)| > 0 && AllDigits(Decimal(n))
    ensures DecimalValue(Decimal(n)) == n
    ensures Decimal(n)[0] == '0' ==> n == 0
    decreases n
  {
    if n >= 10 {
      DecimalRoundTrip(n / 10);
      var s := Decimal(n);
      assert s[..|s| - 1] == Decimal(n / 10);
    }
  }

  /** `str(i)` for any integer. */
  function IntToString(i: int): string {
    if i < 0 then "-" + Decimal(-i) else Decimal(i)
  }
}
