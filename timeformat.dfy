/**
 * The duration formatters of helper/utils.py: `TimeFormatter`, which spells
 * a number of milliseconds as "1d, 2h, 3m, 4s, 5ms" leaving out zero parts,
 * and `convert`, which writes a number of seconds as a clock time "H:MM:SS"
 * within one day.
 *
 * Python's `divmod` and `%` round towards minus infinity; for the positive
 * divisors used here that is exactly Dafny's `/` and `%`.
 */
module TimeFormat {
  import opened Chars
  import opened Text

  /** The parts `TimeFormatter` splits a number of milliseconds into. */
  datatype Parts = Parts(days: int, hours: int, minutes: int, seconds: int, millis: int)

  /** The chain of `divmod`s: milliseconds, then seconds, minutes, hours and days. */
  function Split(milliseconds: int): (p: Parts)
    ensures p.days * 86400000 + p.hours * 3600000 + p.minutes * 60000 + p.seconds * 1000 + p.millis == milliseconds
    ensures 0 <= p.hours < 24 && 0 <= p.minutes < 60 && 0 <= p.seconds < 60 && 0 <= p.millis < 1000
    ensures milliseconds >= 0 ==> p.days >= 0
  {
    var seconds, millis := milliseconds / 1000, milliseconds % 1000;
    var minutes, secs := seconds / 60, seconds % 60;
    var hours, mins := minutes / 60, minutes % 60;
    var days, hrs := hours / 24, hours % 24;
    assert minutes * 60000 == hours * 3600000 + mins * 60000;
    assert hours * 3600000 == days * 86400000 + hrs * 3600000;
    Parts(days, hrs, mins, secs, millis)
  }

  /** One part followed by ", ", or nothing when the part is zero. */
  function Piece(v: int, unit: string): string {
    if v != 0 then IntToString(v) + unit + ", " else ""
  }

  /** `TimeFormatter(milliseconds)`: the non-zero parts, each ended by ", ", with the last ", " cut off. */
  function TimeFormatter(milliseconds: int): string {
    var p := Split(milliseconds);
    var tmp := Piece(p.days, "d") + Piece(p.hours, "h") + Piece(p.minutes, "m")
               + Piece(p.seconds, "s") + Piece(p.millis, "ms");
    DropLastTwo(tmp)
  }

  /** `t[:-2]`: Python's slice gives the empty string when `t` is shorter than two. */
  function DropLastTwo(t: string): string {
    if |t| >= 2 then t[..|t| - 2] else ""
  }

  // ----- A second description: the labelled non-zero parts joined by ", " -----

  /** A part written with its unit, as a one-element list, or no element when it is zero. */
  function Label(v: int, unit: string): seq<string> {
    if v != 0 then [IntToString(v) + unit] else []
  }

  /** The labelled non-zero parts, largest unit first. */
  function Labels(milliseconds: int): seq<string> {
    var p := Split(milliseconds);
    Label(p.days, "d") + Label(p.hours, "h") + Label(p.minutes, "m") + Label(p.seconds, "s") + Label(p.millis, "ms")
  }

  /** `sep.join(parts)`. */
  function Join(parts: seq<string>, sep: string): string
    decreases |parts|
  {
    if |parts| == 0 then "" else if |parts| == 1 then parts[0] else parts[0] + sep + Join(parts[1..], sep)
  }

  /** Every element followed by `sep`, all run together. */
  function Terminated(parts: seq<string>, sep: string): string
    decreases |parts|
  {
    if |parts| == 0 then "" else parts[0] + sep + Terminated(parts[1..], sep)
  }

  lemma {:induction false} TerminatedAppend(a: seq<string>, b: seq<string>, sep: string)
    ensures Terminated(a + b, sep) == Terminated(a, sep) + Terminated(b, sep)
    decreases |a|
  {
    if |a| > 0 {
      assert (a + b)[0] == a[0];
      assert (a + b)[1..] == a[1..] + b;
      TerminatedAppend(a[1..], b, sep);
    } else {
      assert a + b == b;
    }
  }

  lemma {:induction false} TerminatedIsJoin(parts: seq<string>, sep: string)
    requires |parts| > 0
    ensures Terminated(parts, sep) == Join(parts, sep) + sep
    decreases |parts|
  {
    if |parts| > 1 {
      TerminatedIsJoin(parts[1..], sep);
    }
  }

  lemma PieceIsLabel(v: int, unit: string)
    ensures Piece(v, unit) == Terminated(Label(v, unit), ", ")
  {
    if v != 0 {
      assert Terminated([IntToString(v) + unit], ", ") == IntToString(v) + unit + ", " + Terminated([], ", ");
    }
  }

  /**
   * `TimeFormatter` lists exactly the non-zero parts, in the order days,
   * hours, minutes, seconds, milliseconds, each with its unit, separated by
   * ", ".
   */
  lemma TimeFormatterJoins(milliseconds: int)
    ensures TimeFormatter(milliseconds) == Join(Labels(milliseconds), ", ")
  {
    var p := Split(milliseconds);
    var a, b, c, d, e := Label(p.days, "d"), Label(p.hours, "h"), Label(p.minutes, "m"), Label(p.seconds, "s"), Label(p.millis, "ms");
    PieceIsLabel(p.days, "d");
    PieceIsLabel(p.hours, "h");
    PieceIsLabel(p.minutes, "m");
    PieceIsLabel(p.seconds, "s");
    PieceIsLabel(p.millis, "ms");
    TerminatedAppend(a, b, ", ");
    TerminatedAppend(a + b, c, ", ");
    TerminatedAppend(a + b + c, d, ", ");
    TerminatedAppend(a + b + c + d, e, ", ");
    var all := a + b + c + d + e;
    assert Labels(milliseconds) == all;
    if |all| > 0 {
      TerminatedIsJoin(all, ", ");
      var t := Terminated(all, ", ");
      assert t[..|t| - 2] == Join(all, ", ");
    }
  }

  /** A joined list of labels is empty exactly when the list is. */
  lemma {:induction false} JoinEmpty(parts: seq<string>, sep: string)
    requires forall k :: 0 <= k < |parts| ==> parts[k] != ""
    ensures Join(parts, sep) == "" <==> |parts| == 0
    decreases |parts|
  {
    if |parts| > 1 {
      assert |Join(parts, sep)| >= |parts[0]|;
    }
  }

  /** The last character of a join of non-empty parts is the last character of the last part. */
  lemma {:induction false} JoinLast(parts: seq<string>, sep: string)
    requires |parts| > 0 && parts[|parts| - 1] != ""
    ensures var j := Join(parts, sep); |j| > 0 && j[|j| - 1] == parts[|parts| - 1][|parts[|parts| - 1]| - 1]
    decreases |parts|
  {
    if |parts| > 1 {
      JoinLast(parts[1..], sep);
    }
  }

  /** `TimeFormatter` gives the empty string exactly for zero milliseconds. */
  lemma TimeFormatterEmpty(milliseconds: int)
    ensures TimeFormatter(milliseconds) == "" <==> milliseconds == 0
  {
    TimeFormatterJoins(milliseconds);
    var ls := Labels(milliseconds);
    forall k | 0 <= k < |ls| ensures ls[k] != "" {
      LabelsShape(milliseconds, k);
    }
    JoinEmpty(ls, ", ");
  }

  /** Every label is a number followed by a unit that ends in a letter. */
  lemma LabelsShape(milliseconds: int, k: nat)
    requires k < |Labels(milliseconds)|
    ensures var l := Labels(milliseconds)[k]; |l| >= 2 && l[|l| - 1] in "dhms"
  {
    var p := Split(milliseconds);
    LabelShape(p.days, "d");
    LabelShape(p.hours, "h");
    LabelShape(p.minutes, "m");
    LabelShape(p.seconds, "s");
    LabelShape(p.millis, "ms");
    assert Labels(milliseconds)[k] in Labels(milliseconds);
  }

  lemma LabelShape(v: int, unit: string)
    requires unit == "d" || unit == "h" || unit == "m" || unit == "s" || unit == "ms"
    ensures forall l :: l in Label(v, unit) ==> |l| >= 2 && l[|l| - 1] in "dhms"
  {
    if v != 0 {
      DecimalRoundTrip(if v < 0 then -v else v);
      var l := IntToString(v) + unit;
      assert l[|l| - 1] == unit[|unit| - 1];
    }
  }

  /** A non-empty result never ends with the separator: it ends with a unit letter. */
  lemma TimeFormatterEnd(milliseconds: int)
    requires milliseconds != 0
    ensures var r := TimeFormatter(milliseconds); |r| > 0 && r[|r| - 1] in "dhms"
  {
    TimeFormatterJoins(milliseconds);
    TimeFormatterEmpty(milliseconds);
    assert Labels(milliseconds) != [];
    JoinedLabelsEnd(milliseconds);
  }

  lemma JoinedLabelsEnd(milliseconds: int)
    requires |Labels(milliseconds)| > 0
    ensures var j := Join(Labels(milliseconds), ", "); |j| > 0 && j[|j| - 1] in "dhms"
  {
    var ls := Labels(milliseconds);
    LabelsShape(milliseconds, |ls| - 1);
    JoinLast(ls, ", ");
  }

  // ----- convert -----

  /** `"%02d" % v` for a non-negative `v`: at least two digits, zero-padded. */
  function Pad2(v: nat): string {
    if v < 10 then "0" + Decimal(v) else Decimal(v)
  }

  /** `convert(seconds)`: the time of day, as hours, then minutes and seconds of two digits each. */
  function Convert(seconds: int): string {
    var t := seconds % (24 * 3600);
    var hour := t / 3600;
    var rest := t % 3600;
    var minutes := rest / 60;
    var secs := rest % 60;
    IntToString(hour) + ":" + Pad2(minutes) + ":" + Pad2(secs)
  }

  lemma Pad2Reads(v: nat)
    requires v < 100
    ensures |Pad2(v)| == 2 && AllDigits(Pad2(v)) && DecimalValue(Pad2(v)) == v
  {
    DecimalRoundTrip(v);
    if v < 10 {
      var s := Pad2(v);
      assert s[..1] == "0";
      assert DecimalValue("0") == 0 by { assert "0"[..0] == ""; }
    } else {
      DecimalLength(v);
    }
  }

  lemma DecimalLength(v: nat)
    requires v < 100
    ensures |Decimal(v)| == if v < 10 then 1 else 2
  {
  }

  /**
   * `convert` writes `H:MM:SS`: one or two digits of hours below 24, then
   * two digits each of minutes and seconds below 60, which together read
   * back as the seconds within the day.
   */
  lemma ConvertReadsBack(seconds: int)
    ensures var r := Convert(seconds);
            var n := |r|;
            && (n == 7 || n == 8) && r[n - 6] == ':' && r[n - 3] == ':'
            && AllDigits(r[..n - 6]) && AllDigits(r[n - 5..n - 3]) && AllDigits(r[n - 2..])
            && DecimalValue(r[..n - 6]) < 24 && DecimalValue(r[n - 5..n - 3]) < 60 && DecimalValue(r[n - 2..]) < 60
            && DecimalValue(r[..n - 6]) * 3600 + DecimalValue(r[n - 5..n - 3]) * 60 + DecimalValue(r[n - 2..])
               == seconds % 86400
  {
    var t := seconds % (24 * 3600);
    var hour, minutes, secs := t / 3600, t % 3600 / 60, t % 3600 % 60;
    var h, mm, ss := Decimal(hour), Pad2(minutes), Pad2(secs);
    DecimalRoundTrip(hour);
    DecimalLength(hour);
    Pad2Reads(minutes);
    Pad2Reads(secs);
    assert Convert(seconds) == h + ":" + mm + ":" + ss;
    ClockSlices(h, mm, ss);
  }

  /** Where the three fields of `H:MM:SS` sit, counted from the end. */
  lemma ClockSlices(h: string, mm: string, ss: string)
    requires |mm| == 2 && |ss| == 2
    ensures var r := h + ":" + mm + ":" + ss;
            var n := |r|;
            && n == |h| + 6 && r[n - 6] == ':' && r[n - 3] == ':'
            && r[..n - 6] == h && r[n - 5..n - 3] == mm && r[n - 2..] == ss
  {
    var r := h + ":" + mm + ":" + ss;
    var n := |r|;
    assert r[..|h|] == h;
    assert r[|h| + 1..|h| + 3] == mm;
    assert r[|h| + 4..] == ss;
  }

  /** `convert` only looks at the time of day. */
  lemma ConvertDaily(seconds: int, days: int)
    ensures Convert(seconds + days * 86400) == Convert(seconds)
  {
    assert (seconds + days * 86400) % 86400 == seconds % 86400;
  }
}
