/**
 * The file name that the `__main__` block of plugins/file_rename.py runs
 * both extractors on: it has no episode number, and its quality is
 * "Unknown".
 *
 * The name is long, so it is written as a concatenation of short pieces.
 * Two facts are checked piece by piece and carried across each join: every
 * character is harmless on its own (`CharsOk`), and so is every pair of
 * neighbours (`PairsOk`). Together they rule out each of the ten patterns.
 */
module ScriptExample {
  import opened Wrappers
  import opened Chars
  import opened Regex
  import Episode
  import Quality

  /** "I Got a Cheat Skill in Another World and Became Unrivale.mp4.mp4" */
  const ScriptName: string :=
    "I Got a " + ("Cheat " + ("Skill in " + ("Another " + ("World " + ("and " + ("Became " + ("Unrivale" + ".mp4.mp4")))))))

  /** No bracket, no dash, and no `2`. */
  predicate CharOk(c: char) {
    c != '(' && c != '[' && c != '{' && c != '<' && c != '-' && c != '2'
  }

  /**
   * No two digits running, no `S` (or the long s that folds onto it)
   * before a digit, no `4k` (with either `k` or the Kelvin sign), no `Hd`.
   */
  predicate PairOk(c: char, d: char) {
    && !(IsDigit(d) && (c == 'S' || c == 's' || c == '\U{17F}' || IsDigit(c)))
    && !(c == '4' && (d == 'k' || d == 'K' || d == '\U{212A}'))
    && !((c == 'H' || c == 'h') && (d == 'd' || d == 'D'))
  }

  predicate CharsOk(s: string) {
    forall k :: 0 <= k < |s| ==> CharOk(s[k])
  }

  predicate PairsOk(s: string) {
    forall k :: 0 <= k < |s| - 1 ==> PairOk(s[k], s[k + 1])
  }

  /** The two checks from position `k` on, one character at a time. */
  predicate Scanned(s: string, k: nat)
    decreases |s| - k
  {
    k >= |s| || (CharOk(s[k]) && (k + 1 < |s| ==> PairOk(s[k], s[k + 1])) && Scanned(s, k + 1))
  }

  lemma {:induction false} ScannedFrom(s: string, k: nat)
    requires Scanned(s, k)
    ensures forall j :: k <= j < |s| ==> CharOk(s[j]) && (j + 1 < |s| ==> PairOk(s[j], s[j + 1]))
    decreases |s| - k
  {
    if k < |s| {
      ScannedFrom(s, k + 1);
    }
  }

  lemma ScannedOk(s: string)
    requires Scanned(s, 0)
    ensures CharsOk(s) && PairsOk(s)
  {
    ScannedFrom(s, 0);
  }

  /** Both facts survive a join whose two sides meet in a harmless pair. */
  lemma Joined(a: string, b: string)
    requires |a| > 0 && |b| > 0
    requires CharsOk(a) && CharsOk(b) && PairsOk(a) && PairsOk(b)
    requires PairOk(a[|a| - 1], b[0])
    ensures CharsOk(a + b) && PairsOk(a + b)
  {
    var s := a + b;
    forall k | 0 <= k < |s| - 1 ensures PairOk(s[k], s[k + 1]) {
      if k + 1 < |a| {
        assert s[k] == a[k] && s[k + 1] == a[k + 1];
      } else if k + 1 == |a| {
        assert s[k] == a[|a| - 1] && s[k + 1] == b[0];
      } else {
        assert s[k] == b[k - |a|] && s[k + 1] == b[k - |a| + 1];
      }
    }
  }

  // Each piece of the name passes the scan.

  lemma OpeningPieces()
    ensures Scanned("I Got a ", 0) && Scanned("Cheat ", 0) && Scanned("Skill in ", 0)
  {
  }

  lemma MiddlePieces()
    ensures Scanned("Another ", 0) && Scanned("World ", 0) && Scanned("and ", 0)
  {
  }

  lemma ClosingPieces()
    ensures Scanned("Became ", 0) && Scanned("Unrivale", 0) && Scanned(".mp4.mp4", 0)
  {
  }

  /** The name passes both checks. */
  lemma ScriptNameOk()
    ensures CharsOk(ScriptName) && PairsOk(ScriptName)
  {
    OpeningPieces();
    MiddlePieces();
    ClosingPieces();
    ScannedOk("I Got a "); ScannedOk("Cheat "); ScannedOk("Skill in ");
    ScannedOk("Another "); ScannedOk("World "); ScannedOk("and ");
    ScannedOk("Became "); ScannedOk("Unrivale"); ScannedOk(".mp4.mp4");
    var t8 := "Unrivale" + ".mp4.mp4";
    Joined("Unrivale", ".mp4.mp4");
    var t7 := "Became " + t8;
    Joined("Became ", t8);
    var t6 := "and " + t7;
    Joined("and ", t7);
    var t5 := "World " + t6;
    Joined("World ", t6);
    var t4 := "Another " + t5;
    Joined("Another ", t5);
    var t3 := "Skill in " + t4;
    Joined("Skill in ", t4);
    var t2 := "Cheat " + t3;
    Joined("Cheat ", t3);
    Joined("I Got a ", t2);
  }

  // ----- The characters the patterns' letters match -----

  lemma NotS(c: char)
    requires c != 'S' && c != 's' && c != '\U{17F}'
    ensures !CharIs('S', c, true)
  {
  }

  lemma NotK(c: char)
    requires c != 'k' && c != 'K' && c != '\U{212A}'
    ensures !CharIs('k', c, true)
  {
  }

  lemma NotH(c: char)
    requires c != 'H' && c != 'h'
    ensures !CharIs('H', c, true)
  {
  }

  lemma NotD(c: char)
    requires c != 'd' && c != 'D'
    ensures !CharIs('d', c, true)
  {
  }

  /** A digit of a pattern matches only itself. */
  lemma NotDigitChar(p: char, c: char)
    requires IsDigit(p) && c != p
    ensures !CharIs(p, c, true)
  {
  }

  /** Without an `S` before a digit, a bracket or a dash, no pattern gives an episode. */
  lemma NoEpisode(s: string)
    requires CharsOk(s) && PairsOk(s)
    ensures Episode.ExtractEpisode(s).None?
  {
    forall k | 0 <= k < |s| ensures !Episode.SeasonAt(s, k) {
      if k + 1 < |s| && IsDigit(s[k + 1]) {
        assert PairOk(s[k], s[k + 1]);
        NotS(s[k]);
      }
    }
    Episode.NoSeason(Episode.Rule1, s);
    Episode.NoSeason(Episode.Rule2, s);
    Episode.NoSeason(Episode.Rule4, s);
    forall k | 0 <= k < |s| ensures s[k] !in "([{<" && s[k] != '-' {
      assert CharOk(s[k]);
    }
    Episode.NoBracket(s);
    Episode.NoDash(s);
    var r := Episode.EpisodeRules;
    assert r[0] == Episode.Rule1 && r[1] == Episode.Rule2 && r[2] == Episode.Rule3;
    assert r[3] == Episode.Rule3_2 && r[4] == Episode.Rule4;
    Episode.EpisodeByAllFail(s, r);
    Episode.SearchRulesByRules(s, r);
  }

  /** Without two digits in a row there is no resolution. */
  lemma NoResolution(s: string)
    requires CharsOk(s) && PairsOk(s)
    ensures Quality.FirstResolution(s).None?
  {
    forall k | 0 <= k <= |s| ensures Quality.ResolutionAt(s, k).None? {
      if k + 1 < |s| {
        if IsDigit(s[k]) {
          assert PairOk(s[k], s[k + 1]);
          RunIs(Digit, s, k, true, AtMost(4), 1);
        } else {
          RunIs(Digit, s, k, true, AtMost(4), 0);
        }
      }
    }
  }

  /** A word whose first two letters never stand side by side in `s` does not occur in it. */
  lemma NotOccurs(s: string, w: string)
    requires |w| >= 2
    requires forall k :: 0 <= k < |s| - 1 ==> !(CharIs(w[0], s[k], true) && CharIs(w[1], s[k + 1], true))
    ensures !Quality.Occurs(s, w)
  {
    forall p: nat | p <= |s| ensures !WordAt(s, p, w, true) {
      if p + |w| <= |s| {
        assert !(CharIs(w[0], s[p + 0], true) && CharIs(w[1], s[p + 1], true));
      }
    }
  }

  /** Without a resolution, `4k`, `2k` or `Hd`, the quality is "Unknown". */
  lemma UnknownQuality(s: string)
    requires CharsOk(s) && PairsOk(s)
    ensures Quality.ExtractQuality(s) == Some("Unknown")
  {
    NoResolution(s);
    forall k | 0 <= k < |s| - 1
      ensures !(CharIs('4', s[k], true) && CharIs('k', s[k + 1], true))
      ensures !(CharIs('2', s[k], true) && CharIs('k', s[k + 1], true))
      ensures !(CharIs('H', s[k], true) && CharIs('d', s[k + 1], true))
    {
      assert PairOk(s[k], s[k + 1]) && CharOk(s[k]);
      if s[k] == '4' { NotK(s[k + 1]); } else { NotDigitChar('4', s[k]); }
      NotDigitChar('2', s[k]);
      if s[k] == 'H' || s[k] == 'h' { NotD(s[k + 1]); } else { NotH(s[k]); }
    }
    NotOccurs(s, "4k");
    NotOccurs(s, "2k");
    NotOccurs(s, "HdRip");
    Quality.ExtractQualityIs(s);
  }

  /** The `__main__` name has no episode number and the quality "Unknown". */
  lemma ScriptNameExtracts()
    ensures Episode.ExtractEpisode(ScriptName).None?
    ensures Quality.ExtractQuality(ScriptName) == Some("Unknown")
  {
    ScriptNameOk();
    NoEpisode(ScriptName);
    UnknownQuality(ScriptName);
  }
}
