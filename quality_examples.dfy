/**
 * `extract_quality` on two concrete filenames: a plain resolution, and a
 * "resolution" that pattern 5's group 1 stretches over a year, a word and
 * part of the extension, up to the first `p`.
 */
module QualityExamples {
  import opened Wrappers
  import opened Chars
  import opened Regex
  import opened Quality

  /** No resolution starts at a character that is not a digit. */
  lemma NoResolutionAt(s: string, k: nat)
    requires k < |s| && !IsDigit(s[k])
    ensures ResolutionAt(s, k).None?
  {
    RunIs(Digit, s, k, true, AtMost(4), 0);
  }

  lemma PlainResolution(s: string)
    requires s == "Movie.1080p.mkv"
    ensures ResolutionAt(s, 6) == Some(11)
  {
    RunIs(Digit, s, 6, true, AtMost(4), 4);
    RunIs(NotDigitNorP, s, 10, true, Unbounded, 0);
  }

  lemma PlainFirst(s: string)
    requires s == "Movie.1080p.mkv"
    ensures FirstResolution(s) == Some((6, 11))
  {
    forall k | 0 <= k < 6 ensures ResolutionAt(s, k).None? {
      NoResolutionAt(s, k);
    }
    PlainResolution(s);
    NextResolutionIs(s, 0, 6);
  }

  /** "Movie.1080p.mkv" has the quality "1080p". */
  lemma PlainQuality(s: string)
    requires s == "Movie.1080p.mkv"
    ensures ExtractQuality(s) == Some("1080p")
  {
    PlainFirst(s);
    assert s[6..11] == "1080p";
    ResolutionQuality(s, 6, 11, "1080p");
  }

  lemma StretchedResolution(s: string)
    requires s == "Movie 2015 Hindi.mp4"
    ensures ResolutionAt(s, 6) == Some(19)
  {
    RunIs(Digit, s, 6, true, AtMost(4), 4);
    RunIs(NotDigitNorP, s, 10, true, Unbounded, 8);
  }

  lemma StretchedFirst(s: string)
    requires s == "Movie 2015 Hindi.mp4"
    ensures FirstResolution(s) == Some((6, 19))
  {
    forall k | 0 <= k < 6 ensures ResolutionAt(s, k).None? {
      NoResolutionAt(s, k);
    }
    StretchedResolution(s);
    NextResolutionIs(s, 0, 6);
  }

  /** In "Movie 2015 Hindi.mp4" the year starts the match, which runs to the `p` of ".mp4". */
  lemma StretchedQuality(s: string)
    requires s == "Movie 2015 Hindi.mp4"
    ensures ExtractQuality(s) == Some("2015 Hindi.mp")
  {
    StretchedFirst(s);
    assert s[6..19] == "2015 Hindi.mp";
    ResolutionQuality(s, 6, 19, "2015 Hindi.mp");
  }
}
