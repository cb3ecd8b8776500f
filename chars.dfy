/**
 * Character classes of Python's `re` module as the rename plugin's patterns
 * use them (`\d`, `\s`, `\w`, and letters under `re.IGNORECASE`).
 */
module Chars {

  /** `\d`: a decimal digit (the ASCII digits; see README for other scripts). */
  predicate IsDigit(c: char) {
    '0' <= c <= '9'
  }

  /** `\s`: exactly the characters for which Python's `str.isspace` holds. */
  predicate IsSpace(c: char) {
    || '\t' <= c <= '\r'
    || '\U{1C}' <= c <= '\U{1F}'
    || c == ' '
    || c == '\U{85}'
    || c == '\U{A0}'
    || c == '\U{1680}'
    || '\U{2000}' <= c <= '\U{200A}'
    || c == '\U{2028}'
    || c == '\U{2029}'
    || c == '\U{202F}'
    || c == '\U{205F}'
    || c == '\U{3000}'
  }

  /** `\w`: a letter, a digit or the underscore (ASCII letters; see README). */
  predicate IsWordChar(c: char) {
    IsDigit(c) || 'a' <= c <= 'z' || 'A' <= c <= 'Z' || c == '_'
  }

  /** The code of `c` after lower-casing the ASCII capitals. */
  function Folded(c: char): (r: int)
    ensures 'A' <= c <= 'Z' ==> 'a' as int <= r <= 'z' as int
    ensures !('A' <= c <= 'Z') ==> r == c as int
  {
    if 'A' <= c <= 'Z' then c as int + 32 else c as int
  }

  /**
   * Whether the ASCII pattern character `p` matches the subject character `c`
   * under `re.IGNORECASE`: both have the same lower case, where Python also
   * lower-cases KELVIN SIGN to `k` and LATIN CAPITAL I WITH DOT ABOVE to `i`,
   * and treats DOTLESS I as `i` and LONG S as `s`.
   */
  predicate MatchesIgnoringCase(p: char, c: char) {
    var l := Folded(p);
    || Folded(c) == l
    || (l == 'k' as int && c == '\U{212A}')
    || (l == 'i' as int && (c == '\U{130}' || c == '\U{131}'))
    || (l == 's' as int && c == '\U{17F}')
  }

  /** Python's `str.isdigit` on a whole string, restricted to `IsDigit`. */
  predicate AllDigits(s: string) {
    forall k :: 0 <= k < |s| ==> IsDigit(s[k])
  }
}
