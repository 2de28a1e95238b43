/**
 * The `char` specialisation of the character traits shared by both parsers: ASCII
 * classification, hex-nibble conversion and the named punctuation constants of
 * RFC 3986 (sections 2.2 and 2.3) and of HTML form encoding.
 */
module Traits {

  // Named single-character constants.
  const AlphaSpace: char := ' '
  const AlphaExclamation: char := '!'
  const AlphaNumberSign: char := '#'
  const AlphaDollar: char := '$'
  const AlphaPercent: char := '%'
  const AlphaAmpersand: char := '&'
  const AlphaApostrophe: char := '\''
  const AlphaParensOpen: char := '('
  const AlphaParensClose: char := ')'
  const AlphaAsterisk: char := '*'
  const AlphaPlus: char := '+'
  const AlphaComma: char := ','
  const AlphaMinus: char := '-'
  const AlphaDot: char := '.'
  const AlphaSlash: char := '/'
  const Alpha0: char := '0'
  const AlphaColon: char := ':'
  const AlphaSemicolon: char := ';'
  const AlphaEqual: char := '='
  const AlphaQuestionMark: char := '?'
  const AlphaAt: char := '@'
  const AlphaUpperA: char := 'A'
  const AlphaLowerA: char := 'a'
  const AlphaBracketOpen: char := '['
  const AlphaBracketClose: char := ']'
  const AlphaUnderscore: char := '_'
  const AlphaTilde: char := '~'

  /** The sub-delims of RFC 3986 section 2.2, assembled from the named constants. */
  const SubDelims: set<char> := {
    AlphaExclamation, AlphaDollar, AlphaAmpersand, AlphaApostrophe, AlphaParensOpen,
    AlphaParensClose, AlphaAsterisk, AlphaPlus, AlphaComma, AlphaSemicolon, AlphaEqual
  }

  /** The punctuation among the unreserved characters of RFC 3986 section 2.3. */
  const UnreservedPunctuation: set<char> := {AlphaMinus, AlphaDot, AlphaUnderscore, AlphaTilde}

  predicate IsDigit(c: char) { '0' <= c <= '9' }

  predicate IsAlpha(c: char) { 'A' <= c <= 'Z' || 'a' <= c <= 'z' }

  predicate IsHexUpper(c: char) { 'A' <= c <= 'F' }

  predicate IsHexLower(c: char) { 'a' <= c <= 'f' }

  predicate IsHexDigit(c: char) { IsDigit(c) || IsHexUpper(c) || IsHexLower(c) }

  /** unreserved = ALPHA / DIGIT / "-" / "." / "_" / "~" (RFC 3986 section 2.3). */
  predicate IsUnreserved(c: char) { IsAlpha(c) || IsDigit(c) || c in UnreservedPunctuation }

  predicate IsSubDelim(c: char) { c in SubDelims }

  /**
   * The nibble a hex digit stands for. The conversion is total: a character that is not
   * a hex digit yields 0.
   */
  function HexToInt(c: char): (n: int)
    ensures 0 <= n < 16
    ensures IsDigit(c) ==> n == c as int - '0' as int
    ensures IsHexUpper(c) ==> n == c as int - 'A' as int + 10
    ensures IsHexLower(c) ==> n == c as int - 'a' as int + 10
    ensures IsHexDigit(c) && n < 10 ==> IsDigit(c)
  {
    if IsDigit(c) then c as int - Alpha0 as int
    else if IsHexUpper(c) then c as int - AlphaUpperA as int + 10
    else if IsHexLower(c) then c as int - AlphaLowerA as int + 10
    else 0
  }

  /** The upper-case hex digit of a nibble, the inverse of `HexToInt`. */
  function HexDigitUpper(n: nat): (c: char)
    requires n < 16
    ensures IsHexDigit(c) && !IsHexLower(c)
  {
    if n < 10 then (Alpha0 as int + n) as char else (AlphaUpperA as int + n - 10) as char
  }

  /** Converting a nibble to its digit and back gives the nibble. */
  lemma HexDigitUpperRoundTrip(n: nat)
    requires n < 16
    ensures HexToInt(HexDigitUpper(n)) == n
  {
  }

  /** Converting an upper-case or decimal hex digit to its nibble and back gives the digit. */
  lemma HexToIntRoundTrip(c: char)
    requires IsDigit(c) || IsHexUpper(c)
    ensures HexDigitUpper(HexToInt(c)) == c
  {
  }

  /** Upper- and lower-case spellings of a hex letter denote the same nibble. */
  lemma HexCaseInsensitive(c: char)
    requires IsHexUpper(c)
    ensures HexToInt((c as int + 32) as char) == HexToInt(c)
  {
  }

  /** is_hexdigit holds exactly for the decimal digits and the letters A-F and a-f. */
  lemma HexDigitExactly(c: char)
    ensures IsHexDigit(c) <==> ('0' <= c <= '9' || 'A' <= c <= 'F' || 'a' <= c <= 'f')
  {
  }

  /** The named constants carry their literal ASCII code points. */
  lemma ConstantCodePoints()
    ensures AlphaPercent as int == 0x25 && AlphaAmpersand as int == 0x26
    ensures AlphaPlus as int == 0x2B && AlphaColon as int == 0x3A
    ensures AlphaEqual as int == 0x3D && AlphaQuestionMark as int == 0x3F
    ensures AlphaAt as int == 0x40 && AlphaBracketOpen as int == 0x5B
    ensures AlphaBracketClose as int == 0x5D && AlphaSlash as int == 0x2F
    ensures AlphaNumberSign as int == 0x23 && AlphaSpace as int == 0x20
  {
  }

  /** The sub-delims and the unreserved characters of RFC 3986 are disjoint. */
  lemma SubDelimsNotUnreserved(c: char)
    requires IsSubDelim(c)
    ensures !IsUnreserved(c) && !IsHexDigit(c)
  {
  }

  /** The sub-delims constants are eleven distinct characters. */
  lemma SubDelimsAreEleven()
    ensures |SubDelims| == 11
  {
    assert SubDelims == {'!', '$', '&', '\''} + {'(', ')', '*', '+'} + {',', ';', '='} by {
      assert SubDelims == {'!', '$', '&', '\'', '(', ')', '*', '+', ',', ';', '='};
    }
    assert |{'!', '$', '&', '\''} + {'(', ')', '*', '+'}| == 8 by {
      CharsDisjointUnion({'!', '$', '&', '\''}, {'(', ')', '*', '+'});
    }
    CharsDisjointUnion({'!', '$', '&', '\''} + {'(', ')', '*', '+'}, {',', ';', '='});
  }

  /** Cardinality of a union of disjoint character sets (a helper for the counting lemmas). */
  lemma CharsDisjointUnion(a: set<char>, b: set<char>)
    requires a !! b
    ensures |a + b| == |a| + |b|
  {
  }

  /** The unreserved punctuation is four distinct characters. */
  lemma UnreservedPunctuationIsFour()
    ensures |UnreservedPunctuation| == 4
  {
    assert UnreservedPunctuation == {'-', '.', '_', '~'};
    var s: set<char> := {};
    s := s + {'-'}; assert |s| == 1;
    s := s + {'.'}; assert |s| == 2;
    s := s + {'_'}; assert |s| == 3;
    s := s + {'~'}; assert |s| == 4;
    assert s == {'-', '.', '_', '~'};
  }
}
