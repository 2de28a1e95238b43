/**
 * The IPv4 host matcher of the URI parser (`parse_ipv4address`, `parse_dec_octet`):
 * `IPv4address = dec-octet "." dec-octet "." dec-octet "." dec-octet`
 * (RFC 3986 section 3.2.2), matched longest-first without backtracking.
 */
module IPv4 {
  import opened Wrappers
  import opened Spans
  import opened Traits

  predicate AllDigits(t: seq<char>) { forall i :: 0 <= i < |t| ==> IsDigit(t[i]) }

  function DigitValue(c: char): nat
    requires IsDigit(c)
  {
    c as int - '0' as int
  }

  /** The number a run of decimal digits denotes. */
  function DecimalValue(t: seq<char>): nat
    requires AllDigits(t)
  {
    if t == [] then 0 else DecimalValue(t[..|t| - 1]) * 10 + DigitValue(t[|t| - 1])
  }

  /**
   * A decimal octet, defined by what it denotes: one to three digits without a
   * leading zero, whose value is at most 255.
   */
  predicate IsDecOctet(t: seq<char>)
  {
    1 <= |t| <= 3 && AllDigits(t) && (t[0] == '0' ==> |t| == 1) && DecimalValue(t) <= 255
  }

  lemma DecimalValueOfOne(t: seq<char>)
    requires |t| == 1 && AllDigits(t)
    ensures DecimalValue(t) == DigitValue(t[0])
  {
    assert t[..0] == [];
  }

  lemma DecimalValueOfTwo(t: seq<char>)
    requires |t| == 2 && AllDigits(t)
    ensures DecimalValue(t) == 10 * DigitValue(t[0]) + DigitValue(t[1])
  {
    DecimalValueOfOne(t[..1]);
  }

  lemma DecimalValueOfThree(t: seq<char>)
    requires |t| == 3 && AllDigits(t)
    ensures DecimalValue(t) == 100 * DigitValue(t[0]) + 10 * DigitValue(t[1]) + DigitValue(t[2])
  {
    DecimalValueOfTwo(t[..2]);
  }

  /** A dec-octet of `k` characters stands at `p` in `s`. */
  predicate DecOctetAt(s: seq<char>, p: nat, k: nat)
  {
    p + k <= |s| && IsDecOctet(s[p..p + k])
  }

  /** Whether `s` has a digit at `p`. */
  predicate DigitAt(s: seq<char>, p: nat) { p < |s| && IsDigit(s[p]) }

  /**
   * `parse_dec_octet`: the length of the longest dec-octet at `p` (0 when none).
   * A leading 0 stands alone; a leading 1 takes up to two more digits; after a
   * leading 2 the second digit decides (0-4: any third digit, 5: a third digit
   * 0-5, 6-9: no third digit); a leading 3-9 takes at most one more digit.
   */
  function ParseDecOctet(s: seq<char>, p: nat): (n: nat)
    requires p <= |s|
    ensures n <= 3 && p + n <= |s|
    ensures n == 0 <==> !DigitAt(s, p)
  {
    if !DigitAt(s, p) then 0
    else if s[p] == '0' then 1
    else if s[p] == '1' then
      (if DigitAt(s, p + 1) then (if DigitAt(s, p + 2) then 3 else 2) else 1)
    else if s[p] == '2' then
      (if p + 1 < |s| && '0' <= s[p + 1] <= '4' then (if DigitAt(s, p + 2) then 3 else 2)
       else if p + 1 < |s| && s[p + 1] == '5' then (if p + 2 < |s| && '0' <= s[p + 2] <= '5' then 3 else 2)
       else if DigitAt(s, p + 1) then 2
       else 1)
    else (if DigitAt(s, p + 1) then 2 else 1)
  }

  /** `ParseDecOctet` is the longest match: what it takes is a dec-octet, and no longer prefix is. */
  lemma ParseDecOctetSpec(s: seq<char>, p: nat)
    requires p <= |s|
    ensures var n := ParseDecOctet(s, p);
      && (n > 0 ==> DecOctetAt(s, p, n))
      && forall k :: n < k <= 3 ==> !DecOctetAt(s, p, k)
  {
    var n := ParseDecOctet(s, p);
    if n > 0 {
      var t := s[p..p + n];
      if n == 1 { DecimalValueOfOne(t); }
      if n == 2 { DecimalValueOfTwo(t); }
      if n == 3 { DecimalValueOfThree(t); }
    }
    forall k | n < k <= 3 && p + k <= |s|
      ensures !DecOctetAt(s, p, k)
    {
      var u := s[p..p + k];
      assert u[0] == s[p];
      if AllDigits(u) {
        assert k >= 2 ==> u[1] == s[p + 1];
        assert k == 3 ==> u[2] == s[p + 2];
        if k == 1 { DecimalValueOfOne(u); }
        if k == 2 { DecimalValueOfTwo(u); }
        if k == 3 { DecimalValueOfThree(u); }
      }
    }
  }

  /** `ParseDecOctet` takes digits only. */
  lemma DecOctetDigits(s: seq<char>, p: nat)
    requires p <= |s|
    ensures forall i :: p <= i < p + ParseDecOctet(s, p) ==> DigitAt(s, i)
  {
  }

  /**
   * A dec-octet in the text, followed by a non-digit or the end, is matched exactly:
   * the longest-match policy never runs past or stops short of it.
   */
  lemma {:induction false} DecOctetExact(s: seq<char>, p: nat, o: seq<char>)
    requires IsDecOctet(o) && At(s, p, o)
    requires !DigitAt(s, p + |o|)
    ensures ParseDecOctet(s, p) == |o|
  {
    ParseDecOctetSpec(s, p);
    AtSlice(s, p, o);
    assert DecOctetAt(s, p, |o|);
  }

  /** "dec-octet" then (k - 1) times "." dec-octet; the consumed count, or None. */
  function ParseDotted(s: seq<char>, p: nat, k: nat): (r: Option<nat>)
    requires p <= |s| && k >= 1
    ensures r.Some? ==> 0 < r.value && p + r.value <= |s|
    decreases k, |s| - p
  {
    var a := ParseDecOctet(s, p);
    if a == 0 then None
    else if k == 1 then Some(a)
    else if p + a < |s| && s[p + a] == '.' then
      match ParseDotted(s, p + a + 1, k - 1)
      case Some(m) => Some(a + 1 + m)
      case None => None
    else None
  }

  /** `parse_ipv4address`: the length of the IPv4 address at `p`, 0 if there is none. */
  function ParseIPv4Address(s: seq<char>, p: nat): (n: nat)
    requires p <= |s|
    ensures p + n <= |s|
  {
    match ParseDotted(s, p, 4)
    case Some(m) => m
    case None => 0
  }

  predicate AllDecOctets(os: seq<seq<char>>) { forall i :: 0 <= i < |os| ==> IsDecOctet(os[i]) }

  /** The independent definition of the dotted-quad text (RFC 3986 section 3.2.2). */
  ghost predicate IsIPv4Text(t: seq<char>)
  {
    exists os :: |os| == 4 && AllDecOctets(os) && Join(os, '.') == t
  }

  /** The octets `ParseDotted` recognised. */
  ghost function DottedOctets(s: seq<char>, p: nat, k: nat): seq<seq<char>>
    requires p <= |s| && k >= 1 && ParseDotted(s, p, k).Some?
    decreases k
  {
    var a := ParseDecOctet(s, p);
    if k == 1 then [s[p..p + a]] else [s[p..p + a]] + DottedOctets(s, p + a + 1, k - 1)
  }

  lemma {:induction false} DottedSound(s: seq<char>, p: nat, k: nat)
    requires p <= |s| && k >= 1 && ParseDotted(s, p, k).Some?
    ensures var os := DottedOctets(s, p, k);
      && |os| == k && AllDecOctets(os)
      && |Join(os, '.')| == ParseDotted(s, p, k).value && JoinedAt(s, p, os, '.')
    decreases k
  {
    var a := ParseDecOctet(s, p);
    var o := s[p..p + a];
    ParseDecOctetSpec(s, p);
    AtSlice(s, p, o);
    if k > 1 {
      DottedSound(s, p + a + 1, k - 1);
      var rest := DottedOctets(s, p + a + 1, k - 1);
      var os := DottedOctets(s, p, k);
      assert os[0] == o && os[1..] == rest;
      assert Join(os, '.') == o + ['.'] + Join(rest, '.');
    }
  }

  /** Soundness: whatever `parse_ipv4address` accepts is a dotted quad of dec-octets. */
  lemma IPv4Sound(s: seq<char>, p: nat)
    requires p <= |s| && ParseIPv4Address(s, p) > 0
    ensures IsIPv4Text(s[p..p + ParseIPv4Address(s, p)])
  {
    DottedSound(s, p, 4);
    JoinedAtTo(s, p, DottedOctets(s, p, 4), '.');
    AtSlice(s, p, Join(DottedOctets(s, p, 4), '.'));
  }

  lemma {:induction false} DottedComplete(s: seq<char>, p: nat, os: seq<seq<char>>)
    requires |os| >= 1 && AllDecOctets(os) && JoinedAt(s, p, os, '.')
    requires !DigitAt(s, p + |Join(os, '.')|)
    ensures ParseDotted(s, p, |os|) == Some(|Join(os, '.')|)
    decreases |os|
  {
    assert IsDecOctet(os[0]);
    DecOctetExact(s, p, os[0]);
    if |os| >= 2 {
      assert AllDecOctets(os[1..]) by {
        forall i | 0 <= i < |os[1..]| ensures IsDecOctet(os[1..][i]) {
          assert os[1..][i] == os[i + 1];
        }
      }
      DottedComplete(s, p + |os[0]| + 1, os[1..]);
    }
  }

  /**
   * Completeness: a dotted quad of dec-octets that is not followed by a further digit
   * is matched exactly.
   */
  lemma IPv4Complete(s: seq<char>, p: nat, os: seq<seq<char>>)
    requires |os| == 4 && AllDecOctets(os) && At(s, p, Join(os, '.'))
    requires !DigitAt(s, p + |Join(os, '.')|)
    ensures ParseIPv4Address(s, p) == |Join(os, '.')|
  {
    JoinedAtOf(s, p, os, '.');
    DottedComplete(s, p, os);
  }

  /** `256.0.0.0` is not an IPv4 address: the first octet stops at `25`. */
  lemma OctetOverflowRejected()
    ensures ParseDecOctet("256.0.0.0", 0) == 2
    ensures ParseIPv4Address("256.0.0.0", 0) == 0
  {
  }

  // Findings: the octet rule that stops after a leading `2` when 6-9 follows.

  /**
   * The dec-octet rule as described for `parse_dec_octet`: after a leading `2`,
   * a second digit 6-9 ends the match after the `2`.
   */
  function ParseDecOctetAsWritten(s: seq<char>, p: nat): (n: nat)
    requires p <= |s|
    ensures n <= 3 && p + n <= |s|
    ensures n == 0 <==> !DigitAt(s, p)
  {
    if !DigitAt(s, p) then 0
    else if s[p] == '0' then 1
    else if s[p] == '1' then
      (if DigitAt(s, p + 1) then (if DigitAt(s, p + 2) then 3 else 2) else 1)
    else if s[p] == '2' then
      (if p + 1 < |s| && '0' <= s[p + 1] <= '4' then (if DigitAt(s, p + 2) then 3 else 2)
       else if p + 1 < |s| && s[p + 1] == '5' then (if p + 2 < |s| && '0' <= s[p + 2] <= '5' then 3 else 2)
       else 1)
    else (if DigitAt(s, p + 1) then 2 else 1)
  }

  /**
   * That rule is not the longest match: on `26` it stops after `2` although
   * `26` is a dec-octet, so a host such as `26.0.0.1` is refused; the corrected
   * `ParseDecOctet` takes both digits.
   */
  lemma DecOctetAsWrittenMissesTwentySix()
    ensures IsDecOctet("26")
    ensures ParseDecOctetAsWritten("26.0.0.1", 0) == 1
    ensures ParseDecOctet("26.0.0.1", 0) == 2
  {
    DecimalValueOfTwo("26");
  }
}
