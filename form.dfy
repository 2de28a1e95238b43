/**
 * The form view: an iterator over an `application/x-www-form-urlencoded` list
 * `key=value&key=value...` (HTML 4.01 section 17.13.4), holding slices of the
 * caller's text and decoding `+` and `%HH` escapes on request.
 */
module Form {
  import opened Wrappers
  import opened Spans
  import opened Traits

  // ---------------------------------------------------------------------------
  // Keys and values.

  /** A character that may stand in a key or a value: anything but "=" and "&". */
  predicate IsTextChar(c: char) { c != AlphaEqual && c != AlphaAmpersand }

  predicate AllText(t: seq<char>) { forall i :: 0 <= i < |t| ==> IsTextChar(t[i]) }

  /** The key or value text at `p`: the longest run of characters other than "=" and "&". */
  function TextRun(s: seq<char>, p: nat): (n: nat)
    requires p <= |s|
    ensures p + n <= |s|
    decreases |s| - p
  {
    if p < |s| && IsTextChar(s[p]) then 1 + TextRun(s, p + 1) else 0
  }

  /** The run holds only text characters, and what follows it is the end or a delimiter. */
  lemma {:induction false} TextRunSpec(s: seq<char>, p: nat)
    requires p <= |s|
    ensures forall i :: p <= i < p + TextRun(s, p) ==> IsTextChar(s[i])
    ensures p + TextRun(s, p) < |s| ==> !IsTextChar(s[p + TextRun(s, p)])
    decreases |s| - p
  {
    if p < |s| && IsTextChar(s[p]) {
      TextRunSpec(s, p + 1);
    }
  }

  /** `parse_key` and `parse_value`: the scan that measures a key or a value. */
  method ParseText(s: seq<char>, p: nat) returns (n: nat)
    requires p <= |s|
    ensures n == TextRun(s, p)
  {
    var q := p;
    while q < |s| && IsTextChar(s[q])
      invariant p <= q <= |s|
      invariant TextRun(s, p) == q - p + TextRun(s, q)
      decreases |s| - q
    {
      q := q + 1;
    }
    n := q - p;
  }

  /** A run of text characters followed by the end or a delimiter is the whole run. */
  lemma {:induction false} TextRunExact(s: seq<char>, p: nat, t: seq<char>)
    requires At(s, p, t) && AllText(t)
    requires p + |t| < |s| ==> !IsTextChar(s[p + |t|])
    ensures TextRun(s, p) == |t|
    decreases |t|
  {
    if t != [] {
      AtFirst(s, p, t);
      assert IsTextChar(t[0]);
      assert AllText(t[1..]) by {
        forall i | 0 <= i < |t[1..]| ensures IsTextChar(t[1..][i]) {
          assert t[1..][i] == t[i + 1];
        }
      }
      TextRunExact(s, p + 1, t[1..]);
    }
  }

  // ---------------------------------------------------------------------------
  // Advancing over the list.

  /** The current pair: the key and the value as slices of the input. */
  datatype Pair = Pair(key: Span, value: Span)

  /** The outcome of one advance: no further pair, or the next pair and where the input resumes. */
  datatype Step = Stop | Found(pair: Pair, cursor: nat)

  /**
   * One advance from `cursor` after `count` pairs: a "&" unless this is the first pair,
   * a non-empty key, "=", and a non-empty value.
   */
  function Advance(s: seq<char>, cursor: nat, count: nat): (r: Step)
    requires cursor <= |s|
    ensures r.Found? ==> cursor < r.cursor <= |s| && r.pair.value.End() == r.cursor
    ensures r.Found? ==> r.pair.key.End() + 1 == r.pair.value.start
  {
    if count > 0 && !(cursor < |s| && s[cursor] == AlphaAmpersand) then Stop
    else
      var q := if count > 0 then cursor + 1 else cursor;
      var k := TextRun(s, q);
      if k == 0 || !(q + k < |s| && s[q + k] == AlphaEqual) then Stop
      else
        var v := TextRun(s, q + k + 1);
        if v == 0 then Stop
        else Found(Pair(Span(q, k), Span(q + k + 1, v)), q + k + 1 + v)
  }

  /** The pair `key "=" value` stands in `s`: two non-empty texts around "=". */
  predicate PairAt(s: seq<char>, pr: Pair)
  {
    && pr.key.len > 0 && pr.value.len > 0 && pr.value.Within(|s|)
    && pr.key.End() + 1 == pr.value.start && s[pr.key.End()] == AlphaEqual
    && (forall i :: pr.key.start <= i < pr.key.End() ==> IsTextChar(s[i]))
    && (forall i :: pr.value.start <= i < pr.value.End() ==> IsTextChar(s[i]))
  }

  /**
   * What an advance yields is a well-formed pair, preceded by "&" unless it is the
   * first, and the value runs up to the end of the input or to a delimiter.
   */
  lemma {:induction false} AdvanceSound(s: seq<char>, cursor: nat, count: nat)
    requires cursor <= |s| && Advance(s, cursor, count).Found?
    ensures var pr := Advance(s, cursor, count).pair;
      && PairAt(s, pr)
      && pr.key.start == (if count > 0 then cursor + 1 else cursor)
      && (count > 0 ==> s[cursor] == AlphaAmpersand)
      && (pr.value.End() < |s| ==> !IsTextChar(s[pr.value.End()]))
  {
    var q := if count > 0 then cursor + 1 else cursor;
    TextRunSpec(s, q);
    TextRunSpec(s, q + TextRun(s, q) + 1);
  }

  /** At the end of the input no further pair is found: exhaustion is final. */
  lemma AdvanceAtEnd(s: seq<char>, count: nat)
    ensures Advance(s, |s|, count) == Stop
  {
  }

  /**
   * The pairs an iteration from `cursor` after `count` pairs yields, in input order;
   * each takes at least a key character, "=" and a value character.
   */
  function Pairs(s: seq<char>, cursor: nat, count: nat): (ps: seq<Pair>)
    requires cursor <= |s|
    ensures 3 * |ps| <= |s| - cursor
    decreases |s| - cursor
  {
    match Advance(s, cursor, count)
    case Stop => []
    case Found(pr, c) => [pr] + Pairs(s, c, count + 1)
  }

  /** The pairs lie in the input one after another, each well formed and past `cursor`. */
  predicate PairsInOrder(s: seq<char>, cursor: nat, strict: bool, ps: seq<Pair>)
  {
    && (forall i :: 0 <= i < |ps| ==> PairAt(s, ps[i]) && cursor <= ps[i].key.start)
    && (strict ==> forall i :: 0 <= i < |ps| ==> cursor < ps[i].key.start)
    && (forall i :: 0 < i < |ps| ==> ps[i - 1].value.End() < ps[i].key.start)
  }

  /** Every pair an iteration yields is well formed, and they follow one another in the input. */
  lemma {:induction false} PairsWellFormed(s: seq<char>, cursor: nat, count: nat)
    requires cursor <= |s|
    ensures PairsInOrder(s, cursor, count > 0, Pairs(s, cursor, count))
    decreases |s| - cursor
  {
    match Advance(s, cursor, count)
    case Stop =>
    case Found(pr, c) =>
      AdvanceSound(s, cursor, count);
      PairsWellFormed(s, c, count + 1);
      var ps := Pairs(s, cursor, count);
      var rest := Pairs(s, c, count + 1);
      assert ps == [pr] + rest;
      assert ps[0] == pr;
      forall i | 0 < i < |ps| ensures ps[i] == rest[i - 1] {
      }
      forall i | 0 < i < |ps|
        ensures PairAt(s, ps[i]) && c < ps[i].key.start
        ensures ps[i - 1].value.End() < ps[i].key.start
      {
        assert ps[i] == rest[i - 1];
        if i > 1 {
          assert ps[i - 1] == rest[i - 2];
        }
      }
  }

  /** The current pair of an iteration is a well-formed pair of the input. */
  lemma CurrentPair(s: seq<char>, cursor: nat, count: nat, key: Span, value: Span)
    requires Iterating(s, cursor, count, key, value) && count > 0
    ensures PairAt(s, Pair(key, value))
  {
    PairsWellFormed(s, 0, 0);
    var all := Pairs(s, 0, 0);
    assert PairAt(s, all[count - 1]);
  }

  /** The key and the value of a well-formed pair are non-empty texts without delimiters. */
  lemma PairTexts(s: seq<char>, pr: Pair)
    requires PairAt(s, pr)
    ensures pr.key.Within(|s|) && |Text(s, pr.key)| > 0 && AllText(Text(s, pr.key))
    ensures |Text(s, pr.value)| > 0 && AllText(Text(s, pr.value))
  {
    var k, v := Text(s, pr.key), Text(s, pr.value);
    forall i | 0 <= i < |k| ensures IsTextChar(k[i]) {
      assert k[i] == s[pr.key.start + i];
    }
    forall i | 0 <= i < |v| ensures IsTextChar(v[i]) {
      assert v[i] == s[pr.value.start + i];
    }
  }

  // ---------------------------------------------------------------------------
  // Decoding.

  datatype DecodeError = MalformedEscape

  /** The character `%HH` stands for: high nibble times 16 plus low nibble. */
  function EscapedChar(hi: char, lo: char): (c: char)
    requires IsHexDigit(hi) && IsHexDigit(lo)
    ensures c as int == HexToInt(hi) * 16 + HexToInt(lo) && c as int < 256
  {
    (HexToInt(hi) * 16 + HexToInt(lo)) as char
  }

  function Prefixed(out: seq<char>, r: Result<seq<char>, DecodeError>): Result<seq<char>, DecodeError>
  {
    match r
    case Ok(t) => Ok(out + t)
    case Err(e) => Err(e)
  }

  /**
   * The decoded text: "+" stands for a space, "%" and two hex digits for the character
   * they denote; a "%" without two hex digits after it is malformed.
   */
  function Decode(t: seq<char>): (r: Result<seq<char>, DecodeError>)
    ensures r.Ok? ==> |r.value| <= |t|
    ensures (forall i :: 0 <= i < |t| ==> t[i] != AlphaPlus && t[i] != AlphaPercent) ==> r == Ok(t)
    decreases |t|
  {
    if t == [] then Ok([])
    else if t[0] == AlphaPlus then Prefixed([AlphaSpace], Decode(t[1..]))
    else if t[0] == AlphaPercent then
      if |t| >= 3 && IsHexDigit(t[1]) && IsHexDigit(t[2]) then Prefixed([EscapedChar(t[1], t[2])], Decode(t[3..]))
      else Err(MalformedEscape)
    else
      assert [t[0]] + t[1..] == t;
      Prefixed([t[0]], Decode(t[1..]))
  }

  lemma PrefixedTwice(a: seq<char>, b: seq<char>, r: Result<seq<char>, DecodeError>)
    ensures Prefixed(a, Prefixed(b, r)) == Prefixed(a + b, r)
  {
    if r.Ok? {
      assert a + (b + r.value) == a + b + r.value;
    }
  }

  /** The decoder of `key()` and `value()`: one pass over the text. */
  method DecodeText(t: seq<char>) returns (r: Result<seq<char>, DecodeError>)
    ensures r == Decode(t)
  {
    var out: seq<char> := [];
    var i := 0;
    assert t[i..] == t;
    assert Prefixed(out, Decode(t)) == Decode(t) by {
      if Decode(t).Ok? {
        assert [] + Decode(t).value == Decode(t).value;
      }
    }
    while i < |t|
      invariant i <= |t|
      invariant Prefixed(out, Decode(t[i..])) == Decode(t)
      decreases |t| - i
    {
      var c := t[i];
      assert t[i..][0] == c;
      if c == AlphaPercent {
        if i + 2 < |t| && IsHexDigit(t[i + 1]) && IsHexDigit(t[i + 2]) {
          assert t[i..][1] == t[i + 1] && t[i..][2] == t[i + 2] && t[i..][3..] == t[i + 3..];
          PrefixedTwice(out, [EscapedChar(t[i + 1], t[i + 2])], Decode(t[i + 3..]));
          out := out + [EscapedChar(t[i + 1], t[i + 2])];
          i := i + 3;
        } else {
          return Err(MalformedEscape);
        }
      } else {
        var d := if c == AlphaPlus then AlphaSpace else c;
        assert t[i..][1..] == t[i + 1..];
        PrefixedTwice(out, [d], Decode(t[i + 1..]));
        out := out + [d];
        i := i + 1;
      }
    }
    assert t[i..] == [] && out + [] == out;
    r := Ok(out);
  }

  // ---------------------------------------------------------------------------
  // Encoding, the inverse of decoding.

  /** A character the form encoding can carry: one byte. */
  predicate IsByte(c: char) { c as int < 256 }

  predicate AllBytes(t: seq<char>) { forall i :: 0 <= i < |t| ==> IsByte(t[i]) }

  /** Letters and digits stand for themselves, a space is "+", anything else `%HH`. */
  function EncodeChar(c: char): (e: seq<char>)
    requires IsByte(c)
    ensures 1 <= |e| <= 3 && AllText(e)
  {
    if IsAlpha(c) || IsDigit(c) then [c]
    else if c == AlphaSpace then [AlphaPlus]
    else [AlphaPercent, HexDigitUpper(c as int / 16), HexDigitUpper(c as int % 16)]
  }

  function Encode(t: seq<char>): (e: seq<char>)
    requires AllBytes(t)
    ensures |e| >= |t| && AllText(e)
    decreases |t|
  {
    if t == [] then [] else EncodeChar(t[0]) + Encode(t[1..])
  }

  /** Decoding one encoded character, then the rest. */
  lemma DecodeChar(c: char, rest: seq<char>)
    requires IsByte(c)
    ensures Decode(EncodeChar(c) + rest) == Prefixed([c], Decode(rest))
  {
    var e := EncodeChar(c) + rest;
    if IsAlpha(c) || IsDigit(c) {
      assert e[0] == c && e[1..] == rest;
    } else if c == AlphaSpace {
      assert e[0] == AlphaPlus && e[1..] == rest;
    } else {
      var hi, lo := HexDigitUpper(c as int / 16), HexDigitUpper(c as int % 16);
      assert e[0] == AlphaPercent && e[1] == hi && e[2] == lo && e[3..] == rest;
      HexDigitUpperRoundTrip(c as int / 16);
      HexDigitUpperRoundTrip(c as int % 16);
      assert EscapedChar(hi, lo) == c;
    }
  }

  /** Decoding undoes encoding. */
  lemma {:induction false} DecodeEncode(t: seq<char>)
    requires AllBytes(t)
    ensures Decode(Encode(t)) == Ok(t)
    decreases |t|
  {
    if t != [] {
      DecodeEncode(t[1..]);
      DecodeChar(t[0], Encode(t[1..]));
      assert [t[0]] + t[1..] == t;
    }
  }

  // ---------------------------------------------------------------------------
  // Reading back a list of pairs.

  /** The "&" that leads every pair but the first. */
  function Lead(first: bool): seq<char> { if first then [] else [AlphaAmpersand] }

  /** Keys and values as they stand in a list: non-empty, without "=" or "&". */
  predicate AllFields(es: seq<(seq<char>, seq<char>)>)
  {
    forall i :: 0 <= i < |es| ==> |es[i].0| > 0 && |es[i].1| > 0 && AllText(es[i].0) && AllText(es[i].1)
  }

  /** The pairs `key=value` joined by "&"; `first` says no "&" leads. */
  function Joined(es: seq<(seq<char>, seq<char>)>, first: bool): seq<char>
    requires AllFields(es)
    decreases |es|
  {
    if es == [] then [] else Lead(first) + es[0].0 + [AlphaEqual] + es[0].1 + Joined(es[1..], false)
  }

  /** The keys and the values the pairs `ps` mark in `s` are, one by one, those of `es`. */
  predicate Reads(s: seq<char>, ps: seq<Pair>, es: seq<(seq<char>, seq<char>)>)
    decreases |ps|
  {
    && |ps| == |es|
    && (ps != [] ==>
      && ps[0].key.len == |es[0].0| && At(s, ps[0].key.start, es[0].0)
      && ps[0].value.len == |es[0].1| && At(s, ps[0].value.start, es[0].1)
      && Reads(s, ps[1..], es[1..]))
  }

  lemma {:induction false} ReadsIndex(s: seq<char>, ps: seq<Pair>, es: seq<(seq<char>, seq<char>)>)
    requires Reads(s, ps, es)
    ensures forall i :: 0 <= i < |ps| ==>
      && ps[i].key.Within(|s|) && ps[i].value.Within(|s|)
      && Text(s, ps[i].key) == es[i].0 && Text(s, ps[i].value) == es[i].1
    decreases |ps|
  {
    if ps != [] {
      ReadsIndex(s, ps[1..], es[1..]);
      AtSlice(s, ps[0].key.start, es[0].0);
      AtSlice(s, ps[0].value.start, es[0].1);
      forall i | 1 <= i < |ps| ensures ps[i] == ps[1..][i - 1] && es[i] == es[1..][i - 1] {
      }
    }
  }

  /**
   * One pair `key=value` at `p`, led by "&" unless it is the first and followed by the
   * end of the input or by "&": an advance finds exactly that key and value.
   */
  lemma AdvanceOverPair(s: seq<char>, p: nat, count: nat, ek: seq<char>, ev: seq<char>, rest: seq<char>)
    requires |ek| > 0 && |ev| > 0 && AllText(ek) && AllText(ev)
    requires rest == [] || rest[0] == AlphaAmpersand
    requires At(s, p, Lead(count == 0) + ek + [AlphaEqual] + ev + rest)
    requires p + |Lead(count == 0) + ek + [AlphaEqual] + ev + rest| == |s|
    ensures var q := p + |Lead(count == 0)|;
      && Advance(s, p, count) == Found(Pair(Span(q, |ek|), Span(q + |ek| + 1, |ev|)), q + |ek| + 1 + |ev|)
      && At(s, q, ek) && At(s, q + |ek| + 1, ev) && At(s, q + |ek| + 1 + |ev|, rest)
  {
    var lead := Lead(count == 0);
    var q := p + |lead|;
    var c := q + |ek| + 1 + |ev|;
    assert lead + ek + [AlphaEqual] + ev + rest == lead + ek + [AlphaEqual] + (ev + rest);
    AtSplit4(s, p, lead, ek, [AlphaEqual], ev + rest);
    AtSplit(s, q + |ek| + 1, ev, rest);
    AtChar(s, q + |ek|, AlphaEqual);
    if count > 0 {
      AtChar(s, p, AlphaAmpersand);
    }
    TextRunExact(s, q, ek);
    if rest != [] {
      AtIndex(s, c, rest, 0);
    }
    TextRunExact(s, q + |ek| + 1, ev);
  }

  lemma PairsCons(s: seq<char>, p: nat, count: nat, pr: Pair, c: nat)
    requires p <= |s| && Advance(s, p, count) == Found(pr, c)
    ensures Pairs(s, p, count) == [pr] + Pairs(s, c, count + 1)
  {
  }

  /** The first pair of a joined list, and the rest, led by "&". */
  lemma JoinedCons(es: seq<(seq<char>, seq<char>)>, first: bool)
    requires AllFields(es) && es != []
    ensures |es[0].0| > 0 && |es[0].1| > 0 && AllText(es[0].0) && AllText(es[0].1)
    ensures Joined(es, first) == Lead(first) + es[0].0 + [AlphaEqual] + es[0].1 + Joined(es[1..], false)
    ensures Joined(es[1..], false) == [] || Joined(es[1..], false)[0] == AlphaAmpersand
  {
  }

  lemma ReadsCons(s: seq<char>, q: nat, ps: seq<Pair>, es: seq<(seq<char>, seq<char>)>)
    requires es != [] && Reads(s, ps, es[1..])
    requires At(s, q, es[0].0) && At(s, q + |es[0].0| + 1, es[0].1)
    ensures Reads(s, [Pair(Span(q, |es[0].0|), Span(q + |es[0].0| + 1, |es[0].1|))] + ps, es)
  {
    var pr := Pair(Span(q, |es[0].0|), Span(q + |es[0].0| + 1, |es[0].1|));
    assert ([pr] + ps)[1..] == ps;
  }

  /** Where the pairs after the first of a joined list start. */
  lemma JoinedRest(s: seq<char>, p: nat, count: nat, es: seq<(seq<char>, seq<char>)>) returns (c: nat)
    requires AllFields(es) && es != []
    requires At(s, p, Joined(es, count == 0)) && p + |Joined(es, count == 0)| == |s|
    ensures c == p + |Lead(count == 0)| + |es[0].0| + 1 + |es[0].1|
    ensures At(s, c, Joined(es[1..], false)) && c + |Joined(es[1..], false)| == |s|
  {
    JoinedCons(es, count == 0);
    c := p + |Lead(count == 0)| + |es[0].0| + 1 + |es[0].1|;
    AtSplit(s, p, Lead(count == 0) + es[0].0 + [AlphaEqual] + es[0].1, Joined(es[1..], false));
  }

  /** The first pair of a joined list is read, then the rest. */
  lemma PairsOfJoinedStep(s: seq<char>, p: nat, count: nat, es: seq<(seq<char>, seq<char>)>, c: nat)
    requires AllFields(es) && es != []
    requires At(s, p, Joined(es, count == 0)) && p + |Joined(es, count == 0)| == |s|
    requires c == p + |Lead(count == 0)| + |es[0].0| + 1 + |es[0].1| && c <= |s|
    requires Reads(s, Pairs(s, c, count + 1), es[1..])
    ensures Reads(s, Pairs(s, p, count), es)
  {
    JoinedCons(es, count == 0);
    var q := p + |Lead(count == 0)|;
    AdvanceOverPair(s, p, count, es[0].0, es[0].1, Joined(es[1..], false));
    PairsCons(s, p, count, Pair(Span(q, |es[0].0|), Span(q + |es[0].0| + 1, |es[0].1|)), c);
    ReadsCons(s, q, Pairs(s, c, count + 1), es);
  }

  /**
   * Iterating over joined pairs from `p` to the end of the input yields exactly those
   * pairs, in order.
   */
  lemma {:induction false} PairsOfJoined(s: seq<char>, p: nat, count: nat, es: seq<(seq<char>, seq<char>)>)
    requires AllFields(es)
    requires At(s, p, Joined(es, count == 0)) && p + |Joined(es, count == 0)| == |s|
    ensures Reads(s, Pairs(s, p, count), es)
    decreases |es|
  {
    if es == [] {
      AdvanceAtEnd(s, count);
    } else {
      var c := JoinedRest(s, p, count, es);
      PairsOfJoined(s, c, count + 1, es[1..]);
      PairsOfJoinedStep(s, p, count, es, c);
    }
  }

  /** A list of pairs `key=value` joined by "&" is read back as those pairs, in order. */
  lemma JoinedRoundTrip(es: seq<(seq<char>, seq<char>)>)
    requires AllFields(es)
    ensures var s := Joined(es, true); var ps := Pairs(s, 0, 0);
      && |ps| == |es|
      && forall i :: 0 <= i < |ps| ==>
        && ps[i].key.Within(|s|) && ps[i].value.Within(|s|)
        && Text(s, ps[i].key) == es[i].0 && Text(s, ps[i].value) == es[i].1
  {
    var s := Joined(es, true);
    assert At(s, 0, s);
    PairsOfJoined(s, 0, 0, es);
    ReadsIndex(s, Pairs(s, 0, 0), es);
  }

  /** Pairs to encode: every key and value non-empty and made of bytes. */
  predicate FormPairs(kvs: seq<(seq<char>, seq<char>)>)
  {
    forall i :: 0 <= i < |kvs| ==> |kvs[i].0| > 0 && |kvs[i].1| > 0 && AllBytes(kvs[i].0) && AllBytes(kvs[i].1)
  }

  /** The pairs, each key and value encoded. */
  function EncodePairs(kvs: seq<(seq<char>, seq<char>)>): (es: seq<(seq<char>, seq<char>)>)
    requires FormPairs(kvs)
    ensures |es| == |kvs| && AllFields(es)
    ensures forall i :: 0 <= i < |kvs| ==> es[i] == (Encode(kvs[i].0), Encode(kvs[i].1))
  {
    seq(|kvs|, i requires 0 <= i < |kvs| => (Encode(kvs[i].0), Encode(kvs[i].1)))
  }

  /** The form encoding of a list of pairs. */
  function FormText(kvs: seq<(seq<char>, seq<char>)>): seq<char>
    requires FormPairs(kvs)
  {
    Joined(EncodePairs(kvs), true)
  }

  /** The form encoding of a list of pairs is read back, and decoded, as that list. */
  lemma FormRoundTrip(kvs: seq<(seq<char>, seq<char>)>)
    requires FormPairs(kvs)
    ensures var s := FormText(kvs); var ps := Pairs(s, 0, 0);
      && |ps| == |kvs|
      && forall i :: 0 <= i < |ps| ==>
        && ps[i].key.Within(|s|) && ps[i].value.Within(|s|)
        && Decode(Text(s, ps[i].key)) == Ok(kvs[i].0) && Decode(Text(s, ps[i].value)) == Ok(kvs[i].1)
  {
    var es := EncodePairs(kvs);
    JoinedRoundTrip(es);
    forall i | 0 <= i < |kvs| ensures Decode(es[i].0) == Ok(kvs[i].0) && Decode(es[i].1) == Ok(kvs[i].1) {
      DecodeEncode(kvs[i].0);
      DecodeEncode(kvs[i].1);
    }
  }

  /**
   * The state of an iteration over `s`: the first `count` pairs have been produced,
   * the current pair is the last of them, and the input from `cursor` holds the others.
   */
  predicate Iterating(s: seq<char>, cursor: nat, count: nat, key: Span, value: Span)
  {
    && cursor <= |s|
    && var all := Pairs(s, 0, 0);
    && count <= |all|
    && Pairs(s, cursor, count) == all[count..]
    && (count > 0 ==> key == all[count - 1].key && value == all[count - 1].value)
  }

  /** Taking the pair an advance finds keeps the iteration state. */
  lemma IteratingFound(s: seq<char>, cursor: nat, count: nat, key: Span, value: Span)
    requires Iterating(s, cursor, count, key, value) && Advance(s, cursor, count).Found?
    ensures count < |Pairs(s, 0, 0)|
    ensures var st := Advance(s, cursor, count);
      Iterating(s, st.cursor, count + 1, st.pair.key, st.pair.value)
  {
    var all := Pairs(s, 0, 0);
    assert all[count + 1..] == all[count..][1..];
  }

  /** When an advance finds nothing, moving to the end of the input keeps the iteration state. */
  lemma IteratingStop(s: seq<char>, cursor: nat, count: nat, key: Span, value: Span)
    requires Iterating(s, cursor, count, key, value) && Advance(s, cursor, count).Stop?
    ensures Iterating(s, |s|, count, key, value)
    ensures count == |Pairs(s, 0, 0)|
  {
    AdvanceAtEnd(s, count);
  }

  /** One advance, scanning the key and the value with `ParseText`. */
  method ParsePair(s: seq<char>, cursor: nat, count: nat) returns (r: Step)
    requires cursor <= |s|
    ensures r == Advance(s, cursor, count)
  {
    var q := cursor;
    if count > 0 {
      if !(q < |s| && s[q] == AlphaAmpersand) {
        return Stop;
      }
      q := q + 1;
    }
    var k := ParseText(s, q);
    if k == 0 || !(q + k < |s| && s[q + k] == AlphaEqual) {
      return Stop;
    }
    var v := ParseText(s, q + k + 1);
    if v == 0 {
      return Stop;
    }
    r := Found(Pair(Span(q, k), Span(q + k + 1, v)), q + k + 1 + v);
  }

  // ---------------------------------------------------------------------------
  // The view.

  class FormView {
    /** The text the view borrows. */
    const input: seq<char>
    /** The remaining input starts here. */
    var cursor: nat
    var keyView: Span
    var valueView: Span
    /** How many pairs have been produced. */
    var count: nat

    /**
     * The pairs produced so far are the first `count` pairs of the input, the current
     * pair is the last of them, and the rest of the input holds the others.
     */
    predicate Valid()
      reads this
    {
      Iterating(input, cursor, count, keyView, valueView)
    }

    /** Construction primes the first pair. */
    constructor(s: seq<char>)
      ensures Valid() && input == s
      ensures count == if Pairs(s, 0, 0) == [] then 0 else 1
    {
      input := s;
      cursor := 0;
      keyView := Span(0, 0);
      valueView := Span(0, 0);
      count := 0;
      new;
      var primed := Next();
    }

    /**
     * Moves to the next pair when there is one; otherwise the view is exhausted: the
     * cursor is at the end of the input and the current pair stays as it was.
     */
    method Next() returns (more: bool)
      requires Valid()
      modifies this
      ensures Valid()
      ensures more <==> old(count) < |Pairs(input, 0, 0)|
      ensures more ==> count == old(count) + 1
      ensures !more ==> count == old(count) && cursor == |input| && keyView == old(keyView) && valueView == old(valueView)
    {
      var step := ParsePair(input, cursor, count);
      match step
      case Found(pr, c) =>
        IteratingFound(input, cursor, count, keyView, valueView);
        keyView, valueView, cursor, count := pr.key, pr.value, c, count + 1;
        more := true;
      case Stop =>
        IteratingStop(input, cursor, count, keyView, valueView);
        cursor := |input|;
        more := false;
    }

    /** The current key as it stands in the input. */
    function LiteralKey(): (t: seq<char>)
      reads this
      requires Valid() && count > 0
      ensures |t| > 0 && AllText(t)
    {
      CurrentPair(input, cursor, count, keyView, valueView);
      PairTexts(input, Pair(keyView, valueView));
      Text(input, keyView)
    }

    /** The current value as it stands in the input. */
    function LiteralValue(): (t: seq<char>)
      reads this
      requires Valid() && count > 0
      ensures |t| > 0 && AllText(t)
    {
      CurrentPair(input, cursor, count, keyView, valueView);
      PairTexts(input, Pair(keyView, valueView));
      Text(input, valueView)
    }

    /** The current key, decoded. */
    method Key() returns (r: Result<seq<char>, DecodeError>)
      requires Valid() && count > 0
      ensures r == Decode(LiteralKey())
    {
      r := DecodeText(LiteralKey());
    }

    /** The current value, decoded. */
    method Value() returns (r: Result<seq<char>, DecodeError>)
      requires Valid() && count > 0
      ensures r == Decode(LiteralValue())
    {
      r := DecodeText(LiteralValue());
    }
  }
}
