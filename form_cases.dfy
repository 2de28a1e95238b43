/**
 * The cases of the form view's test suite, stated over the model: which pairs the view
 * yields for each input, as written and decoded.
 */
module FormCases {
  import opened Wrappers
  import opened Spans
  import opened Form

  /** An empty input holds no pair. */
  lemma Empty()
    ensures Pairs("", 0, 0) == []
  {
  }

  /** A single "&" holds no pair. */
  lemma FailAmpersand()
    ensures Pairs("&", 0, 0) == []
  {
  }

  /** A key without a value is no pair. */
  lemma FailNoValue()
    ensures Pairs("alpha=", 0, 0) == []
  {
  }

  /** The pairs of `s` are `es`, as written. */
  predicate ReadsAs(s: seq<char>, es: seq<(seq<char>, seq<char>)>)
  {
    var ps := Pairs(s, 0, 0);
    && |ps| == |es|
    && forall i :: 0 <= i < |ps| ==>
      && ps[i].key.Within(|s|) && ps[i].value.Within(|s|)
      && Text(s, ps[i].key) == es[i].0 && Text(s, ps[i].value) == es[i].1
  }

  /** A word with neither "+" nor "%": it decodes to itself. */
  predicate Plain(t: seq<char>) { forall i :: 0 <= i < |t| ==> t[i] != '+' && t[i] != '%' }

  /** A plain prefix decodes to itself, whatever follows it. */
  lemma {:induction false} DecodePlain(a: seq<char>, b: seq<char>)
    requires Plain(a)
    ensures Decode(a + b) == Prefixed(a, Decode(b))
    decreases |a|
  {
    if a == [] {
      assert [] + b == b;
      if Decode(b).Ok? {
        assert [] + Decode(b).value == Decode(b).value;
      }
    } else {
      assert (a + b)[0] == a[0] && (a + b)[1..] == a[1..] + b;
      DecodePlain(a[1..], b);
      PrefixedTwice([a[0]], a[1..], Decode(b));
      assert [a[0]] + a[1..] == a;
    }
  }

  lemma DecodeWord(a: seq<char>)
    requires Plain(a)
    ensures Decode(a) == Ok(a)
  {
    DecodePlain(a, []);
    assert a + [] == a;
  }

  /** Between plain words, "+" decodes to a space. */
  lemma DecodePlus(a: seq<char>, b: seq<char>)
    requires Plain(a) && Plain(b)
    ensures Decode(a + "+" + b) == Ok(a + " " + b)
  {
    var t := "+" + b;
    assert a + "+" + b == a + t;
    DecodePlain(a, t);
    assert t[0] == '+' && t[1..] == b;
    DecodeWord(b);
    assert a + ([' '] + b) == a + " " + b;
  }

  /** Between plain words, "%3D" decodes to "=". */
  lemma DecodeEscapedEqual(a: seq<char>, b: seq<char>)
    requires Plain(a) && Plain(b)
    ensures Decode(a + "%3D" + b) == Ok(a + "=" + b)
  {
    var t := "%3D" + b;
    assert a + "%3D" + b == a + t;
    DecodePlain(a, t);
    assert t[0] == '%' && t[1] == '3' && t[2] == 'D' && t[3..] == b;
    assert EscapedChar('3', 'D') == '=';
    DecodeWord(b);
    assert a + (['='] + b) == a + "=" + b;
  }

  /** One pair `k=v` is read back as it stands. */
  lemma OnePair(k: seq<char>, v: seq<char>)
    requires AllFields([(k, v)])
    ensures ReadsAs(k + "=" + v, [(k, v)])
  {
    var es := [(k, v)];
    JoinedCons(es, true);
    assert es[1..] == [];
    assert Joined(es, true) == k + "=" + v;
    JoinedRoundTrip(es);
  }

  /** Two pairs joined by "&" are read back in order. */
  lemma TwoPairs(k0: seq<char>, v0: seq<char>, k1: seq<char>, v1: seq<char>)
    requires AllFields([(k0, v0), (k1, v1)])
    ensures ReadsAs(k0 + "=" + v0 + "&" + k1 + "=" + v1, [(k0, v0), (k1, v1)])
  {
    var es := [(k0, v0), (k1, v1)];
    JoinedCons(es, true);
    JoinedCons(es[1..], false);
    assert es[1..][0] == (k1, v1) && es[1..][1..] == [];
    assert Joined(es, true) == k0 + "=" + v0 + "&" + k1 + "=" + v1;
    JoinedRoundTrip(es);
  }

  /** Three pairs joined by "&" are read back in order. */
  lemma ThreePairs(k0: seq<char>, v0: seq<char>, k1: seq<char>, v1: seq<char>, k2: seq<char>, v2: seq<char>)
    requires AllFields([(k0, v0), (k1, v1), (k2, v2)])
    ensures ReadsAs(k0 + "=" + v0 + "&" + k1 + "=" + v1 + "&" + k2 + "=" + v2, [(k0, v0), (k1, v1), (k2, v2)])
  {
    var es := [(k0, v0), (k1, v1), (k2, v2)];
    JoinedCons(es, true);
    JoinedCons(es[1..], false);
    JoinedCons(es[2..], false);
    assert es[1..][0] == (k1, v1) && es[2..][0] == (k2, v2) && es[1..][1..] == es[2..] && es[2..][1..] == [];
    assert Joined(es, true) == k0 + "=" + v0 + "&" + k1 + "=" + v1 + "&" + k2 + "=" + v2;
    JoinedRoundTrip(es);
  }

  /** One pair, primed by construction; its key and value read back as they stand. */
  lemma SinglePair()
    ensures ReadsAs("alpha" + "=" + "hydrogen", [("alpha", "hydrogen")])
    ensures Decode("alpha") == Ok("alpha") && Decode("hydrogen") == Ok("hydrogen")
  {
    OnePair("alpha", "hydrogen");
    DecodeWord("alpha");
    DecodeWord("hydrogen");
  }

  lemma AllTextJoin(a: seq<char>, b: seq<char>)
    requires AllText(a) && AllText(b)
    ensures AllText(a + b)
  {
    forall i | 0 <= i < |a + b| ensures IsTextChar((a + b)[i]) {
      if i >= |a| {
        assert (a + b)[i] == b[i - |a|];
      }
    }
  }

  /** A value with a "+" between plain words reads back as written and decodes with a space. */
  lemma PlusValue(k: seq<char>, a: seq<char>, b: seq<char>)
    requires |k| > 0 && AllText(k) && AllText(a) && AllText(b) && Plain(a) && Plain(b)
    ensures ReadsAs(k + "=" + (a + "+" + b), [(k, a + "+" + b)])
    ensures Decode(a + "+" + b) == Ok(a + " " + b)
  {
    AllTextJoin(a, "+");
    AllTextJoin(a + "+", b);
    OnePair(k, a + "+" + b);
    DecodePlus(a, b);
  }

  /** A value with "%3D" between plain words reads back as written and decodes with "=". */
  lemma EscapedValue(k: seq<char>, a: seq<char>, b: seq<char>)
    requires |k| > 0 && AllText(k) && AllText(a) && AllText(b) && Plain(a) && Plain(b)
    ensures ReadsAs(k + "=" + (a + "%3D" + b), [(k, a + "%3D" + b)])
    ensures Decode(a + "%3D" + b) == Ok(a + "=" + b)
  {
    AllTextJoin(a, "%3D");
    AllTextJoin(a + "%3D", b);
    OnePair(k, a + "%3D" + b);
    DecodeEscapedEqual(a, b);
  }

  /** A "+" stays in the literal value and decodes to a space. */
  lemma SingleSpace()
    ensures ReadsAs("alpha" + "=" + ("hydrogen" + "+" + "helium"), [("alpha", "hydrogen" + "+" + "helium")])
    ensures Decode("hydrogen" + "+" + "helium") == Ok("hydrogen" + " " + "helium")
  {
    PlusValue("alpha", "hydrogen", "helium");
  }

  /** An escaped "=" stays in the literal value and decodes to "=". */
  lemma SingleEqual()
    ensures ReadsAs("alpha" + "=" + ("hydrogen" + "%3D" + "helium"), [("alpha", "hydrogen" + "%3D" + "helium")])
    ensures Decode("hydrogen" + "%3D" + "helium") == Ok("hydrogen" + "=" + "helium")
  {
    EscapedValue("alpha", "hydrogen", "helium");
  }

  /** Two pairs, in input order. */
  lemma ListTwo()
    ensures ReadsAs("alpha" + "=" + "hydrogen" + "&" + "bravo" + "=" + "helium", [("alpha", "hydrogen"), ("bravo", "helium")])
  {
    TwoPairs("alpha", "hydrogen", "bravo", "helium");
  }

  /**
   * Three pairs of plain words seen through the view: construction primes the first,
   * each `next()` but the last succeeds, and each key and value decodes to itself.
   */
  method ThreeThroughView(k0: seq<char>, v0: seq<char>, k1: seq<char>, v1: seq<char>, k2: seq<char>, v2: seq<char>)
    returns (keys: seq<Result<seq<char>, DecodeError>>, values: seq<Result<seq<char>, DecodeError>>, more: seq<bool>)
    requires AllFields([(k0, v0), (k1, v1), (k2, v2)])
    requires Plain(k0) && Plain(v0) && Plain(k1) && Plain(v1) && Plain(k2) && Plain(v2)
    ensures keys == [Ok(k0), Ok(k1), Ok(k2)]
    ensures values == [Ok(v0), Ok(v1), Ok(v2)]
    ensures more == [true, true, false]
  {
    var s := k0 + "=" + v0 + "&" + k1 + "=" + v1 + "&" + k2 + "=" + v2;
    ThreePairs(k0, v0, k1, v1, k2, v2);
    DecodeWord(k0);
    DecodeWord(v0);
    DecodeWord(k1);
    DecodeWord(v1);
    DecodeWord(k2);
    DecodeWord(v2);
    var form := new FormView(s);
    var key0 := form.Key();
    var value0 := form.Value();
    var more0 := form.Next();
    var key1 := form.Key();
    var value1 := form.Value();
    var more1 := form.Next();
    var key2 := form.Key();
    var value2 := form.Value();
    var more2 := form.Next();
    keys, values, more := [key0, key1, key2], [value0, value1, value2], [more0, more1, more2];
  }

  /** The three-pair list of the test suite. */
  method ListThree() returns (keys: seq<Result<seq<char>, DecodeError>>, values: seq<Result<seq<char>, DecodeError>>, more: seq<bool>)
    ensures keys == [Ok("alpha"), Ok("bravo"), Ok("charlie")]
    ensures values == [Ok("hydrogen"), Ok("helium"), Ok("lithium")]
    ensures more == [true, true, false]
  {
    keys, values, more := ThreeThroughView("alpha", "hydrogen", "bravo", "helium", "charlie", "lithium");
  }
}
