/**
 * A non-owning view (the library's `boost::string_ref`): an offset and a length into
 * a caller-owned buffer. Views are compared and read through `Text`; nothing is copied.
 */
module Spans {

  datatype Span = Span(start: nat, len: nat) {

    /** One past the last character of the view. */
    function End(): nat { start + len }

    /** The view lies inside a buffer of `n` characters. */
    predicate Within(n: nat) { start + len <= n }
  }

  /** The empty view at the front of the buffer, the state of a view nobody assigned. */
  const Empty := Span(0, 0)

  /** The characters a view shows of buffer `s`. */
  function Text(s: seq<char>, v: Span): (t: seq<char>)
    requires v.Within(|s|)
    ensures |t| == v.len
    ensures forall i :: 0 <= i < v.len ==> t[i] == s[v.start + i]
  {
    s[v.start..v.End()]
  }

  /** `s` holds the text `t` at position `p`. */
  predicate At(s: seq<char>, p: nat, t: seq<char>)
  {
    p + |t| <= |s| && forall i :: 0 <= i < |t| ==> s[p + i] == t[i]
  }

  /** `At` is the slice comparison it abbreviates. */
  lemma AtSlice(s: seq<char>, p: nat, t: seq<char>)
    ensures At(s, p, t) <==> p + |t| <= |s| && s[p..p + |t|] == t
  {
    if p + |t| <= |s| {
      if At(s, p, t) {
        assert s[p..p + |t|] == t by {
          forall i | 0 <= i < |t| ensures s[p..p + |t|][i] == t[i] {
            assert s[p..p + |t|][i] == s[p + i];
          }
        }
      }
      if s[p..p + |t|] == t {
        forall i | 0 <= i < |t| ensures s[p + i] == t[i] {
          assert s[p..p + |t|][i] == s[p + i];
        }
      }
    }
  }

  lemma AtSplit(s: seq<char>, p: nat, a: seq<char>, b: seq<char>)
    requires At(s, p, a + b)
    ensures At(s, p, a) && At(s, p + |a|, b)
  {
    forall i | 0 <= i < |a| ensures s[p + i] == a[i] {
      assert (a + b)[i] == a[i];
    }
    forall i | 0 <= i < |b| ensures s[p + |a| + i] == b[i] {
      assert (a + b)[|a| + i] == b[i];
    }
  }

  lemma AtJoin(s: seq<char>, p: nat, a: seq<char>, b: seq<char>)
    requires At(s, p, a) && At(s, p + |a|, b)
    ensures At(s, p, a + b)
  {
    forall i | 0 <= i < |a + b| ensures s[p + i] == (a + b)[i] {
      if i >= |a| {
        assert s[p + |a| + (i - |a|)] == b[i - |a|];
      }
    }
  }

  lemma AtIndex(s: seq<char>, p: nat, t: seq<char>, i: nat)
    requires At(s, p, t) && i < |t|
    ensures p + i < |s| && s[p + i] == t[i]
  {
  }

  lemma AtChar(s: seq<char>, p: nat, c: char)
    ensures At(s, p, [c]) <==> p < |s| && s[p] == c
  {
    if At(s, p, [c]) {
      assert s[p + 0] == [c][0];
    }
    if p < |s| && s[p] == c {
      forall i | 0 <= i < |[c]| ensures s[p + i] == [c][i] {
        assert i == 0;
      }
    }
  }

  /** The first character of a non-empty text, then the rest one position further on. */
  lemma AtFirst(s: seq<char>, p: nat, t: seq<char>)
    requires At(s, p, t) && t != []
    ensures p < |s| && s[p] == t[0] && At(s, p + 1, t[1..])
  {
    assert s[p + 0] == t[0];
    forall i | 0 <= i < |t[1..]| ensures s[p + 1 + i] == t[1..][i] {
      assert s[p + (1 + i)] == t[1 + i];
    }
  }

  lemma AtLength(s: seq<char>, p: nat, t: seq<char>)
    requires At(s, p, t)
    ensures p + |t| <= |s|
  {
  }

  /** Four texts stand one after the other at `p`. */
  lemma AtSplit4(s: seq<char>, p: nat, a: seq<char>, b: seq<char>, c: seq<char>, d: seq<char>)
    requires At(s, p, a + b + c + d)
    ensures At(s, p, a) && At(s, p + |a|, b) && At(s, p + |a| + |b|, c) && At(s, p + |a| + |b| + |c|, d)
  {
    AtSplit(s, p, a + b + c, d);
    AtSplit(s, p, a + b, c);
    AtSplit(s, p, a, b);
  }

  /** `a`, the separator `c` and `b` stand one after the other at `p`. */
  lemma AtAround(s: seq<char>, p: nat, a: seq<char>, c: char, b: seq<char>)
    requires At(s, p, a + [c] + b)
    ensures At(s, p, a) && p + |a| < |s| && s[p + |a|] == c && At(s, p + |a| + 1, b)
  {
    assert a + [c] + b == a + ([c] + b);
    AtSplit(s, p, a, [c] + b);
    AtSplit(s, p + |a|, [c], b);
    AtChar(s, p + |a|, c);
  }

  lemma AtAroundJoin(s: seq<char>, p: nat, a: seq<char>, c: char, b: seq<char>)
    requires At(s, p, a) && p + |a| < |s| && s[p + |a|] == c && At(s, p + |a| + 1, b)
    ensures At(s, p, a + [c] + b)
  {
    AtChar(s, p + |a|, c);
    AtJoin(s, p + |a|, [c], b);
    AtJoin(s, p, a, [c] + b);
    assert a + [c] + b == a + ([c] + b);
  }

  /** The texts `ts` separated by `sep`. */
  function Join(ts: seq<seq<char>>, sep: char): seq<char>
  {
    if ts == [] then [] else if |ts| == 1 then ts[0] else ts[0] + [sep] + Join(ts[1..], sep)
  }

  /** `Join(ts, sep)` stands at `p`, stated text by text and separator by separator. */
  predicate JoinedAt(s: seq<char>, p: nat, ts: seq<seq<char>>, sep: char)
    decreases |ts|
  {
    if ts == [] then p <= |s|
    else
      && At(s, p, ts[0])
      && (|ts| == 1 || (p + |ts[0]| < |s| && s[p + |ts[0]|] == sep && JoinedAt(s, p + |ts[0]| + 1, ts[1..], sep)))
  }

  lemma {:induction false} JoinedAtOf(s: seq<char>, p: nat, ts: seq<seq<char>>, sep: char)
    requires At(s, p, Join(ts, sep))
    ensures JoinedAt(s, p, ts, sep)
    decreases |ts|
  {
    if |ts| >= 2 {
      var head, tail := ts[0], Join(ts[1..], sep);
      assert Join(ts, sep) == head + ([sep] + tail);
      AtSplit(s, p, head, [sep] + tail);
      AtSplit(s, p + |head|, [sep], tail);
      AtChar(s, p + |head|, sep);
      JoinedAtOf(s, p + |head| + 1, ts[1..], sep);
    }
  }

  lemma {:induction false} JoinedAtTo(s: seq<char>, p: nat, ts: seq<seq<char>>, sep: char)
    requires JoinedAt(s, p, ts, sep)
    ensures At(s, p, Join(ts, sep))
    decreases |ts|
  {
    if |ts| >= 2 {
      var head, tail := ts[0], Join(ts[1..], sep);
      JoinedAtTo(s, p + |head| + 1, ts[1..], sep);
      AtChar(s, p + |head|, sep);
      AtJoin(s, p + |head|, [sep], tail);
      AtJoin(s, p, head, [sep] + tail);
      assert Join(ts, sep) == head + ([sep] + tail);
    }
  }
}
