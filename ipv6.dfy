/**
 * The IPv6 host matcher of the URI parser: the nine alternatives of `IPv6address`
 * (RFC 3986 section 3.2.2), each tried in order at the same start position.
 *
 *   1                            6( h16 ":" ) ls32
 *   2                       "::" 5( h16 ":" ) ls32
 *   3   [               h16 ] "::" 4( h16 ":" ) ls32
 *   4   [ *1( h16 ":" ) h16 ] "::" 3( h16 ":" ) ls32
 *   5   [ *2( h16 ":" ) h16 ] "::" 2( h16 ":" ) ls32
 *   6   [ *3( h16 ":" ) h16 ] "::"    h16 ":"   ls32
 *   7   [ *4( h16 ":" ) h16 ] "::"              ls32
 *   8   [ *5( h16 ":" ) h16 ] "::"              h16
 *   9   [ *6( h16 ":" ) h16 ] "::"
 */
module IPv6 {
  import opened Wrappers
  import opened Spans
  import opened Traits
  import opened IPv4

  predicate HexAt(s: seq<char>, p: nat) { p < |s| && IsHexDigit(s[p]) }

  predicate ColonAt(s: seq<char>, p: nat) { p < |s| && s[p] == ':' }

  /** The longest run of at most `max` hex digits at `p`. */
  function HexRun(s: seq<char>, p: nat, max: nat): (n: nat)
    requires p <= |s|
    ensures n <= max && p + n <= |s|
    decreases max, |s| - p
  {
    if max == 0 || !HexAt(s, p) then 0 else 1 + HexRun(s, p + 1, max - 1)
  }

  /** `HexRun` takes hex digits only, and stops early only before a non-hex character. */
  lemma {:induction false} HexRunSpec(s: seq<char>, p: nat, max: nat)
    requires p <= |s|
    ensures var n := HexRun(s, p, max);
      && (forall i :: p <= i < p + n ==> IsHexDigit(s[i]))
      && (n < max ==> !HexAt(s, p + n))
    decreases max
  {
    if max > 0 && HexAt(s, p) {
      HexRunSpec(s, p + 1, max - 1);
    }
  }

  /** h16 = 1*4HEXDIG, matched longest-first; 0 when no hex digit stands at `p`. */
  function ParseH16(s: seq<char>, p: nat): (n: nat)
    requires p <= |s|
    ensures n <= 4 && p + n <= |s|
  {
    HexRun(s, p, 4)
  }

  /** The outcome of matching a part of an address: how many characters it took. */
  datatype Match = NoMatch | Matched(len: nat)

  /** What follows the mandatory groups of an alternative. */
  datatype TailKind = Ls32Tail | H16Tail | NoTail

  /**
   * How many 16-bit groups a tail of this kind stands for; it also orders the kinds,
   * as ls32 contains an h16 tail, which contains none.
   */
  function KindWidth(kind: TailKind): nat
  {
    match kind
    case Ls32Tail => 2
    case H16Tail => 1
    case NoTail => 0
  }

  /**
   * ls32 = ( h16 ":" h16 ) / IPv4address, the embedded IPv4 form tried first;
   * `h16 ":" h16` is one group followed by an h16 tail.
   */
  function ParseLs32(s: seq<char>, p: nat): (n: nat)
    requires p <= |s|
    ensures p + n <= |s|
    decreases 2, 0, 0, |s| - p
  {
    var v4 := ParseIPv4Address(s, p);
    if v4 > 0 then v4
    else
      match ParseGroupsThen(s, p, 1, H16Tail)
      case Matched(m) => m
      case NoMatch => 0
  }

  function ParseTail(s: seq<char>, p: nat, kind: TailKind): (r: Match)
    requires p <= |s|
    ensures r.Matched? ==> p + r.len <= |s|
    decreases KindWidth(kind), 0, 1, |s| - p
  {
    match kind
    case Ls32Tail => var n := ParseLs32(s, p); if n == 0 then NoMatch else Matched(n)
    case H16Tail => var n := ParseH16(s, p); if n == 0 then NoMatch else Matched(n)
    case NoTail => Matched(0)
  }

  /** Exactly `k` groups `h16 ":"`, then the tail. */
  function ParseGroupsThen(s: seq<char>, p: nat, k: nat, kind: TailKind): (r: Match)
    requires p <= |s|
    ensures r.Matched? ==> p + r.len <= |s|
    decreases KindWidth(kind), k, 2, |s| - p
  {
    if k == 0 then ParseTail(s, p, kind)
    else
      var h := ParseH16(s, p);
      if h > 0 && ColonAt(s, p + h) then Shift(ParseGroupsThen(s, p + h + 1, k - 1, kind), h + 1)
      else NoMatch
  }

  /** A match length `d` characters further left. */
  function Shift(r: Match, d: nat): (r': Match)
    ensures r'.Matched? <==> r.Matched?
    ensures r.Matched? ==> r'.len == r.len + d
  {
    match r
    case Matched(n) => Matched(n + d)
    case NoMatch => NoMatch
  }

  /**
   * The optional part before "::": `h16 *( ":" h16 )` with at most `max` groups,
   * taken greedily; a ":" is consumed only when a further group follows it.
   */
  function ParseH16List(s: seq<char>, p: nat, max: nat): (n: nat)
    requires p <= |s|
    ensures p + n <= |s|
    decreases max, |s| - p
  {
    var h := ParseH16(s, p);
    if max == 0 || h == 0 then 0
    else if max > 1 && ColonAt(s, p + h) && HexAt(s, p + h + 1) then
      h + 1 + ParseH16List(s, p + h + 1, max - 1)
    else h
  }

  /** A compressed alternative: at most `before` groups, "::", `after` groups, the tail. */
  datatype Line = Line(before: nat, after: nat, tail: TailKind)

  /** Alternatives 2 to 9, in the order they are tried. */
  const CompressedLines: seq<Line> := [
    Line(0, 5, Ls32Tail), Line(1, 4, Ls32Tail), Line(2, 3, Ls32Tail), Line(3, 2, Ls32Tail),
    Line(4, 1, Ls32Tail), Line(5, 0, Ls32Tail), Line(6, 0, H16Tail), Line(7, 0, NoTail)
  ]

  /** Alternative 1: six groups `h16 ":"`, then ls32. */
  function ParseUncompressed(s: seq<char>, p: nat): (r: Match)
    requires p <= |s|
    ensures r.Matched? ==> p + r.len <= |s|
  {
    ParseGroupsThen(s, p, 6, Ls32Tail)
  }

  function ParseCompressed(s: seq<char>, p: nat, line: Line): (r: Match)
    requires p <= |s|
    ensures r.Matched? ==> p + r.len <= |s|
  {
    var a := ParseH16List(s, p, line.before);
    var q := p + a;
    if ColonAt(s, q) && ColonAt(s, q + 1) then
      match ParseGroupsThen(s, q + 2, line.after, line.tail)
      case Matched(m) => Matched(a + 2 + m)
      case NoMatch => NoMatch
    else NoMatch
  }

  function FirstCompressed(s: seq<char>, p: nat, i: nat): (n: nat)
    requires p <= |s|
    ensures p + n <= |s|
    decreases |CompressedLines| - i, |s| - p
  {
    if i >= |CompressedLines| then 0
    else
      match ParseCompressed(s, p, CompressedLines[i])
      case Matched(m) => m
      case NoMatch => FirstCompressed(s, p, i + 1)
  }

  /** The IPv6 matcher: the length of the first alternative that matches at `p`, or 0. */
  function ParseIPv6Address(s: seq<char>, p: nat): (n: nat)
    requires p <= |s|
    ensures p + n <= |s|
  {
    match ParseUncompressed(s, p)
    case Matched(m) => m
    case NoMatch => FirstCompressed(s, p, 0)
  }

  // ---------------------------------------------------------------------------
  // The grammar, stated independently of the matcher: the texts of RFC 3986's
  // nine IPv6address lines, built from their parts.

  predicate IsH16(g: seq<char>) { 1 <= |g| <= 4 && forall i :: 0 <= i < |g| ==> IsHexDigit(g[i]) }

  predicate AllH16(gs: seq<seq<char>>) { forall i :: 0 <= i < |gs| ==> IsH16(gs[i]) }

  datatype Ls32 = HexPair(hi: seq<char>, lo: seq<char>) | Dotted(octets: seq<seq<char>>)

  datatype Tail = TailLs32(ls32: Ls32) | TailH16(last: seq<char>) | TailNone

  /** An IPv6 address: line 1, or one of lines 2-9 by the place of its "::". */
  datatype IPv6Literal =
    | Uncompressed(groups: seq<seq<char>>, last: Ls32)
    | Compressed(before: seq<seq<char>>, after: seq<seq<char>>, tail: Tail)

  predicate Ls32Valid(l: Ls32)
  {
    match l
    case HexPair(hi, lo) => IsH16(hi) && IsH16(lo)
    case Dotted(os) => |os| == 4 && AllDecOctets(os)
  }

  predicate TailValid(t: Tail)
  {
    match t
    case TailLs32(l) => Ls32Valid(l)
    case TailH16(g) => IsH16(g)
    case TailNone => true
  }

  /** How many 16-bit groups the tail stands for. */
  function Width(t: Tail): nat
  {
    match t
    case TailLs32(_) => 2
    case TailH16(_) => 1
    case TailNone => 0
  }

  function KindOf(t: Tail): TailKind
  {
    match t
    case TailLs32(_) => Ls32Tail
    case TailH16(_) => H16Tail
    case TailNone => NoTail
  }

  /**
   * The limits of the nine lines: six groups and ls32 without "::"; with "::", an ls32
   * tail leaves room for at most five more groups, an h16 tail for six before "::",
   * and no tail for seven.
   */
  predicate Valid(lit: IPv6Literal)
  {
    match lit
    case Uncompressed(gs, l) => |gs| == 6 && AllH16(gs) && Ls32Valid(l)
    case Compressed(pre, post, t) =>
      && AllH16(pre) && AllH16(post) && TailValid(t)
      && match t
         case TailLs32(_) => |pre| + |post| <= 5
         case TailH16(_) => post == [] && |pre| <= 6
         case TailNone => post == [] && |pre| <= 7
  }

  /**
   * The RFC line (1-9) a valid literal belongs to; a compressed literal fits the limits
   * of its line among `CompressedLines`: as many groups after "::" and the same kind of
   * tail, and no more groups before "::" than the line allows.
   */
  function LineOf(lit: IPv6Literal): (n: nat)
    requires Valid(lit)
    ensures 1 <= n <= 9
    ensures n == 1 <==> lit.Uncompressed?
    ensures lit.Compressed? ==>
      && n == LineIndex(lit.after, lit.tail) + 2
      && CompressedLines[n - 2].after == |lit.after|
      && CompressedLines[n - 2].tail == KindOf(lit.tail)
      && |lit.before| <= CompressedLines[n - 2].before
  {
    match lit
    case Uncompressed(_, _) => 1
    case Compressed(_, post, t) => 9 - |post| - Width(t)
  }

  /** Each group followed by ":". */
  function ColonTerminated(gs: seq<seq<char>>): seq<char>
  {
    if gs == [] then [] else gs[0] + ":" + ColonTerminated(gs[1..])
  }

  function RenderLs32(l: Ls32): seq<char>
  {
    match l
    case HexPair(hi, lo) => hi + ":" + lo
    case Dotted(os) => Join(os, '.')
  }

  function RenderTail(t: Tail): seq<char>
  {
    match t
    case TailLs32(l) => RenderLs32(l)
    case TailH16(g) => g
    case TailNone => []
  }

  /** The text of an address literal. */
  function Render(lit: IPv6Literal): seq<char>
  {
    match lit
    case Uncompressed(gs, l) => ColonTerminated(gs) + RenderLs32(l)
    case Compressed(pre, post, t) => Join(pre, ':') + "::" + ColonTerminated(post) + RenderTail(t)
  }

  /** Position `q` ends an address: the end of the input or a character no address continues with. */
  predicate Boundary(s: seq<char>, q: nat)
  {
    q >= |s| || !(IsHexDigit(s[q]) || s[q] == ':' || s[q] == '.')
  }

  /** The length of `ColonTerminated(gs)`, group by group. */
  function GroupsLength(gs: seq<seq<char>>): nat
  {
    if gs == [] then 0 else |gs[0]| + 1 + GroupsLength(gs[1..])
  }

  function Ls32Length(l: Ls32): nat
  {
    match l
    case HexPair(hi, lo) => |hi| + 1 + |lo|
    case Dotted(os) => |Join(os, '.')|
  }

  function TailLength(t: Tail): nat
  {
    match t
    case TailLs32(l) => Ls32Length(l)
    case TailH16(g) => |g|
    case TailNone => 0
  }

  /** The length of an address literal's text, part by part. */
  function Size(lit: IPv6Literal): nat
  {
    match lit
    case Uncompressed(gs, l) => GroupsLength(gs) + Ls32Length(l)
    case Compressed(pre, post, t) => PrefixLength(pre) + GroupsLength(post) + TailLength(t)
  }

  /** The length of the groups before "::" together with the "::". */
  function PrefixLength(pre: seq<seq<char>>): nat
  {
    if pre == [] then 2 else GroupsLength(pre) + 1
  }

  lemma {:induction false} GroupsLengthOf(gs: seq<seq<char>>)
    ensures |ColonTerminated(gs)| == GroupsLength(gs)
    decreases |gs|
  {
    if gs != [] {
      GroupsLengthOf(gs[1..]);
    }
  }

  lemma {:induction false} TailLengthOf(t: Tail)
    ensures |RenderTail(t)| == TailLength(t)
  {
  }

  lemma {:induction false} RenderSize(lit: IPv6Literal)
    ensures |Render(lit)| == Size(lit)
  {
    match lit
    case Uncompressed(gs, l) => GroupsLengthOf(gs);
    case Compressed(pre, post, t) =>
      GroupsLengthOf(post);
      if pre != [] {
        JoinColonTerminated(pre);
        GroupsLengthOf(pre);
      }
      assert |Join(pre, ':') + "::"| == PrefixLength(pre);
  }

  /** Groups joined by ":" and one more ":" are the colon-terminated groups. */
  lemma {:induction false} JoinColonTerminated(gs: seq<seq<char>>)
    requires gs != []
    ensures Join(gs, ':') + ":" == ColonTerminated(gs)
    decreases |gs|
  {
    if |gs| == 1 {
      assert ColonTerminated(gs[1..]) == [];
    } else {
      JoinColonTerminated(gs[1..]);
      assert Join(gs, ':') + ":" == gs[0] + ":" + (Join(gs[1..], ':') + ":");
    }
  }

  // ---------------------------------------------------------------------------
  // The text of a literal, stated part by part at its position in the input.

  /** `ColonTerminated(gs)` stands at `p`, group by group, and every group is an h16. */
  predicate GroupsAt(s: seq<char>, p: nat, gs: seq<seq<char>>)
    decreases |gs|
  {
    if gs == [] then p <= |s|
    else IsH16(gs[0]) && At(s, p, gs[0]) && ColonAt(s, p + |gs[0]|) && GroupsAt(s, p + |gs[0]| + 1, gs[1..])
  }

  predicate Ls32At(s: seq<char>, p: nat, l: Ls32)
  {
    match l
    case HexPair(hi, lo) => At(s, p, hi) && ColonAt(s, p + |hi|) && At(s, p + |hi| + 1, lo)
    case Dotted(os) => JoinedAt(s, p, os, '.')
  }

  predicate TailAt(s: seq<char>, p: nat, t: Tail)
  {
    match t
    case TailLs32(l) => Ls32At(s, p, l)
    case TailH16(g) => At(s, p, g)
    case TailNone => p <= |s|
  }

  lemma {:induction false} AllH16Tail(gs: seq<seq<char>>)
    requires gs != [] && AllH16(gs)
    ensures AllH16(gs[1..])
  {
    forall i | 0 <= i < |gs[1..]| ensures IsH16(gs[1..][i]) {
      assert gs[1..][i] == gs[i + 1];
    }
  }

  lemma {:induction false} GroupsAtOf(s: seq<char>, p: nat, gs: seq<seq<char>>)
    requires AllH16(gs) && At(s, p, ColonTerminated(gs))
    ensures GroupsAt(s, p, gs)
    decreases |gs|
  {
    if gs != [] {
      AtAround(s, p, gs[0], ':', ColonTerminated(gs[1..]));
      AllH16Tail(gs);
      GroupsAtOf(s, p + |gs[0]| + 1, gs[1..]);
    }
  }

  lemma {:induction false} GroupsEnd(s: seq<char>, p: nat, gs: seq<seq<char>>)
    requires GroupsAt(s, p, gs)
    ensures p + GroupsLength(gs) <= |s|
    decreases |gs|
  {
    if gs != [] {
      GroupsEnd(s, p + |gs[0]| + 1, gs[1..]);
    }
  }

  lemma {:induction false} Ls32AtOf(s: seq<char>, p: nat, l: Ls32)
    requires At(s, p, RenderLs32(l))
    ensures Ls32At(s, p, l)
  {
    match l
    case HexPair(hi, lo) => AtAround(s, p, hi, ':', lo);
    case Dotted(os) => JoinedAtOf(s, p, os, '.');
  }

  lemma {:induction false} TailAtOf(s: seq<char>, p: nat, t: Tail)
    requires At(s, p, RenderTail(t))
    ensures TailAt(s, p, t)
  {
    match t
    case TailLs32(l) => Ls32AtOf(s, p, l);
    case TailH16(g) =>
    case TailNone => AtLength(s, p, []);
  }

  lemma {:induction false} UncompressedAtOf(s: seq<char>, p: nat, gs: seq<seq<char>>, l: Ls32)
    requires AllH16(gs) && At(s, p, ColonTerminated(gs) + RenderLs32(l))
    ensures GroupsAt(s, p, gs) && Ls32At(s, p + GroupsLength(gs), l)
  {
    AtSplit(s, p, ColonTerminated(gs), RenderLs32(l));
    GroupsAtOf(s, p, gs);
    GroupsLengthOf(gs);
    Ls32AtOf(s, p + |ColonTerminated(gs)|, l);
  }

  /** "::" at `p + PrefixLength(pre) - 2`, after the groups before it. */
  predicate PrefixAt(s: seq<char>, p: nat, pre: seq<seq<char>>)
  {
    if pre == [] then ColonAt(s, p) && ColonAt(s, p + 1)
    else GroupsAt(s, p, pre) && ColonAt(s, p + GroupsLength(pre))
  }

  lemma {:induction false} CompressedAtOf(s: seq<char>, p: nat, pre: seq<seq<char>>, post: seq<seq<char>>, t: Tail)
    requires AllH16(pre) && AllH16(post) && At(s, p, Join(pre, ':') + "::" + ColonTerminated(post) + RenderTail(t))
    ensures PrefixAt(s, p, pre)
    ensures GroupsAt(s, p + PrefixLength(pre), post)
    ensures TailAt(s, p + PrefixLength(pre) + GroupsLength(post), t)
  {
    var ct, rt := ColonTerminated(post), RenderTail(t);
    if pre == [] {
      assert Join(pre, ':') + "::" + ct + rt == [] + "::" + ct + rt;
      AtSplit4(s, p, [], "::", ct, rt);
      DoubleColonAt(s, p);
    } else {
      JoinColonTerminated(pre);
      assert Join(pre, ':') + "::" + ct + rt == ColonTerminated(pre) + ":" + ct + rt;
      AtSplit4(s, p, ColonTerminated(pre), ":", ct, rt);
      GroupsAtOf(s, p, pre);
      GroupsLengthOf(pre);
      AtChar(s, p + GroupsLength(pre), ':');
    }
    PostAtOf(s, p + PrefixLength(pre), post, t);
  }

  lemma {:induction false} PostAtOf(s: seq<char>, q: nat, post: seq<seq<char>>, t: Tail)
    requires AllH16(post) && At(s, q, ColonTerminated(post)) && At(s, q + |ColonTerminated(post)|, RenderTail(t))
    ensures GroupsAt(s, q, post)
    ensures TailAt(s, q + GroupsLength(post), t)
  {
    GroupsAtOf(s, q, post);
    GroupsLengthOf(post);
    TailAtOf(s, q + |ColonTerminated(post)|, t);
  }

  lemma {:induction false} DoubleColonAt(s: seq<char>, q: nat)
    requires At(s, q, "::")
    ensures ColonAt(s, q) && ColonAt(s, q + 1)
  {
    AtIndex(s, q, "::", 0);
    AtIndex(s, q, "::", 1);
  }

  // ---------------------------------------------------------------------------
  // Completeness: the matcher takes the text of every valid literal exactly.

  lemma {:induction false} HexRunExact(s: seq<char>, p: nat, g: seq<char>, max: nat)
    requires p <= |s| && |g| <= max && At(s, p, g)
    requires forall i :: 0 <= i < |g| ==> IsHexDigit(g[i])
    requires |g| < max ==> !HexAt(s, p + |g|)
    ensures HexRun(s, p, max) == |g|
    decreases max
  {
    if g != [] {
      AtFirst(s, p, g);
      assert IsHexDigit(g[0]);
      assert forall i :: 0 <= i < |g[1..]| ==> IsHexDigit(g[1..][i]) by {
        forall i | 0 <= i < |g[1..]| ensures IsHexDigit(g[1..][i]) {
          assert g[1..][i] == g[i + 1];
        }
      }
      HexRunExact(s, p + 1, g[1..], max - 1);
    }
  }

  /** A group followed by a non-hex character is matched exactly. */
  lemma {:induction false} H16Exact(s: seq<char>, p: nat, g: seq<char>)
    requires IsH16(g) && At(s, p, g) && !HexAt(s, p + |g|)
    ensures ParseH16(s, p) == |g|
  {
    AtLength(s, p, g);
    HexRunExact(s, p, g, 4);
  }

  /**
   * The embedded-IPv4 attempt fails on a hex group followed by neither a hex digit
   * nor a dot: the dec-octet it reads ends inside the group or at its end, where no
   * "." follows.
   */
  lemma {:induction false} IPv4MissesHexGroup(s: seq<char>, p: nat, g: seq<char>)
    requires IsH16(g) && At(s, p, g) && !HexAt(s, p + |g|)
    requires p + |g| < |s| ==> s[p + |g|] != '.'
    ensures ParseIPv4Address(s, p) == 0
  {
    AtLength(s, p, g);
    var a := ParseDecOctet(s, p);
    DecOctetDigits(s, p);
    if 0 < a < |g| {
      AtIndex(s, p, g, a);
    }
  }

  /** An ls32 tail followed by a boundary is matched exactly. */
  lemma {:induction false} Ls32Exact(s: seq<char>, p: nat, l: Ls32)
    requires Ls32Valid(l) && Ls32At(s, p, l) && Boundary(s, p + Ls32Length(l))
    ensures ParseTail(s, p, Ls32Tail) == Matched(Ls32Length(l))
  {
    if l.HexPair? {
      Ls32PairExact(s, p, l);
    } else {
      Ls32DottedExact(s, p, l);
    }
  }

  lemma {:induction false} Ls32PairExact(s: seq<char>, p: nat, l: Ls32)
    requires l.HexPair? && Ls32Valid(l) && Ls32At(s, p, l) && Boundary(s, p + Ls32Length(l))
    ensures ParseTail(s, p, Ls32Tail) == Matched(Ls32Length(l))
  {
    HexPairExact(s, p, l.hi, l.lo);
  }

  lemma {:induction false} Ls32DottedExact(s: seq<char>, p: nat, l: Ls32)
    requires l.Dotted? && Ls32Valid(l) && Ls32At(s, p, l) && Boundary(s, p + Ls32Length(l))
    ensures ParseTail(s, p, Ls32Tail) == Matched(Ls32Length(l))
  {
    DottedQuadExact(s, p, l.octets);
  }

  /** `h16 ":" h16`: the embedded-IPv4 attempt fails on the first group, then both groups are read. */
  lemma {:induction false} HexPairExact(s: seq<char>, p: nat, hi: seq<char>, lo: seq<char>)
    requires IsH16(hi) && IsH16(lo)
    requires At(s, p, hi) && ColonAt(s, p + |hi|) && At(s, p + |hi| + 1, lo)
    requires Boundary(s, p + |hi| + 1 + |lo|)
    ensures ParseTail(s, p, Ls32Tail) == Matched(|hi| + 1 + |lo|)
  {
    IPv4MissesHexGroup(s, p, hi);
    H16TailExact(s, p + |hi| + 1, lo);
    GroupsStep(s, p, hi, 0, 1, H16Tail);
    Ls32ByGroups(s, p, |hi| + 1 + |lo|);
  }

  lemma {:induction false} H16TailExact(s: seq<char>, p: nat, g: seq<char>)
    requires IsH16(g) && At(s, p, g) && !HexAt(s, p + |g|)
    ensures ParseGroupsThen(s, p, 0, H16Tail) == Matched(|g|)
  {
    H16Exact(s, p, g);
  }

  /** Where no IPv4 address stands, ls32 is read as `h16 ":" h16`. */
  lemma {:induction false} Ls32ByGroups(s: seq<char>, p: nat, n: nat)
    requires p <= |s| && ParseIPv4Address(s, p) == 0
    requires ParseGroupsThen(s, p, 1, H16Tail) == Matched(n)
    ensures ParseTail(s, p, Ls32Tail) == Matched(n)
  {
  }

  /** The dotted quad: the embedded-IPv4 attempt reads it whole. */
  lemma {:induction false} DottedQuadExact(s: seq<char>, p: nat, os: seq<seq<char>>)
    requires |os| == 4 && AllDecOctets(os) && JoinedAt(s, p, os, '.')
    requires Boundary(s, p + |Join(os, '.')|)
    ensures ParseTail(s, p, Ls32Tail) == Matched(|Join(os, '.')|)
  {
    JoinedAtTo(s, p, os, '.');
    AtLength(s, p, Join(os, '.'));
    DottedComplete(s, p, os);
    Ls32ByIPv4(s, p);
  }

  /** Where an IPv4 address stands, ls32 is that address. */
  lemma {:induction false} Ls32ByIPv4(s: seq<char>, p: nat)
    requires p <= |s| && ParseIPv4Address(s, p) > 0
    ensures ParseTail(s, p, Ls32Tail) == Matched(ParseIPv4Address(s, p))
  {
  }

  /** A tail followed by a boundary is matched exactly. */
  lemma {:induction false} TailExact(s: seq<char>, p: nat, t: Tail)
    requires TailValid(t) && TailAt(s, p, t) && Boundary(s, p + TailLength(t))
    ensures ParseTail(s, p, KindOf(t)) == Matched(TailLength(t))
  {
    match t
    case TailLs32(l) => Ls32Exact(s, p, l);
    case TailH16(g) => H16Exact(s, p, g);
    case TailNone =>
  }

  /** One group `h16 ":"` read; the `k` groups after it and the tail decide. */
  lemma {:induction false} GroupsStep(s: seq<char>, p: nat, g: seq<char>, k: nat, n: nat, kind: TailKind)
    requires p <= |s| && IsH16(g) && At(s, p, g) && ColonAt(s, p + |g|) && n == k + 1
    ensures ParseGroupsThen(s, p, n, kind) == Shift(ParseGroupsThen(s, p + |g| + 1, k, kind), |g| + 1)
  {
    H16Exact(s, p, g);
  }

  /** With no groups left to read, the tail decides. */
  lemma {:induction false} ThenTail(s: seq<char>, p: nat, kind: TailKind)
    requires p <= |s|
    ensures ParseGroupsThen(s, p, 0, kind) == ParseTail(s, p, kind)
  {
  }

  lemma {:induction false} GroupsStepMatched(s: seq<char>, p: nat, g: seq<char>, k: nat, n: nat, kind: TailKind, v: nat)
    requires p <= |s| && IsH16(g) && At(s, p, g) && ColonAt(s, p + |g|) && n == k + 1
    requires ParseGroupsThen(s, p + |g| + 1, k, kind) == Matched(v)
    ensures ParseGroupsThen(s, p, n, kind) == Matched(|g| + 1 + v)
  {
    GroupsStep(s, p, g, k, n, kind);
  }

  lemma {:induction false} GroupsStepNoMatch(s: seq<char>, p: nat, g: seq<char>, k: nat, n: nat, kind: TailKind)
    requires p <= |s| && IsH16(g) && At(s, p, g) && ColonAt(s, p + |g|) && n == k + 1
    requires ParseGroupsThen(s, p + |g| + 1, k, kind) == NoMatch
    ensures ParseGroupsThen(s, p, n, kind) == NoMatch
  {
    GroupsStep(s, p, g, k, n, kind);
  }

  lemma {:induction false} GroupsReadStep(s: seq<char>, p: nat, gs: seq<seq<char>>, kind: TailKind, x: nat, n: nat)
    requires gs != [] && GroupsAt(s, p, gs) && n == |gs|
    requires ParseGroupsThen(s, p + |gs[0]| + 1, |gs[1..]|, kind) == Matched(GroupsLength(gs[1..]) + x)
    ensures ParseGroupsThen(s, p, n, kind) == Matched(GroupsLength(gs) + x)
  {
    var g, v := gs[0], GroupsLength(gs[1..]) + x;
    assert GroupsLength(gs) + x == |g| + 1 + v;
    GroupsStepMatched(s, p, g, |gs[1..]|, n, kind, v);
  }

  lemma {:induction false} GroupsReadStepNoMatch(s: seq<char>, p: nat, gs: seq<seq<char>>, m: nat, kind: TailKind, n: nat)
    requires gs != [] && GroupsAt(s, p, gs) && n == |gs| + m
    requires ParseGroupsThen(s, p + |gs[0]| + 1, |gs[1..]| + m, kind) == NoMatch
    ensures ParseGroupsThen(s, p, n, kind) == NoMatch
  {
    GroupsStepNoMatch(s, p, gs[0], |gs[1..]| + m, n, kind);
  }

  /**
   * The `n` groups in the text are read one by one, then the tail as matched at `y`,
   * after them.
   */
  lemma {:induction false} GroupsThenRead(s: seq<char>, p: nat, gs: seq<seq<char>>, kind: TailKind, y: nat, x: nat, n: nat)
    requires GroupsAt(s, p, gs) && y == p + GroupsLength(gs) && y <= |s| && n == |gs|
    requires ParseGroupsThen(s, y, 0, kind) == Matched(x)
    ensures ParseGroupsThen(s, p, n, kind) == Matched(GroupsLength(gs) + x)
    decreases |gs|
  {
    if gs != [] {
      GroupsThenRead(s, p + |gs[0]| + 1, gs[1..], kind, y, x, |gs[1..]|);
      GroupsReadStep(s, p, gs, kind, x, n);
    }
  }

  /**
   * The groups in the text are read one by one, and the `m` groups expected at `y`,
   * after them, fail: so do `n` groups from `p`.
   */
  lemma {:induction false} GroupsThenReadNoMatch(s: seq<char>, p: nat, gs: seq<seq<char>>, m: nat, kind: TailKind, y: nat, n: nat)
    requires GroupsAt(s, p, gs) && y == p + GroupsLength(gs) && y <= |s| && n == |gs| + m
    requires ParseGroupsThen(s, y, m, kind) == NoMatch
    ensures ParseGroupsThen(s, p, n, kind) == NoMatch
    decreases |gs|
  {
    if gs != [] {
      GroupsThenReadNoMatch(s, p + |gs[0]| + 1, gs[1..], m, kind, y, |gs[1..]| + m);
      GroupsReadStepNoMatch(s, p, gs, m, kind, n);
    }
  }

  /** Groups, then a tail followed by a boundary: matched exactly. */
  lemma {:induction false} GroupsThenExact(s: seq<char>, p: nat, gs: seq<seq<char>>, t: Tail, n: nat, kind: TailKind)
    requires GroupsAt(s, p, gs) && n == |gs|
    requires TailValid(t) && TailAt(s, p + GroupsLength(gs), t) && kind == KindOf(t)
    requires Boundary(s, p + GroupsLength(gs) + TailLength(t))
    ensures ParseGroupsThen(s, p, n, kind) == Matched(GroupsLength(gs) + TailLength(t))
  {
    GroupsEnd(s, p, gs);
    TailExact(s, p + GroupsLength(gs), t);
    ThenTail(s, p + GroupsLength(gs), kind);
    GroupsThenRead(s, p, gs, kind, p + GroupsLength(gs), TailLength(t), n);
  }


  // ---------------------------------------------------------------------------
  // What the matcher rejects.

  /** With no hex digit at `z`, neither a group nor an IPv4 address starts there. */
  lemma {:induction false} NoHexNoMatch(s: seq<char>, z: nat, m: nat, kind: TailKind)
    requires z <= |s| && !HexAt(s, z) && kind != NoTail
    ensures ParseGroupsThen(s, z, m, kind) == NoMatch
  {
    assert ParseH16(s, z) == 0;
    if m == 0 && kind == Ls32Tail {
      assert ParseGroupsThen(s, z, 1, H16Tail) == NoMatch;
      assert ParseIPv4Address(s, z) == 0;
      assert ParseLs32(s, z) == 0;
    }
  }

  /** A group followed by neither a hex digit nor ":" ends the groups. */
  lemma {:induction false} GroupNoColon(s: seq<char>, z: nat, g: seq<char>, m: nat, kind: TailKind)
    requires IsH16(g) && At(s, z, g) && !HexAt(s, z + |g|) && !ColonAt(s, z + |g|) && m >= 1
    ensures ParseGroupsThen(s, z, m, kind) == NoMatch
  {
    H16Exact(s, z, g);
  }

  /** No ls32 starts at a group followed by neither "." nor ":" and a further group. */
  lemma {:induction false} Ls32MissesGroup(s: seq<char>, z: nat, g: seq<char>)
    requires IsH16(g) && At(s, z, g) && !HexAt(s, z + |g|)
    requires z + |g| < |s| ==> s[z + |g|] != '.'
    requires !(ColonAt(s, z + |g|) && HexAt(s, z + |g| + 1))
    ensures ParseGroupsThen(s, z, 0, Ls32Tail) == NoMatch
  {
    IPv4MissesHexGroup(s, z, g);
    if ColonAt(s, z + |g|) {
      NoHexNoMatch(s, z + |g| + 1, 0, H16Tail);
      GroupsStepNoMatch(s, z, g, 0, 1, H16Tail);
    } else {
      GroupNoColon(s, z, g, 1, H16Tail);
    }
    assert ParseLs32(s, z) == 0;
  }

  lemma {:induction false} OctetIsH16(o: seq<char>)
    requires IsDecOctet(o)
    ensures IsH16(o)
  {
  }

  /** An h16 at the end of a literal is no ls32, nor a group followed by more. */
  lemma {:induction false} H16Overrun(s: seq<char>, y: nat, g: seq<char>, m: nat, kind: TailKind)
    requires IsH16(g) && At(s, y, g) && Boundary(s, y + |g|)
    requires kind != NoTail && m + KindWidth(kind) > 1
    ensures ParseGroupsThen(s, y, m, kind) == NoMatch
  {
    if m == 0 {
      Ls32MissesGroup(s, y, g);
    } else {
      GroupNoColon(s, y, g, m, kind);
    }
  }

  /** `h16 ":" h16` at the end of a literal is all a line expecting more finds. */
  lemma {:induction false} PairOverrun(s: seq<char>, y: nat, hi: seq<char>, lo: seq<char>, m: nat, kind: TailKind)
    requires IsH16(hi) && IsH16(lo)
    requires At(s, y, hi) && ColonAt(s, y + |hi|) && At(s, y + |hi| + 1, lo)
    requires Boundary(s, y + |hi| + 1 + |lo|)
    requires kind != NoTail && m + KindWidth(kind) > 2
    ensures ParseGroupsThen(s, y, m, kind) == NoMatch
  {
    H16Overrun(s, y + |hi| + 1, lo, m - 1, kind);
    GroupsStepNoMatch(s, y, hi, m - 1, m, kind);
  }

  /** A dotted quad is no group: its first octet is followed by ".". */
  lemma {:induction false} DottedOverrun(s: seq<char>, y: nat, os: seq<seq<char>>, m: nat, kind: TailKind)
    requires |os| == 4 && AllDecOctets(os) && JoinedAt(s, y, os, '.') && m >= 1
    ensures ParseGroupsThen(s, y, m, kind) == NoMatch
  {
    OctetIsH16(os[0]);
    GroupNoColon(s, y, os[0], m, kind);
  }

  /** Where a tail ends a literal, a line expecting more than the tail fails. */
  lemma {:induction false} TailOverrun(s: seq<char>, y: nat, t: Tail, m: nat, kind: TailKind)
    requires TailValid(t) && TailAt(s, y, t) && Boundary(s, y + TailLength(t))
    requires kind != NoTail && m + KindWidth(kind) > Width(t)
    ensures ParseGroupsThen(s, y, m, kind) == NoMatch
  {
    match t
    case TailNone => NoHexNoMatch(s, y, m, kind);
    case TailH16(g) => H16Overrun(s, y, g, m, kind);
    case TailLs32(l) =>
      if l.HexPair? {
        PairOverrun(s, y, l.hi, l.lo, m, kind);
      } else {
        DottedOverrun(s, y, l.octets, m, kind);
      }
  }

  /** Where groups and a tail end a literal, a line expecting more fails. */
  lemma {:induction false} PostOverrun(s: seq<char>, x: nat, post: seq<seq<char>>, t: Tail, k: nat, kind: TailKind)
    requires GroupsAt(s, x, post) && TailValid(t) && TailAt(s, x + GroupsLength(post), t)
    requires Boundary(s, x + GroupsLength(post) + TailLength(t))
    requires kind != NoTail && |post| <= k && k + KindWidth(kind) > |post| + Width(t)
    ensures ParseGroupsThen(s, x, k, kind) == NoMatch
  {
    var m := k - |post|;
    GroupsEnd(s, x, post);
    TailOverrun(s, x + GroupsLength(post), t, m, kind);
    GroupsThenReadNoMatch(s, x, post, m, kind, x + GroupsLength(post), k);
  }

  // ---------------------------------------------------------------------------
  // The groups before "::".

  lemma {:induction false} GroupStartsHex(s: seq<char>, p: nat, gs: seq<seq<char>>)
    requires gs != [] && GroupsAt(s, p, gs)
    ensures HexAt(s, p)
  {
    AtIndex(s, p, gs[0], 0);
  }

  /** All groups before "::" are taken when the line allows as many. */
  lemma {:induction false} PrefixTaken(s: seq<char>, p: nat, pre: seq<seq<char>>, max: nat)
    requires pre != [] && GroupsAt(s, p, pre) && !HexAt(s, p + GroupsLength(pre)) && |pre| <= max
    ensures ParseH16List(s, p, max) == GroupsLength(pre) - 1
    decreases |pre|
  {
    var g := pre[0];
    H16Exact(s, p, g);
    if |pre| > 1 {
      GroupStartsHex(s, p + |g| + 1, pre[1..]);
      assert p + |g| + 1 + GroupsLength(pre[1..]) == p + GroupsLength(pre);
      PrefixTaken(s, p + |g| + 1, pre[1..], max - 1);
    } else {
      assert GroupsLength(pre[1..]) == 0;
    }
  }

  /**
   * A line allowing fewer groups before "::" than the text has stops at a ":"
   * followed by a group, not by a second ":".
   */
  lemma {:induction false} PrefixShort(s: seq<char>, p: nat, pre: seq<seq<char>>, max: nat)
    requires GroupsAt(s, p, pre) && max < |pre|
    ensures var a := ParseH16List(s, p, max); !(ColonAt(s, p + a) && ColonAt(s, p + a + 1))
    decreases max
  {
    GroupStartsHex(s, p, pre);
    if max > 0 {
      var g := pre[0];
      H16Exact(s, p, g);
      GroupStartsHex(s, p + |g| + 1, pre[1..]);
      if max > 1 {
        PrefixShort(s, p + |g| + 1, pre[1..], max - 1);
      }
    }
  }

  /** The groups before "::" are read, and end right before the "::". */
  lemma {:induction false} PrefixRead(s: seq<char>, p: nat, pre: seq<seq<char>>, max: nat)
    requires PrefixAt(s, p, pre) && |pre| <= max
    ensures ParseH16List(s, p, max) + 2 == PrefixLength(pre)
  {
    if pre == [] {
    } else {
      PrefixTaken(s, p, pre, max);
    }
  }

  lemma {:induction false} GroupsLastColon(s: seq<char>, p: nat, gs: seq<seq<char>>)
    requires gs != [] && GroupsAt(s, p, gs)
    ensures GroupsLength(gs) >= 1 && ColonAt(s, p + GroupsLength(gs) - 1)
    decreases |gs|
  {
    if |gs| > 1 {
      GroupsLastColon(s, p + |gs[0]| + 1, gs[1..]);
    }
  }

  /** The "::" ends at `p + PrefixLength(pre)`. */
  lemma {:induction false} PrefixDoubleColon(s: seq<char>, p: nat, pre: seq<seq<char>>)
    requires PrefixAt(s, p, pre)
    ensures PrefixLength(pre) >= 2
    ensures ColonAt(s, p + PrefixLength(pre) - 2) && ColonAt(s, p + PrefixLength(pre) - 1)
  {
    if pre != [] {
      GroupsLastColon(s, p, pre);
    }
  }

  /** The first `k` groups in the text, and the others after them. */
  lemma {:induction false} GroupsAtSplit(s: seq<char>, p: nat, gs: seq<seq<char>>, k: nat)
    requires GroupsAt(s, p, gs) && k <= |gs|
    ensures GroupsAt(s, p, gs[..k]) && GroupsAt(s, p + GroupsLength(gs[..k]), gs[k..])
    decreases k
  {
    if k == 0 {
      assert gs[k..] == gs;
      GroupsEnd(s, p, gs);
    } else {
      assert gs[..k][0] == gs[0] && gs[..k][1..] == gs[1..][..k - 1] && gs[k..] == gs[1..][k - 1..];
      GroupsAtSplit(s, p + |gs[0]| + 1, gs[1..], k - 1);
    }
  }

  lemma {:induction false} GroupsLengthSplit(gs: seq<seq<char>>, k: nat)
    requires k <= |gs|
    ensures GroupsLength(gs) == GroupsLength(gs[..k]) + GroupsLength(gs[k..])
    decreases k
  {
    if k == 0 {
      assert gs[k..] == gs;
    } else {
      assert gs[..k][0] == gs[0] && gs[..k][1..] == gs[1..][..k - 1] && gs[k..] == gs[1..][k - 1..];
      GroupsLengthSplit(gs[1..], k - 1);
    }
  }

  // ---------------------------------------------------------------------------
  // The nine lines against the text of a literal.

  /** A compressed line from its parts: the groups before "::", the "::", the rest at `y`. */
  lemma {:induction false} CompressedByParts(s: seq<char>, p: nat, line: Line, a: nat, y: nat, m: nat, r: nat)
    requires p <= |s| && ParseH16List(s, p, line.before) == a
    requires ColonAt(s, p + a) && ColonAt(s, p + a + 1) && y == p + a + 2
    requires ParseGroupsThen(s, y, line.after, line.tail) == Matched(m) && r == a + 2 + m
    ensures ParseCompressed(s, p, line) == Matched(r)
  {
  }

  lemma {:induction false} CompressedByPartsNoMatch(s: seq<char>, p: nat, line: Line, a: nat, y: nat)
    requires p <= |s| && ParseH16List(s, p, line.before) == a
    requires ColonAt(s, p + a) && ColonAt(s, p + a + 1) && y == p + a + 2
    requires ParseGroupsThen(s, y, line.after, line.tail) == NoMatch
    ensures ParseCompressed(s, p, line) == NoMatch
  {
  }

  /** The text of a compressed literal, part by part. */
  predicate CompressedTextAt(s: seq<char>, p: nat, pre: seq<seq<char>>, post: seq<seq<char>>, t: Tail)
  {
    && PrefixAt(s, p, pre)
    && GroupsAt(s, p + PrefixLength(pre), post)
    && TailAt(s, p + PrefixLength(pre) + GroupsLength(post), t)
    && Boundary(s, p + PrefixLength(pre) + GroupsLength(post) + TailLength(t))
  }

  /** The line shaped like the literal takes it whole. */
  lemma {:induction false} CompressedLineExact(s: seq<char>, p: nat, pre: seq<seq<char>>, post: seq<seq<char>>, t: Tail, line: Line)
    requires CompressedTextAt(s, p, pre, post, t) && TailValid(t)
    requires |pre| <= line.before && line.after == |post| && line.tail == KindOf(t)
    ensures ParseCompressed(s, p, line) == Matched(PrefixLength(pre) + GroupsLength(post) + TailLength(t))
  {
    PrefixRead(s, p, pre, line.before);
    PrefixDoubleColon(s, p, pre);
    var a := ParseH16List(s, p, line.before);
    var y := p + PrefixLength(pre);
    GroupsThenExact(s, y, post, t, line.after, line.tail);
    GroupsEnd(s, y, post);
    CompressedByParts(s, p, line, a, y, GroupsLength(post) + TailLength(t), PrefixLength(pre) + GroupsLength(post) + TailLength(t));
  }

  /** A line expecting more groups or a longer tail after "::" than the literal has fails. */
  lemma {:induction false} CompressedLineOverrun(s: seq<char>, p: nat, pre: seq<seq<char>>, post: seq<seq<char>>, t: Tail, line: Line)
    requires CompressedTextAt(s, p, pre, post, t) && TailValid(t)
    requires |pre| <= line.before && line.tail != NoTail && |post| <= line.after
    requires line.after + KindWidth(line.tail) > |post| + Width(t)
    ensures ParseCompressed(s, p, line) == NoMatch
  {
    PrefixRead(s, p, pre, line.before);
    PrefixDoubleColon(s, p, pre);
    var a := ParseH16List(s, p, line.before);
    var y := p + PrefixLength(pre);
    PostOverrun(s, y, post, t, line.after, line.tail);
    CompressedByPartsNoMatch(s, p, line, a, y);
  }

  /** A line allowing fewer groups before "::" than the literal has fails. */
  lemma {:induction false} CompressedLineShort(s: seq<char>, p: nat, pre: seq<seq<char>>, line: Line)
    requires PrefixAt(s, p, pre) && line.before < |pre|
    ensures ParseCompressed(s, p, line) == NoMatch
  {
    PrefixShort(s, p, pre, line.before);
  }

  /** Line 1 fails on a compressed literal: a "::" stands where it expects a group or ls32. */
  lemma {:induction false} UncompressedMisses(s: seq<char>, p: nat, pre: seq<seq<char>>)
    requires PrefixAt(s, p, pre) && |pre| <= 7
    ensures ParseUncompressed(s, p) == NoMatch
  {
    if pre == [] {
      NoHexNoMatch(s, p, 6, Ls32Tail);
    } else if |pre| <= 6 {
      var y := p + GroupsLength(pre);
      GroupsEnd(s, p, pre);
      NoHexNoMatch(s, y, 6 - |pre|, Ls32Tail);
      GroupsThenReadNoMatch(s, p, pre, 6 - |pre|, Ls32Tail, y, 6);
    } else {
      SeventhGroupMisses(s, p, pre);
    }
  }

  /** Seven groups before "::": the seventh, followed by "::", is no ls32. */
  lemma {:induction false} SeventhGroupMisses(s: seq<char>, p: nat, pre: seq<seq<char>>)
    requires pre != [] && PrefixAt(s, p, pre) && |pre| == 7
    ensures ParseUncompressed(s, p) == NoMatch
  {
    GroupsAtSplit(s, p, pre, 6);
    GroupsLengthSplit(pre, 6);
    var z := p + GroupsLength(pre[..6]);
    var g := pre[6..][0];
    assert GroupsLength(pre[6..]) == |g| + 1 by {
      assert pre[6..][1..] == [];
    }
    Ls32MissesGroup(s, z, g);
    GroupsEnd(s, p, pre[..6]);
    GroupsThenReadNoMatch(s, p, pre[..6], 0, Ls32Tail, z, 6);
  }

  /** Line `i + 2` allows `i` groups before "::", and after it groups and a tail worth `7 - i`. */
  lemma {:induction false} LineShape(i: nat)
    requires i < |CompressedLines|
    ensures CompressedLines[i].before == i
    ensures i <= 5 ==> CompressedLines[i] == Line(i, 5 - i, Ls32Tail)
    ensures i == 6 ==> CompressedLines[i] == Line(6, 0, H16Tail)
    ensures i == 7 ==> CompressedLines[i] == Line(7, 0, NoTail)
  {
  }

  /** The index in `CompressedLines` of the line a valid compressed literal belongs to. */
  function LineIndex(post: seq<seq<char>>, t: Tail): nat
  {
    if |post| + Width(t) <= 7 then 7 - |post| - Width(t) else 0
  }

  /**
   * Trying the lines from index `i` on, those before the literal's own line fail
   * and its own line takes the whole literal.
   */
  lemma {:induction false} FirstCompressedFrom(s: seq<char>, p: nat, pre: seq<seq<char>>, post: seq<seq<char>>, t: Tail, i: nat)
    requires Valid(Compressed(pre, post, t)) && CompressedTextAt(s, p, pre, post, t)
    requires i <= LineIndex(post, t)
    ensures FirstCompressed(s, p, i) == PrefixLength(pre) + GroupsLength(post) + TailLength(t)
    decreases LineIndex(post, t) - i
  {
    PrefixRead(s, p, pre, |pre|);
    var j := LineIndex(post, t);
    LineShape(i);
    var line := CompressedLines[i];
    if i == j {
      CompressedLineExact(s, p, pre, post, t, line);
    } else {
      if i < |pre| {
        CompressedLineShort(s, p, pre, line);
      } else {
        CompressedLineOverrun(s, p, pre, post, t, line);
      }
      FirstCompressedFrom(s, p, pre, post, t, i + 1);
    }
  }

  /** Line 1 takes the whole of an uncompressed literal. */
  lemma {:induction false} UncompressedComplete(s: seq<char>, p: nat, gs: seq<seq<char>>, l: Ls32)
    requires |gs| == 6 && AllH16(gs) && Ls32Valid(l)
    requires At(s, p, ColonTerminated(gs) + RenderLs32(l))
    requires Boundary(s, p + GroupsLength(gs) + Ls32Length(l))
    ensures ParseUncompressed(s, p) == Matched(GroupsLength(gs) + Ls32Length(l))
  {
    UncompressedAtOf(s, p, gs, l);
    GroupsEnd(s, p, gs);
    GroupsThenExact(s, p, gs, TailLs32(l), 6, Ls32Tail);
  }

  /**
   * Completeness of the IPv6 matcher: at the text of any address of RFC 3986's
   * grammar, followed by a character no address continues with, it matches exactly
   * that text.
   */
  lemma {:induction false} IPv6Complete(s: seq<char>, p: nat, lit: IPv6Literal)
    requires Valid(lit) && At(s, p, Render(lit)) && Boundary(s, p + |Render(lit)|)
    ensures ParseIPv6Address(s, p) == |Render(lit)|
  {
    RenderSize(lit);
    match lit
    case Uncompressed(gs, l) =>
      UncompressedComplete(s, p, gs, l);
    case Compressed(pre, post, t) =>
      CompressedAtOf(s, p, pre, post, t);
      UncompressedMisses(s, p, pre);
      FirstCompressedFrom(s, p, pre, post, t, 0);
  }

  // ---------------------------------------------------------------------------
  // Soundness: whatever the matcher takes is the text of a valid literal.

  /** The independent definition of an IPv6 address text: one of RFC 3986's nine lines. */
  ghost predicate IsIPv6Text(t: seq<char>)
  {
    exists lit :: Valid(lit) && Render(lit) == t
  }

  lemma {:induction false} GroupsAtAllH16(s: seq<char>, p: nat, gs: seq<seq<char>>)
    requires GroupsAt(s, p, gs)
    ensures AllH16(gs)
    decreases |gs|
  {
    if gs != [] {
      GroupsAtAllH16(s, p + |gs[0]| + 1, gs[1..]);
      forall i | 0 <= i < |gs| ensures IsH16(gs[i]) {
        if i > 0 {
          assert gs[i] == gs[1..][i - 1];
        }
      }
    }
  }

  lemma {:induction false} GroupsAtTo(s: seq<char>, p: nat, gs: seq<seq<char>>)
    requires GroupsAt(s, p, gs)
    ensures At(s, p, ColonTerminated(gs))
    decreases |gs|
  {
    if gs != [] {
      GroupsAtTo(s, p + |gs[0]| + 1, gs[1..]);
      AtAroundJoin(s, p, gs[0], ':', ColonTerminated(gs[1..]));
    }
  }

  lemma {:induction false} Ls32AtTo(s: seq<char>, p: nat, l: Ls32)
    requires Ls32At(s, p, l)
    ensures At(s, p, RenderLs32(l))
  {
    match l
    case HexPair(hi, lo) => AtAroundJoin(s, p, hi, ':', lo);
    case Dotted(os) => JoinedAtTo(s, p, os, '.');
  }

  /** The groups before "::" and the "::" stand at `p`. */
  lemma {:induction false} PrefixAtTo(s: seq<char>, p: nat, pre: seq<seq<char>>)
    requires PrefixAt(s, p, pre)
    ensures At(s, p, Join(pre, ':') + "::")
  {
    if pre == [] {
      AtChar(s, p, ':');
      AtAroundJoin(s, p, [':'], ':', []);
      assert Join(pre, ':') + "::" == [':'] + [':'] + [];
    } else {
      GroupsAtTo(s, p, pre);
      GroupsLengthOf(pre);
      AtAroundJoin(s, p, ColonTerminated(pre), ':', []);
      JoinColonTerminated(pre);
      assert Join(pre, ':') + "::" == ColonTerminated(pre) + [':'] + [];
    }
  }

  /** A compressed literal stated part by part stands at `p` as its text. */
  lemma {:induction false} CompressedAtTo(s: seq<char>, p: nat, pre: seq<seq<char>>, post: seq<seq<char>>, t: Tail)
    requires PrefixAt(s, p, pre) && GroupsAt(s, p + PrefixLength(pre), post)
    requires TailAt(s, p + PrefixLength(pre) + GroupsLength(post), t)
    ensures At(s, p, Render(Compressed(pre, post, t)))
  {
    var a, b, c := Join(pre, ':') + "::", ColonTerminated(post), RenderTail(t);
    RenderSize(Compressed(pre, post, t));
    assert |a| == PrefixLength(pre) by {
      if pre != [] {
        JoinColonTerminated(pre);
        GroupsLengthOf(pre);
      }
    }
    PrefixAtTo(s, p, pre);
    GroupsAtTo(s, p + |a|, post);
    GroupsLengthOf(post);
    TailAtTo(s, p + |a| + |b|, t);
    AtJoin(s, p + |a|, b, c);
    AtJoin(s, p, a, b + c);
    assert Render(Compressed(pre, post, t)) == a + (b + c);
  }

  lemma {:induction false} TailAtTo(s: seq<char>, p: nat, t: Tail)
    requires TailAt(s, p, t)
    ensures At(s, p, RenderTail(t))
  {
    match t
    case TailLs32(l) => Ls32AtTo(s, p, l);
    case TailH16(g) =>
    case TailNone =>
  }

  /** A positive h16 match is a group of that many hex digits. */
  lemma {:induction false} H16Sound(s: seq<char>, p: nat)
    requires p <= |s| && ParseH16(s, p) > 0
    ensures var h := ParseH16(s, p); IsH16(s[p..p + h]) && At(s, p, s[p..p + h])
  {
    var h := ParseH16(s, p);
    var g := s[p..p + h];
    HexRunSpec(s, p, 4);
    forall i | 0 <= i < |g| ensures IsHexDigit(g[i]) {
      assert g[i] == s[p + i];
    }
    AtSlice(s, p, g);
  }

  /** A positive ls32 match is a dotted quad or two groups around ":". */
  lemma {:induction false} Ls32Sound(s: seq<char>, p: nat) returns (l: Ls32)
    requires p <= |s| && ParseLs32(s, p) > 0
    ensures Ls32Valid(l) && Ls32At(s, p, l) && Ls32Length(l) == ParseLs32(s, p)
  {
    if ParseIPv4Address(s, p) > 0 {
      DottedSound(s, p, 4);
      assert ParseIPv4Address(s, p) == ParseDotted(s, p, 4).value;
      l := Dotted(DottedOctets(s, p, 4));
    } else {
      var h := ParseH16(s, p);
      assert h > 0 && ColonAt(s, p + h);
      assert ParseGroupsThen(s, p + h + 1, 0, H16Tail).Matched?;
      var h2 := ParseH16(s, p + h + 1);
      H16Sound(s, p);
      H16Sound(s, p + h + 1);
      l := HexPair(s[p..p + h], s[p + h + 1..p + h + 1 + h2]);
    }
  }

  /** A matched tail is a valid tail of the kind asked for, of the length matched. */
  lemma {:induction false} TailSound(s: seq<char>, p: nat, kind: TailKind) returns (t: Tail)
    requires p <= |s| && ParseTail(s, p, kind).Matched?
    ensures TailValid(t) && KindOf(t) == kind && TailAt(s, p, t)
    ensures TailLength(t) == ParseTail(s, p, kind).len
  {
    match kind
    case Ls32Tail =>
      var l := Ls32Sound(s, p);
      t := TailLs32(l);
    case H16Tail =>
      H16Sound(s, p);
      t := TailH16(s[p..p + ParseH16(s, p)]);
    case NoTail =>
      t := TailNone;
  }

  /** A match of `k` groups and a tail is `k` groups in the text, then a tail of that kind. */
  lemma {:induction false} GroupsThenSound(s: seq<char>, p: nat, k: nat, kind: TailKind) returns (gs: seq<seq<char>>, t: Tail)
    requires p <= |s| && ParseGroupsThen(s, p, k, kind).Matched?
    ensures |gs| == k && GroupsAt(s, p, gs) && TailValid(t) && KindOf(t) == kind
    ensures TailAt(s, p + GroupsLength(gs), t)
    ensures GroupsLength(gs) + TailLength(t) == ParseGroupsThen(s, p, k, kind).len
    decreases k
  {
    if k == 0 {
      gs := [];
      t := TailSound(s, p, kind);
    } else {
      var h := ParseH16(s, p);
      H16Sound(s, p);
      var rest;
      rest, t := GroupsThenSound(s, p + h + 1, k - 1, kind);
      gs := [s[p..p + h]] + rest;
      assert gs[1..] == rest;
    }
  }

  /** Where "::" follows the groups `ParseH16List` took, those groups and the "::" stand at `p`. */
  lemma {:induction false} PrefixSound(s: seq<char>, p: nat, max: nat) returns (pre: seq<seq<char>>)
    requires p <= |s|
    requires ColonAt(s, p + ParseH16List(s, p, max)) && ColonAt(s, p + ParseH16List(s, p, max) + 1)
    ensures |pre| <= max && PrefixAt(s, p, pre) && PrefixLength(pre) == ParseH16List(s, p, max) + 2
    decreases max
  {
    var h := ParseH16(s, p);
    if max == 0 || h == 0 {
      pre := [];
    } else {
      H16Sound(s, p);
      var g := s[p..p + h];
      if max > 1 && ColonAt(s, p + h) && HexAt(s, p + h + 1) {
        var rest := PrefixSound(s, p + h + 1, max - 1);
        assert rest != [];
        pre := [g] + rest;
        assert pre[1..] == rest;
      } else {
        pre := [g];
        assert pre[1..] == [];
      }
    }
  }

  /** A matched compressed line is groups, "::", groups and a tail within the line's limits. */
  lemma {:induction false} CompressedSound(s: seq<char>, p: nat, line: Line) returns (pre: seq<seq<char>>, post: seq<seq<char>>, t: Tail)
    requires p <= |s| && ParseCompressed(s, p, line).Matched?
    ensures |pre| <= line.before && |post| == line.after && TailValid(t) && KindOf(t) == line.tail
    ensures PrefixAt(s, p, pre) && GroupsAt(s, p + PrefixLength(pre), post)
    ensures TailAt(s, p + PrefixLength(pre) + GroupsLength(post), t)
    ensures PrefixLength(pre) + GroupsLength(post) + TailLength(t) == ParseCompressed(s, p, line).len
  {
    var a := ParseH16List(s, p, line.before);
    pre := PrefixSound(s, p, line.before);
    post, t := GroupsThenSound(s, p + a + 2, line.after, line.tail);
  }

  lemma {:induction false} PrefixAllH16(s: seq<char>, p: nat, pre: seq<seq<char>>)
    requires PrefixAt(s, p, pre)
    ensures AllH16(pre)
  {
    if pre != [] {
      GroupsAtAllH16(s, p, pre);
    }
  }

  /** What the first matching compressed line from index `i` on takes is a valid literal. */
  lemma {:induction false} FirstCompressedSound(s: seq<char>, p: nat, i: nat) returns (lit: IPv6Literal)
    requires p <= |s| && FirstCompressed(s, p, i) > 0
    ensures Valid(lit) && At(s, p, Render(lit)) && |Render(lit)| == FirstCompressed(s, p, i)
    decreases |CompressedLines| - i
  {
    var line := CompressedLines[i];
    if ParseCompressed(s, p, line).Matched? {
      var pre, post, t := CompressedSound(s, p, line);
      LineShape(i);
      PrefixAllH16(s, p, pre);
      GroupsAtAllH16(s, p + PrefixLength(pre), post);
      lit := Compressed(pre, post, t);
      CompressedAtTo(s, p, pre, post, t);
      RenderSize(lit);
    } else {
      lit := FirstCompressedSound(s, p, i + 1);
    }
  }

  /** What line 1 takes is an uncompressed literal. */
  lemma {:induction false} UncompressedSound(s: seq<char>, p: nat) returns (lit: IPv6Literal)
    requires p <= |s| && ParseUncompressed(s, p).Matched?
    ensures Valid(lit) && At(s, p, Render(lit)) && |Render(lit)| == ParseUncompressed(s, p).len
  {
    var gs, t := GroupsThenSound(s, p, 6, Ls32Tail);
    var l := t.ls32;
    GroupsAtAllH16(s, p, gs);
    GroupsAtTo(s, p, gs);
    GroupsLengthOf(gs);
    Ls32AtTo(s, p + GroupsLength(gs), l);
    AtJoin(s, p, ColonTerminated(gs), RenderLs32(l));
    lit := Uncompressed(gs, l);
    RenderSize(lit);
  }

  /**
   * Soundness of the IPv6 matcher: whatever it takes is the text of an address of
   * RFC 3986's grammar.
   */
  lemma {:induction false} IPv6Sound(s: seq<char>, p: nat)
    requires p <= |s| && ParseIPv6Address(s, p) > 0
    ensures IsIPv6Text(s[p..p + ParseIPv6Address(s, p)])
  {
    var lit;
    if ParseUncompressed(s, p).Matched? {
      lit := UncompressedSound(s, p);
    } else {
      lit := FirstCompressedSound(s, p, 0);
    }
    AtSlice(s, p, Render(lit));
  }
}
