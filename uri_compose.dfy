/**
 * The other direction of the URI parser: a URI written out from its components, and
 * the proof that the parser takes every well-formed one apart into exactly the texts
 * it was written from.
 */
module UriCompose {
  import opened Wrappers
  import opened Spans
  import opened Traits
  import opened IPv4
  import opened IPv6
  import opened Uri

  // ---------------------------------------------------------------------------
  // Components and the text they make.

  /** The hosts the parser recognises: none, a dotted quad, or an IPv6 address. */
  datatype Host = NoHost | V4Host(octets: seq<seq<char>>) | V6Host(lit: IPv6Literal)

  predicate HostValid(h: Host)
  {
    match h
    case NoHost => true
    case V4Host(os) => |os| == 4 && AllDecOctets(os)
    case V6Host(lit) => Valid(lit)
  }

  /** What `host()` shows: the address, without the brackets of an IPv6 one. */
  function HostText(h: Host): seq<char>
  {
    match h
    case NoHost => []
    case V4Host(os) => Join(os, '.')
    case V6Host(lit) => Render(lit)
  }

  /** The host as the URI writes it. */
  function HostWritten(h: Host): seq<char>
  {
    match h
    case NoHost => []
    case V4Host(os) => Join(os, '.')
    case V6Host(lit) => [AlphaBracketOpen] + Render(lit) + [AlphaBracketClose]
  }

  /** A URI of the shape the parser supports: scheme "://" host [ ":" port ] path [ "?" query ] [ "#" fragment ]. */
  datatype Components = Components(
    scheme: seq<char>, host: Host, port: seq<char>, path: seq<char>,
    query: Option<seq<char>>, fragment: Option<seq<char>>)

  predicate PathValid(t: seq<char>) { t == [] || (t[0] == AlphaSlash && AllIn(t[1..], PathChars)) }

  predicate DelimitedValid(o: Option<seq<char>>) { o.None? || AllIn(o.value, QueryChars) }

  predicate WellFormed(c: Components)
  {
    && IsSchemeText(c.scheme) && HostValid(c.host) && AllIn(c.port, Digits) && PathValid(c.path)
    && DelimitedValid(c.query) && DelimitedValid(c.fragment)
  }

  /** An empty port is not written, so is its ":". */
  function PortWritten(t: seq<char>): seq<char> { if t == [] then [] else [AlphaColon] + t }

  /** An absent query or fragment is not written, so is its delimiter. */
  function Delimited(delim: char, o: Option<seq<char>>): seq<char>
  {
    match o
    case None => []
    case Some(t) => [delim] + t
  }

  // The text from each part to the end of the URI.
  function FragmentTail(c: Components): seq<char> { Delimited(AlphaNumberSign, c.fragment) }
  function QueryTail(c: Components): seq<char> { Delimited(AlphaQuestionMark, c.query) + FragmentTail(c) }
  function PathTail(c: Components): seq<char> { c.path + QueryTail(c) }
  function PortTail(c: Components): seq<char> { PortWritten(c.port) + PathTail(c) }
  function AuthorityTail(c: Components): seq<char> { HostWritten(c.host) + PortTail(c) }

  /** The URI the components make. */
  function Compose(c: Components): seq<char>
  {
    c.scheme + [AlphaColon, AlphaSlash, AlphaSlash] + AuthorityTail(c)
  }

  // ---------------------------------------------------------------------------
  // Where each component lands.

  function HostSpan(a: nat, h: Host): Span
  {
    match h
    case NoHost => Span(a, 0)
    case V4Host(os) => Span(a, |Join(os, '.')|)
    case V6Host(lit) => Span(a + 1, |Render(lit)|)
  }

  function PortSpan(q: nat, t: seq<char>): Span { if t == [] then Span(q, 0) else Span(q + 1, |t|) }

  function DelimitedSpan(q: nat, o: Option<seq<char>>): Span
  {
    match o
    case None => Span(q, 0)
    case Some(t) => Span(q + 1, |t|)
  }

  /** The views the parser finds in `Compose(c)`. */
  function Expected(c: Components): UriParts
  {
    var n := |c.scheme|;
    var a := n + 3;
    var h := a + |HostWritten(c.host)|;
    var q := h + |PortWritten(c.port)|;
    var u := q + |c.path|;
    UriParts(
      Span(0, n), Span(a, 0), HostSpan(a, c.host), PortSpan(h, c.port), Span(a, q - a),
      Span(q, |c.path|), DelimitedSpan(u, c.query),
      DelimitedSpan(u + |Delimited(AlphaQuestionMark, c.query)|, c.fragment))
  }

  // ---------------------------------------------------------------------------
  // What can follow each part.

  predicate AfterQuery(s: seq<char>, q: nat) { q >= |s| || s[q] == AlphaNumberSign }

  predicate AfterPath(s: seq<char>, q: nat) { q >= |s| || s[q] == AlphaQuestionMark || s[q] == AlphaNumberSign }

  predicate AfterPort(s: seq<char>, q: nat) { AfterPath(s, q) || s[q] == AlphaSlash }

  predicate AfterHost(s: seq<char>, q: nat) { AfterPort(s, q) || s[q] == AlphaColon }

  /**
   * `t` stands at `q` and runs to the end of `s`, stated character by character so that
   * the solver unfolds it one character at a time.
   */
  predicate Ends(s: seq<char>, q: nat, t: seq<char>)
    decreases |t|
  {
    if t == [] then q == |s| else q < |s| && s[q] == t[0] && Ends(s, q + 1, t[1..])
  }

  lemma {:induction false} EndsAt(s: seq<char>, q: nat, t: seq<char>)
    ensures Ends(s, q, t) <==> At(s, q, t) && q + |t| == |s|
    decreases |t|
  {
    if t != [] {
      EndsAt(s, q + 1, t[1..]);
      if At(s, q, t) {
        AtFirst(s, q, t);
      }
      if q < |s| && s[q] == t[0] && At(s, q + 1, t[1..]) {
        forall i | 0 <= i < |t| ensures s[q + i] == t[i] {
          if i > 0 {
            assert s[q + 1 + (i - 1)] == t[1..][i - 1];
          }
        }
      }
    }
  }

  lemma {:induction false} EndsSplit(s: seq<char>, q: nat, a: seq<char>, b: seq<char>)
    requires Ends(s, q, a + b)
    ensures At(s, q, a) && Ends(s, q + |a|, b)
  {
    EndsAt(s, q, a + b);
    AtSplit(s, q, a, b);
    EndsAt(s, q + |a|, b);
  }

  /** The first character of a text that runs to the end. */
  lemma {:induction false} EndsFirst(s: seq<char>, q: nat, t: seq<char>)
    requires Ends(s, q, t) && t != []
    ensures q < |s| && s[q] == t[0]
  {
  }

  lemma {:induction false} FragmentLead(s: seq<char>, q: nat, c: Components)
    requires Ends(s, q, FragmentTail(c))
    ensures AfterQuery(s, q)
  {
    if c.fragment.Some? {
      EndsFirst(s, q, FragmentTail(c));
    }
  }

  lemma {:induction false} QueryLead(s: seq<char>, q: nat, c: Components)
    requires Ends(s, q, QueryTail(c))
    ensures AfterPath(s, q)
  {
    if c.query.Some? {
      EndsFirst(s, q, QueryTail(c));
    } else {
      assert QueryTail(c) == FragmentTail(c);
      FragmentLead(s, q, c);
    }
  }

  lemma {:induction false} PathLead(s: seq<char>, q: nat, c: Components)
    requires PathValid(c.path) && Ends(s, q, PathTail(c))
    ensures AfterPort(s, q)
  {
    if c.path != [] {
      EndsFirst(s, q, PathTail(c));
    } else {
      assert PathTail(c) == QueryTail(c);
      QueryLead(s, q, c);
    }
  }

  lemma {:induction false} PortLead(s: seq<char>, q: nat, c: Components)
    requires PathValid(c.path) && Ends(s, q, PortTail(c))
    ensures AfterHost(s, q)
  {
    if c.port != [] {
      EndsFirst(s, q, PortTail(c));
    } else {
      assert PortTail(c) == PathTail(c);
      PathLead(s, q, c);
    }
  }

  // ---------------------------------------------------------------------------
  // Each rule takes its part exactly.

  lemma {:induction false} DelimitedAt(s: seq<char>, p: nat, delim: char, o: Option<seq<char>>)
    requires DelimitedValid(o) && At(s, p, Delimited(delim, o)) && AfterQuery(s, p + |Delimited(delim, o)|)
    requires o.None? ==> p >= |s| || s[p] != delim
    requires delim != AlphaNumberSign ==> delim == AlphaQuestionMark
    ensures DelimitedPart(s, p, delim) == Part(DelimitedSpan(p, o), p + |Delimited(delim, o)|)
  {
    if o.Some? {
      var t := o.value;
      AtFirst(s, p, Delimited(delim, o));
      assert Delimited(delim, o)[1..] == t;
      RunExact(s, p + 1, QueryChars, t);
    }
  }

  lemma {:induction false} FragmentLaid(s: seq<char>, p: nat, r: UriParts, c: Components)
    requires DelimitedValid(c.fragment) && Ends(s, p, FragmentTail(c))
    ensures Drive(s, FragmentStage, p, r) == r.(fragment := DelimitedSpan(p, c.fragment))
  {
    var f := DelimitedPart(s, p, AlphaNumberSign);
    EndsAt(s, p, FragmentTail(c));
    FragmentLead(s, p, c);
    DelimitedAt(s, p, AlphaNumberSign, c.fragment);
    assert Drive(s, Done, f.next, r.(fragment := f.view)) == r.(fragment := f.view);
  }

  lemma {:induction false} QueryLaid(s: seq<char>, p: nat, r: UriParts, c: Components)
    requires DelimitedValid(c.query) && DelimitedValid(c.fragment) && Ends(s, p, QueryTail(c))
    ensures var q := p + |Delimited(AlphaQuestionMark, c.query)|;
      Drive(s, QueryStage, p, r)
        == r.(query := DelimitedSpan(p, c.query), fragment := DelimitedSpan(q, c.fragment))
  {
    var d := Delimited(AlphaQuestionMark, c.query);
    EndsSplit(s, p, d, FragmentTail(c));
    FragmentLead(s, p + |d|, c);
    DelimitedAt(s, p, AlphaQuestionMark, c.query);
    FragmentLaid(s, p + |d|, r.(query := DelimitedSpan(p, c.query)), c);
  }

  lemma {:induction false} PathAt(s: seq<char>, p: nat, t: seq<char>)
    requires PathValid(t) && At(s, p, t) && AfterPath(s, p + |t|)
    ensures PathPart(s, p) == Part(Span(p, |t|), p + |t|)
  {
    if t != [] {
      AtFirst(s, p, t);
      RunExact(s, p + 1, PathChars, t[1..]);
    }
  }

  lemma {:induction false} PathLaid(s: seq<char>, p: nat, r: UriParts, c: Components)
    requires PathValid(c.path) && DelimitedValid(c.query) && DelimitedValid(c.fragment)
    requires Ends(s, p, PathTail(c))
    ensures var u := p + |c.path|; var q := u + |Delimited(AlphaQuestionMark, c.query)|;
      Drive(s, PathStage, p, r)
        == r.(path := Span(p, |c.path|), query := DelimitedSpan(u, c.query), fragment := DelimitedSpan(q, c.fragment))
  {
    EndsSplit(s, p, c.path, QueryTail(c));
    QueryLead(s, p + |c.path|, c);
    PathAt(s, p, c.path);
    QueryLaid(s, p + |c.path|, r.(path := Span(p, |c.path|)), c);
  }

  lemma {:induction false} PortAt(s: seq<char>, p: nat, t: seq<char>)
    requires AllIn(t, Digits) && At(s, p, PortWritten(t)) && AfterPort(s, p + |PortWritten(t)|)
    ensures PortPart(s, p) == Part(PortSpan(p, t), p + |PortWritten(t)|)
  {
    if t != [] {
      AtFirst(s, p, PortWritten(t));
      assert PortWritten(t)[1..] == t;
      RunExact(s, p + 1, Digits, t);
    }
  }

  /** A Render is never empty. */
  lemma {:induction false} RenderNonEmpty(lit: IPv6Literal)
    requires Valid(lit)
    ensures |Render(lit)| > 0
  {
    match lit
    case Uncompressed(gs, l) =>
      assert ColonTerminated(gs) == gs[0] + [':'] + ColonTerminated(gs[1..]);
    case Compressed(pre, post, t) =>
  }

  lemma {:induction false} NoHostAt(s: seq<char>, p: nat)
    requires p <= |s| && AfterHost(s, p)
    ensures HostPart(s, p) == Part(Span(p, 0), p)
  {
    assert ParseDecOctet(s, p) == 0;
  }

  lemma {:induction false} V4HostAt(s: seq<char>, p: nat, os: seq<seq<char>>)
    requires |os| == 4 && AllDecOctets(os) && At(s, p, Join(os, '.')) && AfterHost(s, p + |Join(os, '.')|)
    ensures HostPart(s, p) == Part(Span(p, |Join(os, '.')|), p + |Join(os, '.')|)
  {
    V4HostLead(s, p, os);
    IPv4Complete(s, p, os);
  }

  /** A dotted quad starts with a digit. */
  lemma {:induction false} V4HostLead(s: seq<char>, p: nat, os: seq<seq<char>>)
    requires |os| == 4 && AllDecOctets(os) && At(s, p, Join(os, '.'))
    ensures p < |s| && IsDigit(s[p])
  {
    var j := Join(os, '.');
    assert j == os[0] + (['.'] + Join(os[1..], '.'));
    assert IsDecOctet(os[0]);
    AtIndex(s, p, j, 0);
  }

  /** The brackets and the address between them. */
  lemma {:induction false} V6HostText(s: seq<char>, p: nat, lit: IPv6Literal)
    requires At(s, p, HostWritten(V6Host(lit)))
    ensures p < |s| && s[p] == AlphaBracketOpen && At(s, p + 1, Render(lit))
    ensures p + 1 + |Render(lit)| < |s| && s[p + 1 + |Render(lit)|] == AlphaBracketClose
  {
    var t := Render(lit);
    var w := HostWritten(V6Host(lit));
    AtFirst(s, p, w);
    assert w[1..] == t + [AlphaBracketClose];
    AtSplit(s, p + 1, t, [AlphaBracketClose]);
    AtChar(s, p + 1 + |t|, AlphaBracketClose);
  }

  lemma {:induction false} V6HostAt(s: seq<char>, p: nat, lit: IPv6Literal)
    requires Valid(lit) && p < |s| && s[p] == AlphaBracketOpen && At(s, p + 1, Render(lit))
    requires p + 1 + |Render(lit)| < |s| && s[p + 1 + |Render(lit)|] == AlphaBracketClose
    ensures HostPart(s, p) == Part(Span(p + 1, |Render(lit)|), p + |Render(lit)| + 2)
  {
    RenderNonEmpty(lit);
    IPv6Complete(s, p + 1, lit);
  }

  lemma {:induction false} HostAt(s: seq<char>, p: nat, h: Host)
    requires HostValid(h) && At(s, p, HostWritten(h)) && AfterHost(s, p + |HostWritten(h)|)
    ensures HostPart(s, p) == Part(HostSpan(p, h), p + |HostWritten(h)|)
  {
    match h
    case NoHost => NoHostAt(s, p);
    case V4Host(os) => V4HostAt(s, p, os);
    case V6Host(lit) =>
      V6HostText(s, p, lit);
      V6HostAt(s, p, lit);
  }

  /** No "@" opens an authority the components write. */
  lemma {:induction false} AuthorityLead(s: seq<char>, a: nat, c: Components)
    requires WellFormed(c) && At(s, a, HostWritten(c.host)) && AfterHost(s, a + |HostWritten(c.host)|)
    ensures UserinfoPart(s, a).next == a
  {
    match c.host
    case NoHost =>
    case V4Host(os) => V4HostLead(s, a, os);
    case V6Host(lit) => AtIndex(s, a, HostWritten(c.host), 0);
  }

  lemma {:induction false} AuthorityLaid(s: seq<char>, a: nat, c: Components)
    requires WellFormed(c) && Ends(s, a, AuthorityTail(c))
    ensures var h := a + |HostWritten(c.host)|;
      AuthorityOf(s, a)
        == AuthorityParts(Span(a, 0), HostSpan(a, c.host), PortSpan(h, c.port), h + |PortWritten(c.port)|)
  {
    var h := a + |HostWritten(c.host)|;
    EndsSplit(s, a, HostWritten(c.host), PortTail(c));
    EndsSplit(s, h, PortWritten(c.port), PathTail(c));
    PortLead(s, h, c);
    PathLead(s, h + |PortWritten(c.port)|, c);
    AuthorityLead(s, a, c);
    HostAt(s, a, c.host);
    PortAt(s, h, c.port);
  }

  // ---------------------------------------------------------------------------
  // The round trip.

  /** The scheme, ":" and "//" in front, the authority and the rest after them. */
  lemma {:induction false} ComposeText(c: Components)
    ensures var s := Compose(c); var n := |c.scheme|;
      && At(s, 0, c.scheme) && SlashesAt(s, n + 1) && Ends(s, n + 3, AuthorityTail(c))
      && n < |s| && s[n] == AlphaColon
  {
    var s := Compose(c);
    var n := |c.scheme|;
    var d: seq<char> := [AlphaColon, AlphaSlash, AlphaSlash];
    assert At(s, 0, c.scheme + d + AuthorityTail(c));
    AtSplit(s, 0, c.scheme + d, AuthorityTail(c));
    AtSplit(s, 0, c.scheme, d);
    AtIndex(s, n, d, 0);
    AtIndex(s, n, d, 1);
    AtIndex(s, n, d, 2);
    EndsAt(s, n + 3, AuthorityTail(c));
  }

  /** A scheme followed by ":" is what `parse_scheme` takes. */
  lemma {:induction false} SchemeAt(s: seq<char>, t: seq<char>)
    requires IsSchemeText(t) && At(s, 0, t) && |t| < |s| && s[|t|] == AlphaColon
    ensures SchemeLength(s) == |t|
  {
    AtFirst(s, 0, t);
    assert AllIn(t[1..], SchemeChars) by {
      forall i | 0 <= i < |t[1..]| ensures InClass(t[1..][i], SchemeChars) {
        assert t[1..][i] == t[i + 1];
      }
    }
    RunExact(s, 1, SchemeChars, t[1..]);
  }

  // From each stage of the authority on, the parser finds the views the components were
  // written in; the views before that stage are kept.

  /** The port the components write is the one `parse_port` finds, and the rest follows it. */
  lemma {:induction false} PortFound(s: seq<char>, h: nat, c: Components)
    requires AllIn(c.port, Digits) && PathValid(c.path) && h <= |s| && Ends(s, h, PortTail(c))
    ensures var q := h + |PortWritten(c.port)|;
      q <= |s| && PortPart(s, h) == Part(PortSpan(h, c.port), q) && Ends(s, q, PathTail(c))
  {
    var q := h + |PortWritten(c.port)|;
    EndsSplit(s, h, PortWritten(c.port), PathTail(c));
    PathLead(s, q, c);
    PortAt(s, h, c.port);
    EndsAt(s, q, PathTail(c));
  }

  lemma {:induction false} PortLaid(s: seq<char>, r: UriParts, c: Components)
    requires AllIn(c.port, Digits) && PathValid(c.path) && DelimitedValid(c.query) && DelimitedValid(c.fragment)
    requires var a := |c.scheme| + 3; var h := a + |HostWritten(c.host)|;
      r.authority.start == a && h <= |s| && Ends(s, h, PortTail(c))
    ensures var h := |c.scheme| + 3 + |HostWritten(c.host)|;
      Drive(s, PortStage, h, r) == Expected(c).(scheme := r.scheme, userinfo := r.userinfo, host := r.host)
  {
    var a := |c.scheme| + 3;
    var h := a + |HostWritten(c.host)|;
    var q := h + |PortWritten(c.port)|;
    PortFound(s, h, c);
    PathLaid(s, q, r.(port := PortSpan(h, c.port), authority := Span(a, q - a)), c);
  }

  /** The host the components write is the one `parse_host` finds, and the rest follows it. */
  lemma {:induction false} HostFound(s: seq<char>, a: nat, c: Components)
    requires WellFormed(c) && a <= |s| && Ends(s, a, AuthorityTail(c))
    ensures var h := a + |HostWritten(c.host)|;
      h <= |s| && HostPart(s, a) == Part(HostSpan(a, c.host), h) && Ends(s, h, PortTail(c))
  {
    var h := a + |HostWritten(c.host)|;
    EndsSplit(s, a, HostWritten(c.host), PortTail(c));
    PortLead(s, h, c);
    HostAt(s, a, c.host);
  }

  lemma {:induction false} HostLaid(s: seq<char>, r: UriParts, c: Components)
    requires WellFormed(c)
    requires var a := |c.scheme| + 3; r.authority.start == a && a <= |s| && Ends(s, a, AuthorityTail(c))
    ensures Drive(s, HostStage, |c.scheme| + 3, r) == Expected(c).(scheme := r.scheme, userinfo := r.userinfo)
  {
    var a := |c.scheme| + 3;
    HostFound(s, a, c);
    PortLaid(s, r.(host := HostSpan(a, c.host)), c);
  }

  lemma {:induction false} UserinfoLaid(s: seq<char>, r: UriParts, c: Components)
    requires WellFormed(c)
    requires var a := |c.scheme| + 3; r.authority.start == a && a <= |s| && Ends(s, a, AuthorityTail(c))
    ensures Drive(s, UserinfoStage, |c.scheme| + 3, r) == Expected(c).(scheme := r.scheme)
  {
    var a := |c.scheme| + 3;
    var h := a + |HostWritten(c.host)|;
    EndsSplit(s, a, HostWritten(c.host), PortTail(c));
    PortLead(s, h, c);
    AuthorityLead(s, a, c);
    HostLaid(s, r.(userinfo := Span(a, 0)), c);
  }

  /** The parser finds in a URI laid out as the components say exactly the views they were written in. */
  lemma {:induction false} LaidDecompose(s: seq<char>, c: Components)
    requires WellFormed(c)
    requires var n := |c.scheme|; SchemeLength(s) == n && SlashesAt(s, n + 1) && Ends(s, n + 3, AuthorityTail(c))
    ensures Decompose(s) == Expected(c)
  {
    var n := |c.scheme|;
    var r0 := Blank(n + 1).(scheme := Span(0, n));
    assert Decompose(s) == Drive(s, HierStage, n + 1, r0);
    assert Drive(s, HierStage, n + 1, r0) == Drive(s, UserinfoStage, n + 3, r0.(authority := Span(n + 3, 0)));
    UserinfoLaid(s, r0.(authority := Span(n + 3, 0)), c);
  }

  /** The parser finds in a composed URI exactly the views its components were written in. */
  lemma {:induction false} ComposeDecompose(c: Components)
    requires WellFormed(c)
    ensures Decompose(Compose(c)) == Expected(c)
  {
    ComposeText(c);
    SchemeAt(Compose(c), c.scheme);
    LaidDecompose(Compose(c), c);
  }

  // ---------------------------------------------------------------------------
  // What each accessor shows of a composed URI.

  /** The text of an optional query or fragment: empty when it is absent. */
  function OrEmpty(o: Option<seq<char>>): seq<char>
  {
    match o
    case None => []
    case Some(t) => t
  }

  /** A view over text that stands in the buffer shows that text. */
  lemma {:induction false} TextAt(s: seq<char>, p: nat, t: seq<char>)
    requires At(s, p, t)
    ensures Span(p, |t|).Within(|s|) && Text(s, Span(p, |t|)) == t
  {
  }

  /** The pieces of a composed URI, each where `Expected` puts it. */
  lemma {:induction false} ComposePieces(c: Components)
    ensures var s := Compose(c); var n := |c.scheme|;
      var a := n + 3; var h := a + |HostWritten(c.host)|; var q := h + |PortWritten(c.port)|;
      var u := q + |c.path|; var f := u + |Delimited(AlphaQuestionMark, c.query)|;
      && At(s, 0, c.scheme) && At(s, a, HostWritten(c.host)) && At(s, h, PortWritten(c.port))
      && At(s, q, c.path) && At(s, u, Delimited(AlphaQuestionMark, c.query))
      && At(s, f, Delimited(AlphaNumberSign, c.fragment))
  {
    var s := Compose(c);
    var n := |c.scheme|;
    var a := n + 3;
    var h := a + |HostWritten(c.host)|;
    var q := h + |PortWritten(c.port)|;
    var u := q + |c.path|;
    ComposeText(c);
    EndsAt(s, a, AuthorityTail(c));
    AtSplit(s, a, HostWritten(c.host), PortTail(c));
    AtSplit(s, h, PortWritten(c.port), PathTail(c));
    AtSplit(s, q, c.path, QueryTail(c));
    AtSplit(s, u, Delimited(AlphaQuestionMark, c.query), FragmentTail(c));
  }

  /** An optional part written after its delimiter shows its text, or nothing when absent. */
  lemma {:induction false} DelimitedText(s: seq<char>, p: nat, delim: char, o: Option<seq<char>>)
    requires At(s, p, Delimited(delim, o))
    ensures DelimitedSpan(p, o).Within(|s|) && Text(s, DelimitedSpan(p, o)) == OrEmpty(o)
  {
    if o.Some? {
      AtSplit(s, p, [delim], o.value);
      TextAt(s, p + 1, o.value);
    }
  }

  /** `scheme()` of a composed URI is the scheme it was written with. */
  lemma {:induction false} ComposeScheme(c: Components)
    requires WellFormed(c)
    ensures Text(Compose(c), Decompose(Compose(c)).scheme) == c.scheme
  {
    ComposeDecompose(c);
    ComposePieces(c);
    TextAt(Compose(c), 0, c.scheme);
  }

  /** `host()` of a composed URI is its host, an IPv6 address without its brackets. */
  lemma {:induction false} ComposeHost(c: Components)
    requires WellFormed(c)
    ensures Text(Compose(c), Decompose(Compose(c)).host) == HostText(c.host)
  {
    var s := Compose(c);
    var a := |c.scheme| + 3;
    ComposeDecompose(c);
    ComposePieces(c);
    match c.host
    case NoHost =>
    case V4Host(os) => TextAt(s, a, Join(os, '.'));
    case V6Host(lit) =>
      AtSplit(s, a, [AlphaBracketOpen] + Render(lit), [AlphaBracketClose]);
      AtSplit(s, a, [AlphaBracketOpen], Render(lit));
      TextAt(s, a + 1, Render(lit));
  }

  /** `port()` of a composed URI is its port. */
  lemma {:induction false} ComposePort(c: Components)
    requires WellFormed(c)
    ensures Text(Compose(c), Decompose(Compose(c)).port) == c.port
  {
    var s := Compose(c);
    var h := |c.scheme| + 3 + |HostWritten(c.host)|;
    ComposeDecompose(c);
    ComposePieces(c);
    if c.port != [] {
      AtSplit(s, h, [AlphaColon], c.port);
      TextAt(s, h + 1, c.port);
    }
  }

  /** `authority()` of a composed URI is its host and port as written. */
  lemma {:induction false} ComposeAuthority(c: Components)
    requires WellFormed(c)
    ensures Text(Compose(c), Decompose(Compose(c)).authority) == HostWritten(c.host) + PortWritten(c.port)
  {
    var s := Compose(c);
    var a := |c.scheme| + 3;
    ComposeDecompose(c);
    ComposePieces(c);
    AtJoin(s, a, HostWritten(c.host), PortWritten(c.port));
    TextAt(s, a, HostWritten(c.host) + PortWritten(c.port));
  }

  /** `path()` of a composed URI is its path. */
  lemma {:induction false} ComposePath(c: Components)
    requires WellFormed(c)
    ensures Text(Compose(c), Decompose(Compose(c)).path) == c.path
  {
    var q := |c.scheme| + 3 + |HostWritten(c.host)| + |PortWritten(c.port)|;
    ComposeDecompose(c);
    ComposePieces(c);
    TextAt(Compose(c), q, c.path);
  }

  /** `query()` of a composed URI is its query without the "?", empty when absent. */
  lemma {:induction false} ComposeQuery(c: Components)
    requires WellFormed(c)
    ensures Text(Compose(c), Decompose(Compose(c)).query) == OrEmpty(c.query)
  {
    var u := |c.scheme| + 3 + |HostWritten(c.host)| + |PortWritten(c.port)| + |c.path|;
    ComposeDecompose(c);
    ComposePieces(c);
    DelimitedText(Compose(c), u, AlphaQuestionMark, c.query);
  }

  /** `fragment()` of a composed URI is its fragment without the "#", empty when absent. */
  lemma {:induction false} ComposeFragment(c: Components)
    requires WellFormed(c)
    ensures Text(Compose(c), Decompose(Compose(c)).fragment) == OrEmpty(c.fragment)
  {
    var f := |c.scheme| + 3 + |HostWritten(c.host)| + |PortWritten(c.port)| + |c.path|
      + |Delimited(AlphaQuestionMark, c.query)|;
    ComposeDecompose(c);
    ComposePieces(c);
    DelimitedText(Compose(c), f, AlphaNumberSign, c.fragment);
  }
}
