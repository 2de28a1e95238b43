/**
 * The URI decomposer (`uri_view`): the input is split, left to right and without
 * copying, into views of its scheme, userinfo, host, port, authority, path, query and
 * fragment (RFC 3986 section 3). The host is an IPv6 address between brackets or an
 * IPv4 address; every other grammar branch is unsupported and leaves its views empty.
 */
module Uri {
  import opened Wrappers
  import opened Spans
  import opened Traits
  import opened IPv4
  import opened IPv6

  // ---------------------------------------------------------------------------
  // Character classes and runs.

  /** scheme = ALPHA *( ALPHA / DIGIT / "+" / "-" / "." ): the characters after the first. */
  predicate IsSchemeChar(c: char) { IsAlpha(c) || IsDigit(c) || c == AlphaPlus || c == AlphaMinus || c == AlphaDot }

  /** pchar = unreserved / pct-encoded / sub-delims / ":" / "@", with pct-encoded unsupported. */
  predicate IsPChar(c: char) { IsUnreserved(c) || IsSubDelim(c) || c == AlphaColon || c == AlphaAt }

  /** The characters of path-abempty: "/" and pchar. */
  predicate IsPathChar(c: char) { IsPChar(c) || c == AlphaSlash }

  /** The characters of a query or a fragment: pchar, "/" and "?". */
  predicate IsQueryChar(c: char) { IsPChar(c) || c == AlphaSlash || c == AlphaQuestionMark }

  datatype CharClass = SchemeChars | Digits | PathChars | QueryChars

  predicate InClass(c: char, k: CharClass)
  {
    match k
    case SchemeChars => IsSchemeChar(c)
    case Digits => IsDigit(c)
    case PathChars => IsPathChar(c)
    case QueryChars => IsQueryChar(c)
  }

  predicate AllIn(t: seq<char>, k: CharClass) { forall i :: 0 <= i < |t| ==> InClass(t[i], k) }

  /** The length of the longest run of class `k` at `p`. */
  function Run(s: seq<char>, p: nat, k: CharClass): (n: nat)
    requires p <= |s|
    ensures p + n <= |s|
    decreases |s| - p
  {
    if p < |s| && InClass(s[p], k) then 1 + Run(s, p + 1, k) else 0
  }

  /** A run holds characters of its class only and ends before one outside it. */
  lemma {:induction false} RunSpec(s: seq<char>, p: nat, k: CharClass)
    requires p <= |s|
    ensures var n := Run(s, p, k);
      && (forall i :: p <= i < p + n ==> InClass(s[i], k))
      && (p + n < |s| ==> !InClass(s[p + n], k))
    decreases |s| - p
  {
    if p < |s| && InClass(s[p], k) {
      RunSpec(s, p + 1, k);
    }
  }

  /** A text of class `k` at `p`, followed by a character outside it, is exactly the run. */
  lemma {:induction false} RunExact(s: seq<char>, p: nat, k: CharClass, t: seq<char>)
    requires At(s, p, t) && AllIn(t, k)
    requires p + |t| < |s| ==> !InClass(s[p + |t|], k)
    ensures Run(s, p, k) == |t|
    decreases |t|
  {
    if t != [] {
      AtFirst(s, p, t);
      assert InClass(t[0], k);
      assert AllIn(t[1..], k) by {
        forall i | 0 <= i < |t[1..]| ensures InClass(t[1..][i], k) {
          assert t[1..][i] == t[i + 1];
        }
      }
      RunExact(s, p + 1, k, t[1..]);
    }
  }

  /** The scanning loop behind every `parse_X` that takes a run of characters. */
  method ScanRun(s: seq<char>, p: nat, k: CharClass) returns (n: nat)
    requires p <= |s|
    ensures n == Run(s, p, k)
  {
    var q := p;
    while q < |s| && InClass(s[q], k)
      invariant p <= q <= |s|
      invariant Run(s, p, k) == q - p + Run(s, q, k)
      decreases |s| - q
    {
      q := q + 1;
    }
    n := q - p;
  }

  // ---------------------------------------------------------------------------
  // The parts, as functions of the input and a position.

  /** A view found by one rule, and the position after what the rule consumed. */
  datatype Part = Part(view: Span, next: nat)

  /**
   * `parse_scheme`: the length of the scheme at the front of `s`, provided a ":" follows
   * it; 0 when there is no such scheme.
   */
  function SchemeLength(s: seq<char>): (n: nat)
    ensures n < |s| || n == 0
    ensures n > 0 ==> IsAlpha(s[0]) && s[n] == AlphaColon
  {
    if |s| > 0 && IsAlpha(s[0]) then
      var m := 1 + Run(s, 1, SchemeChars);
      if m < |s| && s[m] == AlphaColon then m else 0
    else 0
  }

  /** `parse_userinfo`: recognises nothing; userinfo is unsupported. */
  function UserinfoLength(s: seq<char>, p: nat): nat { 0 }

  /** The userinfo and its "@", when an "@" follows the (empty) userinfo. */
  function UserinfoPart(s: seq<char>, p: nat): (r: Part)
    requires p <= |s|
    ensures r.view == Span(p, 0)
    ensures r.next == p || (p < |s| && s[p] == AlphaAt && r.next == p + 1)
  {
    var u := UserinfoLength(s, p);
    if p + u < |s| && s[p + u] == AlphaAt then Part(Span(p, u), p + u + 1) else Part(Span(p, u), p)
  }

  /**
   * `parse_host`: an IPv6 address between brackets (the brackets not part of the view),
   * else an IPv4 address; anything else (a reg-name) is unsupported and gives an empty view.
   */
  function HostPart(s: seq<char>, p: nat): (r: Part)
    requires p <= |s|
    ensures p <= r.view.start && r.view.End() <= r.next <= |s|
    ensures r.view.len == 0 <==> r.next == p
  {
    if p < |s| && s[p] == AlphaBracketOpen then
      var m := ParseIPv6Address(s, p + 1);
      if m > 0 && p + 1 + m < |s| && s[p + 1 + m] == AlphaBracketClose then Part(Span(p + 1, m), p + m + 2)
      else Part(Span(p, 0), p)
    else
      var m := ParseIPv4Address(s, p);
      if m > 0 then Part(Span(p, m), p + m) else Part(Span(p, 0), p)
  }

  /** `parse_port`: ":" and one or more digits; without a digit the ":" is not taken. */
  function PortPart(s: seq<char>, p: nat): (r: Part)
    requires p <= |s|
    ensures p <= r.view.start && r.view.End() == r.next <= |s|
  {
    if p < |s| && s[p] == AlphaColon then
      var d := Run(s, p + 1, Digits);
      if d > 0 then Part(Span(p + 1, d), p + 1 + d) else Part(Span(p, 0), p)
    else Part(Span(p, 0), p)
  }

  /** path-abempty = *( "/" segment ): a "/" and the path characters after it. */
  function PathPart(s: seq<char>, p: nat): (r: Part)
    requires p <= |s|
    ensures r.view.start == p && r.view.End() == r.next <= |s|
  {
    if p < |s| && s[p] == AlphaSlash then
      var m := Run(s, p + 1, PathChars);
      Part(Span(p, 1 + m), p + 1 + m)
    else Part(Span(p, 0), p)
  }

  /** A query ("?") or fragment ("#"): the delimiter and the characters after it, the view without the delimiter. */
  function DelimitedPart(s: seq<char>, p: nat, delim: char): (r: Part)
    requires p <= |s|
    ensures p <= r.view.start && r.view.End() == r.next <= |s|
  {
    if p < |s| && s[p] == delim then
      var m := Run(s, p + 1, QueryChars);
      Part(Span(p + 1, m), p + 1 + m)
    else Part(Span(p, 0), p)
  }

  /** The views inside an authority, and the position after it. */
  datatype AuthorityParts = AuthorityParts(userinfo: Span, host: Span, port: Span, next: nat)

  /** `parse_authority`: authority = [ userinfo "@" ] host [ ":" port ]. */
  function AuthorityOf(s: seq<char>, a: nat): (r: AuthorityParts)
    requires a <= |s|
    ensures r.userinfo == Span(a, 0) && r.host.start <= r.host.End() <= r.port.start
    ensures r.port.End() == r.next <= |s| && a <= r.host.start
  {
    var u := UserinfoPart(s, a);
    var h := HostPart(s, u.next);
    var pt := PortPart(s, h.next);
    AuthorityParts(u.view, h.view, pt.view, pt.next)
  }

  /** The eight views of a URI. */
  datatype UriParts = UriParts(
    scheme: Span, userinfo: Span, host: Span, port: Span,
    authority: Span, path: Span, query: Span, fragment: Span)
  {
    /** Every view lies inside a buffer of `n` characters. */
    predicate Within(n: nat)
    {
      && scheme.Within(n) && userinfo.Within(n) && host.Within(n) && port.Within(n)
      && authority.Within(n) && path.Within(n) && query.Within(n) && fragment.Within(n)
    }

    /**
     * The views follow each other in input order, and the authority covers the userinfo,
     * the host and the port.
     */
    predicate InOrder()
    {
      && scheme.End() <= authority.start
      && authority.start <= userinfo.start && userinfo.End() <= host.start
      && host.End() <= port.start && port.End() <= authority.End()
      && authority.End() <= path.start && path.End() <= query.start && query.End() <= fragment.start
    }
  }

  /** Every view empty at `p`. */
  function Blank(p: nat): UriParts
  {
    var e := Span(p, 0);
    UriParts(e, e, e, e, e, e, e, e)
  }

  /** "//" at `p`. */
  predicate SlashesAt(s: seq<char>, p: nat)
  {
    p + 1 < |s| && s[p] == AlphaSlash && s[p + 1] == AlphaSlash
  }

  /** Where the left-to-right parse stands: the next part it reads. */
  datatype Stage =
    | SchemeStage | HierStage | UserinfoStage | HostStage | PortStage
    | PathStage | QueryStage | FragmentStage | Done

  function StagesLeft(st: Stage): nat
  {
    match st
    case SchemeStage => 8
    case HierStage => 7
    case UserinfoStage => 6
    case HostStage => 5
    case PortStage => 4
    case PathStage => 3
    case QueryStage => 2
    case FragmentStage => 1
    case Done => 0
  }

  /** Inside the authority, which starts at `r.authority.start`. */
  predicate InAuthority(st: Stage) { 4 <= StagesLeft(st) <= 6 }

  /**
   * The parse from stage `st` at position `p`, with the views found so far in `r`.
   * Without a scheme and its ":" every view stays empty; a hier-part without "//" is
   * unsupported and leaves every view but the scheme empty.
   */
  function Drive(s: seq<char>, st: Stage, p: nat, r: UriParts): UriParts
    requires p <= |s| && (InAuthority(st) ==> r.authority.start <= p)
    decreases StagesLeft(st), |s| - p
  {
    match st
    case SchemeStage =>
      var n := SchemeLength(s);
      if n == 0 then Blank(0) else Drive(s, HierStage, n + 1, Blank(n + 1).(scheme := Span(0, n)))
    case HierStage =>
      if SlashesAt(s, p) then Drive(s, UserinfoStage, p + 2, r.(authority := Span(p + 2, 0))) else r
    case UserinfoStage =>
      var u := UserinfoPart(s, p);
      Drive(s, HostStage, u.next, r.(userinfo := u.view))
    case HostStage =>
      var h := HostPart(s, p);
      Drive(s, PortStage, h.next, r.(host := h.view))
    case PortStage =>
      var pt := PortPart(s, p);
      var a := r.authority.start;
      Drive(s, PathStage, pt.next, r.(port := pt.view, authority := Span(a, pt.next - a)))
    case PathStage =>
      var pa := PathPart(s, p);
      Drive(s, QueryStage, pa.next, r.(path := pa.view))
    case QueryStage =>
      var q := DelimitedPart(s, p, AlphaQuestionMark);
      Drive(s, FragmentStage, q.next, r.(query := q.view))
    case FragmentStage =>
      var f := DelimitedPart(s, p, AlphaNumberSign);
      Drive(s, Done, f.next, r.(fragment := f.view))
    case Done => r
  }

  /** `parse`: the views of the whole input. */
  function Decompose(s: seq<char>): (r: UriParts)
    ensures r.Within(|s|) && r.InOrder()
  {
    DriveShape(s);
    Drive(s, SchemeStage, 0, Blank(0))
  }

  /** What holds of the views found before stage `st`, with the parse at `p`. */
  predicate Partial(r: UriParts, st: Stage, p: nat, len: nat)
  {
    var k := StagesLeft(st);
    && p <= len && r.Within(len)
    && (k <= 7 ==> r.scheme.End() <= r.authority.start <= p)
    && (k == 7 ==> r == Blank(p).(scheme := r.scheme))
    && (k <= 5 ==> r.authority.start <= r.userinfo.start && r.userinfo.End() <= p)
    && (k <= 4 ==> r.userinfo.End() <= r.host.start && r.host.End() <= p)
    && (k <= 3 ==> r.host.End() <= r.port.start && r.port.End() <= r.authority.End() && r.authority.End() <= p)
    && (k <= 2 ==> r.authority.End() <= r.path.start && r.path.End() <= p)
    && (k <= 1 ==> r.path.End() <= r.query.start && r.query.End() <= p)
    && (k == 0 ==> r.query.End() <= r.fragment.start)
  }

  /** Each stage keeps what `Partial` says of the views found so far. */
  lemma SchemeStep(s: seq<char>)
    requires SchemeLength(s) > 0
    ensures var n := SchemeLength(s); Partial(Blank(n + 1).(scheme := Span(0, n)), HierStage, n + 1, |s|)
  {
  }

  lemma HierEnd(s: seq<char>, p: nat, r: UriParts)
    requires Partial(r, HierStage, p, |s|)
    ensures r.Within(|s|) && r.InOrder()
  {
  }

  lemma HierStep(s: seq<char>, p: nat, r: UriParts)
    requires Partial(r, HierStage, p, |s|) && SlashesAt(s, p)
    ensures Partial(r.(authority := Span(p + 2, 0)), UserinfoStage, p + 2, |s|)
  {
  }

  lemma UserinfoStep(s: seq<char>, p: nat, r: UriParts)
    requires Partial(r, UserinfoStage, p, |s|)
    ensures var u := UserinfoPart(s, p); Partial(r.(userinfo := u.view), HostStage, u.next, |s|)
  {
  }

  lemma HostStep(s: seq<char>, p: nat, r: UriParts)
    requires Partial(r, HostStage, p, |s|)
    ensures var h := HostPart(s, p); Partial(r.(host := h.view), PortStage, h.next, |s|)
  {
  }

  lemma PortStep(s: seq<char>, p: nat, r: UriParts)
    requires Partial(r, PortStage, p, |s|)
    ensures var pt := PortPart(s, p); var a := r.authority.start;
      Partial(r.(port := pt.view, authority := Span(a, pt.next - a)), PathStage, pt.next, |s|)
  {
  }

  lemma PathStep(s: seq<char>, p: nat, r: UriParts)
    requires Partial(r, PathStage, p, |s|)
    ensures var pa := PathPart(s, p); Partial(r.(path := pa.view), QueryStage, pa.next, |s|)
  {
  }

  lemma QueryStep(s: seq<char>, p: nat, r: UriParts)
    requires Partial(r, QueryStage, p, |s|)
    ensures var q := DelimitedPart(s, p, AlphaQuestionMark); Partial(r.(query := q.view), FragmentStage, q.next, |s|)
  {
  }

  lemma FragmentStep(s: seq<char>, p: nat, r: UriParts)
    requires Partial(r, FragmentStage, p, |s|)
    ensures var f := DelimitedPart(s, p, AlphaNumberSign); Partial(r.(fragment := f.view), Done, f.next, |s|)
  {
  }

  lemma DoneEnd(p: nat, r: UriParts, len: nat)
    requires Partial(r, Done, p, len)
    ensures r.Within(len) && r.InOrder()
  {
  }

  /** The userinfo, host and port stages together: `parse_authority`. */
  lemma {:induction false} AuthorityStageOf(s: seq<char>, a: nat, r: UriParts, x: AuthorityParts)
    requires a <= |s| && AuthorityOf(s, a) == x
    ensures Drive(s, UserinfoStage, a, r.(authority := Span(a, 0)))
      == Drive(s, PathStage, x.next, r.(userinfo := x.userinfo, host := x.host, port := x.port, authority := Span(a, x.next - a)))
  {
    var u := UserinfoPart(s, a);
    var h := HostPart(s, u.next);
    var r1 := r.(authority := Span(a, 0)).(userinfo := u.view);
    assert Drive(s, UserinfoStage, a, r.(authority := Span(a, 0))) == Drive(s, HostStage, u.next, r1);
    assert Drive(s, HostStage, u.next, r1) == Drive(s, PortStage, h.next, r1.(host := h.view));
  }

  // The parse keeps its views inside the input and in input order, stage by stage.

  lemma FragmentShape(s: seq<char>, p: nat, r: UriParts)
    requires p <= |s| && Partial(r, FragmentStage, p, |s|)
    ensures var o := Drive(s, FragmentStage, p, r); o.Within(|s|) && o.InOrder()
  {
    var f := DelimitedPart(s, p, AlphaNumberSign);
    FragmentStep(s, p, r);
    DoneEnd(f.next, r.(fragment := f.view), |s|);
  }

  lemma QueryShape(s: seq<char>, p: nat, r: UriParts)
    requires p <= |s| && Partial(r, QueryStage, p, |s|)
    ensures var o := Drive(s, QueryStage, p, r); o.Within(|s|) && o.InOrder()
  {
    var q := DelimitedPart(s, p, AlphaQuestionMark);
    QueryStep(s, p, r);
    FragmentShape(s, q.next, r.(query := q.view));
  }

  lemma PathShape(s: seq<char>, p: nat, r: UriParts)
    requires p <= |s| && Partial(r, PathStage, p, |s|)
    ensures var o := Drive(s, PathStage, p, r); o.Within(|s|) && o.InOrder()
  {
    var pa := PathPart(s, p);
    PathStep(s, p, r);
    QueryShape(s, pa.next, r.(path := pa.view));
  }

  lemma PortShape(s: seq<char>, p: nat, r: UriParts)
    requires p <= |s| && Partial(r, PortStage, p, |s|)
    ensures var o := Drive(s, PortStage, p, r); o.Within(|s|) && o.InOrder()
  {
    var pt := PortPart(s, p);
    var a := r.authority.start;
    PortStep(s, p, r);
    PathShape(s, pt.next, r.(port := pt.view, authority := Span(a, pt.next - a)));
  }

  lemma HostShape(s: seq<char>, p: nat, r: UriParts)
    requires p <= |s| && Partial(r, HostStage, p, |s|)
    ensures var o := Drive(s, HostStage, p, r); o.Within(|s|) && o.InOrder()
  {
    var h := HostPart(s, p);
    HostStep(s, p, r);
    PortShape(s, h.next, r.(host := h.view));
  }

  lemma UserinfoShape(s: seq<char>, p: nat, r: UriParts)
    requires p <= |s| && Partial(r, UserinfoStage, p, |s|)
    ensures var o := Drive(s, UserinfoStage, p, r); o.Within(|s|) && o.InOrder()
  {
    var u := UserinfoPart(s, p);
    UserinfoStep(s, p, r);
    HostShape(s, u.next, r.(userinfo := u.view));
  }

  lemma HierShape(s: seq<char>, p: nat, r: UriParts)
    requires p <= |s| && Partial(r, HierStage, p, |s|)
    ensures var o := Drive(s, HierStage, p, r); o.Within(|s|) && o.InOrder()
  {
    if SlashesAt(s, p) {
      HierStep(s, p, r);
      UserinfoShape(s, p + 2, r.(authority := Span(p + 2, 0)));
    } else {
      HierEnd(s, p, r);
    }
  }

  lemma DriveShape(s: seq<char>)
    ensures var o := Drive(s, SchemeStage, 0, Blank(0)); o.Within(|s|) && o.InOrder()
  {
    var n := SchemeLength(s);
    if n > 0 {
      SchemeStep(s);
      HierShape(s, n + 1, Blank(n + 1).(scheme := Span(0, n)));
    }
  }

  // ---------------------------------------------------------------------------
  // The scanning parser.

  /** `parse_scheme`, scanning. */
  method ParseScheme(s: seq<char>) returns (n: nat)
    ensures n == SchemeLength(s)
  {
    n := 0;
    if |s| > 0 && IsAlpha(s[0]) {
      var m := ScanRun(s, 1, SchemeChars);
      if 1 + m < |s| && s[1 + m] == AlphaColon {
        n := 1 + m;
      }
    }
  }

  /** `parse_port`, scanning. */
  method ParsePort(s: seq<char>, p: nat) returns (r: Part)
    requires p <= |s|
    ensures r == PortPart(s, p)
  {
    r := Part(Span(p, 0), p);
    if p < |s| && s[p] == AlphaColon {
      var d := ScanRun(s, p + 1, Digits);
      if d > 0 {
        r := Part(Span(p + 1, d), p + 1 + d);
      }
    }
  }

  /** path-abempty, scanning. */
  method ParsePath(s: seq<char>, p: nat) returns (r: Part)
    requires p <= |s|
    ensures r == PathPart(s, p)
  {
    r := Part(Span(p, 0), p);
    if p < |s| && s[p] == AlphaSlash {
      var m := ScanRun(s, p + 1, PathChars);
      r := Part(Span(p, 1 + m), p + 1 + m);
    }
  }

  /** The query or the fragment, scanning. */
  method ParseDelimited(s: seq<char>, p: nat, delim: char) returns (r: Part)
    requires p <= |s|
    ensures r == DelimitedPart(s, p, delim)
  {
    r := Part(Span(p, 0), p);
    if p < |s| && s[p] == delim {
      var m := ScanRun(s, p + 1, QueryChars);
      r := Part(Span(p + 1, m), p + 1 + m);
    }
  }

  /** `parse_authority`, scanning. */
  method ParseAuthority(s: seq<char>, a: nat) returns (r: AuthorityParts)
    requires a <= |s|
    ensures r == AuthorityOf(s, a)
  {
    var u := UserinfoPart(s, a);
    var h := HostPart(s, u.next);
    var pt := ParsePort(s, h.next);
    r := AuthorityParts(u.view, h.view, pt.view, pt.next);
  }

  /**
   * The parse, scanning: the scheme and its ":", then "//" and the authority, the path,
   * the query and the fragment; it stops, with the remaining views empty, at the first
   * required part that is missing.
   */
  method DecomposeScan(s: seq<char>) returns (r: UriParts)
    ensures r == Decompose(s)
  {
    var n := ParseScheme(s);
    if n == 0 {
      return Blank(0);
    }
    r := ScanHier(s, n + 1, Blank(n + 1).(scheme := Span(0, n)));
  }

  /** "//", the authority and what follows it, scanning from `p`; nothing without "//". */
  method ScanHier(s: seq<char>, p: nat, r0: UriParts) returns (r: UriParts)
    requires p <= |s|
    ensures r == Drive(s, HierStage, p, r0)
  {
    if !SlashesAt(s, p) {
      return r0;
    }
    var au := ParseAuthority(s, p + 2);
    var r1 := r0.(userinfo := au.userinfo, host := au.host, port := au.port, authority := Span(p + 2, au.next - (p + 2)));
    assert Drive(s, HierStage, p, r0) == Drive(s, UserinfoStage, p + 2, r0.(authority := Span(p + 2, 0)));
    AuthorityStageOf(s, p + 2, r0, au);
    r := ScanTail(s, au.next, r1);
  }

  /** The path, the query and the fragment, scanning from `p`. */
  method ScanTail(s: seq<char>, p: nat, r0: UriParts) returns (r: UriParts)
    requires p <= |s|
    ensures r == Drive(s, PathStage, p, r0)
  {
    var pa := ParsePath(s, p);
    var r1 := r0.(path := pa.view);
    assert Drive(s, PathStage, p, r0) == Drive(s, QueryStage, pa.next, r1);
    var q := ParseDelimited(s, pa.next, AlphaQuestionMark);
    var r2 := r1.(query := q.view);
    assert Drive(s, QueryStage, pa.next, r1) == Drive(s, FragmentStage, q.next, r2);
    var f := ParseDelimited(s, q.next, AlphaNumberSign);
    r := r2.(fragment := f.view);
    assert Drive(s, FragmentStage, q.next, r2) == Drive(s, Done, f.next, r);
  }

  /** The view: the input and the eight views `parse` assigns once, at construction. */
  class UriView {
    const input: seq<char>
    var schemeView: Span
    var userinfoView: Span
    var hostView: Span
    var portView: Span
    var authorityView: Span
    var pathView: Span
    var queryView: Span
    var fragmentView: Span

    function Parts(): UriParts
      reads this
    {
      UriParts(schemeView, userinfoView, hostView, portView, authorityView, pathView, queryView, fragmentView)
    }

    /** The views are those of the input's decomposition. */
    predicate Valid()
      reads this
    {
      Parts() == Decompose(input)
    }

    constructor(s: seq<char>)
      ensures input == s && Valid()
    {
      input := s;
      schemeView, userinfoView, hostView, portView := Empty, Empty, Empty, Empty;
      authorityView, pathView, queryView, fragmentView := Empty, Empty, Empty, Empty;
      new;
      Parse();
    }

    /** `parse`: assigns every view, left to right. */
    method Parse()
      modifies this
      ensures Valid()
    {
      var r := DecomposeScan(input);
      schemeView, userinfoView, hostView, portView := r.scheme, r.userinfo, r.host, r.port;
      authorityView, pathView, queryView, fragmentView := r.authority, r.path, r.query, r.fragment;
    }

    /** `scheme()`: empty, or a scheme at the front of the input followed by ":". */
    function Scheme(): (t: seq<char>)
      reads this
      requires Valid()
      ensures t == [] || (IsSchemeText(t) && At(input, 0, t + [AlphaColon]))
    {
      SchemeSound(input);
      Text(input, schemeView)
    }

    /** `userinfo()`: always empty, since `parse_userinfo` recognises nothing. */
    function Userinfo(): (t: seq<char>)
      reads this
      requires Valid()
      ensures t == []
    {
      UserinfoSound(input);
      Text(input, userinfoView)
    }

    /** `host()`: empty, a dotted quad, or an IPv6 address the matcher takes between brackets. */
    function Host(): (t: seq<char>)
      reads this
      requires Valid()
      ensures t == [] || IsIPv4Text(t) || BracketedIPv6(input, hostView)
    {
      HostSound(input);
      Text(input, hostView)
    }

    /** `port()`: digits only, after a ":". */
    function Port(): (t: seq<char>)
      reads this
      requires Valid()
      ensures AllIn(t, Digits) && (t != [] ==> Preceded(input, portView, AlphaColon))
    {
      PortSound(input);
      Text(input, portView)
    }

    /** `authority()`: the text from the host, or its "@", to the end of the port. */
    function Authority(): (t: seq<char>)
      reads this
      requires Valid()
      ensures |t| == authorityView.len
      ensures authorityView.start <= hostView.start && portView.End() <= authorityView.End()
    {
      Text(input, authorityView)
    }

    /** `path()`: empty or "/" and path characters. */
    function Path(): (t: seq<char>)
      reads this
      requires Valid()
      ensures t == [] || (t[0] == AlphaSlash && AllIn(t, PathChars))
    {
      PathSound(input);
      Text(input, pathView)
    }

    /** `query()`: query characters, after a "?". */
    function Query(): (t: seq<char>)
      reads this
      requires Valid()
      ensures AllIn(t, QueryChars) && (t != [] ==> Preceded(input, queryView, AlphaQuestionMark))
    {
      QuerySound(input);
      Text(input, queryView)
    }

    /** `fragment()`: fragment characters, after a "#". */
    function Fragment(): (t: seq<char>)
      reads this
      requires Valid()
      ensures AllIn(t, QueryChars) && (t != [] ==> Preceded(input, fragmentView, AlphaNumberSign))
    {
      FragmentSound(input);
      Text(input, fragmentView)
    }
  }

  // ---------------------------------------------------------------------------
  // Soundness: what each view holds.

  /** The view starts right after a `c`. */
  predicate Preceded(s: seq<char>, v: Span, c: char) { 0 < v.start <= |s| && s[v.start - 1] == c }

  predicate IsSchemeText(t: seq<char>) { |t| > 0 && IsAlpha(t[0]) && AllIn(t, SchemeChars) }

  /** The host view is the text of an IPv6 address, between "[" and "]". */
  ghost predicate BracketedIPv6(s: seq<char>, v: Span)
  {
    && 0 < v.start && v.End() < |s|
    && s[v.start - 1] == AlphaBracketOpen && s[v.End()] == AlphaBracketClose
    && v.len > 0 && IsIPv6Text(Text(s, v))
  }

  /** The scheme view as a function of the input alone. */
  lemma SchemeView(s: seq<char>)
    ensures Decompose(s).scheme == Span(0, SchemeLength(s))
  {
    var n := SchemeLength(s);
    if n > 0 {
      DriveKeeps(s, HierStage, n + 1, Blank(n + 1).(scheme := Span(0, n)));
    }
  }

  lemma {:induction false} SchemeLengthSound(s: seq<char>)
    ensures var t := Text(s, Span(0, SchemeLength(s)));
      t == [] || (IsSchemeText(t) && At(s, 0, t + [AlphaColon]))
  {
    var n := SchemeLength(s);
    if n > 0 {
      RunSpec(s, 1, SchemeChars);
      var t := Text(s, Span(0, n));
      assert AllIn(t, SchemeChars) by {
        forall i | 0 <= i < |t| ensures InClass(t[i], SchemeChars) {
          assert t[i] == s[i];
          if i > 0 {
            assert s[i] == s[1 + (i - 1)];
          }
        }
      }
      AtChar(s, n, AlphaColon);
      AtJoin(s, 0, t, [AlphaColon]);
    }
  }

  /** The scheme view is empty, or a scheme at the front of the input followed by ":". */
  lemma SchemeSound(s: seq<char>)
    ensures var t := Text(s, Decompose(s).scheme);
      t == [] || (IsSchemeText(t) && At(s, 0, t + [AlphaColon]))
  {
    SchemeView(s);
    SchemeLengthSound(s);
  }

  /** Without a scheme and its ":" the parse stops: every view is empty. */
  lemma NoSchemeBlank(s: seq<char>)
    requires !(exists n :: 0 < n < |s| && IsSchemeText(s[..n]) && s[n] == AlphaColon)
    ensures Decompose(s) == Blank(0)
  {
    var n := SchemeLength(s);
    if n > 0 {
      SchemeLengthSound(s);
      assert false;
    }
  }

  /** The input starts with a scheme, its ":" and "//". */
  predicate Hierarchical(s: seq<char>) { SchemeLength(s) > 0 && SlashesAt(s, SchemeLength(s) + 1) }

  /** The views of a URI whose hier-part is not "//" authority path-abempty are empty. */
  lemma FlatViews(s: seq<char>)
    requires !Hierarchical(s)
    ensures var r := Decompose(s);
      r.userinfo.len == 0 && r.host.len == 0 && r.port.len == 0 && r.path.len == 0
      && r.query.len == 0 && r.fragment.len == 0 && r.authority.len == 0
  {
    var n := SchemeLength(s);
    if n > 0 {
      var r := Blank(n + 1).(scheme := Span(0, n));
      assert Drive(s, HierStage, n + 1, r) == r;
    }
  }

  /** Later stages keep the views earlier stages found. */
  lemma {:induction false} DriveKeeps(s: seq<char>, st: Stage, p: nat, r: UriParts)
    requires p <= |s| && (InAuthority(st) ==> r.authority.start <= p)
    ensures var o := Drive(s, st, p, r); var k := StagesLeft(st);
      && (k <= 7 ==> o.scheme == r.scheme)
      && (k <= 5 ==> o.userinfo == r.userinfo)
      && (k <= 4 ==> o.host == r.host)
      && (k <= 3 ==> o.port == r.port && o.authority == r.authority)
      && (k <= 2 ==> o.path == r.path)
      && (k <= 1 ==> o.query == r.query)
    decreases StagesLeft(st)
  {
    match st
    case HierStage =>
      if SlashesAt(s, p) {
        DriveKeeps(s, UserinfoStage, p + 2, r.(authority := Span(p + 2, 0)));
      }
    case UserinfoStage =>
      var u := UserinfoPart(s, p);
      DriveKeeps(s, HostStage, u.next, r.(userinfo := u.view));
    case HostStage =>
      var h := HostPart(s, p);
      DriveKeeps(s, PortStage, h.next, r.(host := h.view));
    case PortStage =>
      var pt := PortPart(s, p);
      var a := r.authority.start;
      DriveKeeps(s, PathStage, pt.next, r.(port := pt.view, authority := Span(a, pt.next - a)));
    case PathStage =>
      var pa := PathPart(s, p);
      DriveKeeps(s, QueryStage, pa.next, r.(path := pa.view));
    case QueryStage =>
      var q := DelimitedPart(s, p, AlphaQuestionMark);
      DriveKeeps(s, FragmentStage, q.next, r.(query := q.view));
    case FragmentStage =>
      var fr := DelimitedPart(s, p, AlphaNumberSign);
      DriveKeeps(s, Done, fr.next, r.(fragment := fr.view));
    case Done =>
    case SchemeStage =>
  }

  /** A hierarchical URI's views up to its authority, and the parse that continues after it. */
  lemma HierViews(s: seq<char>) returns (n: nat, au: AuthorityParts, r: UriParts)
    requires Hierarchical(s)
    ensures n == SchemeLength(s) && au == AuthorityOf(s, n + 3) && n + 3 <= au.next <= |s|
    ensures Decompose(s) == Drive(s, PathStage, au.next, r)
    ensures r.scheme == Span(0, n) && r.authority == Span(n + 3, au.next - (n + 3))
    ensures r.userinfo == au.userinfo && r.host == au.host && r.port == au.port
  {
    n := SchemeLength(s);
    au := AuthorityOf(s, n + 3);
    var r0 := Blank(n + 1).(scheme := Span(0, n));
    r := r0.(userinfo := au.userinfo, host := au.host, port := au.port, authority := Span(n + 3, au.next - (n + 3)));
    assert Drive(s, HierStage, n + 1, r0) == Drive(s, UserinfoStage, n + 3, r0.(authority := Span(n + 3, 0)));
    AuthorityStageOf(s, n + 3, r0, au);
  }

  /** The host view is one `HostPart` matched. */
  lemma HostView(s: seq<char>) returns (p: nat)
    requires Hierarchical(s)
    ensures p <= |s| && Decompose(s).host == HostPart(s, p).view
  {
    var n, au, r := HierViews(s);
    DriveKeeps(s, PathStage, au.next, r);
    p := UserinfoPart(s, n + 3).next;
  }

  /** The port view is one `PortPart` matched. */
  lemma PortView(s: seq<char>) returns (p: nat)
    requires Hierarchical(s)
    ensures p <= |s| && Decompose(s).port == PortPart(s, p).view
  {
    var n, au, r := HierViews(s);
    DriveKeeps(s, PathStage, au.next, r);
    p := HostPart(s, UserinfoPart(s, n + 3).next).next;
  }

  /** The path view is one `PathPart` matched. */
  lemma PathView(s: seq<char>) returns (p: nat)
    requires Hierarchical(s)
    ensures p <= |s| && Decompose(s).path == PathPart(s, p).view
  {
    var n, au, r := HierViews(s);
    p := au.next;
    var pa := PathPart(s, p);
    assert Drive(s, PathStage, p, r) == Drive(s, QueryStage, pa.next, r.(path := pa.view));
    DriveKeeps(s, QueryStage, pa.next, r.(path := pa.view));
  }

  /** The query view is one `DelimitedPart` matched at a "?". */
  lemma QueryView(s: seq<char>) returns (p: nat)
    requires Hierarchical(s)
    ensures p <= |s| && Decompose(s).query == DelimitedPart(s, p, AlphaQuestionMark).view
  {
    var n, au, r := HierViews(s);
    var pa := PathPart(s, au.next);
    p := pa.next;
    var q := DelimitedPart(s, p, AlphaQuestionMark);
    var r2 := r.(path := pa.view);
    assert Drive(s, PathStage, au.next, r) == Drive(s, QueryStage, p, r2);
    assert Drive(s, QueryStage, p, r2) == Drive(s, FragmentStage, q.next, r2.(query := q.view));
    DriveKeeps(s, FragmentStage, q.next, r2.(query := q.view));
  }

  /** The fragment view is one `DelimitedPart` matched at a "#". */
  lemma FragmentView(s: seq<char>) returns (p: nat)
    requires Hierarchical(s)
    ensures p <= |s| && Decompose(s).fragment == DelimitedPart(s, p, AlphaNumberSign).view
  {
    var n, au, r := HierViews(s);
    var pa := PathPart(s, au.next);
    var q := DelimitedPart(s, pa.next, AlphaQuestionMark);
    p := q.next;
    var f := DelimitedPart(s, p, AlphaNumberSign);
    var r2 := r.(path := pa.view);
    var r3 := r2.(query := q.view);
    assert Drive(s, PathStage, au.next, r) == Drive(s, QueryStage, pa.next, r2);
    assert Drive(s, QueryStage, pa.next, r2) == Drive(s, FragmentStage, p, r3);
    assert Drive(s, FragmentStage, p, r3) == Drive(s, Done, f.next, r3.(fragment := f.view));
  }

  /** The userinfo view is always empty. */
  lemma UserinfoSound(s: seq<char>)
    ensures Decompose(s).userinfo.len == 0
  {
    if Hierarchical(s) {
      var n, au, r := HierViews(s);
      DriveKeeps(s, PathStage, au.next, r);
    } else {
      FlatViews(s);
    }
  }

  lemma HostPartSound(s: seq<char>, p: nat)
    requires p <= |s|
    ensures var v := HostPart(s, p).view;
      v.len == 0 || IsIPv4Text(Text(s, v)) || BracketedIPv6(s, v)
  {
    if p < |s| && s[p] == AlphaBracketOpen {
      var m := ParseIPv6Address(s, p + 1);
      if m > 0 && p + 1 + m < |s| && s[p + 1 + m] == AlphaBracketClose {
        BracketedOf(s, p, m);
      }
    } else if ParseIPv4Address(s, p) > 0 {
      IPv4Sound(s, p);
      assert Text(s, HostPart(s, p).view) == s[p..p + ParseIPv4Address(s, p)];
    }
  }

  /** What the IPv6 matcher takes between "[" and "]" is a bracketed IPv6 address. */
  lemma BracketedOf(s: seq<char>, p: nat, m: nat)
    requires p < |s| && s[p] == AlphaBracketOpen && m == ParseIPv6Address(s, p + 1)
    requires m > 0 && p + 1 + m < |s| && s[p + 1 + m] == AlphaBracketClose
    ensures BracketedIPv6(s, Span(p + 1, m))
  {
    IPv6Sound(s, p + 1);
    assert Text(s, Span(p + 1, m)) == s[p + 1..p + 1 + m];
  }

  /** The host view is empty, a dotted quad, or an IPv6 address between brackets. */
  lemma HostSound(s: seq<char>)
    ensures var v := Decompose(s).host;
      v.len == 0 || IsIPv4Text(Text(s, v)) || BracketedIPv6(s, v)
  {
    if Hierarchical(s) {
      var p := HostView(s);
      HostPartSound(s, p);
    } else {
      FlatViews(s);
    }
  }

  lemma PortPartSound(s: seq<char>, p: nat)
    requires p <= |s|
    ensures var v := PortPart(s, p).view;
      AllIn(Text(s, v), Digits) && (v.len > 0 ==> Preceded(s, v, AlphaColon))
  {
    if p < |s| && s[p] == AlphaColon {
      RunSpec(s, p + 1, Digits);
    }
  }

  /** The port view holds digits only, after a ":". */
  lemma PortSound(s: seq<char>)
    ensures var v := Decompose(s).port;
      AllIn(Text(s, v), Digits) && (v.len > 0 ==> Preceded(s, v, AlphaColon))
  {
    if Hierarchical(s) {
      var p := PortView(s);
      PortPartSound(s, p);
    } else {
      FlatViews(s);
    }
  }

  lemma PathPartSound(s: seq<char>, p: nat)
    requires p <= |s|
    ensures var t := Text(s, PathPart(s, p).view);
      t == [] || (t[0] == AlphaSlash && AllIn(t, PathChars))
  {
    if p < |s| && s[p] == AlphaSlash {
      RunSpec(s, p + 1, PathChars);
      var t := Text(s, PathPart(s, p).view);
      forall i | 0 <= i < |t| ensures InClass(t[i], PathChars) {
        assert t[i] == s[p + i];
      }
    }
  }

  /** The path view is empty, or "/" and path characters. */
  lemma PathSound(s: seq<char>)
    ensures var t := Text(s, Decompose(s).path);
      t == [] || (t[0] == AlphaSlash && AllIn(t, PathChars))
  {
    if Hierarchical(s) {
      var p := PathView(s);
      PathPartSound(s, p);
    } else {
      FlatViews(s);
    }
  }

  /** The characters of a query or fragment view at `p`. */
  lemma DelimitedSound(s: seq<char>, p: nat, delim: char)
    requires p <= |s|
    ensures var v := DelimitedPart(s, p, delim).view;
      AllIn(Text(s, v), QueryChars) && (v.len > 0 ==> Preceded(s, v, delim))
  {
    if p < |s| && s[p] == delim {
      RunSpec(s, p + 1, QueryChars);
    }
  }

  /** The query view holds query characters only, after a "?". */
  lemma QuerySound(s: seq<char>)
    ensures var v := Decompose(s).query;
      AllIn(Text(s, v), QueryChars) && (v.len > 0 ==> Preceded(s, v, AlphaQuestionMark))
  {
    if Hierarchical(s) {
      var p := QueryView(s);
      DelimitedSound(s, p, AlphaQuestionMark);
    } else {
      FlatViews(s);
    }
  }

  /** The fragment view holds fragment characters only, after a "#". */
  lemma FragmentSound(s: seq<char>)
    ensures var v := Decompose(s).fragment;
      AllIn(Text(s, v), QueryChars) && (v.len > 0 ==> Preceded(s, v, AlphaNumberSign))
  {
    if Hierarchical(s) {
      var p := FragmentView(s);
      DelimitedSound(s, p, AlphaNumberSign);
    } else {
      FlatViews(s);
    }
  }
}
