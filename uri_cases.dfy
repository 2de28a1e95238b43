/**
 * The cases of the URI view's test suite, stated over the model: the views the parser
 * finds in each input. A well-formed input is written from its components, and the
 * round trip of `UriCompose` reads its views off. The input is a parameter fixed by the
 * precondition, so that the verifier reasons about the parse instead of evaluating it
 * on the literal.
 */
module UriCases {
  import opened Wrappers
  import opened Spans
  import opened IPv4
  import opened IPv6
  import opened Uri
  import opened UriCompose

  /** The scheme, host and port views of `s`, the three every test case checks. */
  predicate Shows(s: seq<char>, scheme: seq<char>, host: seq<char>, port: seq<char>)
  {
    var r := Decompose(s);
    Text(s, r.scheme) == scheme && Text(s, r.host) == host && Text(s, r.port) == port
  }

  /** The views of an input the components compose to are the components'. */
  lemma {:induction false} ComposeReads(c: Components, s: seq<char>)
    requires WellFormed(c) && Compose(c) == s
    ensures Shows(s, c.scheme, HostText(c.host), c.port)
    ensures Text(s, Decompose(s).authority) == HostWritten(c.host) + PortWritten(c.port)
    ensures Text(s, Decompose(s).path) == c.path && Text(s, Decompose(s).query) == OrEmpty(c.query)
  {
    ComposeScheme(c);
    ComposeHost(c);
    ComposePort(c);
    ComposeAuthority(c);
    ComposePath(c);
    ComposeQuery(c);
  }

  /** test_empty: nothing to parse, every view empty. */
  lemma TestEmpty(s: seq<char>)
    requires s == ""
    ensures Decompose(s) == Blank(0) && Shows(s, "", "", "")
  {
  }

  /** The components of test_scheme. */
  function SchemeCase(): Components
  {
    Components("scheme", NoHost, "", "", None, None)
  }

  lemma SchemeCaseValid()
    ensures WellFormed(SchemeCase())
  {
    assert IsSchemeText("scheme");
  }

  lemma SchemeCaseTail()
    ensures AuthorityTail(SchemeCase()) == ""
  {
  }

  lemma SchemeCaseComposed()
    ensures Compose(SchemeCase()) == "scheme://"
  {
    SchemeCaseTail();
  }

  lemma SchemeCaseHost()
    ensures HostText(SchemeCase().host) == ""
  {
  }

  /** test_scheme. */
  lemma TestScheme(s: seq<char>)
    requires s == "scheme://"
    ensures Shows(s, "scheme", "", "")
  {
    SchemeCaseValid();
    SchemeCaseComposed();
    SchemeCaseHost();
    ComposeReads(SchemeCase(), s);
  }

  /** The components of test_host. */
  function HostCase(): Components
  {
    Components("scheme", V4Host(["1", "2", "3", "4"]), "", "", None, None)
  }

  lemma HostCaseValid()
    ensures WellFormed(HostCase())
  {
    assert IsSchemeText("scheme");
  }

  lemma HostCaseTail()
    ensures AuthorityTail(HostCase()) == "1.2.3.4"
  {
    assert HostWritten(HostCase().host) == "1.2.3.4";
  }

  lemma HostCaseComposed()
    ensures Compose(HostCase()) == "scheme://1.2.3.4"
  {
    HostCaseTail();
  }

  lemma HostCaseHost()
    ensures HostText(HostCase().host) == "1.2.3.4"
  {
  }

  /** test_host. */
  lemma TestHost(s: seq<char>)
    requires s == "scheme://1.2.3.4"
    ensures Shows(s, "scheme", "1.2.3.4", "")
  {
    HostCaseValid();
    HostCaseComposed();
    HostCaseHost();
    ComposeReads(HostCase(), s);
  }

  /** The components of test_host_port. */
  function HostPortCase(): Components
  {
    Components("scheme", V4Host(["1", "2", "3", "4"]), "80", "", None, None)
  }

  lemma HostPortCaseValid()
    ensures WellFormed(HostPortCase())
  {
    assert IsSchemeText("scheme");
  }

  lemma HostPortCaseTail()
    ensures AuthorityTail(HostPortCase()) == "1.2.3.4:80"
  {
    assert HostWritten(HostPortCase().host) == "1.2.3.4";
  }

  lemma HostPortCaseComposed()
    ensures Compose(HostPortCase()) == "scheme://1.2.3.4:80"
  {
    HostPortCaseTail();
  }

  lemma HostPortCaseHost()
    ensures HostText(HostPortCase().host) == "1.2.3.4"
  {
  }

  lemma HostPortCaseAuthority()
    ensures HostWritten(HostPortCase().host) + PortWritten(HostPortCase().port) == "1.2.3.4:80"
  {
  }

  /** test_host_port. */
  lemma TestHostPort(s: seq<char>)
    requires s == "scheme://1.2.3.4:80"
    ensures Shows(s, "scheme", "1.2.3.4", "80")
    ensures Text(s, Decompose(s).authority) == "1.2.3.4:80"
  {
    HostPortCaseValid();
    HostPortCaseComposed();
    HostPortCaseHost();
    HostPortCaseAuthority();
    ComposeReads(HostPortCase(), s);
  }

  /** The components of test_host_port_slash. */
  function HostPortSlashCase(): Components
  {
    Components("scheme", V4Host(["1", "2", "3", "4"]), "80", "/", None, None)
  }

  lemma HostPortSlashCaseValid()
    ensures WellFormed(HostPortSlashCase())
  {
    assert IsSchemeText("scheme");
  }

  lemma HostPortSlashCaseTail()
    ensures AuthorityTail(HostPortSlashCase()) == "1.2.3.4:80/"
  {
    assert HostWritten(HostPortSlashCase().host) == "1.2.3.4";
  }

  lemma HostPortSlashCaseComposed()
    ensures Compose(HostPortSlashCase()) == "scheme://1.2.3.4:80/"
  {
    HostPortSlashCaseTail();
  }

  lemma HostPortSlashCaseHost()
    ensures HostText(HostPortSlashCase().host) == "1.2.3.4"
  {
  }

  /** test_host_port_slash. */
  lemma TestHostPortSlash(s: seq<char>)
    requires s == "scheme://1.2.3.4:80/"
    ensures Shows(s, "scheme", "1.2.3.4", "80")
  {
    HostPortSlashCaseValid();
    HostPortSlashCaseComposed();
    HostPortSlashCaseHost();
    ComposeReads(HostPortSlashCase(), s);
  }

  /** The components of test_ipv4_two_halfs. */
  function IPv4TwoHalfsCase(): Components
  {
    Components("scheme", V4Host(["2", "25", "250", "255"]), "", "", None, None)
  }

  lemma IPv4TwoHalfsCaseValid()
    ensures WellFormed(IPv4TwoHalfsCase())
  {
    assert IsSchemeText("scheme");
    DecimalValueOfTwo("25");
    DecimalValueOfThree("250");
    DecimalValueOfThree("255");
  }

  lemma IPv4TwoHalfsCaseTail()
    ensures AuthorityTail(IPv4TwoHalfsCase()) == "2.25.250.255"
  {
    assert HostWritten(IPv4TwoHalfsCase().host) == "2.25.250.255";
  }

  lemma IPv4TwoHalfsCaseComposed()
    ensures Compose(IPv4TwoHalfsCase()) == "scheme://2.25.250.255"
  {
    IPv4TwoHalfsCaseTail();
  }

  lemma IPv4TwoHalfsCaseHost()
    ensures HostText(IPv4TwoHalfsCase().host) == "2.25.250.255"
  {
  }

  /** test_ipv4_two_halfs. */
  lemma TestIPv4TwoHalfs(s: seq<char>)
    requires s == "scheme://2.25.250.255"
    ensures Shows(s, "scheme", "2.25.250.255", "")
  {
    IPv4TwoHalfsCaseValid();
    IPv4TwoHalfsCaseComposed();
    IPv4TwoHalfsCaseHost();
    ComposeReads(IPv4TwoHalfsCase(), s);
  }

  /** fail_ipv4_large: the scheme and the "//" of "scheme://256.0.0.0". */
  lemma IPv4LargeScheme(s: seq<char>)
    requires s == "scheme://256.0.0.0"
    ensures SchemeLength(s) == 6 && SlashesAt(s, 7)
  {
    assert Run(s, 6, SchemeChars) == 0;
    assert Run(s, 5, SchemeChars) == 1;
    assert Run(s, 4, SchemeChars) == 2;
    assert Run(s, 3, SchemeChars) == 3;
    assert Run(s, 2, SchemeChars) == 4;
    assert Run(s, 1, SchemeChars) == 5;
  }

  /** The first octet of "256.0.0.0" stops at "25" and no "." follows it, so the host is refused. */
  lemma IPv4LargeHost(s: seq<char>)
    requires s == "scheme://256.0.0.0"
    ensures HostPart(s, 9) == Part(Span(9, 0), 9)
  {
    assert ParseDecOctet(s, 9) == 2;
    assert ParseIPv4Address(s, 9) == 0;
  }

  /** Neither an "@" nor a ":" stands where the host was refused. */
  lemma IPv4LargeAround(s: seq<char>)
    requires s == "scheme://256.0.0.0"
    ensures UserinfoPart(s, 9) == Part(Span(9, 0), 9) && PortPart(s, 9) == Part(Span(9, 0), 9)
  {
  }

  /** fail_ipv4_large: "256" is not a dec-octet, so the host view and the port view are empty. */
  lemma TestIPv4Large(s: seq<char>)
    requires s == "scheme://256.0.0.0"
    ensures Shows(s, "scheme", "", "")
  {
    IPv4LargeScheme(s);
    IPv4LargeHost(s);
    IPv4LargeAround(s);
    var e := Span(9, 0);
    var r0 := Blank(7).(scheme := Span(0, 6));
    var r1 := r0.(authority := e);
    var r := r1.(userinfo := e, host := e, port := e);
    assert Decompose(s) == Drive(s, HierStage, 7, r0);
    assert Drive(s, HierStage, 7, r0) == Drive(s, UserinfoStage, 9, r1);
    assert Drive(s, UserinfoStage, 9, r1) == Drive(s, HostStage, 9, r1.(userinfo := e));
    assert Drive(s, HostStage, 9, r1.(userinfo := e)) == Drive(s, PortStage, 9, r1.(userinfo := e, host := e));
    assert Drive(s, PortStage, 9, r1.(userinfo := e, host := e)) == Drive(s, PathStage, 9, r);
    DriveKeeps(s, PathStage, 9, r);
    assert Text(s, Span(0, 6)) == "scheme";
  }

  /** The components of test_ipv6_line_6a_v6. */
  function IPv6Line6Case(): Components
  {
    Components("scheme", V6Host(Compressed(["1111"], ["FFFF"], TailLs32(HexPair("1234", "5678")))), "", "", None, None)
  }

  lemma IPv6Line6CaseValid()
    ensures WellFormed(IPv6Line6Case())
  {
    assert IsSchemeText("scheme");
  }

  lemma IPv6Line6CaseTail()
    ensures AuthorityTail(IPv6Line6Case()) == "[1111::FFFF:1234:5678]"
  {
    assert HostWritten(IPv6Line6Case().host) == "[1111::FFFF:1234:5678]";
  }

  lemma IPv6Line6CaseComposed()
    ensures Compose(IPv6Line6Case()) == "scheme://[1111::FFFF:1234:5678]"
  {
    IPv6Line6CaseTail();
  }

  lemma IPv6Line6CaseHost()
    ensures HostText(IPv6Line6Case().host) == "1111::FFFF:1234:5678"
  {
  }

  /** test_ipv6_line_6a_v6. */
  lemma TestIPv6Line6(s: seq<char>)
    requires s == "scheme://[1111::FFFF:1234:5678]"
    ensures Shows(s, "scheme", "1111::FFFF:1234:5678", "")
  {
    IPv6Line6CaseValid();
    IPv6Line6CaseComposed();
    IPv6Line6CaseHost();
    ComposeReads(IPv6Line6Case(), s);
  }

  /** The components of test_ipv6_line_7a_v6. */
  function IPv6Line7Case(): Components
  {
    Components("scheme", V6Host(Compressed(["1111"], [], TailLs32(HexPair("1234", "5678")))), "", "", None, None)
  }

  lemma IPv6Line7CaseValid()
    ensures WellFormed(IPv6Line7Case())
  {
    assert IsSchemeText("scheme");
  }

  lemma IPv6Line7CaseTail()
    ensures AuthorityTail(IPv6Line7Case()) == "[1111::1234:5678]"
  {
    assert HostWritten(IPv6Line7Case().host) == "[1111::1234:5678]";
  }

  lemma IPv6Line7CaseComposed()
    ensures Compose(IPv6Line7Case()) == "scheme://[1111::1234:5678]"
  {
    IPv6Line7CaseTail();
  }

  lemma IPv6Line7CaseHost()
    ensures HostText(IPv6Line7Case().host) == "1111::1234:5678"
  {
  }

  /** test_ipv6_line_7a_v6. */
  lemma TestIPv6Line7(s: seq<char>)
    requires s == "scheme://[1111::1234:5678]"
    ensures Shows(s, "scheme", "1111::1234:5678", "")
  {
    IPv6Line7CaseValid();
    IPv6Line7CaseComposed();
    IPv6Line7CaseHost();
    ComposeReads(IPv6Line7Case(), s);
  }

  /** The components of test_ipv6_line_7a_v4. */
  function IPv6Line7DottedCase(): Components
  {
    Components("scheme", V6Host(Compressed(["1111"], [], TailLs32(Dotted(["1", "2", "3", "4"])))), "", "", None, None)
  }

  lemma IPv6Line7DottedCaseValid()
    ensures WellFormed(IPv6Line7DottedCase())
  {
    assert IsSchemeText("scheme");
  }

  lemma IPv6Line7DottedCaseTail()
    ensures AuthorityTail(IPv6Line7DottedCase()) == "[1111::1.2.3.4]"
  {
    assert HostWritten(IPv6Line7DottedCase().host) == "[1111::1.2.3.4]";
  }

  lemma IPv6Line7DottedCaseComposed()
    ensures Compose(IPv6Line7DottedCase()) == "scheme://[1111::1.2.3.4]"
  {
    IPv6Line7DottedCaseTail();
  }

  lemma IPv6Line7DottedCaseHost()
    ensures HostText(IPv6Line7DottedCase().host) == "1111::1.2.3.4"
  {
  }

  /** test_ipv6_line_7a_v4. */
  lemma TestIPv6Line7Dotted(s: seq<char>)
    requires s == "scheme://[1111::1.2.3.4]"
    ensures Shows(s, "scheme", "1111::1.2.3.4", "")
  {
    IPv6Line7DottedCaseValid();
    IPv6Line7DottedCaseComposed();
    IPv6Line7DottedCaseHost();
    ComposeReads(IPv6Line7DottedCase(), s);
  }

  /** The components of test_ipv6_line_8a_v6. */
  function IPv6Line8Case(): Components
  {
    Components("scheme", V6Host(Compressed(["1111"], [], TailH16("1234"))), "", "", None, None)
  }

  lemma IPv6Line8CaseValid()
    ensures WellFormed(IPv6Line8Case())
  {
    assert IsSchemeText("scheme");
  }

  lemma IPv6Line8CaseTail()
    ensures AuthorityTail(IPv6Line8Case()) == "[1111::1234]"
  {
    assert HostWritten(IPv6Line8Case().host) == "[1111::1234]";
  }

  lemma IPv6Line8CaseComposed()
    ensures Compose(IPv6Line8Case()) == "scheme://[1111::1234]"
  {
    IPv6Line8CaseTail();
  }

  lemma IPv6Line8CaseHost()
    ensures HostText(IPv6Line8Case().host) == "1111::1234"
  {
  }

  /** test_ipv6_line_8a_v6. */
  lemma TestIPv6Line8(s: seq<char>)
    requires s == "scheme://[1111::1234]"
    ensures Shows(s, "scheme", "1111::1234", "")
  {
    IPv6Line8CaseValid();
    IPv6Line8CaseComposed();
    IPv6Line8CaseHost();
    ComposeReads(IPv6Line8Case(), s);
  }

  /** The components of test_ipv6_line_9a_v6. */
  function IPv6Line9Case(): Components
  {
    Components("scheme", V6Host(Compressed(["1111"], [], TailNone)), "", "", None, None)
  }

  lemma IPv6Line9CaseValid()
    ensures WellFormed(IPv6Line9Case())
  {
    assert IsSchemeText("scheme");
  }

  lemma IPv6Line9CaseTail()
    ensures AuthorityTail(IPv6Line9Case()) == "[1111::]"
  {
    assert HostWritten(IPv6Line9Case().host) == "[1111::]";
  }

  lemma IPv6Line9CaseComposed()
    ensures Compose(IPv6Line9Case()) == "scheme://[1111::]"
  {
    IPv6Line9CaseTail();
  }

  lemma IPv6Line9CaseHost()
    ensures HostText(IPv6Line9Case().host) == "1111::"
  {
  }

  /** test_ipv6_line_9a_v6. */
  lemma TestIPv6Line9(s: seq<char>)
    requires s == "scheme://[1111::]"
    ensures Shows(s, "scheme", "1111::", "")
  {
    IPv6Line9CaseValid();
    IPv6Line9CaseComposed();
    IPv6Line9CaseHost();
    ComposeReads(IPv6Line9Case(), s);
  }

  /** The components of test_path_plain. */
  function PathPlainCase(): Components
  {
    Components("scheme", V4Host(["0", "1", "2", "3"]), "80", "/path", None, None)
  }

  lemma PathPlainCaseValid()
    ensures WellFormed(PathPlainCase())
  {
    assert IsSchemeText("scheme");
  }

  lemma PathPlainCaseTail()
    ensures AuthorityTail(PathPlainCase()) == "0.1.2.3:80/path"
  {
    assert HostWritten(PathPlainCase().host) == "0.1.2.3";
  }

  lemma PathPlainCaseComposed()
    ensures Compose(PathPlainCase()) == "scheme://0.1.2.3:80/path"
  {
    PathPlainCaseTail();
  }

  lemma PathPlainCaseHost()
    ensures HostText(PathPlainCase().host) == "0.1.2.3"
  {
  }

  lemma PathPlainCasePath()
    ensures PathPlainCase().path == "/path"
  {
  }

  /** test_path_plain. */
  lemma TestPathPlain(s: seq<char>)
    requires s == "scheme://0.1.2.3:80/path"
    ensures Shows(s, "scheme", "0.1.2.3", "80")
    ensures Text(s, Decompose(s).path) == "/path"
  {
    PathPlainCaseValid();
    PathPlainCaseComposed();
    PathPlainCaseHost();
    PathPlainCasePath();
    ComposeReads(PathPlainCase(), s);
  }

  /** The components of test_query_plain. */
  function QueryPlainCase(): Components
  {
    Components("scheme", V4Host(["0", "1", "2", "3"]), "80", "/path", Some("query"), None)
  }

  lemma QueryPlainCaseValid()
    ensures WellFormed(QueryPlainCase())
  {
    assert IsSchemeText("scheme");
  }

  lemma QueryPlainCaseTail()
    ensures AuthorityTail(QueryPlainCase()) == "0.1.2.3:80/path?query"
  {
    assert HostWritten(QueryPlainCase().host) == "0.1.2.3";
  }

  lemma QueryPlainCaseComposed()
    ensures Compose(QueryPlainCase()) == "scheme://0.1.2.3:80/path?query"
  {
    QueryPlainCaseTail();
  }

  lemma QueryPlainCaseHost()
    ensures HostText(QueryPlainCase().host) == "0.1.2.3"
  {
  }

  lemma QueryPlainCasePath()
    ensures QueryPlainCase().path == "/path"
  {
  }

  lemma QueryPlainCaseQuery()
    ensures OrEmpty(QueryPlainCase().query) == "query"
  {
  }

  /** test_query_plain. */
  lemma TestQueryPlain(s: seq<char>)
    requires s == "scheme://0.1.2.3:80/path?query"
    ensures Shows(s, "scheme", "0.1.2.3", "80")
    ensures Text(s, Decompose(s).path) == "/path"
    ensures Text(s, Decompose(s).query) == "query"
  {
    QueryPlainCaseValid();
    QueryPlainCaseComposed();
    QueryPlainCaseHost();
    QueryPlainCasePath();
    QueryPlainCaseQuery();
    ComposeReads(QueryPlainCase(), s);
  }
}
