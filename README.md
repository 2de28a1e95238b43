# uriview in Dafny

A model of the three components of the uriview library:

- **`uri_view`** splits a URI into non-copying views of its scheme, userinfo, host, port, authority, path and query (RFC 3986 section 3).
  - The input is a `seq<char>`. Each view is a `Span` (start, length) into it.
  - Each `parse_X` helper is a function from a position to what it consumed.
  - The class `Uri.UriView` holds the views that `parse` assigns at construction.
  - Hosts are IPv4 dotted quads, with the longest-match `dec-octet` rule, or bracketed IPv6 addresses, with the nine `IPv6address` lines of RFC 3986 section 3.2.2.
  - Both host matchers are proved sound and complete. What a matcher takes is an address of its grammar. An address followed by a character no address continues with is taken whole.
  - `UriCompose` writes a URI out from its components and proves that the parser takes every well-formed one apart into exactly those texts.
- **`form_view`** iterates over an `application/x-www-form-urlencoded` list `key=value&...` (HTML 4.01 section 17.13.4).
  - The class `Form.FormView` keeps the cursor, the current key and value views and the pair count.
  - `Next` moves to the next pair; construction primes the first.
  - `Key` and `Value` decode `+` to a space and `%HH` to a byte.
  - The iterator is proved to yield exactly the pairs of the input, in order. Encoding a list of pairs and reading it back gives the list.
- **`traits<char>`** is the ASCII classification, the hex-nibble conversion and the named punctuation constants.

The modules are:

| file | module | models |
|---|---|---|
| wrappers.dfy | Wrappers | `Option` and `Result` |
| spans.dfy | Spans | views (`boost::string_ref` slices), text at a position |
| traits.dfy | Traits | `traits<char>` |
| ipv4.dfy | IPv4 | `parse_ipv4address`, `parse_dec_octet` |
| ipv6.dfy | IPv6 | the IPv6 host matcher and the grammar it follows |
| uri.dfy | Uri | `uri_view`: the `parse_X` helpers, `parse`, the accessors |
| uri_compose.dfy | UriCompose | the round trip from components to text to views |
| uri_cases.dfy | UriCases | the cases of test/uri_view_suite.cpp |
| form.dfy | Form | `form_view` |
| form_cases.dfy | FormCases | the cases of test/form_view_suite.cpp |

The bodies of all three components are in `detail/*.ipp` files, which are not part of this model. The contracts follow the declarations in the headers and the behaviour the test suites assert.

The header of `uri_view` declares only `scheme()`, `userinfo()`, `host()` and `port()` (include/network/uri_view.hpp:18-21), and it has no IPv6 parser. The test suite also calls `authority()`, `path()` and `query()`, and uses bracketed IPv6 hosts. The model follows the tests: `Uri.UriView` has those accessors too, and `HostPart` takes IPv6 hosts.

## Model

| member | source | states |
|---|---|---|
| Traits.HexToInt | include/network/detail/traits.hpp:40 | `hex_to_int` maps a decimal digit, an upper-case or a lower-case hex letter to its nibble value, always in 0..15 |
| Traits.HexDigitUpperRoundTrip | include/network/detail/traits.hpp:40 | every nibble is the value of its upper-case hex digit |
| Traits.HexToIntRoundTrip | include/network/detail/traits.hpp:40 | an upper-case or decimal hex digit is the digit of its own nibble |
| Traits.HexCaseInsensitive | include/network/detail/traits.hpp:40 | upper- and lower-case hex letters have the same nibble |
| Traits.HexDigitExactly | include/network/detail/traits.hpp:39 | `is_hexdigit` holds exactly for 0-9, A-F and a-f |
| Traits.ConstantCodePoints | include/network/detail/traits.hpp:42-68 | the delimiter constants have their ASCII code points |
| Traits.SubDelimsAreEleven | include/network/detail/traits.hpp:43-60 | the sub-delims constants are eleven distinct characters |
| Traits.UnreservedPunctuationIsFour | include/network/detail/traits.hpp:54-68 | `- . _ ~` are four distinct characters |
| Traits.SubDelimsNotUnreserved | include/network/detail/traits.hpp:42-68 | no sub-delim is unreserved or a hex digit |
| IPv4.ParseDecOctet | include/network/uri_view.hpp:31 | `parse_dec_octet` takes at most three characters, and nothing exactly when no digit stands at the position |
| IPv4.ParseDecOctetSpec | include/network/uri_view.hpp:31 | `parse_dec_octet` is the longest match: what it takes is a dec-octet (0-255, no leading zero) and no longer prefix is |
| IPv4.DecOctetExact | include/network/uri_view.hpp:31 | a dec-octet not followed by a digit is taken exactly |
| IPv4.ParseDotted | include/network/uri_view.hpp:30 | `k` dec-octets separated by "." take at least one character and no more than the input holds; `IPv4.DottedSound` states what they are |
| IPv4.DottedSound | include/network/uri_view.hpp:30 | what `ParseDotted` takes is `k` dec-octets joined by ".", of exactly the length it reports |
| IPv4.ParseIPv4Address | include/network/uri_view.hpp:30 | `parse_ipv4address` consumes no more than the input holds |
| IPv4.IPv4Sound | include/network/uri_view.hpp:30 | whatever `parse_ipv4address` takes is four dec-octets joined by "." |
| IPv4.IPv4Complete | include/network/uri_view.hpp:30 | four dec-octets joined by ".", with no digit after them, are taken exactly |
| IPv4.OctetOverflowRejected | test/uri_view_suite.cpp:112-119 | the first octet of `256.0.0.0` stops at `25`, so there is no IPv4 address |
| IPv4.ParseDecOctetAsWritten | include/network/uri_view.hpp:31 | the octet rule that ends the octet at a leading `2` when `6`-`9` follows: at most three characters, nothing exactly when no digit stands at the position |
| IPv4.DecOctetAsWrittenMissesTwentySix | include/network/uri_view.hpp:31 | that rule takes only `2` of `26`, though `26` is a dec-octet, where `ParseDecOctet` takes both digits |
| IPv6.ParseH16 | test/uri_view_suite.cpp:125-564 | an h16 takes at most four characters, within the input; `IPv6.H16Sound` states they are hex digits |
| IPv6.ParseLs32 | test/uri_view_suite.cpp:125-564 | ls32 consumes no more than the input holds; `IPv6.Ls32Sound` states what it takes |
| IPv6.ParseGroupsThen | test/uri_view_suite.cpp:125-564 | `k` groups and a tail consume no more than the input holds |
| IPv6.ParseH16List | test/uri_view_suite.cpp:125-564 | the groups before "::" consume no more than the input holds |
| IPv6.ParseUncompressed | test/uri_view_suite.cpp:125-141 | line 1 consumes no more than the input holds; `IPv6.UncompressedSound` states what it takes |
| IPv6.ParseCompressed | test/uri_view_suite.cpp:125-564 | a compressed line consumes no more than the input holds; `IPv6.CompressedSound` states what it takes |
| IPv6.FirstCompressed | test/uri_view_suite.cpp:125-564 | lines 2-9, tried in order, consume no more than the input holds; `IPv6.FirstCompressedSound` states what they take |
| IPv6.ParseIPv6Address | test/uri_view_suite.cpp:125-564 | the IPv6 matcher consumes no more than the input holds; `IPv6.IPv6Sound` and `IPv6.IPv6Complete` state what it takes |
| IPv6.LineOf | test/uri_view_suite.cpp:125-564 | every valid address belongs to one of the nine lines of RFC 3986 section 3.2.2, line 1 exactly when it has no "::"; a compressed address has as many groups after "::" and the same tail as its line, and no more groups before "::" than the line allows |
| IPv6.H16Sound | test/uri_view_suite.cpp:125-564 | what an h16 match takes is one to four hex digits |
| IPv6.Ls32Sound | test/uri_view_suite.cpp:125-564 | what ls32 takes is a dotted quad of dec-octets or two h16 groups around ":", of exactly the length matched |
| IPv6.TailSound | test/uri_view_suite.cpp:125-564 | a matched tail is a valid ls32, h16 or empty tail of the kind asked for, of the length matched |
| IPv6.GroupsThenSound | test/uri_view_suite.cpp:125-564 | a match of `k` groups and a tail is `k` h16 groups each followed by ":", then a valid tail, of the length matched |
| IPv6.PrefixSound | test/uri_view_suite.cpp:125-564 | where "::" follows what `ParseH16List` took, that text is at most `max` h16 groups joined by ":" |
| IPv6.CompressedSound | test/uri_view_suite.cpp:125-564 | what a compressed line takes is its groups before "::", the "::", its groups after it and its tail, within the line's limits |
| IPv6.FirstCompressedSound | test/uri_view_suite.cpp:125-564 | what lines 2-9 take is the text of a valid compressed address |
| IPv6.UncompressedSound | test/uri_view_suite.cpp:125-141 | what line 1 takes is the text of a valid uncompressed address |
| IPv6.IPv6Sound | test/uri_view_suite.cpp:125-564 | whatever the IPv6 matcher takes is the text of an address of the nine lines of RFC 3986 section 3.2.2 |
| IPv6.UncompressedComplete | test/uri_view_suite.cpp:125-141 | six groups and an ls32 (two groups or a dotted quad) are taken whole |
| IPv6.IPv6Complete | test/uri_view_suite.cpp:125-564 | the text of any address of the nine lines, with `h16:h16` or dotted-quad tails, is taken exactly when a non-address character follows |
| Uri.RunSpec | include/network/uri_view.hpp:25-32 | a run holds only its class's characters and ends before one outside it |
| Uri.ScanRun | include/network/uri_view.hpp:25-32 | the scanning loop behind each `parse_X` measures the run |
| Uri.SchemeLength | include/network/uri_view.hpp:25 | `parse_scheme` gives a non-zero length only when the scheme starts with a letter and ":" follows it |
| Uri.ParseScheme | include/network/uri_view.hpp:25 | the scanning `parse_scheme` computes `SchemeLength` |
| Uri.SchemeLengthSound | include/network/uri_view.hpp:25 | the scheme it measures is a letter followed by scheme characters, and ":" follows it |
| Uri.UserinfoPart | include/network/uri_view.hpp:28 | `parse_userinfo` yields an empty view; an "@" right after it is consumed |
| Uri.HostPart | include/network/uri_view.hpp:29 | `parse_host` yields a view inside what it consumed, and consumes nothing exactly when the view is empty |
| Uri.HostPartSound | include/network/uri_view.hpp:29 | the host view is empty, four dec-octets, or the text of an IPv6 address of RFC 3986's grammar between "[" and "]" |
| Uri.BracketedOf | include/network/uri_view.hpp:29 | what the IPv6 matcher takes between "[" and "]" is an IPv6 address text |
| Uri.PortPart | include/network/uri_view.hpp:32 | `parse_port` yields a view that ends where it stops |
| Uri.PortPartSound | include/network/uri_view.hpp:32 | the port view holds only digits and follows a ":" |
| Uri.ParsePort | include/network/uri_view.hpp:32 | the scanning `parse_port` computes `PortPart` |
| Uri.PathPart | test/uri_view_suite.cpp:570-578 | path-abempty starts at the position and ends where the parse stops |
| Uri.PathPartSound | test/uri_view_suite.cpp:570-578 | the path view is empty, or "/" followed by path characters |
| Uri.ParsePath | test/uri_view_suite.cpp:570-578 | the scanning path parse computes `PathPart` |
| Uri.DelimitedPart | test/uri_view_suite.cpp:584-593 | a query view excludes its "?" and ends where the parse stops |
| Uri.DelimitedSound | test/uri_view_suite.cpp:584-593 | the query view holds only query characters and follows its delimiter |
| Uri.ParseDelimited | test/uri_view_suite.cpp:584-593 | the scanning query parse computes `DelimitedPart` |
| Uri.AuthorityOf | include/network/uri_view.hpp:27 | `parse_authority`: an empty userinfo view, then the host, then the port, all within the input |
| Uri.ParseAuthority | include/network/uri_view.hpp:27 | the scanning `parse_authority` computes `AuthorityOf` |
| Uri.AuthorityStageOf | include/network/uri_view.hpp:26-27 | parsing the authority from its start is the same as running the userinfo, host and port steps one after another |
| Uri.Decompose | include/network/uri_view.hpp:24 | every view `parse` assigns lies inside the input, and the views follow one another in input order; the authority covers the host and the port |
| Uri.DecomposeScan | include/network/uri_view.hpp:24 | the scanning `parse` computes `Decompose` |
| Uri.ScanHier | include/network/uri_view.hpp:26 | the scanning `parse_hier_part` computes the stages from "//" on |
| Uri.ScanTail | test/uri_view_suite.cpp:570-593 | the scanning path and query parse computes the stages after the authority |
| Uri.DriveShape | include/network/uri_view.hpp:24 | the stages of `parse` from the scheme on leave every view inside the input and in input order |
| Uri.DriveKeeps | include/network/uri_view.hpp:24 | each stage of `parse` leaves the views found before it unchanged |
| Uri.SchemeView | include/network/uri_view.hpp:25 | the scheme view is the `parse_scheme` length at the front |
| Uri.SchemeSound | include/network/uri_view.hpp:18 | `scheme()` is empty, or a scheme at the front of the input followed by ":" |
| Uri.NoSchemeBlank | test/uri_view_suite.cpp:17-24 | without a scheme and its ":", every view is empty |
| Uri.FlatViews | include/network/uri_view.hpp:26 | when no "//" follows the scheme's ":", every view but the scheme is empty |
| Uri.HierViews | include/network/uri_view.hpp:26-27 | after "scheme://", the userinfo, host and port views are those of `parse_authority`, and the authority view spans them |
| Uri.UserinfoSound | include/network/uri_view.hpp:19 | `userinfo()` is always empty |
| Uri.HostSound | include/network/uri_view.hpp:20 | `host()` is empty, a dotted quad, or the text of an IPv6 address of RFC 3986's grammar between brackets, without the brackets |
| Uri.PortSound | include/network/uri_view.hpp:21 | `port()` holds only digits and follows a ":" |
| Uri.PathSound | test/uri_view_suite.cpp:577 | `path()` is empty, or "/" followed by path characters |
| Uri.QuerySound | test/uri_view_suite.cpp:592 | `query()` holds only query characters and follows a "?" |
| Uri.UriView.constructor | include/network/uri_view.hpp:16 | construction parses the input: the views are those of `Decompose` |
| Uri.UriView.Parse | include/network/uri_view.hpp:24 | `parse` assigns every view as `Decompose` finds it |
| Uri.UriView.Scheme | include/network/uri_view.hpp:18 | `scheme()` is empty, or a scheme at the front of the input followed by ":" |
| Uri.UriView.Userinfo | include/network/uri_view.hpp:19 | `userinfo()` is empty |
| Uri.UriView.Host | include/network/uri_view.hpp:20 | `host()` is empty, a dotted quad, or the text of an IPv6 address of RFC 3986's grammar, found between brackets |
| Uri.UriView.Port | include/network/uri_view.hpp:21 | `port()` is digits after a ":" |
| Uri.UriView.Authority | test/uri_view_suite.cpp:51 | `authority()` spans the host and the port |
| Uri.UriView.Path | test/uri_view_suite.cpp:577 | `path()` is empty or "/" and path characters |
| Uri.UriView.Query | test/uri_view_suite.cpp:592 | `query()` holds only query characters and, when not empty, follows a "?" |
| UriCompose.HostAt | include/network/uri_view.hpp:29 | `parse_host` takes any written host exactly: nothing, a dotted quad, or a bracketed IPv6 address whose view excludes the brackets |
| UriCompose.AuthorityLaid | include/network/uri_view.hpp:27 | `parse_authority` on a written host and port finds exactly them |
| UriCompose.LaidDecompose | include/network/uri_view.hpp:24 | a text that reads "scheme://" followed by written components decomposes into exactly the components' views |
| UriCompose.ComposeDecompose | include/network/uri_view.hpp:24 | for every well-formed URI written from components, `parse` finds each component where it was written |
| UriCompose.ComposeScheme | include/network/uri_view.hpp:18 | `scheme()` of a composed URI is the scheme it was written from |
| UriCompose.ComposeHost | include/network/uri_view.hpp:20 | `host()` of a composed URI is its host, without brackets, for every IPv4 and IPv6 host |
| UriCompose.ComposePort | include/network/uri_view.hpp:21 | `port()` of a composed URI is its port |
| UriCompose.ComposeAuthority | test/uri_view_suite.cpp:51 | `authority()` of a composed URI is its host as written, then ":" and the port when there is one |
| UriCompose.ComposePath | test/uri_view_suite.cpp:577 | `path()` of a composed URI is its path |
| UriCompose.ComposeQuery | test/uri_view_suite.cpp:592 | `query()` of a composed URI is its query without the "?", or empty when there is none |
| UriCases.ComposeReads | include/network/uri_view.hpp:18-21 | the accessors show the components a URI was composed from |
| UriCases.TestEmpty | test/uri_view_suite.cpp:17-24 | "" has empty scheme, host and port |
| UriCases.TestScheme | test/uri_view_suite.cpp:26-33 | "scheme://" has scheme "scheme" and an empty host and port |
| UriCases.TestHost | test/uri_view_suite.cpp:35-42 | host "1.2.3.4", empty port |
| UriCases.TestHostPort | test/uri_view_suite.cpp:44-52 | host "1.2.3.4", port "80", authority "1.2.3.4:80" |
| UriCases.TestHostPortSlash | test/uri_view_suite.cpp:54-61 | a trailing "/" leaves host "1.2.3.4" and port "80" |
| UriCases.TestIPv4TwoHalfs | test/uri_view_suite.cpp:103-110 | the octets 2, 25, 250 and 255 are accepted |
| UriCases.TestIPv4Large | test/uri_view_suite.cpp:112-119 | in "scheme://256.0.0.0" the scheme is "scheme" and the host and the port are empty |
| UriCases.TestIPv6Line6 | test/uri_view_suite.cpp:287-294 | host "1111::FFFF:1234:5678", without brackets |
| UriCases.TestIPv6Line7 | test/uri_view_suite.cpp:359-366 | host "1111::1234:5678" |
| UriCases.TestIPv6Line7Dotted | test/uri_view_suite.cpp:368-375 | host "1111::1.2.3.4", an embedded IPv4 tail |
| UriCases.TestIPv6Line8 | test/uri_view_suite.cpp:449-456 | host "1111::1234" |
| UriCases.TestIPv6Line9 | test/uri_view_suite.cpp:503-510 | host "1111::" |
| UriCases.TestPathPlain | test/uri_view_suite.cpp:570-578 | path "/path" after host "0.1.2.3" and port "80" |
| UriCases.TestQueryPlain | test/uri_view_suite.cpp:584-593 | path "/path" and query "query", without the "?" |
| Form.TextRun | include/network/form_view.hpp:42-43 | `parse_key` and `parse_value` consume no more than the input holds |
| Form.TextRunSpec | include/network/form_view.hpp:42-43 | a key or a value holds no "=" or "&", and one of them or the end follows it |
| Form.ParseText | include/network/form_view.hpp:42-43 | the scanning `parse_key` and `parse_value` compute `TextRun` |
| Form.TextRunExact | include/network/form_view.hpp:42-43 | a delimiter-free text followed by a delimiter or the end is taken whole |
| Form.Advance | include/network/form_view.hpp:33 | one advance moves the cursor forward, past the value, with "=" between the key and the value |
| Form.AdvanceSound | include/network/form_view.hpp:33 | a pair found is a non-empty key, "=" and a non-empty value, led by "&" unless it is the first |
| Form.AdvanceAtEnd | include/network/form_view.hpp:33 | at the end of the input no pair is found |
| Form.ParsePair | include/network/form_view.hpp:33 | the scanning advance computes `Advance` |
| Form.Pairs | include/network/form_view.hpp:33 | an iteration yields at most one pair per three characters left: each takes a key character, "=" and a value character |
| Form.PairsWellFormed | include/network/form_view.hpp:33 | every pair of an iteration is well formed, and the pairs follow one another in the input |
| Form.CurrentPair | include/network/form_view.hpp:35-36 | the current pair of an iteration is a well-formed pair of the input |
| Form.PairTexts | include/network/form_view.hpp:35-36 | the key and the value of a pair are non-empty and hold no delimiter |
| Form.IteratingFound | include/network/form_view.hpp:46-49 | taking the pair an advance finds keeps the iteration state, and more pairs remained |
| Form.IteratingStop | include/network/form_view.hpp:46-49 | when no pair is found, all pairs have been produced |
| Form.EscapedChar | include/network/form_view.hpp:38-39 | `%HH` stands for the byte with high nibble H and low nibble H |
| Form.Decode | include/network/form_view.hpp:38-39 | decoding never lengthens the text, and a text without "+" or "%" decodes to itself |
| Form.DecodeText | include/network/form_view.hpp:38-39 | the decoding loop of `key()` and `value()` computes `Decode` |
| Form.DecodeChar | include/network/form_view.hpp:38-39 | an encoded character decodes back to itself, whatever follows it |
| Form.DecodeEncode | include/network/form_view.hpp:38-39 | decoding undoes the form encoding of any byte text |
| Form.PairsOfJoined | include/network/form_view.hpp:33 | a list joined by "&" is read as its pairs, from any position |
| Form.JoinedRoundTrip | include/network/form_view.hpp:33-36 | a list of `key=value` joined by "&" is read back as exactly those pairs, in order |
| Form.EncodePairs | include/network/form_view.hpp:38-39 | each key and value encoded, one pair for each pair |
| Form.FormRoundTrip | include/network/form_view.hpp:33-39 | the form encoding of a list of pairs is read back as that list, and each key and value decodes to the original |
| Form.FormView.constructor | include/network/form_view.hpp:31 | construction primes the first pair when there is one |
| Form.FormView.Next | include/network/form_view.hpp:33 | `next()` is true exactly when a further pair remains; then it counts one more, otherwise the cursor is at the end and the current pair stays |
| Form.FormView.LiteralKey | include/network/form_view.hpp:35 | `literal_key()` is the current key as it stands in the input: non-empty, no delimiter |
| Form.FormView.LiteralValue | include/network/form_view.hpp:36 | `literal_value()` is the current value as it stands in the input |
| Form.FormView.Key | include/network/form_view.hpp:38 | `key()` is the literal key decoded, and changes nothing |
| Form.FormView.Value | include/network/form_view.hpp:39 | `value<string>()` is the literal value decoded, and changes nothing |
| FormCases.Empty | test/form_view_suite.cpp:17-22 | "" holds no pair, so `next()` is false |
| FormCases.OnePair | test/form_view_suite.cpp:24-33 | any single `k=v` is read back as it stands |
| FormCases.SinglePair | test/form_view_suite.cpp:24-33 | "alpha=hydrogen": key "alpha", value "hydrogen", one pair only |
| FormCases.DecodePlus | test/form_view_suite.cpp:35-44 | "+" between plain words decodes to a space |
| FormCases.PlusValue | test/form_view_suite.cpp:35-44 | a value with "+" keeps it literally and decodes it to a space |
| FormCases.SingleSpace | test/form_view_suite.cpp:35-44 | literal value "hydrogen+helium", decoded "hydrogen helium" |
| FormCases.DecodeEscapedEqual | test/form_view_suite.cpp:46-55 | "%3D" between plain words decodes to "=" |
| FormCases.EscapedValue | test/form_view_suite.cpp:46-55 | a value with "%3D" keeps it literally and decodes it to "=" |
| FormCases.SingleEqual | test/form_view_suite.cpp:46-55 | literal value "hydrogen%3Dhelium", decoded "hydrogen=helium" |
| FormCases.TwoPairs | test/form_view_suite.cpp:57-67 | any two pairs joined by "&" are read back in order |
| FormCases.ListTwo | test/form_view_suite.cpp:57-67 | alpha=hydrogen, then bravo=helium |
| FormCases.ThreePairs | test/form_view_suite.cpp:69-82 | any three pairs joined by "&" are read back in order |
| FormCases.ThreeThroughView | test/form_view_suite.cpp:69-82 | through the view: three keys and values in order, and `next()` true, true, false |
| FormCases.ListThree | test/form_view_suite.cpp:69-82 | alpha, bravo, charlie with hydrogen, helium, lithium |
| FormCases.FailAmpersand | test/form_view_suite.cpp:84-89 | "&" holds no pair |
| FormCases.FailNoValue | test/form_view_suite.cpp:91-96 | "alpha=" holds no pair |

## Left out

- The `detail/*.ipp` bodies are not part of this model. Behaviour follows the declarations and the test suites.
- `userinfo`: `parse_userinfo` recognises nothing. An "@" right after "//" is consumed as the userinfo's delimiter, so the userinfo view is always empty.
- reg-name hosts are unsupported. A host that is neither IPv4 nor bracketed IPv6 gives an empty host view, and the parse continues at the same position.
- A hier-part without "//" is unsupported: only the scheme view is set.
- Percent-encoding inside the path and the query is unsupported: "%" is not a path or query character.
- The fragment is parsed after a "#" as in RFC 3986 section 3.5, although the header does not declare it and no test uses it. No lemma beyond its character class and the "#" before it is stated about it.
- Malformed `%` escapes in `key()`/`value()`: the original's behaviour is not known. The model returns `Err(MalformedEscape)`, and the contracts speak only of well-formed escapes.
- Traits.HexToInt: on a character that is not a hex digit the result is 0. The original's value there is not known.
- `value<ReturnType>()` is modelled only for the string result.
- The generic `traits<CharT>` primary template has no content and is not modelled.
- The uri_view members `is_alpha`, `is_digit` and `is_scheme` are predicates without contracts (`Traits.IsAlpha`, `Traits.IsDigit`, `Uri.IsSchemeChar`).
- The traits classifiers `is_hexdigit`, `is_hex_upper` and `is_hex_lower` (include/network/detail/traits.hpp:39, 71-72) are the predicates `Traits.IsHexDigit`, `Traits.IsHexUpper` and `Traits.IsHexLower`, without contracts of their own. `Traits.HexDigitExactly` and `Traits.HexToInt` state their ranges.
- Uri.HostPart: reads dotted quads with the longest-match `IPv4.ParseDecOctet`, not with the rule under "## Findings". On "scheme://26.0.0.1" the model's host is "26.0.0.1", where that rule leaves the host empty.
- The IPv4 cases at test/uri_view_suite.cpp:67-101 and the IPv6 cases not listed above are not stated one by one. Each is an instance of `UriCompose.ComposeHost` with `IPv4.IPv4Complete` or `IPv6.IPv6Complete`.
- Sizes are unbounded naturals: `size_type` overflow is not modelled.
- Thread safety and sharing of one instance are out of scope for a sequential model.

## Findings

| source | as written | input that shows it | evidently intended | confidence | as-written member | corrected member |
|---|---|---|---|---|---|---|
| include/network/uri_view.hpp:31 | the `parse_dec_octet` rule as described for its body (in `detail/uri_view.ipp`, not part of this model) takes only the `2` when a `6`-`9` follows a leading `2`; no test has an octet from `26` to `29` | "26.0.0.1": the octet stops at `2`, no "." follows, and the IPv4 host is refused | `26`-`29` are dec-octets (RFC 3986 section 3.2.2: "1-9 DIGIT"), so the longest match takes both digits | not executed | IPv4.ParseDecOctetAsWritten, IPv4.DecOctetAsWrittenMissesTwentySix | IPv4.ParseDecOctet, IPv4.ParseDecOctetSpec |
