/**
 * The listener package's own test cases, restated as lemmas over the model:
 * endpoint equality (pkg/listener/utils_test.go), construction from a bind
 * address and the rejected concurrency counts (pkg/listener/udp_test.go).
 */
module TestCases {
  import opened Wrappers
  import opened Strconv
  import opened Address
  import opened NetText
  import opened Errors
  import opened Udp

  /** `IPv4(127, 0, 0, 1)` and the parsed text "127.0.0.1" are the same endpoint. */
  lemma LoopbackFormsEqual()
    ensures UdpAddressEqual(UdpAddr(IPv4(127, 0, 0, 1), 12345, ""), UdpAddr(ParseIP("127.0.0.1"), 12345, ""))
  {
    ParseLoopback();
  }

  /** The IPv6 zero address and the parsed text "::0" are the same endpoint. */
  lemma IPv6ZeroFormsEqual()
    ensures UdpAddressEqual(UdpAddr(IPv6Zero, 12345, "eth0"), UdpAddr(ParseIP("::0"), 12345, "eth0"))
  {
    ParseIPv6ZeroText();
  }

  /** The IPv4 zero address in mapped form is not the IPv6 zero address. */
  lemma IPv4ZeroIsNotIPv6Zero()
    ensures !UdpAddressEqual(UdpAddr(IPv4Zero, 12345, "eth0"), UdpAddr(IPv6Zero, 12345, "eth0"))
  {
    assert IPv4Zero[10] != IPv6Zero[10];
  }

  /** Same address and zone, different ports: unequal. */
  lemma PortDistinguishes()
    ensures !UdpAddressEqual(UdpAddr(IPv4AllSys, 12345, ""), UdpAddr(IPv4AllSys, 54321, ""))
  {
  }

  /** Same address and port, empty zone against "eth0": unequal. */
  lemma ZoneDistinguishes()
    ensures !UdpAddressEqual(UdpAddr(IPv6Loopback, 12345, ""), UdpAddr(IPv6Loopback, 12345, "eth0"))
  {
  }

  /** "127.0.0.1:123" gives a listener on 127.0.0.1 (equal to the 4-byte form) and port 123. */
  lemma NewListenerIPv4()
    ensures var r := NewUDPListener("127.0.0.1:123");
            r.Success? && IpEqual(r.value.listenAddress.ip, [127, 0, 0, 1]) &&
            r.value.listenAddress.port == 123 && r.value.listenAddress.zone == ""
  {
    Itoa123();
    assert JoinHostPort("127.0.0.1", "123") == "127.0.0.1:123";
    NewUDPListenerJoined("127.0.0.1", 123);
    ParseLoopback();
    FourByteEqualsMapped(127, 0, 0, 1);
  }

  /** "0.0.0.0:9876" gives a listener on the IPv4 zero address and port 9876. */
  lemma NewListenerIPv4Zero()
    ensures var r := NewUDPListener("0.0.0.0:9876");
            r.Success? && IpEqual(r.value.listenAddress.ip, IPv4Zero) && r.value.listenAddress.port == 9876 &&
              r.value.listenAddress.zone == ""
  {
    Itoa9876();
    assert JoinHostPort("0.0.0.0", "9876") == "0.0.0.0:9876";
    NewUDPListenerJoined("0.0.0.0", 9876);
    ParseIPv4Zero();
  }

  /** "[::0]:9876" gives a listener on the IPv6 zero address and port 9876. */
  lemma NewListenerIPv6Zero()
    ensures var r := NewUDPListener("[::0]:9876");
            r.Success? && IpEqual(r.value.listenAddress.ip, IPv6Zero) && r.value.listenAddress.port == 9876 &&
              r.value.listenAddress.zone == ""
  {
    Itoa9876();
    assert JoinHostPort("::0", "9876") == "[::0]:9876";
    NewUDPListenerJoined("::0", 9876);
    ParseIPv6ZeroText();
  }

  /** "[::0]:abcdefgh": the port does not parse; the error is the constructor's, wrapping Atoi's syntax error. */
  lemma NewListenerBadPort()
    ensures NewUDPListener("[::0]:abcdefgh") ==
              Failure(ListenerError("create new UDPListener", Some(NumErrorText("abcdefgh", InvalidSyntax))))
    ensures Unwrap(NewUDPListener("[::0]:abcdefgh").error) ==
              Some("strconv.Atoi: parsing \"abcdefgh\": invalid syntax")
  {
    SplitBadPort();
    AtoiBadPort();
  }

  /** "ijkl": there is no port; the error is the constructor's, wrapping the address error. */
  lemma NewListenerMissingPort()
    ensures NewUDPListener("ijkl") ==
              Failure(ListenerError("create new UDPListener", Some("address ijkl: missing port in address")))
  {
    assert ':' !in "ijkl";
    MissingPortText();
  }

  /** The host is not validated: a name that is not an IP address is accepted and yields the nil IP. */
  lemma NewListenerNonIPHost()
    ensures var r := NewUDPListener("ijkl:80");
            r.Success? && r.value.listenAddress.ip == [] && r.value.listenAddress.port == 80
  {
    Itoa80();
    assert JoinHostPort("ijkl", "80") == "ijkl:80";
    NewUDPListenerJoined("ijkl", 80);
    ParseHostName();
  }

  /** "[fe80:1234:5678::9]:12345" gives a listener on that IPv6 address and port 12345. */
  lemma NewListenerIPv6()
    ensures var r := NewUDPListener("[fe80:1234:5678::9]:12345");
            r.Success? &&
            IpEqual(r.value.listenAddress.ip, [0xfe, 0x80, 0x12, 0x34, 0x56, 0x78, 0, 0, 0, 0, 0, 0, 0, 0, 0, 0x09]) &&
            r.value.listenAddress.port == 12345 && r.value.listenAddress.zone == ""
  {
    Itoa12345();
    JoinFe80();
    NewUDPListenerJoined("fe80:1234:5678::9", 12345);
    ParseFe80();
  }

  /** The port is not range-checked: a negative port is accepted as it is. */
  lemma NewListenerNegativePort()
    ensures var r := NewUDPListener("127.0.0.1:-1");
            r.Success? && r.value.listenAddress.port == -1
  {
    assert NatToDecimal(1) == "1";
    assert Itoa(-1) == "-1";
    assert JoinHostPort("127.0.0.1", "-1") == "127.0.0.1:-1";
    NewUDPListenerJoined("127.0.0.1", -1);
  }

  /** `Listen(-100)` on any listener is rejected before binding, with the count in the error's op and no cause. */
  method ListenMinus100(l: UDPListener) returns (err: Option<ListenerError>, bindAttempted: bool)
    ensures err == Some(ListenerError("invalid number of concurrent listeners: -100", None))
    ensures !bindAttempted
  {
    var calls;
    err, bindAttempted, calls := Listen(l, -100, None, None, []);
    ItoaMinus100();
    assert InvalidConcurrencyOp(-100) == "invalid number of concurrent listeners: -100";
  }

  /** `Listen(0)` on any listener is rejected before binding, with the count in the error's op and no cause. */
  method ListenZero(l: UDPListener) returns (err: Option<ListenerError>, bindAttempted: bool)
    ensures err == Some(ListenerError("invalid number of concurrent listeners: 0", None))
    ensures !bindAttempted
  {
    var calls;
    err, bindAttempted, calls := Listen(l, 0, None, None, []);
    assert Itoa(0) == "0";
    assert InvalidConcurrencyOp(0) == "invalid number of concurrent listeners: 0";
  }

  // ---------------------------------------------------------- evaluation hints

  // The lemmas below evaluate one literal each (a rendering, a split, a
  // parsed group) so that the test cases above stay small for the solver.

  lemma Decimal127()
    ensures NatToDecimal(127) == "127"
  {
    assert NatToDecimal(1) == "1";
    assert NatToDecimal(12) == "12";
  }

  lemma ParseLoopback()
    ensures ParseIP("127.0.0.1") == IPv4(127, 0, 0, 1)
  {
    Decimal127();
    assert NatToDecimal(0) == "0" && NatToDecimal(1) == "1";
    assert DottedQuad(127, 0, 0, 1) == "127.0.0.1";
    ParseIPDottedQuad(127, 0, 0, 1);
  }

  lemma ParseIPv4Zero()
    ensures ParseIP("0.0.0.0") == IPv4Zero
  {
    assert NatToDecimal(0) == "0";
    assert DottedQuad(0, 0, 0, 0) == "0.0.0.0";
    ParseIPDottedQuad(0, 0, 0, 0);
  }

  lemma ParseIPv6ZeroText()
    ensures ParseIP("::0") == IPv6Zero
  {
    var s := "::0";
    assert FirstSeparator(s) == Some(':');
    assert IndexOfEllipsis(s) == 0;
    assert s[..0] == [] && s[2..] == "0";
    assert Split("0", ':') == ["0"];
    assert HexValue("0") == 0 by {
      assert "0"[..0] == [];
    }
    assert GroupBytes(["0"]) == [0, 0];
  }

  lemma Itoa123()
    ensures Itoa(123) == "123"
  {
    assert NatToDecimal(1) == "1";
    assert NatToDecimal(12) == "12";
  }

  lemma Itoa9876()
    ensures Itoa(9876) == "9876"
  {
    assert NatToDecimal(9) == "9";
    assert NatToDecimal(98) == "98";
    assert NatToDecimal(987) == "987";
  }

  lemma SplitBadPort()
    ensures SplitHostPort("[::0]:abcdefgh") == Success(("::0", "abcdefgh"))
  {
    assert JoinHostPort("::0", "abcdefgh") == "[::0]:abcdefgh";
    SplitJoin("::0", "abcdefgh");
  }

  lemma AtoiBadPort()
    ensures Atoi("abcdefgh") == Failure("strconv.Atoi: parsing \"abcdefgh\": invalid syntax")
  {
    assert "abcdefgh"[0] == 'a';
    assert NumErrorText("abcdefgh", InvalidSyntax) == "strconv.Atoi: parsing \"abcdefgh\": invalid syntax";
  }

  lemma MissingPortText()
    ensures AddrErrorText("ijkl", MissingPort) == "address ijkl: missing port in address"
  {
    assert "address " + "ijkl" == "address ijkl";
    assert "address ijkl" + ": " == "address ijkl: ";
  }

  lemma Itoa80()
    ensures Itoa(80) == "80"
  {
    assert NatToDecimal(8) == "8";
  }

  lemma ParseHostName()
    ensures ParseIP("ijkl") == []
  {
    assert FirstSeparator("ijkl") == None by {
      assert "ijkl"[1..] == "jkl" && "jkl"[1..] == "kl" && "kl"[1..] == "l" && "l"[1..] == [];
    }
  }

  lemma Fe80GroupsText()
    ensures "fe80" + [':'] + ("1234" + [':'] + "5678") == "fe80:1234:5678"
  {
  }

  lemma NoColonInGroups()
    ensures ':' !in "fe80" && ':' !in "1234" && ':' !in "5678"
  {
  }

  lemma ParseFe80Groups()
    ensures Groups("fe80:1234:5678") == ["fe80", "1234", "5678"]
  {
    NoColonInGroups();
    SplitTwoFields("1234", "5678", ':');
    SplitThreeFields("fe80", "1234" + [':'] + "5678", "1234", "5678", ':');
    Fe80GroupsText();
  }

  lemma HexFe80()
    ensures IsHexGroup("fe80") && HexValue("fe80") == 0xfe80
  {
    assert "fe80"[..3] == "fe8" && "fe8"[..2] == "fe" && "fe"[..1] == "f" && "f"[..0] == [];
  }

  lemma Hex1234()
    ensures IsHexGroup("1234") && HexValue("1234") == 0x1234
  {
    assert "1234"[..3] == "123" && "123"[..2] == "12" && "12"[..1] == "1" && "1"[..0] == [];
  }

  lemma Hex5678()
    ensures IsHexGroup("5678") && HexValue("5678") == 0x5678
  {
    assert "5678"[..3] == "567" && "567"[..2] == "56" && "56"[..1] == "5" && "5"[..0] == [];
  }

  lemma Hex9()
    ensures IsHexGroup("9") && GroupBytes(["9"]) == [0, 9]
  {
    assert "9"[..0] == [];
    assert HexValue("9") == 9;
  }

  lemma Fe80GroupBytes()
    ensures AllHexGroups(["fe80", "1234", "5678"])
    ensures GroupBytes(["fe80", "1234", "5678"]) == [0xfe, 0x80, 0x12, 0x34, 0x56, 0x78]
  {
    HexFe80();
    Hex1234();
    Hex5678();
    assert GroupBytes(["5678"]) == [0x56, 0x78];
    assert ["1234", "5678"][1..] == ["5678"];
    assert GroupBytes(["1234", "5678"]) == [0x12, 0x34] + [0x56, 0x78];
    assert ["fe80", "1234", "5678"][1..] == ["1234", "5678"];
    assert GroupBytes(["fe80", "1234", "5678"]) == [0xfe, 0x80] + [0x12, 0x34, 0x56, 0x78];
  }

  lemma Fe80FirstSeparator()
    ensures FirstSeparator("fe80:1234:5678::9") == Some(':')
  {
    var s := "fe80:1234:5678::9";
    assert s[4] == ':' && s[0] == 'f' && s[1] == 'e' && s[2] == '8' && s[3] == '0';
    FirstSeparatorAt(s, 4);
  }

  lemma Fe80Ellipsis()
    ensures IndexOfEllipsis("fe80:1234:5678::9") == 14
  {
    var s := "fe80:1234:5678::9";
    assert forall j :: 0 <= j < 14 ==> !(s[j] == ':' && s[j + 1] == ':');
    IndexOfEllipsisFirst(s, 14);
  }

  lemma Fe80Halves()
    ensures "fe80:1234:5678::9"[..14] == "fe80:1234:5678" && "fe80:1234:5678::9"[16..] == "9"
  {
  }

  lemma Fe80Bytes()
    ensures [0xfe, 0x80, 0x12, 0x34, 0x56, 0x78] + Zeros(8) + [0, 9] ==
            [0xfe, 0x80, 0x12, 0x34, 0x56, 0x78, 0, 0, 0, 0, 0, 0, 0, 0, 0, 0x09]
  {
  }

  lemma Groups9()
    ensures Groups("9") == ["9"]
  {
  }

  lemma ParseIPv6Fe80()
    ensures ParseIPv6("fe80:1234:5678::9") == Some([0xfe, 0x80, 0x12, 0x34, 0x56, 0x78, 0, 0, 0, 0, 0, 0, 0, 0, 0, 0x09])
  {
    Fe80Ellipsis();
    Fe80Halves();
    ParseFe80Groups();
    Groups9();
    ExpandFe80();
  }

  lemma ExpandFe80()
    ensures ExpandEllipsis(["fe80", "1234", "5678"], ["9"]) ==
            Some([0xfe, 0x80, 0x12, 0x34, 0x56, 0x78, 0, 0, 0, 0, 0, 0, 0, 0, 0, 0x09])
  {
    Fe80GroupBytes();
    Hex9();
    Fe80Bytes();
  }

  /** The link-local address of the constructor's second case. */
  lemma ParseFe80()
    ensures ParseIP("fe80:1234:5678::9") == [0xfe, 0x80, 0x12, 0x34, 0x56, 0x78, 0, 0, 0, 0, 0, 0, 0, 0, 0, 0x09]
  {
    Fe80FirstSeparator();
    ParseIPv6Fe80();
  }

  lemma Itoa12345()
    ensures Itoa(12345) == "12345"
  {
    assert NatToDecimal(1) == "1";
    assert NatToDecimal(12) == "12";
    assert NatToDecimal(123) == "123";
    assert NatToDecimal(1234) == "1234";
  }

  lemma BracketedFe80Text()
    ensures "[" + "fe80:1234:5678::9" + "]:" + "12345" == "[fe80:1234:5678::9]:12345"
  {
  }

  lemma JoinFe80()
    ensures JoinHostPort("fe80:1234:5678::9", "12345") == "[fe80:1234:5678::9]:12345"
  {
    assert "fe80:1234:5678::9"[4] == ':';
    BracketedFe80Text();
  }

  lemma ItoaMinus100()
    ensures Itoa(-100) == "-100"
  {
    assert NatToDecimal(1) == "1";
    assert NatToDecimal(10) == "10";
    assert NatToDecimal(100) == "100";
  }
}
