/**
 * The textual side of Go's `net` package that `NewUDPListener` calls:
 * `SplitHostPort` (with its inverse `JoinHostPort`) and `ParseIP`.
 * Errors are carried as the text the `*net.AddrError` renders to.
 */
module NetText {
  import opened Wrappers
  import opened Strconv
  import opened Address

  /** Index of the first occurrence of `c` in `s`, or -1. */
  function IndexOf(s: string, c: char): (i: int)
    ensures -1 <= i < |s|
    ensures i < 0 <==> c !in s
    ensures 0 <= i ==> s[i] == c && forall j :: 0 <= j < i ==> s[j] != c
  {
    if s == [] then -1
    else if s[0] == c then 0
    else
      var j := IndexOf(s[1..], c);
      if j < 0 then -1 else j + 1
  }

  /** Index of the last occurrence of `c` in `s`, or -1. */
  function LastIndexOf(s: string, c: char): (i: int)
    ensures -1 <= i < |s|
    ensures i < 0 <==> c !in s
    ensures 0 <= i ==> s[i] == c && forall j :: i < j < |s| ==> s[j] != c
  {
    if s == [] then -1
    else if s[|s| - 1] == c then |s| - 1
    else
      var j := LastIndexOf(s[..|s| - 1], c);
      assert j < 0 ==> s == s[..|s| - 1] + [s[|s| - 1]];
      j
  }

  /** The message of a `*net.AddrError`. */
  function AddrErrorText(addr: string, why: string): string {
    if addr != "" then "address " + addr + ": " + why else why
  }

  const MissingPort: string := "missing port in address"
  const TooManyColons: string := "too many colons in address"
  const MissingBracket: string := "missing ']' in address"
  const UnexpectedOpen: string := "unexpected '[' in address"
  const UnexpectedClose: string := "unexpected ']' in address"

  /**
   * `net.SplitHostPort`: the port follows the last colon; a host holding a
   * colon must be bracketed, and no stray bracket may appear elsewhere.
   */
  function SplitHostPort(hostport: string): (r: Result<(string, string), string>)
    ensures ':' !in hostport ==> r == Failure(AddrErrorText(hostport, MissingPort))
    ensures r.Success? ==>
              var (host, port) := r.value;
              ':' !in port && '[' !in host && ']' !in host && '[' !in port && ']' !in port &&
              (hostport == host + ":" + port || hostport == "[" + host + "]:" + port)
  {
    var i := LastIndexOf(hostport, ':');
    if i < 0 then Failure(AddrErrorText(hostport, MissingPort))
    else if hostport[0] == '[' then SplitBracketed(hostport, i)
    else SplitPlain(hostport, i)
  }

  /** `SplitHostPort` of an address that opens with `[`, whose last colon is at `i`. */
  function SplitBracketed(hostport: string, i: nat): (r: Result<(string, string), string>)
    requires i < |hostport| && hostport[0] == '[' && hostport[i] == ':'
    requires forall j :: i < j < |hostport| ==> hostport[j] != ':'
    ensures r.Success? ==>
              var (host, port) := r.value;
              ':' !in port && '[' !in host && ']' !in host && '[' !in port && ']' !in port &&
              hostport == "[" + host + "]:" + port
  {
    var end := IndexOf(hostport, ']');
    if end < 0 then Failure(AddrErrorText(hostport, MissingBracket))
    else if end + 1 == |hostport| then Failure(AddrErrorText(hostport, MissingPort))
    else if end + 1 != i then
      if hostport[end + 1] == ':' then Failure(AddrErrorText(hostport, TooManyColons))
      else Failure(AddrErrorText(hostport, MissingPort))
    else
      var r := CheckBrackets(hostport, hostport[1..end], 1, end + 1, i);
      BracketedShape(hostport, end, i);
      r
  }

  lemma BracketedShape(hostport: string, end: nat, i: nat)
    requires 0 < end && end + 1 == i < |hostport| && hostport[0] == '[' && hostport[end] == ']' && hostport[i] == ':'
    requires forall j :: 0 <= j < end ==> hostport[j] != ']'
    ensures hostport == "[" + hostport[1..end] + "]:" + hostport[i + 1..]
    ensures ']' !in hostport[1..end]
    ensures '[' !in hostport[1..] ==> '[' !in hostport[1..end]
  {
    assert hostport == hostport[..1] + hostport[1..end] + hostport[end..i + 1] + hostport[i + 1..];
    assert hostport[1..end] <= hostport[1..];
  }

  /** `SplitHostPort` of an address that does not open with `[`, whose last colon is at `i`. */
  function SplitPlain(hostport: string, i: nat): (r: Result<(string, string), string>)
    requires i < |hostport| && hostport[0] != '[' && hostport[i] == ':'
    requires forall j :: i < j < |hostport| ==> hostport[j] != ':'
    ensures r.Success? ==>
              var (host, port) := r.value;
              ':' !in port && '[' !in host && ']' !in host && '[' !in port && ']' !in port &&
              hostport == host + ":" + port
  {
    var host := hostport[..i];
    if ':' in host then Failure(AddrErrorText(hostport, TooManyColons))
    else
      var r := CheckBrackets(hostport, host, 0, 0, i);
      assert hostport == host + ":" + hostport[i + 1..];
      r
  }

  /** The bracket checks that end `SplitHostPort`: no `[` from `j` on, no `]` from `k` on. */
  function CheckBrackets(hostport: string, host: string, j: nat, k: nat, i: nat): (r: Result<(string, string), string>)
    requires j <= k <= i < |hostport|
    requires forall m :: i < m < |hostport| ==> hostport[m] != ':'
    ensures r.Success? <==> '[' !in hostport[j..] && ']' !in hostport[k..]
    ensures r.Success? ==> r.value == (host, hostport[i + 1..])
    ensures r.Success? ==> ':' !in hostport[i + 1..] && '[' !in hostport[i + 1..] && ']' !in hostport[i + 1..]
  {
    if '[' in hostport[j..] then Failure(AddrErrorText(hostport, UnexpectedOpen))
    else if ']' in hostport[k..] then Failure(AddrErrorText(hostport, UnexpectedClose))
    else
      assert hostport[i + 1..] == hostport[k..][i + 1 - k..] == hostport[j..][i + 1 - j..];
      Success((host, hostport[i + 1..]))
  }

  /** `net.JoinHostPort`: brackets a host that holds a colon. */
  function JoinHostPort(host: string, port: string): string {
    if ':' in host then "[" + host + "]:" + port else host + ":" + port
  }

  /** Splitting a joined address gives back its host and port, when neither holds a bracket and the port holds no colon. */
  lemma SplitJoin(host: string, port: string)
    requires '[' !in host && ']' !in host
    requires ':' !in port && '[' !in port && ']' !in port
    ensures SplitHostPort(JoinHostPort(host, port)) == Success((host, port))
  {
    if ':' in host {
      SplitJoinBracketed(host, port);
    } else {
      SplitJoinPlain(host, port);
    }
  }

  lemma SplitJoinBracketed(host: string, port: string)
    requires '[' !in host && ']' !in host
    requires ':' !in port && '[' !in port && ']' !in port
    ensures SplitHostPort("[" + host + "]:" + port) == Success((host, port))
  {
    var hp := "[" + host + "]:" + port;
    var n := |host|;
    BracketedIndices(host, port);
    BracketedPieces(host, port);
    var r := CheckBrackets(hp, hp[1..n + 1], 1, n + 2, n + 2);
    assert r == Success((host, port));
    assert SplitBracketed(hp, n + 2) == r;
  }

  lemma BracketedPieces(host: string, port: string)
    requires '[' !in host && ':' !in port && '[' !in port && ']' !in port
    ensures var hp := "[" + host + "]:" + port;
            hp[0] == '[' && hp[1..|host| + 1] == host && hp[|host| + 3..] == port &&
            '[' !in hp[1..] && ']' !in hp[|host| + 2..]
  {
    var hp := "[" + host + "]:" + port;
    var n := |host|;
    assert hp[1..] == host + "]:" + port;
    assert hp[n + 2..] == ":" + port;
  }

  /** The first occurrence of `c` is at `k` when `s[k]` is `c` and no earlier element is. */
  lemma IndexOfAt(s: string, c: char, k: nat)
    requires k < |s| && s[k] == c && forall j :: 0 <= j < k ==> s[j] != c
    ensures IndexOf(s, c) == k
  {
  }

  /** The last occurrence of `c` is at `k` when `s[k]` is `c` and no later element is. */
  lemma LastIndexOfAt(s: string, c: char, k: nat)
    requires k < |s| && s[k] == c && forall j :: k < j < |s| ==> s[j] != c
    ensures LastIndexOf(s, c) == k
  {
  }

  lemma BracketedIndices(host: string, port: string)
    requires ']' !in host && ':' !in port
    ensures var hp := "[" + host + "]:" + port;
            LastIndexOf(hp, ':') == |host| + 2 && IndexOf(hp, ']') == |host| + 1
  {
    var hp := "[" + host + "]:" + port;
    var n := |host|;
    assert forall j :: n + 2 < j < |hp| ==> hp[j] == port[j - n - 3];
    LastIndexOfAt(hp, ':', n + 2);
    assert forall j :: 1 <= j < n + 1 ==> hp[j] == host[j - 1];
    IndexOfAt(hp, ']', n + 1);
  }

  lemma SplitJoinPlain(host: string, port: string)
    requires ':' !in host && '[' !in host && ']' !in host
    requires ':' !in port && '[' !in port && ']' !in port
    ensures SplitHostPort(host + ":" + port) == Success((host, port))
  {
    var hp := host + ":" + port;
    assert hp[|host|] == ':' && hp[|host| + 1..] == port;
    assert LastIndexOf(hp, ':') == |host|;
    assert hp[..|host|] == host;
    assert hp[0] != '[' by {
      if host != [] { assert hp[0] == host[0]; }
    }
  }

  // ---------------------------------------------------------------- ParseIP

  /** Fields of `s` between occurrences of `sep`; always at least one field. */
  function Split(s: string, sep: char): (fields: seq<string>)
    ensures |fields| >= 1
    decreases |s|
  {
    var k := IndexOf(s, sep);
    if k < 0 then [s] else [s[..k]] + Split(s[k + 1..], sep)
  }

  lemma SplitCons(field: string, sep: char, rest: string)
    requires sep !in field
    ensures Split(field + [sep] + rest, sep) == [field] + Split(rest, sep)
  {
    var s := field + [sep] + rest;
    assert s[|field|] == sep && s[..|field|] == field;
    assert IndexOf(s, sep) == |field|;
    assert s[|field| + 1..] == rest;
  }

  /** The first of `.`, `:` and `%` in `s`, which decides how `netip.ParseAddr` reads it; none if `s` holds none of them. */
  function FirstSeparator(s: string): (c: Option<char>)
    ensures c.Some? ==> (c.value == '.' || c.value == ':' || c.value == '%') && c.value in s
    ensures c.None? ==> '.' !in s && ':' !in s && '%' !in s
  {
    if s == [] then None
    else if s[0] == '.' || s[0] == ':' || s[0] == '%' then Some(s[0])
    else FirstSeparator(s[1..])
  }

  /** The first separator is the one at `k` when no separator comes before it. */
  lemma {:induction false} FirstSeparatorAt(s: string, k: nat)
    requires k < |s| && (s[k] == '.' || s[k] == ':' || s[k] == '%')
    requires forall j :: 0 <= j < k ==> s[j] != '.' && s[j] != ':' && s[j] != '%'
    ensures FirstSeparator(s) == Some(s[k])
    decreases k
  {
    if k > 0 {
      assert forall j :: 0 <= j < k - 1 ==> s[1..][j] == s[j + 1];
      FirstSeparatorAt(s[1..], k - 1);
    }
  }

  /** One field of a dotted quad: one to three digits, no leading zero, at most 255. */
  predicate IsOctetField(f: string) {
    1 <= |f| <= 3 && AllDigits(f) && (f[0] == '0' ==> |f| == 1) && DecimalValue(f) <= 255
  }

  function OctetValue(f: string): (b: Byte)
    requires IsOctetField(f)
  {
    DecimalValue(f)
  }

  /** `netip`'s IPv4 parser: exactly four octet fields. */
  function ParseIPv4(s: string): (r: Option<IP>)
    ensures r.Some? ==> |r.value| == 4
  {
    var fields := Split(s, '.');
    if |fields| == 4 && forall i :: 0 <= i < 4 ==> IsOctetField(fields[i]) then
      Some([OctetValue(fields[0]), OctetValue(fields[1]), OctetValue(fields[2]), OctetValue(fields[3])])
    else None
  }

  predicate IsHexDigit(c: char) {
    '0' <= c <= '9' || 'a' <= c <= 'f' || 'A' <= c <= 'F'
  }

  function HexDigitValue(c: char): (v: nat)
    requires IsHexDigit(c)
    ensures v < 16
  {
    if '0' <= c <= '9' then c as int - '0' as int
    else if 'a' <= c <= 'f' then c as int - 'a' as int + 10
    else c as int - 'A' as int + 10
  }

  /** One group of an IPv6 address: one to four hexadecimal digits. */
  predicate IsHexGroup(g: string) {
    1 <= |g| <= 4 && forall i :: 0 <= i < |g| ==> IsHexDigit(g[i])
  }

  function HexValue(g: string): (v: nat)
    requires forall i :: 0 <= i < |g| ==> IsHexDigit(g[i])
    ensures |g| <= 1 ==> v < 0x10
    ensures |g| <= 2 ==> v < 0x100
    ensures |g| <= 3 ==> v < 0x1000
    ensures |g| <= 4 ==> v < 0x1_0000
  {
    if g == [] then 0
    else
      var h := HexValue(g[..|g| - 1]);
      h * 16 + HexDigitValue(g[|g| - 1])
  }

  /** The bytes of a sequence of groups, two per group, high byte first. */
  function GroupBytes(groups: seq<string>): (b: seq<Byte>)
    requires forall i :: 0 <= i < |groups| ==> IsHexGroup(groups[i])
    ensures |b| == 2 * |groups|
  {
    if groups == [] then []
    else
      assert IsHexGroup(groups[0]);
      var v := HexValue(groups[0]);
      var high: Byte := v / 256;
      [high, v % 256] + GroupBytes(groups[1..])
  }

  /** Index of the first `::` in `s`, or -1. */
  function IndexOfEllipsis(s: string): (i: int)
    ensures -1 <= i < |s| - 1 || i == -1
    ensures 0 <= i ==> s[i] == ':' && s[i + 1] == ':'
  {
    if |s| < 2 then -1
    else if s[0] == ':' && s[1] == ':' then 0
    else
      var j := IndexOfEllipsis(s[1..]);
      if j < 0 then -1 else j + 1
  }

  /** `IndexOfEllipsis` finds the first `::`: any position with one and none before it is the answer. */
  lemma {:induction false} IndexOfEllipsisFirst(s: string, k: nat)
    requires k + 1 < |s| && s[k] == ':' && s[k + 1] == ':'
    requires forall j :: 0 <= j < k ==> !(s[j] == ':' && s[j + 1] == ':')
    ensures IndexOfEllipsis(s) == k
    decreases k
  {
    if k > 0 {
      assert !(s[0] == ':' && s[1] == ':');
      IndexOfEllipsisFirst(s[1..], k - 1);
    }
  }

  predicate AllHexGroups(groups: seq<string>) {
    forall i :: 0 <= i < |groups| ==> IsHexGroup(groups[i])
  }

  /** Groups of one side of an ellipsis; an empty side has none. */
  function Groups(s: string): seq<string> {
    if s == [] then [] else Split(s, ':')
  }

  /**
   * `netip`'s IPv6 parser without a zone and without an embedded dotted
   * quad: eight groups, or at most seven around a single `::` that stands
   * for at least one zero group.
   */
  function ParseIPv6(s: string): (r: Option<IP>)
    ensures r.Some? ==> |r.value| == 16
  {
    var k := IndexOfEllipsis(s);
    if k < 0 then
      var groups := Split(s, ':');
      if |groups| == 8 && forall i :: 0 <= i < 8 ==> IsHexGroup(groups[i]) then Some(GroupBytes(groups))
      else None
    else ExpandEllipsis(Groups(s[..k]), Groups(s[k + 2..]))
  }

  /** The sixteen bytes of the groups on either side of a `::`, which stands for at least one zero group. */
  function ExpandEllipsis(left: seq<string>, right: seq<string>): (r: Option<IP>)
    ensures r.Some? ==> |r.value| == 16
  {
    if |left| + |right| <= 7 && AllHexGroups(left) && AllHexGroups(right) then
      Some(GroupBytes(left) + Zeros(2 * (8 - |left| - |right|)) + GroupBytes(right))
    else None
  }

  /** `net.ParseIP`: the 16-byte form of a textual address, or nil (empty) when the text is not one. */
  function ParseIP(s: string): (ip: IP)
    ensures ip == [] || |ip| == 16
    ensures FirstSeparator(s) == Some('.') && ip != [] ==> ip[..12] == V4InV6Prefix
  {
    match FirstSeparator(s)
    case Some('.') => (match ParseIPv4(s) case Some(v) => V4InV6Prefix + v case None => [])
    case Some(':') => (match ParseIPv6(s) case Some(v) => v case None => [])
    case _ => []
  }

  /** The dotted-quad text of four bytes. */
  function DottedQuad(a: Byte, b: Byte, c: Byte, d: Byte): string {
    NatToDecimal(a) + "." + (NatToDecimal(b) + "." + (NatToDecimal(c) + "." + NatToDecimal(d)))
  }

  lemma OctetFieldOfByte(b: Byte)
    ensures IsOctetField(NatToDecimal(b)) && DecimalValue(NatToDecimal(b)) == b
  {
    DecimalValueOfNatToDecimal(b);
    var s := NatToDecimal(b);
    if b >= 10 {
      assert |NatToDecimal(b / 10)| <= 2 by {
        if b / 10 >= 10 { assert b / 100 < 10; }
      }
    }
    assert forall i :: 0 <= i < |s| ==> IsDigit(s[i]);
  }

  lemma FirstSeparatorSkipsDigits(x: string, rest: string)
    requires AllDigits(x)
    ensures FirstSeparator(x + rest) == FirstSeparator(rest)
    decreases |x|
  {
    if x != [] {
      var s := x + rest;
      assert s[0] == x[0] && IsDigit(x[0]);
      assert s[0] != '.' && s[0] != ':' && s[0] != '%';
      assert FirstSeparator(s) == FirstSeparator(s[1..]);
      assert s[1..] == x[1..] + rest;
      FirstSeparatorSkipsDigits(x[1..], rest);
    } else {
      assert x + rest == rest;
    }
  }

  lemma NoSeparatorInDecimal(n: nat)
    ensures '.' !in NatToDecimal(n) && ':' !in NatToDecimal(n) && '%' !in NatToDecimal(n)
  {
    var s := NatToDecimal(n);
    assert forall i :: 0 <= i < |s| ==> IsDigit(s[i]);
  }

  lemma SplitFourFields(w: string, x: string, y: string, z: string, sep: char)
    requires sep !in w && sep !in x && sep !in y && sep !in z
    ensures Split(w + [sep] + (x + [sep] + (y + [sep] + z)), sep) == [w, x, y, z]
  {
    SplitTwoFields(y, z, sep);
    SplitThreeFields(x, y + [sep] + z, y, z, sep);
    SplitFourFieldsStep(w, x + [sep] + (y + [sep] + z), x, y, z, sep);
  }

  lemma SplitThreeFields(x: string, rest: string, y: string, z: string, sep: char)
    requires sep !in x && Split(rest, sep) == [y, z]
    ensures Split(x + [sep] + rest, sep) == [x, y, z]
  {
    SplitCons(x, sep, rest);
  }

  lemma SplitFourFieldsStep(w: string, rest: string, x: string, y: string, z: string, sep: char)
    requires sep !in w && Split(rest, sep) == [x, y, z]
    ensures Split(w + [sep] + rest, sep) == [w, x, y, z]
  {
    SplitCons(w, sep, rest);
  }

  lemma SplitTwoFields(y: string, z: string, sep: char)
    requires sep !in y && sep !in z
    ensures Split(y + [sep] + z, sep) == [y, z]
  {
    assert Split(z, sep) == [z];
    SplitCons(y, sep, z);
  }

  lemma SplitDottedQuad(a: Byte, b: Byte, c: Byte, d: Byte)
    ensures Split(DottedQuad(a, b, c, d), '.') == [NatToDecimal(a), NatToDecimal(b), NatToDecimal(c), NatToDecimal(d)]
  {
    NoSeparatorInDecimal(a);
    NoSeparatorInDecimal(b);
    NoSeparatorInDecimal(c);
    NoSeparatorInDecimal(d);
    SplitFourFields(NatToDecimal(a), NatToDecimal(b), NatToDecimal(c), NatToDecimal(d), '.');
  }

  lemma ParseIPv4Fields(s: string, f0: string, f1: string, f2: string, f3: string)
    requires Split(s, '.') == [f0, f1, f2, f3]
    requires IsOctetField(f0) && IsOctetField(f1) && IsOctetField(f2) && IsOctetField(f3)
    ensures ParseIPv4(s) == Some([OctetValue(f0), OctetValue(f1), OctetValue(f2), OctetValue(f3)])
  {
    var fields := Split(s, '.');
    assert forall i :: 0 <= i < 4 ==> IsOctetField(fields[i]);
  }

  lemma ParseIPv4DottedQuad(a: Byte, b: Byte, c: Byte, d: Byte)
    ensures ParseIPv4(DottedQuad(a, b, c, d)) == Some([a, b, c, d])
  {
    SplitDottedQuad(a, b, c, d);
    OctetFieldOfByte(a);
    OctetFieldOfByte(b);
    OctetFieldOfByte(c);
    OctetFieldOfByte(d);
    ParseIPv4Fields(DottedQuad(a, b, c, d), NatToDecimal(a), NatToDecimal(b), NatToDecimal(c), NatToDecimal(d));
  }

  /** Parsing the dotted-quad text of four bytes gives their IPv4-mapped form. */
  lemma ParseIPDottedQuad(a: Byte, b: Byte, c: Byte, d: Byte)
    ensures ParseIP(DottedQuad(a, b, c, d)) == IPv4(a, b, c, d)
  {
    var sa := NatToDecimal(a);
    var s := DottedQuad(a, b, c, d);
    var rest := s[|sa|..];
    assert s == sa + rest;
    assert rest[0] == '.';
    FirstSeparatorSkipsDigits(sa, rest);
    ParseIPv4DottedQuad(a, b, c, d);
  }
}
