/**
 * Transport endpoints and their equality (`UDPAddressEqual`), including
 * Go's `net.IP.Equal`, which treats a 4-byte IPv4 address and its 16-byte
 * IPv4-mapped IPv6 form (section 2.5.5.2 of RFC 4291) as the same address.
 */
module Address {

  type Byte = b: int | 0 <= b < 256

  /** A `net.IP`: a byte slice, normally of length 4 or 16; nil is the empty sequence. */
  type IP = seq<Byte>

  /** `net.UDPAddr`. */
  datatype UdpAddr = UdpAddr(ip: IP, port: int, zone: string)

  /** The twelve bytes that precede an IPv4 address in its IPv4-mapped IPv6 form. */
  const V4InV6Prefix: seq<Byte> := [0, 0, 0, 0, 0, 0, 0, 0, 0, 0, 0xff, 0xff]

  /** `net.IPv4(a, b, c, d)`, which builds the 16-byte form. */
  function IPv4(a: Byte, b: Byte, c: Byte, d: Byte): (ip: IP)
    ensures |ip| == 16 && ip[..12] == V4InV6Prefix && ip[12..] == [a, b, c, d]
  {
    V4InV6Prefix + [a, b, c, d]
  }

  const IPv4Zero: IP := IPv4(0, 0, 0, 0)
  const IPv4AllSys: IP := IPv4(224, 0, 0, 1)

  /** `n` zero bytes: the run of zero groups an IPv6 `::` stands for. */
  function Zeros(n: nat): (z: IP)
    ensures |z| == n
  {
    seq(n, _ => 0)
  }

  const IPv6Zero: IP := Zeros(16)
  const IPv6Loopback: IP := Zeros(15) + [1]

  /** `net.IP.Equal`: equal addresses have the same reference form (`IpEqualIffSameCanonical` gives the converse). */
  predicate IpEqual(a: IP, b: IP): (eq: bool)
    ensures eq ==> Canonical(a) == Canonical(b)
  {
    if |a| == |b| then a == b
    else if |a| == 4 && |b| == 16 then b[..12] == V4InV6Prefix && b[12..] == a
    else if |a| == 16 && |b| == 4 then a[..12] == V4InV6Prefix && a[12..] == b
    else false
  }

  /** Reference form of an address: a 4-byte address is widened to its IPv4-mapped form, any other slice is kept. */
  function Canonical(ip: IP): (c: IP)
    ensures |ip| != 4 ==> c == ip
    ensures |ip| == 4 ==> |c| == 16 && c[..12] == V4InV6Prefix && c[12..] == ip
  {
    if |ip| == 4 then V4InV6Prefix + ip else ip
  }

  /** `IpEqual` holds exactly when both addresses have the same reference form. */
  lemma IpEqualIffSameCanonical(a: IP, b: IP)
    ensures IpEqual(a, b) <==> Canonical(a) == Canonical(b)
  {
    if |a| == 4 && |b| == 4 {
      if Canonical(a) == Canonical(b) {
        assert a == Canonical(a)[12..];
      }
    } else if |a| == 4 && |b| == 16 {
      if b[..12] == V4InV6Prefix && b[12..] == a {
        assert b == b[..12] + b[12..];
      }
    } else if |a| == 16 && |b| == 4 {
      if a[..12] == V4InV6Prefix && a[12..] == b {
        assert a == a[..12] + a[12..];
      }
    } else if |a| != |b| {
      assert |Canonical(a)| != |Canonical(b)|;
    }
  }

  /** `UDPAddressEqual`: same address, same port, same zone string. */
  predicate UdpAddressEqual(a: UdpAddr, b: UdpAddr): (eq: bool)
    ensures eq ==> Canonical(a.ip) == Canonical(b.ip) && a.port == b.port && a.zone == b.zone
  {
    IpEqual(a.ip, b.ip) && a.port == b.port && a.zone == b.zone
  }

  /** Endpoint equality compared with an independent reference: IPs agree once widened, ports and zones agree. */
  lemma UdpAddressEqualIff(a: UdpAddr, b: UdpAddr)
    ensures UdpAddressEqual(a, b) <==>
              Canonical(a.ip) == Canonical(b.ip) && a.port == b.port && a.zone == b.zone
  {
    IpEqualIffSameCanonical(a.ip, b.ip);
  }

  /** Endpoint equality is an equivalence relation for all endpoints, including nil and odd-length IPs. */
  lemma UdpAddressEqualIsEquivalence(a: UdpAddr, b: UdpAddr, c: UdpAddr)
    ensures UdpAddressEqual(a, a)
    ensures UdpAddressEqual(a, b) == UdpAddressEqual(b, a)
    ensures UdpAddressEqual(a, b) && UdpAddressEqual(b, c) ==> UdpAddressEqual(a, c)
  {
    UdpAddressEqualIff(a, b);
    UdpAddressEqualIff(b, c);
    UdpAddressEqualIff(a, c);
  }

  /** A 4-byte IPv4 address equals its 16-byte IPv4-mapped form, in both argument orders. */
  lemma FourByteEqualsMapped(a: Byte, b: Byte, c: Byte, d: Byte)
    ensures IpEqual([a, b, c, d], IPv4(a, b, c, d))
    ensures IpEqual(IPv4(a, b, c, d), [a, b, c, d])
  {
  }
}
