/** Ethernet/IPv4/TCP/UDP frames: the builders of the capture generator and the
    parser of the packet engine (RFC 791, RFC 9293, RFC 768). */
module Packets {
  import opened Wrappers
  import opened Bytes
  import Checksum
  import DnsNames
  import TlsSni

  type ip4 = b: bytes | |b| == 4 witness [0, 0, 0, 0]
  type mac = b: bytes | |b| == 6 witness [0, 0, 0, 0, 0, 0]

  datatype Flag = SYN | ACK | FIN | RST | PSH
  datatype Proto = TCP | UDP | ICMP | OtherProto(number: byte)

  /** A decoded packet. A timestamp is seconds since the epoch. */
  datatype RawPacket = RawPacket(
    timestamp: real,
    srcIp: ip4,
    dstIp: ip4,
    srcPort: u16,
    dstPort: u16,
    proto: Proto,
    flags: seq<Flag>,
    wireLen: nat,
    payload: bytes,
    dnsQuery: Option<string>,
    tlsSni: Option<string>)

  // ---------- Builders ----------

  function EthernetFrame(src: mac, dst: mac, ethertype: u16, payload: bytes): (r: bytes)
    ensures |r| == 14 + |payload| && r[..6] == dst && r[6..12] == src && U16At(r, 12) == ethertype && r[14..] == payload
  {
    assert forall i | 0 <= i < 2 :: (dst + src + PackU16(ethertype) + payload)[12 + i] == PackU16(ethertype)[i];
    dst + src + PackU16(ethertype) + payload
  }

  function Ipv4Header(src: ip4, dst: ip4, protocol: byte, size: nat, ipId: u16, checksum: u16): (r: bytes)
    requires size <= 65515
    ensures |r| == 20 && r[0] == 0x45 && r[1] == 0 && U16At(r, 2) == 20 + size
    ensures U16At(r, 4) == ipId && U16At(r, 6) == 0x4000
    ensures r[8] == 64 && r[9] == protocol && U16At(r, 10) == checksum && r[12..16] == src && r[16..] == dst
  {
    [0x45, 0] + PackU16(20 + size) + PackU16(ipId) + PackU16(0x4000) + [64, protocol]
    + PackU16(checksum) + src + dst
  }

  /** `build_ipv4_packet`; a payload above 65515 bytes does not fit the length field. */
  function Ipv4Packet(src: ip4, dst: ip4, protocol: byte, payload: bytes, ipId: u16): (r: bytes)
    requires |payload| <= 65515
  {
    var pre := Ipv4Header(src, dst, protocol, |payload|, ipId, 0);
    Ipv4Header(src, dst, protocol, |payload|, ipId, Checksum.IpChecksumOf(pre)) + payload
  }

  function TcpPacket(srcPort: u16, dstPort: u16, sequence: u32, ack: u32, flags: byte,
                     payload: bytes, window: u16): (r: bytes)
    ensures |r| == 20 + |payload| && r[20..] == payload
    ensures U16At(r, 0) == srcPort && U16At(r, 2) == dstPort && U32At(r, 4) == sequence && U32At(r, 8) == ack
    ensures r[12] == 0x50 && r[13] == flags && U16At(r, 14) == window && U16At(r, 16) == U16At(r, 18) == 0
  {
    PackU16(srcPort) + PackU16(dstPort) + PackU32(sequence) + PackU32(ack) + [0x50, flags]
    + PackU16(window) + PackU16(0) + PackU16(0) + payload
  }

  /** `build_udp_packet`; a payload above 65527 bytes does not fit the length field. */
  function UdpPacket(srcPort: u16, dstPort: u16, payload: bytes): (r: bytes)
    requires |payload| <= 65527
    ensures |r| == 8 + |payload| && r[8..] == payload
    ensures U16At(r, 0) == srcPort && U16At(r, 2) == dstPort && U16At(r, 4) == |r| && U16At(r, 6) == 0
  {
    PackU16(srcPort) + PackU16(dstPort) + PackU16(8 + |payload|) + PackU16(0) + payload
  }

  lemma {:induction false} HeaderChecksumField(src: ip4, dst: ip4, protocol: byte, size: nat, ipId: u16, checksum: u16)
    requires size <= 65515
    ensures var pre := Ipv4Header(src, dst, protocol, size, ipId, 0);
      Ipv4Header(src, dst, protocol, size, ipId, checksum) == pre[..10] + PackU16(checksum) + pre[12..]
  {
    var front := [0x45, 0] + PackU16(20 + size) + PackU16(ipId) + PackU16(0x4000) + [64, protocol];
    assert |front| == 10;
    var pre := Ipv4Header(src, dst, protocol, size, ipId, 0);
    assert pre == front + PackU16(0) + (src + dst);
    assert pre[..10] == front && pre[12..] == src + dst;
  }

  /** A receiver that checksums the finished 20-byte header gets zero. */
  lemma {:induction false} BuiltHeaderVerifies(src: ip4, dst: ip4, protocol: byte, payload: bytes, ipId: u16)
    requires |payload| <= 65515
    ensures |Ipv4Packet(src, dst, protocol, payload, ipId)| >= 20
    ensures Checksum.IpChecksumOf(Ipv4Packet(src, dst, protocol, payload, ipId)[..20]) == 0
  {
    var pre := Ipv4Header(src, dst, protocol, |payload|, ipId, 0);
    var chk := Checksum.IpChecksumOf(pre);
    HeaderChecksumField(src, dst, protocol, |payload|, ipId, chk);
    assert U16At(pre, 0) == 0x4500;
    Checksum.WordSumPositive(pre);
    Checksum.ChecksumOfChecksummed(pre, 10);
  }

  // ---------- Parser ----------

  /** `b[n:]`, which is empty when `n` is past the end. */
  function Drop(b: bytes, n: nat): bytes {
    if n <= |b| then b[n..] else []
  }

  function When(present: bool, f: Flag): (r: seq<Flag>)
    ensures forall g :: g in r <==> present && g == f
  {
    if present then [f] else []
  }

  function FlagsOf(bits: byte): seq<Flag> {
    When(Bit(bits, 1), SYN) + When(Bit(bits, 4), ACK) + When(Bit(bits, 0), FIN)
    + When(Bit(bits, 2), RST) + When(Bit(bits, 3), PSH)
  }

  datatype Segment = Segment(
    srcPort: u16,
    dstPort: u16,
    flags: seq<Flag>,
    payload: bytes,
    dnsQuery: Option<string>,
    tlsSni: Option<string>)

  /** A payload that starts like a TLS handshake record is searched for a server name. */
  function ParseTcpSni(payload: bytes): Option<string> {
    if [0x16, 0x03] <= payload then TlsSni.ExtractSniOf(payload) else None
  }

  function ParseTcp(t: bytes): Segment {
    if |t| < 20 then Segment(0, 0, [], [], None, None)
    else
      var payload := Drop(t, t[12] as int / 16 * 4);
      Segment(U16At(t, 0), U16At(t, 2), FlagsOf(t[13]), payload, None, ParseTcpSni(payload))
  }

  /** The first question's name, when the datagram looks like DNS with a question. */
  function DnsQuestion(srcPort: u16, dstPort: u16, payload: bytes): Option<string> {
    if (dstPort == 53 || srcPort == 53) && |payload| >= 12 && U16At(payload, 4) > 0
       && DnsNames.NameAt(payload, 12) != ""
    then Some(DnsNames.NameAt(payload, 12))
    else None
  }

  function ParseUdp(t: bytes): Segment {
    if |t| < 8 then Segment(0, 0, [], [], None, None)
    else Segment(U16At(t, 0), U16At(t, 2), [], t[8..], DnsQuestion(U16At(t, 0), U16At(t, 2), t[8..]), None)
  }

  function ParseTransport(protocol: byte, t: bytes): Segment {
    if protocol == 6 then ParseTcp(t)
    else if protocol == 17 then ParseUdp(t)
    else Segment(0, 0, [], t, None, None)
  }

  function ProtoOf(protocol: byte): Proto {
    match protocol
    case 6 => TCP
    case 17 => UDP
    case 1 => ICMP
    case n => OtherProto(n)
  }

  function ParseIpv4(ts: real, wireLen: nat, ip: bytes): Option<RawPacket> {
    if |ip| < 20 then None
    else
      var s := ParseTransport(ip[9], Drop(ip, ip[0] as int % 16 * 4));
      Some(RawPacket(ts, ip[12..16], ip[16..20], s.srcPort, s.dstPort, ProtoOf(ip[9]), s.flags, wireLen,
                     s.payload, s.dnsQuery, s.tlsSni))
  }

  /** `_parse_packet_data`: optional VLAN tag, IPv4 only. */
  function ParseFrame(ts: real, wireLen: nat, data: bytes): Option<RawPacket> {
    if |data| < 14 then None
    else
      var tagged := U16At(data, 12) == 0x8100 && |data| >= 18;
      var ethertype := if tagged then U16At(data, 16) else U16At(data, 12);
      if ethertype != 0x0800 then None
      else ParseIpv4(ts, wireLen, data[if tagged then 18 else 14..])
  }

  // ---------- Round trips ----------

  predicate Distinct<T(==)>(s: seq<T>) {
    forall i, j | 0 <= i < j < |s| :: s[i] != s[j]
  }

  lemma {:induction false} DistinctAppend<T>(a: seq<T>, b: seq<T>)
    requires Distinct(a) && Distinct(b) && forall x | x in a :: x !in b
    ensures Distinct(a + b)
  {
    forall i, j | 0 <= i < j < |a + b| ensures (a + b)[i] != (a + b)[j] {
      if i < |a| <= j {
        assert a[i] in a && b[j - |a|] in b;
      }
    }
  }

  /** The flag list names exactly the bits that are set, each once. */
  lemma {:induction false} FlagsNameTheirBits(bits: byte)
    ensures SYN in FlagsOf(bits) <==> Bit(bits, 1)
    ensures ACK in FlagsOf(bits) <==> Bit(bits, 4)
    ensures FIN in FlagsOf(bits) <==> Bit(bits, 0)
    ensures RST in FlagsOf(bits) <==> Bit(bits, 2)
    ensures PSH in FlagsOf(bits) <==> Bit(bits, 3)
    ensures Distinct(FlagsOf(bits))
  {
    FlagsAreDistinct(bits);
  }

  lemma {:induction false} FlagsAreDistinct(bits: byte)
    ensures Distinct(FlagsOf(bits))
  {
    var syn, ack, fin := When(Bit(bits, 1), SYN), When(Bit(bits, 4), ACK), When(Bit(bits, 0), FIN);
    var rst, psh := When(Bit(bits, 2), RST), When(Bit(bits, 3), PSH);
    DistinctAppend(syn, ack);
    DistinctAppend(syn + ack, fin);
    DistinctAppend(syn + ack + fin, rst);
    DistinctAppend(syn + ack + fin + rst, psh);
  }

  lemma {:induction false} FrameCarriesIp(ts: real, wireLen: nat, src: mac, dst: mac, ip: bytes)
    ensures ParseFrame(ts, wireLen, EthernetFrame(src, dst, 0x0800, ip)) == ParseIpv4(ts, wireLen, ip)
  {
    var f := EthernetFrame(src, dst, 0x0800, ip);
    OccursInside(dst + src, PackU16(0x0800), ip);
    OccursU16(f, 12, 0x0800);
    assert f[14..] == ip;
  }

  lemma {:induction false} Ipv4CarriesTransport(ts: real, wireLen: nat, src: ip4, dst: ip4, protocol: byte,
                                                payload: bytes, ipId: u16)
    requires |payload| <= 65515
    ensures var s := ParseTransport(protocol, payload);
      ParseIpv4(ts, wireLen, Ipv4Packet(src, dst, protocol, payload, ipId))
      == Some(RawPacket(ts, src, dst, s.srcPort, s.dstPort, ProtoOf(protocol), s.flags, wireLen,
                        s.payload, s.dnsQuery, s.tlsSni))
  {
    var pre := Ipv4Header(src, dst, protocol, |payload|, ipId, 0);
    var header := Ipv4Header(src, dst, protocol, |payload|, ipId, Checksum.IpChecksumOf(pre));
    var ip := header + payload;
    assert ip[20..] == payload;
    assert ip[12..16] == header[12..16] && ip[16..20] == header[16..];
    assert ip[0] == header[0] && ip[9] == header[9];
  }

  function Frame(srcMac: mac, dstMac: mac, src: ip4, dst: ip4, protocol: byte, payload: bytes, ipId: u16): bytes
    requires |payload| <= 65515
  {
    EthernetFrame(srcMac, dstMac, 0x0800, Ipv4Packet(src, dst, protocol, payload, ipId))
  }

  /** A built TCP frame parses to its own addresses, ports, flags and payload. */
  lemma {:induction false} TcpFrameRoundTrip(ts: real, wireLen: nat, srcMac: mac, dstMac: mac, src: ip4, dst: ip4,
                                             ipId: u16,
                          srcPort: u16, dstPort: u16, sequence: u32, ack: u32, flags: byte,
                          payload: bytes, window: u16)
    requires |payload| <= 65495
    ensures var tcp := TcpPacket(srcPort, dstPort, sequence, ack, flags, payload, window);
      ParseFrame(ts, wireLen, Frame(srcMac, dstMac, src, dst, 6, tcp, ipId))
      == Some(RawPacket(ts, src, dst, srcPort, dstPort, TCP, FlagsOf(flags), wireLen, payload, None,
                        ParseTcpSni(payload)))
  {
    var tcp := TcpPacket(srcPort, dstPort, sequence, ack, flags, payload, window);
    FrameCarriesIp(ts, wireLen, srcMac, dstMac, Ipv4Packet(src, dst, 6, tcp, ipId));
    Ipv4CarriesTransport(ts, wireLen, src, dst, 6, tcp, ipId);
  }

  lemma {:induction false} UdpFrameRoundTrip(ts: real, wireLen: nat, srcMac: mac, dstMac: mac, src: ip4, dst: ip4,
                                             ipId: u16,
                          srcPort: u16, dstPort: u16, payload: bytes)
    requires |payload| <= 65507
    ensures ParseFrame(ts, wireLen, Frame(srcMac, dstMac, src, dst, 17, UdpPacket(srcPort, dstPort, payload), ipId))
      == Some(RawPacket(ts, src, dst, srcPort, dstPort, UDP, [], wireLen, payload,
                        DnsQuestion(srcPort, dstPort, payload), None))
  {
    var udp := UdpPacket(srcPort, dstPort, payload);
    FrameCarriesIp(ts, wireLen, srcMac, dstMac, Ipv4Packet(src, dst, 17, udp, ipId));
    Ipv4CarriesTransport(ts, wireLen, src, dst, 17, udp, ipId);
  }

  /** End to end: the domain put into a query frame is the domain read out of it. */
  lemma {:induction false} DnsQueryFrameRoundTrip(ts: real, wireLen: nat, srcMac: mac, dstMac: mac, src: ip4,
                                                  dst: ip4, ipId: u16,
                               srcPort: u16, domain: string, qtype: u16, txId: u16)
    requires DnsNames.EncodeName(domain).Some? && DnsNames.Survives(domain)
    requires |DnsNames.BuildQuery(domain, qtype, txId).value| <= 65507
    ensures var q := DnsNames.BuildQuery(domain, qtype, txId).value;
      var p := ParseFrame(ts, wireLen, Frame(srcMac, dstMac, src, dst, 17, UdpPacket(srcPort, 53, q), ipId));
      p.Some? && p.value.dnsQuery == Some(DnsNames.Strip(domain))
  {
    var q := DnsNames.BuildQuery(domain, qtype, txId).value;
    UdpFrameRoundTrip(ts, wireLen, srcMac, dstMac, src, dst, ipId, srcPort, 53, q);
    DnsNames.QueryRoundTrip(domain, qtype, txId);
    DnsNames.QueryHeader(domain, qtype, txId);
    DnsNames.SurvivingNameIsNonEmpty(domain);
  }

  /** End to end: the host a ClientHello frame asks for is the host reported for it. */
  lemma {:induction false} ClientHelloFrameRoundTrip(ts: real, wireLen: nat, srcMac: mac, dstMac: mac, src: ip4,
                                                     dst: ip4, ipId: u16,
                                  srcPort: u16, dstPort: u16, sequence: u32, ack: u32, flags: byte, window: u16,
                                  h: TlsSni.ClientHello, before: seq<TlsSni.Extension>, host: bytes, more: bytes,
                                  after: seq<TlsSni.Extension>)
    requires TlsSni.WellFormed(h) && TlsSni.FitsOneRecord(h)
    requires |TlsSni.Record(h)| <= 65495 && |host| + |more| + 5 < 0x1_0000
    requires forall k | 0 <= k < |before| :: before[k].kind != 0
    requires h.extensions == Some(before + [TlsSni.ServerName(host, more)] + after)
    ensures var tcp := TcpPacket(srcPort, dstPort, sequence, ack, flags, TlsSni.Record(h), window);
      var p := ParseFrame(ts, wireLen, Frame(srcMac, dstMac, src, dst, 6, tcp, ipId));
      p.Some? && p.value.tlsSni == Some(DecodeAscii(host))
  {
    var record := TlsSni.Record(h);
    TcpFrameRoundTrip(ts, wireLen, srcMac, dstMac, src, dst, ipId, srcPort, dstPort, sequence, ack, flags,
                      record, window);
    TlsSni.RecordPrefix(h);
    TlsSni.SniOfClientHello(h, before, host, more, after, []);
    assert record + [] == record;
  }
}
