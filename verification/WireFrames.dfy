/** Frames as they occur on the wire: with or without a VLAN tag, with IP options and with TCP
    options (RFC 791, RFC 9293, RFC 768), and what the packet engine reports for each of them. */
module WireFrames {
  import opened Wrappers
  import opened Bytes
  import opened Packets
  import Checksum
  import DnsNames
  import TlsSni

  /** Options fill whole 32-bit words, at most ten of them. */
  type options = o: bytes | |o| % 4 == 0 && |o| <= 40 witness []
  type nibble = x: int | 0 <= x < 16

  /** Ethernet addresses and the contents of the VLAN tag, if there is one. */
  datatype Link = Link(src: mac, dst: mac, tag: Option<u16>)

  datatype IpHead = IpHead(src: ip4, dst: ip4, service: byte, length: u16, id: u16, fragment: u16, ttl: byte,
                           checksum: u16, options: options)

  datatype Carried =
    | TcpSegment(srcPort: u16, dstPort: u16, sequence: u32, ack: u32, reserved: nibble, flags: byte, window: u16,
                 checksum: u16, urgent: u16, options: options, payload: bytes)
    | UdpDatagram(srcPort: u16, dstPort: u16, length: u16, checksum: u16, payload: bytes)
    | Unported(protocol: byte, payload: bytes)

  /** A protocol without ports that the engine would look for is neither TCP nor UDP. */
  type carried = c: Carried | c.Unported? ==> c.protocol != 6 && c.protocol != 17
    witness Unported(1, [])

  datatype WireFrame = WireFrame(link: Link, ip: IpHead, carried: carried)

  // ---------- Layout ----------

  function LinkBytes(l: Link): bytes {
    l.dst + l.src + (if l.tag.Some? then PackU16(0x8100) + PackU16(l.tag.value) else []) + PackU16(0x0800)
  }

  function ProtocolOf(c: carried): byte {
    match c
    case TcpSegment(_, _, _, _, _, _, _, _, _, _, _) => 6
    case UdpDatagram(_, _, _, _, _) => 17
    case Unported(protocol, _) => protocol
  }

  /** The fixed 20 bytes; the low nibble of the first counts the header's 32-bit words. */
  function IpFixed(h: IpHead, protocol: byte): (r: bytes)
    ensures |r| == 20
    ensures r[0] % 16 * 4 == 20 + |h.options| && r[9] == protocol && r[12..16] == h.src && r[16..20] == h.dst
  {
    [0x45 + |h.options| / 4, h.service] + PackU16(h.length) + PackU16(h.id) + PackU16(h.fragment)
    + [h.ttl, protocol] + PackU16(h.checksum) + h.src + h.dst
  }

  /** The fixed 20 bytes; the high nibble of byte 12 counts the header's 32-bit words. */
  function TcpFixed(c: carried): (r: bytes)
    requires c.TcpSegment?
    ensures |r| == 20
    ensures U16At(r, 0) == c.srcPort && U16At(r, 2) == c.dstPort
    ensures r[12] / 16 * 4 == 20 + |c.options| && r[13] == c.flags
  {
    PackU16(c.srcPort) + PackU16(c.dstPort) + PackU32(c.sequence) + PackU32(c.ack)
    + [(5 + |c.options| / 4) * 16 + c.reserved, c.flags]
    + PackU16(c.window) + PackU16(c.checksum) + PackU16(c.urgent)
  }

  function CarriedBytes(c: carried): bytes {
    match c
    case TcpSegment(_, _, _, _, _, _, _, _, _, opts, payload) => TcpFixed(c) + opts + payload
    case UdpDatagram(srcPort, dstPort, length, checksum, payload) =>
      PackU16(srcPort) + PackU16(dstPort) + PackU16(length) + PackU16(checksum) + payload
    case Unported(_, payload) => payload
  }

  function IpBytes(f: WireFrame): bytes {
    IpFixed(f.ip, ProtocolOf(f.carried)) + f.ip.options + CarriedBytes(f.carried)
  }

  function FrameBytes(f: WireFrame): bytes {
    LinkBytes(f.link) + IpBytes(f)
  }

  // ---------- What is reported ----------

  /** The server name of a payload that starts a TLS handshake record. */
  function SniOfPayload(payload: bytes): Option<string> {
    if |payload| >= 2 && payload[0] == 0x16 && payload[1] == 0x03 then TlsSni.ExtractSniOf(payload) else None
  }

  /** The first name of a datagram to or from port 53 that has a header with a question. */
  function QuestionOf(c: carried): Option<string>
    requires c.UdpDatagram?
  {
    if c.srcPort != 53 && c.dstPort != 53 then None
    else if |c.payload| < 12 || U16At(c.payload, 4) == 0 then None
    else if DnsNames.NameAt(c.payload, 12) == "" then None
    else Some(DnsNames.NameAt(c.payload, 12))
  }

  function ProtocolName(protocol: byte): Proto {
    if protocol == 1 then ICMP else OtherProto(protocol)
  }

  /** The packet reported: the frame's own addresses, ports, flags and payload behind all options. */
  function Reported(ts: real, wireLen: nat, f: WireFrame): RawPacket {
    match f.carried
    case TcpSegment(srcPort, dstPort, _, _, _, flags, _, _, _, _, payload) =>
      RawPacket(ts, f.ip.src, f.ip.dst, srcPort, dstPort, TCP, FlagsOf(flags), wireLen, payload, None,
                SniOfPayload(payload))
    case UdpDatagram(srcPort, dstPort, _, _, payload) =>
      RawPacket(ts, f.ip.src, f.ip.dst, srcPort, dstPort, UDP, [], wireLen, payload, QuestionOf(f.carried), None)
    case Unported(protocol, payload) =>
      RawPacket(ts, f.ip.src, f.ip.dst, 0, 0, ProtocolName(protocol), [], wireLen, payload, None, None)
  }

  // ---------- The parser reports it ----------

  lemma {:induction false} LinkCarries(ts: real, wireLen: nat, l: Link, ip: bytes)
    ensures ParseFrame(ts, wireLen, LinkBytes(l) + ip) == ParseIpv4(ts, wireLen, ip)
  {
    var f, macs := LinkBytes(l) + ip, l.dst + l.src;
    if l.tag.Some? {
      var tag, tci := PackU16(0x8100), PackU16(l.tag.value);
      assert f == macs + tag + (tci + PackU16(0x0800) + ip);
      OccursInside(macs, tag, tci + PackU16(0x0800) + ip);
      OccursU16(f, 12, 0x8100);
      assert f == (macs + tag + tci) + PackU16(0x0800) + ip;
      OccursInside(macs + tag + tci, PackU16(0x0800), ip);
      OccursU16(f, 16, 0x0800);
      assert f[18..] == ip;
    } else {
      assert f == macs + PackU16(0x0800) + ip;
      OccursInside(macs, PackU16(0x0800), ip);
      OccursU16(f, 12, 0x0800);
      assert f[14..] == ip;
    }
  }

  /** What stands in a header with options before anything. */
  lemma {:induction false} Behind(fixed: bytes, opts: bytes, rest: bytes)
    requires |fixed| == 20
    ensures var all := fixed + opts + rest;
      && |all| >= 20 && all[..20] == fixed && all[20 + |opts|..] == rest
      && all[12..16] == fixed[12..16] && all[16..20] == fixed[16..20]
      && forall i | 0 <= i < 20 :: all[i] == fixed[i]
  {
    var all := fixed + opts + rest;
    assert all == fixed + (opts + rest);
  }

  lemma {:induction false} IpSplit(ts: real, wireLen: nat, h: IpHead, protocol: byte, t: bytes)
    ensures var s := ParseTransport(protocol, t);
      ParseIpv4(ts, wireLen, IpFixed(h, protocol) + h.options + t)
      == Some(RawPacket(ts, h.src, h.dst, s.srcPort, s.dstPort, ProtoOf(protocol), s.flags, wireLen, s.payload,
                        s.dnsQuery, s.tlsSni))
  {
    Behind(IpFixed(h, protocol), h.options, t);
  }

  lemma {:induction false} TcpCarries(c: carried)
    requires c.TcpSegment?
    ensures ParseTcp(CarriedBytes(c))
         == Segment(c.srcPort, c.dstPort, FlagsOf(c.flags), c.payload, None, SniOfPayload(c.payload))
  {
    Behind(TcpFixed(c), c.options, c.payload);
    TcpFields(CarriedBytes(c), TcpFixed(c));
    SniPrefix(c.payload);
  }

  lemma {:induction false} TcpFields(t: bytes, fixed: bytes)
    requires |fixed| == 20 && |t| >= 20 && forall i | 0 <= i < 20 :: t[i] == fixed[i]
    ensures U16At(t, 0) == U16At(fixed, 0) && U16At(t, 2) == U16At(fixed, 2)
  {
  }

  lemma {:induction false} SniPrefix(payload: bytes)
    ensures ParseTcpSni(payload) == SniOfPayload(payload)
  {
    if |payload| >= 2 {
      assert payload[..2] == [payload[0], payload[1]];
    }
  }

  lemma {:induction false} UdpCarries(c: carried)
    requires c.UdpDatagram?
    ensures ParseUdp(CarriedBytes(c)) == Segment(c.srcPort, c.dstPort, [], c.payload, QuestionOf(c), None)
  {
    var t := CarriedBytes(c);
    assert t == PackU16(c.srcPort) + (PackU16(c.dstPort) + PackU16(c.length) + PackU16(c.checksum) + c.payload);
    assert U16At(t, 0) == U16At(PackU16(c.srcPort), 0) && U16At(t, 2) == U16At(PackU16(c.dstPort), 0);
    assert t[8..] == c.payload;
  }

  /** Every frame, tagged or not and with any IP and TCP options, is reported with its own
      addresses, ports and flags and the payload behind the options. */
  lemma {:induction false} FrameIsReported(ts: real, wireLen: nat, f: WireFrame)
    ensures ParseFrame(ts, wireLen, FrameBytes(f)) == Some(Reported(ts, wireLen, f))
  {
    LinkCarries(ts, wireLen, f.link, IpBytes(f));
    IpSplit(ts, wireLen, f.ip, ProtocolOf(f.carried), CarriedBytes(f.carried));
    match f.carried
    case TcpSegment(_, _, _, _, _, _, _, _, _, _, _) => TcpCarries(f.carried);
    case UdpDatagram(_, _, _, _, _) => UdpCarries(f.carried);
    case Unported(_, _) =>
  }

  // ---------- Which frames are reported at all ----------

  /** A frame is reported if and only if it says IPv4, directly or behind one tag, and a whole
      fixed IP header follows. */
  lemma {:induction false} ReportedExactly(ts: real, wireLen: nat, data: bytes)
    ensures ParseFrame(ts, wireLen, data).Some?
       <==> || (|data| >= 34 && U16At(data, 12) == 0x0800)
            || (|data| >= 38 && U16At(data, 12) == 0x8100 && U16At(data, 16) == 0x0800)
  {
  }

  /** A TCP header cut short of 20 bytes, or a UDP header cut short of 8, is reported without
      ports, flags and payload. */
  lemma {:induction false} CutShort(ts: real, wireLen: nat, l: Link, h: IpHead, protocol: byte, t: bytes)
    requires (protocol == 6 && |t| < 20) || (protocol == 17 && |t| < 8)
    ensures ParseFrame(ts, wireLen, LinkBytes(l) + (IpFixed(h, protocol) + h.options + t))
         == Some(RawPacket(ts, h.src, h.dst, 0, 0, if protocol == 6 then TCP else UDP, [], wireLen, [], None, None))
  {
    LinkCarries(ts, wireLen, l, IpFixed(h, protocol) + h.options + t);
    IpSplit(ts, wireLen, h, protocol, t);
  }

  /** The bytes behind `words` 32-bit words, or none if there are not as many. */
  function Behind32(b: bytes, words: nat): bytes {
    if 4 * words <= |b| then b[4 * words..] else []
  }

  /** Whatever header length a packet claims, also one shorter than the fixed header or longer than
      the packet, its transport header is taken from there. */
  lemma {:induction false} AnyHeaderLength(ts: real, wireLen: nat, l: Link, ip: bytes)
    requires |ip| >= 20
    ensures var s := ParseTransport(ip[9], Behind32(ip, ip[0] % 16));
      ParseFrame(ts, wireLen, LinkBytes(l) + ip)
      == Some(RawPacket(ts, ip[12..16], ip[16..20], s.srcPort, s.dstPort, ProtoOf(ip[9]), s.flags, wireLen, s.payload,
                        s.dnsQuery, s.tlsSni))
  {
    LinkCarries(ts, wireLen, l, ip);
  }

  /** Whatever data offset a segment claims, its payload is taken from there. */
  lemma {:induction false} AnyDataOffset(t: bytes)
    requires |t| >= 20
    ensures var payload := Behind32(t, t[12] / 16);
      ParseTcp(t) == Segment(U16At(t, 0), U16At(t, 2), FlagsOf(t[13]), payload, None, SniOfPayload(payload))
  {
    SniPrefix(Behind32(t, t[12] / 16));
  }

  // ---------- The generator's frames are of this kind ----------

  /** The header `build_ipv4_packet` writes before a payload of `size` bytes. */
  function GeneratorHead(src: ip4, dst: ip4, protocol: byte, size: nat, ipId: u16): IpHead
    requires size <= 65515
  {
    IpHead(src, dst, 0, 20 + size, ipId, 0x4000, 64,
           Checksum.IpChecksumOf(Ipv4Header(src, dst, protocol, size, ipId, 0)), [])
  }

  lemma {:induction false} GeneratorHeadBytes(src: ip4, dst: ip4, protocol: byte, size: nat, ipId: u16)
    requires size <= 65515
    ensures var h := GeneratorHead(src, dst, protocol, size, ipId);
      IpFixed(h, protocol) == Ipv4Header(src, dst, protocol, size, ipId, h.checksum)
  {
  }

  /** A frame built around a carried packet is a wire frame without tag and options. */
  lemma {:induction false} BuiltIsWire(srcMac: mac, dstMac: mac, src: ip4, dst: ip4, ipId: u16, c: carried)
    requires |CarriedBytes(c)| <= 65515
    ensures var h := GeneratorHead(src, dst, ProtocolOf(c), |CarriedBytes(c)|, ipId);
      FrameBytes(WireFrame(Link(srcMac, dstMac, None), h, c))
      == Frame(srcMac, dstMac, src, dst, ProtocolOf(c), CarriedBytes(c), ipId)
  {
    var payload := CarriedBytes(c);
    var h := GeneratorHead(src, dst, ProtocolOf(c), |payload|, ipId);
    GeneratorHeadBytes(src, dst, ProtocolOf(c), |payload|, ipId);
    var head := IpFixed(h, ProtocolOf(c));
    assert head + h.options + payload == head + payload;
    NoTag(Link(srcMac, dstMac, None), head + payload);
  }

  lemma {:induction false} NoTag(l: Link, ip: bytes)
    requires l.tag == None
    ensures LinkBytes(l) + ip == EthernetFrame(l.src, l.dst, 0x0800, ip)
  {
  }

  lemma {:induction false} BuiltTcpIsWire(srcPort: u16, dstPort: u16, sequence: u32, ack: u32, flags: byte,
                                          payload: bytes, window: u16)
    ensures TcpPacket(srcPort, dstPort, sequence, ack, flags, payload, window)
         == CarriedBytes(TcpSegment(srcPort, dstPort, sequence, ack, 0, flags, window, 0, 0, [], payload))
  {
  }

  lemma {:induction false} BuiltUdpIsWire(srcPort: u16, dstPort: u16, payload: bytes)
    requires |payload| <= 65527
    ensures UdpPacket(srcPort, dstPort, payload)
         == CarriedBytes(UdpDatagram(srcPort, dstPort, 8 + |payload|, 0, payload))
  {
  }
}
