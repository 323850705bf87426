/** Server Name Indication out of a TLS ClientHello: the byte-level extractor of the
    packet engine, against a serializer for section 7.4.1.2 of RFC 5246 with the
    server_name extension of section 3 of RFC 6066. */
module TlsSni {
  import opened Wrappers
  import opened Bytes

  function Min(a: int, b: int): int {
    if a <= b then a else b
  }

  // ---------- Extractor ----------

  /** The extension loop: `idx` is where the next extension header would start.
      A slice too short for `unpack` raises, which the caller turns into `None`. */
  function ScanExtensions(p: bytes, idx: nat, extEnd: nat): Option<string>
    requires extEnd <= |p|
    decreases extEnd - idx
  {
    if idx + 4 > extEnd then None
    else
      var kind, length, data := U16At(p, idx), U16At(p, idx + 2), idx + 4;
      if kind == 0 && data + 3 <= |p| then
        if data + 5 > |p| then None
        else Some(DecodeAscii(p[data + 5..Min(data + 5 + U16At(p, data + 3), |p|)]))
      else if data + length > extEnd then None
      else ScanExtensions(p, data + length, extEnd)
  }

  /** Where the extensions start, past the session id, cipher suites and compression
      methods; `None` where the program gives up. */
  function ExtensionsStart(p: bytes): Option<nat> {
    if |p| < 43 || p[0] != 0x16 || p[5] != 0x01 || |p| == 43 then None
    else
      var ciphers := 44 + p[43] as int;
      if ciphers + 2 > |p| then None
      else
        var compression := ciphers + 2 + U16At(p, ciphers);
        if compression + 1 > |p| then None
        else
          var extensions := compression + 1 + p[compression] as int;
          if extensions + 2 > |p| then None else Some(extensions)
  }

  function ExtractSniOf(p: bytes): Option<string> {
    match ExtensionsStart(p)
    case None => None
    case Some(at) => ScanExtensions(p, at + 2, Min(at + 2 + U16At(p, at), |p|))
  }

  /** `extract_tls_sni`. */
  method ExtractSni(payload: bytes) returns (sni: Option<string>)
    ensures sni == ExtractSniOf(payload)
  {
    if |payload| < 43 || payload[0] != 0x16 {
      return None;
    }
    if payload[5] != 0x01 {
      return None;
    }
    var idx: nat := 43;
    if idx >= |payload| {
      return None;
    }
    idx := idx + 1 + payload[idx];
    if idx + 2 > |payload| {
      return None;
    }
    idx := idx + 2 + U16At(payload, idx);
    if idx + 1 > |payload| {
      return None;
    }
    idx := idx + 1 + payload[idx];
    if idx + 2 > |payload| {
      return None;
    }
    var extensionsLen := U16At(payload, idx);
    idx := idx + 2;
    var extEnd := Min(idx + extensionsLen, |payload|);
    sni := ScanLoop(payload, idx, extEnd);
  }

  /** The extension loop of `extract_tls_sni`. */
  method ScanLoop(payload: bytes, start: nat, extEnd: nat) returns (sni: Option<string>)
    requires extEnd <= |payload|
    ensures sni == ScanExtensions(payload, start, extEnd)
  {
    var idx := start;
    while idx + 4 <= extEnd
      invariant ScanExtensions(payload, idx, extEnd) == ScanExtensions(payload, start, extEnd)
      decreases extEnd - idx
    {
      var kind, length := U16At(payload, idx), U16At(payload, idx + 2);
      idx := idx + 4;
      if kind == 0 {
        if idx + 3 <= |payload| {
          if idx + 5 > |payload| {
            return None;
          }
          var sniLen := U16At(payload, idx + 3);
          return Some(DecodeAscii(payload[idx + 5..Min(idx + 5 + sniLen, |payload|)]));
        }
      }
      idx := idx + length;
    }
    return None;
  }

  // ---------- Serializer ----------

  type short = b: bytes | |b| < 0x1_0000
  datatype Extension = Extension(kind: u16, data: short)

  /** A ClientHello body. The extension block may be absent altogether. */
  datatype ClientHello = ClientHello(
    version: u16,
    random: bytes,
    sessionId: bytes,
    cipherSuites: bytes,
    compression: bytes,
    extensions: Option<seq<Extension>>)

  predicate WellFormedExtensions(es: seq<Extension>) {
    |Extensions(es)| < 0x1_0000
  }

  predicate WellFormed(h: ClientHello) {
    && |h.random| == 32
    && |h.sessionId| <= 32
    && |h.cipherSuites| < 0x1_0000
    && |h.compression| <= 0xFF
    && (h.extensions.Some? ==> WellFormedExtensions(h.extensions.value))
  }

  function Extensions(es: seq<Extension>): bytes {
    if es == [] then []
    else PackU16(es[0].kind) + PackU16(|es[0].data|) + es[0].data + Extensions(es[1..])
  }

  /** Version, random, session id, cipher suites and compression methods. */
  function Fixed(h: ClientHello): (r: bytes)
    requires WellFormed(h)
    ensures |r| == 38 + |h.sessionId| + |h.cipherSuites| + |h.compression|
  {
    PackU16(h.version) + h.random + [|h.sessionId|] + h.sessionId
    + PackU16(|h.cipherSuites|) + h.cipherSuites + [|h.compression|] + h.compression
  }

  function Block(h: ClientHello): bytes
    requires WellFormed(h)
  {
    match h.extensions
    case None => []
    case Some(es) => PackU16(|Extensions(es)|) + Extensions(es)
  }

  /** The whole handshake fits one TLS record. */
  predicate FitsOneRecord(h: ClientHello)
    requires WellFormed(h)
  {
    |Fixed(h)| + |Block(h)| + 4 < 0x1_0000
  }

  /** The nine bytes of the record and handshake headers. */
  function Head(h: ClientHello): (r: bytes)
    requires WellFormed(h) && FitsOneRecord(h)
    ensures |r| == 9 && r[0] == 0x16 && r[1] == 0x03 && r[5] == 0x01
  {
    var size := |Fixed(h)| + |Block(h)|;
    [0x16] + PackU16(0x0301) + PackU16(size + 4) + [0x01, 0] + PackU16(size)
  }

  /** One handshake record: record header, handshake header, body. */
  function Record(h: ClientHello): (r: bytes)
    requires WellFormed(h) && FitsOneRecord(h)
  {
    Head(h) + Fixed(h) + Block(h)
  }

  /** A server_name extension whose list starts with a host_name entry. */
  function ServerName(host: bytes, more: bytes): Extension
    requires |host| + |more| + 5 < 0x1_0000
  {
    Extension(0, PackU16(3 + |host| + |more|) + [0] + PackU16(|host|) + host + more)
  }

  // ---------- Extraction from a serialized ClientHello ----------

  /** The data of the first server_name extension. */
  function FirstServerName(es: seq<Extension>): Option<bytes> {
    if es == [] then None
    else if es[0].kind == 0 then Some(es[0].data)
    else FirstServerName(es[1..])
  }

  lemma {:induction false} ExtensionHead(p: bytes, o: nat, es: seq<Extension>)
    requires es != [] && Occurs(p, o, Extensions(es))
    ensures o + 4 <= |p| && U16At(p, o) == es[0].kind && U16At(p, o + 2) == |es[0].data|
    ensures Occurs(p, o + 4, es[0].data)
    ensures Occurs(p, o + 4 + |es[0].data|, Extensions(es[1..]))
    ensures |Extensions(es)| == 4 + |es[0].data| + |Extensions(es[1..])|
  {
    var kind, length, data := PackU16(es[0].kind), PackU16(|es[0].data|), es[0].data;
    OccursSplit(p, o, kind + length + data, Extensions(es[1..]));
    OccursSplit(p, o, kind + length, data);
    OccursSplit(p, o, kind, length);
    OccursU16(p, o, es[0].kind);
    OccursU16(p, o + 2, |es[0].data|);
  }

  /** `data` is a server-name list whose first entry names `host`. */
  predicate NamesHost(data: bytes, host: bytes) {
    5 + |host| <= |data| && U16At(data, 3) == |host| && data[5..5 + |host|] == host
  }

  lemma {:induction false} ServerNameNamesHost(host: bytes, more: bytes)
    requires |host| + |more| + 5 < 0x1_0000
    ensures NamesHost(ServerName(host, more).data, host)
  {
    var front := PackU16(3 + |host| + |more|) + [0];
    var size := PackU16(|host|);
    OccursInside(front, size, host + more);
    assert ServerName(host, more).data == front + size + (host + more);
    OccursU16(ServerName(host, more).data, 3, |host|);
  }

  lemma {:induction false} HostNameIn(p: bytes, o: nat, data: bytes, host: bytes)
    requires Occurs(p, o, data) && NamesHost(data, host)
    ensures o + 5 + |host| <= |p|
    ensures U16At(p, o + 3) == |host| && p[o + 5..o + 5 + |host|] == host
  {
    var q := p[o..o + |data|];
    assert q[3] == p[o + 3] && q[4] == p[o + 4];
    assert forall k | 5 <= k < 5 + |host| :: q[k] == p[o + k];
    assert p[o + 5..o + 5 + |host|] == data[5..5 + |host|];
  }

  /** What scanning `es` should report, when `host` is the name its first
      server_name extension (if it has one) leads with. */
  function Reported(es: seq<Extension>, host: bytes): Option<string> {
    if FirstServerName(es).Some? then Some(DecodeAscii(host)) else None
  }

  predicate FirstNames(es: seq<Extension>, host: bytes) {
    FirstServerName(es).Some? ==> NamesHost(FirstServerName(es).value, host)
  }

  /** The extensions `es` lie in `p` one after the other, from `o` up to `end`. */
  predicate Laid(p: bytes, o: nat, end: nat, es: seq<Extension>)
    requires end <= |p|
    decreases |es|
  {
    if es == [] then o == end
    else
      && o + 4 + |es[0].data| <= end
      && U16At(p, o) == es[0].kind && U16At(p, o + 2) == |es[0].data|
      && Occurs(p, o + 4, es[0].data)
      && Laid(p, o + 4 + |es[0].data|, end, es[1..])
  }

  lemma {:induction false} ExtensionsLaid(p: bytes, o: nat, end: nat, es: seq<Extension>)
    requires Occurs(p, o, Extensions(es)) && end == o + |Extensions(es)|
    ensures Laid(p, o, end, es)
    decreases |es|
  {
    if es != [] {
      ExtensionHead(p, o, es);
      ExtensionsLaid(p, o + 4 + |es[0].data|, end, es[1..]);
    }
  }

  /** Scanning laid-out extensions finds the first server_name entry. */
  lemma {:induction false} ScanFindsFirst(p: bytes, o: nat, end: nat, es: seq<Extension>, host: bytes)
    requires end <= |p| && Laid(p, o, end, es) && FirstNames(es, host)
    ensures ScanExtensions(p, o, end) == Reported(es, host)
    decreases |es|
  {
    if es != [] {
      if es[0].kind == 0 {
        HostNameIn(p, o + 4, es[0].data, host);
      } else {
        ScanFindsFirst(p, o + 4 + |es[0].data|, end, es[1..], host);
      }
    }
  }

  /** The offset arithmetic lands on the extension block of a serialized message. */
  lemma {:induction false} FixedPartIsSkipped(p: bytes, h: ClientHello)
    requires WellFormed(h) && |p| >= 9 && p[0] == 0x16 && p[5] == 0x01
    requires Occurs(p, 9, Fixed(h))
    ensures var at := 9 + |Fixed(h)|;
      ExtensionsStart(p) == if at + 2 <= |p| then Some(at) else None
  {
    var front := PackU16(h.version) + h.random;
    var toSession := front + [|h.sessionId|] + h.sessionId;
    var toCiphers := toSession + PackU16(|h.cipherSuites|) + h.cipherSuites;
    OccursSplit(p, 9, toCiphers + [|h.compression|], h.compression);
    OccursSplit(p, 9, toCiphers, [|h.compression|]);
    OccursByte(p, 9 + |toCiphers|, |h.compression|);
    OccursSplit(p, 9, toSession + PackU16(|h.cipherSuites|), h.cipherSuites);
    OccursSplit(p, 9, toSession, PackU16(|h.cipherSuites|));
    OccursU16(p, 9 + |toSession|, |h.cipherSuites|);
    OccursSplit(p, 9, front + [|h.sessionId|], h.sessionId);
    OccursSplit(p, 9, front, [|h.sessionId|]);
    OccursByte(p, 43, |h.sessionId|);
  }

  lemma {:induction false} PartsOccur(head: bytes, a: bytes, b: bytes, trailer: bytes)
    ensures Occurs(head + a + b + trailer, |head|, a)
    ensures Occurs(head + a + b + trailer, |head| + |a|, b)
  {
    OccursInside(head, a, b + trailer);
    assert head + a + b + trailer == head + a + (b + trailer);
    OccursInside(head + a, b, trailer);
  }

  lemma {:induction false} FixedInRecord(h: ClientHello, trailer: bytes)
    requires WellFormed(h) && FitsOneRecord(h)
    ensures var p := Record(h) + trailer;
      && |p| == 9 + |Fixed(h)| + |Block(h)| + |trailer|
      && p[0] == 0x16 && p[5] == 0x01
      && Occurs(p, 9, Fixed(h))
  {
    PartsOccur(Head(h), Fixed(h), Block(h), trailer);
  }

  lemma {:induction false} BlockInRecord(h: ClientHello, trailer: bytes)
    requires WellFormed(h) && FitsOneRecord(h)
    ensures Occurs(Record(h) + trailer, 9 + |Fixed(h)|, Block(h))
  {
    PartsOccur(Head(h), Fixed(h), Block(h), trailer);
  }

  lemma {:induction false} BlockScanned(p: bytes, at: nat, h: ClientHello, host: bytes)
    requires WellFormed(h) && h.extensions.Some? && FirstNames(h.extensions.value, host)
    requires Occurs(p, at, Block(h))
    ensures at + 2 <= |p| && at + 2 + U16At(p, at) <= |p|
    ensures ScanExtensions(p, at + 2, at + 2 + U16At(p, at)) == Reported(h.extensions.value, host)
  {
    var es := h.extensions.value;
    OccursSplit(p, at, PackU16(|Extensions(es)|), Extensions(es));
    OccursU16(p, at, |Extensions(es)|);
    ExtensionsLaid(p, at + 2, at + 2 + |Extensions(es)|, es);
    ScanFindsFirst(p, at + 2, at + 2 + |Extensions(es)|, es, host);
  }

  lemma {:induction false} RecordStarts(h: ClientHello, trailer: bytes)
    requires WellFormed(h) && FitsOneRecord(h) && h.extensions.Some?
    ensures ExtensionsStart(Record(h) + trailer) == Some(9 + |Fixed(h)|)
  {
    FixedInRecord(h, trailer);
    FixedPartIsSkipped(Record(h) + trailer, h);
  }

  lemma {:induction false} RecordBlockScanned(h: ClientHello, host: bytes, trailer: bytes)
    requires WellFormed(h) && FitsOneRecord(h) && h.extensions.Some?
    requires FirstNames(h.extensions.value, host)
    ensures var p, at := Record(h) + trailer, 9 + |Fixed(h)|;
      && at + 2 <= |p| && at + 2 + U16At(p, at) <= |p|
      && ScanExtensions(p, at + 2, at + 2 + U16At(p, at)) == Reported(h.extensions.value, host)
  {
    BlockInRecord(h, trailer);
    BlockScanned(Record(h) + trailer, 9 + |Fixed(h)|, h, host);
  }

  lemma {:induction false} ScannedFrom(p: bytes, at: nat, sni: Option<string>)
    requires ExtensionsStart(p) == Some(at) && at + 2 <= |p| && at + 2 + U16At(p, at) <= |p|
    requires ScanExtensions(p, at + 2, at + 2 + U16At(p, at)) == sni
    ensures ExtractSniOf(p) == sni
  {
  }

  lemma {:induction false} ClientHelloScanned(h: ClientHello, host: bytes, trailer: bytes)
    requires WellFormed(h) && FitsOneRecord(h) && h.extensions.Some?
    requires FirstNames(h.extensions.value, host)
    ensures ExtractSniOf(Record(h) + trailer) == Reported(h.extensions.value, host)
  {
    RecordStarts(h, trailer);
    RecordBlockScanned(h, host, trailer);
    ScannedFrom(Record(h) + trailer, 9 + |Fixed(h)|, Reported(h.extensions.value, host));
  }

  lemma {:induction false} FirstAfterOthers(before: seq<Extension>, e: Extension, after: seq<Extension>)
    requires e.kind == 0 && forall k | 0 <= k < |before| :: before[k].kind != 0
    ensures FirstServerName(before + [e] + after) == Some(e.data)
  {
    if before != [] {
      assert (before + [e] + after)[1..] == before[1..] + [e] + after;
      FirstAfterOthers(before[1..], e, after);
    }
  }

  lemma {:induction false} RecordPrefix(h: ClientHello)
    requires WellFormed(h) && FitsOneRecord(h)
    ensures [0x16, 0x03] <= Record(h)
  {
    assert Record(h)[..2] == Head(h)[..2];
  }

  /** For every well-formed single-record ClientHello, whatever follows the record, the
      result is the host name of the first server_name extension. */
  lemma {:induction false} SniOfClientHello(h: ClientHello, before: seq<Extension>, host: bytes, more: bytes,
                         after: seq<Extension>, trailer: bytes)
    requires WellFormed(h) && FitsOneRecord(h)
    requires |host| + |more| + 5 < 0x1_0000
    requires forall k | 0 <= k < |before| :: before[k].kind != 0
    requires h.extensions == Some(before + [ServerName(host, more)] + after)
    ensures ExtractSniOf(Record(h) + trailer) == Some(DecodeAscii(host))
  {
    FirstAfterOthers(before, ServerName(host, more), after);
    ServerNameNamesHost(host, more);
    ClientHelloScanned(h, host, trailer);
  }

  lemma {:induction false} NoneAmongOthers(es: seq<Extension>)
    requires forall k | 0 <= k < |es| :: es[k].kind != 0
    ensures FirstServerName(es) == None
  {
    if es != [] {
      NoneAmongOthers(es[1..]);
    }
  }

  lemma {:induction false} NoServerNameNoSni(h: ClientHello, trailer: bytes)
    requires WellFormed(h) && FitsOneRecord(h) && h.extensions.Some?
    requires forall k | 0 <= k < |h.extensions.value| :: h.extensions.value[k].kind != 0
    ensures ExtractSniOf(Record(h) + trailer) == None
  {
    NoneAmongOthers(h.extensions.value);
    ClientHelloScanned(h, [], trailer);
  }

  // ---------- Exactly when a scan reports a name ----------

  /** From `idx`, complete extensions of other kinds lead to a server_name header at `o` whose
      name length field lies inside the payload. */
  predicate LeadsToName(p: bytes, idx: nat, end: nat, es: seq<Extension>, o: nat) {
    && o + 4 <= end <= |p| && o + 9 <= |p|
    && Laid(p, idx, o, es) && (forall k | 0 <= k < |es| :: es[k].kind != 0)
    && U16At(p, o) == 0
  }

  /** The name behind the header at `o`, cut off at the end of the payload. */
  function NameAt(p: bytes, o: nat): string
    requires o + 9 <= |p|
  {
    DecodeAscii(p[o + 9..Min(o + 9 + U16At(p, o + 7), |p|)])
  }

  lemma {:induction false} ScanArrives(p: bytes, idx: nat, end: nat, es: seq<Extension>, o: nat)
    requires LeadsToName(p, idx, end, es, o)
    ensures ScanExtensions(p, idx, end) == Some(NameAt(p, o))
    decreases |es|
  {
    if es != [] {
      ScanArrives(p, idx + 4 + |es[0].data|, end, es[1..], o);
    }
  }

  lemma {:induction false} ScanCameFrom(p: bytes, idx: nat, end: nat) returns (es: seq<Extension>, o: nat)
    requires end <= |p| && ScanExtensions(p, idx, end).Some?
    ensures LeadsToName(p, idx, end, es, o)
    decreases end - idx
  {
    var kind, length, data := U16At(p, idx), U16At(p, idx + 2), idx + 4;
    if kind == 0 && data + 3 <= |p| {
      es, o := [], idx;
    } else {
      var rest;
      rest, o := ScanCameFrom(p, data + length, end);
      es := [Extension(kind, p[data..data + length])] + rest;
      assert es[1..] == rest;
    }
  }

  /** A scan of any bytes reports a name exactly when such a chain exists, and then that name. */
  lemma {:induction false} ScanExactly(p: bytes, idx: nat, end: nat)
    requires end <= |p|
    ensures ScanExtensions(p, idx, end).Some? <==> exists es, o: nat :: LeadsToName(p, idx, end, es, o)
    ensures forall es, o: nat | LeadsToName(p, idx, end, es, o) :: ScanExtensions(p, idx, end) == Some(NameAt(p, o))
  {
    forall es, o: nat | LeadsToName(p, idx, end, es, o) ensures ScanExtensions(p, idx, end) == Some(NameAt(p, o)) {
      ScanArrives(p, idx, end, es, o);
    }
    if ScanExtensions(p, idx, end).Some? {
      var es, o := ScanCameFrom(p, idx, end);
    }
  }

  /** Behind the 43 bytes of headers, version and random stand the session id `s`, the cipher
      suites `c` and the compression methods `m`, each behind its length; then comes `at`. */
  predicate ListsAt(p: bytes, s: bytes, c: bytes, m: bytes, at: nat) {
    var suites, methods := 44 + |s|, 46 + |s| + |c|;
    && |s| <= 0xFF && |c| < 0x1_0000 && |m| <= 0xFF
    && Occurs(p, 43, [|s|]) && Occurs(p, 44, s)
    && Occurs(p, suites, PackU16(|c|)) && Occurs(p, suites + 2, c)
    && Occurs(p, methods, [|m|]) && Occurs(p, methods + 1, m)
    && at == methods + 1 + |m|
  }

  lemma {:induction false} PackedWord(p: bytes, i: nat)
    requires i + 2 <= |p|
    ensures PackU16(U16At(p, i)) == p[i..i + 2]
  {
    assert p[i..i + 2] == [p[i], p[i + 1]];
  }

  lemma {:induction false} ListsFound(p: bytes, at: nat) returns (s: bytes, c: bytes, m: bytes)
    requires ExtensionsStart(p) == Some(at)
    ensures ListsAt(p, s, c, m, at)
  {
    var suites := 44 + p[43] as int;
    var methods := suites + 2 + U16At(p, suites);
    s, c, m := p[44..suites], p[suites + 2..methods], p[methods + 1..at];
    PackedWord(p, suites);
    assert p[43..44] == [p[43]] && p[methods..methods + 1] == [p[methods]];
  }

  lemma {:induction false} ListsLead(p: bytes, s: bytes, c: bytes, m: bytes, at: nat)
    requires |p| >= 44 && p[0] == 0x16 && p[5] == 0x01 && ListsAt(p, s, c, m, at) && at + 2 <= |p|
    ensures ExtensionsStart(p) == Some(at)
  {
    OccursByte(p, 43, |s|);
    OccursU16(p, 44 + |s|, |c|);
    OccursByte(p, 46 + |s| + |c|, |m|);
  }

  /** The extension block of `p` starts at `at` and leads to a server_name header at `o`. */
  predicate NamesServerAt(p: bytes, at: nat, es: seq<Extension>, o: nat) {
    at + 2 <= |p| && LeadsToName(p, at + 2, Min(at + 2 + U16At(p, at), |p|), es, o)
  }

  /** And only from such bytes: what is extracted comes from a ClientHello of that form. */
  lemma {:induction false} NameFound(p: bytes) returns (s: bytes, c: bytes, m: bytes, at: nat, es: seq<Extension>,
                                     o: nat)
    requires ExtractSniOf(p).Some?
    ensures |p| >= 44 && p[0] == 0x16 && p[5] == 0x01
    ensures ListsAt(p, s, c, m, at) && NamesServerAt(p, at, es, o)
  {
    at := ExtensionsStart(p).value;
    s, c, m := ListsFound(p, at);
    es, o := ScanCameFrom(p, at + 2, Min(at + 2 + U16At(p, at), |p|));
  }

  /** From a handshake record with a ClientHello whose lists are followed by an extension block
      that leads to a server_name header, the name behind that header is extracted. */
  lemma {:induction false} ExtractedExactly(p: bytes, s: bytes, c: bytes, m: bytes, at: nat, es: seq<Extension>, o: nat)
    requires |p| >= 44 && p[0] == 0x16 && p[5] == 0x01
    requires ListsAt(p, s, c, m, at) && NamesServerAt(p, at, es, o)
    ensures ExtractSniOf(p) == Some(NameAt(p, o))
  {
    ListsLead(p, s, c, m, at);
    ScanArrives(p, at + 2, Min(at + 2 + U16At(p, at), |p|), es, o);
  }

  // ---------- A ClientHello without extension block ----------

  /** Scanning a suffix is scanning it alone. */
  lemma {:induction false} ScanShifted(a: bytes, t: bytes, i: nat, end: nat)
    requires end <= |t|
    ensures ScanExtensions(a + t, |a| + i, |a| + end) == ScanExtensions(t, i, end)
    decreases end - i
  {
    if i + 4 <= end {
      WordShifted(a, t, i);
      WordShifted(a, t, i + 2);
      var data := i + 4;
      if U16At(t, i) == 0 && data + 3 <= |t| {
        if data + 5 <= |t| {
          WordShifted(a, t, data + 3);
          SliceShifted(a, t, data + 5, Min(data + 5 + U16At(t, data + 3), |t|));
        }
      } else if data + U16At(t, i + 2) <= end {
        ScanShifted(a, t, data + U16At(t, i + 2), end);
      }
    }
  }

  lemma {:induction false} WordShifted(a: bytes, t: bytes, i: nat)
    requires i + 2 <= |t|
    ensures U16At(a + t, |a| + i) == U16At(t, i)
  {
  }

  lemma {:induction false} SliceShifted(a: bytes, t: bytes, i: nat, j: nat)
    requires i <= j <= |t|
    ensures (a + t)[|a| + i..|a| + j] == t[i..j]
  {
  }

  /** What the extractor makes of bytes it takes for an extension block. */
  function ReadAsBlock(t: bytes): Option<string> {
    if |t| < 2 then None else ScanExtensions(t, 2, Min(2 + U16At(t, 0), |t|))
  }

  /** An extractor that finds the extension block right behind `r` reads what follows `r`. */
  lemma {:induction false} ReadsBehind(r: bytes, t: bytes)
    requires ExtensionsStart(r + t) == if |t| >= 2 then Some(|r|) else None
    ensures ExtractSniOf(r + t) == ReadAsBlock(t)
  {
    if |t| >= 2 {
      WordShifted(r, t, 0);
      ScanShifted(r, t, 2, Min(2 + U16At(t, 0), |t|));
    }
  }

  lemma {:induction false} BlocklessRecordStarts(h: ClientHello, trailer: bytes)
    requires WellFormed(h) && FitsOneRecord(h) && h.extensions.None?
    ensures ExtensionsStart(Record(h) + trailer) == if |trailer| >= 2 then Some(|Record(h)|) else None
  {
    FixedInRecord(h, trailer);
    FixedPartIsSkipped(Record(h) + trailer, h);
  }

  /** Section 7.4.1.2 of RFC 5246 lets the extension block be absent. The extractor ignores the
      record length, so it then takes whatever follows the record for one. */
  lemma {:induction false} NoExtensionBlockReadsOn(h: ClientHello, trailer: bytes)
    requires WellFormed(h) && FitsOneRecord(h) && h.extensions.None?
    ensures ExtractSniOf(Record(h) + trailer) == ReadAsBlock(trailer)
  {
    BlocklessRecordStarts(h, trailer);
    ReadsBehind(Record(h), trailer);
  }

  predicate BlockLeadsToName(t: bytes, es: seq<Extension>, o: nat) {
    |t| >= 2 && LeadsToName(t, 2, Min(2 + U16At(t, 0), |t|), es, o)
  }

  /** A name comes out exactly when those bytes hold a length and a chain of complete extensions
      that leads to a server_name header. */
  lemma {:induction false} NoExtensionBlockNameExactly(h: ClientHello, trailer: bytes)
    requires WellFormed(h) && FitsOneRecord(h) && h.extensions.None?
    ensures ExtractSniOf(Record(h) + trailer).Some?
       <==> exists es, o: nat :: BlockLeadsToName(trailer, es, o)
  {
    NoExtensionBlockReadsOn(h, trailer);
    if |trailer| >= 2 {
      var end := Min(2 + U16At(trailer, 0), |trailer|);
      ScanExactly(trailer, 2, end);
      assert forall es, o: nat :: BlockLeadsToName(trailer, es, o) <==> LeadsToName(trailer, 2, end, es, o);
    }
  }

  /** In particular, nothing after the record means no name. */
  lemma {:induction false} NoExtensionBlockNoSni(h: ClientHello)
    requires WellFormed(h) && FitsOneRecord(h) && h.extensions.None?
    ensures ExtractSniOf(Record(h)) == None
  {
    NoExtensionBlockReadsOn(h, []);
    assert Record(h) + [] == Record(h);
  }

  /** And a name can come out of bytes that are not part of the record. */
  lemma {:induction false} TrailerCanBeReported(h: ClientHello, host: bytes, more: bytes)
    requires WellFormed(h) && FitsOneRecord(h) && h.extensions.None?
    requires |host| + |more| + 9 < 0x1_0000
    ensures var block := Extensions([ServerName(host, more)]);
      |block| < 0x1_0000 && ExtractSniOf(Record(h) + (PackU16(|block|) + block)) == Some(DecodeAscii(host))
  {
    var es := [ServerName(host, more)];
    assert es[1..] == [];
    var t := PackU16(|Extensions(es)|) + Extensions(es);
    assert |t| == 2 + |Extensions(es)| && U16At(t, 0) == |Extensions(es)|;
    NoExtensionBlockReadsOn(h, t);
    assert t[2..] == Extensions(es);
    ServerNameNamesHost(host, more);
    ExtensionsLaid(t, 2, |t|, es);
    ScanFindsFirst(t, 2, |t|, es, host);
  }
}
