/** libpcap capture files: the generator's writer and the packet engine's reader. */
module Capture {
  import opened Wrappers
  import opened Bytes
  import opened Packets
  import opened WireFrames
  import opened Chronology
  import Rounding

  // ---------- Writer ----------

  function Sec(ts: real): int {
    Rounding.Trunc(ts)
  }

  function Usec(ts: real): int {
    Rounding.Trunc((ts - Sec(ts) as real) * 1000000.0)
  }

  function GlobalHeader(): (r: bytes)
    ensures |r| == 24 && U32At(r, 0) == 0xA1B2C3D4 && U16At(r, 4) == 2 && U16At(r, 6) == 4
    ensures U32At(r, 8) == U32At(r, 12) == 0 && U32At(r, 16) == 65535 && U32At(r, 20) == 1
  {
    PackU32(0xA1B2C3D4) + (PackU16(2) + PackU16(4) + PackU32(0) + PackU32(0) + PackU32(65535) + PackU32(1))
  }

  lemma {:induction false} UsecFits(ts: real)
    ensures Usec(ts) < 1000000
    ensures ts >= 0.0 ==> Usec(ts) >= 0 && Sec(ts) >= 0
  {
  }

  /** A record as the file holds it. */
  type record = b: bytes | |b| < 0x1_0000_0000
  datatype RawRecord = RawRecord(sec: u32, frac: u32, wireLen: u32, data: record)

  /** The record of one packet; `None` when a header field does not fit 32 unsigned bits. */
  function Packed(p: Timed<bytes>): Option<RawRecord> {
    UsecFits(p.ts);
    if 0 <= Sec(p.ts) < 0x1_0000_0000 && 0 <= Usec(p.ts) && |p.item| < 0x1_0000_0000
    then Some(RawRecord(Sec(p.ts), Usec(p.ts), |p.item|, p.item))
    else None
  }

  function PackedAll(ps: seq<Timed<bytes>>): Option<seq<RawRecord>> {
    if ps == [] then Some([])
    else if Packed(ps[0]).None? || PackedAll(ps[1..]).None? then None
    else Some([Packed(ps[0]).value] + PackedAll(ps[1..]).value)
  }

  function Concat(encode: RawRecord -> bytes, rs: seq<RawRecord>): bytes {
    if rs == [] then [] else encode(rs[0]) + Concat(encode, rs[1..])
  }

  function Records(rs: seq<RawRecord>): bytes {
    Concat(RecordsEncoder(false), rs)
  }

  /** The file for a list of packets; `None` when packing one of its headers raises. */
  function FileOf(ps: seq<Timed<bytes>>): Option<bytes> {
    match PackedAll(StableSort(ps))
    case None => None
    case Some(rs) => Some(GlobalHeader() + Records(rs))
  }

  class PcapWriter {
    var packets: seq<Timed<bytes>>

    constructor ()
      ensures packets == []
    {
      packets := [];
    }

    method AddPacket(timestamp: real, data: bytes)
      modifies this
      ensures packets == old(packets) + [Timed(timestamp, data)]
    {
      packets := packets + [Timed(timestamp, data)];
    }

    /** `write`: sorts the held packets in place, then serializes them. `None` when
        packing a record header raises. */
    method Write() returns (file: Option<bytes>)
      modifies this
      ensures packets == StableSort(old(packets))
      ensures file == FileOf(old(packets))
    {
      packets := StableSort(packets);
      var out := GlobalHeader();
      var i := 0;
      while i < |packets|
        invariant 0 <= i <= |packets|
        invariant packets == StableSort(old(packets))
        invariant FileOf(old(packets)) == Appended(out, PackedAll(packets[i..]))
      {
        var p := packets[i];
        assert packets[i..][0] == p && packets[i..][1..] == packets[i + 1..];
        var packed := Packed(p);
        if packed.None? {
          return None;
        }
        AppendedStep(out, packed.value, PackedAll(packets[i + 1..]));
        out := out + RecordIn(false, packed.value);
        i := i + 1;
      }
      assert out + [] == out;
      return Some(out);
    }
  }

  ghost function Appended(out: bytes, rest: Option<seq<RawRecord>>): Option<bytes> {
    if rest.None? then None else Some(out + Records(rest.value))
  }

  lemma {:induction false} AppendedStep(out: bytes, r: RawRecord, rest: Option<seq<RawRecord>>)
    ensures Appended(out, if rest.None? then None else Some([r] + rest.value))
         == Appended(out + RecordIn(false, r), rest)
  {
    if rest.Some? {
      assert ([r] + rest.value)[1..] == rest.value;
      assert out + (RecordIn(false, r) + Records(rest.value)) == out + RecordIn(false, r) + Records(rest.value);
    }
  }

  // ---------- Reader ----------

  datatype Format = Format(little: bool, nano: bool)

  /** The byte order and timestamp unit the magic number announces. */
  function FormatOf(file: bytes): Option<Format> {
    if |file| < 24 then None
    else
      match U32At(file, 0)
      case 0xA1B2C3D4 => Some(Format(false, false))
      case 0xA1B23C4D => Some(Format(false, true))
      case 0xD4C3B2A1 => Some(Format(true, false))
      case 0x4D3CB2A1 => Some(Format(true, true))
      case _ => None
  }

  function Field(little: bool, file: bytes, i: nat): u32
    requires i + 4 <= |file|
  {
    if little then U32LittleAt(file, i) else U32At(file, i)
  }

  /** The record at file position `pos`, when it is complete. */
  function RecordAt(little: bool, file: bytes, pos: nat): (r: Option<RawRecord>)
    ensures r.Some? ==> pos + 16 + |r.value.data| <= |file|
  {
    if pos + 16 > |file| || pos + 16 + Field(little, file, pos + 8) > |file| then None
    else Some(RawRecord(Field(little, file, pos), Field(little, file, pos + 4), Field(little, file, pos + 12),
                        file[pos + 16..pos + 16 + Field(little, file, pos + 8)]))
  }

  /** The records of a file by position, and how one of them is decoded. */
  type Source = nat -> Option<RawRecord>
  type Decoder = RawRecord -> Option<RawPacket>

  /** The packets from position `pos` on: frames that do not parse are skipped, and
      the first incomplete record ends the file. */
  function PacketsFrom(decode: Decoder, at: Source, size: nat, pos: nat): seq<RawPacket>
    decreases size - pos
  {
    var r := at(pos);
    if r.None? || pos + 16 + |r.value.data| > size then []
    else Listed(decode(r.value)) + PacketsFrom(decode, at, size, pos + 16 + |r.value.data|)
  }

  function RecordsIn(little: bool, file: bytes): Source {
    (pos: nat) => RecordAt(little, file, pos)
  }

  lemma {:induction false} NextPacket(decode: Decoder, at: Source, size: nat, pos: nat, done: seq<RawPacket>)
    ensures var r := at(pos);
      done + PacketsFrom(decode, at, size, pos)
      == if r.None? || pos + 16 + |r.value.data| > size then done
         else done + Listed(decode(r.value)) + PacketsFrom(decode, at, size, pos + 16 + |r.value.data|)
  {
  }

  /** The record loop of `read_packets`. */
  method DecodeRecords(decode: Decoder, at: Source, size: nat) returns (packets: seq<RawPacket>)
    ensures packets == PacketsFrom(decode, at, size, 24)
  {
    packets := [];
    var pos := 24;
    while true
      invariant packets + PacketsFrom(decode, at, size, pos) == PacketsFrom(decode, at, size, 24)
      decreases size - pos
    {
      NextPacket(decode, at, size, pos, packets);
      var r := at(pos);
      if r.None? || pos + 16 + |r.value.data| > size {
        break;
      }
      var packet := decode(r.value);
      if packet.Some? {
        packets := packets + [packet.value];
      } else {
        assert packets + [] == packets;
      }
      pos := pos + 16 + |r.value.data|;
    }
  }

  /** Seconds since the epoch, from microseconds or (nanosecond magic) nanoseconds. */
  function Stamp(nano: bool, sec: u32, frac: u32): real {
    sec as real + frac as real / (if nano then 1000000000.0 else 1000000.0)
  }

  type Parser = (real, nat, bytes) -> Option<RawPacket>

  function DecoderOf(parse: Parser, nano: bool): Decoder {
    (r: RawRecord) => parse(Stamp(nano, r.sec, r.frac), r.wireLen, r.data)
  }

  function PacketsOf(file: bytes): seq<RawPacket> {
    match FormatOf(file)
    case None => []
    case Some(f) => PacketsFrom(DecoderOf(ParseFrame, f.nano), RecordsIn(f.little, file), |file|, 24)
  }

  /** `read_packets`. */
  method ReadPackets(file: bytes) returns (packets: seq<RawPacket>)
    ensures packets == PacketsOf(file)
  {
    var format := FormatOf(file);
    if format.None? {
      return [];
    }
    packets := DecodeRecords(DecoderOf(ParseFrame, format.value.nano), RecordsIn(format.value.little, file), |file|);
  }

  // ---------- Round trip ----------

  /** What each record of the file turns into. */
  function Decoded(decode: Decoder, rs: seq<RawRecord>): seq<RawPacket> {
    if rs == [] then [] else Listed(decode(rs[0])) + Decoded(decode, rs[1..])
  }

  /** From position `pos`, the source holds exactly the records `rs`. */
  predicate Holds(at: Source, size: nat, pos: nat, rs: seq<RawRecord>)
    decreases |rs|
  {
    if rs == [] then at(pos) == None
    else at(pos) == Some(rs[0]) && pos + 16 + |rs[0].data| <= size
         && Holds(at, size, pos + 16 + |rs[0].data|, rs[1..])
  }

  lemma {:induction false} HeldRecordsDecode(decode: Decoder, at: Source, size: nat, pos: nat, rs: seq<RawRecord>)
    requires Holds(at, size, pos, rs)
    ensures PacketsFrom(decode, at, size, pos) == Decoded(decode, rs)
    decreases |rs|
  {
    if rs != [] {
      HeldRecordsDecode(decode, at, size, pos + 16 + |rs[0].data|, rs[1..]);
    }
  }

  /** Whatever the encoding of one record, a source that reads each encoded record back, and
      none behind the last, reads back their concatenation. */
  lemma {:induction false} ConcatHeld(encode: RawRecord -> bytes, at: Source, file: bytes, pos: nat, rs: seq<RawRecord>)
    requires forall r :: |encode(r)| == 16 + |r.data|
    requires forall q: nat, r | Occurs(file, q, encode(r)) :: at(q) == Some(r)
    requires Occurs(file, pos, Concat(encode, rs)) && at(pos + |Concat(encode, rs)|) == None
    ensures Holds(at, |file|, pos, rs)
    decreases |rs|
  {
    if rs != [] {
      OccursSplit(file, pos, encode(rs[0]), Concat(encode, rs[1..]));
      ConcatHeld(encode, at, file, pos + |encode(rs[0])|, rs[1..]);
    }
  }

  // ---------- Every file, in every format ----------

  function PackField(little: bool, x: u32): (r: bytes)
    ensures |r| == 4 && Field(little, r, 0) == x
  {
    var b := PackU32(x);
    if little then [b[3], b[2], b[1], b[0]] else b
  }

  lemma {:induction false} Word(hi: byte, lo: byte)
    ensures PackU16(hi * 0x100 + lo) == [hi, lo]
  {
  }

  lemma {:induction false} Long(hi: u16, lo: u16)
    ensures PackU32(hi * 0x1_0000 + lo) == PackU16(hi) + PackU16(lo)
  {
  }

  lemma {:induction false} LongBytes(b0: byte, b1: byte, b2: byte, b3: byte)
    ensures PackU32((b0 * 0x100 + b1) * 0x1_0000 + (b2 * 0x100 + b3)) == [b0, b1, b2, b3]
  {
    Long(b0 * 0x100 + b1, b2 * 0x100 + b3);
    Word(b0, b1);
    Word(b2, b3);
  }

  /** Packing a field that was read gives its bytes back. */
  lemma {:induction false} FieldPacked(little: bool, b: bytes, o: nat)
    requires o + 4 <= |b|
    ensures PackField(little, Field(little, b, o)) == b[o..o + 4]
  {
    var w := b[o..o + 4];
    assert w == [b[o], b[o + 1], b[o + 2], b[o + 3]];
    if little {
      LongBytes(b[o + 3], b[o + 2], b[o + 1], b[o]);
    } else {
      LongBytes(b[o], b[o + 1], b[o + 2], b[o + 3]);
    }
  }

  function RecordIn(little: bool, r: RawRecord): (b: bytes)
    ensures |b| == 16 + |r.data|
  {
    PackField(little, r.sec) + PackField(little, r.frac) + PackField(little, |r.data|) + PackField(little, r.wireLen)
    + r.data
  }

  function RecordsEncoder(little: bool): RawRecord -> bytes {
    (r: RawRecord) => RecordIn(little, r)
  }

  function MagicOf(f: Format): u32 {
    if f.little then (if f.nano then 0x4D3CB2A1 else 0xD4C3B2A1) else (if f.nano then 0xA1B23C4D else 0xA1B2C3D4)
  }

  /** A file of format `f`: the rest of the global header, records, and bytes that are no record. */
  function FileIn(f: Format, rest: bytes, rs: seq<RawRecord>, tail: bytes): bytes {
    PackU32(MagicOf(f)) + rest + Concat(RecordsEncoder(f.little), rs) + tail
  }

  predicate NoRecord(little: bool, tail: bytes) {
    RecordAt(little, tail, 0) == None
  }

  lemma {:induction false} FieldInside(little: bool, p: bytes, o: nat, q: bytes, i: nat)
    requires Occurs(p, o, q) && i + 4 <= |q|
    ensures Field(little, p, o + i) == Field(little, q, i)
  {
    var w := p[o..o + |q|];
    assert forall k | 0 <= k < |q| :: w[k] == p[o + k];
  }

  lemma {:induction false} FieldAt(little: bool, p: bytes, o: nat, x: u32)
    requires Occurs(p, o, PackField(little, x))
    ensures Field(little, p, o) == x
  {
    FieldInside(little, p, o, PackField(little, x), 0);
  }

  lemma {:induction false} PartsOccur(file: bytes, pos: nat, a: bytes, b: bytes, c: bytes, d: bytes, rest: bytes)
    requires |a| == |b| == |c| == |d| == 4 && Occurs(file, pos, a + b + c + d + rest)
    ensures Occurs(file, pos, a) && Occurs(file, pos + 4, b) && Occurs(file, pos + 8, c) && Occurs(file, pos + 12, d)
    ensures Occurs(file, pos + 16, rest)
  {
    OccursSplit(file, pos, a + b + c + d, rest);
    OccursSplit(file, pos, a + b + c, d);
    OccursSplit(file, pos, a + b, c);
    OccursSplit(file, pos, a, b);
  }

  lemma {:induction false} RecordInReadBack(little: bool, file: bytes, pos: nat, r: RawRecord)
    requires Occurs(file, pos, RecordIn(little, r))
    ensures RecordAt(little, file, pos) == Some(r)
  {
    PartsOccur(file, pos, PackField(little, r.sec), PackField(little, r.frac), PackField(little, |r.data|),
               PackField(little, r.wireLen), r.data);
    FieldAt(little, file, pos, r.sec);
    FieldAt(little, file, pos + 4, r.frac);
    FieldAt(little, file, pos + 8, |r.data|);
    FieldAt(little, file, pos + 12, r.wireLen);
  }

  /** Behind a prefix, a record is complete exactly if it is without the prefix. */
  lemma {:induction false} NoRecordBehind(little: bool, front: bytes, tail: bytes)
    requires NoRecord(little, tail)
    ensures RecordAt(little, front + tail, |front|) == None
  {
    if |tail| >= 16 {
      assert Occurs(front + tail, |front|, tail);
      FieldInside(little, front + tail, |front|, tail, 8);
    }
  }

  lemma {:induction false} HoldsBehind(little: bool, file: bytes, head: bytes, rs: seq<RawRecord>, tail: bytes)
    requires |head| == 24 && NoRecord(little, tail)
    requires file == head + Concat(RecordsEncoder(little), rs) + tail
    ensures Holds(RecordsIn(little, file), |file|, 24, rs)
  {
    var encode, at := RecordsEncoder(little), RecordsIn(little, file);
    OccursInside(head, Concat(encode, rs), tail);
    NoRecordBehind(little, head + Concat(encode, rs), tail);
    forall q: nat, r | Occurs(file, q, encode(r)) ensures at(q) == Some(r) {
      RecordInReadBack(little, file, q, r);
    }
    ConcatHeld(encode, at, file, 24, rs);
  }

  lemma {:induction false} FileInHolds(f: Format, rest: bytes, rs: seq<RawRecord>, tail: bytes)
    requires |rest| == 20 && NoRecord(f.little, tail)
    ensures Holds(RecordsIn(f.little, FileIn(f, rest, rs, tail)), |FileIn(f, rest, rs, tail)|, 24, rs)
  {
    HoldsBehind(f.little, FileIn(f, rest, rs, tail), PackU32(MagicOf(f)) + rest, rs, tail);
  }

  lemma {:induction false} FileInFormat(f: Format, rest: bytes, rs: seq<RawRecord>, tail: bytes)
    requires |rest| == 20
    ensures FormatOf(FileIn(f, rest, rs, tail)) == Some(f)
  {
    var file, magic := FileIn(f, rest, rs, tail), PackU32(MagicOf(f));
    assert file == magic + (rest + Concat(RecordsEncoder(f.little), rs) + tail);
    assert file[0] == magic[0] && file[1] == magic[1] && file[2] == magic[2] && file[3] == magic[3];
    assert U32At(file, 0) == U32At(magic, 0);
  }

  /** A file of any format reads as what its records decode to: the byte order matters only to
      where the numbers stand, and the timestamp unit only to what the fraction counts. */
  lemma {:induction false} AnyFormatReadBack(f: Format, rest: bytes, rs: seq<RawRecord>, tail: bytes)
    requires |rest| == 20 && NoRecord(f.little, tail)
    ensures PacketsOf(FileIn(f, rest, rs, tail)) == Decoded(DecoderOf(ParseFrame, f.nano), rs)
  {
    var file := FileIn(f, rest, rs, tail);
    FileInFormat(f, rest, rs, tail);
    FileInHolds(f, rest, rs, tail);
    HeldRecordsDecode(DecoderOf(ParseFrame, f.nano), RecordsIn(f.little, file), |file|, 24, rs);
  }

  lemma {:induction false} HeaderPacked(little: bool, b: bytes)
    requires |b| >= 16
    ensures PackField(little, Field(little, b, 0)) + PackField(little, Field(little, b, 4))
            + PackField(little, Field(little, b, 8)) + PackField(little, Field(little, b, 12)) == b[..16]
  {
    FieldPacked(little, b, 0);
    FieldPacked(little, b, 4);
    FieldPacked(little, b, 8);
    FieldPacked(little, b, 12);
    assert b[..16] == b[0..4] + b[4..8] + b[8..12] + b[12..16];
  }

  lemma {:induction false} ThreeParts(b: bytes, m: nat, n: nat)
    requires m <= n <= |b|
    ensures b == b[..m] + b[m..n] + b[n..]
  {
  }

  lemma {:induction false} RecordHere(little: bool, b: bytes)
    requires RecordAt(little, b, 0).Some?
    ensures var r := RecordAt(little, b, 0).value;
      16 + |r.data| <= |b| && b == RecordIn(little, r) + b[16 + |r.data|..]
  {
    HeaderPacked(little, b);
    ThreeParts(b, 16, 16 + |RecordAt(little, b, 0).value.data|);
  }

  lemma {:induction false} SplitIntoRecords(little: bool, b: bytes) returns (rs: seq<RawRecord>, tail: bytes)
    ensures b == Concat(RecordsEncoder(little), rs) + tail && NoRecord(little, tail)
    decreases |b|
  {
    if NoRecord(little, b) {
      rs, tail := [], b;
    } else {
      var r := RecordAt(little, b, 0).value;
      RecordHere(little, b);
      var more;
      more, tail := SplitIntoRecords(little, b[16 + |r.data|..]);
      rs := [r] + more;
      assert rs[1..] == more;
    }
  }

  /** Every file with a known magic number is a file of its format. */
  lemma {:induction false} EveryFileIsRecords(file: bytes) returns (rs: seq<RawRecord>, tail: bytes)
    requires FormatOf(file).Some?
    ensures var f := FormatOf(file).value;
      file == FileIn(f, file[4..24], rs, tail) && NoRecord(f.little, tail)
  {
    var f := FormatOf(file).value;
    rs, tail := SplitIntoRecords(f.little, file[24..]);
    FieldPacked(false, file, 0);
    assert file == file[0..4] + file[4..24] + file[24..];
  }

  /** The byte order of a capture does not matter: any file, and any file of the other byte order
      that holds the same records, read as the same packets. */
  lemma {:induction false} ByteOrderDoesNotMatter(file: bytes, rest: bytes, tail: bytes) returns (rs: seq<RawRecord>)
    requires FormatOf(file).Some? && |rest| == 20 && NoRecord(!FormatOf(file).value.little, tail)
    ensures var f := FormatOf(file).value;
      && PacketsOf(FileIn(Format(!f.little, f.nano), rest, rs, tail)) == PacketsOf(file)
      && exists end :: file == FileIn(f, file[4..24], rs, end) && NoRecord(f.little, end)
  {
    var f := FormatOf(file).value;
    var end;
    rs, end := EveryFileIsRecords(file);
    AnyFormatReadBack(f, file[4..24], rs, end);
    AnyFormatReadBack(Format(!f.little, f.nano), rest, rs, tail);
  }

  // ---------- Written files ----------

  /** Reading a written file: every record, in stable timestamp order. */
  lemma {:induction false} FileReadBack(ps: seq<Timed<bytes>>)
    requires FileOf(ps).Some?
    ensures PacketsOf(FileOf(ps).value) == Decoded(DecoderOf(ParseFrame, false), PackedAll(StableSort(ps)).value)
  {
    var rs, f := PackedAll(StableSort(ps)).value, Format(false, false);
    var rest := GlobalHeader()[4..];
    assert GlobalHeader() == PackU32(MagicOf(f)) + rest;
    assert FileOf(ps).value == FileIn(f, rest, rs, []);
    AnyFormatReadBack(f, rest, rs, []);
  }

  /** A written file starts with the libpcap header: version 2.4, snapshot length 65535, Ethernet. */
  lemma {:induction false} WrittenHeader(ps: seq<Timed<bytes>>)
    requires FileOf(ps).Some?
    ensures var file := FileOf(ps).value;
      |file| >= 24 && U32At(file, 0) == 0xA1B2C3D4 && U16At(file, 4) == 2 && U16At(file, 6) == 4
      && U32At(file, 16) == 65535 && U32At(file, 20) == 1
  {
    assert FileOf(ps).value[..24] == GlobalHeader();
    HeaderFields(FileOf(ps).value);
  }

  lemma {:induction false} HeaderFields(file: bytes)
    requires |file| >= 24 && file[..24] == GlobalHeader()
    ensures U32At(file, 0) == U32At(GlobalHeader(), 0) && U16At(file, 4) == U16At(GlobalHeader(), 4)
    ensures U16At(file, 6) == U16At(GlobalHeader(), 6) && U32At(file, 16) == U32At(GlobalHeader(), 16)
    ensures U32At(file, 20) == U32At(GlobalHeader(), 20)
  {
    assert forall i | 0 <= i < 24 :: file[i] == GlobalHeader()[i];
  }

  /** Which packets have a record: those stamped less than a microsecond before 1970 up to 2^32
      seconds after it, and not longer than a 32-bit length can say. */
  predicate Writable(p: Timed<bytes>) {
    -0.000001 < p.ts < 4294967296.0 && |p.item| < 0x1_0000_0000
  }

  lemma {:induction false} PackedExactly(p: Timed<bytes>)
    ensures Packed(p).Some? <==> Writable(p)
  {
    UsecFits(p.ts);
    if p.ts < 0.0 {
      NegativeStamp(p.ts);
    }
  }

  lemma {:induction false} NegativeStamp(ts: real)
    requires ts < 0.0
    ensures 0 <= Sec(ts) && 0 <= Usec(ts) <==> ts > -0.000001
    ensures ts > -0.000001 ==> Sec(ts) == 0 && Usec(ts) == 0
  {
    if ts > -1.0 {
      assert (-ts).Floor == 0;
      assert ((-ts) * 1000000.0).Floor >= 1 <==> (-ts) * 1000000.0 >= 1.0;
    } else {
      assert (-ts).Floor >= 1;
    }
  }

  /** Writing fails exactly when some packet has no record. */
  lemma {:induction false} WriteFailsExactly(ps: seq<Timed<bytes>>)
    ensures FileOf(ps).Some? <==> forall p | p in ps :: Writable(p)
  {
    PackedAllExactly(StableSort(ps));
    forall p ensures p in StableSort(ps) <==> p in ps {
      SortKeeps(ps, p);
    }
  }

  lemma {:induction false} PackedAllExactly(ps: seq<Timed<bytes>>)
    ensures PackedAll(ps).Some? <==> forall p | p in ps :: Writable(p)
  {
    if ps != [] {
      PackedExactly(ps[0]);
      PackedAllExactly(ps[1..]);
      assert ps == [ps[0]] + ps[1..];
    }
  }

  /** A file without one of the four magic numbers reads as nothing. */
  lemma {:induction false} UnknownMagicReadsNothing(file: bytes)
    ensures (|file| < 24 || forall f: Format :: U32At(file, 0) != MagicOf(f)) ==> PacketsOf(file) == []
    ensures |file| >= 24 && (exists f: Format :: U32At(file, 0) == MagicOf(f)) ==> FormatOf(file).Some?
  {
    if |file| >= 24 && FormatOf(file).Some? {
      assert U32At(file, 0) == MagicOf(FormatOf(file).value);
    }
  }

  /** Whole microseconds read the same from a microsecond file as from a nanosecond file. */
  lemma {:induction false} UnitsAgree(sec: u32, usec: nat)
    requires usec < 1000000
    ensures Stamp(true, sec, 1000 * usec) == Stamp(false, sec, usec)
    ensures Stamp(false, sec, usec) == sec as real + usec as real * 0.000001
  {
  }

  /** The timestamp a packet stamped `ts` comes back with: `ts` cut to whole microseconds. */
  function Microseconds(ts: real): real {
    Sec(ts) as real + Usec(ts) as real / 1000000.0
  }

  lemma {:induction false} MicrosecondsAreClose(ts: real)
    requires ts >= 0.0
    ensures 0.0 <= ts - Microseconds(ts) < 0.000001
  {
    var f := (ts - Sec(ts) as real) * 1000000.0;
    assert 0.0 <= f - f.Floor as real < 1.0;
  }

  // ---------- Captures of frames ----------

  predicate StampFits(ts: real) {
    0.0 <= ts < 4294967296.0
  }

  function ExpectedWith<T>(report: (real, T) -> RawPacket, fs: seq<Timed<T>>): seq<RawPacket> {
    seq(|fs|, k requires 0 <= k < |fs| => report(Microseconds(fs[k].ts), fs[k].item))
  }

  /** Packing and decoding the built frames, given that each of them decodes as reported. */
  lemma {:induction false} DecodedBuilt<T>(decode: Decoder, build: T -> bytes, report: (real, T) -> RawPacket,
                                           fs: seq<Timed<T>>)
    requires forall k | 0 <= k < |fs| :: var r := Packed(Timed(fs[k].ts, build(fs[k].item)));
      r.Some? && decode(r.value) == Some(report(Microseconds(fs[k].ts), fs[k].item))
    ensures PackedAll(Map(build, fs)).Some?
    ensures Decoded(decode, PackedAll(Map(build, fs)).value) == ExpectedWith(report, fs)
  {
    if fs != [] {
      assert Map(build, fs)[1..] == Map(build, fs[1..]);
      DecodedBuilt(decode, build, report, fs[1..]);
      var head, rest := Packed(Map(build, fs)[0]).value, PackedAll(Map(build, fs[1..])).value;
      assert ([head] + rest)[1..] == rest;
    }
  }

  /** A packed record is parsed under the timestamp it was packed with, cut to microseconds. */
  lemma {:induction false} PackedDecodes(parse: Parser, p: Timed<bytes>)
    requires StampFits(p.ts) && |p.item| < 0x1_0000_0000
    ensures Packed(p).Some?
    ensures DecoderOf(parse, false)(Packed(p).value) == parse(Microseconds(p.ts), |p.item|, p.item)
  {
    UsecFits(p.ts);
    var r := Packed(p).value;
    assert r.wireLen == |p.item| && r.data == p.item;
    assert r.sec == Sec(p.ts) && r.frac == Usec(p.ts);
    assert Stamp(false, r.sec, r.frac) == Microseconds(p.ts);
  }

  /** Item `x` is parsed as `report` says, under any timestamp. */
  ghost predicate ParsesAs<T>(build: T -> bytes, report: (real, T) -> RawPacket, x: T) {
    |build(x)| < 0x1_0000_0000
    && forall ts: real :: ParseFrame(ts, |build(x)|, build(x)) == Some(report(ts, x))
  }

  /** Whatever frames are made of: if each is parsed as reported, a capture of them writes, and
      reads back as exactly one report a frame, in stable timestamp order. */
  lemma {:induction false} CaptureOfParsed<T>(build: T -> bytes, report: (real, T) -> RawPacket, fs: seq<Timed<T>>)
    requires forall k | 0 <= k < |fs| :: StampFits(fs[k].ts) && ParsesAs(build, report, fs[k].item)
    ensures FileOf(Map(build, fs)).Some?
    ensures PacketsOf(FileOf(Map(build, fs)).value) == ExpectedWith(report, StableSort(fs))
  {
    SortMap(build, fs);
    var sorted := StableSort(fs);
    var decode := DecoderOf(ParseFrame, false);
    forall k | 0 <= k < |sorted|
      ensures Packed(Timed(sorted[k].ts, build(sorted[k].item))).Some?
      ensures decode(Packed(Timed(sorted[k].ts, build(sorted[k].item))).value)
              == Some(report(Microseconds(sorted[k].ts), sorted[k].item))
    {
      SortKeeps(fs, sorted[k]);
      PackedDecodes(ParseFrame, Timed(sorted[k].ts, build(sorted[k].item)));
      assert ParsesAs(build, report, sorted[k].item);
    }
    DecodedBuilt(decode, build, report, sorted);
    FileReadBack(Map(build, fs));
  }

  // ---------- Any frames on the wire ----------

  type frame = f: WireFrame | |FrameBytes(f)| < 0x1_0000_0000
    witness WireFrame(Link([0, 0, 0, 0, 0, 0], [0, 0, 0, 0, 0, 0], None),
                      IpHead([0, 0, 0, 0], [0, 0, 0, 0], 0, 0, 0, 0, 0, 0, []), Unported(1, []))

  function OnWire(f: frame): bytes {
    FrameBytes(f)
  }

  /** The packet a reader should report for a frame stamped `ts`. */
  function Expected(ts: real, f: frame): RawPacket {
    Reported(ts, |FrameBytes(f)|, f)
  }

  /** Any capture of TCP, UDP and other IPv4 frames, tagged or not and with any options, writes,
      and reads back as exactly one packet a frame, in stable timestamp order, with the frame's
      own addresses, ports, flags, payload behind the options, and length. */
  lemma {:induction false} CaptureRoundTrip(fs: seq<Timed<frame>>)
    requires forall k | 0 <= k < |fs| :: StampFits(fs[k].ts)
    ensures FileOf(Map(OnWire, fs)).Some?
    ensures PacketsOf(FileOf(Map(OnWire, fs)).value) == ExpectedWith(Expected, StableSort(fs))
  {
    forall k | 0 <= k < |fs| ensures ParsesAs(OnWire, Expected, fs[k].item) {
      forall ts: real
        ensures ParseFrame(ts, |OnWire(fs[k].item)|, OnWire(fs[k].item)) == Some(Expected(ts, fs[k].item))
      {
        FrameIsReported(ts, |FrameBytes(fs[k].item)|, fs[k].item);
      }
    }
    CaptureOfParsed(OnWire, Expected, fs);
  }

  // ---------- The frames of the generator ----------

  /** Everything a caller of the builders chooses for one frame. */
  datatype FrameSpec =
    | TcpFrame(srcMac: mac, dstMac: mac, src: ip4, dst: ip4, ipId: u16, srcPort: u16, dstPort: u16,
               sequence: u32, ack: u32, flags: byte, window: u16, payload: bytes)
    | UdpFrame(srcMac: mac, dstMac: mac, src: ip4, dst: ip4, ipId: u16, srcPort: u16, dstPort: u16,
               payload: bytes)

  type built = f: FrameSpec | |f.payload| <= if f.TcpFrame? then 65495 else 65507
    witness UdpFrame([0, 0, 0, 0, 0, 0], [0, 0, 0, 0, 0, 0], [0, 0, 0, 0], [0, 0, 0, 0], 0, 0, 0, [])

  function Built(f: built): bytes {
    match f
    case TcpFrame(sm, dm, s, d, id, sp, dp, q, a, fl, w, pl) =>
      Frame(sm, dm, s, d, 6, TcpPacket(sp, dp, q, a, fl, pl, w), id)
    case UdpFrame(sm, dm, s, d, id, sp, dp, pl) =>
      Frame(sm, dm, s, d, 17, UdpPacket(sp, dp, pl), id)
  }

  /** The packet a reader should report for a built frame stamped `ts`. */
  function ExpectedOfBuilt(ts: real, f: built): RawPacket {
    match f
    case TcpFrame(_, _, s, d, _, sp, dp, _, _, fl, _, pl) =>
      RawPacket(ts, s, d, sp, dp, TCP, FlagsOf(fl), 54 + |pl|, pl, None, SniOfPayload(pl))
    case UdpFrame(_, _, s, d, _, sp, dp, pl) =>
      RawPacket(ts, s, d, sp, dp, UDP, [], 42 + |pl|, pl, QuestionOf(UdpDatagram(sp, dp, 8 + |pl|, 0, pl)), None)
  }

  lemma {:induction false} BuiltFrameParses(ts: real, f: built)
    ensures |Built(f)| == if f.TcpFrame? then 54 + |f.payload| else 42 + |f.payload|
    ensures ParseFrame(ts, |Built(f)|, Built(f)) == Some(ExpectedOfBuilt(ts, f))
  {
    match f
    case TcpFrame(sm, dm, s, d, id, sp, dp, q, a, fl, w, pl) =>
      TcpFrameRoundTrip(ts, 54 + |pl|, sm, dm, s, d, id, sp, dp, q, a, fl, pl, w);
      SniPrefix(pl);
    case UdpFrame(sm, dm, s, d, id, sp, dp, pl) =>
      UdpFrameRoundTrip(ts, 42 + |pl|, sm, dm, s, d, id, sp, dp, pl);
  }

  /** The same for any capture of frames from the Ethernet, IPv4, TCP and UDP builders. */
  lemma {:induction false} BuiltCaptureRoundTrip(fs: seq<Timed<built>>)
    requires forall k | 0 <= k < |fs| :: StampFits(fs[k].ts)
    ensures FileOf(Map(Built, fs)).Some?
    ensures PacketsOf(FileOf(Map(Built, fs)).value) == ExpectedWith(ExpectedOfBuilt, StableSort(fs))
  {
    forall k | 0 <= k < |fs| ensures ParsesAs(Built, ExpectedOfBuilt, fs[k].item) {
      forall ts: real
        ensures |Built(fs[k].item)| < 0x1_0000_0000
        ensures ParseFrame(ts, |Built(fs[k].item)|, Built(fs[k].item)) == Some(ExpectedOfBuilt(ts, fs[k].item))
      {
        BuiltFrameParses(ts, fs[k].item);
      }
      BuiltFrameParses(0.0, fs[k].item);
    }
    CaptureOfParsed(Built, ExpectedOfBuilt, fs);
  }
}
