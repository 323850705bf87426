/** Byte strings, the fixed-width integer fields of `struct.pack`/`struct.unpack`,
    and the ASCII text conversions the packet code applies to payload bytes. */
module Bytes {
  type byte = x: int | 0 <= x < 0x100
  type u16 = x: int | 0 <= x < 0x1_0000
  type u32 = x: int | 0 <= x < 0x1_0000_0000
  type bytes = seq<byte>

  /** Format `!H`. */
  function PackU16(x: u16): (r: bytes)
    ensures |r| == 2 && U16At(r, 0) == x
  {
    [x / 0x100, x % 0x100]
  }

  /** Format `!I`. */
  function PackU32(x: u32): (r: bytes)
    ensures |r| == 4 && U32At(r, 0) == x
  {
    PackU16(x / 0x1_0000) + PackU16(x % 0x1_0000)
  }

  function U16At(b: bytes, i: nat): u16
    requires i + 2 <= |b|
  {
    b[i] as int * 0x100 + b[i + 1] as int
  }

  function U32At(b: bytes, i: nat): u32
    requires i + 4 <= |b|
  {
    U16At(b, i) as int * 0x1_0000 + U16At(b, i + 2) as int
  }

  /** Format `<I`. */
  function U32LittleAt(b: bytes, i: nat): u32
    requires i + 4 <= |b|
  {
    b[i] as int + b[i + 1] as int * 0x100 + b[i + 2] as int * 0x1_0000 + b[i + 3] as int * 0x100_0000
  }

  /** True when bit `k` of `x` is set. */
  predicate Bit(x: byte, k: nat)
    requires k < 8
  {
    x / [1, 2, 4, 8, 16, 32, 64, 128][k] % 2 == 1
  }

  predicate IsAscii(s: string) {
    forall i | 0 <= i < |s| :: s[i] < 128 as char
  }

  /** `bytes.decode("ascii", errors="replace")`. */
  function DecodeAscii(b: bytes): (s: string)
    ensures |s| == |b|
  {
    seq(|b|, i requires 0 <= i < |b| => if b[i] < 128 then b[i] as char else '\U{FFFD}')
  }

  /** `str.encode("ascii")` on text that is ASCII. */
  function EncodeAscii(s: string): (b: bytes)
    requires IsAscii(s)
    ensures DecodeAscii(b) == s
  {
    seq(|s|, i requires 0 <= i < |s| => s[i] as int)
  }

  /** `part` occurs in `p` at offset `o`. */
  predicate Occurs(p: bytes, o: nat, part: bytes) {
    o + |part| <= |p| && p[o..o + |part|] == part
  }

  lemma {:induction false} OccursSplit(p: bytes, o: nat, a: bytes, b: bytes)
    requires Occurs(p, o, a + b)
    ensures Occurs(p, o, a) && Occurs(p, o + |a|, b)
  {
    assert p[o..o + |a|] == (a + b)[..|a|];
    assert p[o + |a|..o + |a| + |b|] == (a + b)[|a|..];
  }

  lemma {:induction false} OccursInside(before: bytes, part: bytes, after: bytes)
    ensures Occurs(before + part + after, |before|, part)
  {
  }

  lemma {:induction false} OccursByte(p: bytes, o: nat, x: byte)
    requires Occurs(p, o, [x])
    ensures p[o] == x
  {
    assert p[o] == p[o..o + 1][0];
  }

  lemma {:induction false} OccursU16(p: bytes, o: nat, x: u16)
    requires Occurs(p, o, PackU16(x))
    ensures U16At(p, o) == x
  {
    assert p[o] == p[o..o + 2][0] && p[o + 1] == p[o..o + 2][1];
  }
}
