/** The Internet checksum of `ip_checksum`, against the one's-complement sum of RFC 1071. */
module Checksum {
  import opened Bytes

  /** Odd-length input is padded with one zero byte. */
  function Padded(b: bytes): (r: bytes)
    ensures |r| % 2 == 0
  {
    if |b| % 2 == 1 then b + [0] else b
  }

  /** Ordinary sum of the big-endian 16-bit words of an even-length string. */
  function WordSum(b: bytes): nat
    requires |b| % 2 == 0
  {
    if b == [] then 0 else WordSum(b[..|b| - 2]) + U16At(b, |b| - 2)
  }

  /** The two fixed folds and the final complement, as the program performs them. */
  function Fold(s: nat): u16 {
    var once := s / 0x1_0000 + s % 0x1_0000;
    var twice := once + once / 0x1_0000;
    0xFFFF - twice % 0x1_0000
  }

  function IpChecksumOf(header: bytes): u16 {
    Fold(WordSum(Padded(header)))
  }

  method IpChecksum(header: bytes) returns (c: u16)
    ensures c == IpChecksumOf(header)
    ensures |header| <= 131076 ==> c == Rfc1071(header)
  {
    var h := Padded(header);
    var s: nat := 0;
    var i := 0;
    while i < |h|
      invariant 0 <= i <= |h| && i % 2 == 0
      invariant s == WordSum(h[..i])
    {
      var w := h[i] as int * 0x100 + h[i + 1] as int;
      assert h[..i + 2][..i] == h[..i];
      s := s + w;
      i := i + 2;
    }
    assert h[..i] == h;
    s := s / 0x1_0000 + s % 0x1_0000;
    s := s + s / 0x1_0000;
    c := 0xFFFF - s % 0x1_0000;
    if |header| <= 131076 {
      ShortInputsAreCorrect(header);
    }
  }

  // ---------- RFC 1071 ----------

  /** 16-bit one's-complement addition: the carry out of the top is added back in. */
  function OnesAdd(a: u16, b: u16): u16 {
    if a + b < 0x1_0000 then a + b else a + b - 0xFFFF
  }

  function OnesSum(b: bytes): u16
    requires |b| % 2 == 0
  {
    if b == [] then 0 else OnesAdd(OnesSum(b[..|b| - 2]), U16At(b, |b| - 2))
  }

  function Rfc1071(b: bytes): u16 {
    0xFFFF - OnesSum(Padded(b))
  }

  /** The representative of `s` modulo 65535 that end-around carry leaves. */
  function Residue(s: nat): u16 {
    if s == 0 then 0 else (s - 1) % 0xFFFF + 1
  }

  lemma {:induction false} ModUnique(q: nat, r: nat)
    requires r < 0xFFFF
    ensures (q * 0xFFFF + r) % 0xFFFF == r
  {
  }

  /** One end-around-carry addition adds in the residues. */
  lemma {:induction false} OnesAddResidue(s: nat, w: u16)
    ensures OnesAdd(Residue(s), w) == Residue(s + w)
  {
    if s == 0 {
      if w > 0 {
        ModUnique(0, w - 1);
      }
    } else {
      var q, r := (s - 1) / 0xFFFF, Residue(s);
      assert s + w - 1 == q * 0xFFFF + (r + w - 1);
      if r + w < 0x1_0000 {
        ModUnique(q, r + w - 1);
      } else {
        ModUnique(q + 1, r + w - 0x1_0000);
      }
    }
  }

  lemma {:induction false} OnesSumIsResidue(b: bytes)
    requires |b| % 2 == 0
    ensures OnesSum(b) == Residue(WordSum(b))
  {
    if b != [] {
      OnesSumIsResidue(b[..|b| - 2]);
      OnesAddResidue(WordSum(b[..|b| - 2]), U16At(b, |b| - 2));
    }
  }

  lemma {:induction false} WordSumBound(b: bytes)
    requires |b| % 2 == 0
    ensures WordSum(b) <= |b| / 2 * 0xFFFF
  {
    if b != [] {
      WordSumBound(b[..|b| - 2]);
    }
  }

  /** Two folds give the end-around-carry residue for every sum 65538 words can reach. */
  lemma {:induction false} TwoFoldsSuffice(s: nat)
    requires s <= 65538 * 0xFFFF
    ensures Fold(s) == 0xFFFF - Residue(s)
  {
    var hi, lo := s / 0x1_0000, s % 0x1_0000;
    assert s == hi * 0xFFFF + (hi + lo);
    var once := hi + lo;
    assert once <= 0x1_FFFE;
    var q, r := once / 0x1_0000, once % 0x1_0000;
    assert q <= 1 && once == q * 0xFFFF + (q + r);
    assert s == (hi + q) * 0xFFFF + (q + r);
    assert q + r <= 0xFFFF;
    if s > 0 {
      assert s - 1 == (hi + q) * 0xFFFF + (q + r - 1);
    }
  }

  lemma {:induction false} ShortInputsAreCorrect(b: bytes)
    requires |b| <= 131076
    ensures IpChecksumOf(b) == Rfc1071(b)
  {
    var p := Padded(b);
    assert |p| / 2 <= 65538;
    WordSumBound(p);
    TwoFoldsSuffice(WordSum(p));
    OnesSumIsResidue(p);
  }

  // ---------- Exactly which lengths are safe ----------

  /** 65537 words 0xFFFF, then 0xFF00, then 0x01 and zeros: its word sum is 2^32 + 65535. */
  function Overflowing(n: nat): (r: bytes)
    ensures |r| == n
  {
    seq(n, i => if 0 <= i < 131075 then 0xFF else if i == 131076 then 1 else 0)
  }

  lemma {:induction false} SumOfFullWords(b: bytes)
    requires |b| % 2 == 0 && forall i | 0 <= i < |b| :: b[i] == 0xFF
    ensures WordSum(b) == |b| / 2 * 0xFFFF
  {
    if b != [] {
      SumOfFullWords(b[..|b| - 2]);
    }
  }

  lemma {:induction false} SumOfZeroTail(b: bytes, k: nat)
    requires |b| % 2 == 0 && k % 2 == 0 && k <= |b|
    requires forall i | k <= i < |b| :: b[i] == 0
    ensures WordSum(b) == WordSum(b[..k])
  {
    if k < |b| {
      SumOfZeroTail(b[..|b| - 2], k);
      assert b[..|b| - 2][..k] == b[..k];
    } else {
      assert b[..k] == b;
    }
  }

  lemma {:induction false} LongInputCanFail(n: nat)
    requires n > 131076
    ensures IpChecksumOf(Overflowing(n)) != Rfc1071(Overflowing(n))
  {
    var p := Padded(Overflowing(n));
    SumOfZeroTail(p, 131078);
    SumOfFullWords(p[..131074]);
    var two := p[..131076];
    assert two[..131074] == p[..131074];
    assert WordSum(two) == 65537 * 0xFFFF + 0xFF00;
    var three := p[..131078];
    assert three[..131076] == two;
    assert WordSum(three) == 65537 * 0xFFFF + 0xFF00 + 0x100;
    OnesSumIsResidue(p);
  }

  /** The program's checksum is RFC 1071's for every input of length `n`
      exactly when `n` is at most 131076 bytes (65538 words). */
  lemma {:induction false} CorrectExactlyUpTo131076Bytes(n: nat)
    ensures (forall b: bytes | |b| == n :: IpChecksumOf(b) == Rfc1071(b)) <==> n <= 131076
  {
    if n <= 131076 {
      forall b: bytes | |b| == n ensures IpChecksumOf(b) == Rfc1071(b) {
        ShortInputsAreCorrect(b);
      }
    } else {
      LongInputCanFail(n);
    }
  }

  // ---------- Verifying a header that carries its own checksum ----------

  lemma {:induction false} WordSumReplace(b: bytes, k: nat, w: u16)
    requires |b| % 2 == 0 && k % 2 == 0 && k + 2 <= |b|
    requires U16At(b, k) == 0
    ensures |b[..k] + PackU16(w) + b[k + 2..]| == |b|
    ensures WordSum(b[..k] + PackU16(w) + b[k + 2..]) == WordSum(b) + w
  {
    var c := b[..k] + PackU16(w) + b[k + 2..];
    if k + 2 == |b| {
      assert c[..|c| - 2] == b[..|b| - 2];
      assert U16At(c, k) == U16At(PackU16(w), 0);
    } else {
      var front := b[..|b| - 2];
      assert front[..k] + PackU16(w) + front[k + 2..] == c[..|c| - 2];
      WordSumReplace(front, k, w);
      assert U16At(c, |c| - 2) == U16At(b, |b| - 2);
    }
  }

  /** Writing the checksum of a non-zero header into its zeroed checksum field
      makes the checksum of the result zero. */
  lemma {:induction false} ChecksumOfChecksummed(b: bytes, k: nat)
    requires |b| % 2 == 0 && |b| <= 131076 && k % 2 == 0 && k + 2 <= |b|
    requires U16At(b, k) == 0 && WordSum(b) > 0
    ensures IpChecksumOf(b[..k] + PackU16(IpChecksumOf(b)) + b[k + 2..]) == 0
  {
    var chk := IpChecksumOf(b);
    var c := b[..k] + PackU16(chk) + b[k + 2..];
    assert Padded(b) == b && Padded(c) == c;
    WordSumReplace(b, k, chk);
    WordSumBound(c);
    FoldCancels(WordSum(b));
  }

  /** A header whose first word is non-zero has a non-zero word sum. */
  lemma {:induction false} WordSumPositive(b: bytes)
    requires |b| % 2 == 0 && |b| >= 2 && U16At(b, 0) > 0
    ensures WordSum(b) > 0
  {
    if |b| > 2 {
      WordSumPositive(b[..|b| - 2]);
    }
  }

  lemma {:induction false} FoldCancels(s: nat)
    requires s > 0 && s + Fold(s) <= 65538 * 0xFFFF
    ensures Fold(s + Fold(s)) == 0
  {
    TwoFoldsSuffice(s);
    TwoFoldsSuffice(s + Fold(s));
    var q := (s - 1) / 0xFFFF;
    assert s - 1 == q * 0xFFFF + (Residue(s) - 1);
    assert s + Fold(s) - 1 == q * 0xFFFF + 0xFFFE;
    ModUnique(q, 0xFFFE);
  }
}
