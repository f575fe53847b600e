/** Streaming MD5 (md5.c): however a message is cut into calls, buffering in a 128-byte buffer
    computes the digest of sections 3.1 to 3.4 of RFC 1321. */
module Md5Stream {
  import opened Bytes
  import opened Md5Words
  import opened Md5Block
  import opened Arithmetic

  const TWO32 := 0x1_0000_0000

  // ---- the definition

  const START := Regs(0x67452301, 0xefcdab89, 0x98badcfe, 0x10325476)

  // Sixteen words, low-order byte first.
  function Words(block: seq<Byte>): (x: seq<Word>)
    requires |block| == 64
    ensures |x| == 16
  {
    seq(16, k requires 0 <= k < 16 => WordAt(block, k))
  }

  function WordAt(block: seq<Byte>, k: nat): Word
    requires |block| == 64 && k < 16
  {
    (block[4 * k] as int) + 256 * (block[4 * k + 1] as int) + 65536 * (block[4 * k + 2] as int) + 16777216 * (block[4 * k + 3] as int)
  }

  function Compress(r: Regs, block: seq<Byte>): Regs
    requires |block| == 64
  {
    var x := Words(block);
    var s := Steps(x, r, 4 * |x|);
    Regs(Add(s.a, r.a), Add(s.b, r.b), Add(s.c, r.c), Add(s.d, r.d))
  }

  // The block function folded over all whole blocks.
  function Fold(r: Regs, s: seq<Byte>): Regs
    decreases |s|
  {
    if |s| < 64 then r else Fold(Compress(r, s[..64]), s[64..])
  }

  function Zeros(n: nat): (z: seq<Byte>)
    ensures |z| == n && forall i :: 0 <= i < n ==> z[i] == 0
  {
    seq(n, i => 0)
  }

  // A word, low-order byte first.
  function LittleEndian(w: Word): (b: seq<Byte>)
    ensures |b| == 4
  {
    [w % 256, w / 256 % 256, w / 65536 % 256, w / 16777216]
  }

  // One 1 bit, then zeros until the length is 56 modulo 64 (section 3.1).
  function PadLength(n: nat): (p: nat)
    ensures 1 <= p <= 64 && (n + p) % 64 == 56
  {
    if n % 64 >= 56 then 120 - n % 64 else 56 - n % 64
  }

  // The padding, then the length in bits modulo 2^64, low-order word first (section 3.2).
  function Trailer(p: nat, bits: nat): (t: seq<Byte>)
    requires 1 <= p && bits < 0x1_0000_0000_0000_0000
    ensures |t| == p + 8
  {
    [0x80] + Zeros(p - 1) + LittleEndian(bits % TWO32) + LittleEndian(bits / TWO32)
  }

  function Padded(msg: seq<Byte>): (s: seq<Byte>)
    ensures |s| % 64 == 0
  {
    var p := PadLength(|msg|);
    assert (|msg| + p + 8) % 64 == 0;
    msg + Trailer(p, 8 * |msg| % 0x1_0000_0000_0000_0000)
  }

  function Digest(msg: seq<Byte>): Regs { Fold(START, Padded(msg)) }

  // ---- folding piece by piece

  lemma {:induction false} FoldConcat(r: Regs, a: seq<Byte>, b: seq<Byte>)
    requires |a| % 64 == 0
    ensures Fold(r, a + b) == Fold(Fold(r, a), b)
    decreases |a|
  {
    hide Compress;
    if a == [] {
      assert a + b == b;
    } else {
      assert (a + b)[..64] == a[..64] && (a + b)[64..] == a[64..] + b;
      FoldConcat(Compress(r, a[..64]), a[64..], b);
    }
  }

  // The 64-bit byte count kept in two words, after n bytes.
  predicate Counts(t0: nat, t1: nat, n: nat) {
    t0 < TWO32 && t1 < TWO32 && t0 + TWO32 * t1 == n % 0x1_0000_0000_0000_0000
  }

  function Carry(t0: nat, t1: nat, len: nat): (nat, nat) {
    var u0 := (t0 + len) % TWO32;
    (u0, if u0 < len then (t1 + 1) % TWO32 else t1)
  }

  lemma CountMore(t0: nat, t1: nat, n: nat, len: nat)
    requires Counts(t0, t1, n) && len < TWO32
    ensures var (u0, u1) := Carry(t0, t1, len); Counts(u0, u1, n + len)
  {
    var M := 0x1_0000_0000_0000_0000;
    var (u0, u1) := Carry(t0, t1, len);
    var q := n / M;
    assert n == q * M + (t0 + TWO32 * t1);
    if t0 + len < TWO32 {
      assert u0 == t0 + len;
      ModIs(n + len, q, u0 + TWO32 * t1, M);
    } else {
      assert u0 == t0 + len - TWO32;
      if t1 + 1 < TWO32 {
        ModIs(n + len, q, u0 + TWO32 * (t1 + 1), M);
      } else {
        ModIs(n + len, q + 1, u0, M);
      }
    }
  }

  // The byte count times eight, as two words: the high one takes over the top three bits of the low
  // one, where its own shift has left zeros.
  function LowBits(t0: nat): nat { t0 * 8 % TWO32 }
  function HighBits(t0: nat, t1: nat): nat { t1 * 8 % TWO32 + t0 / 0x2000_0000 }

  lemma Halves(lo: nat, hi: nat)
    requires lo < TWO32
    ensures (lo + TWO32 * hi) % TWO32 == lo && (lo + TWO32 * hi) / TWO32 == hi
  {
    ModIs(lo + TWO32 * hi, hi, lo, TWO32);
  }

  // The carries of the two shifts by three.
  lemma Shifted(t0: nat, t1: nat) returns (c: nat)
    requires t0 < TWO32 && t1 < TWO32
    ensures 8 * (t0 + TWO32 * t1) == c * 0x1_0000_0000_0000_0000 + (LowBits(t0) + TWO32 * HighBits(t0, t1))
    ensures HighBits(t0, t1) < TWO32
  {
    c := t1 * 8 / TWO32;
    assert t0 * 8 == TWO32 * (t0 / 0x2000_0000) + LowBits(t0);
    assert t1 * 8 == TWO32 * c + t1 * 8 % TWO32;
    assert t1 * 8 % TWO32 <= TWO32 - 8;
  }

  lemma LengthField(t0: nat, t1: nat, n: nat)
    requires Counts(t0, t1, n)
    ensures var bits := 8 * n % 0x1_0000_0000_0000_0000;
            LowBits(t0) == bits % TWO32 && HighBits(t0, t1) == bits / TWO32 && HighBits(t0, t1) < TWO32
  {
    hide HighBits;
    var q := n / 0x1_0000_0000_0000_0000;
    var c := Shifted(t0, t1);
    ModIs(8 * n, 8 * q + c, LowBits(t0) + TWO32 * HighBits(t0, t1), 0x1_0000_0000_0000_0000);
    Halves(LowBits(t0), HighBits(t0, t1));
  }

  // ---- bytes and words

  // Where a block holds a word low-order byte first, that is the word it is read as.
  lemma WordsBack(block: seq<Byte>, k: nat, w: Word)
    requires |block| == 64 && k < 16 && block[4 * k..4 * k + 4] == LittleEndian(w)
    ensures Words(block)[k] == w
  {
    var b := block[4 * k..4 * k + 4];
    assert b[0] == block[4 * k] && b[1] == block[4 * k + 1] && b[2] == block[4 * k + 2] && b[3] == block[4 * k + 3];
    Pieces(w);
  }

  lemma Pieces(w: Word)
    ensures w == w % 256 + 256 * (w / 256 % 256) + 65536 * (w / 65536 % 256) + 16777216 * (w / 16777216)
  {
    assert w / 65536 == w / 256 / 256 && w / 16777216 == w / 65536 / 256;
  }

  // Section 3.3: the registers start as the bytes 01 23 45 67, 89 ab cd ef, fe dc ba 98, 76 54 32 10.
  lemma StartBytes()
    ensures LittleEndian(START.a) == [0x01, 0x23, 0x45, 0x67] && LittleEndian(START.b) == [0x89, 0xab, 0xcd, 0xef]
    ensures LittleEndian(START.c) == [0xfe, 0xdc, 0xba, 0x98] && LittleEndian(START.d) == [0x76, 0x54, 0x32, 0x10]
  {
  }

  // Eight bytes as a number, the first the lowest.
  function Number(b: seq<Byte>): nat
    requires |b| == 8
  {
    ((b[0] as int) + 0x100 * (b[1] as int) + 0x1_0000 * (b[2] as int) + 0x100_0000 * (b[3] as int))
    + 0x1_0000_0000 * ((b[4] as int) + 0x100 * (b[5] as int) + 0x1_0000 * (b[6] as int) + 0x100_0000 * (b[7] as int))
  }

  /** Sections 3.1 and 3.2: the padded message is the message, a byte 80, the fewest zeros that leave eight
      bytes of the last block, and in those the length in bits modulo 2^64. */
  lemma PaddedIs(msg: seq<Byte>)
    ensures var s, n := Padded(msg), |msg|;
            && n + 9 <= |s| <= n + 72 && |s| % 64 == 0 && s[..n] == msg && s[n] == 0x80
            && (forall i :: n < i < |s| - 8 ==> s[i] == 0)
            && Number(s[|s| - 8..]) == 8 * n % 0x1_0000_0000_0000_0000
  {
    hide LittleEndian, PadLength, Number;
    var s, n, p := Padded(msg), |msg|, PadLength(|msg|);
    var bits := 8 * n % 0x1_0000_0000_0000_0000;
    var lo, hi := LittleEndian(bits % TWO32), LittleEndian(bits / TWO32);
    assert s == msg + ([0x80] + Zeros(p - 1) + lo + hi);
    assert s[|s| - 8..] == lo + hi;
    NumberIs(bits);
  }

  lemma NumberIs(bits: nat)
    requires bits < 0x1_0000_0000_0000_0000
    ensures Number(LittleEndian(bits % TWO32) + LittleEndian(bits / TWO32)) == bits
  {
    Pieces(bits % TWO32);
    Pieces(bits / TWO32);
  }
}
