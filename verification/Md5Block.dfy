/** MD5 as in section 3.4 of RFC 1321: sixty-four steps over a block of sixteen words, and the
    unrolled, register-renaming form of md5_process_block proved equal to it. */
module Md5Block {
  import opened Bytes
  import opened Arithmetic
  import opened Md5Words

  datatype Regs = Regs(a: Word, b: Word, c: Word, d: Word)

  // The auxiliary functions F, G, H, I as the standard writes them.
  function F(x: Word, y: Word, z: Word): Word { Or(And(x, y), And(Not(x), z)) }
  function G(x: Word, y: Word, z: Word): Word { Or(And(x, z), And(y, Not(z))) }
  function H(x: Word, y: Word, z: Word): Word { Xor(Xor(x, y), z) }
  function I(x: Word, y: Word, z: Word): Word { Xor(y, Or(x, Not(z))) }

  // The macros of the source; the first two are rewritten to save an operation.
  function Ff(b: Word, c: Word, d: Word): Word { Xor(d, And(b, Xor(c, d))) }
  function Fg(b: Word, c: Word, d: Word): Word { Ff(d, b, c) }
  function Fh(b: Word, c: Word, d: Word): Word { Xor(Xor(b, c), d) }
  function Fi(b: Word, c: Word, d: Word): Word { Xor(c, Or(b, Not(d))) }

  // Choosing bits with two exclusive-ors is choosing them with and, or and not.
  lemma FfIsF(b: Word, c: Word, d: Word)
    ensures Ff(b, c, d) == F(b, c, d)
  {
    hide Gated;
    Chooses(b, c, d, 32);
  }

  lemma FgIsG(b: Word, c: Word, d: Word)
    ensures Fg(b, c, d) == G(b, c, d)
  {
    hide Gated;
    Chooses(d, b, c, 32);
    Commutes(d, b, 32);
    Commutes(Not(d), c, 32);
  }

  // T[i + 1] of the standard, the integer part of 4294967296 times abs(sin(i + 1)).
  function TableAt(i: nat): Word
    requires i < 64
  {
    match i
    case 0 => 0xd76aa478
    case 1 => 0xe8c7b756
    case 2 => 0x242070db
    case 3 => 0xc1bdceee
    case 4 => 0xf57c0faf
    case 5 => 0x4787c62a
    case 6 => 0xa8304613
    case 7 => 0xfd469501
    case 8 => 0x698098d8
    case 9 => 0x8b44f7af
    case 10 => 0xffff5bb1
    case 11 => 0x895cd7be
    case 12 => 0x6b901122
    case 13 => 0xfd987193
    case 14 => 0xa679438e
    case 15 => 0x49b40821
    case 16 => 0xf61e2562
    case 17 => 0xc040b340
    case 18 => 0x265e5a51
    case 19 => 0xe9b6c7aa
    case 20 => 0xd62f105d
    case 21 => 0x02441453
    case 22 => 0xd8a1e681
    case 23 => 0xe7d3fbc8
    case 24 => 0x21e1cde6
    case 25 => 0xc33707d6
    case 26 => 0xf4d50d87
    case 27 => 0x455a14ed
    case 28 => 0xa9e3e905
    case 29 => 0xfcefa3f8
    case 30 => 0x676f02d9
    case 31 => 0x8d2a4c8a
    case 32 => 0xfffa3942
    case 33 => 0x8771f681
    case 34 => 0x6d9d6122
    case 35 => 0xfde5380c
    case 36 => 0xa4beea44
    case 37 => 0x4bdecfa9
    case 38 => 0xf6bb4b60
    case 39 => 0xbebfbc70
    case 40 => 0x289b7ec6
    case 41 => 0xeaa127fa
    case 42 => 0xd4ef3085
    case 43 => 0x04881d05
    case 44 => 0xd9d4d039
    case 45 => 0xe6db99e5
    case 46 => 0x1fa27cf8
    case 47 => 0xc4ac5665
    case 48 => 0xf4292244
    case 49 => 0x432aff97
    case 50 => 0xab9423a7
    case 51 => 0xfc93a039
    case 52 => 0x655b59c3
    case 53 => 0x8f0ccc92
    case 54 => 0xffeff47d
    case 55 => 0x85845dd1
    case 56 => 0x6fa87e4f
    case 57 => 0xfe2ce6e0
    case 58 => 0xa3014314
    case 59 => 0x4e0811a1
    case 60 => 0xf7537e82
    case 61 => 0xbd3af235
    case 62 => 0x2ad7d2bb
    case _ => 0xeb86d391
  }

  // ---- the standard's step i on words x

  function Mix(i: nat, b: Word, c: Word, d: Word): Word {
    if i < 16 then F(b, c, d) else if i < 32 then G(b, c, d) else if i < 48 then H(b, c, d) else I(b, c, d)
  }

  function WordIndex(i: nat): (k: nat)
    ensures k < 16
  {
    if i < 16 then i else if i < 32 then (5 * i + 1) % 16 else if i < 48 then (3 * i + 5) % 16 else 7 * i % 16
  }

  function Shift(i: nat): (s: nat)
    ensures 0 < s < 32
  {
    var q := i % 4;
    if i < 16 then 7 + 5 * q
    else if i < 32 then if q == 0 then 5 else if q == 1 then 9 else if q == 2 then 14 else 20
    else if i < 48 then if q == 0 then 4 else if q == 1 then 11 else if q == 2 then 16 else 23
    else if q == 0 then 6 else if q == 1 then 10 else if q == 2 then 15 else 21
  }

  // One operation of the standard: b plus the circular left shift by s of the sum of the other four.
  function Sum(f: Word, a: Word, b: Word, x: Word, s: nat, t: Word): Word
    requires s <= 32
  {
    var sum := (a + f + x + t) % 0x1_0000_0000;
    (b + (sum * Pow2(s) % 0x1_0000_0000 + sum / Pow2(32 - s))) % 0x1_0000_0000
  }

  function Step(x: seq<Word>, i: nat, r: Regs): Regs
    requires |x| == 16 && i < 64
  {
    Regs(r.d, Sum(Mix(i, r.b, r.c, r.d), r.a, r.b, x[WordIndex(i)], Shift(i), TableAt(i)), r.b, r.c)
  }

  function Steps(x: seq<Word>, r: Regs, n: nat): Regs
    requires |x| == 16 && n <= 64
  {
    if n == 0 then r else Step(x, n - 1, Steps(x, r, n - 1))
  }

  // Four steps leave the registers in their own places.
  lemma {:induction false} FourSteps(x: seq<Word>, r: Regs, i: nat, a: Word, b: Word, c: Word, d: Word,
                                     a': Word, b': Word, c': Word, d': Word)
    requires |x| == 16 && i + 4 <= 64 && Steps(x, r, i) == Regs(a, b, c, d)
    requires a' == Sum(Mix(i, b, c, d), a, b, x[WordIndex(i)], Shift(i), TableAt(i))
    requires d' == Sum(Mix(i + 1, a', b, c), d, a', x[WordIndex(i + 1)], Shift(i + 1), TableAt(i + 1))
    requires c' == Sum(Mix(i + 2, d', a', b), c, d', x[WordIndex(i + 2)], Shift(i + 2), TableAt(i + 2))
    requires b' == Sum(Mix(i + 3, c', d', a'), b, c', x[WordIndex(i + 3)], Shift(i + 3), TableAt(i + 3))
    ensures Steps(x, r, i + 4) == Regs(a', b', c', d')
  {
    hide Sum, Mix, WordIndex, Shift, TableAt;
    assert Steps(x, r, i + 1) == Regs(d, a', b, c);
    assert Steps(x, r, i + 2) == Regs(c, d', a', b);
    assert Steps(x, r, i + 3) == Regs(b, c', d', a');
  }

  // The macro each round uses.
  function CodeMix(i: nat, b: Word, c: Word, d: Word): Word {
    if i < 16 then Ff(b, c, d) else if i < 32 then Fg(b, c, d) else if i < 48 then Fh(b, c, d) else Fi(b, c, d)
  }

  // The macro OP.
  function Op(f: Word, a: Word, b: Word, x: Word, s: nat, t: Word): Word
    requires s <= 32
  {
    Add(Rotl(Add(a, Add(Add(f, x), t)), s), b)
  }

  function CodeOp(x: seq<Word>, i: nat, a: Word, b: Word, c: Word, d: Word): Word
    requires |x| == 16 && i < 64
  {
    Op(CodeMix(i, b, c, d), a, b, x[WordIndex(i)], Shift(i), TableAt(i))
  }

  lemma SumMod(x: nat, y: nat)
    ensures (x + y % 0x1_0000_0000) % 0x1_0000_0000 == (x + y) % 0x1_0000_0000
  {
  }

  // The macro is the operation of the standard.
  lemma OpIsSum(f: Word, a: Word, b: Word, x: Word, s: nat, t: Word)
    requires 0 < s < 32
    ensures Op(f, a, b, x, s, t) == Sum(f, a, b, x, s, t)
  {
    hide Rotl, Pow2;
    SumMod(t, f + x);
    SumMod(a, f + x + t);
    var sum := (a + f + x + t) % 0x1_0000_0000;
    assert Add(a, Add(Add(f, x), t)) == sum;
    RotlIs(sum, s);
  }

  lemma MixIsMacro(i: nat, b: Word, c: Word, d: Word)
    ensures CodeMix(i, b, c, d) == Mix(i, b, c, d)
  {
    hide Gated, F, G, Ff, Fg;
    FfIsF(b, c, d);
    FgIsG(b, c, d);
  }

  lemma CodeStep(x: seq<Word>, i: nat, a: Word, b: Word, c: Word, d: Word)
    requires |x| == 16 && i < 64
    ensures CodeOp(x, i, a, b, c, d) == Sum(Mix(i, b, c, d), a, b, x[WordIndex(i)], Shift(i), TableAt(i))
  {
    hide Op, Sum, Mix, CodeMix, WordIndex, Shift, TableAt;
    MixIsMacro(i, b, c, d);
    OpIsSum(Mix(i, b, c, d), a, b, x[WordIndex(i)], Shift(i), TableAt(i));
  }

  lemma {:induction false} Quad(x: seq<Word>, r: Regs, i: nat, p: Regs, a: Word, b: Word, c: Word, d: Word)
    requires |x| == 16 && i + 4 <= 64 && Steps(x, r, i) == p
    requires a == CodeOp(x, i, p.a, p.b, p.c, p.d) && d == CodeOp(x, i + 1, p.d, a, p.b, p.c)
    requires c == CodeOp(x, i + 2, p.c, d, a, p.b) && b == CodeOp(x, i + 3, p.b, c, d, a)
    ensures Steps(x, r, i + 4) == Regs(a, b, c, d)
  {
    hide Sum, Steps, WordIndex, Shift, TableAt, Mix, CodeOp;
    CodeStep(x, i, p.a, p.b, p.c, p.d);
    CodeStep(x, i + 1, p.d, a, p.b, p.c);
    CodeStep(x, i + 2, p.c, d, a, p.b);
    CodeStep(x, i + 3, p.b, c, d, a);
    FourSteps(x, r, i, p.a, p.b, p.c, p.d, a, b, c, d);
  }

  // Round 1 of the source.
  method Round1(x: seq<Word>, ghost r: Regs, start: Regs) returns (out: Regs)
    requires |x| == 16 && Steps(x, r, 0) == start
    ensures out == Steps(x, r, 16)
  {
    hide Op, Steps, Ff, Fg, Fh, Fi;
    var A, B, C, D := start.a, start.b, start.c, start.d;
    ghost var r0 := Regs(A, B, C, D);
    A := Op(Ff(B, C, D), A, B, x[0], 7, 0xd76aa478);
    D := Op(Ff(A, B, C), D, A, x[1], 12, 0xe8c7b756);
    C := Op(Ff(D, A, B), C, D, x[2], 17, 0x242070db);
    B := Op(Ff(C, D, A), B, C, x[3], 22, 0xc1bdceee);
    Quad(x, r, 0, r0, A, B, C, D);
    ghost var r1 := Regs(A, B, C, D);
    A := Op(Ff(B, C, D), A, B, x[4], 7, 0xf57c0faf);
    D := Op(Ff(A, B, C), D, A, x[5], 12, 0x4787c62a);
    C := Op(Ff(D, A, B), C, D, x[6], 17, 0xa8304613);
    B := Op(Ff(C, D, A), B, C, x[7], 22, 0xfd469501);
    Quad(x, r, 4, r1, A, B, C, D);
    ghost var r2 := Regs(A, B, C, D);
    A := Op(Ff(B, C, D), A, B, x[8], 7, 0x698098d8);
    D := Op(Ff(A, B, C), D, A, x[9], 12, 0x8b44f7af);
    C := Op(Ff(D, A, B), C, D, x[10], 17, 0xffff5bb1);
    B := Op(Ff(C, D, A), B, C, x[11], 22, 0x895cd7be);
    Quad(x, r, 8, r2, A, B, C, D);
    ghost var r3 := Regs(A, B, C, D);
    A := Op(Ff(B, C, D), A, B, x[12], 7, 0x6b901122);
    D := Op(Ff(A, B, C), D, A, x[13], 12, 0xfd987193);
    C := Op(Ff(D, A, B), C, D, x[14], 17, 0xa679438e);
    B := Op(Ff(C, D, A), B, C, x[15], 22, 0x49b40821);
    Quad(x, r, 12, r3, A, B, C, D);
    out := Regs(A, B, C, D);
  }

  // Round 2 of the source.
  method Round2(x: seq<Word>, ghost r: Regs, start: Regs) returns (out: Regs)
    requires |x| == 16 && Steps(x, r, 16) == start
    ensures out == Steps(x, r, 32)
  {
    hide Op, Steps, Ff, Fg, Fh, Fi;
    var A, B, C, D := start.a, start.b, start.c, start.d;
    ghost var r0 := Regs(A, B, C, D);
    A := Op(Fg(B, C, D), A, B, x[1], 5, 0xf61e2562);
    D := Op(Fg(A, B, C), D, A, x[6], 9, 0xc040b340);
    C := Op(Fg(D, A, B), C, D, x[11], 14, 0x265e5a51);
    B := Op(Fg(C, D, A), B, C, x[0], 20, 0xe9b6c7aa);
    Quad(x, r, 16, r0, A, B, C, D);
    ghost var r1 := Regs(A, B, C, D);
    A := Op(Fg(B, C, D), A, B, x[5], 5, 0xd62f105d);
    D := Op(Fg(A, B, C), D, A, x[10], 9, 0x02441453);
    C := Op(Fg(D, A, B), C, D, x[15], 14, 0xd8a1e681);
    B := Op(Fg(C, D, A), B, C, x[4], 20, 0xe7d3fbc8);
    Quad(x, r, 20, r1, A, B, C, D);
    ghost var r2 := Regs(A, B, C, D);
    A := Op(Fg(B, C, D), A, B, x[9], 5, 0x21e1cde6);
    D := Op(Fg(A, B, C), D, A, x[14], 9, 0xc33707d6);
    C := Op(Fg(D, A, B), C, D, x[3], 14, 0xf4d50d87);
    B := Op(Fg(C, D, A), B, C, x[8], 20, 0x455a14ed);
    Quad(x, r, 24, r2, A, B, C, D);
    ghost var r3 := Regs(A, B, C, D);
    A := Op(Fg(B, C, D), A, B, x[13], 5, 0xa9e3e905);
    D := Op(Fg(A, B, C), D, A, x[2], 9, 0xfcefa3f8);
    C := Op(Fg(D, A, B), C, D, x[7], 14, 0x676f02d9);
    B := Op(Fg(C, D, A), B, C, x[12], 20, 0x8d2a4c8a);
    Quad(x, r, 28, r3, A, B, C, D);
    out := Regs(A, B, C, D);
  }

  // Round 3 of the source.
  method Round3(x: seq<Word>, ghost r: Regs, start: Regs) returns (out: Regs)
    requires |x| == 16 && Steps(x, r, 32) == start
    ensures out == Steps(x, r, 48)
  {
    hide Op, Steps, Ff, Fg, Fh, Fi;
    var A, B, C, D := start.a, start.b, start.c, start.d;
    ghost var r0 := Regs(A, B, C, D);
    A := Op(Fh(B, C, D), A, B, x[5], 4, 0xfffa3942);
    D := Op(Fh(A, B, C), D, A, x[8], 11, 0x8771f681);
    C := Op(Fh(D, A, B), C, D, x[11], 16, 0x6d9d6122);
    B := Op(Fh(C, D, A), B, C, x[14], 23, 0xfde5380c);
    Quad(x, r, 32, r0, A, B, C, D);
    ghost var r1 := Regs(A, B, C, D);
    A := Op(Fh(B, C, D), A, B, x[1], 4, 0xa4beea44);
    D := Op(Fh(A, B, C), D, A, x[4], 11, 0x4bdecfa9);
    C := Op(Fh(D, A, B), C, D, x[7], 16, 0xf6bb4b60);
    B := Op(Fh(C, D, A), B, C, x[10], 23, 0xbebfbc70);
    Quad(x, r, 36, r1, A, B, C, D);
    ghost var r2 := Regs(A, B, C, D);
    A := Op(Fh(B, C, D), A, B, x[13], 4, 0x289b7ec6);
    D := Op(Fh(A, B, C), D, A, x[0], 11, 0xeaa127fa);
    C := Op(Fh(D, A, B), C, D, x[3], 16, 0xd4ef3085);
    B := Op(Fh(C, D, A), B, C, x[6], 23, 0x04881d05);
    Quad(x, r, 40, r2, A, B, C, D);
    ghost var r3 := Regs(A, B, C, D);
    A := Op(Fh(B, C, D), A, B, x[9], 4, 0xd9d4d039);
    D := Op(Fh(A, B, C), D, A, x[12], 11, 0xe6db99e5);
    C := Op(Fh(D, A, B), C, D, x[15], 16, 0x1fa27cf8);
    B := Op(Fh(C, D, A), B, C, x[2], 23, 0xc4ac5665);
    Quad(x, r, 44, r3, A, B, C, D);
    out := Regs(A, B, C, D);
  }

  // Round 4 of the source.
  method Round4(x: seq<Word>, ghost r: Regs, start: Regs) returns (out: Regs)
    requires |x| == 16 && Steps(x, r, 48) == start
    ensures out == Steps(x, r, 64)
  {
    hide Op, Steps, Ff, Fg, Fh, Fi;
    var A, B, C, D := start.a, start.b, start.c, start.d;
    ghost var r0 := Regs(A, B, C, D);
    A := Op(Fi(B, C, D), A, B, x[0], 6, 0xf4292244);
    D := Op(Fi(A, B, C), D, A, x[7], 10, 0x432aff97);
    C := Op(Fi(D, A, B), C, D, x[14], 15, 0xab9423a7);
    B := Op(Fi(C, D, A), B, C, x[5], 21, 0xfc93a039);
    Quad(x, r, 48, r0, A, B, C, D);
    ghost var r1 := Regs(A, B, C, D);
    A := Op(Fi(B, C, D), A, B, x[12], 6, 0x655b59c3);
    D := Op(Fi(A, B, C), D, A, x[3], 10, 0x8f0ccc92);
    C := Op(Fi(D, A, B), C, D, x[10], 15, 0xffeff47d);
    B := Op(Fi(C, D, A), B, C, x[1], 21, 0x85845dd1);
    Quad(x, r, 52, r1, A, B, C, D);
    ghost var r2 := Regs(A, B, C, D);
    A := Op(Fi(B, C, D), A, B, x[8], 6, 0x6fa87e4f);
    D := Op(Fi(A, B, C), D, A, x[15], 10, 0xfe2ce6e0);
    C := Op(Fi(D, A, B), C, D, x[6], 15, 0xa3014314);
    B := Op(Fi(C, D, A), B, C, x[13], 21, 0x4e0811a1);
    Quad(x, r, 56, r2, A, B, C, D);
    ghost var r3 := Regs(A, B, C, D);
    A := Op(Fi(B, C, D), A, B, x[4], 6, 0xf7537e82);
    D := Op(Fi(A, B, C), D, A, x[11], 10, 0xbd3af235);
    C := Op(Fi(D, A, B), C, D, x[2], 15, 0x2ad7d2bb);
    B := Op(Fi(C, D, A), B, C, x[9], 21, 0xeb86d391);
    Quad(x, r, 60, r3, A, B, C, D);
    out := Regs(A, B, C, D);
  }
}
