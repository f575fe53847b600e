/** Words of 32 bits: C's operators on unsigned integers bit by bit, and the circular shift of RFC 1321. */
module Md5Words {
  import opened Arithmetic

  // md5_uint32
  type Word = w: int | 0 <= w < 0x1_0000_0000

  // ---- operators bit by bit

  datatype Gate = AndGate | OrGate | XorGate | NotGate

  predicate On(g: Gate, a: bool, b: bool) {
    match g
    case AndGate => a && b
    case OrGate => a || b
    case XorGate => a != b
    case NotGate => !a
  }

  function Pow2(n: nat): (p: nat)
    ensures p >= 1
  {
    if n == 0 then 1 else 2 * Pow2(n - 1)
  }

  // The lowest n bits, each by itself.
  function Gated(g: Gate, x: nat, y: nat, n: nat): (r: nat)
    ensures r < Pow2(n)
  {
    if n == 0 then 0 else 2 * Gated(g, x / 2, y / 2, n - 1) + if On(g, x % 2 == 1, y % 2 == 1) then 1 else 0
  }

  predicate BitOf(w: nat, i: nat) { if i == 0 then w % 2 == 1 else BitOf(w / 2, i - 1) }

  // Every bit of the result is the gate's value at the bits of the operands.
  lemma {:induction false} GatedAt(g: Gate, x: nat, y: nat, n: nat, i: nat)
    requires i < n
    ensures BitOf(Gated(g, x, y, n), i) == On(g, BitOf(x, i), BitOf(y, i))
  {
    if i > 0 { GatedAt(g, x / 2, y / 2, n - 1, i - 1); }
  }

  lemma {:induction false} BitsAre(w: nat, i: nat)
    ensures BitOf(w, i) <==> w / Pow2(i) % 2 == 1
  {
    hide Pow2;
    PowStep(i);
    if i > 0 {
      BitsAre(w / 2, i - 1);
      Quotients(w, Pow2(i - 1));
    }
  }

  lemma PowStep(i: nat)
    ensures Pow2(0) == 1 && (i > 0 ==> Pow2(i) == 2 * Pow2(i - 1))
  {
  }

  lemma Euclid(w: nat, p: nat)
    requires p >= 1
    ensures w == w / p * p + w % p && 0 <= w % p < p
  {
  }

  lemma Quotients(w: nat, p: nat)
    requires p >= 1
    ensures w / 2 / p == w / (2 * p)
  {
    var q, r := w / 2 / p, w / 2 % p;
    Euclid(w / 2, p);
    assert 2 * (q * p) == q * (2 * p);
    DivIs(w, q, 2 * r + w % 2, 2 * p);
  }

  lemma Apart(a: int, b: int, m: nat)
    requires a * m <= b * m + (m - 1) && m > 0
    ensures a <= b
  {
    assert (b + 1) * m == b * m + m;
    if a > b { Grows(b + 1, a, m); }
  }

  lemma Grows(a: int, b: int, m: nat)
    requires a <= b
    ensures a * m <= b * m
  {
    assert (b - a) * m >= 0;
  }

  lemma DivIs(x: nat, q: nat, r: nat, m: nat)
    requires m > 0 && x == q * m + r && r < m
    ensures x / m == q
  {
    Euclid(x, m);
    Apart(q, x / m, m);
    Apart(x / m, q, m);
  }

  lemma Pow32()
    ensures Pow2(32) == 0x1_0000_0000
  {
    assert Pow2(8) == 256;
    assert Pow2(16) == 65536;
    assert Pow2(24) == 0x100_0000;
  }

  function And(x: Word, y: Word): Word { Pow32(); Gated(AndGate, x, y, 32) }
  function Or(x: Word, y: Word): Word { Pow32(); Gated(OrGate, x, y, 32) }
  function Xor(x: Word, y: Word): Word { Pow32(); Gated(XorGate, x, y, 32) }
  function Not(x: Word): Word { Pow32(); Gated(NotGate, x, 0, 32) }

  // ---- sums and shifts

  function Add(x: Word, y: Word): Word { (x + y) % 0x1_0000_0000 }

  function Shl(w: Word, s: nat): Word { w * Pow2(s) % 0x1_0000_0000 }

  function Shr(w: Word, s: nat): Word { Smaller(w, Pow2(s)); w / Pow2(s) }

  lemma Smaller(w: nat, p: nat)
    requires p >= 1
    ensures 0 <= w / p <= w
  {
    Euclid(w, p);
    Grows(1, p, w / p);
  }

  // The macro CYCLIC.
  function Rotl(w: Word, s: nat): Word
    requires s <= 32
  {
    Or(Shl(w, s), Shr(w, 32 - s))
  }

  lemma {:induction false} OrZero(x: nat, n: nat)
    requires x < Pow2(n)
    ensures Gated(OrGate, x, 0, n) == x
  {
    if n > 0 { OrZero(x / 2, n - 1); }
  }

  // Or of numbers that share no bits is their sum.
  lemma {:induction false} OrApart(h: nat, y: nat, k: nat, n: nat)
    requires y < Pow2(k) && k <= n && h * Pow2(k) < Pow2(n)
    ensures Gated(OrGate, h * Pow2(k), y, n) == h * Pow2(k) + y
  {
    if k == 0 {
      OrZero(h, n);
    } else {
      var x := h * Pow2(k);
      assert x == 2 * (h * Pow2(k - 1));
      OrApart(h, y / 2, k - 1, n - 1);
    }
  }

  lemma {:induction false} PowAdd(a: nat, b: nat)
    ensures Pow2(a + b) == Pow2(a) * Pow2(b)
  {
    if a > 0 {
      PowAdd(a - 1, b);
      assert 2 * (Pow2(a - 1) * Pow2(b)) == (2 * Pow2(a - 1)) * Pow2(b);
    }
  }

  lemma Distribute(d: nat, q: nat, r: nat, p: nat)
    ensures (d * q + r) * p == d * (p * q) + r * p
  {
    assert (d * q + r) * p == (d * q) * p + r * p;
    assert (d * q) * p == d * (q * p) && q * p == p * q;
  }

  // What is shifted in from below is what falls out above.
  lemma SplitLow(w: nat, p: nat, q: nat)
    requires p >= 1 && q >= 1
    ensures w * p % (p * q) == w % q * p && w % q * p < p * q
  {
    var d, r := w / q, w % q;
    Euclid(w, q);
    Distribute(d, q, r, p);
    Grows(r, q - 1, p);
    Product(q, p);
    ModIs(w * p, d, r * p, p * q);
  }

  lemma SplitHigh(w: nat, p: nat, q: nat)
    requires p >= 1 && q >= 1 && w < p * q
    ensures w / q < p
  {
    Euclid(w, q);
    Product(p, q);
    Apart(w / q, p - 1, q);
  }

  lemma Product(p: nat, q: nat)
    ensures (p - 1) * q == p * q - q && p * q == q * p && p * q >= 0
  {
  }

  /** The macro is the circular left shift by s places: the number times 2^s modulo 2^32, plus what is
      carried out of the word at its upper end. */
  lemma RotlIs(w: Word, s: nat)
    requires 0 < s < 32
    ensures Rotl(w, s) == w * Pow2(s) % 0x1_0000_0000 + w / Pow2(32 - s)
  {
    hide Pow2, Gated;
    var p, q := Pow2(s), Pow2(32 - s);
    PowAdd(s, 32 - s);
    Pow32();
    SplitLow(w, p, q);
    SplitHigh(w, p, q);
    OrApart(w % q, w / q, s, 32);
  }

  // ---- the macros for choosing bits

  lemma GatedStep(g: Gate, x: nat, y: nat, n: nat)
    requires n > 0
    ensures Gated(g, x, y, n) / 2 == Gated(g, x / 2, y / 2, n - 1) && (Gated(g, x, y, n) % 2 == 1 <==> On(g, x % 2 == 1, y % 2 == 1))
  {
  }

  lemma GatedNone(g: Gate, x: nat, y: nat)
    ensures Gated(g, x, y, 0) == 0
  {
  }

  lemma {:induction false} Chooses(b: nat, c: nat, d: nat, n: nat)
    ensures Gated(XorGate, d, Gated(AndGate, b, Gated(XorGate, c, d, n), n), n)
         == Gated(OrGate, Gated(AndGate, b, c, n), Gated(AndGate, Gated(NotGate, b, 0, n), d, n), n)
  {
    hide Gated;
    var u, v, w := Gated(XorGate, c, d, n), Gated(AndGate, b, c, n), Gated(NotGate, b, 0, n);
    var x, y := Gated(AndGate, b, u, n), Gated(AndGate, w, d, n);
    if n == 0 {
      GatedNone(XorGate, d, x);
      GatedNone(OrGate, v, y);
    } else {
      GatedStep(XorGate, c, d, n);
      GatedStep(AndGate, b, c, n);
      GatedStep(NotGate, b, 0, n);
      GatedStep(AndGate, b, u, n);
      GatedStep(AndGate, w, d, n);
      GatedStep(XorGate, d, x, n);
      GatedStep(OrGate, v, y, n);
      Chooses(b / 2, c / 2, d / 2, n - 1);
    }
  }

  lemma {:induction false} Commutes(x: nat, y: nat, n: nat)
    ensures Gated(AndGate, x, y, n) == Gated(AndGate, y, x, n)
  {
    if n > 0 { Commutes(x / 2, y / 2, n - 1); }
  }
}
