/** bitstring.h: bits kept in bytes. A bit string is a place in a larger block of bytes, as the five
    bitmaps of a crontab entry lie one behind the other. */
module CronBits {

  function Mask(k: nat): bv8
    requires k < 8
  {
    (1 as bv8) << k
  }

  function And(b: bv8, c: bv8): bv8 { b & c }

  function Or(b: bv8, c: bv8): bv8 { b | c }

  predicate Test(b: bv8, k: nat)
    requires k < 8
  {
    And(b, Mask(k)) != 0
  }

  // Bit n of a block, counted from its first byte.
  predicate Bit(s: seq<bv8>, n: nat)
    requires n < 8 * |s|
  {
    Test(s[n / 8], n % 8)
  }

  function Below(k: nat): bv8
    requires k <= 8
  {
    (0xff as bv8) >> (8 - k)
  }

  function Above(k: nat): bv8
    requires k < 8
  {
    (0xff as bv8) << (k + 1)
  }

  predicate Bits8(k: nat) { k == 0 || k == 1 || k == 2 || k == 3 || k == 4 || k == 5 || k == 6 || k == 7 }

  lemma Masks()
    ensures Mask(0) == 1 && Mask(1) == 2 && Mask(2) == 4 && Mask(3) == 8
    ensures Mask(4) == 16 && Mask(5) == 32 && Mask(6) == 64 && Mask(7) == 128
  {
  }

  lemma SetBit(b: bv8, k: nat, j: nat)
    requires k < 8 && j < 8
    ensures Test(Or(b, Mask(k)), j) == (j == k || Test(b, j))
  {
    Masks();
    assert Bits8(k) && Bits8(j);
  }

  lemma AboveAt(k: nat, j: nat)
    requires k < 8 && j < 8
    ensures Test(Above(k), j) == (j > k)
  {
    Masks();
    assert Bits8(k) && Bits8(j);
  }

  lemma BelowAt(k: nat, j: nat)
    requires k < 8 && j < 8
    ensures Test(Below(k), j) == (j < k)
  {
    Masks();
    assert Bits8(k) && Bits8(j);
  }

  lemma AndAt(b: bv8, c: bv8, j: nat)
    requires j < 8
    ensures Test(And(b, c), j) == (Test(b, j) && Test(c, j))
  {
    hide Mask, And, Or;
    Masks();
    assert Bits8(j);
    SingleBit(b, c, Mask(j));
  }

  lemma SingleBit(b: bv8, c: bv8, m: bv8)
    requires m == 1 || m == 2 || m == 4 || m == 8 || m == 16 || m == 32 || m == 64 || m == 128
    ensures (And(And(b, c), m) != 0) == (And(b, m) != 0 && And(c, m) != 0)
  {
  }

  lemma OrAt(b: bv8, c: bv8, j: nat)
    requires j < 8
    ensures Test(Or(b, c), j) == (Test(b, j) || Test(c, j))
  {
    hide Mask, And, Or;
    EitherBit(b, c, Mask(j));
  }

  lemma EitherBit(b: bv8, c: bv8, m: bv8)
    ensures (And(Or(b, c), m) != 0) == (And(b, m) != 0 || And(c, m) != 0)
  {
  }

  lemma Ends(j: nat)
    requires j < 8
    ensures !Test(0, j) && Test(0xff, j)
  {
    Masks();
    assert Bits8(j);
  }

  // What bit_nclear leaves of byte i when clearing bits first..last of the block.
  function ClearByte(b: bv8, i: nat, first: nat, last: nat): bv8
    requires first <= last
  {
    if i < first / 8 || i > last / 8 then b
    else if first / 8 == last / 8 then And(b, Or(Below(first % 8), Above(last % 8)))
    else if i == first / 8 then And(b, Below(first % 8))
    else if i == last / 8 then And(b, Above(last % 8))
    else 0
  }

  lemma ClearByteAt(b: bv8, i: nat, first: nat, last: nat, j: nat)
    requires first <= last && j < 8
    ensures Test(ClearByte(b, i, first, last), j) == (Test(b, j) && !(first <= 8 * i + j <= last))
  {
    hide And, Or, Test, Below, Above;
    var lo, hi := Below(first % 8), Above(last % 8);
    BelowAt(first % 8, j);
    AboveAt(last % 8, j);
    AndAt(b, lo, j);
    AndAt(b, hi, j);
    AndAt(b, Or(lo, hi), j);
    OrAt(lo, hi, j);
    Ends(j);
  }

  lemma ClearedBits(was: seq<bv8>, now: seq<bv8>, first: nat, last: nat)
    requires first <= last && |now| == |was| && forall i :: 0 <= i < |was| ==> now[i] == ClearByte(was[i], i, first, last)
    ensures forall n :: 0 <= n < 8 * |was| ==> Bit(now, n) == (Bit(was, n) && !(first <= n <= last))
  {
    hide ClearByte, Test;
    forall n | 0 <= n < 8 * |was|
      ensures Bit(now, n) == (Bit(was, n) && !(first <= n <= last))
    {
      ClearByteAt(was[n / 8], n / 8, first, last, n % 8);
    }
  }

  // What bit_nset makes of byte i when setting bits first..last of the block.
  function SetByte(b: bv8, i: nat, first: nat, last: nat): bv8
    requires first <= last
  {
    if i < first / 8 || i > last / 8 then b
    else if first / 8 == last / 8 then Or(b, And(From(first % 8), UpTo(last % 8)))
    else if i == first / 8 then Or(b, From(first % 8))
    else if i == last / 8 then Or(b, UpTo(last % 8))
    else 0xff
  }

  function From(k: nat): bv8
    requires k < 8
  {
    (0xff as bv8) << k
  }

  function UpTo(k: nat): bv8
    requires k < 8
  {
    (0xff as bv8) >> (7 - k)
  }

  lemma FromAt(k: nat, j: nat)
    requires k < 8 && j < 8
    ensures Test(From(k), j) == (j >= k)
  {
    Masks();
    assert Bits8(k) && Bits8(j);
  }

  lemma UpToAt(k: nat, j: nat)
    requires k < 8 && j < 8
    ensures Test(UpTo(k), j) == (j <= k)
  {
    Masks();
    assert Bits8(k) && Bits8(j);
  }

  lemma SetByteAt(b: bv8, i: nat, first: nat, last: nat, j: nat)
    requires first <= last && j < 8
    ensures Test(SetByte(b, i, first, last), j) == (Test(b, j) || first <= 8 * i + j <= last)
  {
    hide And, Or, Test, From, UpTo;
    var lo, hi := From(first % 8), UpTo(last % 8);
    FromAt(first % 8, j);
    UpToAt(last % 8, j);
    OrAt(b, lo, j);
    OrAt(b, hi, j);
    OrAt(b, And(lo, hi), j);
    AndAt(lo, hi, j);
    Ends(j);
  }

  lemma SetBits(was: seq<bv8>, now: seq<bv8>, first: nat, last: nat)
    requires first <= last && |now| == |was| && forall i :: 0 <= i < |was| ==> now[i] == SetByte(was[i], i, first, last)
    ensures forall n :: 0 <= n < 8 * |was| ==> Bit(now, n) == (Bit(was, n) || first <= n <= last)
  {
    hide SetByte, Test;
    forall n | 0 <= n < 8 * |was|
      ensures Bit(now, n) == (Bit(was, n) || first <= n <= last)
    {
      SetByteAt(was[n / 8], n / 8, first, last, n % 8);
    }
  }

  // bit_set on the bit string that starts at byte `at`.
  method Set(block: array<bv8>, at: nat, bit: nat)
    requires 8 * at + bit < 8 * block.Length
    modifies block
    ensures forall n :: 0 <= n < 8 * block.Length ==>
              Bit(block[..], n) == (old(Bit(block[..], n)) || n == 8 * at + bit)
  {
    hide And, Or, Test, Mask;
    ghost var was := block[..];
    var i := at + bit / 8;
    block[i] := Or(block[i], Mask(bit % 8));
    forall n | 0 <= n < 8 * block.Length
      ensures Bit(block[..], n) == (Bit(was, n) || n == 8 * at + bit)
    {
      SetBit(was[i], bit % 8, n % 8);
    }
  }

  // bit_nclear: exactly the bits start..stop, both ends included, are cleared.
  method Nclear(block: array<bv8>, at: nat, start: nat, stop: nat)
    requires start <= stop && 8 * at + stop < 8 * block.Length
    modifies block
    ensures forall n :: 0 <= n < 8 * block.Length ==>
              Bit(block[..], n) == (old(Bit(block[..], n)) && !(8 * at + start <= n <= 8 * at + stop))
  {
    hide And, Or, Test, Below, Above;
    ghost var was := block[..];
    var startByte, stopByte := at + start / 8, at + stop / 8;
    if startByte == stopByte {
      block[startByte] := And(block[startByte], Or(Below(start % 8), Above(stop % 8)));
    } else {
      block[startByte] := And(block[startByte], Below(start % 8));
      startByte := startByte + 1;
      while startByte < stopByte
        invariant at + start / 8 < startByte <= stopByte
        invariant forall i :: 0 <= i < block.Length && !(at + start / 8 <= i < startByte) ==> block[i] == was[i]
        invariant forall i :: at + start / 8 < i < startByte ==> block[i] == 0
        invariant block[at + start / 8] == And(was[at + start / 8], Below(start % 8))
      {
        block[startByte] := 0;
        startByte := startByte + 1;
      }
      block[stopByte] := And(block[stopByte], Above(stop % 8));
    }
    ClearedBits(was, block[..], 8 * at + start, 8 * at + stop);
  }

  // bit_nset: exactly the bits start..stop, both ends included, are set.
  method Nset(block: array<bv8>, at: nat, start: nat, stop: nat)
    requires start <= stop && 8 * at + stop < 8 * block.Length
    modifies block
    ensures forall n :: 0 <= n < 8 * block.Length ==>
              Bit(block[..], n) == (old(Bit(block[..], n)) || 8 * at + start <= n <= 8 * at + stop)
  {
    hide And, Or, Test, From, UpTo;
    ghost var was := block[..];
    var startByte, stopByte := at + start / 8, at + stop / 8;
    if startByte == stopByte {
      block[startByte] := Or(block[startByte], And(From(start % 8), UpTo(stop % 8)));
    } else {
      block[startByte] := Or(block[startByte], From(start % 8));
      startByte := startByte + 1;
      while startByte < stopByte
        invariant at + start / 8 < startByte <= stopByte
        invariant forall i :: 0 <= i < block.Length && !(at + start / 8 <= i < startByte) ==> block[i] == was[i]
        invariant forall i :: at + start / 8 < i < startByte ==> block[i] == 0xff
        invariant block[at + start / 8] == Or(was[at + start / 8], From(start % 8))
      {
        block[startByte] := 0xff;
        startByte := startByte + 1;
      }
      block[stopByte] := Or(block[stopByte], UpTo(stop % 8));
    }
    SetBits(was, block[..], 8 * at + start, 8 * at + stop);
  }
}
