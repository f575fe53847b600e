/** The md5_ctx object of md5.c: chaining registers, byte counter and a 128-byte buffer. */
module Md5 {
  import opened Bytes
  import opened Md5Words
  import opened Md5Block
  import opened Md5Stream

  // One turn of the loop of md5_process_block: four unrolled rounds, then the sums.
  method Absorb(block: seq<Byte>, r: Regs) returns (out: Regs)
    requires |block| == 64
    ensures out == Compress(r, block)
  {
    hide Steps, Words, Add;
    var x := Words(block);
    assert Steps(x, r, 0) == r by { NoSteps(x, r); }
    var s := Round1(x, r, r);
    s := Round2(x, r, s);
    s := Round3(x, r, s);
    s := Round4(x, r, s);
    out := Regs(Add(s.a, r.a), Add(s.b, r.b), Add(s.c, r.c), Add(s.d, r.d));
  }

  lemma NoSteps(x: seq<Word>, r: Regs)
    requires |x| == 16
    ensures Steps(x, r, 0) == r
  {
  }

  // The registers as the sixteen bytes md5_read_ctx writes.
  function DigestBytes(r: Regs): seq<Byte> {
    LittleEndian(r.a) + LittleEndian(r.b) + LittleEndian(r.c) + LittleEndian(r.d)
  }

  lemma {:induction false} FoldOne(r: Regs, a: seq<Byte>, b: seq<Byte>)
    requires |a| % 64 == 0 && |b| == 64
    ensures Fold(r, a + b) == Compress(Fold(r, a), b)
  {
    hide Compress;
    FoldConcat(r, a, b);
    assert b[..64] == b && b[64..] == [];
    var p := Fold(r, a);
    assert Fold(p, b) == Fold(Compress(p, b), []);
  }

  lemma WholeBlocks(a: nat, b: nat)
    requires a % 64 == 0 && b % 64 == 0
    ensures (a + b) % 64 == 0
  {
  }

  // The loop of md5_process_block.
  method AbsorbAll(r: Regs, ghost done: seq<Byte>, data: seq<Byte>) returns (out: Regs)
    requires |done| % 64 == 0 && |data| % 64 == 0 && r == Fold(START, done)
    ensures out == Fold(START, done + data)
  {
    hide Compress, Fold;
    out := r;
    var k := 0;
    assert done + data[..0] == done;
    while k < |data|
      invariant 0 <= k <= |data| && k % 64 == 0
      invariant out == Fold(START, done + data[..k])
    {
      WholeBlocks(|done|, k);
      FoldOne(START, done + data[..k], data[k..k + 64]);
      assert done + data[..k] + data[k..k + 64] == done + data[..k + 64];
      out := Absorb(data[k..k + 64], out);
      k := k + 64;
    }
    assert data[..k] == data;
  }

  lemma PadSame(n: nat, k: nat)
    requires n % 64 == 0 && k <= 64
    ensures PadLength(n + k) == PadLength(k) && k + PadLength(k) + 8 <= 128 && (k + PadLength(k) + 8) % 64 == 0
  {
    assert (n + k) % 64 == k % 64;
  }

  // Buffered bytes, padding and length are the padding of the whole message.
  lemma PaddedSplit(done: seq<Byte>, rest: seq<Byte>)
    requires |done| % 64 == 0 && |rest| <= 64
    ensures var bits := 8 * |done + rest| % 0x1_0000_0000_0000_0000;
            Padded(done + rest) == done + (rest + Trailer(PadLength(|rest|), bits))
  {
    hide Trailer, PadLength;
    PadSame(|done|, |rest|);
  }

  class Context {
    var regs: Regs
    var total0: nat
    var total1: nat
    var buflen: nat
    const buffer: array<Byte>
    // The bytes whose blocks are already folded into the registers.
    ghost var done: seq<Byte>

    ghost predicate Folded()
      reads this
    {
      buffer.Length == 128 && |done| % 64 == 0 && regs == Fold(START, done) && total0 < TWO32 && total1 < TWO32
    }

    ghost predicate Counted()
      reads this
    {
      Counts(total0, total1, |done|)
    }

    ghost predicate Valid()
      reads this
    {
      Folded() && Counted() && buflen <= 64
    }

    // Everything taken in so far.
    ghost function Message(): seq<Byte>
      reads this, buffer
      requires Valid()
    {
      done + buffer[..buflen]
    }

    // md5_init_ctx
    constructor ()
      ensures Valid() && Message() == [] && fresh(buffer)
    {
      regs, total0, total1, buflen, done := START, 0, 0, 0, [];
      buffer := new Byte[128](_ => 0);
    }

    // memcpy into the buffer
    method Copy(at: nat, data: seq<Byte>)
      requires buffer.Length == 128 && at + |data| <= 128
      modifies buffer
      ensures buffer[..at + |data|] == old(buffer[..at]) + data
    {
      forall i | 0 <= i < |data| { buffer[at + i] := data[i]; }
    }

    // Count len more bytes; the low word has wrapped when it ends up below what was added.
    method AddTotal(len: nat)
      requires Folded() && len < TWO32
      modifies this`total0, this`total1
      ensures (total0, total1) == old(Carry(total0, total1, len)) && Folded()
    {
      hide Fold, Compress;
      total0 := (total0 + len) % TWO32;
      if total0 < len { total1 := (total1 + 1) % TWO32; }
    }

    // md5_process_block on whole blocks; the count is carried into the second word.
    method ProcessBlock(data: seq<Byte>)
      requires Folded() && |data| % 64 == 0 && |data| < TWO32
      modifies this`regs, this`total0, this`total1, this`done
      ensures Folded() && done == old(done) + data
      ensures old(Counted()) ==> Counted()
    {
      hide Compress, Fold, Carry, Counts;
      if Counted() { CountMore(total0, total1, |done|, |data|); }
      AddTotal(|data|);
      var r := AbsorbAll(regs, done, data);
      WholeBlocks(|done|, |data|);
      regs, done := r, done + data;
    }

    // Fold the whole blocks of the first `have` buffered bytes, move the rest to the front.
    method Spill(have: nat)
      requires Valid() && 64 < have <= 128
      modifies this, buffer
      ensures Valid() && Message() == old(done + buffer[..have]) && buflen == have % 64
    {
      hide Fold, Counts;
      var whole := have - have % 64;
      var blocks, rest := buffer[..whole], buffer[whole..have];
      assert buffer[..have] == blocks + rest;
      ProcessBlock(blocks);
      Copy(0, rest);
      buflen := have % 64;
    }

    // The first half of md5_process_bytes: top up a non-empty buffer.
    method TopUp(data: seq<Byte>) returns (add: nat)
      requires Valid() && 0 < buflen
      modifies this, buffer
      ensures Valid() && add <= |data| && Message() == old(Message()) + data[..add]
      ensures add < |data| ==> buflen == 0
    {
      hide Fold, Counts;
      ghost var was := Message();
      var left := buflen;
      add := if 128 - left > |data| then |data| else 128 - left;
      Copy(left, data[..add]);
      assert done + buffer[..left + add] == was + data[..add];
      if left + add > 64 {
        Spill(left + add);
      } else {
        buflen := left + add;
      }
    }

    // The second half: whole blocks straight from the input, the rest into the buffer.
    method TakeRest(data: seq<Byte>)
      requires Valid() && |data| < TWO32 && (data != [] ==> buflen == 0)
      modifies this, buffer
      ensures Valid() && Message() == old(Message()) + data
    {
      hide Fold, Counts;
      ghost var was := Message();
      var rest := data;
      if |rest| > 64 {
        var whole := |rest| - |rest| % 64;
        ProcessBlock(rest[..whole]);
        rest := rest[whole..];
      }
      assert done + buffer[..buflen] + rest == was + data;
      if |rest| > 0 {
        Copy(0, rest);
        buflen := |rest|;
      }
    }

    // md5_process_bytes: the message grows by exactly the bytes given.
    method ProcessBytes(data: seq<Byte>)
      requires Valid() && |data| < TWO32
      modifies this, buffer
      ensures Valid() && Message() == old(Message()) + data
    {
      hide *;
      var rest := data;
      if buflen != 0 {
        var add := TopUp(data);
        rest := data[add..];
        assert data == data[..add] + rest;
      }
      TakeRest(rest);
    }

    // md5_finish_ctx: count the buffered bytes, pad, store the length in bits, fold what is left.
    method Finish() returns (digest: seq<Byte>)
      requires Valid()
      modifies this, buffer
      ensures digest == DigestBytes(Digest(old(Message())))
    {
      hide Fold, Carry, Counts, PadLength, LittleEndian, Padded, DigestBytes;
      ghost var msg := Message();
      PaddedSplit(done, buffer[..buflen]);
      CountMore(total0, total1, |done|, buflen);
      PadSame(|done|, buflen);
      var bytes := buflen;
      AddTotal(bytes);
      var pad := FinishPad(bytes);
      LengthField(total0, total1, |msg|);
      Close(bytes, pad);
      ProcessBlock(buffer[..bytes + pad + 8]);
      digest := DigestBytes(regs);
    }

    method FinishPad(bytes: nat) returns (pad: nat)
      requires bytes <= 64
      ensures pad == PadLength(bytes)
    {
      pad := if bytes >= 56 then 64 + 56 - bytes else 56 - bytes;
    }

    // Fill with one 1 bit and zeros, then the two words of the length.
    method Close(bytes: nat, pad: nat)
      requires buffer.Length == 128 && 1 <= pad && bytes + pad + 8 <= 128 && total0 < TWO32 && HighBits(total0, total1) < TWO32
      modifies buffer
      ensures buffer[..bytes + pad + 8]
              == old(buffer[..bytes]) + Trailer(pad, LowBits(total0) + TWO32 * HighBits(total0, total1))
    {
      hide LowBits, HighBits, LittleEndian;
      var lo, hi := Low(total0), HighBits(total0, total1);
      ghost var bits := lo + TWO32 * hi;
      assert bits % TWO32 == lo && bits / TWO32 == hi;
      Copy(bytes, [0x80] + Zeros(pad - 1));
      Copy(bytes + pad, LittleEndian(lo));
      Copy(bytes + pad + 4, LittleEndian(hi));
    }
  }

  function Low(t0: nat): (w: Word)
    ensures w == LowBits(t0)
  {
    LowBits(t0)
  }

  // md5_buffer
  method Buffer(data: seq<Byte>) returns (digest: seq<Byte>)
    requires |data| < TWO32
    ensures digest == DigestBytes(Digest(data))
  {
    hide *;
    var ctx := new Context();
    ctx.ProcessBytes(data);
    assert [] + data == data;
    digest := ctx.Finish();
  }

  function Concat(chunks: seq<seq<Byte>>): seq<Byte> {
    if chunks == [] then [] else Concat(chunks[..|chunks| - 1]) + chunks[|chunks| - 1]
  }

  // Any run of md5_process_bytes calls: only the concatenation matters, not where it is cut.
  method Chunked(chunks: seq<seq<Byte>>) returns (digest: seq<Byte>)
    requires forall k :: 0 <= k < |chunks| ==> |chunks[k]| < TWO32
    ensures digest == DigestBytes(Digest(Concat(chunks)))
  {
    hide Digest, DigestBytes;
    var ctx := new Context();
    for k := 0 to |chunks|
      invariant ctx.Valid() && ctx.Message() == Concat(chunks[..k])
      invariant fresh(ctx) && fresh(ctx.buffer)
    {
      ctx.ProcessBytes(chunks[k]);
      assert chunks[..k + 1][..k] == chunks[..k];
    }
    assert chunks[..|chunks|] == chunks;
    digest := ctx.Finish();
  }
}
