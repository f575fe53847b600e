/** Domain names on the wire: what section 4.1.4 of RFC 1035 says a packet spells at an offset,
    and the decoder of rfc1035.c proved to compute exactly that on every packet. */
module DnsNames {
  import opened Bytes

  // arpa/nameser.h; nothing below depends on the value.
  const MAXDNAME := 1025

  const MAX_HOPS := 255

  const DOT: Byte := 46

  // tolower in the C locale.
  function Lower(b: Byte): Byte { if 65 <= b <= 90 then b + 32 else b }

  // Two bytes are the same letter or the same byte.
  lemma LowerSame(a: Byte, b: Byte)
    ensures Lower(a) == Lower(b) <==> a == b || (65 <= a <= 90 && b == a + 32) || (65 <= b <= 90 && a == b + 32)
  {
  }

  function LowerAll(s: seq<Byte>): (t: seq<Byte>)
    ensures |t| == |s| && forall i :: 0 <= i < |s| ==> t[i] == Lower(s[i])
  {
    seq(|s|, i requires 0 <= i < |s| => Lower(s[i]))
  }

  // Both top bits of the length byte are set.
  predicate IsPointer(l: Byte) { l >= 0xc0 }

  // The fourteen bits after the two pointer bits.
  function Target(pkt: seq<Byte>, off: nat): nat
    requires off + 1 < |pkt|
  {
    (pkt[off] as int) % 64 * 256 + pkt[off + 1] as int
  }

  /** The packet spells the labels at `off`, following exactly `jumps` pointers. A label and
      the byte after it lie inside the packet's length, and so does the byte after a pointer.
      Like the code, this reads the reserved length bytes 0x40 to 0xbf as plain lengths. */
  ghost predicate Spells(pkt: seq<Byte>, plen: nat, off: nat, jumps: nat, labels: seq<seq<Byte>>)
    requires plen <= |pkt|
    decreases jumps, |labels|
  {
    && off < |pkt|
    && var l := pkt[off];
       if l == 0 then labels == [] && jumps == 0
       else if IsPointer(l) then
         && jumps > 0 && off + 2 < plen && Target(pkt, off) < plen
         && Spells(pkt, plen, Target(pkt, off), jumps - 1, labels)
       else
         && labels != [] && off + 1 + l < plen
         && labels[0] == LowerAll(pkt[off + 1..off + 1 + l])
         && Spells(pkt, plen, off + 1 + l, jumps, labels[1..])
  }

  // The labels, each followed by a dot.
  function Dotted(labels: seq<seq<Byte>>): seq<Byte> {
    if labels == [] then [] else Dotted(labels[..|labels| - 1]) + labels[|labels| - 1] + [DOT]
  }

  // Where the encoding that starts at `off` ends, without following pointers.
  function End(pkt: seq<Byte>, off: nat): nat
    decreases |pkt| - off
  {
    if off >= |pkt| || pkt[off] == 0 then off + 1
    else if IsPointer(pkt[off]) then off + 2
    else End(pkt, off + 1 + pkt[off])
  }

  // A packet spells at most one name at an offset.
  lemma {:induction false} SpellsUnique(pkt: seq<Byte>, plen: nat, off: nat,
                                        j: nat, ls: seq<seq<Byte>>, k: nat, ms: seq<seq<Byte>>)
    requires plen <= |pkt| && Spells(pkt, plen, off, j, ls) && Spells(pkt, plen, off, k, ms)
    ensures j == k && ls == ms
    decreases j, |ls|
  {
    var l := pkt[off];
    if l == 0 {
    } else if IsPointer(l) {
      SpellsUnique(pkt, plen, Target(pkt, off), j - 1, ls, k - 1, ms);
    } else {
      SpellsUnique(pkt, plen, off + 1 + l, j, ls[1..], k, ms[1..]);
      assert ls == [ls[0]] + ls[1..] && ms == [ms[0]] + ms[1..];
    }
  }

  // The name exists within the decoder's limits.
  ghost predicate Names(pkt: seq<Byte>, plen: nat, off: nat, jumps: nat, labels: seq<seq<Byte>>)
    requires plen <= |pkt|
  {
    Spells(pkt, plen, off, jumps, labels) && jumps <= MAX_HOPS && |Dotted(labels)| < MAXDNAME
  }

  // ---- the decoder

  // After `hops` jumps and the labels `done` the rest of the name is spelled at `off`.
  ghost predicate Leads(pkt: seq<Byte>, plen: nat, start: nat, hops: nat, done: seq<seq<Byte>>, off: nat)
    requires plen <= |pkt|
  {
    forall j: nat, ls :: Spells(pkt, plen, start, j, ls) <==>
      j >= hops && |ls| >= |done| && ls[..|done|] == done && Spells(pkt, plen, off, j - hops, ls[|done|..])
  }

  lemma LeadsStart(pkt: seq<Byte>, plen: nat, start: nat)
    requires plen <= |pkt|
    ensures Leads(pkt, plen, start, 0, [], start)
  {
    forall j: nat, ls: seq<seq<Byte>>
      ensures Spells(pkt, plen, start, j, ls) <==> ls[..0] == [] && Spells(pkt, plen, start, j - 0, ls[0..])
    {
      assert ls[0..] == ls;
    }
  }

  lemma {:induction false} LeadsJump(pkt: seq<Byte>, plen: nat, start: nat, hops: nat, done: seq<seq<Byte>>, off: nat)
    requires plen <= |pkt| && Leads(pkt, plen, start, hops, done, off)
    requires off + 2 < plen && IsPointer(pkt[off]) && Target(pkt, off) < plen
    ensures Leads(pkt, plen, start, hops + 1, done, Target(pkt, off))
  {
  }

  lemma {:induction false} LeadsLabel(pkt: seq<Byte>, plen: nat, start: nat, hops: nat, done: seq<seq<Byte>>, off: nat)
    requires plen <= |pkt| && Leads(pkt, plen, start, hops, done, off)
    requires off < plen && 0 < pkt[off] && !IsPointer(pkt[off]) && off + 1 + pkt[off] < plen
    ensures Leads(pkt, plen, start, hops, done + [LowerAll(pkt[off + 1..off + 1 + pkt[off]])], off + 1 + pkt[off])
  {
    var word, next := LowerAll(pkt[off + 1..off + 1 + pkt[off]]), off + 1 + pkt[off];
    var more := done + [word];
    forall j: nat, ls: seq<seq<Byte>>
      ensures Spells(pkt, plen, start, j, ls) <==>
        j >= hops && |ls| >= |more| && ls[..|more|] == more && Spells(pkt, plen, next, j - hops, ls[|more|..])
    {
      if |ls| > |done| {
        var rest := ls[|done|..];
        assert rest[1..] == ls[|more|..];
        assert ls[..|more|] == ls[..|done|] + [rest[0]];
      }
    }
  }

  // A name that goes on here takes more room than what has been decoded.
  lemma {:induction false} DottedPrefix(done: seq<seq<Byte>>, ls: seq<seq<Byte>>)
    requires |done| <= |ls| && ls[..|done|] == done
    ensures |Dotted(done)| <= |Dotted(ls)|
    decreases |ls|
  {
    if |done| < |ls| {
      var i := ls[..|ls| - 1];
      assert i[..|done|] == ls[..|done|];
      DottedPrefix(done, i);
    } else {
      assert ls[..|done|] == ls;
    }
  }

  lemma DottedSnoc(done: seq<seq<Byte>>, word: seq<Byte>)
    ensures Dotted(done + [word]) == Dotted(done) + word + [DOT]
  {
    assert (done + [word])[..|done|] == done;
  }

  // No name within the limits starts at `start`.
  ghost predicate NoName(pkt: seq<Byte>, plen: nat, start: nat)
    requires plen <= |pkt|
  {
    forall j: nat, ls :: !Names(pkt, plen, start, j, ls)
  }

  datatype Decoded =
    | Bad
    // cursor after the encoding; the text, without its last dot
    | Text(next: nat, text: seq<Byte>)
    // the root name: dropping the last dot of an empty text writes one byte in front of the caller's buffer
    | Underrun(next: nat)

  /** extract_name in extract mode. The packet's memory extends beyond its length `plen`,
      because the first length byte is read before any bound is checked. */
  method ExtractName(pkt: seq<Byte>, plen: nat, start: nat) returns (r: Decoded)
    requires plen <= |pkt| && start < |pkt|
    ensures r.Bad? <==> NoName(pkt, plen, start)
    ensures !r.Bad? ==> r.next == End(pkt, start)
    ensures forall j: nat, ls :: Names(pkt, plen, start, j, ls) ==>
              if ls == [] then r.Underrun? else r.Text? && r.text + [DOT] == Dotted(ls)
  {
    hide Spells, Leads, Names, Dotted, End, LowerAll;
    var p, hops := start, 0;
    var p1: int := -1;
    var text: seq<Byte> := [];
    ghost var done: seq<seq<Byte>> := [];
    LeadsStart(pkt, plen, start);
    EndStep(pkt, start);
    var l := pkt[p];
    while l != 0
      invariant p < |pkt| && l == pkt[p] && (p == start || p < plen)
      invariant 0 <= hops <= MAX_HOPS && text == Dotted(done) && |text| < MAXDNAME
      invariant Leads(pkt, plen, start, hops, done, p)
      invariant if p1 < 0 then hops == 0 && End(pkt, start) == End(pkt, p) else p1 == End(pkt, start)
      decreases MAX_HOPS - hops, |pkt| - p
    {
      EndStep(pkt, p);
      if IsPointer(l) {
        if p + 2 >= plen {
          BadPointer(pkt, plen, start, hops, done, p);
          return Bad;
        }
        var off := Target(pkt, p);
        if off >= plen {
          BadPointer(pkt, plen, start, hops, done, p);
          return Bad;
        }
        if p1 < 0 {
          p1 := p + 2;
        }
        LeadsJump(pkt, plen, start, hops, done, p);
        hops := hops + 1;
        if hops > MAX_HOPS {
          TooFar(pkt, plen, start, hops, done, off);
          return Bad;
        }
        p := off;
      } else {
        if |text| + l + 1 >= MAXDNAME || p + 1 + l >= plen {
          TooLong(pkt, plen, start, hops, done, p);
          return Bad;
        }
        ghost var word := LowerAll(pkt[p + 1..p + 1 + l]);
        LeadsLabel(pkt, plen, start, hops, done, p);
        DottedSnoc(done, word);
        text := CopyLabel(pkt, p + 1, l, text);
        text := text + [DOT];
        done := done + [word];
        p := p + 1 + l;
      }
      l := pkt[p];
    }
    EndStep(pkt, p);
    Arrived(pkt, plen, start, hops, done, p);
    if text == [] {
      r := Underrun(if p1 < 0 then p + 1 else p1);
    } else {
      r := Text(if p1 < 0 then p + 1 else p1, text[..|text| - 1]);
    }
  }

  method CopyLabel(pkt: seq<Byte>, p: nat, l: nat, text: seq<Byte>) returns (out: seq<Byte>)
    requires p + l <= |pkt|
    ensures out == text + LowerAll(pkt[p..p + l])
  {
    out := text;
    for j := 0 to l
      invariant out == text + LowerAll(pkt[p..p + l])[..j]
    {
      out := out + [Lower(pkt[p + j])];
    }
  }

  lemma EndStep(pkt: seq<Byte>, off: nat)
    requires off < |pkt|
    ensures End(pkt, off) == if pkt[off] == 0 then off + 1
                             else if IsPointer(pkt[off]) then off + 2
                             else End(pkt, off + 1 + pkt[off])
    ensures Dotted([]) == []
  {
  }

  lemma {:induction false} BadPointer(pkt: seq<Byte>, plen: nat, start: nat, hops: nat, done: seq<seq<Byte>>, off: nat)
    requires plen <= |pkt| && Leads(pkt, plen, start, hops, done, off)
    requires off < |pkt| && IsPointer(pkt[off]) && (off + 2 >= plen || Target(pkt, off) >= plen)
    ensures NoName(pkt, plen, start)
  {
  }

  lemma {:induction false} TooFar(pkt: seq<Byte>, plen: nat, start: nat, hops: nat, done: seq<seq<Byte>>, off: nat)
    requires plen <= |pkt| && Leads(pkt, plen, start, hops, done, off) && hops > MAX_HOPS
    ensures NoName(pkt, plen, start)
  {
  }

  lemma {:induction false} TooLong(pkt: seq<Byte>, plen: nat, start: nat, hops: nat, done: seq<seq<Byte>>, off: nat)
    requires plen <= |pkt| && Leads(pkt, plen, start, hops, done, off)
    requires off < |pkt| && 0 < pkt[off] && !IsPointer(pkt[off])
    requires |Dotted(done)| + pkt[off] + 1 >= MAXDNAME || off + 1 + pkt[off] >= plen
    ensures NoName(pkt, plen, start)
  {
    forall j: nat, ls ensures !Names(pkt, plen, start, j, ls) {
      if Spells(pkt, plen, start, j, ls) {
        var rest := ls[|done|..];
        assert Spells(pkt, plen, off, j - hops, rest);
        var more := done + [rest[0]];
        assert ls[..|more|] == more;
        DottedSnoc(done, rest[0]);
        DottedPrefix(more, ls);
      }
    }
  }

  lemma {:induction false} Arrived(pkt: seq<Byte>, plen: nat, start: nat, hops: nat, done: seq<seq<Byte>>, off: nat)
    requires plen <= |pkt| && Leads(pkt, plen, start, hops, done, off)
    requires off < |pkt| && pkt[off] == 0 && hops <= MAX_HOPS && |Dotted(done)| < MAXDNAME
    ensures Names(pkt, plen, start, hops, done) && !NoName(pkt, plen, start)
    ensures forall j: nat, ls :: Names(pkt, plen, start, j, ls) ==> j == hops && ls == done
    ensures if done == [] then Dotted(done) == [] else Dotted(done) != [] && Dotted(done)[|Dotted(done)| - 1] == DOT
  {
    assert done[..|done|] == done && done[|done|..] == [];
    assert Spells(pkt, plen, off, 0, []);
    assert Spells(pkt, plen, start, hops, done);
    assert Names(pkt, plen, start, hops, done);
    forall j: nat, ls | Names(pkt, plen, start, j, ls) ensures j == hops && ls == done {
      SpellsUnique(pkt, plen, start, j, ls, hops, done);
    }
  }
}
