/** Whole packets: the two parsers of the question section agree, and what add_text_record
    writes is what the decoder reads back. */
module DnsPackets {
  import opened Bytes
  import opened Options
  import opened DnsNames

  const HEADER_SIZE := 12

  // ---- skip_questions

  // Step over one name, as skip_questions does it.
  function Skim(pkt: seq<Byte>, plen: nat, off: nat): Option<nat>
    requires plen <= |pkt|
    decreases plen - off
  {
    if off >= plen then None
    else if IsPointer(pkt[off]) then Some(off + 2)
    else if pkt[off] == 0 then Some(off + 1)
    else Skim(pkt, plen, off + 1 + pkt[off])
  }

  function Skip(pkt: seq<Byte>, plen: nat, n: nat, off: nat): Option<nat>
    requires plen <= |pkt|
    decreases n
  {
    if n == 0 then if off <= plen then Some(off) else None
    else match Skim(pkt, plen, off)
         case None => None
         case Some(e) => Skip(pkt, plen, n - 1, e + 4)
  }

  method SkipQuestions(pkt: seq<Byte>, plen: nat, qdcount: nat) returns (r: Option<nat>)
    requires plen <= |pkt|
    ensures r == Skip(pkt, plen, qdcount, HEADER_SIZE)
  {
    var ansp: nat, q: nat := HEADER_SIZE, 0;
    while q < qdcount
      invariant 0 <= q <= qdcount
      invariant Skip(pkt, plen, qdcount, HEADER_SIZE) == Skip(pkt, plen, qdcount - q, ansp)
    {
      ghost var here := ansp;
      var done := false;
      while !done
        invariant done ==> Skim(pkt, plen, here) == Some(ansp)
        invariant !done ==> Skim(pkt, plen, here) == Skim(pkt, plen, ansp)
        decreases !done, plen - ansp
      {
        if ansp >= plen {
          return None;
        }
        if IsPointer(pkt[ansp]) {
          ansp := ansp + 2;
          done := true;
        } else if pkt[ansp] != 0 {
          ansp := ansp + pkt[ansp] + 1;
        } else {
          ansp := ansp + 1;
          done := true;
        }
      }
      ansp := ansp + 4;
      q := q + 1;
    }
    r := if ansp > plen then None else Some(ansp);
  }

  // extract_name succeeds at each of n questions in turn, and reaches `last`.
  ghost predicate Parses(pkt: seq<Byte>, plen: nat, n: nat, off: nat, last: nat)
    requires plen <= |pkt|
    decreases n
  {
    if n == 0 then off == last
    else off < |pkt| && !NoName(pkt, plen, off) && Parses(pkt, plen, n - 1, End(pkt, off) + 4, last)
  }

  lemma {:induction false} ParsesForward(pkt: seq<Byte>, plen: nat, n: nat, off: nat, last: nat)
    requires plen <= |pkt| && Parses(pkt, plen, n, off, last)
    ensures off <= last
    decreases n
  {
    if n > 0 {
      EndForward(pkt, off);
      ParsesForward(pkt, plen, n - 1, End(pkt, off) + 4, last);
    }
  }

  lemma {:induction false} EndForward(pkt: seq<Byte>, off: nat)
    ensures End(pkt, off) > off
    decreases |pkt| - off
  {
    if off < |pkt| && pkt[off] != 0 && !IsPointer(pkt[off]) { EndForward(pkt, off + 1 + pkt[off]); }
  }

  // Where a name is spelled, skimming ends where its encoding ends.
  lemma {:induction false} SkimEnd(pkt: seq<Byte>, plen: nat, off: nat, j: nat, ls: seq<seq<Byte>>)
    requires plen <= |pkt| && Spells(pkt, plen, off, j, ls) && off < plen
    ensures Skim(pkt, plen, off) == Some(End(pkt, off))
    decreases |ls|
  {
    if pkt[off] != 0 && !IsPointer(pkt[off]) { SkimEnd(pkt, plen, off + 1 + pkt[off], j, ls[1..]); }
  }

  /** The two parsers agree: whenever extract_name succeeds on every question in turn,
      skip_questions returns the offset reached after the last one, unless that lies beyond
      the packet, in which case it reports a bad packet. */
  lemma {:induction false} ParsersAgree(pkt: seq<Byte>, plen: nat, n: nat, off: nat, last: nat)
    requires plen <= |pkt| && Parses(pkt, plen, n, off, last)
    ensures Skip(pkt, plen, n, off) == if last <= plen then Some(last) else None
    decreases n
  {
    if n > 0 {
      var e := End(pkt, off);
      EndForward(pkt, off);
      ParsesForward(pkt, plen, n - 1, e + 4, last);
      if off < plen {
        var j: nat, ls :| Names(pkt, plen, off, j, ls);
        SkimEnd(pkt, plen, off, j, ls);
        ParsersAgree(pkt, plen, n - 1, e + 4, last);
      }
    }
  }

  // ---- add_text_record

  // PUTSHORT and PUTLONG: big-endian, truncated to 16 and 32 bits.
  function Short(x: nat): seq<Byte> { [x / 256 % 256, x % 256] }

  function Long(x: nat): seq<Byte> { Short(x / 65536) + Short(x) }

  // Length of the first label of a dotted name.
  function Head(name: seq<Byte>): (n: nat)
    ensures n <= |name| && (n < |name| ==> name[n] == DOT) && DOT !in name[..n]
  {
    if name == [] || name[0] == DOT then 0 else
      var n := Head(name[1..]);
      assert name[..1 + n] == [name[0]] + name[1..][..n];
      1 + n
  }

  // The labels of a name, each after its length byte, and the final zero.
  function Encode(name: seq<Byte>): seq<Byte>
    decreases |name|
  {
    if name == [] then [0]
    else
      var n := Head(name);
      [n % 256] + name[..n] + Encode(if n < |name| then name[n + 1..] else [])
  }

  // Class and types, as section 3.2 of RFC 1035 and its successors number them.
  const C_IN := 1
  const T_A := 1
  const T_CNAME := 5
  const T_SOA := 6
  const T_PTR := 12
  const T_MX := 15
  const T_AAAA := 28
  const T_SRV := 33
  const T_ANY := 255

  function RecordBytes(owner: nat, ttl: nat, pref: nat, rtype: nat, name: seq<Byte>): seq<Byte> {
    var rdata := (if pref != 0 then Short(pref) else []) + Encode(name);
    Fixed(owner, ttl, rtype) + Short(|rdata|) + rdata
  }

  class Packet {
    var data: array<Byte>

    constructor (size: nat)
      ensures data.Length == size && fresh(data)
    {
      data := new Byte[size](i => 0);
    }

    method Put(bytes: seq<Byte>, p: nat) returns (q: nat)
      requires p + |bytes| <= data.Length
      modifies data
      ensures q == p + |bytes| && data[..] == Splice(old(data[..]), p, bytes)
    {
      q := p + |bytes|;
      for i := 0 to |bytes|
        invariant forall k :: 0 <= k < data.Length ==>
                    data[k] == if p <= k < p + i then bytes[k - p] else old(data[k])
      {
        data[p + i] := bytes[i];
      }
    }

    // The name loop of add_text_record: each label is copied behind a hole that then gets its length.
    method PutName(name: seq<Byte>, p: nat) returns (q: nat)
      requires p + |Encode(name)| <= data.Length
      modifies data
      ensures q == p + |Encode(name)| && data[..] == Splice(old(data[..]), p, Encode(name))
    {
      var rest: seq<Byte> := name;
      q := p;
      ghost var mem: seq<Byte>, written: seq<Byte> := data[..], [];
      SpliceNothing(mem, p);
      assert [] + Encode(name) == Encode(name);
      while rest != []
        invariant q == p + |written| && written + Encode(rest) == Encode(name)
        invariant data[..] == Splice(mem, p, written)
        decreases |rest|
      {
        var n := Head(rest);
        var bytes: seq<Byte> := [n % 256] + rest[..n];
        SpliceMore(mem, p, written, bytes, Encode(if n < |rest| then rest[n + 1..] else []));
        q := Put(bytes, q);
        written := written + bytes;
        rest := if n < |rest| then rest[n + 1..] else [];
      }
      var zero: seq<Byte> := [0];
      SpliceMore(mem, p, written, zero, []);
      q := Put(zero, q);
    }

    /** add_text_record: owner pointer, type, class, TTL, a length filled in afterwards, an
        optional preference, and the name as labels. Nothing else in the packet changes. */
    method AddTextRecord(owner: nat, p: nat, ttl: nat, pref: nat, rtype: nat, name: seq<Byte>) returns (q: nat)
      requires p + |RecordBytes(owner, ttl, pref, rtype, name)| <= data.Length
      modifies data
      ensures q == p + |RecordBytes(owner, ttl, pref, rtype, name)|
      ensures data[..] == Splice(old(data[..]), p, RecordBytes(owner, ttl, pref, rtype, name))
    {
      hide Encode, Long, Short, Splice;
      var front := Fixed(owner, ttl, rtype);
      var extra := if pref != 0 then Short(pref) else [];
      ghost var mem, n := data[..], Encode(name);
      RecordParts(owner, ttl, pref, rtype, name, mem, p);
      q := Put(front, p);
      var sav := q;
      q := Put(Short(0), q);
      q := Put(extra, q);
      q := PutName(name, q);
      var _ := Put(Short(q - sav - 2), sav);
    }
  }

  function Fixed(owner: nat, ttl: nat, rtype: nat): seq<Byte> {
    Short(owner % 16384 + 0xc000) + Short(rtype) + Short(C_IN) + Long(ttl)
  }

  // mem with `bytes` written over it from p on.
  function Splice(mem: seq<Byte>, p: nat, bytes: seq<Byte>): (out: seq<Byte>)
    requires p + |bytes| <= |mem|
    ensures |out| == |mem|
    ensures forall k :: 0 <= k < |mem| ==> out[k] == if p <= k < p + |bytes| then bytes[k - p] else mem[k]
  {
    mem[..p] + bytes + mem[p + |bytes|..]
  }

  lemma SpliceNothing(mem: seq<Byte>, p: nat)
    requires p <= |mem|
    ensures Splice(mem, p, []) == mem
  {
  }

  lemma SpliceAt(mem: seq<Byte>, p: nat, bytes: seq<Byte>, i: nat)
    requires p + |bytes| <= |mem| && i < |bytes|
    ensures Splice(mem, p, bytes)[p + i] == bytes[i]
    ensures Splice(mem, p, bytes)[..p] == mem[..p] && Splice(mem, p, bytes)[p..p + |bytes|] == bytes
  {
  }

  lemma {:induction false} SpliceMore(mem: seq<Byte>, p: nat, a: seq<Byte>, b: seq<Byte>, c: seq<Byte>)
    requires p + |a| + |b| + |c| <= |mem|
    ensures Splice(Splice(mem, p, a), p + |a|, b) == Splice(mem, p, a + b)
    ensures a + (b + c) == (a + b) + c
  {
  }

  // The four pieces written in order, then the length written over its placeholder.
  lemma {:induction false} RecordParts(owner: nat, ttl: nat, pref: nat, rtype: nat, name: seq<Byte>, mem: seq<Byte>, p: nat)
    requires p + |RecordBytes(owner, ttl, pref, rtype, name)| <= |mem|
    ensures var f, x, n := Fixed(owner, ttl, rtype), if pref != 0 then Short(pref) else [], Encode(name);
            var m1 := Splice(mem, p, f);
            var m2 := Splice(m1, p + |f|, Short(0));
            var m3 := Splice(m2, p + |f| + |Short(0)|, x);
            var m4 := Splice(m3, p + |f| + |Short(0)| + |x|, n);
            && |Short(0)| == |Short(|x| + |n|)| == 2
            && p + |f| + 2 + |x| + |n| == p + |RecordBytes(owner, ttl, pref, rtype, name)|
            && Splice(m4, p + |f|, Short(|x| + |n|)) == Splice(mem, p, RecordBytes(owner, ttl, pref, rtype, name))
  {
    hide Encode, Long;
    var f, x, n := Fixed(owner, ttl, rtype), if pref != 0 then Short(pref) else [], Encode(name);
    assert RecordBytes(owner, ttl, pref, rtype, name) == f + Short(|x| + |n|) + (x + n);
  }

  // ---- print, then parse

  // A name dnsmasq may hold: lower-case labels of 1 to 63 bytes without dots.
  predicate Proper(ls: seq<seq<Byte>>) {
    ls != [] && forall i :: 0 <= i < |ls| ==> 1 <= |ls[i]| <= 63 && DOT !in ls[i] && LowerAll(ls[i]) == ls[i]
  }

  // The dotted text without its last dot.
  function Join(ls: seq<seq<Byte>>): seq<Byte>
    requires ls != []
  {
    if |ls| == 1 then ls[0] else ls[0] + [DOT] + Join(ls[1..])
  }

  function Wire(ls: seq<seq<Byte>>): seq<Byte> {
    if ls == [] then [0] else [|ls[0]| % 256] + ls[0] + Wire(ls[1..])
  }

  lemma {:induction false} DottedCons(w: seq<Byte>, ls: seq<seq<Byte>>)
    ensures Dotted([w] + ls) == w + [DOT] + Dotted(ls)
  {
    if ls == [] {
      assert [w] + ls == [w] && [w][..0] == [];
      assert Dotted([w]) == [] + w + [DOT];
    } else {
      var i, l := ls[..|ls| - 1], ls[|ls| - 1];
      DottedCons(w, i);
      assert ([w] + ls)[..|ls|] == [w] + i;
      assert w + [DOT] + (Dotted(i) + l + [DOT]) == (w + [DOT] + Dotted(i)) + l + [DOT];
    }
  }

  lemma {:induction false} JoinDotted(ls: seq<seq<Byte>>)
    requires ls != []
    ensures Join(ls) + [DOT] == Dotted(ls)
  {
    assert ls == [ls[0]] + ls[1..];
    DottedCons(ls[0], ls[1..]);
    if |ls| > 1 {
      JoinDotted(ls[1..]);
      assert ls[0] + [DOT] + Join(ls[1..]) + [DOT] == ls[0] + [DOT] + (Join(ls[1..]) + [DOT]);
    } else {
      assert ls[0] + [DOT] + [] == ls[0] + [DOT];
    }
  }

  lemma {:induction false} HeadIs(name: seq<Byte>, n: nat)
    requires n <= |name| && (n < |name| ==> name[n] == DOT) && DOT !in name[..n]
    ensures Head(name) == n
  {
  }

  lemma {:induction false} EncodeJoin(ls: seq<seq<Byte>>)
    requires Proper(ls)
    ensures Encode(Join(ls)) == Wire(ls)
  {
    var name, n := Join(ls), |ls[0]|;
    assert name[..n] == ls[0];
    HeadIs(name, n);
    if |ls| > 1 {
      assert Proper(ls[1..]);
      EncodeJoin(ls[1..]);
      assert name[n + 1..] == Join(ls[1..]);
    } else {
      assert Wire(ls[1..]) == [0] && Encode([]) == [0];
    }
  }

  // Where the wire form stands in memory, it is what is spelled there.
  lemma {:induction false} SpellsWire(mem: seq<Byte>, plen: nat, at: nat, ls: seq<seq<Byte>>)
    requires at + |Wire(ls)| <= plen <= |mem| && mem[at..at + |Wire(ls)|] == Wire(ls)
    requires ls == [] || Proper(ls)
    ensures Spells(mem, plen, at, 0, ls) && End(mem, at) == at + |Wire(ls)|
    decreases |ls|
  {
    if ls == [] {
      assert mem[at..at + 1][0] == 0;
    } else {
      WireParts(mem, at, ls);
      assert ls[1..] == [] || Proper(ls[1..]);
      SpellsWire(mem, plen, at + 1 + |ls[0]|, ls[1..]);
    }
  }

  lemma {:induction false} WireParts(mem: seq<Byte>, at: nat, ls: seq<seq<Byte>>)
    requires Proper(ls) && at + |Wire(ls)| <= |mem| && mem[at..at + |Wire(ls)|] == Wire(ls)
    ensures var n, rest := |ls[0]|, Wire(ls[1..]);
            && |rest| >= 1 && |Wire(ls)| == 1 + n + |rest| && mem[at] == n
            && mem[at + 1..at + 1 + n] == ls[0] && mem[at + 1 + n..at + 1 + n + |rest|] == rest
  {
    var n, rest := |ls[0]|, Wire(ls[1..]);
    assert |rest| >= 1;
    CutThree(mem, at, [n], ls[0], rest);
  }

  lemma {:induction false} CutThree(mem: seq<Byte>, at: nat, a: seq<Byte>, b: seq<Byte>, c: seq<Byte>)
    requires at + |a + b + c| <= |mem| && mem[at..at + |a + b + c|] == a + b + c
    ensures mem[at..at + |a|] == a && mem[at + |a|..at + |a| + |b|] == b
    ensures mem[at + |a| + |b|..at + |a| + |b| + |c|] == c
    ensures |a| == 1 ==> mem[at] == a[0]
  {
    var x := a + b + c;
    forall i | 0 <= i < |x| ensures mem[at + i] == x[i] { assert mem[at..at + |x|][i] == x[i]; }
    forall i | 0 <= i < |a| ensures mem[at..at + |a|][i] == a[i] { assert x[i] == a[i]; }
    forall i | 0 <= i < |b| ensures mem[at + |a|..at + |a| + |b|][i] == b[i] { assert x[|a| + i] == b[i]; }
    var n := |a| + |b|;
    forall i | 0 <= i < |c| ensures mem[at + n..at + n + |c|][i] == c[i] { assert x[n + i] == c[i]; }
    assert |a| == 1 ==> x[0] == a[0];
  }

  lemma LongLength(x: nat)
    ensures |Long(x)| == 4 && forall y: nat :: |Short(y)| == 2
  {
  }

  /** Print then parse: on the RDATA that add_text_record writes for a name, extract_name
      returns the name and stops exactly at the end of the record, RDLENGTH bytes on. */
  lemma {:induction false} PrintThenParse(mem: seq<Byte>, p: nat, plen: nat,
                                          owner: nat, ttl: nat, pref: nat, rtype: nat, ls: seq<seq<Byte>>)
    requires Proper(ls) && |Dotted(ls)| < MAXDNAME
    requires var rec := RecordBytes(owner, ttl, pref, rtype, Join(ls)); p + |rec| <= plen <= |mem|
    ensures var rec := RecordBytes(owner, ttl, pref, rtype, Join(ls));
            var out, rdata := Splice(mem, p, rec), p + 12;
            var name, length := rdata + (if pref != 0 then 2 else 0), |rec| - 12;
            && Names(out, plen, name, 0, ls)
            && End(out, name) == rdata + length == p + |rec|
            && out[p + 10..p + 12] == Short(length)
  {
    hide Encode, Long, Wire, Short, Join, Spells, End, Dotted, Splice;
    var rec := RecordBytes(owner, ttl, pref, rtype, Join(ls));
    var out := Splice(mem, p, rec);
    var x := if pref != 0 then Short(pref) else [];
    var w, f := Wire(ls), Fixed(owner, ttl, rtype);
    EncodeJoin(ls);
    LongLength(ttl);
    SpliceAt(mem, p, rec, 0);
    RecordCut(out, p, f, Short(|x + w|), x, w);
    SpellsWire(out, plen, p + 12 + |x|, ls);
  }

  lemma {:induction false} RecordCut(out: seq<Byte>, p: nat, f: seq<Byte>, s: seq<Byte>, x: seq<Byte>, w: seq<Byte>)
    requires var rec := f + s + (x + w); p + |rec| <= |out| && out[p..p + |rec|] == rec
    ensures out[p + |f|..p + |f| + |s|] == s
    ensures var n := p + |f| + |s| + |x|; out[n..n + |w|] == w
  {
    assert f + s + (x + w) == (f + s) + x + w;
    CutThree(out, p, f, s, x + w);
    CutThree(out, p, f + s, x, w);
  }
}
