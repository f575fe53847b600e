/** From the packets that arrive to the answers that are given: what extract_addresses does as
    operations of the cache, and what whole histories keep. */
module DnsHistory {
  import opened Options
  import opened Bytes
  import opened DnsNames
  import opened DnsPackets
  import opened DnsCompare
  import opened DnsRecords
  import opened DnsSection
  import opened DnsExtract
  import opened CacheRecords
  import opened CacheRuns
  import opened CacheTransactions
  import opened CacheExpiry
  import opened CacheHistory

  // ---- a packet as operations

  // The cache operations from any configuration on.
  function Steps(c: Conf, ops: seq<Op>): Conf {
    if ops == [] then c else Step(Steps(c, ops[..|ops| - 1]), ops[|ops| - 1])
  }

  function Adds(qs: seq<Request>, now: int, ok: seq<bool>): (ops: seq<Op>)
    requires |qs| <= |ok|
    ensures |ops| == |qs| && forall i :: 0 <= i < |ops| ==> ops[i] == Add(qs[i], now, ok[i])
  {
    seq(|qs|, i requires 0 <= i < |qs| => Add(qs[i], now, ok[i]))
  }

  // One transaction; a packet that turns out bad leaves it open.
  function Transaction(w: Walk, now: int, ok: seq<bool>): seq<Op>
    requires |w.requests| <= |ok|
  {
    [Start] + Adds(w.requests, now, ok) + if w.ending.Complete? then [End] else []
  }

  lemma StepsMore(c: Conf, ops: seq<Op>, op: Op)
    ensures Steps(c, ops + [op]) == Step(Steps(c, ops), op)
  {
    assert (ops + [op])[..|ops|] == ops;
  }

  lemma {:induction false} StepsConcat(c: Conf, a: seq<Op>, b: seq<Op>)
    ensures Steps(c, a + b) == Steps(Steps(c, a), b)
  {
    hide Step;
    if b == [] {
      assert a + b == a;
    } else {
      var n := |b| - 1;
      StepsConcat(c, a, b[..n]);
      assert a + b == (a + b[..n]) + [b[n]] && b == b[..n] + [b[n]];
      StepsMore(c, a + b[..n], b[n]);
    }
  }

  lemma {:induction false} RunSteps(size: nat, ops: seq<Op>)
    requires size >= 3
    ensures Run(size, ops) == Steps(Conf(Init(size), false, []), ops)
  {
    hide Step, Init;
    if ops != [] { RunSteps(size, ops[..|ops| - 1]); }
  }

  lemma {:induction false} AddsRun(c: Conf, qs: seq<Request>, now: int, ok: seq<bool>)
    requires Inv(c.st) && |qs| <= |ok|
    ensures var d, t := Steps(c, [Start] + Adds(qs, now, ok)), RunInserts(c.st, qs, now, ok);
            d.st == t.st && d.failed == t.failed
  {
    hide Insert, Inv, Settled, EndInsert;
    if qs == [] {
      assert [Start] + Adds(qs, now, ok) == [] + [Start];
      StepsMore(c, [], Start);
    } else {
      var n := |qs| - 1;
      AddsRun(c, qs[..n], now, ok);
      assert [Start] + Adds(qs, now, ok) == ([Start] + Adds(qs[..n], now, ok)) + [Add(qs[n], now, ok[n])];
      StepsMore(c, [Start] + Adds(qs[..n], now, ok), Add(qs[n], now, ok[n]));
      var t := RunInserts(c.st, qs[..n], now, ok);
      NotEmpty(t.st);
    }
  }

  lemma NotEmpty(st: State)
    requires Inv(st)
    ensures st.recs != []
  {
    OrdinaryBound(st.recs);
  }

  /** The operations of a packet leave the cache where extract_addresses leaves it. */
  lemma PacketRun(c: Conf, w: Walk, now: int, ok: seq<bool>)
    requires Inv(c.st) && |w.requests| <= |ok|
    ensures Steps(c, Transaction(w, now, ok)).st == Left(RunInserts(c.st, w.requests, now, ok), w.ending)
  {
    hide RunInserts, Inv, EndInsert;
    var ops := [Start] + Adds(w.requests, now, ok);
    AddsRun(c, w.requests, now, ok);
    if w.ending.Complete? {
      StepsMore(c, ops, End);
    } else {
      assert ops + [] == ops;
    }
  }

  // ---- histories

  // Everything that happens to a cache: an answer packet, negative answers, anything else but inserts.
  datatype Happening =
    | Packet(pkt: seq<Byte>, plen: nat, ancount: nat, start: nat, at: int, ok: seq<bool>)
    | Negative(walk: Walk, at: int, ok: seq<bool>)
    | Other(op: Op)

  ghost function WalkOf(arpa: string -> Option<Arpa>, h: Happening): Walk
    requires h.Packet? && h.plen + SLACK <= |h.pkt| && h.start <= h.plen
  {
    Requests(arpa, Section(h.pkt, h.plen, h.ancount, h.start), h.ancount)
  }

  // What extract_neg_addrs inserts: that a name has no address.
  predicate NoAddress(rq: Request) { rq.ForName? && rq.neg && rq.ttl <= 0xffff_ffff }

  // What can happen up to time t.
  ghost predicate HappensBy(arpa: string -> Option<Arpa>, h: Happening, t: int) {
    match h
    case Packet(pkt, plen, n, start, at, ok) =>
      plen + SLACK <= |pkt| && start <= plen && 0 <= at <= t && |WalkOf(arpa, h).requests| <= |ok|
    case Negative(w, at, ok) =>
      0 <= at <= t && |w.requests| <= |ok| && forall i :: 0 <= i < |w.requests| ==> NoAddress(w.requests[i])
    case Other(op) => !op.Start? && !op.Add? && !op.End?
  }

  ghost function OpsOf(arpa: string -> Option<Arpa>, h: Happening, t: int): seq<Op>
    requires HappensBy(arpa, h, t)
  {
    match h
    case Packet(_, _, _, _, at, ok) => Transaction(WalkOf(arpa, h), at, ok)
    case Negative(w, at, ok) => Transaction(w, at, ok)
    case Other(op) => [op]
  }

  ghost function History(arpa: string -> Option<Arpa>, hs: seq<Happening>, t: int): seq<Op>
    requires forall i :: 0 <= i < |hs| ==> HappensBy(arpa, hs[i], t)
  {
    if hs == [] then [] else History(arpa, hs[..|hs| - 1], t) + OpsOf(arpa, hs[|hs| - 1], t)
  }

  // Every insert of a history is of a packet.
  lemma {:induction false} FromHistory(arpa: string -> Option<Arpa>, hs: seq<Happening>, t: int, op: Op) returns (i: nat)
    requires forall i :: 0 <= i < |hs| ==> HappensBy(arpa, hs[i], t)
    requires op in History(arpa, hs, t)
    ensures i < |hs| && op in OpsOf(arpa, hs[i], t)
  {
    hide HappensBy, OpsOf;
    var n := |hs| - 1;
    if op in OpsOf(arpa, hs[n], t) {
      i := n;
    } else {
      i := FromHistory(arpa, hs[..n], t, op);
    }
  }

  lemma AddIn(w: Walk, now: int, ok: seq<bool>, op: Op)
    requires |w.requests| <= |ok| && op in Transaction(w, now, ok) && op.Add?
    ensures op.rq in w.requests && op.now == now
  {
  }

  // Where an insert comes from, and that its TTL is a number of 32 bits.
  lemma {:induction false} AddFrom(arpa: string -> Option<Arpa>, hs: seq<Happening>, t: int, op: Op) returns (i: nat)
    requires forall i :: 0 <= i < |hs| ==> HappensBy(arpa, hs[i], t)
    requires op in History(arpa, hs, t) && op.Add?
    ensures i < |hs| && !hs[i].Other? && hs[i].at == op.now && 0 <= op.now <= t && op.rq.ttl <= 0xffff_ffff
    ensures hs[i].Packet? ==> op.rq in WalkOf(arpa, hs[i]).requests
    ensures hs[i].Negative? ==> op.rq.neg && op.rq.ForName?
  {
    hide Transaction, Requests, Section;
    i := FromHistory(arpa, hs, t, op);
    var h := hs[i];
    if h.Packet? {
      AddIn(WalkOf(arpa, h), h.at, h.ok, op);
      TtlsFit(arpa, Section(h.pkt, h.plen, h.ancount, h.start), h.ancount, op.rq);
    } else if h.Negative? {
      AddIn(h.walk, h.at, h.ok, op);
    }
  }

  lemma StoredTtl(arpa: string -> Option<Arpa>, owner: Labels, data: Data, ttl: nat, q: Request)
    requires owner != [] && q in Stored(arpa, owner, data, ttl).requests
    ensures q.ttl == ttl
  {
    hide NameOf;
  }

  lemma TtlsFit(arpa: string -> Option<Arpa>, rrs: seq<Resource>, n: nat, q: Request)
    requires q in Requests(arpa, rrs, n).requests && forall i :: 0 <= i < |rrs| ==> rrs[i].ttl <= 0xffff_ffff
    ensures q.ttl <= 0xffff_ffff
  {
    hide Stored, Requests, Agrees;
    RequestsAreStated(arpa, rrs, n, q);
    var i :| 0 <= i < |rrs| && StatedBy(arpa, rrs[i], rrs, q);
    var r := rrs[i];
    if q in Stored(arpa, r.owner, r.data, r.ttl).requests {
      StoredTtl(arpa, r.owner, r.data, r.ttl, q);
    } else {
      var k :| 0 <= k < |rrs| && StatedVia(arpa, r, r.data.name.value, rrs[k], q);
      StoredTtl(arpa, r.owner, rrs[k].data, Min(r.ttl, rrs[k].ttl), q);
    }
  }

  lemma {:induction false} LogFromOps(size: nat, ops: seq<Op>, e: (Request, int)) returns (op: Op)
    requires size >= 3 && e in Run(size, ops).log
    ensures op in ops && op.Add? && op.rq == e.0 && op.now == e.1
  {
    hide Insert, Swept, Settled, EndInsert, Cleared, Refunded, WithoutDhcp, Leased, Init;
    var n := |ops| - 1;
    if e in Run(size, ops[..n]).log {
      op := LogFromOps(size, ops[..n], e);
    } else {
      op := ops[n];
    }
  }

  /** TTLs stay honest end to end. In every history, a record that answers at time t from the cache,
      a positive one or one that names an address, was stated, with TTL n, by the bytes of a packet
      that arrived at some t0 with t < t0 + n, and exactly t0 + n - t is left of its TTL. For an alias n is the smaller of the two TTLs, by
      the definition of what a section states. */
  lemma {:induction false} TtlEndToEnd(arpa: string -> Option<Arpa>, size: nat, hs: seq<Happening>, q: Query, t: int, r: Rec)
    returns (i: nat, rq: Request)
    requires size >= 3 && t <= TIME_MAX && forall i :: 0 <= i < |hs| ==> HappensBy(arpa, hs[i], t)
    requires r in Run(size, History(arpa, hs, t)).st.recs && Ordinary(r) && (!r.neg || r.rev) && Matches(r, q, t)
    ensures i < |hs| && hs[i].Packet?
    ensures Stated(arpa, Section(hs[i].pkt, hs[i].plen, hs[i].ancount, hs[i].start), rq)
    ensures Answers(r, rq, hs[i].at) && t < hs[i].at + rq.ttl && AnswerTtl(r, t) == hs[i].at + rq.ttl - t
  {
    hide Run, Matches, Requests, Stated, History, OpsOf, AnswerTtl, Section;
    var ops := History(arpa, hs, t);
    forall e | e in Run(size, ops).log
      ensures 0 <= e.1 <= t && e.0.ttl <= 0xffff_ffff
    {
      var op := LogFromOps(size, ops, e);
      var _ := AddFrom(arpa, hs, t, op);
    }
    TtlHonest(size, ops, q, t, r);
    var e :| e in Run(size, ops).log && Answers(r, e.0, e.1)
             && t < e.1 + e.0.ttl <= TIME_MAX && AnswerTtl(r, t) == e.1 + e.0.ttl - t;
    var op := LogFromOps(size, ops, e);
    rq := e.0;
    i := AddFrom(arpa, hs, t, op);
    RequestsAreStated(arpa, Section(hs[i].pkt, hs[i].plen, hs[i].ancount, hs[i].start), hs[i].ancount, rq);
  }

  // ---- a packet that turns out bad

  /** A packet that turns out bad after an insert has failed breaks all or nothing: nothing of its
      transaction is left if and only if every TTL of what was added leaves 32-bit time. */
  lemma BadPacketExactly(c: Conf, w: Walk, now: int, ok: seq<bool>)
    requires Inv(c.st) && |w.requests| <= |ok| && !w.ending.Complete? && 0 <= now <= TIME_MAX
    requires RunInserts(c.st, w.requests, now, ok).failed && forall i :: 0 <= i < |w.requests| ==> w.requests[i].ttl <= 0xffff_ffff
    ensures var t, s := RunInserts(c.st, w.requests, now, ok), Steps(c, Transaction(w, now, ok)).st.recs;
            && |t.added| < |w.requests|
            && ((forall r :: KeyedNew(r) ==> Times(s, r) == 0)
                <==> forall i :: 0 <= i < |t.added| ==> now + w.requests[i].ttl > TIME_MAX)
  {
    hide RunInserts, Inv, Steps, Times, KeyedNew;
    PacketRun(c, w, now, ok);
    FailureKeeps(c.st, w.requests, now, ok);
  }

  function Letters(n: nat): (s: seq<Byte>)
    ensures |s| == n && forall i :: 0 <= i < n ==> s[i] == 98
  {
    seq(n, i => 98)
  }

  lemma {:induction false} NoZero(s: seq<Byte>)
    requires forall i :: 0 <= i < |s| ==> s[i] != 0
    ensures CStr(s) == s
  {
    if s != [] { NoZero(s[1..]); }
  }

  // An address record of a minute, behind its owner.
  const MINUTE: seq<Byte> := [0, 1, 0, 1, 0, 0, 0, 60, 0, 4, 10, 0, 0, 1]

  // A header that counts no question and three answers, and two of them, the second under a name of forty letters.
  const CUT_SHORT: seq<Byte> := [0, 1, 129, 128, 0, 0, 0, 3, 0, 0, 0, 0] + ([1, 97, 0] + MINUTE) + ([40] + Letters(40) + [0] + MINUTE)

  const CUT_LENGTH := 85

  // The packet in any memory that holds it.
  predicate HoldsCut(mem: seq<Byte>) { CUT_LENGTH + SLACK <= |mem| && mem[..CUT_LENGTH] == CUT_SHORT }

  // A record whose owner is not compressed.
  lemma RecordReads(pkt: seq<Byte>, plen: nat, off: nat, ls: Labels)
    requires Proper(ls) && off + |Wire(ls)| + 10 <= plen && plen + SLACK <= |pkt| && pkt[off..off + |Wire(ls)|] == Wire(ls)
    requires var e := off + |Wire(ls)|; e + 10 + U16(pkt, e + 8) <= plen
    ensures var e := off + |Wire(ls)|;
            RecordAt(pkt, plen, off)
            == Some((Resource(ls, U16(pkt, e + 2) == C_IN, U32(pkt, e + 4), DataAt(pkt, plen, U16(pkt, e), e + 10)), e + 10 + U16(pkt, e + 8)))
  {
    hide Wire, Spells, DataAt, U16, U32;
    SpellsWire(pkt, plen, off, ls);
    assert Spelled(pkt, plen, off, ls);
    LabelsAre(pkt, plen, off, ls);
  }

  lemma MinuteReads(pkt: seq<Byte>, plen: nat, e: nat)
    requires e + 14 <= plen && plen + SLACK <= |pkt| && pkt[e..e + 14] == MINUTE
    ensures U16(pkt, e) == T_A && U16(pkt, e + 2) == C_IN && U32(pkt, e + 4) == 60 && U16(pkt, e + 8) == 4
  {
    var m := pkt[e..e + 14];
    assert m[0] == pkt[e] && m[1] == pkt[e + 1] && m[2] == pkt[e + 2] && m[3] == pkt[e + 3] && m[4] == pkt[e + 4];
    assert m[5] == pkt[e + 5] && m[6] == pkt[e + 6] && m[7] == pkt[e + 7] && m[8] == pkt[e + 8] && m[9] == pkt[e + 9];
  }

  lemma OneRecord(pkt: seq<Byte>, plen: nat, off: nat, w: seq<Byte>)
    requires Proper([w]) && |w| <= 63 && off + |w| + 16 <= plen && plen + SLACK <= |pkt|
    requires pkt[off..off + |w| + 2] == [|w|] + w + [0] && pkt[off + |w| + 2..off + |w| + 16] == MINUTE
    ensures RecordAt(pkt, plen, off) == Some((Resource([w], true, 60, V4(AddrAt(pkt, off + |w| + 12))), off + |w| + 16))
  {
    hide AddrAt, Wire, RecordAt, U16, U32, Proper, MINUTE;
    OneWire(w);
    MinuteReads(pkt, plen, off + |w| + 2);
    RecordReads(pkt, plen, off, [w]);
  }

  lemma OneWire(w: seq<Byte>)
    requires |w| <= 63
    ensures Wire([w]) == [|w|] + w + [0] && |Wire([w])| == |w| + 2
  {
    assert [w][1..] == [] && Wire([]) == [0];
  }

  lemma LettersProper(n: nat)
    requires 1 <= n <= 63
    ensures Proper([Letters(n)]) && LowerAll(Letters(n)) == Letters(n)
  {
  }

  lemma CutBytes(mem: seq<Byte>)
    requires HoldsCut(mem)
    ensures mem[12..15] == [1, 97, 0] && mem[15..29] == MINUTE && mem[29..71] == [40] + Letters(40) + [0] && mem[71..85] == MINUTE
  {
    var s := mem[..CUT_LENGTH];
    assert mem[12..15] == s[12..15] && mem[15..29] == s[15..29] && mem[29..71] == s[29..71] && mem[71..85] == s[71..85];
  }

  // The section has two records; the third cannot be read.
  lemma CutSection(mem: seq<Byte>) returns (a: Addr, b: Addr)
    requires HoldsCut(mem)
    ensures Skip(mem, CUT_LENGTH, 0, HEADER_SIZE) == Some(HEADER_SIZE)
    ensures Section(mem, CUT_LENGTH, 3, HEADER_SIZE) == [Resource([[97]], true, 60, V4(a)), Resource([Letters(40)], true, 60, V4(b))]
  {
    hide AddrAt, RecordAt, Letters;
    CutBytes(mem);
    assert Proper([[97]]) && [1] + [97] + [0] == [1, 97, 0];
    LettersProper(40);
    assert |Letters(40)| == 40;
    OneRecord(mem, CUT_LENGTH, 12, [97]);
    OneRecord(mem, CUT_LENGTH, 29, Letters(40));
    assert RecordAt(mem, CUT_LENGTH, CUT_LENGTH).None?;
    a, b := AddrAt(mem, 25), AddrAt(mem, 81);
    var r1, r2 := Resource([[97]], true, 60, V4(a)), Resource([Letters(40)], true, 60, V4(b));
    assert Section(mem, CUT_LENGTH, 1, 85) == [];
    assert Section(mem, CUT_LENGTH, 2, 29) == [r2] + [];
  }

  lemma TwoRequests(arpa: string -> Option<Arpa>, rrs: seq<Resource>, a: Addr, b: Addr)
    requires rrs == [Resource([[97]], true, 60, V4(a)), Resource([Letters(40)], true, 60, V4(b))]
    ensures var w := Requests(arpa, rrs, 3);
            && w.ending.BadPacket? && |w.requests| == 2 && |w.requests[0].name| == 1 && |w.requests[1].name| == 40
            && w.requests[0].ttl == 60 && w.requests[1].ttl == 60
  {
    hide ForRecord;
    OneAddress(arpa, [97], 60, a, rrs, 3);
    OneAddress(arpa, Letters(40), 60, b, rrs, 3);
    assert rrs[..1] == [rrs[0]] && [rrs[0]][..0] == [];
    assert ForRecords(arpa, rrs[..1], rrs, 3) == ForRecord(arpa, rrs[0], rrs, 3);
  }

  lemma OneAddress(arpa: string -> Option<Arpa>, name: seq<Byte>, ttl: nat, addr: Addr, rrs: seq<Resource>, n: nat)
    requires 0 < |name| <= 63 && forall i :: 0 <= i < |name| ==> name[i] != 0
    ensures var w := ForRecord(arpa, Resource([name], true, ttl, V4(addr)), rrs, n);
            w.ending.Complete? && |w.requests| == 1 && |w.requests[0].name| == |name| && w.requests[0].ttl == ttl && NOTHING.requests + w.requests == w.requests
  {
    NoZero(name);
    assert [name][..0] == [];
    assert Dotted([name]) == Dotted([]) + name + [DOT];
    assert Join([name]) == name;
  }

  lemma NoBuffers(st: State)
    requires Inv(st) && st.size < 10
    ensures st.bigLeft == 0 && st.bigFree == []
  {
    if st.bigFree != [] {
      FreeUsed(st);
      assert false;
    }
  }

  lemma FreeUsed(st: State)
    requires st.bigFree != []
    ensures Uses(st, st.bigFree[0]) >= 1
  {
    assert st.bigFree[0] in multiset(st.bigFree);
  }

  /** A cache of three slots just started has no buffer for a long name: the second insert of this packet
      fails, the packet then turns out bad, and the record of the first insert stays. */
  lemma BadPacketPartial(arpa: string -> Option<Arpa>, mem: seq<Byte>, ok: seq<bool>)
    requires HoldsCut(mem) && |ok| == 2
    ensures var w := Requests(arpa, Section(mem, CUT_LENGTH, 3, HEADER_SIZE), 3);
            && Skip(mem, CUT_LENGTH, 0, HEADER_SIZE) == Some(HEADER_SIZE)
            && w.ending.BadPacket? && |w.requests| == 2 && Inv(Init(3))
            && var t := RunInserts(Init(3), w.requests, 0, ok);
               && t.failed && |t.added| == 1
               && Times(Left(t, w.ending).recs, t.added[0]) == 1
  {
    hide Requests, Insert, Inv, Init, Times, Settled, Section, CUT_SHORT;
    var rrs := Section(mem, CUT_LENGTH, 3, HEADER_SIZE);
    var a, b := CutSection(mem);
    TwoRequests(arpa, rrs, a, b);
    var w := Requests(arpa, rrs, 3);
    ReachableInv(3, []);
    assert Run(3, []).st == Init(3);
    var qs := w.requests;
    assert qs[..1] == [qs[0]] && [qs[0]][..0] == [];
    JustStarted();
    InsertBlank(qs[0], ok[0]);
    assert RunInserts(Init(3), [], 0, ok) == Txn(Init(3), false, []);
    assert RunInserts(Init(3), [qs[0]], 0, ok).added == [Insert(Init(3), qs[0], 0, ok[0]).st.recs[0]];
    var t := RunInserts(Init(3), qs[..1], 0, ok);
    assert !t.failed && |t.added| == 1;
    SizeKept(Init(3), qs[0], 0, ok[0]);
    LongFails(t.st, qs[1], ok[1]);
    var u := RunInserts(Init(3), qs, 0, ok);
    assert u.failed && u.added == t.added;
    Remains(qs, ok);
  }

  lemma SizeKept(st: State, q: Request, now: int, ok: bool)
    requires st.recs != []
    ensures Insert(st, q, now, ok).st.size == st.size
  {
  }

  lemma LongFails(st: State, q: Request, ok: bool)
    requires Inv(st) && st.size < 10 && |q.name| == 40
    ensures st.recs != [] && Insert(st, q, 0, ok).failed
  {
    hide Inv, Looked, Insert;
    NotEmpty(st);
    PurgedInv(st, q, 0);
    PurgedSize(st, q, 0);
    NoBuffers(Purged(st, q, 0));
    FailsExactly(st, q, 0, ok);
  }

  lemma PurgedSize(st: State, q: Request, now: int)
    ensures Purged(st, q, now).size == st.size
  {
  }

  lemma Remains(qs: seq<Request>, ok: seq<bool>)
    requires |qs| == |ok| == 2 && qs[0].ttl == 60 && Inv(Init(3))
    requires RunInserts(Init(3), qs, 0, ok).failed && |RunInserts(Init(3), qs, 0, ok).added| == 1
    ensures var t := RunInserts(Init(3), qs, 0, ok); Times(t.st.recs, t.added[0]) == 1
  {
    hide RunInserts, Inv, Init, Answers, Stale;
    var t := RunInserts(Init(3), qs, 0, ok);
    FailedExact(Init(3), qs, 0, ok, BLANK.(fwd := true, isNew := true));
    var r := t.added[0];
    assert qs[..1][0] == qs[0];
    StoredStale(r, qs[0], 0);
    FailedExact(Init(3), qs, 0, ok, r);
    assert t.added == [r];
    TimesOne(r, r);
  }
}
