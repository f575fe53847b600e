/** The memory that is enough for every request, exactly: requests of 512 bytes that leave no room for
    answers, and what a cache that packets have filled can make of them. */
module DnsBufferLimits {
  import opened Options
  import opened Bytes
  import opened DnsNames
  import opened DnsPackets
  import opened DnsCompare
  import opened DnsRecords
  import opened DnsSection
  import opened DnsAnswers
  import opened DnsReplies
  import opened DnsReplyRecords
  import opened DnsBuffers
  import opened DnsOwners
  import opened CacheRecords
  import opened CacheRuns
  import CacheExpiry
  import CacheHistory
  import DnsHistory

  // ---- a request without room

  const TWO_QUESTIONS: seq<Byte> := [0, 1, 1, 0, 0, 2, 0, 0, 0, 0, 0, 0]

  function Zeros(n: nat): (s: seq<Byte>)
    ensures |s| == n && forall i :: 0 <= i < n ==> s[i] == 0
  {
    seq(n, i => 0)
  }

  // A question of n bytes: labels of one letter, the first of two if need be, then a zero, type and class.
  function Pad(n: nat): (s: seq<Byte>)
    requires n >= 9
    ensures |s| == n
  {
    [if n % 2 == 1 then 1 else 2] + seq(n - 6, i => 1) + [0, 0, 0, 0, 0]
  }

  predicate Brief(ls: Labels) { Proper(ls) && |Wire(ls)| <= 480 }

  // Two questions that fill a packet of 512 bytes, and the memory behind it.
  function FullRequest(ls: Labels, qtype: Byte, size: nat): (mem: seq<Byte>)
    requires Brief(ls) && size >= PACKETSZ
    ensures |mem| == size
  {
    TWO_QUESTIONS + Wire(ls) + [0, qtype, 0, C_IN] + Pad(PACKETSZ - 16 - |Wire(ls)|) + Zeros(size - PACKETSZ)
  }

  lemma {:induction false} SkimOnes(mem: seq<Byte>, plen: nat, off: nat, z: nat)
    requires off <= z < plen <= |mem| && (z - off) % 2 == 0 && mem[z] == 0 && forall i :: off <= i < z ==> mem[i] == 1
    ensures Skim(mem, plen, off) == Some(z + 1)
    decreases z - off
  {
    if off < z { SkimOnes(mem, plen, off + 2, z); }
  }

  lemma SkimPad(mem: seq<Byte>, plen: nat, off: nat, n: nat)
    requires n >= 9 && off + n == plen <= |mem| && mem[off..plen] == Pad(n)
    ensures Skim(mem, plen, off) == Some(plen - 4)
  {
    var pad := Pad(n);
    forall i | 0 <= i < n
      ensures mem[off + i] == pad[i]
    {
      assert mem[off..plen][i] == pad[i];
    }
    forall i | off < i < plen - 5
      ensures mem[i] == 1
    {
      assert mem[off + (i - off)] == pad[i - off];
    }
    assert mem[off + (n - 5)] == pad[n - 5] == 0;
    if n % 2 == 1 {
      assert mem[off + 0] == pad[0] == 1;
      SkimOnes(mem, plen, off + 2, plen - 5);
    } else {
      assert mem[off + 0] == pad[0] == 2;
      SkimOnes(mem, plen, off + 3, plen - 5);
    }
  }

  lemma FullParts(ls: Labels, qtype: Byte, size: nat)
    requires Brief(ls) && size >= PACKETSZ
    ensures var mem, e := FullRequest(ls, qtype, size), HEADER_SIZE + |Wire(ls)|;
            && mem[HEADER_SIZE..e] == Wire(ls) && U16(mem, e) == qtype && U16(mem, e + 2) == C_IN
            && mem[e + 4..PACKETSZ] == Pad(PACKETSZ - 16 - |Wire(ls)|)
  {
    hide Wire, Pad;
    var mem, w, e := FullRequest(ls, qtype, size), Wire(ls), HEADER_SIZE + |Wire(ls)|;
    var pad, z := Pad(PACKETSZ - 16 - |w|), Zeros(size - PACKETSZ);
    assert mem[e] == 0 && mem[e + 1] == qtype && mem[e + 2] == 0 && mem[e + 3] == C_IN;
  }

  lemma DottedWire(ls: Labels)
    requires Proper(ls)
    ensures |Wire(ls)| == |Join(ls)| + 2 && |Dotted(ls)| == |Join(ls)| + 1
  {
    hide Dotted, Wire;
    JoinDotted(ls);
    WireLength(ls);
  }

  lemma {:induction false} WireLength(ls: Labels)
    requires ls != []
    ensures |Wire(ls)| == |Join(ls)| + 2
  {
    if |ls| > 1 { WireLength(ls[1..]); } else { assert Wire(ls[1..]) == [0]; }
  }

  // The first question is read, and the answers would start at the limit.
  lemma FullRead(ls: Labels, qtype: Byte, size: nat)
    requires Brief(ls) && size >= PACKETSZ
    ensures var mem := FullRequest(ls, qtype, size);
            && LabelsAt(mem, PACKETSZ, HEADER_SIZE) == Some(ls) && Extractable(ls) && End(mem, HEADER_SIZE) == HEADER_SIZE + |Wire(ls)|
            && Skip(mem, PACKETSZ, 2, HEADER_SIZE) == Some(PACKETSZ)
  {
    hide Wire, Pad, FullRequest, Spells, Skim, Dotted;
    var mem, e := FullRequest(ls, qtype, size), HEADER_SIZE + |Wire(ls)|;
    FullParts(ls, qtype, size);
    SpellsWire(mem, PACKETSZ, HEADER_SIZE, ls);
    assert Spelled(mem, PACKETSZ, HEADER_SIZE, ls);
    LabelsAre(mem, PACKETSZ, HEADER_SIZE, ls);
    DottedWire(ls);
    SkimEnd(mem, PACKETSZ, HEADER_SIZE, 0, ls);
    SkimPad(mem, PACKETSZ, e + 4, PACKETSZ - e - 4);
  }

  // What a question is answered with when there is no room.
  ghost function AtLimit(st: State, ls: Labels, qtype: nat, o: Settings, now: int, behind: nat): Stage
    requires ls != []
  {
    QuestionStage(Stage(st, Tally(false, true, false, 0), [], Fine), Ask(HEADER_SIZE, NameOf(ls), qtype), o, now, Box(0, behind))
  }

  lemma FullTurn(st: State, ls: Labels, qtype: Byte, size: nat, o: Settings, now: int)
    requires Brief(ls) && size >= PACKETSZ + SLACK && AtLimit(st, ls, qtype, o, now, size - PACKETSZ).status.Over?
    ensures var mem := FullRequest(ls, qtype, size);
            && Ready(Begin(st, mem, PACKETSZ), PACKETSZ, 2, PACKETSZ)
            && Replies(Turning(o, now, PACKETSZ, PACKETSZ), Begin(st, mem, PACKETSZ), 2).Overrun?
  {
    hide Wire, FullRequest, QuestionStage, Skip, LabelsAt, End, U16, Flat, Buffer, ToText, Extractable, Splice, PlacedAll;
    var mem := FullRequest(ls, qtype, size);
    FullRead(ls, qtype, size);
    FullParts(ls, qtype, size);
    var l, turns := Begin(st, mem, PACKETSZ), Turning(o, now, PACKETSZ, PACKETSZ);
    assert turns(l) == OneTurn(Answering(o, now), l, PACKETSZ, PACKETSZ);
    assert turns(l).Out? && turns(l).reply.Overrun?;
  }

  // ---- names of every length

  function LongName(n: nat): (ls: Labels)
    requires n >= 1
    ensures ls != []
  {
    if n <= 63 then [DnsHistory.Letters(n)] else [DnsHistory.Letters(1)] + LongName(n - 2)
  }

  lemma {:induction false} LongProper(n: nat)
    requires n >= 1
    ensures Proper(LongName(n)) && |Join(LongName(n))| == n
  {
    DnsHistory.LettersProper(1);
    if n <= 63 {
      DnsHistory.LettersProper(n);
    } else {
      LongProper(n - 2);
      assert ([DnsHistory.Letters(1)] + LongName(n - 2))[1..] == LongName(n - 2);
    }
  }

  function LongText(n: nat): string
    requires n >= 1
  {
    ToText(Join(LongName(n)))
  }

  lemma LongSize(n: nat)
    requires n >= 1
    ensures |LongText(n)| == n && TextSize(0, LongText(n)) == 14 + n && (Extractable(LongName(n)) <==> n <= MAXDNAME - 2)
  {
    hide Encode, Wire, Join, LongName, Dotted;
    LongProper(n);
    EncodeJoin(LongName(n));
    DottedWire(LongName(n));
    assert ToBytes(LongText(n)) == Join(LongName(n));
  }

  // ---- a cache with one long name

  lemma {:induction false} Blank(n: nat)
    ensures var s := Blanks(n); |s| == n && Settled(s) == s && forall i :: 0 <= i < n ==> s[i] == BLANK
  {
    if n > 0 {
      Blank(n - 1);
      assert Blanks(n)[..n - 1] == Blanks(n - 1);
    }
  }

  lemma OneLong(q: Request)
    requires q.ForAddr?
    ensures var st := State(10, Blanks(10), [], 1);
            && st.recs != [] && !Insert(st, q, 0, true).failed
            && exists buf :: Insert(st, q, 0, true).st.recs == [NewRec(q, buf, 0, BLANK)] + Blanks(10)[..9]
  {
    hide Arrange, Reclaim, NewRec, Blanks;
    Blank(10);
    var s := Blanks(10);
    var st := State(10, s, [], 1);
    CacheExpiry.Idle(s, Purge(KeyOf(q), 0), []);
    CacheExpiry.Idle(s[..9], Evict(BLANK), []);
    assert Rotated(s) == s;
    assert Purged(st, q, 0) == st;
    assert Grab(st, q, 0).recs == [NewRec(q, Take(st, q).1, 0, BLANK)] + s[..9];
  }

  // A packet names the address a.
  function Naming(name: string, a: Arpa): seq<CacheHistory.Op> {
    [CacheHistory.Start, CacheHistory.Add(ForAddr(name, a.addr, a.v6, 60, false, false), 0, true)]
  }

  lemma NamedRecs(name: string, a: Arpa)
    ensures var q := ForAddr(name, a.addr, a.v6, 60, false, false);
            exists buf :: CacheHistory.Run(10, Naming(name, a)).st.recs == [NewRec(q, buf, 0, BLANK)] + Blanks(10)[..9]
  {
    hide Insert, Settled, NewRec, Blanks;
    var ops := Naming(name, a);
    assert ops[..1] == [CacheHistory.Start] && [CacheHistory.Start][..0] == [];
    Blank(10);
    assert CacheHistory.Run(10, []) == CacheHistory.Conf(Init(10), false, []);
    assert CacheHistory.Run(10, [CacheHistory.Start]).st == Init(10);
    OneLong(ForAddr(name, a.addr, a.v6, 60, false, false));
  }

  // Its name is the only one that can be found.
  lemma Named(name: string, a: Arpa)
    ensures var recs := CacheHistory.Run(10, Naming(name, a)).st.recs;
            && Known(recs, AddrQuery(a), 0)
            && forall r :: r in recs && (r.fwd || r.rev) ==> r.name == name && !Local(r) && !r.neg
  {
    hide Blanks, CacheHistory.Run;
    NamedRecs(name, a);
    Blank(10);
    var recs, q := CacheHistory.Run(10, Naming(name, a)).st.recs, ForAddr(name, a.addr, a.v6, 60, false, false);
    var buf :| recs == [NewRec(q, buf, 0, BLANK)] + Blanks(10)[..9];
    assert recs[0] in recs && Matches(recs[0], AddrQuery(a), 0);
  }

  // ---- the two ways past the memory

  lemma NameOver(st: State, ls: Labels, a: Arpa, o: Settings, behind: nat, name: string)
    requires ls != [] && o.arpa(NameOf(ls)) == Some(a) && Known(st.recs, AddrQuery(a), 0) && TextSize(0, name) > behind
    requires forall r :: r in st.recs && (r.fwd || r.rev) ==> r.name == name && !Local(r) && !r.neg
    ensures AtLimit(st, ls, T_PTR, o, 0, behind).status.Over?
  {
    hide NameOf, Known, Matches, Front, Swept, Ends, TextSize, Flat, Given, Tallied, SomeForeign, Times;
    var q := AddrQuery(a);
    var found := Front(st.recs, Lookup(q, 0));
    FrontAll(st.recs, st.recs, q, 0);
    TimesMember(found, found[0]);
    TimesMember(st.recs, found[0]);
    Reverse(found[0], q, 0);
    FlatNone();
    assert found[..0] == [] && Given(ToName, [], HEADER_SIZE, 0) == [] by { NoneGiven(); }
    assert Comes(ToName, found, false, HEADER_SIZE, 0, 0, 0, 0);
    OverExactly(ToName, found, false, HEADER_SIZE, 0, 0, Box(0, behind));
  }

  lemma NoneGiven()
    ensures Given(ToName, [], HEADER_SIZE, 0) == []
  {
  }

  lemma MxOver(st: State, ls: Labels, o: Settings, now: int, behind: nat)
    requires ls != [] && o.arpa(NameOf(ls)).None? && o.mxName == Some(NameOf(ls)) && TextSize(1, o.mxTarget) > behind
    ensures AtLimit(st, ls, T_MX, o, now, behind).status.Over?
  {
    hide NameOf, TextSize, Flat, RecordBytes, ToBytes;
    var rec := RecordBytes(HEADER_SIZE, 0, 1, T_MX, ToBytes(o.mxTarget));
    TextHas(HEADER_SIZE, 0, 1, T_MX, o.mxTarget);
    FlatNone();
    FlatMore([], rec);
    assert [] + [rec] == [rec];
  }

  // ---- exactly when every request is safe

  // Names for addresses have at most `rev` characters, names of local hosts at most `host`.
  ghost predicate Bounded(recs: seq<Rec>, rev: nat, host: nat) {
    forall r :: r in recs ==> (r.rev ==> |r.name| <= rev) && (r.fwd && Local(r) ==> |r.name| <= host)
  }

  // A request that arrives when ops have happened to the cache, and is answered past the memory.
  ghost predicate Overruns(o: Settings, now: int, slots: nat, ops: seq<CacheHistory.Op>, mem: seq<Byte>, plen: nat, n: nat, start: nat)
    requires slots >= 3
  {
    var l := Begin(CacheHistory.Run(slots, ops).st, mem, start);
    Ready(l, plen, n, PACKETSZ) && Skip(mem, plen, n, HEADER_SIZE) == Some(start) && Replies(Turning(o, now, plen, PACKETSZ), l, n).Overrun?
  }

  ghost predicate Safe(o: Settings, size: nat, rev: nat, host: nat) {
    forall now, slots: nat, ops, mem: seq<Byte>, plen: nat, n: nat, start: nat ::
      slots >= 3 && |mem| == size && Bounded(CacheHistory.Run(slots, ops).st.recs, rev, host) ==> !Overruns(o, now, slots, ops, mem, plen, n, start)
  }

  lemma NameFits(pref: nat, name: string)
    ensures TextSize(pref, name) <= 14 + (if pref != 0 then 2 else 0) + |name|
  {
    hide Encode;
    EncodeLength(ToBytes(name));
  }

  lemma BoundedRoomy(recs: seq<Rec>, o: Settings, size: nat, rev: nat, host: nat)
    requires Bounded(recs, rev, host) && PACKETSZ + 28 <= size
    requires PACKETSZ + 14 + rev <= size && (o.selfMx ==> PACKETSZ + 16 + host <= size)
    requires (o.mxName.Some? ==> PACKETSZ + TextSize(1, o.mxTarget) <= size) && (o.bogusPriv ==> forall a :: PACKETSZ + TextSize(0, o.dotted(a)) <= size)
    ensures Roomy(recs, o, PACKETSZ, size)
  {
    hide TextSize;
    forall r | r in recs
      ensures r.rev ==> PACKETSZ + TextSize(0, r.name) <= size
      ensures o.selfMx && r.fwd && Local(r) ==> PACKETSZ + TextSize(1, r.name) <= size
    {
      NameFits(0, r.name);
      NameFits(1, r.name);
    }
  }

  lemma SameFreshSelf(recs: seq<Rec>, now: int)
    ensures SameFresh(recs, recs, now)
  {
  }

  /** With a limit of 512 bytes and `size` bytes of memory, no request is ever answered past the memory if
      and only if the longest name of an address, and the fixed mail exchanger, fit behind the limit.
      Provided only that some address and the host of the exchanger can be asked for in 496 bytes, and that
      address records, the digits of private addresses and the names of local hosts fit. */
  lemma SafeExactly(o: Settings, size: nat, rev: nat, host: nat, ls: Labels, a: Arpa, ms: Labels)
    requires rev >= 1 && PACKETSZ + 28 <= size && Brief(ls) && o.arpa(NameOf(ls)) == Some(a)
    requires o.mxName.Some? ==> Brief(ms) && o.mxName == Some(NameOf(ms)) && o.arpa(NameOf(ms)).None?
    requires (o.selfMx ==> PACKETSZ + 16 + host <= size) && (o.bogusPriv ==> forall a :: PACKETSZ + TextSize(0, o.dotted(a)) <= size)
    ensures Safe(o, size, rev, host) <==> PACKETSZ + 14 + rev <= size && (o.mxName.Some? ==> PACKETSZ + TextSize(1, o.mxTarget) <= size)
  {
    hide TextSize, NameOf, CacheHistory.Run, Bounded, Overruns;
    if PACKETSZ + 14 + rev > size {
      LongNameOverruns(o, size, rev, host, ls, a);
    } else if o.mxName.Some? && PACKETSZ + TextSize(1, o.mxTarget) > size {
      ExchangerOverruns(o, size, rev, host, ms);
    } else {
      forall now, slots: nat, ops, mem: seq<Byte>, plen: nat, n: nat, start: nat |
          slots >= 3 && |mem| == size && Bounded(CacheHistory.Run(slots, ops).st.recs, rev, host)
        ensures !Overruns(o, now, slots, ops, mem, plen, n, start)
      {
        BoundedRoomy(CacheHistory.Run(slots, ops).st.recs, o, size, rev, host);
        NeverOverruns(o, now, slots, ops, mem, plen, n, start);
      }
    }
  }

  lemma NeverOverruns(o: Settings, now: int, slots: nat, ops: seq<CacheHistory.Op>, mem: seq<Byte>, plen: nat, n: nat, start: nat)
    requires slots >= 3 && Roomy(CacheHistory.Run(slots, ops).st.recs, o, PACKETSZ, |mem|)
    ensures !Overruns(o, now, slots, ops, mem, plen, n, start)
  {
    hide Roomy, CacheHistory.Run, Replies, Turning, Ready, SameFresh, Skip;
    var st := CacheHistory.Run(slots, ops).st;
    SameFreshSelf(st.recs, now);
    RepliesInside(o, now, Begin(st, mem, start), plen, n, PACKETSZ, st.recs);
  }

  /** A name of an address too long for the memory behind the limit, in a cache that one packet has filled,
      and a request of 512 bytes that asks for it. */
  lemma LongNameOverruns(o: Settings, size: nat, rev: nat, host: nat, ls: Labels, a: Arpa)
    requires rev >= 1 && PACKETSZ + 28 <= size && Brief(ls) && o.arpa(NameOf(ls)) == Some(a) && PACKETSZ + 14 + rev > size
    ensures var ops, mem := Naming(LongText(rev), a), FullRequest(ls, T_PTR, size);
            && Bounded(CacheHistory.Run(10, ops).st.recs, rev, host)
            && Overruns(o, 0, 10, ops, mem, PACKETSZ, 2, PACKETSZ)
    ensures !Safe(o, size, rev, host)
  {
    hide TextSize, NameOf, CacheHistory.Run, Replies, Turning, Skip, FullRequest, AtLimit, Known, LongText, Wire;
    var ops, mem := Naming(LongText(rev), a), FullRequest(ls, T_PTR, size);
    var st := CacheHistory.Run(10, ops).st;
    LongSize(rev);
    Named(LongText(rev), a);
    NameOver(st, ls, a, o, size - PACKETSZ, LongText(rev));
    FullTurn(st, ls, T_PTR, size, o, 0);
    FullRead(ls, T_PTR, size);
    assert Overruns(o, 0, 10, ops, mem, PACKETSZ, 2, PACKETSZ);
  }

  lemma ExchangerOverruns(o: Settings, size: nat, rev: nat, host: nat, ms: Labels)
    requires PACKETSZ + 28 <= size && Brief(ms) && o.mxName == Some(NameOf(ms)) && o.arpa(NameOf(ms)).None?
    requires PACKETSZ + TextSize(1, o.mxTarget) > size
    ensures Overruns(o, 0, 3, [], FullRequest(ms, T_MX, size), PACKETSZ, 2, PACKETSZ)
    ensures !Safe(o, size, rev, host)
  {
    hide TextSize, NameOf, Replies, Turning, Skip, FullRequest, AtLimit, Wire;
    var st := CacheHistory.Run(3, []).st;
    MxOver(st, ms, o, 0, size - PACKETSZ);
    FullTurn(st, ms, T_MX, size, o, 0);
    FullRead(ms, T_MX, size);
    assert Overruns(o, 0, 3, [], FullRequest(ms, T_MX, size), PACKETSZ, 2, PACKETSZ);
    CacheExpiry.JustStarted();
    assert Bounded(st.recs, rev, host);
  }

  // The program's memory for a packet.
  const PROGRAM_SIZE := PACKETSZ + MAXDNAME + RRFIXEDSZ
  const RRFIXEDSZ := 10

  /** The program's own buffer, without a fixed mail exchanger: every request is safe if and only if names
      of addresses have at most MAXDNAME - 4 characters. extract_name admits MAXDNAME - 2. */
  lemma ProgramBuffer(o: Settings, rev: nat, host: nat, ls: Labels, a: Arpa)
    requires rev >= 1 && Brief(ls) && o.arpa(NameOf(ls)) == Some(a) && o.mxName.None?
    requires (o.selfMx ==> host <= MAXDNAME - 6) && (o.bogusPriv ==> forall a :: TextSize(0, o.dotted(a)) <= MAXDNAME + RRFIXEDSZ)
    ensures Safe(o, PROGRAM_SIZE, rev, host) <==> rev <= MAXDNAME - 4
  {
    hide TextSize, NameOf, Safe;
    SafeExactly(o, PROGRAM_SIZE, rev, host, ls, a, ls);
  }
}
