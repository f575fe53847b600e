/** How large the packet's memory must be. answer_request looks at its limit only after a record has
    been written, so records can end behind the limit. */
module DnsBuffers {
  import opened Options
  import opened Bytes
  import opened DnsNames
  import opened DnsPackets
  import opened DnsCompare
  import opened DnsRecords
  import opened DnsSection
  import opened DnsAnswers
  import opened DnsReplies
  import opened DnsReplySafety
  import opened DnsReplyRecords
  import opened CacheRecords
  import opened CacheRuns
  import CacheHistory

  // ---- the length of a record

  function TextSize(pref: nat, name: string): nat { 12 + (if pref != 0 then 2 else 0) + |Encode(ToBytes(name))| }

  lemma TextHas(owner: nat, ttl: nat, pref: nat, rtype: nat, name: string)
    ensures |RecordBytes(owner, ttl, pref, rtype, ToBytes(name))| == TextSize(pref, name)
  {
    hide Encode, Long, ToBytes;
    LongLength(ttl);
  }

  function SizeFor(path: Path, r: Rec): nat { if path.ToName? then TextSize(0, r.name) else if path.ToV6? then 28 else 16 }

  lemma RecordHas(path: Path, r: Rec, owner: nat, now: int)
    ensures |RecordFor(path, r, owner, now)| == SizeFor(path, r)
  {
    hide Ttl, TextSize, AddressRecord, RecordBytes;
    TextHas(owner, Ttl(r, now), 0, T_PTR, r.name);
    AddressLength(owner, Ttl(r, now), r.addr, path.ToV6?);
  }

  // ---- one lookup

  // The record at k is written: everything before it fits, and a wildcard question has met nothing foreign.
  ghost predicate Comes(path: Path, found: seq<Rec>, any: bool, owner: nat, now: int, used: nat, room: nat, k: nat)
    requires k < |found|
  {
    && !(any && SomeForeign(found[..k + 1])) && Written(path, found[k])
    && used + |Flat(Given(path, found[..k], owner, now))| <= room
  }

  /** The answers from one lookup leave the memory if and only if some record that is written starts
      within the limit and ends behind the memory. */
  lemma {:induction false} OverExactly(path: Path, found: seq<Rec>, any: bool, owner: nat, now: int, used: nat, box: Box)
    requires used <= box.room <= box.size
    ensures Ends(path, found, any, owner, now, used, box).Over?
       <==> exists k :: 0 <= k < |found| && Comes(path, found, any, owner, now, used, box.room, k)
                        && used + |Flat(Given(path, found[..k], owner, now))| + SizeFor(path, found[k]) > box.size
  {
    hide RecordFor, Flat, Given, Written, SizeFor, Comes, SomeForeign, EndsOne;
    if found != [] {
      var n := |found| - 1;
      var rest, r := found[..n], found[n];
      OverExactly(path, rest, any, owner, now, used, box);
      forall k | 0 <= k < n
        ensures Comes(path, found, any, owner, now, used, box.room, k) == Comes(path, rest, any, owner, now, used, box.room, k)
        ensures rest[..k] == found[..k]
      {
        ComesSame(path, found, any, owner, now, used, box.room, k);
      }
      LastOver(path, found, any, owner, now, used, box);
    }
  }

  lemma ComesSame(path: Path, found: seq<Rec>, any: bool, owner: nat, now: int, used: nat, room: nat, k: nat)
    requires k < |found| - 1
    ensures var rest := found[..|found| - 1];
            rest[..k] == found[..k] && Comes(path, found, any, owner, now, used, room, k) == Comes(path, rest, any, owner, now, used, room, k)
  {
    var rest := found[..|found| - 1];
    assert rest[..k] == found[..k] && rest[..k + 1] == found[..k + 1];
  }

  // The last record is the one that leaves, if all before it went well.
  lemma LastOver(path: Path, found: seq<Rec>, any: bool, owner: nat, now: int, used: nat, box: Box)
    requires found != [] && used <= box.room <= box.size
    ensures var n := |found| - 1;
            var rest, at := found[..n], used + |Flat(Given(path, found[..n], owner, now))|;
            && (Ends(path, rest, any, owner, now, used, box).Fine? ==>
                 (Ends(path, found, any, owner, now, used, box).Over?
                  <==> Comes(path, found, any, owner, now, used, box.room, n) && at + SizeFor(path, found[n]) > box.size))
            && (Ends(path, rest, any, owner, now, used, box).Up? ==> !Comes(path, found, any, owner, now, used, box.room, n))
  {
    hide RecordFor, Flat, Given, Written, SizeFor, Local;
    var n := |found| - 1;
    EndsFine(path, found[..n], any, owner, now, used, box);
    assert found == found[..n] + [found[n]] && found[..n + 1] == found;
    ForeignMore(found[..n], found[n]);
    RecordHas(path, found[n], owner, now);
  }

  ghost predicate StaysFrom(path: Path, found: seq<Rec>, any: bool, owner: nat, now: int, limit: nat, size: nat, start: nat)
    requires start <= limit <= size
  {
    !Ends(path, found, any, owner, now, 0, Box(limit - start, size - start)).Over?
  }

  /** Wherever the answers from a lookup may start, they stay inside the memory if and only if each record
      that can still start within the limit fits behind the limit. */
  lemma StaysExactly(path: Path, found: seq<Rec>, any: bool, owner: nat, now: int, limit: nat, size: nat)
    requires limit <= size
    ensures (forall start :: 0 <= start <= limit ==> StaysFrom(path, found, any, owner, now, limit, size, start))
       <==> forall k :: 0 <= k < |found| && Comes(path, found, any, owner, now, 0, limit, k) ==> limit + SizeFor(path, found[k]) <= size
  {
    hide Ends, Flat, Given, SizeFor, SomeForeign, Written;
    forall start | 0 <= start <= limit
      ensures StaysFrom(path, found, any, owner, now, limit, size, start)
         <==> forall k :: 0 <= k < |found| && Comes(path, found, any, owner, now, 0, limit - start, k) ==>
                |Flat(Given(path, found[..k], owner, now))| + SizeFor(path, found[k]) <= size - start
    {
      OverExactly(path, found, any, owner, now, 0, Box(limit - start, size - start));
    }
    if forall start :: 0 <= start <= limit ==> StaysFrom(path, found, any, owner, now, limit, size, start) {
      forall k | 0 <= k < |found| && Comes(path, found, any, owner, now, 0, limit, k)
        ensures limit + SizeFor(path, found[k]) <= size
      {
        var start := limit - |Flat(Given(path, found[..k], owner, now))|;
        assert StaysFrom(path, found, any, owner, now, limit, size, start) && Comes(path, found, any, owner, now, 0, limit - start, k);
      }
    }
    if forall k :: 0 <= k < |found| && Comes(path, found, any, owner, now, 0, limit, k) ==> limit + SizeFor(path, found[k]) <= size {
      forall start | 0 <= start <= limit
        ensures StaysFrom(path, found, any, owner, now, limit, size, start)
      {
        forall k | 0 <= k < |found| && Comes(path, found, any, owner, now, 0, limit - start, k)
          ensures |Flat(Given(path, found[..k], owner, now))| + SizeFor(path, found[k]) <= size - start
        {
          assert Comes(path, found, any, owner, now, 0, limit, k);
        }
      }
    }
  }

  // ---- whole requests

  // Every record that a question can be answered with fits behind the limit.
  ghost predicate Roomy(recs: seq<Rec>, o: Settings, limit: nat, size: nat) {
    && limit + 28 <= size
    && (forall r :: r in recs && r.rev ==> limit + TextSize(0, r.name) <= size)
    && (o.mxName.Some? ==> limit + TextSize(1, o.mxTarget) <= size)
    && (o.selfMx ==> forall r :: r in recs && r.fwd && Local(r) ==> limit + TextSize(1, r.name) <= size)
    && (o.bogusPriv ==> forall a :: limit + TextSize(0, o.dotted(a)) <= size)
  }

  // Not left the memory, and if the request goes on, within the limit.
  ghost predicate Inside(s: Stage, box: Box) { !s.status.Over? && (s.status.Fine? ==> |Flat(s.records)| <= box.room) }

  predicate BoxFor(box: Box, limit: nat, size: nat) { box.size - box.room == size - limit && box.room <= limit }

  lemma {:induction false} EndsInside(path: Path, found: seq<Rec>, any: bool, owner: nat, now: int, used: nat, box: Box, limit: nat, size: nat)
    requires BoxFor(box, limit, size) && limit <= size && used <= box.room
    requires forall i :: 0 <= i < |found| ==> limit + SizeFor(path, found[i]) <= size
    ensures !Ends(path, found, any, owner, now, used, box).Over?
  {
    hide Ends, SizeFor;
    OverExactly(path, found, any, owner, now, used, box);
  }

  lemma CacheInside(s: Stage, path: Path, q: Query, ask: Ask, now: int, box: Box, recs: seq<Rec>, o: Settings, limit: nat, size: nat)
    requires SameFresh(s.st.recs, recs, now) && Roomy(recs, o, limit, size) && BoxFor(box, limit, size) && s.status.Fine? && Inside(s, box)
    requires path.ToName? ==> q.target.Address?
    ensures var t := FromCache(s, path, q, ask, now, box); Inside(t, box) && SameFresh(t.st.recs, recs, now)
  {
    hide Given, Front, Swept, Ends, SomeNx, AllKnown, Count, Flat, Matches, SameFresh, TextSize, SomeForeign, Times;
    var found := Front(s.st.recs, Lookup(q, now));
    SweptFresh(s.st, recs, q, now);
    FrontAll(s.st.recs, recs, q, now);
    forall i | 0 <= i < |found|
      ensures limit + SizeFor(path, found[i]) <= size
    {
      TimesMember(found, found[i]);
      TimesMember(recs, found[i]);
      if path.ToName? { Reverse(found[i], q, now); }
    }
    var used := |Flat(s.records)|;
    EndsInside(path, found, ask.qtype == T_ANY, ask.owner, now, used, box, limit, size);
    EndsFine(path, found, ask.qtype == T_ANY, ask.owner, now, used, box);
    FlatConcat(s.records, Given(path, found, ask.owner, now));
  }

  lemma Reverse(r: Rec, q: Query, now: int)
    requires Matches(r, q, now) && q.target.Address?
    ensures r.rev
  {
  }

  lemma TextInside(s: Stage, ask: Ask, pref: nat, rtype: nat, name: string, box: Box, limit: nat, size: nat)
    requires s.status.Fine? && Inside(s, box) && BoxFor(box, limit, size) && limit + TextSize(pref, name) <= size
    ensures Inside(WithText(s, ask, pref, rtype, name, box), box)
  {
    hide RecordBytes, Flat, TextSize, ToBytes;
    FlatMore(s.records, RecordBytes(ask.owner, 0, pref, rtype, ToBytes(name)));
    TextHas(ask.owner, 0, pref, rtype, name);
  }

  lemma AddressInside(s: Stage, path: Path, ask: Ask, o: Settings, now: int, box: Box, recs: seq<Rec>, limit: nat, size: nat)
    requires SameFresh(s.st.recs, recs, now) && Roomy(recs, o, limit, size) && BoxFor(box, limit, size) && s.status.Fine? && Inside(s, box)
    requires !path.ToName?
    ensures var t := AddressStage(s, path, ask, o, now, box); Inside(t, box) && SameFresh(t.st.recs, recs, now)
  {
    hide FromCache, SameFresh, Roomy, Flat;
    CacheInside(s, path, NameQuery(ask.name, path.ToV6?), ask, now, box, recs, o, limit, size);
  }

  lemma MxInside(s: Stage, ask: Ask, o: Settings, now: int, box: Box, recs: seq<Rec>, limit: nat, size: nat)
    requires SameFresh(s.st.recs, recs, now) && Roomy(recs, o, limit, size) && BoxFor(box, limit, size) && s.status.Fine? && Inside(s, box)
    ensures Inside(MxStage(s, ask, o, now, box), box)
  {
    hide WithText, SameFresh, Front, TextSize, Flat, Matches, Swept;
    var q := Query(Name(ask.name), LocalData);
    FrontAll(s.st.recs, recs, q, now);
    if o.mxName == Some(ask.name) {
      TextInside(s, ask, 1, T_MX, o.mxTarget, box, limit, size);
    } else if o.selfMx && Front(s.st.recs, Lookup(q, now)) != [] {
      var r :| r in recs && Matches(r, q, now);
      Locally(r, ask.name, now);
      TextInside(s.(st := Swept(s.st, Lookup(q, now))), ask, 1, T_MX, ask.name, box, limit, size);
    }
  }

  lemma Locally(r: Rec, name: string, now: int)
    requires Matches(r, Query(Name(name), LocalData), now)
    ensures r.fwd && Local(r) && r.name == name
  {
  }

  lemma PtrInside(s: Stage, ask: Ask, a: Arpa, o: Settings, now: int, box: Box, recs: seq<Rec>, limit: nat, size: nat)
    requires SameFresh(s.st.recs, recs, now) && Roomy(recs, o, limit, size) && BoxFor(box, limit, size) && s.status.Fine? && Inside(s, box)
    ensures Inside(PtrStage(s, ask, a, o, now, box), box)
  {
    hide FromCache, WithText, SameFresh, TextSize, Flat;
    CacheInside(s, ToName, AddrQuery(a), ask, now, box, recs, o, limit, size);
    var t := FromCache(s, ToName, AddrQuery(a), ask, now, box);
    if t.status.Fine? && o.bogusPriv { TextInside(t, ask, 0, T_PTR, o.dotted(a.addr), box, limit, size); }
  }

  lemma QuestionInside(st: State, t: Tally, ask: Ask, o: Settings, now: int, box: Box, recs: seq<Rec>, limit: nat, size: nat)
    requires SameFresh(st.recs, recs, now) && Roomy(recs, o, limit, size) && BoxFor(box, limit, size)
    ensures !QuestionStage(Stage(st, t, [], Fine), ask, o, now, box).status.Over?
  {
    hide AddressStage, MxStage, PtrStage, SameFresh, Roomy;
    FlatNone();
    var s := Stage(st, t, [], Fine);
    var s1 := if o.filter && (ask.qtype == T_SOA || ask.qtype == T_SRV) then s.(tally := s.tally.(ans := true)) else s;
    match o.arpa(ask.name) {
      case None =>
        AddressInside(s1, ToV4, ask, o, now, box, recs, limit, size);
        var s2 := if Asks(ask, T_A) then AddressStage(s1, ToV4, ask, o, now, box) else s1;
        if s2.status.Fine? {
          AddressInside(s2, ToV6, ask, o, now, box, recs, limit, size);
          var s3 := if Asks(ask, T_AAAA) then AddressStage(s2, ToV6, ask, o, now, box) else s2;
          if s3.status.Fine? { MxInside(s3, ask, o, now, box, recs, limit, size); }
        }
      case Some(a) => PtrInside(s1, ask, a, o, now, box, recs, limit, size);
    }
  }

  lemma TurnInside(o: Settings, now: int, l: Loop, plen: nat, limit: nat, recs: seq<Rec>)
    requires Sized(l, plen, limit) && SameFresh(l.st.recs, recs, now) && Roomy(recs, o, limit, |l.mem|)
    ensures var t := OneTurn(Answering(o, now), l, plen, limit);
            match t
            case Out(r) => !r.Overrun?
            case On(next) => |next.mem| == |l.mem| && SameFresh(next.st.recs, recs, now)
  {
    hide Roomy, SameFresh, Flat, LabelsAt, End, U16, Buffer, ToText, QuestionStage, Extractable, Splice, PlacedAll, Exact;
    var name := NameAt(l.mem, plen, l.p);
    if name.Some? && name.value != [] {
      NameEnd(l.mem, plen, l.p);
      var ask, box := Ask(l.p, NameOf(name.value), U16(l.mem, End(l.mem, l.p))), BoxAt(l.mem, l.ansp, limit);
      QuestionInside(l.st, TallyOf(l), ask, o, now, box, recs, limit, |l.mem|);
      QuestionExact(l.st, TallyOf(l), ask, o, now, box, recs);
      var rs := QuestionStage(Stage(l.st, TallyOf(l), [], Fine), ask, o, now, box).records;
      if l.ansp + |Flat(rs)| <= limit { SpliceAppends(l.mem, l.ansp, l.ansp, Flat(rs)); }
    }
  }

  /** If every record that can be given fits behind the limit, no request is answered past the memory,
      however many questions it has. */
  lemma {:induction false} RepliesInside(o: Settings, now: int, l: Loop, plen: nat, n: nat, limit: nat, recs: seq<Rec>)
    requires SameFresh(l.st.recs, recs, now) && Roomy(recs, o, limit, |l.mem|)
    ensures !Replies(Turning(o, now, plen, limit), l, n).Overrun?
    decreases n
  {
    hide OneTurn, SameFresh, Roomy, Sized;
    if n > 0 && Sized(l, plen, limit) {
      TurnInside(o, now, l, plen, limit, recs);
      var t := OneTurn(Answering(o, now), l, plen, limit);
      if t.On? { RepliesInside(o, now, t.next, plen, n - 1, limit, recs); }
    }
  }
}
