/** What a reply of answer_request says: for every question of the request exactly the fresh records
    that match it in the cache as it was, each as often as it is stored and with the TTL it has left,
    and the texts that the settings prescribe. */
module DnsReplyRecords {
  import opened Options
  import opened Bytes
  import opened DnsNames
  import opened DnsPackets
  import opened DnsCompare
  import opened DnsRecords
  import opened DnsSection
  import opened DnsAnswers
  import opened DnsReplies
  import opened DnsReplySafety
  import opened CacheRecords
  import opened CacheRuns
  import opened CacheTheorems

  // ---- what a question should be answered with

  function NameQuery(name: string, v6: bool): Query { Query(Name(name), if v6 then OnlyV6 else OnlyV4) }

  function AddrQuery(a: Arpa): Query { Query(Address(a.addr), if a.v6 then OnlyV6 else OnlyV4) }

  // Every fresh match, as often as it is stored, and nothing else.
  ghost predicate AllMatches(found: seq<Rec>, recs: seq<Rec>, q: Query, now: int) {
    forall r :: Times(found, r) == if Matches(r, q, now) then Times(recs, r) else 0
  }

  ghost predicate Known(recs: seq<Rec>, q: Query, now: int) { exists r :: r in recs && Matches(r, q, now) }

  // The answers to one kind of question, if it is asked.
  ghost predicate IsPart(rs: seq<seq<Byte>>, recs: seq<Rec>, path: Path, q: Query, ask: Ask, now: int, asked: bool) {
    if asked then exists found :: AllMatches(found, recs, q, now) && rs == Given(path, found, ask.owner, now) else rs == []
  }

  predicate Hushed(ask: Ask, o: Settings) { o.filter && ask.qtype == T_ANY && '_' in ask.name }

  function FixedText(ask: Ask, pref: nat, rtype: nat, name: string): seq<Byte> { RecordBytes(ask.owner, 0, pref, rtype, ToBytes(name)) }

  // The fixed exchanger, or for a host that is known locally the host itself.
  ghost function MxPart(recs: seq<Rec>, ask: Ask, o: Settings, now: int): seq<seq<Byte>> {
    if !Asks(ask, T_MX) then []
    else if o.mxName == Some(ask.name) then [FixedText(ask, 1, T_MX, o.mxTarget)]
    else if o.selfMx && Known(recs, Query(Name(ask.name), LocalData), now) then [FixedText(ask, 1, T_MX, ask.name)]
    else []
  }

  // A private address that is not known is named by its own digits.
  ghost function FakePart(recs: seq<Rec>, ask: Ask, a: Arpa, o: Settings, now: int): seq<seq<Byte>> {
    if !a.v6 && o.bogusPriv && o.private(a.addr) && !Known(recs, AddrQuery(a), now)
    then [FixedText(ask, 0, T_PTR, o.dotted(a.addr))] else []
  }

  ghost predicate HostExact(rs: seq<seq<Byte>>, recs: seq<Rec>, ask: Ask, o: Settings, now: int, v4: seq<seq<Byte>>, v6: seq<seq<Byte>>) {
    && IsPart(v4, recs, ToV4, NameQuery(ask.name, false), ask, now, Asks(ask, T_A) && !Hushed(ask, o))
    && IsPart(v6, recs, ToV6, NameQuery(ask.name, true), ask, now, Asks(ask, T_AAAA) && !Hushed(ask, o))
    && rs == v4 + v6 + MxPart(recs, ask, o, now)
  }

  ghost predicate PtrExact(rs: seq<seq<Byte>>, recs: seq<Rec>, ask: Ask, a: Arpa, o: Settings, now: int, names: seq<seq<Byte>>) {
    && IsPart(names, recs, ToName, AddrQuery(a), ask, now, true)
    && rs == names + FakePart(recs, ask, a, o, now)
  }

  // The whole answer to a question.
  ghost predicate Exact(rs: seq<seq<Byte>>, recs: seq<Rec>, ask: Ask, o: Settings, now: int) {
    match o.arpa(ask.name)
    case None => exists v4, v6 :: HostExact(rs, recs, ask, o, now, v4, v6)
    case Some(a) => if Asks(ask, T_PTR) then exists names :: PtrExact(rs, recs, ask, a, o, now, names) else rs == []
  }

  // ---- the stages answer exactly that

  // Whatever can be found now could be found before, as often.
  ghost predicate SameFresh(s: seq<Rec>, recs: seq<Rec>, now: int) {
    forall q, r :: Matches(r, q, now) ==> Times(s, r) == Times(recs, r)
  }

  lemma SweptFresh(st: State, recs: seq<Rec>, q: Query, now: int)
    requires SameFresh(st.recs, recs, now)
    ensures SameFresh(Swept(st, Lookup(q, now)).recs, recs, now)
  {
    hide Matches, Swept, Times;
    forall p, r | Matches(r, p, now)
      ensures Times(Swept(st, Lookup(q, now)).recs, r) == Times(recs, r)
    {
      LookupHarmless(st, q, now, p, now, r);
    }
  }

  lemma FrontAll(s: seq<Rec>, recs: seq<Rec>, q: Query, now: int)
    requires SameFresh(s, recs, now)
    ensures AllMatches(Front(s, Lookup(q, now)), recs, q, now)
    ensures Front(s, Lookup(q, now)) != [] <==> Known(recs, q, now)
  {
    hide Front, Matches, Times;
    var found := Front(s, Lookup(q, now));
    forall r
      ensures Times(found, r) == if Matches(r, q, now) then Times(recs, r) else 0
    {
      FrontTimes(s, q, now, r);
    }
    if found != [] {
      TimesMember(found, found[0]);
      TimesMember(recs, found[0]);
      assert found[0] in recs && Matches(found[0], q, now);
    } else if Known(recs, q, now) {
      var r :| r in recs && Matches(r, q, now);
      TimesMember(recs, r);
      TimesMember(found, r);
      assert false;
    }
  }

  lemma CacheExact(s: Stage, path: Path, q: Query, ask: Ask, now: int, box: Box, recs: seq<Rec>) returns (p: seq<seq<Byte>>)
    requires SameFresh(s.st.recs, recs, now)
    ensures var t := FromCache(s, path, q, ask, now, box);
            && SameFresh(t.st.recs, recs, now)
            && (t.status.Fine? ==> t.records == s.records + p && t.tally.ans == (s.tally.ans || Known(recs, q, now)))
    ensures IsPart(p, recs, path, q, ask, now, true)
  {
    hide Given, Front, Swept, Ends, SomeNx, AllKnown, Count, Flat, Matches, SameFresh, AllMatches, Known;
    var found := Front(s.st.recs, Lookup(q, now));
    SweptFresh(s.st, recs, q, now);
    FrontAll(s.st.recs, recs, q, now);
    p := Given(path, found, ask.owner, now);
  }

  lemma AddressExact(s: Stage, path: Path, ask: Ask, o: Settings, now: int, box: Box, recs: seq<Rec>) returns (p: seq<seq<Byte>>)
    requires SameFresh(s.st.recs, recs, now) && !path.ToName?
    ensures var t := AddressStage(s, path, ask, o, now, box);
            SameFresh(t.st.recs, recs, now) && (t.status.Fine? ==> t.records == s.records + p)
    ensures IsPart(p, recs, path, NameQuery(ask.name, path.ToV6?), ask, now, !Hushed(ask, o))
  {
    hide FromCache, SameFresh;
    if Hushed(ask, o) {
      p := [];
      assert s.records + p == s.records;
    } else {
      p := CacheExact(s, path, NameQuery(ask.name, path.ToV6?), ask, now, box, recs);
    }
  }

  lemma TextKeeps(s: Stage, ask: Ask, pref: nat, rtype: nat, name: string, box: Box)
    ensures var t := WithText(s, ask, pref, rtype, name, box);
            t.st == s.st && (t.status.Fine? ==> t.records == s.records + [FixedText(ask, pref, rtype, name)])
  {
    hide RecordBytes, Flat, ToBytes;
  }

  lemma MxExact(s: Stage, ask: Ask, o: Settings, now: int, box: Box, recs: seq<Rec>)
    requires SameFresh(s.st.recs, recs, now) && Asks(ask, T_MX)
    ensures var t := MxStage(s, ask, o, now, box);
            SameFresh(t.st.recs, recs, now) && (t.status.Fine? ==> t.records == s.records + MxPart(recs, ask, o, now))
  {
    hide WithText, SameFresh, Front, Known, FixedText;
    var q := Query(Name(ask.name), LocalData);
    SweptFresh(s.st, recs, q, now);
    FrontAll(s.st.recs, recs, q, now);
    assert s.records + [] == s.records;
    TextKeeps(s, ask, 1, T_MX, o.mxTarget, box);
    TextKeeps(s.(st := Swept(s.st, Lookup(q, now))), ask, 1, T_MX, ask.name, box);
  }

  lemma HostIsExact(s: Stage, ask: Ask, o: Settings, now: int, box: Box, recs: seq<Rec>)
    requires SameFresh(s.st.recs, recs, now) && s.records == [] && s.status.Fine?
    ensures var t := HostStage(s, ask, o, now, box);
            SameFresh(t.st.recs, recs, now) && (t.status.Fine? ==> exists v4, v6 :: HostExact(t.records, recs, ask, o, now, v4, v6))
  {
    hide AddressStage, MxStage, SameFresh, FixedText, NameQuery, Hushed;
    var v4: seq<seq<Byte>>, v6: seq<seq<Byte>> := [], [];
    var s1 := if Asks(ask, T_A) then AddressStage(s, ToV4, ask, o, now, box) else s;
    if Asks(ask, T_A) { v4 := AddressExact(s, ToV4, ask, o, now, box, recs); }
    var s2 := if s1.status.Fine? && Asks(ask, T_AAAA) then AddressStage(s1, ToV6, ask, o, now, box) else s1;
    if s1.status.Fine? && Asks(ask, T_AAAA) { v6 := AddressExact(s1, ToV6, ask, o, now, box, recs); }
    if s2.status.Fine? {
      assert s2.records == v4 + v6;
      if Asks(ask, T_MX) { MxExact(s2, ask, o, now, box, recs); }
      assert v4 + v6 + [] == v4 + v6;
      assert HostStage(s, ask, o, now, box).status.Fine? ==> HostExact(HostStage(s, ask, o, now, box).records, recs, ask, o, now, v4, v6);
    }
  }

  lemma PtrIsExact(s: Stage, ask: Ask, a: Arpa, o: Settings, now: int, box: Box, recs: seq<Rec>)
    requires SameFresh(s.st.recs, recs, now) && s.records == [] && !s.tally.ans
    ensures var t := PtrStage(s, ask, a, o, now, box);
            SameFresh(t.st.recs, recs, now) && (t.status.Fine? ==> exists names :: PtrExact(t.records, recs, ask, a, o, now, names))
  {
    hide FromCache, WithText, SameFresh, FixedText, Known, IsPart;
    var q := AddrQuery(a);
    var names := CacheExact(s, ToName, q, ask, now, box, recs);
    var t := FromCache(s, ToName, q, ask, now, box);
    TextKeeps(t, ask, 0, T_PTR, o.dotted(a.addr), box);
    assert names + [] == names && s.records + names == names;
    var u := PtrStage(s, ask, a, o, now, box);
    assert u.status.Fine? ==> PtrExact(u.records, recs, ask, a, o, now, names);
  }

  /** One question is answered with exactly what the cache knows and the settings prescribe, whatever
      was looked up before. */
  lemma QuestionExact(st: State, t: Tally, ask: Ask, o: Settings, now: int, box: Box, recs: seq<Rec>)
    requires SameFresh(st.recs, recs, now) && !t.ans
    ensures var u := QuestionStage(Stage(st, t, [], Fine), ask, o, now, box);
            SameFresh(u.st.recs, recs, now) && (u.status.Fine? ==> Exact(u.records, recs, ask, o, now))
  {
    hide HostStage, PtrStage, SameFresh, HostExact, PtrExact;
    var s := Stage(st, t, [], Fine);
    var s1 := if o.filter && (ask.qtype == T_SOA || ask.qtype == T_SRV) then s.(tally := s.tally.(ans := true)) else s;
    match o.arpa(ask.name) {
      case None => HostIsExact(s1, ask, o, now, box, recs);
      case Some(a) => if Asks(ask, T_PTR) { PtrIsExact(s1, ask, a, o, now, box, recs); }
    }
  }

  // ---- every record has a source

  // What is looked up for the question on each path.
  predicate Looks(path: Path, ask: Ask, arpa: string -> Option<Arpa>, q: Query) {
    if path.ToName? then arpa(ask.name).Some? && q == AddrQuery(arpa(ask.name).value) else q == NameQuery(ask.name, path.ToV6?)
  }

  ghost predicate IsAnswer(rec: seq<Byte>, recs: seq<Rec>, ask: Ask, arpa: string -> Option<Arpa>, now: int, path: Path, q: Query, r: Rec) {
    && r in recs && Looks(path, ask, arpa, q) && Matches(r, q, now) && Written(path, r)
    && rec == RecordFor(path, r, ask.owner, now)
  }

  // A record of the cache, or a fixed text.
  ghost predicate Sourced(rec: seq<Byte>, recs: seq<Rec>, ask: Ask, arpa: string -> Option<Arpa>, now: int) {
    || (exists path, q, r :: IsAnswer(rec, recs, ask, arpa, now, path, q, r))
    || exists pref, rtype, name :: rec == FixedText(ask, pref, rtype, name)
  }

  ghost predicate AllSourced(rs: seq<seq<Byte>>, recs: seq<Rec>, ask: Ask, arpa: string -> Option<Arpa>, now: int) {
    forall i :: 0 <= i < |rs| ==> Sourced(rs[i], recs, ask, arpa, now)
  }

  lemma {:induction false} GivenSourced(path: Path, found: seq<Rec>, recs: seq<Rec>, q: Query, ask: Ask, arpa: string -> Option<Arpa>, now: int)
    requires Looks(path, ask, arpa, q)
    requires forall i :: 0 <= i < |found| ==> found[i] in recs && Matches(found[i], q, now)
    ensures AllSourced(Given(path, found, ask.owner, now), recs, ask, arpa, now)
  {
    hide RecordFor, Matches, FixedText;
    if found != [] {
      var n := |found| - 1;
      GivenSourced(path, found[..n], recs, q, ask, arpa, now);
      if Written(path, found[n]) {
        assert IsAnswer(RecordFor(path, found[n], ask.owner, now), recs, ask, arpa, now, path, q, found[n]);
      }
    }
  }

  lemma PartSourced(rs: seq<seq<Byte>>, recs: seq<Rec>, path: Path, q: Query, ask: Ask, arpa: string -> Option<Arpa>, now: int, asked: bool)
    requires IsPart(rs, recs, path, q, ask, now, asked) && (asked ==> Looks(path, ask, arpa, q))
    ensures AllSourced(rs, recs, ask, arpa, now)
  {
    hide Sourced, Given, Matches, Times;
    if asked {
      var found :| AllMatches(found, recs, q, now) && rs == Given(path, found, ask.owner, now);
      forall i | 0 <= i < |found|
        ensures found[i] in recs && Matches(found[i], q, now)
      {
        TimesMember(found, found[i]);
        TimesMember(recs, found[i]);
      }
      GivenSourced(path, found, recs, q, ask, arpa, now);
    }
  }

  lemma TextsSourced(rs: seq<seq<Byte>>, recs: seq<Rec>, ask: Ask, arpa: string -> Option<Arpa>, now: int, pref: nat, rtype: nat, name: string)
    requires rs == [FixedText(ask, pref, rtype, name)]
    ensures AllSourced(rs, recs, ask, arpa, now)
  {
    hide IsAnswer;
  }

  lemma SourcedMore(a: seq<seq<Byte>>, b: seq<seq<Byte>>, recs: seq<Rec>, ask: Ask, arpa: string -> Option<Arpa>, now: int)
    requires AllSourced(a, recs, ask, arpa, now) && AllSourced(b, recs, ask, arpa, now)
    ensures AllSourced(a + b, recs, ask, arpa, now)
  {
    hide Sourced;
  }

  lemma MxSourced(recs: seq<Rec>, ask: Ask, o: Settings, now: int)
    ensures AllSourced(MxPart(recs, ask, o, now), recs, ask, o.arpa, now)
  {
    hide Sourced, FixedText, Known;
    TextsSourced([FixedText(ask, 1, T_MX, o.mxTarget)], recs, ask, o.arpa, now, 1, T_MX, o.mxTarget);
    TextsSourced([FixedText(ask, 1, T_MX, ask.name)], recs, ask, o.arpa, now, 1, T_MX, ask.name);
  }

  lemma FakeSourced(recs: seq<Rec>, ask: Ask, a: Arpa, o: Settings, now: int)
    ensures AllSourced(FakePart(recs, ask, a, o, now), recs, ask, o.arpa, now)
  {
    hide Sourced, FixedText, Known;
    TextsSourced([FixedText(ask, 0, T_PTR, o.dotted(a.addr))], recs, ask, o.arpa, now, 0, T_PTR, o.dotted(a.addr));
  }

  lemma ExactSourced(rs: seq<seq<Byte>>, recs: seq<Rec>, ask: Ask, o: Settings, now: int)
    requires Exact(rs, recs, ask, o, now)
    ensures AllSourced(rs, recs, ask, o.arpa, now)
  {
    hide AllSourced, IsPart, MxPart, FakePart, Hushed;
    match o.arpa(ask.name) {
      case None =>
        var v4, v6 :| HostExact(rs, recs, ask, o, now, v4, v6);
        PartSourced(v4, recs, ToV4, NameQuery(ask.name, false), ask, o.arpa, now, Asks(ask, T_A) && !Hushed(ask, o));
        PartSourced(v6, recs, ToV6, NameQuery(ask.name, true), ask, o.arpa, now, Asks(ask, T_AAAA) && !Hushed(ask, o));
        MxSourced(recs, ask, o, now);
        SourcedMore(v4, v6, recs, ask, o.arpa, now);
        SourcedMore(v4 + v6, MxPart(recs, ask, o, now), recs, ask, o.arpa, now);
      case Some(a) =>
        if Asks(ask, T_PTR) {
          var names :| PtrExact(rs, recs, ask, a, o, now, names);
          PartSourced(names, recs, ToName, AddrQuery(a), ask, o.arpa, now, true);
          FakeSourced(recs, ask, a, o, now);
          SourcedMore(names, FakePart(recs, ask, a, o, now), recs, ask, o.arpa, now);
        } else {
          NoneSourced(recs, ask, o.arpa, now);
        }
    }
  }

  lemma NoneSourced(recs: seq<Rec>, ask: Ask, arpa: string -> Option<Arpa>, now: int)
    ensures AllSourced([], recs, ask, arpa, now)
  {
  }

  // ---- all questions

  // A question, where its answers start, and the answers.
  datatype Part = Part(ask: Ask, at: nat, records: seq<seq<Byte>>)

  function Records(parts: seq<Part>): seq<seq<Byte>> {
    if parts == [] then [] else Records(parts[..|parts| - 1]) + parts[|parts| - 1].records
  }

  function LogOf(parts: seq<Part>): seq<Placed> {
    if parts == [] then []
    else
      var p := parts[|parts| - 1];
      LogOf(parts[..|parts| - 1]) + PlacedAll(p.records, p.at, p.ask.owner)
  }

  // A question as it is read when its turn comes; answers may have been written behind the questions.
  ghost predicate Read(mem: seq<Byte>, plen: nat, ask: Ask, ls: Labels) {
    && plen <= |mem| && ls != [] && NameAt(mem, plen, ask.owner) == Some(ls) && ask.name == NameOf(ls)
    && End(mem, ask.owner) + 4 <= |mem| && ask.qtype == U16(mem, End(mem, ask.owner)) && U16(mem, End(mem, ask.owner) + 2) == C_IN
  }

  ghost predicate Asked(mem0: seq<Byte>, start: nat, plen: nat, ask: Ask)
    requires start <= |mem0|
  {
    exists m, ls :: |m| == |mem0| && m[..start] == mem0[..start] && Read(m, plen, ask, ls)
  }

  // The i-th question, its answers, and where they are.
  ghost predicate PartOk(mem0: seq<Byte>, start: nat, plen: nat, recs: seq<Rec>, o: Settings, now: int, parts: seq<Part>, i: nat)
    requires start <= |mem0| && plen <= |mem0| && i < |parts|
  {
    var p := parts[i];
    && Skip(mem0, plen, i, HEADER_SIZE) == Some(p.ask.owner) && Asked(mem0, start, plen, p.ask)
    && p.at == start + |Flat(Records(parts[..i]))| && Exact(p.records, recs, p.ask, o, now)
  }

  ghost predicate PartsOk(mem0: seq<Byte>, start: nat, plen: nat, recs: seq<Rec>, o: Settings, now: int, parts: seq<Part>)
    requires start <= |mem0| && plen <= |mem0|
  {
    forall i :: 0 <= i < |parts| ==> PartOk(mem0, start, plen, recs, o, now, parts, i)
  }

  // The reply so far: the request, then the answers to its questions and nothing else.
  ghost predicate Accounted(mem0: seq<Byte>, start: nat, plen: nat, recs: seq<Rec>, o: Settings, now: int, parts: seq<Part>,
                            mem: seq<Byte>, ansp: nat, log: seq<Placed>)
    requires start <= |mem0| && plen <= |mem0|
  {
    && |mem| == |mem0| && start <= ansp <= |mem| && mem[..start] == mem0[..start] && mem[start..ansp] == Flat(Records(parts))
    && log == LogOf(parts) && PartsOk(mem0, start, plen, recs, o, now, parts)
  }

  lemma RecordsMore(parts: seq<Part>, p: Part)
    ensures Records(parts + [p]) == Records(parts) + p.records && LogOf(parts + [p]) == LogOf(parts) + PlacedAll(p.records, p.at, p.ask.owner)
  {
    hide PlacedAll;
    assert (parts + [p])[..|parts|] == parts;
  }

  lemma PartsMore(mem0: seq<Byte>, start: nat, plen: nat, recs: seq<Rec>, o: Settings, now: int, parts: seq<Part>, p: Part)
    requires start <= |mem0| && plen <= |mem0| && PartsOk(mem0, start, plen, recs, o, now, parts)
    requires Skip(mem0, plen, |parts|, HEADER_SIZE) == Some(p.ask.owner) && Asked(mem0, start, plen, p.ask)
    requires p.at == start + |Flat(Records(parts))| && Exact(p.records, recs, p.ask, o, now)
    ensures PartsOk(mem0, start, plen, recs, o, now, parts + [p])
  {
    hide Skip, Asked, Flat, Records, Exact;
    var all := parts + [p];
    forall i | 0 <= i < |all|
      ensures PartOk(mem0, start, plen, recs, o, now, all, i)
    {
      assert i <= |parts| && all[..i] == parts[..i];
      if i < |parts| { assert PartOk(mem0, start, plen, recs, o, now, parts, i); } else { assert parts[..i] == parts; }
    }
  }

  lemma SpliceAppends(mem: seq<Byte>, start: nat, ansp: nat, bytes: seq<Byte>)
    requires start <= ansp && ansp + |bytes| <= |mem|
    ensures var out := Splice(mem, ansp, bytes);
            |out| == |mem| && out[..start] == mem[..start] && out[start..ansp + |bytes|] == mem[start..ansp] + bytes
  {
  }

  lemma {:induction false} SkipSnoc(mem: seq<Byte>, plen: nat, n: nat, off: nat, p: nat)
    requires plen <= |mem| && Skip(mem, plen, n, off) == Some(p) && Skim(mem, plen, p).Some? && Skim(mem, plen, p).value + 4 <= plen
    ensures Skip(mem, plen, n + 1, off) == Some(Skim(mem, plen, p).value + 4)
    decreases n
  {
    hide Skim;
    if n > 0 { SkipSnoc(mem, plen, n - 1, Skim(mem, plen, off).value + 4, p); }
  }

  // The next question starts where the questions up to now end.
  lemma QuestionOffset(mem0: seq<Byte>, mem: seq<Byte>, start: nat, plen: nat, n: nat, k: nat, p: nat)
    requires plen <= |mem0| && |mem| == |mem0| && start <= plen && mem[..start] == mem0[..start]
    requires n > 0 && Skip(mem, plen, n, p) == Some(start) && LabelsAt(mem, plen, p).Some?
    requires Skip(mem0, plen, k, HEADER_SIZE) == Some(p)
    ensures Skip(mem0, plen, k + 1, HEADER_SIZE) == Some(End(mem, p) + 4)
  {
    hide Skip, Skim, LabelsAt, End, Spells;
    NextQuestion(mem, plen, n, p);
    SkimIsEnd(mem, plen, p);
    SkimStays(mem, mem0, plen, p, start);
    SkipSnoc(mem0, plen, k, HEADER_SIZE, p);
  }

  lemma SkimIsEnd(mem: seq<Byte>, plen: nat, p: nat)
    requires plen <= |mem| && p < plen && LabelsAt(mem, plen, p).Some?
    ensures Skim(mem, plen, p) == Some(End(mem, p))
  {
    hide Spells;
    var ls := LabelsAt(mem, plen, p).value;
    var j: nat :| Spells(mem, plen, p, j, ls) && j <= MAX_HOPS;
    SkimEnd(mem, plen, p, j, ls);
  }

  // Where the loop over the questions stands.
  ghost predicate Standing(mem0: seq<Byte>, start: nat, plen: nat, recs: seq<Rec>, o: Settings, now: int, parts: seq<Part>, l: Loop)
    requires start <= |mem0| && plen <= |mem0|
  {
    && SameFresh(l.st.recs, recs, now) && Skip(mem0, plen, |parts|, HEADER_SIZE) == Some(l.p)
    && Accounted(mem0, start, plen, recs, o, now, parts, l.mem, l.ansp, l.log)
  }

  lemma TurnStands(mem0: seq<Byte>, start: nat, recs: seq<Rec>, o: Settings, now: int, parts: seq<Part>, l: Loop, plen: nat, n: nat, limit: nat)
    returns (more: seq<Part>)
    requires start <= plen <= |mem0| && n > 0 && Ready(l, plen, n, limit) && Skip(l.mem, plen, n, l.p) == Some(start)
    requires Standing(mem0, start, plen, recs, o, now, parts, l)
    ensures var t := OneTurn(Answering(o, now), l, plen, limit);
            t.On? ==> |more| == |parts| + 1 && Standing(mem0, start, plen, recs, o, now, more, t.next)
  {
    hide SameFresh, PartsOk, Exact, Records, LogOf, Flat, LabelsAt, End, U16, Skip, Buffer, ToText, QuestionStage, Extractable, Splice, PlacedAll;
    var t := OneTurn(Answering(o, now), l, plen, limit);
    more := parts;
    if t.On? {
      NextQuestion(l.mem, plen, n, l.p);
      var ls := NameAt(l.mem, plen, l.p).value;
      var ask := Ask(l.p, NameOf(ls), U16(l.mem, End(l.mem, l.p)));
      var box := BoxAt(l.mem, l.ansp, limit);
      var s := QuestionStage(Stage(l.st, TallyOf(l), [], Fine), ask, o, now, box);
      QuestionExact(l.st, TallyOf(l), ask, o, now, box, recs);
      assert Read(l.mem, plen, ask, ls);
      QuestionOffset(mem0, l.mem, start, plen, n, |parts|, l.p);
      var p := Part(ask, l.ansp, s.records);
      PartsMore(mem0, start, plen, recs, o, now, parts, p);
      RecordsMore(parts, p);
      FlatConcat(Records(parts), s.records);
      SpliceAppends(l.mem, start, l.ansp, Flat(s.records));
      more := parts + [p];
    }
  }

  lemma {:induction false} RepliesAccounted(mem0: seq<Byte>, start: nat, recs: seq<Rec>, o: Settings, now: int, parts: seq<Part>, l: Loop, plen: nat, n: nat, limit: nat)
    returns (all: seq<Part>)
    requires start <= plen <= |mem0| && Ready(l, plen, n, limit) && Skip(l.mem, plen, n, l.p) == Some(start)
    requires Standing(mem0, start, plen, recs, o, now, parts, l)
    ensures match Replies(Turning(o, now, plen, limit), l, n)
            case Replied(_, mem, ansp, _, _, log) =>
              |all| == |parts| + n && Accounted(mem0, start, plen, recs, o, now, all, mem, ansp, log)
            case _ => true
    decreases n
  {
    hide OneTurn, Answering, Turning, Accounted, Skip, SameFresh;
    all := parts;
    if n > 0 {
      TurnGrows(o, now, l, plen, n, limit);
      TurnReady(Answering(o, now), l, plen, n, limit);
      var more := TurnStands(mem0, start, recs, o, now, parts, l, plen, n, limit);
      var t := OneTurn(Answering(o, now), l, plen, limit);
      NotReplied(Answering(o, now), l, plen, limit);
      if t.On? { all := RepliesAccounted(mem0, start, recs, o, now, more, t.next, plen, n - 1, limit); }
    }
  }

  // The loop before the first question.
  function Begin(st: State, mem: seq<Byte>, start: nat): Loop { Loop(st, mem, HEADER_SIZE, start, true, false, []) }

  /** Every reply of answer_request is the request up to the end of its questions, followed by the
      answers to each of them in turn and nothing else; and the answers to a question are exactly what
      the cache knew when the request arrived and what the settings prescribe. */
  lemma ReplyExact(mem: seq<Byte>, o: Settings, now: int, st: State, plen: nat, n: nat, limit: nat, start: nat)
    returns (parts: seq<Part>)
    requires Ready(Begin(st, mem, start), plen, n, limit) && Skip(mem, plen, n, HEADER_SIZE) == Some(start)
    ensures start <= plen <= |mem|
    ensures match Replies(Turning(o, now, plen, limit), Begin(st, mem, start), n)
            case Replied(_, out, ansp, _, _, log) =>
              |parts| == n && Accounted(mem, start, plen, st.recs, o, now, parts, out, ansp, log)
            case _ => true
  {
    hide Replies, Turning;
    SkipForward(mem, plen, n, HEADER_SIZE);
    assert mem[start..start] == [];
    parts := RepliesAccounted(mem, start, st.recs, o, now, [], Begin(st, mem, start), plen, n, limit);
  }
}
