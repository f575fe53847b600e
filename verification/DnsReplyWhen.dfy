/** When a request is answered, exactly, and with which flags: said of the cache as it was and of the questions,
    and not of the stages in which they are answered. */
module DnsReplyWhen {
  import opened Options
  import opened Bytes
  import opened DnsNames
  import opened DnsPackets
  import opened DnsCompare
  import opened DnsRecords
  import opened DnsSection
  import opened DnsAnswers
  import opened DnsReplies
  import opened DnsReplySafety
  import opened DnsReplyRecords
  import opened DnsBuffers
  import opened CacheRecords
  import opened CacheRuns
  import opened CacheTheorems

  // ---- how much room the answers to a query need

  function Need(path: Path, recs: seq<Rec>, q: Query, now: int): nat {
    if recs == [] then 0
    else
      var r := recs[|recs| - 1];
      Need(path, recs[..|recs| - 1], q, now) + if Matches(r, q, now) && Written(path, r) then SizeFor(path, r) else 0
  }

  lemma NeedOne(path: Path, r: Rec, q: Query, now: int)
    ensures Need(path, [r], q, now) == if Matches(r, q, now) && Written(path, r) then SizeFor(path, r) else 0
  {
    hide Matches, SizeFor, Written;
    assert [r][..0] == [];
    assert Need(path, [], q, now) == 0;
  }

  lemma {:induction false} NeedConcat(path: Path, a: seq<Rec>, b: seq<Rec>, q: Query, now: int)
    ensures Need(path, a + b, q, now) == Need(path, a, q, now) + Need(path, b, q, now)
  {
    hide Matches, SizeFor, Written;
    if b == [] {
      assert a + b == a;
    } else {
      var n := |b| - 1;
      NeedConcat(path, a, b[..n], q, now);
      assert (a + b)[..|a + b| - 1] == a + b[..n] && (a + b)[|a + b| - 1] == b[n];
    }
  }

  lemma Idle(w: Sweep, r: Rec, q: Query, now: int)
    requires w.Lookup? && w.now == now && Decide(w, r).Release?
    ensures !Matches(r, q, now) && !Matches(After(w, r), q, now)
  {
  }

  lemma {:induction false} NeedParts(path: Path, s: seq<Rec>, w: Sweep, q: Query, now: int)
    requires w.Lookup? && w.now == now
    ensures Need(path, Front(s, w), q, now) + Need(path, CacheRecords.Kept(s, w), q, now) + Need(path, Gone(s, w), q, now) == Need(path, s, q, now)
  {
    hide Matches, SizeFor, Written, Need, Decide, After;
    if s == [] {
      NeedNone(path, q, now);
    } else {
      var i, x := s[..|s| - 1], s[|s| - 1];
      NeedParts(path, i, w, q, now);
      NeedOne(path, x, q, now);
      assert s == i + [x];
      NeedConcat(path, i, [x], q, now);
      match Decide(w, x) {
        case Promote => NeedConcat(path, [x], Front(i, w), q, now);
        case Stay => NeedConcat(path, CacheRecords.Kept(i, w), [x], q, now);
        case Release =>
          Idle(w, x, q, now);
          NeedConcat(path, Gone(i, w), [After(w, x)], q, now);
          NeedOne(path, After(w, x), q, now);
      }
    }
  }

  lemma NeedNone(path: Path, q: Query, now: int)
    ensures Need(path, [], q, now) == 0
  {
  }

  // A lookup does not change what any other needs.
  lemma NeedKept(path: Path, st: State, p: Query, q: Query, now: int)
    ensures Need(path, Swept(st, Lookup(p, now)).recs, q, now) == Need(path, st.recs, q, now)
  {
    hide Need, Front, CacheRecords.Kept, Gone;
    var w, s := Lookup(p, now), st.recs;
    NeedConcat(path, Front(s, w) + CacheRecords.Kept(s, w), Gone(s, w), q, now);
    NeedConcat(path, Front(s, w), CacheRecords.Kept(s, w), q, now);
    NeedParts(path, s, w, q, now);
  }

  lemma {:induction false} NeedFront(path: Path, s: seq<Rec>, q: Query, now: int)
    ensures Need(path, Front(s, Lookup(q, now)), q, now) == Need(path, s, q, now)
  {
    hide SizeFor, Written, Need;
    NeedNone(path, q, now);
    if s != [] {
      var i, x := s[..|s| - 1], s[|s| - 1];
      NeedFront(path, i, q, now);
      NeedOne(path, x, q, now);
      assert s == i + [x];
      NeedConcat(path, i, [x], q, now);
      if Matches(x, q, now) { NeedConcat(path, [x], Front(i, Lookup(q, now)), q, now); }
    }
  }

  lemma {:induction false} NeedGiven(path: Path, found: seq<Rec>, q: Query, owner: nat, now: int)
    requires forall i :: 0 <= i < |found| ==> Matches(found[i], q, now)
    ensures |Flat(Given(path, found, owner, now))| == Need(path, found, q, now)
  {
    hide Matches, RecordFor, SizeFor, Written, Flat;
    FlatNone();
    if found != [] {
      var n := |found| - 1;
      NeedGiven(path, found[..n], q, owner, now);
      RecordHas(path, found[n], owner, now);
      FlatMore(Given(path, found[..n], owner, now), RecordFor(path, found[n], owner, now));
      assert Given(path, found[..n], owner, now) + [] == Given(path, found[..n], owner, now);
    }
  }

  // ---- what is known about a query

  ghost predicate AllLocal(recs: seq<Rec>, q: Query, now: int) { forall r :: r in recs && Matches(r, q, now) ==> Local(r) }

  ghost predicate AllSure(path: Path, recs: seq<Rec>, q: Query, now: int) { forall r :: r in recs && Matches(r, q, now) ==> Local(r) && Written(path, r) }

  ghost predicate SaysNone(path: Path, recs: seq<Rec>, q: Query, now: int) { exists r :: r in recs && Matches(r, q, now) && !Written(path, r) && r.nx }

  ghost predicate SameNeed(s: seq<Rec>, recs: seq<Rec>, now: int) { forall path, q :: Need(path, s, q, now) == Need(path, recs, q, now) }

  lemma SweptNeed(st: State, recs: seq<Rec>, p: Query, now: int)
    requires SameNeed(st.recs, recs, now)
    ensures SameNeed(Swept(st, Lookup(p, now)).recs, recs, now)
  {
    hide Need, Swept;
    forall path, q
      ensures Need(path, Swept(st, Lookup(p, now)).recs, q, now) == Need(path, recs, q, now)
    {
      NeedKept(path, st, p, q, now);
    }
  }

  // What is found is exactly what matches.
  lemma FoundAre(s: seq<Rec>, recs: seq<Rec>, q: Query, now: int, r: Rec)
    requires SameFresh(s, recs, now)
    ensures r in Front(s, Lookup(q, now)) <==> r in recs && Matches(r, q, now)
  {
    hide Front, Matches, Times;
    FrontAll(s, recs, q, now);
    TimesMember(Front(s, Lookup(q, now)), r);
    TimesMember(recs, r);
  }

  lemma FoundFacts(s: seq<Rec>, recs: seq<Rec>, path: Path, q: Query, now: int)
    requires SameFresh(s, recs, now)
    ensures var found := Front(s, Lookup(q, now));
            && (forall i :: 0 <= i < |found| ==> Matches(found[i], q, now)) && (found != [] <==> Known(recs, q, now))
            && (SomeForeign(found) <==> !AllLocal(recs, q, now)) && (AllKnown(path, found) <==> AllSure(path, recs, q, now))
            && (SomeNx(path, found) <==> SaysNone(path, recs, q, now))
  {
    hide Front, Matches, SameFresh, Local, Written;
    var found := Front(s, Lookup(q, now));
    FrontAll(s, recs, q, now);
    forall r
      ensures r in found <==> r in recs && Matches(r, q, now)
    {
      FoundAre(s, recs, q, now, r);
    }
    assert forall i :: 0 <= i < |found| ==> found[i] in found;
    assert SomeForeign(found) <==> exists r :: r in found && !Local(r);
    assert SomeNx(path, found) <==> exists r :: r in found && !Written(path, r) && r.nx;
  }

  // ---- one lookup

  // A stage whose records fit, and whose cache still knows what it knew.
  ghost predicate Going(s: Stage, box: Box, recs: seq<Rec>, now: int) {
    s.status.Fine? && |Flat(s.records)| <= box.room <= box.size && SameFresh(s.st.recs, recs, now) && SameNeed(s.st.recs, recs, now)
  }

  // A stage has led to another with so many bytes more.
  ghost predicate Led(s: Stage, t: Stage, box: Box, recs: seq<Rec>, now: int, bytes: nat) {
    Going(t, box, recs, now) && |Flat(t.records)| == |Flat(s.records)| + bytes
  }

  lemma LookupOutcome(s: Stage, path: Path, q: Query, ask: Ask, now: int, box: Box, recs: seq<Rec>)
    requires Going(s, box, recs, now)
    ensures var t, n := FromCache(s, path, q, ask, now, box), Need(path, recs, q, now);
            && (t.status.Fine? <==> !(ask.qtype == T_ANY && !AllLocal(recs, q, now)) && |Flat(s.records)| + n <= box.room)
            && (t.status.Fine? ==> && Led(s, t, box, recs, now, n) && t.tally.ans == (s.tally.ans || Known(recs, q, now))
                                   && t.tally.auth == (s.tally.auth && AllSure(path, recs, q, now))
                                   && t.tally.nx == (s.tally.nx || SaysNone(path, recs, q, now)))
  {
    hide Given, Front, Swept, Ends, SomeNx, AllKnown, Count, Flat, SomeForeign, SameFresh, SameNeed, Need, Known, AllLocal, AllSure, SaysNone, Matches;
    var found, used := Front(s.st.recs, Lookup(q, now)), |Flat(s.records)|;
    FoundFacts(s.st.recs, recs, path, q, now);
    EndsFine(path, found, ask.qtype == T_ANY, ask.owner, now, used, box);
    NeedGiven(path, found, q, ask.owner, now);
    NeedFront(path, s.st.recs, q, now);
    NeedSame(s.st.recs, recs, path, q, now);
    FlatConcat(s.records, Given(path, found, ask.owner, now));
    SweptFresh(s.st, recs, q, now);
    SweptNeed(s.st, recs, q, now);
  }

  lemma NeedSame(s: seq<Rec>, recs: seq<Rec>, path: Path, q: Query, now: int)
    requires SameNeed(s, recs, now)
    ensures Need(path, s, q, now) == Need(path, recs, q, now)
  {
  }

  lemma TextOutcome(s: Stage, ask: Ask, pref: nat, rtype: nat, name: string, box: Box, recs: seq<Rec>, now: int)
    requires Going(s, box, recs, now)
    ensures var t := WithText(s, ask, pref, rtype, name, box);
            && (t.status.Fine? <==> |Flat(s.records)| + |FixedText(ask, pref, rtype, name)| <= box.room)
            && (t.status.Fine? ==> Led(s, t, box, recs, now, |FixedText(ask, pref, rtype, name)|) && t.tally.ans && t.tally.auth == s.tally.auth && t.tally.nx == s.tally.nx)
  {
    hide RecordBytes, Flat, ToBytes, SameFresh, SameNeed;
    FlatMore(s.records, FixedText(ask, pref, rtype, name));
  }

  // ---- one question

  // The question makes the cache look for addresses of one kind.
  predicate SeeksAddress(ask: Ask, o: Settings, v6: bool) { Asks(ask, if v6 then T_AAAA else T_A) && !Hushed(ask, o) }

  ghost function AddressNeed(ask: Ask, recs: seq<Rec>, o: Settings, now: int, v6: bool): nat {
    if SeeksAddress(ask, o, v6) then Need(if v6 then ToV6 else ToV4, recs, NameQuery(ask.name, v6), now) else 0
  }

  // There is something to answer with, or the filter answers with nothing.
  ghost predicate Answerable(ask: Ask, recs: seq<Rec>, o: Settings, now: int) {
    || (o.filter && (ask.qtype == T_SOA || ask.qtype == T_SRV))
    || match o.arpa(ask.name)
       case None =>
         || ((Asks(ask, T_A) || Asks(ask, T_AAAA)) && Hushed(ask, o))
         || (Asks(ask, T_A) && Known(recs, NameQuery(ask.name, false), now))
         || (Asks(ask, T_AAAA) && Known(recs, NameQuery(ask.name, true), now))
         || MxPart(recs, ask, o, now) != []
       case Some(a) => Asks(ask, T_PTR) && (Known(recs, AddrQuery(a), now) || FakePart(recs, ask, a, o, now) != [])
  }

  // A wildcard question about which something foreign is known.
  ghost predicate Barred(ask: Ask, recs: seq<Rec>, o: Settings, now: int) {
    ask.qtype == T_ANY
    && match o.arpa(ask.name)
       case None => !Hushed(ask, o) && (!AllLocal(recs, NameQuery(ask.name, false), now) || !AllLocal(recs, NameQuery(ask.name, true), now))
       case Some(a) => !AllLocal(recs, AddrQuery(a), now)
  }

  // The bytes that the answers take.
  ghost function Total(ask: Ask, recs: seq<Rec>, o: Settings, now: int): nat {
    match o.arpa(ask.name)
    case None => AddressNeed(ask, recs, o, now, false) + AddressNeed(ask, recs, o, now, true) + |Flat(MxPart(recs, ask, o, now))|
    case Some(a) => if Asks(ask, T_PTR) then Need(ToName, recs, AddrQuery(a), now) + |Flat(FakePart(recs, ask, a, o, now))| else 0
  }

  // All that is known is local, and nothing is known not to be.
  ghost predicate Sure(ask: Ask, recs: seq<Rec>, o: Settings, now: int) {
    match o.arpa(ask.name)
    case None =>
      && (SeeksAddress(ask, o, false) ==> AllSure(ToV4, recs, NameQuery(ask.name, false), now))
      && (SeeksAddress(ask, o, true) ==> AllSure(ToV6, recs, NameQuery(ask.name, true), now))
    case Some(a) => Asks(ask, T_PTR) ==> AllSure(ToName, recs, AddrQuery(a), now)
  }

  // The name is known not to exist.
  ghost predicate NoSuch(ask: Ask, recs: seq<Rec>, o: Settings, now: int) {
    match o.arpa(ask.name)
    case None =>
      || (SeeksAddress(ask, o, false) && SaysNone(ToV4, recs, NameQuery(ask.name, false), now))
      || (SeeksAddress(ask, o, true) && SaysNone(ToV6, recs, NameQuery(ask.name, true), now))
    case Some(a) => Asks(ask, T_PTR) && SaysNone(ToName, recs, AddrQuery(a), now)
  }

  lemma AddressOutcome(s: Stage, path: Path, ask: Ask, o: Settings, now: int, box: Box, recs: seq<Rec>)
    requires Going(s, box, recs, now) && !path.ToName? && Asks(ask, if path.ToV6? then T_AAAA else T_A)
    ensures var t, n, q := AddressStage(s, path, ask, o, now, box), AddressNeed(ask, recs, o, now, path.ToV6?), NameQuery(ask.name, path.ToV6?);
            && (t.status.Fine? <==> !(ask.qtype == T_ANY && !Hushed(ask, o) && !AllLocal(recs, q, now)) && |Flat(s.records)| + n <= box.room)
            && (t.status.Fine? ==> && Led(s, t, box, recs, now, n) && t.tally.ans == (s.tally.ans || Hushed(ask, o) || Known(recs, q, now))
                                   && t.tally.auth == (s.tally.auth && (Hushed(ask, o) || AllSure(path, recs, q, now)))
                                   && t.tally.nx == (s.tally.nx || (!Hushed(ask, o) && SaysNone(path, recs, q, now))))
  {
    hide FromCache, SameFresh, SameNeed, Flat, Need, Known, AllLocal, AllSure, SaysNone;
    if !Hushed(ask, o) { LookupOutcome(s, path, NameQuery(ask.name, path.ToV6?), ask, now, box, recs); }
  }

  lemma MxOutcome(s: Stage, ask: Ask, o: Settings, now: int, box: Box, recs: seq<Rec>)
    requires Going(s, box, recs, now) && Asks(ask, T_MX)
    ensures var t, m := MxStage(s, ask, o, now, box), MxPart(recs, ask, o, now);
            && (t.status.Fine? <==> |Flat(s.records)| + |Flat(m)| <= box.room)
            && (t.status.Fine? ==> && Led(s, t, box, recs, now, |Flat(m)|) && t.tally.ans == (s.tally.ans || m != [])
                                   && t.tally.auth == s.tally.auth && t.tally.nx == s.tally.nx)
  {
    hide WithText, SameFresh, SameNeed, Flat, Front, Known, FixedText, Swept;
    FlatNone();
    var q := Query(Name(ask.name), LocalData);
    FrontAll(s.st.recs, recs, q, now);
    SweptFresh(s.st, recs, q, now);
    SweptNeed(s.st, recs, q, now);
    FlatOne(FixedText(ask, 1, T_MX, o.mxTarget));
    FlatOne(FixedText(ask, 1, T_MX, ask.name));
    TextOutcome(s, ask, 1, T_MX, o.mxTarget, box, recs, now);
    TextOutcome(s.(st := Swept(s.st, Lookup(q, now))), ask, 1, T_MX, ask.name, box, recs, now);
  }

  lemma FlatOne(rec: seq<Byte>)
    ensures Flat([rec]) == rec
  {
    FlatNone();
    FlatMore([], rec);
    assert [] + [rec] == [rec];
  }

  // What one question comes to, from a tally without an answer.
  ghost predicate ComesTo(s: Stage, u: Stage, ask: Ask, recs: seq<Rec>, o: Settings, now: int, box: Box) {
    && (u.status.Fine? <==> !Barred(ask, recs, o, now) && Total(ask, recs, o, now) <= box.room)
    && (u.status.Fine? ==> && Led(s, u, box, recs, now, Total(ask, recs, o, now)) && u.tally.ans == Answerable(ask, recs, o, now)
                           && u.tally.auth == (s.tally.auth && Sure(ask, recs, o, now)) && u.tally.nx == (s.tally.nx || NoSuch(ask, recs, o, now)))
  }

  lemma HostOutcome(s: Stage, ask: Ask, o: Settings, now: int, box: Box, recs: seq<Rec>)
    requires Going(s, box, recs, now) && s.records == [] && o.arpa(ask.name).None? && s.tally.ans == (o.filter && (ask.qtype == T_SOA || ask.qtype == T_SRV))
    ensures ComesTo(s, HostStage(s, ask, o, now, box), ask, recs, o, now, box)
  {
    hide AddressStage, MxStage, SameFresh, SameNeed, Flat, Need, Known, AllLocal, AllSure, SaysNone, MxPart, Hushed;
    FlatNone();
    if Asks(ask, T_A) { AddressOutcome(s, ToV4, ask, o, now, box, recs); }
    var s1 := if Asks(ask, T_A) then AddressStage(s, ToV4, ask, o, now, box) else s;
    if s1.status.Fine? {
      if Asks(ask, T_AAAA) { AddressOutcome(s1, ToV6, ask, o, now, box, recs); }
      var s2 := if Asks(ask, T_AAAA) then AddressStage(s1, ToV6, ask, o, now, box) else s1;
      if s2.status.Fine? && Asks(ask, T_MX) { MxOutcome(s2, ask, o, now, box, recs); }
    }
    if !Asks(ask, T_MX) { NoMx(recs, ask, o, now); }
  }

  lemma NoMx(recs: seq<Rec>, ask: Ask, o: Settings, now: int)
    requires !Asks(ask, T_MX)
    ensures MxPart(recs, ask, o, now) == []
  {
  }

  lemma PtrOutcome(s: Stage, ask: Ask, a: Arpa, o: Settings, now: int, box: Box, recs: seq<Rec>)
    requires Going(s, box, recs, now) && s.records == [] && o.arpa(ask.name) == Some(a) && Asks(ask, T_PTR) && !s.tally.ans
    requires !(o.filter && (ask.qtype == T_SOA || ask.qtype == T_SRV))
    ensures ComesTo(s, PtrStage(s, ask, a, o, now, box), ask, recs, o, now, box)
  {
    hide FromCache, WithText, SameFresh, SameNeed, Flat, Need, Known, AllLocal, AllSure, SaysNone, FixedText;
    FlatNone();
    LookupOutcome(s, ToName, AddrQuery(a), ask, now, box, recs);
    var t := FromCache(s, ToName, AddrQuery(a), ask, now, box);
    FlatOne(FixedText(ask, 0, T_PTR, o.dotted(a.addr)));
    if t.status.Fine? { TextOutcome(t, ask, 0, T_PTR, o.dotted(a.addr), box, recs, now); }
  }

  /** One question is answered within the room if and only if nothing bars it and its answers fit; it is then an answer,
      and the flags are what is known of the name. */
  lemma QuestionOutcome(st: State, t: Tally, ask: Ask, o: Settings, now: int, box: Box, recs: seq<Rec>)
    requires SameFresh(st.recs, recs, now) && SameNeed(st.recs, recs, now) && !t.ans && box.room <= box.size
    ensures var s := Stage(st, t, [], Fine); ComesTo(s, QuestionStage(s, ask, o, now, box), ask, recs, o, now, box)
  {
    hide HostStage, PtrStage, SameFresh, SameNeed, Flat, Need, Known, AllLocal, AllSure, SaysNone, MxPart, FakePart, Hushed;
    FlatNone();
    var s := Stage(st, t, [], Fine);
    var s1 := if o.filter && (ask.qtype == T_SOA || ask.qtype == T_SRV) then s.(tally := s.tally.(ans := true)) else s;
    match o.arpa(ask.name) {
      case None => HostOutcome(s1, ask, o, now, box, recs);
      case Some(a) => if Asks(ask, T_PTR) { PtrOutcome(s1, ask, a, o, now, box, recs); }
    }
  }

  // ---- all questions of a request that ends with them

  // The question at p, if it can be read and is of class IN.
  ghost function AskAt(mem: seq<Byte>, plen: nat, p: nat): Option<Ask>
    requires plen + SLACK <= |mem| && p <= plen
  {
    match NameAt(mem, plen, p)
    case None => None
    case Some(ls) =>
      NameEnd(mem, plen, p);
      if ls == [] || U16(mem, End(mem, p) + 2) != C_IN then None else Some(Ask(p, NameOf(ls), U16(mem, End(mem, p))))
  }

  // Each of the n questions from p on can be read, has an answer, and is not barred.
  ghost predicate AllAnswerable(mem: seq<Byte>, plen: nat, p: nat, n: nat, recs: seq<Rec>, o: Settings, now: int)
    requires plen + SLACK <= |mem|
    decreases n
  {
    n == 0 || (&& p <= plen && AskAt(mem, plen, p).Some?
               && var ask := AskAt(mem, plen, p).value;
                  Answerable(ask, recs, o, now) && !Barred(ask, recs, o, now) && AllAnswerable(mem, plen, End(mem, p) + 4, n - 1, recs, o, now))
  }

  // The bytes of all their answers, as far as the questions can be read.
  ghost function TotalOf(mem: seq<Byte>, plen: nat, p: nat, n: nat, recs: seq<Rec>, o: Settings, now: int): nat
    requires plen + SLACK <= |mem|
    decreases n
  {
    if n == 0 || p > plen || AskAt(mem, plen, p).None? then 0
    else Total(AskAt(mem, plen, p).value, recs, o, now) + TotalOf(mem, plen, End(mem, p) + 4, n - 1, recs, o, now)
  }

  ghost predicate SureOfAll(mem: seq<Byte>, plen: nat, p: nat, n: nat, recs: seq<Rec>, o: Settings, now: int)
    requires plen + SLACK <= |mem|
    decreases n
  {
    n == 0 || p > plen || AskAt(mem, plen, p).None?
    || (Sure(AskAt(mem, plen, p).value, recs, o, now) && SureOfAll(mem, plen, End(mem, p) + 4, n - 1, recs, o, now))
  }

  ghost predicate SomeNoSuch(mem: seq<Byte>, plen: nat, p: nat, n: nat, recs: seq<Rec>, o: Settings, now: int)
    requires plen + SLACK <= |mem|
    decreases n
  {
    n > 0 && p <= plen && AskAt(mem, plen, p).Some?
    && (NoSuch(AskAt(mem, plen, p).value, recs, o, now) || SomeNoSuch(mem, plen, End(mem, p) + 4, n - 1, recs, o, now))
  }

  lemma {:induction false} SkimSame(a: seq<Byte>, b: seq<Byte>, plen: nat, off: nat)
    requires plen <= |a| && plen <= |b| && a[..plen] == b[..plen]
    ensures Skim(a, plen, off) == Skim(b, plen, off)
    decreases plen - off
  {
    if off < plen {
      assert a[..plen][off] == b[..plen][off];
      if !IsPointer(a[off]) && a[off] != 0 { SkimSame(a, b, plen, off + 1 + a[off]); }
    }
  }

  lemma LabelsSame(a: seq<Byte>, b: seq<Byte>, plen: nat, off: nat)
    requires plen <= |a| && plen <= |b| && a[..plen] == b[..plen] && off < plen
    ensures LabelsAt(a, plen, off) == LabelsAt(b, plen, off)
  {
    LabelsGo(a, b, plen, off);
    LabelsGo(b, a, plen, off);
  }

  lemma LabelsGo(a: seq<Byte>, b: seq<Byte>, plen: nat, off: nat)
    requires plen <= |a| && plen <= |b| && a[..plen] == b[..plen] && off < plen
    ensures LabelsAt(a, plen, off).Some? ==> LabelsAt(b, plen, off) == LabelsAt(a, plen, off)
  {
    hide Spells;
    if LabelsAt(a, plen, off).Some? {
      var ls := LabelsAt(a, plen, off).value;
      var j: nat :| Spells(a, plen, off, j, ls) && j <= MAX_HOPS;
      SpellsSame(a, b, plen, off, j, ls);
      assert Spelled(b, plen, off, ls);
      LabelsAre(b, plen, off, ls);
    }
  }

  // Answers behind the questions do not change a question.
  lemma AskSame(mem: seq<Byte>, mem0: seq<Byte>, plen: nat, n: nat, p: nat)
    requires plen + SLACK <= |mem| && |mem0| == |mem| && mem[..plen] == mem0[..plen] && n > 0 && Skip(mem, plen, n, p).Some? && p <= plen
    ensures p < plen && AskAt(mem, plen, p) == AskAt(mem0, plen, p) && (LabelsAt(mem, plen, p).Some? ==> End(mem, p) == End(mem0, p))
  {
    hide Skip, LabelsAt, End, Skim, Extractable, NameOf, U16;
    SkipReads(mem, plen, n, p);
    LabelsSame(mem, mem0, plen, p);
    if LabelsAt(mem, plen, p).Some? {
      NextQuestion(mem, plen, n, p);
      SkimIsEnd(mem, plen, p);
      SkimIsEnd(mem0, plen, p);
      SkimSame(mem, mem0, plen, p);
      U16Same(mem, mem0, plen, End(mem, p));
      U16Same(mem, mem0, plen, End(mem, p) + 2);
    }
  }

  lemma SkipReads(mem: seq<Byte>, plen: nat, n: nat, p: nat)
    requires plen <= |mem| && n > 0 && Skip(mem, plen, n, p).Some?
    ensures p < plen
  {
  }

  lemma U16Same(a: seq<Byte>, b: seq<Byte>, plen: nat, p: nat)
    requires plen <= |a| && plen <= |b| && a[..plen] == b[..plen] && p + 2 <= plen
    ensures U16(a, p) == U16(b, p)
  {
    assert a[p] == a[..plen][p] && a[p + 1] == a[..plen][p + 1] && b[p] == b[..plen][p] && b[p + 1] == b[..plen][p + 1];
  }

  // Where the loop stands: the questions as they were, the cache knowing what it knew.
  ghost predicate Under(mem0: seq<Byte>, plen: nat, l: Loop, recs: seq<Rec>, now: int)
    requires plen <= |mem0|
  {
    |l.mem| == |mem0| && l.mem[..plen] == mem0[..plen] && plen <= l.ansp && SameFresh(l.st.recs, recs, now) && SameNeed(l.st.recs, recs, now)
  }

  // How a question that can be read is answered in the loop.
  ghost function StageOf(o: Settings, now: int, l: Loop, ask: Ask, limit: nat): Stage
    requires l.ansp <= limit <= |l.mem|
  {
    QuestionStage(Stage(l.st, TallyOf(l), [], Fine), ask, o, now, BoxAt(l.mem, l.ansp, limit))
  }

  lemma TurnIs(o: Settings, now: int, l: Loop, plen: nat, limit: nat)
    requires Sized(l, plen, limit)
    ensures var t := OneTurn(Answering(o, now), l, plen, limit);
            match AskAt(l.mem, plen, l.p)
            case None => t.Out?
            case Some(ask) =>
              var s := StageOf(o, now, l, ask, limit);
              && (t.On? <==> s.status.Fine? && s.tally.ans && l.ansp + |Flat(s.records)| <= limit)
              && (t.On? ==> && t.next.st == s.st && t.next.mem == Splice(l.mem, l.ansp, Flat(s.records)) && t.next.p == End(l.mem, l.p) + 4
                            && t.next.ansp == l.ansp + |Flat(s.records)| && t.next.auth == s.tally.auth && t.next.nx == s.tally.nx)
  {
    hide Flat, LabelsAt, End, U16, Buffer, ToText, QuestionStage, Splice, Extractable, PlacedAll;
  }

  lemma TurnOutcome(mem0: seq<Byte>, o: Settings, now: int, l: Loop, plen: nat, n: nat, limit: nat, recs: seq<Rec>)
    requires plen + SLACK <= |mem0| && n > 0 && Ready(l, plen, n, limit) && Under(mem0, plen, l, recs, now)
    ensures var t, ask := OneTurn(Answering(o, now), l, plen, limit), AskAt(mem0, plen, l.p);
            && (t.On? <==> ask.Some? && Answerable(ask.value, recs, o, now) && !Barred(ask.value, recs, o, now)
                           && l.ansp + Total(ask.value, recs, o, now) <= limit)
            && (t.On? ==> && Under(mem0, plen, t.next, recs, now) && t.next.p == End(mem0, l.p) + 4 && t.next.ansp == l.ansp + Total(ask.value, recs, o, now)
                          && t.next.auth == (l.auth && Sure(ask.value, recs, o, now)) && t.next.nx == (l.nx || NoSuch(ask.value, recs, o, now)))
  {
    hide Flat, Skip, End, AskAt, QuestionStage, Splice, SameFresh, SameNeed, Answerable, Barred, Total, Sure, NoSuch, OneTurn, Answering;
    AskSame(l.mem, mem0, plen, n, l.p);
    TurnIs(o, now, l, plen, limit);
    var ask := AskAt(l.mem, plen, l.p);
    if ask.Some? {
      AskNamed(l.mem, plen, l.p);
      QuestionOutcome(l.st, TallyOf(l), ask.value, o, now, BoxAt(l.mem, l.ansp, limit), recs);
      var s := StageOf(o, now, l, ask.value, limit);
      FlatNone();
      if s.status.Fine? { SpliceAppends(l.mem, plen, l.ansp, Flat(s.records)); }
    }
  }

  lemma AskNamed(mem: seq<Byte>, plen: nat, p: nat)
    requires plen + SLACK <= |mem| && p <= plen && AskAt(mem, plen, p).Some?
    ensures LabelsAt(mem, plen, p).Some?
  {
    hide U16, LabelsAt, NameOf;
  }

  /** A request that ends with its questions is answered if and only if each question can be read, has an answer in the
      cache as it was or by the settings, is not a wildcard about foreign data, and the answers together fit the limit.
      The reply then has that length, is authoritative if and only if all that is known is local, and reports a name
      that does not exist if and only if one is known not to. */
  lemma {:induction false} RepliedExactly(mem0: seq<Byte>, o: Settings, now: int, l: Loop, plen: nat, n: nat, limit: nat, recs: seq<Rec>)
    requires plen + SLACK <= |mem0| && Ready(l, plen, n, limit) && Under(mem0, plen, l, recs, now)
    ensures var r := Replies(Turning(o, now, plen, limit), l, n);
            && (r.Replied? <==> AllAnswerable(mem0, plen, l.p, n, recs, o, now) && l.ansp + TotalOf(mem0, plen, l.p, n, recs, o, now) <= limit)
            && (r.Replied? ==> && r.ansp == l.ansp + TotalOf(mem0, plen, l.p, n, recs, o, now)
                               && r.auth == (l.auth && SureOfAll(mem0, plen, l.p, n, recs, o, now))
                               && r.nx == (l.nx || SomeNoSuch(mem0, plen, l.p, n, recs, o, now)))
    decreases n
  {
    hide OneTurn, Answering, Turning, Skip, Under, AskAt, Answerable, Barred, Total, Sure, NoSuch, End;
    if n > 0 {
      TurnGrows(o, now, l, plen, n, limit);
      TurnReady(Answering(o, now), l, plen, n, limit);
      TurnOutcome(mem0, o, now, l, plen, n, limit, recs);
      NotReplied(Answering(o, now), l, plen, limit);
      var t := OneTurn(Answering(o, now), l, plen, limit);
      if t.On? { RepliedExactly(mem0, o, now, t.next, plen, n - 1, limit, recs); }
    }
  }

  lemma SameAtStart(recs: seq<Rec>, now: int)
    ensures SameFresh(recs, recs, now) && SameNeed(recs, recs, now)
  {
  }

  // The same from the first question on.
  lemma AnsweredExactly(mem: seq<Byte>, o: Settings, now: int, st: State, plen: nat, n: nat, limit: nat)
    requires Ready(Begin(st, mem, plen), plen, n, limit)
    ensures var r := Replies(Turning(o, now, plen, limit), Begin(st, mem, plen), n);
            && (r.Replied? <==> AllAnswerable(mem, plen, HEADER_SIZE, n, st.recs, o, now) && plen + TotalOf(mem, plen, HEADER_SIZE, n, st.recs, o, now) <= limit)
            && (r.Replied? ==> && r.ansp == plen + TotalOf(mem, plen, HEADER_SIZE, n, st.recs, o, now)
                               && r.auth == SureOfAll(mem, plen, HEADER_SIZE, n, st.recs, o, now)
                               && r.nx == SomeNoSuch(mem, plen, HEADER_SIZE, n, st.recs, o, now))
  {
    hide Replies, Turning, Skip, SameFresh, SameNeed, AllAnswerable, TotalOf, SureOfAll, SomeNoSuch;
    SameAtStart(st.recs, now);
    RepliedExactly(mem, o, now, Begin(st, mem, plen), plen, n, limit, st.recs);
  }
}
