/** The other direction: what a packet stated is found afterwards, and what is found is in the reply. */
module DnsReplyFound {
  import opened Options
  import opened Bytes
  import opened DnsNames
  import opened DnsPackets
  import opened DnsCompare
  import opened DnsRecords
  import opened DnsSection
  import opened DnsExtract
  import opened DnsHistory
  import opened DnsAnswers
  import opened DnsReplies
  import opened DnsReplyRecords
  import opened CacheRecords
  import opened CacheRuns
  import opened CacheTransactions
  import opened CacheExpiry
  import opened CacheHistory
  import opened CacheLookups

  /** After a packet that was read to its end and whose inserts all succeeded, everything that its bytes stated is
      in the cache, and is found by its name or address until it expires. */
  lemma StatedIsFound(arpa: string -> Option<Arpa>, c: Conf, pkt: seq<Byte>, plen: nat, n: nat, start: nat, now: int, ok: seq<bool>, rq: Request)
    returns (r: Rec)
    requires Inv(c.st) && plen + SLACK <= |pkt| && start <= plen && 0 <= now <= TIME_MAX
    requires var w := Requests(arpa, Section(pkt, plen, n, start), n);
             && w.ending.Complete? && |w.requests| <= |ok| && !RunInserts(c.st, w.requests, now, ok).failed
             && forall i :: 0 <= i < |w.requests| ==> now + w.requests[i].ttl <= TIME_MAX
    requires Stated(arpa, Section(pkt, plen, n, start), rq)
    ensures r in Steps(c, Transaction(Requests(arpa, Section(pkt, plen, n, start), n), now, ok)).st.recs && Answers(r, rq, now)
    ensures forall t :: now <= t < now + rq.ttl ==> Matches(r, QueryOf(KeyOf(rq)), t)
  {
    hide Requests, Section, Stated, RunInserts, Inv, Steps, Transaction, Times, Matches, Answers, QueryOf, KeyOf;
    var rrs := Section(pkt, plen, n, start);
    var w := Requests(arpa, rrs, n);
    RequestsAreStated(arpa, rrs, n, rq);
    var i :| 0 <= i < |w.requests| && w.requests[i] == rq;
    forall k | 0 <= k < |w.requests|
      ensures w.requests[k].ttl <= 0xffff_ffff
    {
      TtlsFit(arpa, rrs, n, w.requests[k]);
    }
    AllOrNothing(c.st, w.requests, now, ok);
    PacketRun(c, w, now, ok);
    var t := RunInserts(c.st, w.requests, now, ok);
    r := StoredAt(t.added, w.requests, now, i);
    TimesMember(t.added, r);
    TimesMember(EndInsert(t.st, t.failed).recs, r);
    forall u | now <= u < now + rq.ttl
      ensures Matches(r, QueryOf(KeyOf(rq)), u)
    {
      FoundUntil(r, rq, now, u);
    }
  }

  // What an address record states, under its own name or under an alias that leads to it.
  lemma AddressIsStated(arpa: string -> Option<Arpa>, rrs: seq<Resource>, k: nat)
    requires k < |rrs| && rrs[k].inet && rrs[k].owner != [] && (rrs[k].data.V4? || rrs[k].data.V6?)
    ensures Stated(arpa, rrs, ForName(NameOf(rrs[k].owner), Some(rrs[k].data.addr), rrs[k].data.V6?, rrs[k].ttl, false, false))
  {
    hide NameOf;
    assert StatedBy(arpa, rrs[k], rrs, ForName(NameOf(rrs[k].owner), Some(rrs[k].data.addr), rrs[k].data.V6?, rrs[k].ttl, false, false));
  }

  lemma AliasIsStated(arpa: string -> Option<Arpa>, rrs: seq<Resource>, w: nat, k: nat)
    requires w < |rrs| && rrs[w].inet && rrs[w].owner != [] && rrs[w].data.Alias? && rrs[w].data.name.Some? && rrs[w].data.name.value != []
    requires k < |rrs| && rrs[k].inet && (rrs[k].data.V4? || rrs[k].data.V6?) && Agrees(rrs[k].owner, Buffer(rrs[w].data.name.value))
    ensures Stated(arpa, rrs, ForName(NameOf(rrs[w].owner), Some(rrs[k].data.addr), rrs[k].data.V6?, Min(rrs[w].ttl, rrs[k].ttl), false, false))
  {
    hide NameOf, Agrees;
    var rq := ForName(NameOf(rrs[w].owner), Some(rrs[k].data.addr), rrs[k].data.V6?, Min(rrs[w].ttl, rrs[k].ttl), false, false);
    assert StatedVia(arpa, rrs[w], rrs[w].data.name.value, rrs[k], rq);
    assert StatedBy(arpa, rrs[w], rrs, rq);
  }

  // A pointer record names the address that its owner stands for.
  lemma NameIsStated(arpa: string -> Option<Arpa>, rrs: seq<Resource>, k: nat)
    requires k < |rrs| && rrs[k].inet && rrs[k].owner != [] && rrs[k].data.Pointer? && rrs[k].data.name.Some? && rrs[k].data.name.value != []
    requires arpa(NameOf(rrs[k].owner)).Some?
    ensures var a := arpa(NameOf(rrs[k].owner)).value; Stated(arpa, rrs, ForAddr(NameOf(rrs[k].data.name.value), a.addr, a.v6, rrs[k].ttl, false, false))
  {
    hide NameOf;
    var a := arpa(NameOf(rrs[k].owner)).value;
    assert StatedBy(arpa, rrs[k], rrs, ForAddr(NameOf(rrs[k].data.name.value), a.addr, a.v6, rrs[k].ttl, false, false));
  }

  lemma StoredAt(added: seq<Rec>, qs: seq<Request>, now: int, i: nat) returns (r: Rec)
    requires AllStored(added, qs, now) && i < |qs|
    ensures r in added && Answers(r, qs[i], now) && KeyedNew(r)
  {
    r := added[i];
  }

  lemma FoundUntil(r: Rec, rq: Request, now: int, t: int)
    requires Answers(r, rq, now) && 0 <= now <= t < now + rq.ttl <= TIME_MAX
    ensures Matches(r, QueryOf(KeyOf(rq)), t)
  {
    InsertedIsFound(r, rq, now, QueryOf(KeyOf(rq)), t);
  }

  // ---- into the reply

  // The question has this path looked up.
  predicate Seeks(path: Path, ask: Ask, o: Settings) {
    if path.ToName? then o.arpa(ask.name).Some? && Asks(ask, T_PTR)
    else o.arpa(ask.name).None? && Asks(ask, if path.ToV6? then T_AAAA else T_A) && !Hushed(ask, o)
  }

  lemma {:induction false} GivenHas(path: Path, found: seq<Rec>, owner: nat, now: int, r: Rec)
    requires r in found && Written(path, r)
    ensures RecordFor(path, r, owner, now) in Given(path, found, owner, now)
  {
    hide RecordFor, Written;
    var n := |found| - 1;
    if found[n] != r { GivenHas(path, found[..n], owner, now, r); }
  }

  lemma PartHas(rs: seq<seq<Byte>>, recs: seq<Rec>, path: Path, q: Query, ask: Ask, now: int, r: Rec)
    requires IsPart(rs, recs, path, q, ask, now, true) && r in recs && Matches(r, q, now) && Written(path, r)
    ensures RecordFor(path, r, ask.owner, now) in rs
  {
    hide Given, Matches, Times, RecordFor, Written;
    var found :| AllMatches(found, recs, q, now) && rs == Given(path, found, ask.owner, now);
    TimesMember(recs, r);
    TimesMember(found, r);
    GivenHas(path, found, ask.owner, now, r);
  }

  /** Every fresh record that a question seeks and that is not negative is among its answers. */
  lemma SoughtIsGiven(rs: seq<seq<Byte>>, recs: seq<Rec>, path: Path, q: Query, ask: Ask, o: Settings, now: int, r: Rec)
    requires Exact(rs, recs, ask, o, now) && Seeks(path, ask, o) && Looks(path, ask, o.arpa, q)
    requires r in recs && Matches(r, q, now) && Written(path, r)
    ensures RecordFor(path, r, ask.owner, now) in rs
  {
    hide IsPart, Matches, RecordFor, Written, MxPart, FakePart, Hushed;
    match o.arpa(ask.name) {
      case None =>
        var v4, v6 :| HostExact(rs, recs, ask, o, now, v4, v6);
        if path.ToV6? { PartHas(v6, recs, ToV6, q, ask, now, r); } else { PartHas(v4, recs, ToV4, q, ask, now, r); }
      case Some(a) =>
        var names :| PtrExact(rs, recs, ask, a, o, now, names);
        PartHas(names, recs, ToName, q, ask, now, r);
    }
  }
}
