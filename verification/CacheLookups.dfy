/** What the other operations of the cache make of later lookups: leases, /etc/hosts names, reloads. */
module CacheLookups {
  import opened Options
  import opened CacheRecords
  import opened CacheRuns
  import opened CacheTheorems

  // ---- what a record is found by

  function QueryOf(k: Key): Query { Query(k.target, if k.v6 then OnlyV6 else OnlyV4) }

  /** An ordinary record hits the query for a key if and only if it carries the key. */
  lemma HitsCarries(r: Rec, k: Key)
    requires Ordinary(r) && Keyed(r) && RecOk(r)
    ensures Hits(r, QueryOf(k)) <==> Carries(r, k)
  {
  }

  /** A record is found by its own name or address only: two queries that hit it ask for the same name, or
      for addresses with the same first word, and the same other words if both are for IPv6. */
  lemma OneTarget(r: Rec, p: Query, q: Query)
    requires Hits(r, p) && Hits(r, q)
    ensures p.target.Name? && q.target.Name? ==> p.target.text == q.target.text == r.name
    ensures p.target.Address? && q.target.Address? ==> p.target.addr.word == q.target.addr.word == r.addr.word
    ensures p.target.Address? && q.target.Address? && p.prot.OnlyV6? && q.prot.OnlyV6? ==> p.target.addr == q.target.addr == r.addr
    ensures (p.target.Name? ==> r.fwd) && (p.target.Address? ==> r.rev) && (p.prot.OnlyV4? ==> r.v4) && (p.prot.OnlyV6? ==> r.v6)
  {
  }

  // The query asks for this name, or this address, in this family.
  predicate AsksName(q: Query, name: string, v6: bool) { q.target == Name(name) && q.prot.OnlyV6? == v6 }

  predicate AsksAddr(q: Query, addr: Addr, v6: bool) {
    q.target.Address? && q.prot.OnlyV6? == v6 && q.target.addr.word == addr.word && (v6 ==> q.target.addr.rest == addr.rest)
  }

  /** What was inserted is found by the name or the address it was inserted for, in its family, until it
      expires, and by nothing else. */
  lemma InsertedIsFound(r: Rec, rq: Request, now: int, q: Query, t: int)
    requires Answers(r, rq, now)
    ensures Matches(r, q, t)
       <==> !q.prot.LocalData? && t < TimeT(now + rq.ttl) && if rq.ForName? then AsksName(q, rq.name, rq.v6) else AsksAddr(q, rq.addr, rq.v6)
  {
  }

  // ---- what changes for lookups from time 0 on

  // Nothing.
  ghost predicate Unmoved(s: seq<Rec>, t: seq<Rec>) {
    forall q, u, x :: u >= 0 && Matches(x, q, u) ==> Times(t, x) == Times(s, x)
  }

  // One record more.
  ghost predicate Gains(s: seq<Rec>, t: seq<Rec>, r: Rec) {
    forall q, u, x :: u >= 0 && Matches(x, q, u) ==> Times(t, x) == Times(s, x) + if x == r then 1 else 0
  }

  // One record in the place of another.
  ghost predicate Swaps(s: seq<Rec>, t: seq<Rec>, was: Rec, r: Rec) {
    forall q, u, x :: u >= 0 && Matches(x, q, u) ==> Times(t, x) == Times(s, x) - (if x == was then 1 else 0) + if x == r then 1 else 0
  }

  lemma LookupUnmoved(st: State, q: Query)
    ensures Unmoved(st.recs, Swept(st, Lookup(q, 0)).recs)
  {
    hide Swept, Matches, Times;
    forall p, u, x | u >= 0 && Matches(x, p, u)
      ensures Times(Swept(st, Lookup(q, 0)).recs, x) == Times(st.recs, x)
    {
      LookupHarmless(st, q, 0, p, u, x);
    }
  }

  lemma GainsHead(s: seq<Rec>, t: seq<Rec>, r: Rec)
    requires Unmoved(s, t)
    ensures Gains(s, [r] + t, r)
  {
    hide Matches, Times;
    forall q, u, x | u >= 0 && Matches(x, q, u)
      ensures Times([r] + t, x) == Times(s, x) + if x == r then 1 else 0
    {
      TimesConcat([r], t, x);
      TimesOne(r, x);
    }
  }

  lemma SwapsHead(s: seq<Rec>, t: seq<Rec>, r: Rec)
    requires Unmoved(s, t) && t != []
    ensures Swaps(s, t[0 := r], t[0], r)
  {
    hide Matches, Times;
    var rest := t[1..];
    assert t == [t[0]] + rest && t[0 := r] == [r] + rest;
    forall q, u, x | u >= 0 && Matches(x, q, u)
      ensures Times(t[0 := r], x) == Times(s, x) - (if x == t[0] then 1 else 0) + if x == r then 1 else 0
    {
      TimesConcat([t[0]], rest, x);
      TimesConcat([r], rest, x);
      TimesOne(t[0], x);
      TimesOne(r, x);
    }
  }

  // ---- leases

  // What the lookup of the lease's name returns, if anything.
  function Holder(recs: seq<Rec>, host: string): (f: Option<Rec>) {
    var found := Front(recs, Lookup(Query(Name(host), OnlyV4), 0));
    if found == [] then None else Some(found[0])
  }

  // Nobody holds the name, or only the knowledge that it does not exist.
  predicate NeedsRecord(recs: seq<Rec>, host: string) {
    match Holder(recs, host) case None => true case Some(h) => Ordinary(h) && h.neg
  }

  lemma HolderIs(recs: seq<Rec>, host: string)
    ensures match Holder(recs, host)
            case Some(r) => r in recs && Matches(r, Query(Name(host), OnlyV4), 0)
            case None => forall r :: r in recs ==> !Matches(r, Query(Name(host), OnlyV4), 0)
  {
    hide Matches, Front, Times;
    var q := Query(Name(host), OnlyV4);
    var found := Front(recs, Lookup(q, 0));
    if found != [] {
      TimesMember(found, found[0]);
      FrontTimes(recs, q, 0, found[0]);
      TimesMember(recs, found[0]);
    } else {
      forall r | r in recs
        ensures !Matches(r, q, 0)
      {
        TimesMember(found, r);
        FrontTimes(recs, q, 0, r);
        TimesMember(recs, r);
      }
    }
  }

  // After the lookup the holder is at the head of the list.
  lemma HolderLeads(st: State, host: string)
    ensures var q := Query(Name(host), OnlyV4);
            var s := Swept(st, Lookup(q, 0)).recs;
            && (s != [] && Hits(s[0], q) <==> Holder(st.recs, host).Some?)
            && (Holder(st.recs, host).Some? ==> s[0] == Holder(st.recs, host).value)
  {
    hide Hits, Front, Kept, Gone;
    HitsLead(st.recs, Query(Name(host), OnlyV4), 0);
  }

  // A record for the lease: found by its name until it ends, by its address if it is canonical, and as local data.
  predicate FindsLease(l: Lease, q: Query, t: int) {
    && !q.prot.OnlyV6? && (l.ttd == -1 || t < l.ttd)
    && match q.target
       case Name(u) => u == l.host
       case Address(a) => l.canonical && a.word == l.word
  }

  ghost predicate IsLease(r: Rec, l: Lease) {
    r.dhcp && !r.hosts && !r.neg && r.addr.word == l.word && forall q, t :: Matches(r, q, t) <==> FindsLease(l, q, t)
  }

  lemma LeaseRecIs(l: Lease, mem: Rec)
    ensures IsLease(LeaseRec(l, mem), l)
  {
  }

  /** A lease for a name that nothing fresh holds, or that is only held as not existing: with memory for a record,
      every later lookup finds what it found before and the lease; an entry that the name does not exist is gone. */
  lemma LeaseAdds(st: State, l: Lease, mem: Rec) returns (r: Rec)
    requires Inv(st)
    requires NeedsRecord(st.recs, l.host)
    ensures IsLease(r, l)
    ensures match Holder(st.recs, l.host)
            case None => Gains(st.recs, Leased(st, l, Some(mem)).recs, r)
            case Some(h) => Swaps(st.recs, Leased(st, l, Some(mem)).recs, h, r)
  {
    hide Swept, Hits, Holder, LeaseRec, IsLease, Gains, Swaps, Unmoved, Inv;
    var q := Query(Name(l.host), OnlyV4);
    var s := Swept(st, Lookup(q, 0)).recs;
    r := LeaseRec(l, mem);
    LeaseRecIs(l, mem);
    HolderLeads(st, l.host);
    HolderIs(st.recs, l.host);
    LookupUnmoved(st, q);
    var h := Holder(st.recs, l.host);
    if h.Some? {
      assert Leased(st, l, Some(mem)).recs == [r] + s[0 := s[0].(fwd := false)];
      OkIn(st, h.value);
      SwapsUnkeyed(st.recs, s, r, q);
    } else {
      assert Leased(st, l, Some(mem)).recs == [r] + s;
      GainsHead(st.recs, s, r);
    }
  }

  lemma OkIn(st: State, r: Rec)
    requires Inv(st) && r in st.recs
    ensures RecOk(r)
  {
    hide RecOk;
  }

  lemma SwapsUnkeyed(s: seq<Rec>, t: seq<Rec>, r: Rec, q: Query)
    requires Unmoved(s, t) && t != [] && Ordinary(t[0]) && RecOk(t[0]) && Matches(t[0], q, 0) && q.target.Name?
    ensures Swaps(s, [r] + t[0 := t[0].(fwd := false)], t[0], r)
  {
    hide Times;
    var gone := t[0].(fwd := false);
    SwapsHead(s, t, gone);
    var u := t[0 := gone];
    forall p, v, x | v >= 0 && Matches(x, p, v)
      ensures Times([r] + u, x) == Times(s, x) - (if x == t[0] then 1 else 0) + if x == r then 1 else 0
    {
      assert x != gone;
      TimesConcat([r], u, x);
      TimesOne(r, x);
    }
  }

  /** A lease for a name held by an earlier lease: the record found afterwards has the new address and time if
      and only if the new lease is later or infinite; otherwise nothing changes. What was infinite stays so. */
  lemma LeaseRenews(st: State, l: Lease, room: Option<Rec>) returns (r: Rec)
    requires Holder(st.recs, l.host).Some? && Holder(st.recs, l.host).value.dhcp && !Holder(st.recs, l.host).value.hosts
    ensures var h := Holder(st.recs, l.host).value;
            if l.ttd > h.ttd || l.ttd == -1
            then && Swaps(st.recs, Leased(st, l, room).recs, h, r)
                 && r.addr.word == l.word && r.name == h.name && r.dhcp && !r.hosts && r.fwd == h.fwd && r.rev == h.rev && r.v4 == h.v4 && r.v6 == h.v6
                 && r.neg == h.neg && forall t :: Fresh(r, t) <==> h.immortal || l.ttd == -1 || t < l.ttd
            else Unmoved(st.recs, Leased(st, l, room).recs)
  {
    hide Swept, Hits, Holder, LeaseRec, Swaps, Unmoved;
    var q := Query(Name(l.host), OnlyV4);
    var s := Swept(st, Lookup(q, 0)).recs;
    HolderLeads(st, l.host);
    LookupUnmoved(st, q);
    var h := Holder(st.recs, l.host).value;
    r := h.(addr := Addr(l.word, h.addr.rest), immortal := h.immortal || l.ttd == -1, ttd := if l.ttd == -1 then h.ttd else l.ttd);
    if l.ttd > h.ttd || l.ttd == -1 { SwapsHead(st.recs, s, r); }
  }

  /** A name held by /etc/hosts, or by a positive answer, keeps what it had; without memory nothing is added. */
  lemma LeaseYields(st: State, l: Lease, room: Option<Rec>)
    requires match Holder(st.recs, l.host) case None => room.None? case Some(h) => h.hosts || (Ordinary(h) && !h.neg)
    ensures Unmoved(st.recs, Leased(st, l, room).recs)
  {
    hide Swept, Hits, Holder, LeaseRec, Unmoved;
    HolderLeads(st, l.host);
    LookupUnmoved(st, Query(Name(l.host), OnlyV4));
    var s := Swept(st, Lookup(Query(Name(l.host), OnlyV4), 0)).recs;
    assert [] + s == s;
  }

  // ---- /etc/hosts, reload, leases cleared

  // Found for ever by its name, and by its address if it is canonical, in its own family or as local data.
  predicate FindsHost(name: string, addr: Addr, v6: bool, canonical: bool, q: Query) {
    && (q.prot.LocalData? || q.prot.OnlyV6? == v6)
    && match q.target
       case Name(u) => u == name
       case Address(a) => canonical && a.word == addr.word && (q.prot.OnlyV6? ==> a.rest == addr.rest)
  }

  ghost predicate IsHost(r: Rec, name: string, addr: Addr, v6: bool, canonical: bool) {
    r.hosts && !r.neg && r.addr == addr && forall q, t :: Matches(r, q, t) <==> FindsHost(name, addr, v6, canonical, q)
  }

  /** A name of /etc/hosts: every later lookup finds what it found before and the name. */
  lemma HostAdds(st: State, name: string, addr: Addr, v6: bool, canonical: bool) returns (r: Rec)
    ensures IsHost(r, name, addr, v6, canonical) && Gains(st.recs, [HostRec(name, addr, v6, canonical)] + st.recs, r)
  {
    r := HostRec(name, addr, v6, canonical);
    assert Unmoved(st.recs, st.recs);
    GainsHead(st.recs, st.recs, r);
  }

  /** After the clearing loop of cache_reload nothing but leases can be found, and those as before. */
  lemma {:induction false} ReloadForgets(s: seq<Rec>, q: Query, t: int, x: Rec)
    requires Matches(x, q, t)
    ensures Times(Cleared(s), x) == if x.dhcp && !x.hosts then Times(s, x) else 0
  {
    if s != [] {
      var i, r := s[..|s| - 1], s[|s| - 1];
      ReloadForgets(i, q, t, x);
      var kept := if r.dhcp then r else Wiped(r);
      if !r.hosts {
        TimesConcat(Cleared(i), [kept], x);
        TimesOne(kept, x);
      }
    }
  }

  /** After cache_clear_dhcp no lease can be found, and everything else as before. */
  lemma {:induction false} LeasesForgotten(s: seq<Rec>, x: Rec)
    ensures Times(WithoutDhcp(s), x) == if x.dhcp then 0 else Times(s, x)
  {
    if s != [] {
      var i, r := s[..|s| - 1], s[|s| - 1];
      LeasesForgotten(i, x);
      if !r.dhcp {
        TimesConcat(WithoutDhcp(i), [r], x);
        TimesOne(r, x);
      }
    }
  }
}
