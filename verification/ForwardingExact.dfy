/** What forward_query and reply_query do, said of the table and of positions in the server list: where a
    query goes, who gets the reply, and what is left as it was. */
module ForwardingExact {
  import opened Options
  import opened Forwarding
  import opened ForwardingSafety

  // ---- one round over the servers

  // The k-th server from position j on is of the domain, has an address of its own, and takes the packet.
  predicate TakesAt(servers: seq<nat>, mem: map<nat, Server>, domain: Option<string>, j: nat, k: nat, sends: seq<bool>)
    requires servers != [] && k < |sends|
  {
    var s := Info(mem, servers[(j + k) % |servers|]);
    s.domain == domain && !s.noAddr && !s.literal && sends[k]
  }

  // The query goes to the first server from position j on, round to the one before it, that takes it.
  ghost predicate GoesTo(servers: seq<nat>, mem: map<nat, Server>, domain: Option<string>, j: nat, sends: seq<bool>, sent: Option<nat>)
    requires servers != [] && |servers| <= |sends|
  {
    match sent
    case None => forall k :: 0 <= k < |servers| ==> !TakesAt(servers, mem, domain, j, k, sends)
    case Some(p) => exists k :: FirstTaker(servers, mem, domain, j, k, sends, p)
  }

  ghost predicate FirstTaker(servers: seq<nat>, mem: map<nat, Server>, domain: Option<string>, j: nat, k: int, sends: seq<bool>, p: nat)
    requires servers != [] && |servers| <= |sends|
  {
    && 0 <= k < |servers| && p == servers[(j + k) % |servers|] && TakesAt(servers, mem, domain, j, k, sends)
    && forall i :: 0 <= i < k ==> !TakesAt(servers, mem, domain, j, i, sends)
  }

  function SentTo(list: seq<nat>, j: nat, r: Option<nat>): Option<nat>
    requires j < |list| && (r.Some? ==> r.value < |list|)
  {
    if r.Some? then Some(Turn(list, j, r.value)) else None
  }

  lemma TurnAt(list: seq<nat>, j: nat, k: nat)
    requires j < |list| && k < |list|
    ensures Turn(list, j, k) == list[(j + k) % |list|]
  {
    Round(j + k, |list|);
  }

  lemma Round(x: nat, n: nat)
    requires 0 < n && x < 2 * n
    ensures x % n == if x < n then x else x - n
  {
  }

  lemma GoesToFirst(list: seq<nat>, mem: map<nat, Server>, domain: Option<string>, j: nat, sends: seq<bool>)
    requires j < |list| <= |sends|
    ensures GoesTo(list, mem, domain, j, sends, SentTo(list, j, FirstSent(list, mem, domain, j, 0, sends)))
  {
    hide FirstSent, Turn;
    forall k | 0 <= k < |list|
      ensures Accepts(list, mem, domain, j, k, sends) == TakesAt(list, mem, domain, j, k, sends) && Turn(list, j, k) == list[(j + k) % |list|]
    {
      TurnAt(list, j, k);
    }
    var r := FirstSent(list, mem, domain, j, 0, sends);
    if r.Some? { assert FirstTaker(list, mem, domain, j, r.value, sends, Turn(list, j, r.value)); }
  }

  // In a list without repetitions a server has one position, and the next server the next.
  lemma Positions(list: seq<nat>, j: nat)
    requires j < |list| && forall a, b :: 0 <= a < b < |list| ==> list[a] != list[b]
    ensures IndexOf(list, list[j]) == j && NextServer(list, list[j]) == list[(j + 1) % |list|]
  {
    hide IndexOf;
    Round(j + 1, |list|);
  }

  // ---- forward_query

  // At position m is p, and behind it, or at the front of the list, q.
  predicate Follows(servers: seq<nat>, m: int, p: nat, q: nat) {
    0 <= m < |servers| && servers[m] == p && servers[(m + 1) % |servers|] == q
  }

  // The server after the one that took a query without a domain is where the next one starts.
  ghost predicate LastAfter(s: State, t: State, domain: Option<string>, sent: Option<nat>) {
    if sent.Some? && domain.None?
    then t.last.Some? && exists m :: Follows(s.servers, m, sent.value, t.last.value)
    else t.last == s.last
  }

  // A query that waits in entry i at the server at position j goes on to the servers behind that one.
  ghost predicate RetriedFrom(s: State, t: State, e: Event, i: nat, j: int, hdrId: nat, sent: Option<nat>)
    requires e.Query? && i < |s.frecs| && s.servers != [] && |s.servers| <= |e.sends|
  {
    && 0 <= j < |s.servers| && s.servers[j] == s.frecs[i].sentto
    && var f, domain := s.frecs[i], Info(s.mem, s.frecs[i].sentto).domain;
       && GoesTo(s.servers, s.mem, domain, (j + 1) % |s.servers|, e.sends, sent) && LastAfter(s, t, domain, sent)
       && t.allocs == s.allocs && t.passed == s.passed && t.servers == s.servers && t.mem == s.mem && |t.frecs| == |s.frecs|
       && (forall m :: 0 <= m < |s.frecs| && m != i ==> t.frecs[m] == s.frecs[m])
       && (sent.Some? ==> hdrId == f.newId && t.frecs[i] == f.(sentto := sent.value))
       && (sent.None? ==> !Live(t.frecs[i]) && t.frecs[i].source == f.source && t.frecs[i].origId == f.origId)
  }

  // A new query takes entry i and starts at position j.
  ghost predicate StartedAt(s: State, t: State, e: Event, i: int, j: int, hdrId: nat, sent: Option<nat>)
    requires e.Query? && s.servers != [] && |s.servers| <= |e.sends|
  {
    var b := Best(s.servers, s.mem, e.q);
    var domain := if b.Some? then Info(s.mem, b.value).domain else None;
    && 0 <= j < |s.servers| && (if domain.Some? || e.strict then j == 0 else s.last == Some(s.servers[j]))
    && GoesTo(s.servers, s.mem, domain, j, e.sends, sent) && LastAfter(s, t, domain, sent)
    && t.allocs == s.allocs + [Alloc(e.source, e.fd, e.origId, e.newId, domain)]
    && t.passed == s.passed && t.servers == s.servers && t.mem == s.mem
    && 0 <= i < |t.frecs| && Placed(s.frecs, t.frecs, i)
    && (|t.frecs| == |s.frecs| ==> !Live(s.frecs[i]) || e.now - s.frecs[i].time > TIMEOUT)
    && (sent.Some? ==> hdrId == e.newId && t.frecs[i] == Frec(e.source, e.fd, e.origId, e.newId, sent.value, e.now, |s.allocs|))
    && (sent.None? ==> !Live(t.frecs[i]))
  }

  // Every entry is in use and aged TIMEOUT or less, and the table may not or cannot grow.
  predicate Full(fs: seq<Frec>, now: int, room: Option<Frec>) {
    (forall i :: 0 <= i < |fs| ==> Live(fs[i]) && now - fs[i].time <= TIMEOUT) && (|fs| > FTABSIZ || room.None?)
  }

  // What comes of a query: nothing without the wish for recursion or servers, when a literal address answers it,
  // or when the table is full; on to the next servers if it was sent before; otherwise a new entry.
  ghost predicate Forwards(s: State, t: State, e: Event, hdrId: nat, sent: Option<nat>)
    requires e.Query? && |s.servers| <= |e.sends|
  {
    var b := Best(s.servers, s.mem, e.q);
    if !e.rd || s.servers == [] then t == s && sent.None?
    else if exists i :: 0 <= i < |s.frecs| && From(s.frecs[i], e.source, e.origId) then
      exists i, j :: 0 <= i < |s.frecs| && From(s.frecs[i], e.source, e.origId) && RetriedFrom(s, t, e, i, j, hdrId, sent)
    else if (b.Some? && Info(s.mem, b.value).literal) || Full(s.frecs, e.now, e.room) then t == s && sent.None?
    else exists i, j :: StartedAt(s, t, e, i, j, hdrId, sent)
  }

  lemma FullExactly(fs: seq<Frec>, now: int, room: Option<Frec>)
    ensures GetNew(fs, now, room).None? <==> Full(fs, now, room)
  {
    hide ById, Oldest;
  }

  // What the send loop leaves when it started at position j.
  lemma SendIs(s: State, i: nat, domain: Option<string>, j: nat, sends: seq<bool>)
    requires i < |s.frecs| && j < |s.servers| <= |sends| && ListOk(s.servers, s.mem)
    ensures var t, sent := Send(s, i, domain, s.servers[j], sends), SentTo(s.servers, j, FirstSent(s.servers, s.mem, domain, j, 0, sends));
            && GoesTo(s.servers, s.mem, domain, j, sends, sent) && LastAfter(s, t, domain, sent)
            && t == s.(frecs := t.frecs, last := t.last)
            && t.frecs == s.frecs[i := if sent.Some? then s.frecs[i].(sentto := sent.value) else s.frecs[i].(sentto := s.servers[j], newId := 0)]
  {
    hide FirstSent, Turn, IndexOf, NextServer, GoesTo, Info;
    Positions(s.servers, j);
    GoesToFirst(s.servers, s.mem, domain, j, sends);
    var r := FirstSent(s.servers, s.mem, domain, j, 0, sends);
    if r.Some? {
      TurnAt(s.servers, j, r.value);
      var m := (j + r.value) % |s.servers|;
      Positions(s.servers, m);
      assert Follows(s.servers, m, s.servers[m], NextServer(s.servers, s.servers[m]));
    }
  }

  lemma RetryExact(s: State, e: Event, i: nat, sent: Option<nat>, hdrId: nat)
    requires e.Query? && e.rd && Inv(s) && s.servers != [] && |s.servers| <= |e.sends| && BySender(s.frecs, e.source, e.origId) == Some(i)
    requires var p := NextServer(s.servers, s.frecs[i].sentto);
             && p in s.servers
             && sent == SentTo(s.servers, IndexOf(s.servers, p),
                               FirstSent(s.servers, s.mem, Info(s.mem, s.frecs[i].sentto).domain, IndexOf(s.servers, p), 0, e.sends))
    requires hdrId == if sent.Some? then s.frecs[i].newId else e.origId
    ensures Forwards(s, OnQuery(s, e), e, hdrId, sent)
  {
    hide FirstSent, IndexOf, NextServer, GoesTo, Best, Send, Unique, Pending, PassedSound, InDomain, LastAfter;
    var f := s.frecs[i];
    var j: nat := IndexOf(s.servers, f.sentto);
    Positions(s.servers, j);
    var k := (j + 1) % |s.servers|;
    Positions(s.servers, k);
    SendIs(s, i, Info(s.mem, f.sentto).domain, k, e.sends);
    assert RetriedFrom(s, OnQuery(s, e), e, i, j, hdrId, sent);
  }

  lemma StartExact(s: State, t: State, e: Event, i: nat, sent: Option<nat>, hdrId: nat)
    requires e.Query? && e.rd && Inv(s) && s.servers != [] && |s.servers| <= |e.sends| && BySender(s.frecs, e.source, e.origId).None?
    requires var b := Best(s.servers, s.mem, e.q); !(b.Some? && Info(s.mem, b.value).literal)
    requires GetNew(s.frecs, e.now, e.room).Some? && GetNew(s.frecs, e.now, e.room).value.1 == i < |GetNew(s.frecs, e.now, e.room).value.0|
    requires s.last.Some? && t == Allocate(s, e, GetNew(s.frecs, e.now, e.room).value.0, i) && t.frecs[i].sentto in s.servers
    requires var j := IndexOf(s.servers, t.frecs[i].sentto);
             sent == SentTo(s.servers, j, FirstSent(s.servers, s.mem, ChosenDomain(s, e.q), j, 0, e.sends))
    requires hdrId == if sent.Some? then e.newId else e.origId
    ensures Forwards(s, Send(t, i, ChosenDomain(s, e.q), t.frecs[i].sentto, e.sends), e, hdrId, sent)
  {
    hide FirstSent, IndexOf, NextServer, GoesTo, Best, Send, Unique, Pending, PassedSound, InDomain, LastAfter, GetNew, Full;
    FullExactly(s.frecs, e.now, e.room);
    GetNewShape(s.frecs, e.now, e.room);
    var j := IndexOf(s.servers, t.frecs[i].sentto);
    Positions(s.servers, 0);
    SendIs(t, i, ChosenDomain(s, e.q), j, e.sends);
    LastSame(s, t, Send(t, i, ChosenDomain(s, e.q), t.frecs[i].sentto, e.sends), ChosenDomain(s, e.q), sent);
    assert StartedAt(s, Send(t, i, ChosenDomain(s, e.q), t.frecs[i].sentto, e.sends), e, i, j, hdrId, sent);
  }

  lemma LastSame(s: State, t: State, u: State, domain: Option<string>, sent: Option<nat>)
    requires t.servers == s.servers && t.last == s.last && LastAfter(t, u, domain, sent)
    ensures LastAfter(s, u, domain, sent)
  {
  }

  lemma NothingExact(s: State, e: Event)
    requires e.Query? && Inv(s) && |s.servers| <= |e.sends|
    requires !e.rd || s.servers == []
          || (BySender(s.frecs, e.source, e.origId).None?
              && ((Best(s.servers, s.mem, e.q).Some? && Info(s.mem, Best(s.servers, s.mem, e.q).value).literal)
                  || GetNew(s.frecs, e.now, e.room).None?))
    ensures Forwards(s, s, e, e.origId, None)
  {
    hide Best, GetNew, Full, InvBut;
    FullExactly(s.frecs, e.now, e.room);
  }

  // ---- reply_query

  // The first entry with the reply's id is delivered and released; a good reply from a server without a domain
  // makes that server the last good one.
  ghost predicate Delivers(s: State, t: State, id: nat, good: bool, to: Option<Delivery>) {
    && t.servers == s.servers && t.mem == s.mem && t.allocs == s.allocs
    && match to
       case None => t == s && forall i :: 0 <= i < |s.frecs| ==> s.frecs[i].newId != id
       case Some(d) => exists i :: DeliversFrom(s, t, id, good, d, i)
  }

  ghost predicate DeliversFrom(s: State, t: State, id: nat, good: bool, d: Delivery, i: int) {
    && 0 <= i < |s.frecs| && s.frecs[i].newId == id && (forall j :: 0 <= j < i ==> s.frecs[j].newId != id)
    && var f := s.frecs[i];
       && d == Delivery(f.serial, f.source, f.fd, f.origId, id) && t.passed == s.passed + [d]
       && t.frecs == s.frecs[i := f.(newId := 0)]
       && t.last == if good && Info(s.mem, f.sentto).domain.None? then Some(f.sentto) else s.last
  }
}
