/** forward.c itself: the loops over the table and over the server list, proved to take the
    steps of the Forwarding state machine. */
module Forwarder {
  import opened Options
  import opened Forwarding
  import opened ForwardingSafety
  import opened ForwardingExact

  // Each server is tried at most once: from start, next after next comes round exactly at the end.
  lemma {:induction false} TurnNext(list: seq<nat>, at: nat, k: nat)
    requires at < |list| && k < |list| && forall i, j :: 0 <= i < j < |list| ==> list[i] != list[j]
    ensures NextServer(list, Turn(list, at, k)) == if k + 1 < |list| then Turn(list, at, k + 1) else list[at]
    ensures forall m: nat :: m < k ==> Turn(list, at, m) != Turn(list, at, k)
  {
    var p := Turn(list, at, k);
    assert p in list;
    var i := if at + k < |list| then at + k else at + k - |list|;
    assert IndexOf(list, p) == i;
  }

  lemma TurnStart(list: seq<nat>, at: nat)
    requires at < |list|
    ensures Turn(list, at, 0) == list[at]
  {
  }

  lemma {:induction false} FirstStep(list: seq<nat>, mem: map<nat, Server>, domain: Option<string>, at: nat, k: nat, sends: seq<bool>)
    requires at < |list| <= |sends| && k < |list|
    ensures Turn(list, at, k) in list
    ensures var s := Info(mem, Turn(list, at, k));
            FirstSent(list, mem, domain, at, k, sends) ==
              if s.domain == domain && !s.noAddr && !s.literal && sends[k] then Some(k)
              else if k + 1 == |list| then None else FirstSent(list, mem, domain, at, k + 1, sends)
  {
  }

  predicate GoodDraw(fs: seq<Frec>, room: Option<Frec>, id: nat) {
    0 < id < 65536 && (forall i :: 0 <= i < |fs| ==> fs[i].newId != id) && (room.Some? ==> room.value.newId != id)
  }

  // A live entry for the client's query, sent to server p under upstream id `id`.
  predicate Waits(f: Frec, id: nat, source: nat, origId: nat, p: nat) {
    Live(f) && f.newId == id && f.source == source && f.origId == origId && f.sentto == p
  }

  lemma OldestNone(fs: seq<Frec>, now: int)
    ensures Oldest(fs[..0], now) == None
  {
  }

  lemma FreeEntry(fs: seq<Frec>, i: nat, now: int, room: Option<Frec>)
    requires i < |fs| && fs[i].newId == 0 && forall j :: 0 <= j < i ==> fs[j].newId != 0
    ensures GetNew(fs, now, room) == Some((fs[i := fs[i].(time := now)], i))
  {
  }

  lemma NoFreeEntry(fs: seq<Frec>, now: int, room: Option<Frec>)
    requires forall j :: 0 <= j < |fs| ==> fs[j].newId != 0
    ensures var o := Oldest(fs, now);
            GetNew(fs, now, room)
            == if o.Some? && now - fs[o.value].time > TIMEOUT then Some((fs[o.value := fs[o.value].(time := now)], o.value))
               else if |fs| > FTABSIZ || room.None? then None
               else Some(([room.value.(time := now)] + fs, 0))
  {
  }

  lemma OldestNext(fs: seq<Frec>, i: nat, now: int)
    requires i < |fs|
    ensures var o := Oldest(fs[..i], now);
            var limit := if o.Some? then fs[o.value].time else now;
            Oldest(fs[..i + 1], now) == if fs[i].time <= limit then Some(i) else o
  {
    assert fs[..i + 1][..i] == fs[..i];
  }

  class Forwarder {
    var frecs: seq<Frec>
    var servers: seq<nat>
    var mem: map<nat, Server>
    var last: Option<nat>
    // history of allocations and deliveries
    var allocs: seq<Alloc>
    var passed: seq<Delivery>

    ghost function Abs(): State
      reads this
    {
      State(frecs, servers, mem, last, allocs, passed)
    }

    // forward_init(1) with the first server list
    constructor (list: seq<nat>, info: map<nat, Server>)
      requires ListOk(list, info)
      ensures Initial(Abs()) && servers == list && mem == info
    {
      frecs, servers, mem := [], list, info;
      last := if list == [] then None else Some(list[0]);
      allocs, passed := [], [];
    }

    // lookup_frec
    method LookupFrec(id: nat) returns (r: Option<nat>)
      ensures r == ById(frecs, id)
    {
      for i := 0 to |frecs|
        invariant forall j :: 0 <= j < i ==> frecs[j].newId != id
      {
        if frecs[i].newId == id {
          return Some(i);
        }
      }
      r := None;
    }

    // lookup_frec_by_sender
    method LookupBySender(id: nat, source: nat) returns (r: Option<nat>)
      ensures r == BySender(frecs, source, id)
    {
      for i := 0 to |frecs|
        invariant forall j :: 0 <= j < i ==> !From(frecs[j], source, id)
      {
        if frecs[i].newId != 0 && frecs[i].origId == id && frecs[i].source == source {
          return Some(i);
        }
      }
      r := None;
    }

    // get_id; draws are the successive values of rand16, one of which must be usable
    method GetId(draws: seq<nat>) returns (id: nat)
      requires exists k :: 0 <= k < |draws| && 0 < draws[k] < 65536 && ById(frecs, draws[k]).None?
      requires forall k :: 0 <= k < |draws| ==> draws[k] < 65536
      ensures 0 < id < 65536 && ById(frecs, id).None?
    {
      id := 0;
      var n := 0;
      while id == 0
        invariant 0 <= n <= |draws| && (id != 0 ==> id < 65536 && ById(frecs, id).None?)
        invariant forall k :: 0 <= k < n && id == 0 ==> draws[k] == 0 || ById(frecs, draws[k]).Some?
        decreases |draws| - n, id == 0
      {
        id := draws[n];
        n := n + 1;
        if id != 0 {
          var used := LookupFrec(id);
          if used.Some? {
            id := 0;
          }
        }
      }
    }

    // get_new_frec; room is the entry malloc returns, if it does
    method GetNewFrec(now: int, room: Option<Frec>) returns (r: Option<nat>)
      modifies this`frecs
      ensures match GetNew(old(frecs), now, room)
              case None => r == None && frecs == old(frecs)
              case Some((fs, i)) => r == Some(i) && frecs == fs
    {
      hide Oldest, GetNew;
      var oldest: Option<nat> := None;
      var oldtime, i := now, 0;
      OldestNone(frecs, now);
      while i < |frecs|
        invariant 0 <= i <= |frecs| && frecs == old(frecs) && (forall j :: 0 <= j < i ==> frecs[j].newId != 0)
        invariant oldest == Oldest(frecs[..i], now)
        invariant oldtime == if oldest.Some? then frecs[oldest.value].time else now
      {
        if frecs[i].newId == 0 {
          FreeEntry(frecs, i, now, room);
          frecs := frecs[i := frecs[i].(time := now)];
          return Some(i);
        }
        OldestNext(frecs, i, now);
        if frecs[i].time <= oldtime {
          oldtime := frecs[i].time;
          oldest := Some(i);
        }
        i := i + 1;
      }
      assert frecs[..i] == frecs;
      NoFreeEntry(frecs, now, room);
      if oldest.Some? && now - oldtime > TIMEOUT {
        frecs := frecs[oldest.value := frecs[oldest.value].(time := now)];
        return oldest;
      }
      if i > FTABSIZ || room.None? {
        return None;
      }
      frecs := [room.value.(time := now)] + frecs;
      r := Some(0);
    }

    // The domain loop of forward_query: the longest match so far, and where it came from.
    method ChooseServer(q: QueryName) returns (b: Option<nat>)
      ensures b == Best(servers, mem, q)
    {
      b := None;
      var matchlen := 0;
      for i := 0 to |servers|
        invariant b == Best(servers[..i], mem, q)
        invariant matchlen == if b.Some? then DomainLen(Info(mem, b.value)) else 0
      {
        var s := Info(mem, servers[i]);
        assert servers[..i + 1][..i] == servers[..i];
        if q.Named? && s.domain.Some? && EndsWith(q.name, s.domain.value) && |s.domain.value| > matchlen {
          if !s.literal || (if s.v4 then q.kind.AskV4? else q.kind.AskV6?) {
            b, matchlen := Some(servers[i]), |s.domain.value|;
          }
        }
      }
      assert servers[..|servers|] == servers;
    }

    /** The send loop of forward_query for entry i: it tries each server at most once, starting
        with the entry's, sends only to servers of the given domain, and stops at the first
        success; if none takes the query the entry is released. */
    method SendLoop(i: nat, domain: Option<string>, sends: seq<bool>) returns (sent: Option<nat>)
      requires i < |frecs| && frecs[i].sentto in servers && |servers| <= |sends| && ListOk(servers, mem)
      modifies this`frecs, this`last
      ensures Abs() == Send(old(Abs()), i, domain, old(frecs[i].sentto), sends)
      ensures sent.Some? ==> sent.value in servers && Info(mem, sent.value).domain == domain
      ensures var at := IndexOf(servers, old(frecs[i].sentto)); sent == SentTo(servers, at, FirstSent(servers, mem, domain, at, 0, sends))
      ensures if sent.Some? then frecs == old(frecs)[i := old(frecs)[i].(sentto := sent.value)] else frecs[i].newId == 0
    {
      hide FirstSent, IndexOf, Turn, NextServer, Accepts;
      var first := frecs[i].sentto;
      ghost var at := IndexOf(servers, first);
      TurnStart(servers, at);
      var k: nat := 0;
      while true
        invariant last == old(last) && k < |servers| && frecs == old(frecs)[i := old(frecs)[i].(sentto := Turn(servers, at, k))]
        invariant FirstSent(servers, mem, domain, at, 0, sends) == FirstSent(servers, mem, domain, at, k, sends)
        decreases |servers| - k
      {
        var p := frecs[i].sentto;
        var s := Info(mem, p);
        FirstStep(servers, mem, domain, at, k, sends);
        TurnNext(servers, at, k);
        if s.domain == domain && !s.noAddr && !s.literal && sends[k] {
          last := if domain.Some? then last else Some(NextServer(servers, p));
          return Some(p);
        }
        if k + 1 < |servers| { TurnNext(servers, at, k + 1); }
        frecs := frecs[i := frecs[i].(sentto := NextServer(servers, p))];
        if frecs[i].sentto == first {
          break;
        }
        k := k + 1;
      }
      frecs := frecs[i := frecs[i].(newId := 0)];
      sent := None;
    }

    /** forward_query. Whatever way it takes, it is one step of the state machine; the header
        leaves with the upstream id if the query was sent on, and with its own id otherwise. */
    method ForwardQuery(now: int, source: nat, fd: nat, origId: nat, rd: bool, q: QueryName, strict: bool,
                        room: Option<Frec>, draws: seq<nat>, sends: seq<bool>)
      returns (hdrId: nat, sent: Option<nat>, ghost e: Event)
      requires Inv(Abs()) && |servers| <= |sends|
      requires (forall k :: 0 <= k < |draws| ==> draws[k] < 65536)
            && exists k :: 0 <= k < |draws| && GoodDraw(frecs, room, draws[k])
      modifies this`frecs, this`last, this`allocs
      ensures e.Query? && e == Query(now, source, fd, origId, rd, q, strict, room, e.newId, sends)
      ensures Enabled(old(Abs()), e) && Abs() == OnQuery(old(Abs()), e) && Inv(Abs())
      ensures sent.None? ==> hdrId == origId
      ensures Forwards(old(Abs()), Abs(), e, hdrId, sent)
      ensures sent.Some? ==> sent.value in servers && exists i :: 0 <= i < |frecs| && Waits(frecs[i], hdrId, source, origId, sent.value)
    {
      hide Forwards, Send, FirstSent;
      ghost var before := Abs();
      ghost var k :| 0 <= k < |draws| && GoodDraw(frecs, room, draws[k]);
      e := Query(now, source, fd, origId, rd, q, strict, room, draws[k], sends);
      assert Enabled(before, e);
      QueryInv(before, e);
      hdrId, sent := origId, None;
      if !rd || servers == [] {
        NothingExact(before, e);
        return;
      }
      var known := LookupBySender(origId, source);
      if known.Some? {
        var i := known.value;
        var domain := Info(mem, frecs[i].sentto).domain;
        sent := Retry(i, domain, sends);
        hdrId := if sent.Some? then frecs[i].newId else origId;
        RetryExact(before, e, i, sent, hdrId);
        assert sent.Some? ==> Waits(frecs[i], hdrId, source, origId, sent.value);
      } else {
        var b := ChooseServer(q);
        if b.Some? && Info(mem, b.value).literal {
          NothingExact(before, e);
          return;
        }
        hdrId, sent, e := Start(now, source, fd, origId, q, strict, room, draws, sends, b, e);
      }
    }

    // reply_query, on a response; the reply goes to `to`, under its original id
    method ReplyQuery(id: nat, good: bool) returns (to: Option<Delivery>)
      requires Inv(Abs())
      modifies this`frecs, this`last, this`passed
      ensures Abs() == OnReply(old(Abs()), Reply(id, good)) && (Inv(Abs()) <==> Harmless(old(Abs()), id))
      ensures passed == if to.Some? then old(passed) + [to.value] else old(passed)
      ensures Delivers(old(Abs()), Abs(), id, good, to)
      ensures to.Some? ==> to.value.newId == id && (Harmless(old(Abs()), id) ==> Honest(to.value, allocs))
    {
      ReplySound(Abs(), id, good);
      hide InvBut;
      var r := LookupFrec(id);
      if r.None? {
        return None;
      }
      var f := frecs[r.value];
      if good && Info(mem, f.sentto).domain.None? {
        last := Some(f.sentto);
      }
      to := Some(Delivery(f.serial, f.source, f.fd, f.origId, id));
      passed := passed + [to.value];
      frecs := frecs[r.value := f.(newId := 0)];
      assert DeliversFrom(old(Abs()), Abs(), id, good, to.value, r.value);
      if Harmless(old(Abs()), id) { LastHonest(Abs()); }
    }

    // forward_init(0), when the server list is replaced
    method NewServers(list: seq<nat>, info: map<nat, Server>)
      requires Inv(Abs()) && ListOk(list, info)
      modifies this`frecs, this`servers, this`mem, this`last
      ensures Abs() == OnReload(old(Abs()), Reload(list, info)) && Inv(Abs())
      ensures |frecs| == |old(frecs)| && (forall i :: 0 <= i < |frecs| ==> frecs[i] == old(frecs)[i].(newId := 0))
      ensures servers == list && mem == info && last == if list == [] then None else Some(list[0])
    {
      ReloadInv(Abs(), Reload(list, info));
      hide InvBut;
      var i := 0;
      ghost var was := frecs;
      while i < |frecs|
        invariant 0 <= i <= |frecs| == |was|
        invariant forall j :: 0 <= j < |was| ==> frecs[j] == if j < i then was[j].(newId := 0) else was[j]
      {
        frecs := frecs[i := frecs[i].(newId := 0)];
        i := i + 1;
      }
      assert frecs == Cancelled(was);
      servers, mem := list, info;
      last := if list == [] then None else Some(list[0]);
    }

    // The retry branch: on to the next server, then the send loop.
    method Retry(i: nat, domain: Option<string>, sends: seq<bool>) returns (sent: Option<nat>)
      requires i < |frecs| && frecs[i].sentto in servers && |servers| <= |sends| && ListOk(servers, mem)
      modifies this`frecs, this`last
      ensures Abs() == Send(old(Abs()), i, domain, NextServer(servers, old(frecs[i].sentto)), sends)
      ensures sent.Some? ==> sent.value in servers && frecs == old(frecs)[i := old(frecs)[i].(sentto := sent.value)]
      ensures var p := NextServer(servers, old(frecs[i].sentto));
              && p in servers
              && var at := IndexOf(servers, p); sent == SentTo(servers, at, FirstSent(servers, mem, domain, at, 0, sends))
    {
      ghost var s, next := Abs(), NextServer(servers, frecs[i].sentto);
      assert next in servers;
      frecs := frecs[i := frecs[i].(sentto := NextServer(servers, frecs[i].sentto))];
      ghost var t := Abs();
      SendIgnoresStart(s, t, i, domain, next, sends);
      sent := SendLoop(i, domain, sends);
    }

    // A new query: an entry, a fresh id, the first server, then the send loop.
    method Start(now: int, source: nat, fd: nat, origId: nat, q: QueryName, strict: bool, room: Option<Frec>,
                 draws: seq<nat>, sends: seq<bool>, b: Option<nat>, ghost e0: Event)
      returns (hdrId: nat, sent: Option<nat>, ghost e: Event)
      requires Inv(Abs()) && servers != [] && |servers| <= |sends| && b == Best(servers, mem, q)
      requires !(b.Some? && Info(mem, b.value).literal) && BySender(frecs, source, origId).None?
      requires (forall k :: 0 <= k < |draws| ==> draws[k] < 65536)
            && exists k :: 0 <= k < |draws| && GoodDraw(frecs, room, draws[k])
      requires e0.Query? && e0 == Query(now, source, fd, origId, true, q, strict, room, e0.newId, sends) && Enabled(Abs(), e0)
      modifies this`frecs, this`last, this`allocs
      ensures e.Query? && e == e0.(newId := e.newId) && Enabled(old(Abs()), e) && Abs() == OnQuery(old(Abs()), e) && Inv(Abs())
      ensures sent.None? ==> hdrId == origId
      ensures Forwards(old(Abs()), Abs(), e, hdrId, sent)
      ensures sent.Some? ==> sent.value in servers && exists i :: 0 <= i < |frecs| && Waits(frecs[i], hdrId, source, origId, sent.value)
    {
      hide OnQuery, Send, GetNew, Best, ById, InvBut, ListOk, Forwards, FirstSent, IndexOf;
      ghost var before := Abs();
      e := e0;
      hdrId, sent := origId, None;
      QueryInv(before, e);
      StartShape(before, e);
      GetNewShape(frecs, now, room);
      var got := GetNewFrec(now, room);
      if got.None? {
        NothingExact(before, e);
        return;
      }
      var i := got.value;
      var domain := if b.Some? then Info(mem, b.value).domain else None;
      DrawStillGood(before.frecs, now, room, draws);
      var id := GetId(draws);
      IdWasFree(before.frecs, now, room, id);
      e := e0.(newId := id);
      QueryInv(before, e);
      StartShape(before, e);
      AllocateInv(before, e);
      var start := if domain.Some? || strict then servers[0] else last.value;
      frecs := frecs[i := Frec(source, fd, origId, id, start, frecs[i].time, |allocs|)];
      allocs := allocs + [Alloc(source, fd, origId, id, domain)];
      assert Abs() == Allocate(before, e, GetNew(before.frecs, now, room).value.0, i);
      ghost var t := Abs();
      sent := SendLoop(i, domain, sends);
      hdrId := if sent.Some? then id else origId;
      StartExact(before, t, e, i, sent, hdrId);
      assert sent.Some? ==> Waits(frecs[i], hdrId, source, origId, sent.value);
    }
  }

  // What forward_query does with a query it has not seen and has no literal answer to.
  lemma {:induction false} StartShape(s: State, e: Event)
    requires Inv(s) && e.Query? && Enabled(s, e) && e.rd && s.servers != []
    requires BySender(s.frecs, e.source, e.origId).None?
    requires var b := Best(s.servers, s.mem, e.q); !(b.Some? && Info(s.mem, b.value).literal)
    ensures s.last.Some? && ListOk(s.servers, s.mem)
    ensures match GetNew(s.frecs, e.now, e.room)
            case None => OnQuery(s, e) == s
            case Some((fs, i)) =>
              && i < |fs|
              && var t := Allocate(s, e, fs, i);
                 && t.frecs[i].sentto in t.servers
                 && OnQuery(s, e) == Send(t, i, ChosenDomain(s, e.q), t.frecs[i].sentto, e.sends)
  {
    hide Best, ById, BySender, Send, Unique, Pending, PassedSound, InDomain;
    GetNewShape(s.frecs, e.now, e.room);
  }

  lemma LastHonest(s: State)
    requires Inv(s) && s.passed != []
    ensures Honest(s.passed[|s.passed| - 1], s.allocs)
  {
  }

  // Where the entry pointed before does not matter to the send loop.
  lemma {:induction false} SendIgnoresStart(s: State, t: State, i: nat, domain: Option<string>, start: nat, sends: seq<bool>)
    requires i < |s.frecs| && start in s.servers && |s.servers| <= |sends|
    requires t == s.(frecs := s.frecs[i := s.frecs[i].(sentto := start)])
    ensures Send(t, i, domain, start, sends) == Send(s, i, domain, start, sends)
  {
    hide FirstSent, IndexOf, Turn, NextServer;
  }

  lemma {:induction false} DrawStillGood(fs: seq<Frec>, now: int, room: Option<Frec>, draws: seq<nat>)
    requires GetNew(fs, now, room).Some?
    requires exists k :: 0 <= k < |draws| && GoodDraw(fs, room, draws[k])
    ensures exists k :: 0 <= k < |draws| && 0 < draws[k] < 65536 && ById(GetNew(fs, now, room).value.0, draws[k]).None?
  {
    var k :| 0 <= k < |draws| && GoodDraw(fs, room, draws[k]);
    GetNewShape(fs, now, room);
    var gs := GetNew(fs, now, room).value.0;
    forall i | 0 <= i < |gs| ensures gs[i].newId != draws[k] { }
    assert ById(gs, draws[k]).None?;
  }

  lemma {:induction false} IdWasFree(fs: seq<Frec>, now: int, room: Option<Frec>, id: nat)
    requires GetNew(fs, now, room).Some? && ById(GetNew(fs, now, room).value.0, id).None?
    ensures ById(fs, id).None?
  {
    GetNewShape(fs, now, room);
    var (gs, i) := GetNew(fs, now, room).value;
    forall j | 0 <= j < |fs| ensures fs[j].newId != id {
      if |gs| == |fs| { assert gs[j].newId == fs[j].newId; } else { assert gs[j + 1] == fs[j]; }
    }
  }
}
