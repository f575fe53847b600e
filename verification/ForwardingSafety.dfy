/** Safety of the forwarding table over whole runs: ids, senders, servers and deliveries. */
module ForwardingSafety {
  import opened Options
  import opened Forwarding

  // ---- the invariant

  // Live ids are distinct 16-bit numbers, and so are live (client, original id) pairs.
  ghost predicate Unique(fs: seq<Frec>) {
    && (forall i :: 0 <= i < |fs| ==> fs[i].newId < 65536)
    && (forall i, j :: 0 <= i < j < |fs| && Live(fs[i]) && Live(fs[j]) ==>
          && fs[i].newId != fs[j].newId && fs[i].serial != fs[j].serial
          && (fs[i].source != fs[j].source || fs[i].origId != fs[j].origId))
  }

  // The entry still is what its allocation made it.
  ghost predicate Owed(f: Frec, allocs: seq<Alloc>) {
    && f.serial < |allocs|
    && var a := allocs[f.serial]; a.source == f.source && a.fd == f.fd && a.origId == f.origId && a.newId == f.newId
  }

  ghost predicate Honest(d: Delivery, allocs: seq<Alloc>) {
    && d.serial < |allocs|
    && var a := allocs[d.serial]; a.source == d.source && a.fd == d.fd && a.origId == d.origId && a.newId == d.newId
  }

  // Every reply went to the client and original id that allocated its id, at most once per allocation.
  ghost predicate PassedSound(passed: seq<Delivery>, allocs: seq<Alloc>) {
    && (forall k :: 0 <= k < |passed| ==> Honest(passed[k], allocs))
    && (forall j, k :: 0 <= j < k < |passed| ==> passed[j].serial != passed[k].serial)
  }

  ghost predicate Pending(fs: seq<Frec>, allocs: seq<Alloc>, passed: seq<Delivery>) {
    forall i :: 0 <= i < |fs| && Live(fs[i]) ==>
      Owed(fs[i], allocs) && forall k :: 0 <= k < |passed| ==> passed[k].serial != fs[i].serial
  }

  ghost predicate ListOk(list: seq<nat>, mem: map<nat, Server>) {
    && (forall i :: 0 <= i < |list| ==> list[i] in mem)
    && (forall i, j :: 0 <= i < j < |list| ==> list[i] != list[j])
  }

  // A live query waits for a server of its own domain.
  ghost predicate InDomain(fs: seq<Frec>, allocs: seq<Alloc>, mem: map<nat, Server>, except: int) {
    forall i :: 0 <= i < |fs| && i != except && Live(fs[i]) && fs[i].serial < |allocs| ==>
      Info(mem, fs[i].sentto).domain == allocs[fs[i].serial].domain
  }

  // No id that was ever given out is 0.
  ghost predicate AllocsOk(allocs: seq<Alloc>) { forall k :: 0 <= k < |allocs| ==> allocs[k].newId != 0 }

  // All of the invariant but the domain of entry `except`.
  ghost predicate InvBut(s: State, except: int) {
    && |s.frecs| <= FTABSIZ + 1
    && PointersIn(s) && ListOk(s.servers, s.mem)
    && Unique(s.frecs) && Pending(s.frecs, s.allocs, s.passed) && PassedSound(s.passed, s.allocs)
    && InDomain(s.frecs, s.allocs, s.mem, except) && AllocsOk(s.allocs)
  }

  ghost predicate Inv(s: State) { InvBut(s, -1) }

  // ---- what the environment may do

  // A reply with id 0 does harm when the table holds an entry that is not in use.
  predicate Harmless(s: State, id: nat) { id != 0 || ById(s.frecs, 0).None? }

  ghost predicate Enabled(s: State, e: Event) {
    match e
    case Query(_, _, _, _, _, _, _, _, newId, sends) =>
      // get_id never returns 0 or an id in use
      0 < newId < 65536 && ById(s.frecs, newId).None? && |s.servers| <= |sends|
    case Reply(id, _) => Harmless(s, id)
    case Reload(list, info) => ListOk(list, info)
  }

  // Nothing is claimed of a query in a state whose pointers are astray; no run reaches one.
  ghost function Step(s: State, e: Event): State
    requires Enabled(s, e)
  {
    match e
    case Query(_, _, _, _, _, _, _, _, _, _) => if PointersIn(s) then OnQuery(s, e) else s
    case Reply(_, _) => OnReply(s, e)
    case Reload(_, _) => OnReload(s, e)
  }

  // ---- preservation

  lemma {:induction false} SendInv(s: State, i: nat, domain: Option<string>, start: nat, sends: seq<bool>)
    requires i < |s.frecs| && start in s.servers && |s.servers| <= |sends|
    requires InvBut(s, i) && (Live(s.frecs[i]) ==> s.frecs[i].serial < |s.allocs| && s.allocs[s.frecs[i].serial].domain == domain)
    ensures Inv(Send(s, i, domain, start, sends))
  {
    var at := IndexOf(s.servers, start);
    var r, t := FirstSent(s.servers, s.mem, domain, at, 0, sends), Send(s, i, domain, start, sends);
    if r.Some? {
      var p := Turn(s.servers, at, r.value);
      assert p in s.servers && Info(s.mem, p).domain == domain;
      assert NextServer(s.servers, p) in s.servers;
    }
  }

  lemma {:induction false} AllocateInv(s: State, e: Event)
    requires Inv(s) && e.Query? && Enabled(s, e) && s.servers != []
    requires BySender(s.frecs, e.source, e.origId).None?
    requires GetNew(s.frecs, e.now, e.room).Some?
    ensures var (fs, i) := GetNew(s.frecs, e.now, e.room).value;
            && i < |fs| && |fs| >= |s.frecs|
            && var t := Allocate(s, e, fs, i);
               && InvBut(t, i) && t.frecs[i].sentto in t.servers && Live(t.frecs[i])
               && t.frecs[i].serial < |t.allocs| && t.allocs[t.frecs[i].serial].domain == ChosenDomain(s, e.q)
  {
    hide GetNew, Best, ById, BySender, Unique, Pending, InDomain, PassedSound, ListOk;
    GetNewShape(s.frecs, e.now, e.room);
    var (fs, i) := GetNew(s.frecs, e.now, e.room).value;
    var t := Allocate(s, e, fs, i);
    assert Placed(s.frecs, t.frecs, i);
    PlacedUnique(s, t.frecs, i, e);
    PlacedPending(s, t, i);
  }

  // Table gs is fs with something new at position i, in place or in front.
  ghost predicate Placed(fs: seq<Frec>, gs: seq<Frec>, i: nat) {
    && i < |gs| && |fs| <= |gs| <= |fs| + 1
    && (|gs| == |fs| ==> forall j :: 0 <= j < |gs| && j != i ==> gs[j] == fs[j])
    && (|gs| == |fs| + 1 ==> i == 0 && forall j :: 1 <= j < |gs| ==> gs[j] == fs[j - 1])
  }

  lemma {:induction false} PlacedUnique(s: State, gs: seq<Frec>, i: nat, e: Event)
    requires Placed(s.frecs, gs, i) && Unique(s.frecs) && Pending(s.frecs, s.allocs, s.passed)
    requires e.Query? && Enabled(s, e) && BySender(s.frecs, e.source, e.origId).None?
    requires gs[i].newId == e.newId && gs[i].source == e.source && gs[i].origId == e.origId && gs[i].serial == |s.allocs|
    ensures Unique(gs)
  {
    forall j | 0 <= j < |gs| && j != i && Live(gs[j])
      ensures gs[j].newId != e.newId && !From(gs[j], e.source, e.origId) && gs[j].serial < |s.allocs|
    {
      assert gs[j] == s.frecs[if |gs| == |s.frecs| then j else j - 1];
    }
  }

  lemma {:induction false} PlacedPending(s: State, t: State, i: nat)
    requires Placed(s.frecs, t.frecs, i) && s.allocs < t.allocs && |t.allocs| == |s.allocs| + 1 && t.passed == s.passed
    requires Pending(s.frecs, s.allocs, s.passed) && PassedSound(s.passed, s.allocs)
    requires t.mem == s.mem && InDomain(s.frecs, s.allocs, s.mem, -1)
    requires t.frecs[i].serial == |s.allocs| && Owed(t.frecs[i], t.allocs)
    ensures Pending(t.frecs, t.allocs, t.passed) && PassedSound(t.passed, t.allocs)
    ensures InDomain(t.frecs, t.allocs, t.mem, i)
  {
    assert forall k :: 0 <= k < |s.allocs| ==> t.allocs[k] == s.allocs[k];
    forall j | 0 <= j < |t.frecs| && j != i && Live(t.frecs[j])
      ensures Owed(t.frecs[j], t.allocs) && (forall k :: 0 <= k < |t.passed| ==> t.passed[k].serial != t.frecs[j].serial)
      ensures Info(t.mem, t.frecs[j].sentto).domain == t.allocs[t.frecs[j].serial].domain
    {
      assert t.frecs[j] == s.frecs[if |t.frecs| == |s.frecs| then j else j - 1];
    }
  }

  lemma {:induction false} QueryInv(s: State, e: Event)
    requires Inv(s) && e.Query? && Enabled(s, e)
    ensures Inv(OnQuery(s, e))
  {
    if e.rd && s.servers != [] {
      match BySender(s.frecs, e.source, e.origId)
      case Some(i) =>
        var at := s.frecs[i].sentto;
        assert NextServer(s.servers, at) in s.servers;
        SendInv(s, i, Info(s.mem, at).domain, NextServer(s.servers, at), e.sends);
      case None =>
        var b := Best(s.servers, s.mem, e.q);
        if !(b.Some? && Info(s.mem, b.value).literal) && GetNew(s.frecs, e.now, e.room).Some? {
          AllocateInv(s, e);
          var (fs, i) := GetNew(s.frecs, e.now, e.room).value;
          var t := Allocate(s, e, fs, i);
          SendInv(t, i, ChosenDomain(s, e.q), t.frecs[i].sentto, e.sends);
        }
    }
  }

  lemma {:induction false} ReplyInv(s: State, e: Event)
    requires Inv(s) && e.Reply? && Enabled(s, e)
    ensures Inv(OnReply(s, e))
  {
  }

  lemma {:induction false} StepInv(s: State, e: Event)
    requires Inv(s) && Enabled(s, e)
    ensures Inv(Step(s, e))
  {
    hide OnQuery, OnReply;
    match e
    case Query(_, _, _, _, _, _, _, _, _, _) => QueryInv(s, e);
    case Reply(_, _) => ReplyInv(s, e);
    case Reload(_, _) => ReloadInv(s, e);
  }

  lemma {:induction false} ReloadInv(s: State, e: Event)
    requires Inv(s) && e.Reload? && Enabled(s, e)
    ensures Inv(OnReload(s, e))
  {
  }

  // ---- whole runs

  // forward_init(1) and the first server list.
  ghost predicate Initial(s: State) {
    && s.frecs == [] && s.allocs == [] && s.passed == [] && ListOk(s.servers, s.mem)
    && s.last == if s.servers == [] then None else Some(s.servers[0])
  }

  ghost predicate IsRun(trace: seq<State>, events: seq<Event>) {
    && |trace| == |events| + 1 && Initial(trace[0])
    && forall i :: 0 <= i < |events| ==> Enabled(trace[i], events[i]) && trace[i + 1] == Step(trace[i], events[i])
  }

  /** In every state of every run, whatever the clients, the servers, the clock, sendto, malloc
      and the reloads do: live ids are nonzero and pairwise distinct, as are live (client, id)
      pairs; every reply passed on went to the client and id that allocated its upstream id, at
      most once per allocation; every live query and the last good server point into the current
      list; each live query waits for a server of its domain; the table has at most 51 entries. */
  lemma {:induction false} RunSafe(trace: seq<State>, events: seq<Event>, n: nat)
    requires IsRun(trace, events) && n < |trace|
    ensures Inv(trace[n])
  {
    if n > 0 {
      RunSafe(trace, events, n - 1);
      StepInv(trace[n - 1], events[n - 1]);
    }
  }

  /** A reply with id 0 finds an entry that is not in use, if there is one. After any reply that
      freed the first entry, one with id 0 is passed on to the same client a second time, for the
      same allocation. */
  lemma {:induction false} ZeroIdRepeats(s: State, id: nat, good: bool)
    requires Inv(s) && s.frecs != [] && ById(s.frecs, id) == Some(0) && id != 0
    ensures var t := OnReply(OnReply(s, Reply(id, good)), Reply(0, good));
            var n := |s.passed|;
            && |t.passed| == n + 2 && t.passed[n].serial == t.passed[n + 1].serial
            && t.passed[n + 1].source == s.frecs[0].source
            && !PassedSound(t.passed, t.allocs)
  {
    var u := OnReply(s, Reply(id, good));
    assert u.frecs[0].newId == 0;
    assert ById(u.frecs, 0) == Some(0);
  }

  /** Exactly the harmless replies keep the deliveries sound, and with them the whole invariant:
      those with a nonzero id, and those with id 0 while every entry of the table is in use. */
  lemma {:induction false} ReplySound(s: State, id: nat, good: bool)
    requires Inv(s)
    ensures var t := OnReply(s, Reply(id, good));
            && (PassedSound(t.passed, t.allocs) <==> Harmless(s, id))
            && (Inv(t) <==> Harmless(s, id))
  {
    var t := OnReply(s, Reply(id, good));
    if Harmless(s, id) {
      ReplyInv(s, Reply(id, good));
    } else {
      assert t.passed[|s.passed|].newId == 0 && !Honest(t.passed[|s.passed|], t.allocs);
    }
  }

  /** What a harmful reply does to the server that is asked next: the entry keeps the server it was
      last sent to, also across reloads, and a good reply makes that one the last good server. It is
      a server of the current list exactly when the entry's is, or is not touched at all. */
  lemma {:induction false} ZeroIdStrays(s: State, good: bool)
    requires Inv(s) && !Harmless(s, 0) && s.servers != []
    ensures var f, t := s.frecs[ById(s.frecs, 0).value], OnReply(s, Reply(0, good));
            PointersIn(t) <==> !good || Info(s.mem, f.sentto).domain.Some? || f.sentto in s.servers
  {
  }

  // Such an entry is left behind by every reload that drops the server of the first entry.
  lemma {:induction false} ReloadLeavesStray(s: State, e: Event)
    requires Inv(s) && e.Reload? && Enabled(s, e) && s.frecs != [] && s.frecs[0].sentto !in e.list
    ensures var t := OnReload(s, e);
            && Inv(t) && !Harmless(t, 0) && ById(t.frecs, 0) == Some(0) && t.frecs[0].sentto !in t.servers
  {
    ReloadInv(s, e);
    var t := OnReload(s, e);
    assert t.frecs[0].newId == 0;
  }

  // ---- ids never run out

  /** get_id can always succeed: with at most 51 entries some 16-bit nonzero id is free. */
  lemma {:induction false} SomeIdFree(fs: seq<Frec>)
    requires |fs| < 65535
    ensures exists id: nat :: 0 < id < 65536 && ById(fs, id).None?
  {
    FreeBelow(fs, |fs| + 1);
  }

  lemma {:induction false} FreeBelow(fs: seq<Frec>, n: nat)
    requires n > |fs|
    ensures exists id: nat :: 0 < id <= n && ById(fs, id).None?
    decreases |fs|
  {
    if ById(fs, n).Some? {
      var i := ById(fs, n).value;
      var rest := fs[..i] + fs[i + 1..];
      FreeBelow(rest, n - 1);
      var id: nat :| 0 < id <= n - 1 && ById(rest, id).None?;
      forall j | 0 <= j < |fs| ensures fs[j].newId != id {
        if j != i { assert rest[if j < i then j else j - 1] == fs[j]; }
      }
      assert ById(fs, id).None?;
    }
  }
}
