/** Whole histories of the cache: every operation, in any order, from cache_init on. */
module CacheHistory {
  import opened Options
  import opened CacheRecords
  import opened CacheRuns
  import opened CacheTheorems
  import opened CacheTransactions

  datatype Op =
    | Find(q: Query, now: int)
    | Start
    | Add(rq: Request, now: int, mallocOk: bool)
    | End
    | Reload
    | Host(name: string, addr: Addr, v6: bool, canonical: bool)
    | ClearDhcp
    | DhcpLease(lease: Lease, room: Option<Rec>)

  // `failed` is the caller's cache_fail; the log is the successful inserts with their times.
  datatype Conf = Conf(st: State, failed: bool, log: seq<(Request, int)>)

  function Step(c: Conf, op: Op): Conf {
    match op
    case Find(q, now) => c.(st := Swept(c.st, Lookup(q, now)))
    case Start => c.(st := c.st.(recs := Settled(c.st.recs)), failed := false)
    case Add(rq, now, ok) =>
      if c.failed || c.st.recs == [] then c
      else
        var o := Insert(c.st, rq, now, ok);
        Conf(o.st, o.failed, if o.failed then c.log else c.log + [(rq, now)])
    case End => c.(st := EndInsert(c.st, c.failed))
    case Reload => c.(st := c.st.(recs := Cleared(c.st.recs), bigFree := Refunded(c.st.recs, c.st.bigFree)))
    case Host(name, addr, v6, canonical) =>
      c.(st := c.st.(recs := [HostRec(name, addr, v6, canonical)] + c.st.recs))
    case ClearDhcp => c.(st := c.st.(recs := WithoutDhcp(c.st.recs)))
    case DhcpLease(lease, room) => c.(st := Leased(c.st, lease, room))
  }

  function Run(size: nat, ops: seq<Op>): Conf
    requires size >= 3
  {
    if ops == [] then Conf(Init(size), false, [])
    else Step(Run(size, ops[..|ops| - 1]), ops[|ops| - 1])
  }

  // Where an ordinary record that can be found comes from.
  ghost predicate Logged(r: Rec, log: seq<(Request, int)>) {
    exists e :: e in log && Answers(r, e.0, e.1)
  }

  // Every ordinary record of the list that has a key comes from the log.
  ghost predicate Traced(s: seq<Rec>, log: seq<(Request, int)>) {
    forall r :: r in s && Ordinary(r) && Keyed(r) ==> Logged(r, log)
  }

  ghost predicate Provenance(c: Conf) {
    Traced(c.st.recs, c.log)
  }

  // ---- each operation

  lemma {:induction false} BlanksFacts(n: nat, b: nat)
    ensures OrdinaryCount(Blanks(n)) == n && |Blanks(n)| == n
    ensures Holders(Blanks(n), b) == 0
    ensures forall i :: 0 <= i < n ==> Blanks(n)[i] == BLANK
  {
    if n > 0 {
      BlanksFacts(n - 1, b);
      OrdinaryConcat(Blanks(n - 1), [BLANK]);
      OrdinaryOne(BLANK);
      HoldersConcat(Blanks(n - 1), [BLANK], b);
      HoldersOne(BLANK, b);
    }
  }

  lemma {:induction false} ClearedCount(s: seq<Rec>)
    ensures OrdinaryCount(Cleared(s)) == OrdinaryCount(s)
  {
    if s != [] {
      var i, r := s[..|s| - 1], s[|s| - 1];
      ClearedCount(i);
      if !r.hosts {
        var x := if r.dhcp then r else Wiped(r);
        OrdinaryConcat(Cleared(i), [x]);
        OrdinaryOne(x);
      }
    }
  }

  lemma {:induction false} ClearedUses(s: seq<Rec>, free: seq<nat>, b: nat)
    requires AllOk(s)
    ensures Holders(Cleared(s), b) + multiset(Refunded(s, free))[b] == Holders(s, b) + multiset(free)[b]
  {
    if s != [] {
      var i, r := s[..|s| - 1], s[|s| - 1];
      ClearedUses(i, free, b);
      if r.hosts {
      } else if r.dhcp {
        HoldersConcat(Cleared(i), [r], b);
        HoldersOne(r, b);
      } else {
        HoldersConcat(Cleared(i), [Wiped(r)], b);
        HoldersOne(Wiped(r), b);
        if r.buf.Some? {
          assert multiset([r.buf.value] + Refunded(i, free)) == multiset{r.buf.value} + multiset(Refunded(i, free));
        }
      }
    }
  }

  lemma {:induction false} ClearedMember(s: seq<Rec>, r: Rec)
    requires r in Cleared(s)
    ensures !r.hosts && (r.dhcp ==> r in s)
    ensures !r.dhcp ==> !Keyed(r) && r.buf.None? && !r.immortal
  {
    if s != [] {
      var i := s[..|s| - 1];
      assert s == i + [s[|s| - 1]];
      if r in Cleared(i) { ClearedMember(i, r); }
    }
  }

  lemma {:induction false} WithoutDhcpCount(s: seq<Rec>)
    ensures OrdinaryCount(WithoutDhcp(s)) == OrdinaryCount(s)
  {
    if s != [] {
      var i, r := s[..|s| - 1], s[|s| - 1];
      WithoutDhcpCount(i);
      if !r.dhcp {
        OrdinaryConcat(WithoutDhcp(i), [r]);
        OrdinaryOne(r);
      }
    }
  }

  lemma {:induction false} WithoutDhcpMember(s: seq<Rec>, r: Rec)
    requires r in WithoutDhcp(s)
    ensures r in s && !r.dhcp
  {
    var i := s[..|s| - 1];
    assert s == i + [s[|s| - 1]];
    if r in WithoutDhcp(i) { WithoutDhcpMember(i, r); }
  }

  lemma {:induction false} WithoutDhcpHolders(s: seq<Rec>, b: nat)
    requires AllOk(s)
    ensures Holders(WithoutDhcp(s), b) == Holders(s, b)
  {
    if s != [] {
      var i, r := s[..|s| - 1], s[|s| - 1];
      WithoutDhcpHolders(i, b);
      if !r.dhcp { HoldersConcat(WithoutDhcp(i), [r], b); HoldersOne(r, b); }
    }
  }

  // Adding a hosts or DHCP record in front.
  lemma {:induction false} PrependInv(st: State, r: Rec)
    requires Inv(st) && RecOk(r) && !Ordinary(r)
    ensures Inv(st.(recs := [r] + st.recs))
  {
    OrdinaryConcat([r], st.recs);
    OrdinaryOne(r);
    forall b: nat ensures Uses(st.(recs := [r] + st.recs), b) == Uses(st, b) {
      HoldersConcat([r], st.recs, b);
      HoldersOne(r, b);
    }
  }

  // Changing the head record in place.
  lemma {:induction false} UpdateInv(st: State, r: Rec)
    requires Inv(st) && st.recs != [] && RecOk(r)
    requires Ordinary(r) == Ordinary(st.recs[0]) && r.buf == st.recs[0].buf
    ensures Inv(st.(recs := st.recs[0 := r]))
  {
    var h, t, out := st.recs[0], st.recs[1..], st.(recs := st.recs[0 := r]);
    assert st.recs == [h] + t && out.recs == [r] + t;
    assert OrdinaryCount(out.recs) == OrdinaryCount(st.recs) by {
      OrdinaryConcat([h], t);
      OrdinaryConcat([r], t);
      OrdinaryOne(h);
      OrdinaryOne(r);
    }
    forall b: nat ensures Uses(out, b) == Uses(st, b) {
      HoldersConcat([h], t, b);
      HoldersConcat([r], t, b);
      HoldersOne(h, b);
      HoldersOne(r, b);
    }
    assert AllOk(out.recs);
    assert BuffersSound(out);
  }

  lemma {:induction false} LeasedInv(st: State, l: Lease, room: Option<Rec>)
    requires Inv(st)
    ensures Inv(Leased(st, l, room))
  {
    var q := Query(Name(l.host), OnlyV4);
    var s := Swept(st, Lookup(q, 0));
    SweptInv(st, Lookup(q, 0));
    if s.recs != [] && Hits(s.recs[0], q) {
      var r := s.recs[0];
      assert RecOk(r);
      if Ordinary(r) && r.neg {
        UpdateInv(s, r.(fwd := false));
        if room.Some? {
          PrependInv(s.(recs := s.recs[0 := r.(fwd := false)]), LeaseRec(l, room.value));
        } else {
          assert [] + s.recs[0 := r.(fwd := false)] == s.recs[0 := r.(fwd := false)];
        }
      } else if !r.hosts && r.dhcp && (l.ttd > r.ttd || l.ttd == -1) {
        UpdateInv(s, r.(addr := Addr(l.word, r.addr.rest), immortal := r.immortal || l.ttd == -1,
                        ttd := if l.ttd == -1 then r.ttd else l.ttd));
      }
    } else if room.Some? {
      PrependInv(s, LeaseRec(l, room.value));
    } else {
      assert [] + s.recs == s.recs;
    }
  }

  lemma {:induction false} StepInv(c: Conf, op: Op)
    requires Inv(c.st)
    ensures Inv(Step(c, op).st) && Step(c, op).st.size == c.st.size
  {
    match op
    case Find(q, now) => SweptInv(c.st, Lookup(q, now));
    case Start => StartInv(c.st);
    case Add(rq, now, ok) => if !c.failed && c.st.recs != [] { InsertInv(c.st, rq, now, ok); }
    case End => if c.failed { SweptInv(c.st, Rollback); }
    case Reload => ReloadInv(c.st);
    case Host(name, addr, v6, canonical) => PrependInv(c.st, HostRec(name, addr, v6, canonical));
    case ClearDhcp => ClearDhcpInv(c.st);
    case DhcpLease(lease, room) => LeasedInv(c.st, lease, room);
  }

  lemma {:induction false} ClearDhcpInv(st: State)
    requires Inv(st)
    ensures Inv(st.(recs := WithoutDhcp(st.recs)))
  {
    WithoutDhcpCount(st.recs);
    var t := WithoutDhcp(st.recs);
    forall i | 0 <= i < |t| ensures RecOk(t[i]) { WithoutDhcpMember(st.recs, t[i]); }
    forall b: nat ensures Uses(st.(recs := WithoutDhcp(st.recs)), b) == Uses(st, b) {
      WithoutDhcpHolders(st.recs, b);
    }
  }

  lemma {:induction false} ReloadInv(st: State)
    requires Inv(st)
    ensures Inv(st.(recs := Cleared(st.recs), bigFree := Refunded(st.recs, st.bigFree)))
  {
    ClearedCount(st.recs);
    var t := st.(recs := Cleared(st.recs), bigFree := Refunded(st.recs, st.bigFree));
    forall i | 0 <= i < |t.recs| ensures RecOk(t.recs[i]) { ClearedMember(st.recs, t.recs[i]); }
    forall b: nat ensures Uses(t, b) == Uses(st, b) { ClearedUses(st.recs, st.bigFree, b); }
  }

  // ---- every reachable state

  /** In every reachable state the list has exactly cache_size ordinary records, and no
      long-name buffer is shared, leaked into both lists, or allocated beyond size/10. */
  lemma {:induction false} ReachableInv(size: nat, ops: seq<Op>)
    requires size >= 3
    ensures Inv(Run(size, ops).st) && Run(size, ops).st.size == size
  {
    if ops == [] {
      BlanksFacts(size, 0);
      forall b: nat ensures Uses(Init(size), b) == 0 { BlanksFacts(size, b); }
    } else {
      ReachableInv(size, ops[..|ops| - 1]);
      StepInv(Run(size, ops[..|ops| - 1]), ops[|ops| - 1]);
    }
  }

  lemma {:induction false} SweptProvenance(s: seq<Rec>, w: Sweep, log: seq<(Request, int)>)
    requires Traced(s, log)
    ensures Traced(Arrange(s, w), log)
  {
    forall r | r in Arrange(s, w) && Ordinary(r) && Keyed(r) ensures Logged(r, log) {
      ArrangeMember(s, w, r);
    }
  }

  lemma {:induction false} PurgedProvenance(st: State, rq: Request, now: int, log: seq<(Request, int)>)
    requires Traced(st.recs, log)
    ensures Traced(Purged(st, rq, now).recs, log)
  {
    var w := Purge(KeyOf(rq), now);
    SweptProvenance(st.recs, w, log);
    RotatedFacts(Arrange(st.recs, w));
  }

  lemma {:induction false} GrabProvenance(s: State, rq: Request, now: int, log: seq<(Request, int)>)
    requires s.recs != [] && Traced(s.recs, log)
    ensures Traced(Grab(s, rq, now).recs, log + [(rq, now)])
  {
    var n := |s.recs| - 1;
    var x, more := Grab(s, rq, now).recs, log + [(rq, now)];
    SweptProvenance(s.recs[..n], Evict(s.recs[n]), log);
    assert x == [x[0]] + Arrange(s.recs[..n], Evict(s.recs[n]));
    assert more[|log|] == (rq, now) && Answers(x[0], rq, now);
    forall r | r in Arrange(s.recs[..n], Evict(s.recs[n])) && Ordinary(r) && Keyed(r) ensures Logged(r, more) {
      assert Logged(r, log);
      var e :| e in log && Answers(r, e.0, e.1);
      assert e in more;
    }
  }

  lemma {:induction false} SettledProvenance(s: seq<Rec>, log: seq<(Request, int)>)
    requires Traced(s, log)
    ensures Traced(Settled(s), log)
  {
    forall r | r in Settled(s) && Ordinary(r) && Keyed(r) ensures Logged(r, log) {
      SettledMember(s, r);
      var o :| o in s && r == o.(isNew := false);
      var e :| e in log && Answers(o, e.0, e.1);
      assert Answers(r, e.0, e.1);
    }
  }

  lemma {:induction false} LeasedProvenance(st: State, l: Lease, room: Option<Rec>, log: seq<(Request, int)>)
    requires Inv(st) && Traced(st.recs, log)
    ensures Traced(Leased(st, l, room).recs, log)
  {
    var w := Lookup(Query(Name(l.host), OnlyV4), 0);
    SweptProvenance(st.recs, w, log);
    SweptInv(st, w);
    var s, t := Swept(st, w).recs, Leased(st, l, room).recs;
    forall r | r in t && Ordinary(r) && Keyed(r) ensures r in s {
      if s != [] { assert s[0] in s && RecOk(s[0]); }
    }
  }

  lemma {:induction false} StepProvenance(c: Conf, op: Op)
    requires Inv(c.st) && Provenance(c)
    ensures Provenance(Step(c, op))
  {
    match op
    case Find(q, now) => SweptProvenance(c.st.recs, Lookup(q, now), c.log);
    case Start => SettledProvenance(c.st.recs, c.log);
    case Add(rq, now, ok) => if !c.failed && c.st.recs != [] {
      PurgedProvenance(c.st, rq, now, c.log);
      ArrangeLength(c.st.recs, Purge(KeyOf(rq), now));
      GrabProvenance(Purged(c.st, rq, now), rq, now, c.log);
    }
    case End => if c.failed { SweptProvenance(c.st.recs, Rollback, c.log); }
    case Reload =>
      forall r | r in Cleared(c.st.recs) ensures r.dhcp || !Keyed(r) { ClearedMember(c.st.recs, r); }
    case Host(name, addr, v6, canonical) =>
    case ClearDhcp =>
      forall r | r in WithoutDhcp(c.st.recs) ensures r in c.st.recs { WithoutDhcpMember(c.st.recs, r); }
    case DhcpLease(lease, room) => LeasedProvenance(c.st, lease, room, c.log);
  }

  lemma {:induction false} ReachableProvenance(size: nat, ops: seq<Op>)
    requires size >= 3
    ensures Provenance(Run(size, ops))
  {
    if ops == [] {
      BlanksFacts(size, 0);
    } else {
      ReachableProvenance(size, ops[..|ops| - 1]);
      ReachableInv(size, ops[..|ops| - 1]);
      StepProvenance(Run(size, ops[..|ops| - 1]), ops[|ops| - 1]);
    }
  }

  // ---- time to live

  // The TTL answer_request puts on a record.
  function AnswerTtl(r: Rec, now: int): int {
    if r.immortal || r.dhcp then 0 else r.ttd - now
  }

  /** TTLs stay honest: whatever happened in between, an ordinary record found at time t was
      inserted at some t0 with some TTL n, t < t0 + n, and it is answered with exactly t0 + n - t.
      A TTL so large that t0 + n leaves 32-bit time is never answered at all. */
  lemma {:induction false} TtlHonest(size: nat, ops: seq<Op>, q: Query, t: int, r: Rec)
    requires size >= 3 && t <= TIME_MAX
    requires forall e :: e in Run(size, ops).log ==> 0 <= e.1 <= t && e.0.ttl <= 0xffff_ffff
    requires r in Run(size, ops).st.recs && Ordinary(r) && Matches(r, q, t)
    ensures exists e :: e in Run(size, ops).log && Answers(r, e.0, e.1)
              && t < e.1 + e.0.ttl <= TIME_MAX && AnswerTtl(r, t) == e.1 + e.0.ttl - t
  {
    ReachableProvenance(size, ops);
    ReachableInv(size, ops);
    TtlOf(Run(size, ops), q, t, r);
  }

  lemma TtlOf(c: Conf, q: Query, t: int, r: Rec)
    requires Inv(c.st) && Provenance(c) && t <= TIME_MAX
    requires forall e :: e in c.log ==> 0 <= e.1 <= t && e.0.ttl <= 0xffff_ffff
    requires r in c.st.recs && Ordinary(r) && Matches(r, q, t)
    ensures exists e :: e in c.log && Answers(r, e.0, e.1)
              && t < e.1 + e.0.ttl <= TIME_MAX && AnswerTtl(r, t) == e.1 + e.0.ttl - t
  {
    assert RecOk(r) && Logged(r, c.log);
    var e :| e in c.log && Answers(r, e.0, e.1);
    assert r.ttd == TimeT(e.1 + e.0.ttl) > t;
  }
}
