/** TTLs that leave 32-bit time: exactly when a transaction still stores all or nothing. */
module CacheExpiry {
  import opened Options
  import opened CacheRecords
  import opened CacheRuns
  import opened CacheTheorems
  import opened CacheTransactions
  import opened CacheHistory

  // A record just stored counts as expired exactly when now + ttl is past the end of time.
  lemma StoredStale(r: Rec, q: Request, now: int)
    requires Answers(r, q, now) && 0 <= now <= TIME_MAX && q.ttl <= 0xffff_ffff
    ensures Stale(r, now) <==> now + q.ttl > TIME_MAX
  {
  }

  lemma {:induction false} TimesLast(s: seq<Rec>, r: Rec)
    requires s != []
    ensures var n := |s| - 1;
            Times(s, r) == Times(s[..n], r) + if s[n] == r then 1 else 0
  {
  }

  // What is in the cache after a run of inserts: of the records that already count as expired only
  // the one stored last.
  lemma {:induction false} RunExact(st: State, qs: seq<Request>, now: int, ok: seq<bool>, r: Rec)
    requires Inv(st) && |qs| <= |ok| && !RunInserts(st, qs, now, ok).failed && KeyedNew(r)
    ensures var t := RunInserts(st, qs, now, ok);
            && AllStored(t.added, qs, now)
            && Times(t.st.recs, r)
               == if !Stale(r, now) then Times(t.added, r)
                  else if qs != [] && t.added[|qs| - 1] == r then 1 else 0
  {
    hide Insert, Inv, Stale, KeyedNew, AllStored, Times;
    if qs == [] {
      StartInv(st);
      NoneYet(Settled(st.recs), r, now);
    } else {
      var n := |qs| - 1;
      RunExact(st, qs[..n], now, ok, r);
      var t, u := RunInserts(st, qs[..n], now, ok), RunInserts(st, qs, now, ok);
      OneMore(t.st, qs[n], now, ok[n], r);
      Extended(t.added, qs[..n], u.st.recs[0], qs[n], now, r);
      assert u.added == t.added + [u.st.recs[0]] && qs == qs[..n] + [qs[n]];
    }
  }

  ghost predicate AllStored(added: seq<Rec>, qs: seq<Request>, now: int) {
    |added| == |qs| && forall i :: 0 <= i < |qs| ==> Answers(added[i], qs[i], now) && KeyedNew(added[i])
  }

  lemma Extended(added: seq<Rec>, qs: seq<Request>, x: Rec, q: Request, now: int, r: Rec)
    requires AllStored(added, qs, now) && Answers(x, q, now) && KeyedNew(x)
    ensures AllStored(added + [x], qs + [q], now) && |added| == |qs|
    ensures Times(added + [x], r) == Times(added, r) + if x == r then 1 else 0
  {
    hide Answers, KeyedNew;
    TimesLast(added + [x], r);
    assert (added + [x])[..|added|] == added;
  }

  lemma NoneYet(s: seq<Rec>, r: Rec, now: int)
    requires KeyedNew(r) && forall x :: x in s ==> !x.isNew
    ensures Times(s, r) == 0 == Times([], r) && AllStored([], [], now)
  {
    TimesMember(s, r);
  }

  lemma OneMore(st: State, q: Request, now: int, ok: bool, r: Rec)
    requires Inv(st) && KeyedNew(r)
    ensures st.recs != []
    ensures var o := Insert(st, q, now, ok);
            !o.failed ==>
              && o.st.recs != [] && Answers(o.st.recs[0], q, now) && KeyedNew(o.st.recs[0])
              && Times(o.st.recs, r) == (if Stale(r, now) then 0 else Times(st.recs, r)) + if r == o.st.recs[0] then 1 else 0
  {
    OrdinaryBound(st.recs);
    if !Insert(st, q, now, ok).failed {
      NewTimes(st, q, now, ok, r);
      InsertHead(st, q, now, ok);
    }
  }

  // Nothing that was there before is multiplied.
  lemma {:induction false} OldShrinks(st: State, qs: seq<Request>, now: int, ok: seq<bool>, r: Rec)
    requires Inv(st) && |qs| <= |ok| && KeyedOld(r)
    ensures Times(RunInserts(st, qs, now, ok).st.recs, r) <= Times(Settled(st.recs), r)
  {
    hide Insert, Inv, Settled, Times, KeyedOld;
    if qs != [] {
      var n := |qs| - 1;
      OldShrinks(st, qs[..n], now, ok, r);
      var t := RunInserts(st, qs[..n], now, ok);
      if !t.failed { OldStep(t.st, qs[n], now, ok[n], r); }
    }
  }

  lemma OldStep(st: State, q: Request, now: int, ok: bool, r: Rec)
    requires Inv(st) && KeyedOld(r)
    ensures st.recs != [] && Times(Insert(st, q, now, ok).st.recs, r) <= Times(st.recs, r)
  {
    OrdinaryBound(st.recs);
    if Insert(st, q, now, ok).failed {
      PurgedTimes(st, q, now, r);
    } else {
      InsertTimes(st, q, now, ok, r);
      InsertHead(st, q, now, ok);
    }
  }

  /** All or nothing, for all TTLs. A transaction that reports no failure has added one answer for
      each request, and all of them are in the cache if and only if every request but the last has a
      TTL that stays within 32-bit time. After a failure every record that can be found was there
      before, and no more often. */
  lemma {:induction false} AllOrNothing(st: State, qs: seq<Request>, now: int, ok: seq<bool>)
    requires Inv(st) && |qs| <= |ok| && 0 <= now <= TIME_MAX
    requires forall i :: 0 <= i < |qs| ==> qs[i].ttl <= 0xffff_ffff
    ensures var t := RunInserts(st, qs, now, ok);
            var s := EndInsert(t.st, t.failed).recs;
            && (forall r :: KeyedOld(r) ==> Times(s, r) <= Times(Settled(st.recs), r))
            && if t.failed then forall r :: KeyedNew(r) ==> Times(s, r) == 0
               else
                 && AllStored(t.added, qs, now)
                 && ((forall r :: KeyedNew(r) ==> Times(s, r) == Times(t.added, r))
                     <==> (forall i :: 0 <= i < |qs| - 1 ==> now + qs[i].ttl <= TIME_MAX))
  {
    hide Insert, Inv, RunInserts, Stale, Answers, Times, Settled;
    var t := RunInserts(st, qs, now, ok);
    forall r | KeyedOld(r)
      ensures Times(EndInsert(t.st, t.failed).recs, r) <= Times(Settled(st.recs), r)
    {
      OldShrinks(st, qs, now, ok, r);
      OldKept(t.st.recs, r);
    }
    if t.failed {
      forall r | KeyedNew(r)
        ensures Times(Arrange(t.st.recs, Rollback), r) == 0
      {
        RolledBack(t.st.recs, r);
      }
    } else {
      forall r | KeyedNew(r)
        ensures AllStored(t.added, qs, now)
        ensures Times(t.st.recs, r) == if !Stale(r, now) then Times(t.added, r) else if qs != [] && t.added[|qs| - 1] == r then 1 else 0
      {
        RunExact(st, qs, now, ok, r);
      }
      Populated(st, qs, now, ok);
      if qs != [] {
        KeptExactly(t, qs, now);
      } else {
        NoRequests(st, qs, now, ok);
      }
    }
  }

  lemma RolledBack(s: seq<Rec>, r: Rec)
    requires KeyedNew(r)
    ensures Times(Arrange(s, Rollback), r) == 0
  {
    TimesArrange(s, Rollback, r);
  }

  lemma OldKept(s: seq<Rec>, r: Rec)
    requires KeyedOld(r)
    ensures Times(Arrange(s, Rollback), r) == Times(s, r)
  {
    TimesArrange(s, Rollback, r);
  }

  lemma Populated(st: State, qs: seq<Request>, now: int, ok: seq<bool>)
    requires Inv(st) && |qs| <= |ok| && !RunInserts(st, qs, now, ok).failed
    ensures AllStored(RunInserts(st, qs, now, ok).added, qs, now)
  {
    hide Insert, Inv, RunInserts, Stale, Answers;
    var r := BLANK.(fwd := true, isNew := true);
    RunExact(st, qs, now, ok, r);
  }

  lemma NoRequests(st: State, qs: seq<Request>, now: int, ok: seq<bool>)
    requires Inv(st) && qs == []
    ensures RunInserts(st, qs, now, ok).added == []
    ensures forall r :: Times(RunInserts(st, qs, now, ok).added, r) == 0
  {
    hide Inv, Settled;
  }

  lemma KeptExactly(t: Txn, qs: seq<Request>, now: int)
    requires qs != [] && AllStored(t.added, qs, now) && 0 <= now <= TIME_MAX
    requires forall i :: 0 <= i < |qs| ==> qs[i].ttl <= 0xffff_ffff
    requires forall r :: KeyedNew(r) ==>
               Times(t.st.recs, r) == if !Stale(r, now) then Times(t.added, r) else if t.added[|qs| - 1] == r then 1 else 0
    ensures (forall r :: KeyedNew(r) ==> Times(t.st.recs, r) == Times(t.added, r))
       <==> (forall i :: 0 <= i < |qs| - 1 ==> now + qs[i].ttl <= TIME_MAX)
  {
    hide Stale, Answers, KeyedNew, Times;
    var n := |qs| - 1;
    var early := t.added[..n];
    forall i | 0 <= i < |qs|
      ensures Stale(t.added[i], now) <==> now + qs[i].ttl > TIME_MAX
    {
      StoredStale(t.added[i], qs[i], now);
    }
    forall r | KeyedNew(r)
      ensures Times(t.added, r) == Times(early, r) + if t.added[n] == r then 1 else 0
      ensures Times(early, r) > 0 <==> r in early
    {
      TimesLast(t.added, r);
      TimesMember(early, r);
    }
    if i :| 0 <= i < n && now + qs[i].ttl > TIME_MAX {
      assert early[i] == t.added[i] && KeyedNew(t.added[i]);
    }
    if forall i :: 0 <= i < n ==> now + qs[i].ttl <= TIME_MAX {
      assert forall i :: 0 <= i < n ==> early[i] == t.added[i] && !Stale(early[i], now);
      assert forall r :: r in early ==> !Stale(r, now);
    }
  }

  // What is in the cache when an insert has failed: everything added that does not already count as expired.
  lemma {:induction false} FailedExact(st: State, qs: seq<Request>, now: int, ok: seq<bool>, r: Rec)
    requires Inv(st) && |qs| <= |ok| && RunInserts(st, qs, now, ok).failed && KeyedNew(r)
    ensures var t := RunInserts(st, qs, now, ok);
            && |t.added| < |qs| && AllStored(t.added, qs[..|t.added|], now)
            && Times(t.st.recs, r) == if Stale(r, now) then 0 else Times(t.added, r)
  {
    hide Insert, Inv, Stale, KeyedNew, AllStored, Times, Answers;
    if qs != [] {
      var n := |qs| - 1;
      var t := RunInserts(st, qs[..n], now, ok);
      if t.failed {
        FailedExact(st, qs[..n], now, ok, r);
        assert qs[..n][..|t.added|] == qs[..|t.added|];
      } else {
        RunExact(st, qs[..n], now, ok, r);
        StoredLength(t.added, qs[..n], now);
        FailedStep(t.st, qs[n], now, ok[n], r);
      }
    }
  }

  lemma StoredLength(added: seq<Rec>, qs: seq<Request>, now: int)
    requires AllStored(added, qs, now)
    ensures |added| == |qs|
  {
  }

  lemma FailedStep(st: State, q: Request, now: int, ok: bool, r: Rec)
    requires Inv(st) && KeyedNew(r)
    ensures st.recs != []
    ensures Insert(st, q, now, ok).failed
            ==> Times(Insert(st, q, now, ok).st.recs, r) == if Stale(r, now) then 0 else Times(st.recs, r)
  {
    OrdinaryBound(st.recs);
    PurgedTimes(st, q, now, r);
  }

  /** Without the end of the transaction a failure is not all or nothing: of what was added before,
      nothing is left if and only if every TTL among it leaves 32-bit time. */
  lemma {:induction false} FailureKeeps(st: State, qs: seq<Request>, now: int, ok: seq<bool>)
    requires Inv(st) && |qs| <= |ok| && RunInserts(st, qs, now, ok).failed && 0 <= now <= TIME_MAX
    requires forall i :: 0 <= i < |qs| ==> qs[i].ttl <= 0xffff_ffff
    ensures var t := RunInserts(st, qs, now, ok);
            && |t.added| < |qs|
            && ((forall r :: KeyedNew(r) ==> Times(t.st.recs, r) == 0) <==> forall i :: 0 <= i < |t.added| ==> now + qs[i].ttl > TIME_MAX)
  {
    hide Insert, Inv, RunInserts, Stale, Answers, Times;
    var t := RunInserts(st, qs, now, ok);
    FailedExact(st, qs, now, ok, BLANK.(fwd := true, isNew := true));
    forall r | KeyedNew(r)
      ensures Times(t.st.recs, r) == if Stale(r, now) then 0 else Times(t.added, r)
      ensures Times(t.added, r) > 0 <==> r in t.added
    {
      FailedExact(st, qs, now, ok, r);
      TimesMember(t.added, r);
    }
    forall i | 0 <= i < |t.added|
      ensures Stale(t.added[i], now) <==> now + qs[i].ttl > TIME_MAX
      ensures KeyedNew(t.added[i])
    {
      assert qs[..|t.added|][i] == qs[i];
      StoredStale(t.added[i], qs[i], now);
    }
  }

  /** Beyond that limit a shortage is reported although slots are free. In a cache just started, a
      record whose TTL wraps is freed by the next insert, and its slot, still marked as new, is the
      one that insert looks at. */
  lemma {:induction false} WrapReportsShortage(q: Request, ok: bool, more: bool)
    ensures var wraps := ForName("a", Some(Addr(1, 0)), false, 0x8000_0000, false, false);
            var c := Run(3, [Start, Add(wraps, 0, ok)]);
            && !c.failed && c.st.recs != [] && !AllNew(c.st.recs)
            && Insert(c.st, q, 0, more).failed
  {
    hide Insert, Run, Purged;
    var wraps := ForName("a", Some(Addr(1, 0)), false, 0x8000_0000, false, false);
    var ops := [Start, Add(wraps, 0, ok)];
    var c := Run(3, ops);
    FirstInsert(wraps, ok);
    var r := NewRec(wraps, None, 0, BLANK);
    assert c.st.recs[1] == BLANK && Ordinary(BLANK) && !BLANK.isNew;
    ReachableInv(3, ops);
    FailsExactly(c.st, q, 0, more);
    OnlyFirst(r, Purge(KeyOf(q), 0));
  }

  // The purge of the next insert releases the record of the first and nothing else.
  lemma OnlyFirst(r: Rec, w: Sweep)
    requires w.Purge? && KeyedNew(r) && Stale(r, w.now)
    ensures Looked([r, BLANK, BLANK], w) == Some(r)
  {
    assert [r, BLANK, BLANK][..2] == [r, BLANK] && [r, BLANK][..1] == [r];
    assert LastReleased([r], w) == Some(r);
    assert LastReleased([r, BLANK], w) == Some(r);
  }

  lemma FirstInsert(q: Request, ok: bool)
    requires |q.name| <= SMALLDNAME - 1
    ensures var c := Run(3, [Start, Add(q, 0, ok)]);
            !c.failed && c.st.recs == [NewRec(q, None, 0, BLANK), BLANK, BLANK]
  {
    hide Insert, Init, Settled, NewRec;
    var ops := [Start, Add(q, 0, ok)];
    assert ops[..1] == [Start] && [Start][..0] == [];
    JustStarted();
    assert Run(3, []) == Conf(Init(3), false, []);
    assert Run(3, [Start]).st == Init(3);
    InsertBlank(q, ok);
  }

  lemma JustStarted()
    ensures Init(3) == State(3, [BLANK, BLANK, BLANK], [], 0) && Settled(Init(3).recs) == Init(3).recs
  {
    var s := [BLANK, BLANK, BLANK];
    assert Blanks(1) == [BLANK] && Blanks(2) == [BLANK, BLANK] && Blanks(3) == s;
    assert s[..2] == [BLANK, BLANK] && [BLANK, BLANK][..1] == [BLANK] && [BLANK][..0] == [];
    assert Settled([BLANK]) == [BLANK] && Settled([BLANK, BLANK]) == [BLANK, BLANK];
  }

  lemma InsertBlank(q: Request, ok: bool)
    requires |q.name| <= SMALLDNAME - 1
    ensures var o := Insert(State(3, [BLANK, BLANK, BLANK], [], 0), q, 0, ok);
            !o.failed && o.st.recs == [NewRec(q, None, 0, BLANK), BLANK, BLANK]
  {
    hide Arrange, Reclaim, NewRec, Rotated;
    var s, w := [BLANK, BLANK, BLANK], Purge(KeyOf(q), 0);
    var st := State(3, s, [], 0);
    Idle(s, w, []);
    Idle(s[..2], Evict(BLANK), []);
    NotRotated();
    assert Purged(st, q, 0) == st;
    assert Grab(st, q, 0).recs == [NewRec(q, None, 0, BLANK)] + s[..2];
  }

  lemma NotRotated()
    ensures Rotated([BLANK, BLANK, BLANK]) == [BLANK, BLANK, BLANK]
  {
    assert Trailing([BLANK, BLANK, BLANK]) == 0;
  }

  lemma {:induction false} Idle(s: seq<Rec>, w: Sweep, free: seq<nat>)
    requires (w.Purge? || w == Evict(BLANK)) && forall i :: 0 <= i < |s| ==> s[i] == BLANK
    ensures Arrange(s, w) == s && Reclaim(s, w, free) == free
  {
    NoFront(s, w);
    IdleKept(s, w, free);
  }

  lemma {:induction false} IdleKept(s: seq<Rec>, w: Sweep, free: seq<nat>)
    requires (w.Purge? || w == Evict(BLANK)) && forall i :: 0 <= i < |s| ==> s[i] == BLANK
    ensures Kept(s, w) == s && Gone(s, w) == [] && Reclaim(s, w, free) == free
  {
    if s != [] {
      assert Decide(w, BLANK).Stay?;
      IdleKept(s[..|s| - 1], w, free);
      assert s == s[..|s| - 1] + [s[|s| - 1]];
    }
  }
}
