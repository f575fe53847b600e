/** Transactions: cache_start_insert, any number of cache_insert calls at one time, and
    cache_end_insert store either everything that was inserted or nothing of it. */
module CacheTransactions {
  import opened Options
  import opened CacheRecords
  import opened CacheRuns
  import opened CacheTheorems

  // ---- the transaction invariant

  ghost predicate AllNew(s: seq<Rec>) { forall r :: r in s && Ordinary(r) ==> r.isNew }

  ghost predicate NoneNew(s: seq<Rec>) { forall r :: r in s && Ordinary(r) ==> !r.isNew }

  lemma NewFirstConcat(a: seq<Rec>, b: seq<Rec>)
    requires NewFirst(a) && NewFirst(b) && (AllNew(a) || NoneNew(b))
    ensures NewFirst(a + b)
  {
  }

  lemma NewFirstParts(a: seq<Rec>, b: seq<Rec>)
    requires NewFirst(a + b)
    ensures NewFirst(a) && NewFirst(b) && (AllNew(a) || NoneNew(b))
  {
    forall i, j | 0 <= i < j < |a| && Ordinary(a[i]) && Ordinary(a[j]) && a[j].isNew ensures a[i].isNew {
      assert (a + b)[i] == a[i] && (a + b)[j] == a[j];
    }
    forall i, j | 0 <= i < j < |b| && Ordinary(b[i]) && Ordinary(b[j]) && b[j].isNew ensures b[i].isNew {
      assert (a + b)[|a| + i] == b[i] && (a + b)[|a| + j] == b[j];
    }
    if !NoneNew(b) {
      var j :| 0 <= j < |b| && Ordinary(b[j]) && b[j].isNew;
      forall r | r in a && Ordinary(r) ensures r.isNew {
        var i :| 0 <= i < |a| && a[i] == r;
        assert (a + b)[i] == r && (a + b)[|a| + j] == b[j];
      }
    }
  }

  // The two sweeps of cache_insert promote nothing.
  lemma {:induction false} NoFront(s: seq<Rec>, w: Sweep)
    requires w.Purge? || w.Evict?
    ensures Front(s, w) == []
  {
    if s != [] { NoFront(s[..|s| - 1], w); }
  }

  lemma {:induction false} KeptNewFirst(s: seq<Rec>, w: Sweep)
    requires NewFirst(s)
    requires forall r :: r in s && Decide(w, r).Release? ==> !r.isNew
    ensures NewFirst(Kept(s, w))
    ensures AllNew(s) ==> AllNew(Kept(s, w))
    ensures NoneNew(Gone(s, w))
  {
    if s != [] {
      var i, r := s[..|s| - 1], s[|s| - 1];
      assert s == i + [r];
      NewFirstParts(i, [r]);
      KeptNewFirst(i, w);
      if Decide(w, r).Stay? { NewFirstConcat(Kept(i, w), [r]); }
    }
  }

  lemma {:induction false} ArrangeInTransaction(s: seq<Rec>, w: Sweep, now: int)
    requires InTransaction(s, now)
    requires w.Evict? || (w.Purge? && w.now == now)
    ensures InTransaction(Arrange(s, w), now)
  {
    var t := Arrange(s, w);
    NoFront(s, w);
    KeptNewFirst(s, w);
    NewFirstConcat(Kept(s, w), Gone(s, w));
    assert t == Kept(s, w) + Gone(s, w);
    forall r | r in t ensures (r in s || !Keyed(r)) && (r.isNew ==> r in s) {
      ArrangeMember(s, w, r);
    }
  }

  lemma {:induction false} RotatedInTransaction(s: seq<Rec>, now: int)
    requires InTransaction(s, now)
    ensures InTransaction(Rotated(s), now)
  {
    var v := |s| - Trailing(s);
    assert s == s[..v] + s[v..];
    NewFirstParts(s[..v], s[v..]);
    NewFirstConcat(s[v..], s[..v]);
    RotatedFacts(s);
  }

  predicate Fits(q: Request, now: int) { -0x8000_0000 <= now && now + q.ttl <= TIME_MAX }

  lemma {:induction false} InsertInTransaction(st: State, q: Request, now: int, ok: bool)
    requires Inv(st) && InTransaction(st.recs, now) && Fits(q, now)
    ensures InTransaction(Insert(st, q, now, ok).st.recs, now)
  {
    var w := Purge(KeyOf(q), now);
    ArrangeInTransaction(st.recs, w, now);
    RotatedInTransaction(Arrange(st.recs, w), now);
    var s := Purged(st, q, now);
    PurgedInv(st, q, now);
    if !Insert(st, q, now, ok).failed {
      forall b | b in s.recs && Ordinary(b) && !b.isNew ensures !Carries(b, KeyOf(q)) {
        RotatedFacts(Arrange(st.recs, w));
        ArrangeMember(st.recs, w, b);
      }
      GrabInTransaction(s, q, now);
    }
  }

  lemma {:induction false} GrabInTransaction(s: State, q: Request, now: int)
    requires s.recs != [] && InTransaction(s.recs, now) && Fits(q, now)
    requires forall b :: b in s.recs && Ordinary(b) && !b.isNew ==> !Carries(b, KeyOf(q))
    ensures InTransaction(Grab(s, q, now).recs, now)
  {
    var n := |s.recs| - 1;
    var victim, rest := s.recs[n], s.recs[..n];
    var w := Evict(victim);
    assert s.recs == rest + [victim];
    NewFirstParts(rest, [victim]);
    ArrangeInTransaction(rest, w, now);
    var x, t := Arrange(rest, w), Grab(s, q, now).recs;
    assert t == [t[0]] + x;
    NewFirstConcat([t[0]], x);
    forall b | b in x && Ordinary(b) && !b.isNew ensures !SharesKey(b, t[0]) {
      if SharesKey(b, t[0]) {
        ArrangeMember(rest, w, b);
        assert b in s.recs && Carries(b, KeyOf(q));
      }
    }
    GrabSeparate(x, t[0], t, now);
  }

  lemma GrabSeparate(x: seq<Rec>, r: Rec, t: seq<Rec>, now: int)
    requires Separate(x) && NoneStale(x, now) && t == [r] + x
    requires r.isNew && !Stale(r, now)
    requires forall b :: b in x && Ordinary(b) && !b.isNew ==> !SharesKey(b, r)
    ensures Separate(t) && NoneStale(t, now)
  {
  }

  // ---- when a slot shortage is reported

  function LastReleased(s: seq<Rec>, w: Sweep): Option<Rec> {
    if s == [] then None
    else if Decide(w, s[|s| - 1]).Release? then Some(s[|s| - 1])
    else LastReleased(s[..|s| - 1], w)
  }

  function LastOrdinary(s: seq<Rec>): Option<Rec> {
    if s == [] then None
    else if Ordinary(s[|s| - 1]) then Some(s[|s| - 1])
    else LastOrdinary(s[..|s| - 1])
  }

  // The record whose slot an insert would take: the last one its purge releases, and if it releases
  // none, the last ordinary one.
  function Looked(s: seq<Rec>, w: Sweep): Option<Rec> {
    if LastReleased(s, w).Some? then LastReleased(s, w) else LastOrdinary(s)
  }

  lemma {:induction false} GoneLast(s: seq<Rec>, w: Sweep)
    requires w.Purge?
    ensures match LastReleased(s, w)
            case Some(r) => Ordinary(r) && Gone(s, w) != [] && Gone(s, w)[|Gone(s, w)| - 1] == After(w, r)
            case None => Gone(s, w) == [] && Kept(s, w) == s
  {
    if s != [] {
      GoneLast(s[..|s| - 1], w);
      assert s == s[..|s| - 1] + [s[|s| - 1]];
    }
  }

  // The victim loop ends at the last ordinary record.
  lemma {:induction false} RotatedLast(s: seq<Rec>)
    ensures match LastOrdinary(s)
            case Some(r) => Trailing(s) < |s| && Rotated(s) != [] && Rotated(s)[|s| - 1] == r
            case None => Trailing(s) == |s|
  {
    TrailingIs(s);
  }

  lemma {:induction false} TrailingIs(s: seq<Rec>)
    ensures match LastOrdinary(s)
            case Some(r) => Trailing(s) < |s| && s[|s| - 1 - Trailing(s)] == r
            case None => Trailing(s) == |s|
  {
    if s != [] && !Ordinary(s[|s| - 1]) { TrailingIs(s[..|s| - 1]); }
  }

  lemma VictimMark(st: State, q: Request, now: int)
    requires Inv(st)
    ensures var s, l := Purged(st, q, now).recs, Looked(st.recs, Purge(KeyOf(q), now));
            s != [] && l.Some? && s[|s| - 1].isNew == l.value.isNew
  {
    hide Inv, Decide, After, Front, Kept, Gone, Trailing, Rotated, LastOrdinary, LastReleased, Reclaim;
    var w := Purge(KeyOf(q), now);
    var x, g := Arrange(st.recs, w), Gone(st.recs, w);
    SomeOrdinary(st);
    NoFront(st.recs, w);
    GoneLast(st.recs, w);
    ArrangeLength(st.recs, w);
    RotatedLast(x);
    RotatedLength(x);
    if LastReleased(st.recs, w).Some? {
      assert x[|x| - 1] == g[|g| - 1];
      ReleasedMark(w, LastReleased(st.recs, w).value);
      LastIs(x);
    } else {
      assert x == st.recs;
      OrdinaryHas(st.recs);
    }
  }

  lemma RotatedLength(s: seq<Rec>)
    ensures |Rotated(s)| == |s|
  {
  }

  lemma ReleasedMark(w: Sweep, r: Rec)
    requires w.Purge? && Ordinary(r)
    ensures After(w, r).isNew == r.isNew && Ordinary(After(w, r))
  {
  }

  lemma LastIs(s: seq<Rec>)
    requires s != [] && Ordinary(s[|s| - 1])
    ensures LastOrdinary(s) == Some(s[|s| - 1])
  {
  }

  lemma SomeOrdinary(st: State)
    requires Inv(st)
    ensures OrdinaryCount(st.recs) > 0
  {
  }

  lemma {:induction false} OrdinaryHas(s: seq<Rec>)
    requires OrdinaryCount(s) > 0
    ensures LastOrdinary(s).Some?
  {
    if !Ordinary(s[|s| - 1]) { OrdinaryHas(s[..|s| - 1]); }
  }

  /** cache_insert fails if and only if the slot it would take is marked as new, or the name is long
      and no buffer is left for it. While nothing of a transaction counts as expired, that mark
      means that every ordinary record belongs to the transaction. */
  lemma {:induction false} FailsExactly(st: State, q: Request, now: int, ok: bool)
    requires Inv(st)
    ensures var l := Looked(st.recs, Purge(KeyOf(q), now));
            && l.Some?
            && (Insert(st, q, now, ok).failed <==> l.value.isNew || NoBuffer(Purged(st, q, now), q, ok))
            && (InTransaction(st.recs, now) ==> (l.value.isNew <==> AllNew(st.recs)))
  {
    hide Inv, Looked, NoBuffer, InTransaction, AllNew, Purged;
    VictimMark(st, q, now);
    OpenInsert(st, q, now, ok);
    if InTransaction(st.recs, now) { AllNewVictim(st, q, now); }
  }

  lemma OpenInsert(st: State, q: Request, now: int, ok: bool)
    requires Inv(st)
    ensures var s := Purged(st, q, now);
            && st.recs != [] && s.recs != []
            && (Insert(st, q, now, ok).failed <==> s.recs[|s.recs| - 1].isNew || NoBuffer(s, q, ok))
  {
    OrdinaryBound(st.recs);
    ArrangeLength(st.recs, Purge(KeyOf(q), now));
  }

  lemma {:induction false} AllNewVictim(st: State, q: Request, now: int)
    requires Inv(st) && InTransaction(st.recs, now)
    ensures var s := Purged(st, q, now).recs; s != [] && (s[|s| - 1].isNew <==> AllNew(st.recs))
  {
    var w := Purge(KeyOf(q), now);
    var x, s := Arrange(st.recs, w), Purged(st, q, now).recs;
    ArrangeInTransaction(st.recs, w, now);
    RotatedInTransaction(x, now);
    RotatedFacts(x);
    PurgedInv(st, q, now);
    AllNewArrange(st.recs, w);
    LastDecides(s);
    assert AllNew(s) <==> AllNew(x);
  }

  lemma LastDecides(s: seq<Rec>)
    requires s != [] && NewFirst(s) && Ordinary(s[|s| - 1])
    ensures s[|s| - 1].isNew <==> AllNew(s)
  {
    var n := |s| - 1;
    assert s == s[..n] + [s[n]];
    NewFirstParts(s[..n], [s[n]]);
    assert s[n] in s;
  }

  lemma {:induction false} AllNewArrange(s: seq<Rec>, w: Sweep)
    requires w.Purge?
    ensures AllNew(Arrange(s, w)) <==> AllNew(s)
  {
    var x := Arrange(s, w);
    if AllNew(s) {
      forall r | r in x && Ordinary(r) ensures r.isNew { ArrangeMember(s, w, r); }
    }
    if AllNew(x) {
      forall r | r in s && Ordinary(r) ensures r.isNew {
        if Decide(w, r).Release? { ReleasedListed(s, w, r); } else { ArrangeKeeps(s, w, r); }
      }
    }
  }

  lemma {:induction false} ReleasedListed(s: seq<Rec>, w: Sweep, r: Rec)
    requires r in s && Decide(w, r).Release?
    ensures After(w, r) in Arrange(s, w)
  {
    var i := s[..|s| - 1];
    assert s == i + [s[|s| - 1]];
    if r in i { ReleasedListed(i, w, r); }
  }

  // ---- whole transactions

  datatype Txn = Txn(st: State, failed: bool, added: seq<Rec>)

  lemma {:induction false} SettledFacts(s: seq<Rec>)
    ensures OrdinaryCount(Settled(s)) == OrdinaryCount(s)
    ensures forall b: nat :: Holders(Settled(s), b) == Holders(s, b)
  {
    if s != [] { SettledFacts(s[..|s| - 1]); }
  }

  lemma {:induction false} SettledMember(s: seq<Rec>, r: Rec)
    requires r in Settled(s)
    ensures !r.isNew && exists o :: o in s && r == o.(isNew := false)
  {
    var i, l := s[..|s| - 1], s[|s| - 1];
    assert s == i + [l];
    if r in Settled(i) { SettledMember(i, r); }
  }

  lemma StartInv(st: State)
    requires Inv(st)
    ensures Inv(st.(recs := Settled(st.recs)))
    ensures forall r :: r in Settled(st.recs) ==> !r.isNew
  {
    SettledFacts(st.recs);
    forall b: nat ensures Uses(st.(recs := Settled(st.recs)), b) == Uses(st, b) { }
    forall r | r in Settled(st.recs) ensures RecOk(r) && !r.isNew { SettledMember(st.recs, r); }
    assert AllOk(Settled(st.recs));
  }

  // The caller stops inserting once `*fail` is set; ok[i] is whether malloc works for call i.
  ghost function RunInserts(st: State, qs: seq<Request>, now: int, ok: seq<bool>): (t: Txn)
    requires Inv(st) && |qs| <= |ok|
    ensures Inv(t.st)
  {
    if qs == [] then
      StartInv(st);
      Txn(st.(recs := Settled(st.recs)), false, [])
    else
      var n := |qs| - 1;
      var t := RunInserts(st, qs[..n], now, ok);
      if t.failed then t
      else
        InsertInv(t.st, qs[n], now, ok[n]);
        OrdinaryBound(t.st.recs);
        var o := Insert(t.st, qs[n], now, ok[n]);
        Txn(o.st, o.failed, if o.failed || o.st.recs == [] then t.added else t.added + [o.st.recs[0]])
  }

  // cache_end_insert
  function EndInsert(st: State, failed: bool): State {
    if failed then Swept(st, Rollback) else st
  }

  predicate KeyedNew(r: Rec) { Ordinary(r) && Keyed(r) && r.isNew }

  predicate KeyedOld(r: Rec) { Ordinary(r) && Keyed(r) && !r.isNew }

  // A transaction whose TTLs stay within 32-bit time is in order at every insert.
  lemma {:induction false} RunInTransaction(st: State, qs: seq<Request>, now: int, ok: seq<bool>)
    requires Inv(st) && |qs| <= |ok| && forall i :: 0 <= i < |qs| ==> Fits(qs[i], now)
    ensures InTransaction(RunInserts(st, qs, now, ok).st.recs, now)
  {
    hide Inv, InTransaction, Insert, Fits, Settled;
    if qs == [] {
      StartInv(st);
      SettledInTransaction(Settled(st.recs), now);
    } else {
      var n := |qs| - 1;
      RunInTransaction(st, qs[..n], now, ok);
      var t := RunInserts(st, qs[..n], now, ok);
      if !t.failed { InsertInTransaction(t.st, qs[n], now, ok[n]); }
    }
  }

  lemma SettledInTransaction(s: seq<Rec>, now: int)
    requires forall r :: r in s ==> !r.isNew
    ensures InTransaction(s, now)
  {
  }

  /** The condition on expiry times is exact: a successful insert keeps the records added
      earlier in its transaction if and only if none of them counts as expired already, which
      happens when `now + ttl` passes the end of 32-bit time. */
  lemma {:induction false} KeepsTransactionExactly(st: State, q: Request, now: int, ok: bool)
    requires Inv(st) && st.recs != [] && !Insert(st, q, now, ok).failed
    ensures var t := Insert(st, q, now, ok).st.recs;
            && t != []
            && ((forall r :: KeyedNew(r) ==> Times(t, r) == Times(st.recs, r) + if r == t[0] then 1 else 0)
                <==> NoneStale(st.recs, now))
  {
    var t := Insert(st, q, now, ok).st.recs;
    forall r | KeyedNew(r)
      ensures t != []
      ensures Times(t, r) == (if Stale(r, now) then 0 else Times(st.recs, r)) + if r == t[0] then 1 else 0
    {
      NewTimes(st, q, now, ok, r);
    }
    InsertHead(st, q, now, ok);
    if NoneStale(st.recs, now) {
      forall r | KeyedNew(r) && Stale(r, now) ensures Times(st.recs, r) == 0 { TimesMember(st.recs, r); }
    } else {
      var r :| r in st.recs && r.isNew && Stale(r, now);
      TimesMember(st.recs, r);
      assert KeyedNew(r);
    }
  }

  lemma {:induction false} NewTimes(st: State, q: Request, now: int, ok: bool, r: Rec)
    requires Inv(st) && st.recs != [] && !Insert(st, q, now, ok).failed && KeyedNew(r)
    ensures var t := Insert(st, q, now, ok).st.recs;
            && t != []
            && Times(t, r) == (if Stale(r, now) then 0 else Times(st.recs, r)) + if r == t[0] then 1 else 0
  {
    hide Insert, Inv, Times, Lost, Stale;
    InsertTimes(st, q, now, ok, r);
    NewLost(st, q, now, r);
  }

  // Of a transaction's own records an insert takes only expired ones.
  lemma NewLost(st: State, q: Request, now: int, r: Rec)
    requires st.recs != [] && KeyedNew(r)
    ensures Lost(st, q, now, r) <==> Stale(r, now)
  {
    hide Victim;
  }
}
