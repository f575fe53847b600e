/** The cache refines a multimap from keys to records: what a lookup returns and what an
    insert changes, record by record with multiplicity. */
module CacheTheorems {
  import opened CacheRecords
  import opened CacheRuns

  // ---- lookup

  /** A first lookup followed by iteration (the leading hits) returns exactly the stored
      records that match and are fresh, each as often as it is stored, and nothing else. */
  lemma {:induction false} LookupRefines(st: State, q: Query, now: int)
    ensures var s := Swept(st, Lookup(q, now)).recs;
            exists n :: 0 <= n <= |s|
              && (forall i :: 0 <= i < |s| ==> (Hits(s[i], q) <==> i < n))
              && (forall r :: Times(s[..n], r) == if Matches(r, q, now) then Times(st.recs, r) else 0)
  {
    var w := Lookup(q, now);
    var s, n := Arrange(st.recs, w), |Front(st.recs, w)|;
    HitsLead(st.recs, q, now);
    assert s[..n] == Front(st.recs, w);
    forall r ensures Times(s[..n], r) == if Matches(r, q, now) then Times(st.recs, r) else 0 {
      FrontTimes(st.recs, q, now, r);
    }
  }

  lemma {:induction false} FrontTimes(s: seq<Rec>, q: Query, now: int, r: Rec)
    ensures Times(Front(s, Lookup(q, now)), r) == if Matches(r, q, now) then Times(s, r) else 0
  {
    if Matches(r, q, now) {
      TimesParts(s, Lookup(q, now), r);
    } else {
      FrontHits(s, q, now);
      TimesMember(Front(s, Lookup(q, now)), r);
    }
  }

  /** A lookup changes no answer: at any time from `now` on, a query finds each record as
      often as it would have without it. */
  lemma {:induction false} LookupHarmless(st: State, q: Query, now: int, later: Query, t: int, r: Rec)
    requires now <= t && Matches(r, later, t)
    ensures Times(Swept(st, Lookup(q, now)).recs, r) == Times(st.recs, r)
  {
    TimesArrange(st.recs, Lookup(q, now), r);
  }

  // ---- insert

  predicate Filed(r: Rec, k: Key) { Ordinary(r) && Carries(r, k) }

  // During a transaction begun at `now`: its records come first among the ordinary ones ...
  ghost predicate NewFirst(s: seq<Rec>) {
    forall i, j :: 0 <= i < j < |s| && Ordinary(s[i]) && Ordinary(s[j]) && s[j].isNew ==> s[i].isNew
  }

  // ... share no key with older records ...
  ghost predicate Separate(s: seq<Rec>) {
    forall a, b :: a in s && b in s && Ordinary(a) && Ordinary(b) && a.isNew && !b.isNew ==> !SharesKey(b, a)
  }

  // ... and none has already run out.
  ghost predicate NoneStale(s: seq<Rec>, now: int) {
    forall r :: r in s && r.isNew ==> !Stale(r, now)
  }

  ghost predicate InTransaction(s: seq<Rec>, now: int) {
    NewFirst(s) && Separate(s) && NoneStale(s, now)
  }

  // A record that freeing an ordinary one cannot produce.
  predicate Solid(r: Rec) { Keyed(r) || !Ordinary(r) }

  lemma {:induction false} PurgedTimes(st: State, q: Request, now: int, r: Rec)
    requires Solid(r)
    ensures Times(Purged(st, q, now).recs, r) == if Decide(Purge(KeyOf(q), now), r).Release? then 0 else Times(st.recs, r)
  {
    var w := Purge(KeyOf(q), now);
    RotatedTimes(Arrange(st.recs, w), r);
    TimesArrange(st.recs, w, r);
  }

  lemma {:induction false} GrabTimes(s: State, q: Request, now: int, r: Rec)
    requires Solid(r) && s.recs != []
    requires var v := s.recs[|s.recs| - 1]; Ordinary(v) && !v.isNew
    ensures var t := Grab(s, q, now).recs;
            Times(t, r) == (if Decide(Evict(s.recs[|s.recs| - 1]), r).Release? then 0 else Times(s.recs, r))
                         + if t[0] == r then 1 else 0
  {
    var n := |s.recs| - 1;
    var v, rest, t := s.recs[n], s.recs[..n], Grab(s, q, now).recs;
    assert t == [t[0]] + Arrange(rest, Evict(v));
    TimesConcat([t[0]], Arrange(rest, Evict(v)), r);
    TimesOne(t[0], r);
    TimesArrange(rest, Evict(v), r);
  }

  // The inserted record heads the list and answers the request.
  lemma {:induction false} InsertHead(st: State, q: Request, now: int, ok: bool)
    requires st.recs != [] && !Insert(st, q, now, ok).failed
    ensures var t := Insert(st, q, now, ok).st.recs;
            t != [] && Answers(t[0], q, now) && t[0].isNew
  {
    var s := Purged(st, q, now);
    ArrangeLength(st.recs, Purge(KeyOf(q), now));
    var v := s.recs[|s.recs| - 1];
    var buf := Take(s, q).1;
    assert Answers(NewRec(q, buf, now, v), q, now);
  }

  // Which of the old records an insert takes away.
  ghost predicate Lost(st: State, q: Request, now: int, r: Rec)
    requires st.recs != []
  {
    Decide(Purge(KeyOf(q), now), r).Release? || Decide(Evict(Victim(st, q, now)), r).Release?
  }

  lemma {:induction false} InsertTimes(st: State, q: Request, now: int, ok: bool, r: Rec)
    requires Inv(st) && Solid(r) && st.recs != []
    requires !Insert(st, q, now, ok).failed
    ensures var t := Insert(st, q, now, ok).st.recs;
            && t != []
            && Times(t, r) == (if Lost(st, q, now, r) then 0 else Times(st.recs, r)) + if t[0] == r then 1 else 0
  {
    PurgedInv(st, q, now);
    PurgedTimes(st, q, now, r);
    GrabTimes(Purged(st, q, now), q, now, r);
  }

  // The victim is an ordinary record of the list, and if old not filed under the inserted key.
  lemma {:induction false} VictimFacts(st: State, q: Request, now: int)
    requires Inv(st) && st.recs != []
    ensures var v := Victim(st, q, now);
            && Ordinary(v) && RecOk(v)
            && (!v.isNew ==> !Carries(v, KeyOf(q)))
            && (Keyed(v) ==> v in st.recs)
  {
    var w := Purge(KeyOf(q), now);
    PurgedInv(st, q, now);
    var x := Arrange(st.recs, w);
    ArrangeLength(st.recs, w);
    RotatedFacts(x);
    var v := Victim(st, q, now);
    assert v in Rotated(x);
    ArrangeMember(st.recs, w, v);
  }

  /** cache_insert as a multimap update. The key ends up with this transaction's records and
      the new one; /etc/hosts and DHCP records are untouched; any other key keeps its unexpired
      records, except the victim's key, which loses all of its records. */
  lemma {:induction false} InsertRefines(st: State, q: Request, now: int, ok: bool)
    requires Inv(st) && st.recs != [] && InTransaction(st.recs, now)
    requires !Insert(st, q, now, ok).failed
    ensures var t := Insert(st, q, now, ok).st.recs;
            && t != [] && Answers(t[0], q, now) && t[0].isNew
            && (forall r :: Filed(r, KeyOf(q)) ==>
                  Times(t, r) == (if r.isNew then Times(st.recs, r) else 0) + if r == t[0] then 1 else 0)
            && (forall r :: !Ordinary(r) ==> Times(t, r) == Times(st.recs, r))
            && (forall k, r :: !SameKey(k, KeyOf(q)) && Filed(r, k) ==>
                  if Carries(Victim(st, q, now), k) then Times(t, r) == 0
                  else r.ttd >= now ==> Times(t, r) == Times(st.recs, r))
  {
    InsertHead(st, q, now, ok);
    var t := Insert(st, q, now, ok).st.recs;
    forall r | Filed(r, KeyOf(q))
      ensures Times(t, r) == (if r.isNew then Times(st.recs, r) else 0) + if r == t[0] then 1 else 0
    {
      InsertSame(st, q, now, ok, r);
    }
    forall r | !Ordinary(r) ensures Times(t, r) == Times(st.recs, r) { InsertTimes(st, q, now, ok, r); }
    forall k, r | !SameKey(k, KeyOf(q)) && Filed(r, k)
      ensures if Carries(Victim(st, q, now), k) then Times(t, r) == 0
              else r.ttd >= now ==> Times(t, r) == Times(st.recs, r)
    {
      InsertOther(st, q, now, ok, k, r);
    }
  }

  lemma {:induction false} InsertSame(st: State, q: Request, now: int, ok: bool, r: Rec)
    requires Inv(st) && st.recs != [] && InTransaction(st.recs, now)
    requires !Insert(st, q, now, ok).failed && Filed(r, KeyOf(q))
    ensures var t := Insert(st, q, now, ok).st.recs;
            && t != []
            && Times(t, r) == (if r.isNew then Times(st.recs, r) else 0) + if r == t[0] then 1 else 0
  {
    InsertTimes(st, q, now, ok, r);
    TimesMember(st.recs, r);
  }

  lemma {:induction false} InsertOther(st: State, q: Request, now: int, ok: bool, k: Key, r: Rec)
    requires Inv(st) && st.recs != [] && InTransaction(st.recs, now)
    requires !Insert(st, q, now, ok).failed && !SameKey(k, KeyOf(q)) && Filed(r, k)
    ensures var t := Insert(st, q, now, ok).st.recs;
            if Carries(Victim(st, q, now), k) then Times(t, r) == 0
            else r.ttd >= now ==> Times(t, r) == Times(st.recs, r)
  {
    var v := Victim(st, q, now);
    VictimFacts(st, q, now);
    InsertHead(st, q, now, ok);
    InsertTimes(st, q, now, ok, r);
    if Carries(v, k) {
      CarrySame(r, v, k);
      TimesMember(st.recs, r);
    } else if r.ttd >= now {
      LiveSpared(r, v, k, KeyOf(q), now);
    }
  }

  lemma CarrySame(r: Rec, v: Rec, k: Key)
    requires Carries(r, k) && Carries(v, k)
    ensures SharesKey(r, v) && SharesKey(v, r)
  {
  }

  lemma LiveSpared(r: Rec, v: Rec, k: Key, key: Key, now: int)
    requires Ordinary(r) && Carries(r, k) && r.ttd >= now && RecOk(v)
    requires !SameKey(k, key) && Ordinary(v) && !Carries(v, k)
    ensures !Decide(Purge(key, now), r).Release?
    ensures !Decide(Evict(v), r).Release?
  {
  }
}
