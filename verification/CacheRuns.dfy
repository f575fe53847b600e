/** The cache as a state machine: what each operation of cache.c does to the list of records
    and to the pool of long-name buffers, the multimap it implements, and what every run keeps. */
module CacheRuns {
  import opened Options
  import opened CacheRecords

  const SMALLDNAME := 40

  // time_t is a signed 32-bit integer on this router.
  const TIME_MAX := 0x7fff_ffff

  function TimeT(x: int): int { (x + 0x8000_0000) % 0x1_0000_0000 - 0x8000_0000 }

  datatype State = State(size: nat, recs: seq<Rec>, bigFree: seq<nat>, bigLeft: nat)

  // The arguments of cache_insert: a forward record, or a reverse record for an address.
  datatype Request =
    | ForName(name: string, known: Option<Addr>, v6: bool, ttl: nat, neg: bool, nx: bool)
    | ForAddr(name: string, addr: Addr, v6: bool, ttl: nat, neg: bool, nx: bool)

  function KeyOf(q: Request): Key {
    if q.ForName? then Key(Name(q.name), q.v6) else Key(Address(q.addr), q.v6)
  }

  // Does the record hold what the request asked to be stored at time `now`?
  predicate Answers(r: Rec, q: Request, now: int) {
    && Ordinary(r) && !r.immortal && Carries(r, KeyOf(q))
    && r.name == q.name && r.neg == q.neg && r.nx == q.nx
    && r.ttd == TimeT(now + q.ttl)
    && (q.ForAddr? ==> SameAddr(r.addr, q.addr, q.v6))
    && (q.ForName? && q.known.Some? ==> SameAddr(r.addr, q.known.value, q.v6))
  }

  // ---- the operations

  function Init(size: nat): State
    requires size >= 3
  {
    State(size, Blanks(size), [], size / 10)
  }

  const BLANK := Rec(false, false, false, false, false, false, false, false, false, false,
                     None, 0, Addr(0, 0), "")

  function Blanks(n: nat): seq<Rec> { if n == 0 then [] else Blanks(n - 1) + [BLANK] }

  function Swept(st: State, w: Sweep): State {
    st.(recs := Arrange(st.recs, w), bigFree := Reclaim(st.recs, w, st.bigFree))
  }

  // cache_start_insert
  function Settled(s: seq<Rec>): seq<Rec> {
    if s == [] then [] else Settled(s[..|s| - 1]) + [s[|s| - 1].(isNew := false)]
  }

  // How many hosts and DHCP records lie behind the last ordinary one.
  function Trailing(s: seq<Rec>): (n: nat)
    ensures n <= |s|
    ensures n < |s| ==> Ordinary(s[|s| - n - 1])
    ensures forall i :: |s| - n <= i < |s| ==> !Ordinary(s[i])
  {
    if s == [] || Ordinary(s[|s| - 1]) then 0 else 1 + Trailing(s[..|s| - 1])
  }

  // The victim loop pushes those to the top one by one.
  function Rotated(s: seq<Rec>): seq<Rec> {
    s[|s| - Trailing(s)..] + s[..|s| - Trailing(s)]
  }

  function NewRec(q: Request, buf: Option<nat>, now: int, slot: Rec): Rec {
    var a := if q.ForAddr? then q.addr else if q.known.Some? then q.known.value else slot.addr;
    Rec(q.ForName?, q.ForAddr?, !q.v6, q.v6, true, false, false, false, q.neg, q.nx,
        buf, TimeT(now + q.ttl), if q.v6 then a else Addr(a.word, slot.addr.rest), q.name)
  }

  datatype Outcome = Outcome(st: State, failed: bool)

  predicate NoBuffer(st: State, q: Request, mallocOk: bool) {
    |q.name| > SMALLDNAME - 1 && st.bigFree == [] && (st.bigLeft == 0 || !mallocOk)
  }

  // The pool after a buffer for a long name has been taken from it, and the buffer.
  function Take(st: State, q: Request): (State, Option<nat>) {
    if |q.name| <= SMALLDNAME - 1 then (st, None)
    else if st.bigFree != [] then (st.(bigFree := st.bigFree[1..]), Some(st.bigFree[0]))
    else if 0 < st.bigLeft <= st.size / 10 then
      (st.(bigLeft := st.bigLeft - 1), Some(st.size / 10 - st.bigLeft))
    else (st, None)
  }

  // The list as the victim loop leaves it: the victim is its last record.
  function Purged(st: State, q: Request, now: int): State {
    var s := Swept(st, Purge(KeyOf(q), now));
    s.(recs := Rotated(s.recs))
  }

  // Everything cache_insert does once it has found a slot it may take.
  function Grab(s: State, q: Request, now: int): State
    requires s.recs != []
  {
    var n := |s.recs| - 1;
    var victim := s.recs[n];
    var (t, buf) := Take(s, q);
    var u := Swept(t.(recs := s.recs[..n]), Evict(victim));
    u.(recs := [NewRec(q, buf, now, victim)] + u.recs)
  }

  // cache_insert
  function Insert(st: State, q: Request, now: int, mallocOk: bool): Outcome
    requires st.recs != []
  {
    var s := Purged(st, q, now);
    ArrangeLength(st.recs, Purge(KeyOf(q), now));
    if s.recs[|s.recs| - 1].isNew || NoBuffer(s, q, mallocOk) then Outcome(s, true)
    else Outcome(Grab(s, q, now), false)
  }

  function Victim(st: State, q: Request, now: int): Rec
    requires st.recs != []
  {
    ArrangeLength(st.recs, Purge(KeyOf(q), now));
    var s := Purged(st, q, now).recs; s[|s| - 1]
  }

  // The clearing loop of cache_reload.
  function Wiped(r: Rec): Rec {
    Rec(false, false, false, false, false, false, false, false, false, false,
        None, r.ttd, r.addr, r.name)
  }

  function Cleared(s: seq<Rec>): seq<Rec> {
    if s == [] then []
    else
      var r := s[|s| - 1];
      if r.hosts then Cleared(s[..|s| - 1])
      else Cleared(s[..|s| - 1]) + [if r.dhcp then r else Wiped(r)]
  }

  function Refunded(s: seq<Rec>, free: seq<nat>): seq<nat> {
    if s == [] then free
    else
      var r, rest := s[|s| - 1], Refunded(s[..|s| - 1], free);
      if Ordinary(r) && r.buf.Some? then [r.buf.value] + rest else rest
  }

  // cache_clear_dhcp
  function WithoutDhcp(s: seq<Rec>): seq<Rec> {
    if s == [] then []
    else if s[|s| - 1].dhcp then WithoutDhcp(s[..|s| - 1])
    else WithoutDhcp(s[..|s| - 1]) + [s[|s| - 1]]
  }

  function HostRec(name: string, addr: Addr, v6: bool, canonical: bool): Rec {
    Rec(true, canonical, !v6, v6, false, true, true, false, false, false, None, 0, addr, name)
  }

  // An infinite lease is written -1.
  datatype Lease = Lease(host: string, word: int, ttd: int, canonical: bool)

  // `mem` is the memory the record is built in: a spare, or fresh from malloc.
  function LeaseRec(l: Lease, mem: Rec): Rec {
    Rec(true, l.canonical, true, false, false, l.ttd == -1, false, true, false, false, None,
        if l.ttd == -1 then mem.ttd else l.ttd, Addr(l.word, mem.addr.rest), l.host)
  }

  // process_lease; `room` is None when malloc fails.
  function Leased(st: State, l: Lease, room: Option<Rec>): State {
    var s := Swept(st, Lookup(Query(Name(l.host), OnlyV4), 0));
    var added := if room.Some? then [LeaseRec(l, room.value)] else [];
    if s.recs != [] && Hits(s.recs[0], Query(Name(l.host), OnlyV4)) then
      var r := s.recs[0];
      if r.hosts then s
      else if !r.dhcp then
        if r.neg then s.(recs := added + s.recs[0 := r.(fwd := false)]) else s
      else if l.ttd > r.ttd || l.ttd == -1 then
        s.(recs := s.recs[0 := r.(addr := Addr(l.word, r.addr.rest),
                                  immortal := r.immortal || l.ttd == -1,
                                  ttd := if l.ttd == -1 then r.ttd else l.ttd)])
      else s
    else s.(recs := added + s.recs)
  }

  // ---- what every reachable state satisfies

  predicate RecOk(r: Rec) {
    && (!Ordinary(r) ==> !r.isNew && r.buf.None?)
    && (Ordinary(r) ==> !r.immortal)
    && (r.hosts ==> r.immortal)
    && (Ordinary(r) && Keyed(r) ==> r.fwd != r.rev && r.v4 != r.v6)
  }

  predicate AllOk(s: seq<Rec>) { forall i :: 0 <= i < |s| ==> RecOk(s[i]) }

  // How many records hold buffer b, and how many times it is on the free list.
  function Holders(s: seq<Rec>, b: nat): nat {
    if s == [] then 0 else Holders(s[..|s| - 1], b) + if s[|s| - 1].buf == Some(b) then 1 else 0
  }

  function Uses(st: State, b: nat): nat { Holders(st.recs, b) + multiset(st.bigFree)[b] }

  // No buffer has two holders, and no more than size/10 of them were ever allocated.
  ghost predicate BuffersSound(st: State) {
    && st.bigLeft <= st.size / 10
    && forall b: nat :: Uses(st, b) <= 1 && (Uses(st, b) == 1 ==> b < st.size / 10 - st.bigLeft)
  }

  ghost predicate Inv(st: State) {
    && st.size >= 3
    && OrdinaryCount(st.recs) == st.size
    && AllOk(st.recs)
    && BuffersSound(st)
  }

  // ---- the list-level facts behind Inv

  lemma OrdinaryBound(s: seq<Rec>)
    ensures OrdinaryCount(s) <= |s|
  {
  }

  lemma {:induction false} OrdinaryExists(s: seq<Rec>)
    requires OrdinaryCount(s) > 0
    ensures exists r :: r in s && Ordinary(r)
  {
    if Ordinary(s[|s| - 1]) { assert s[|s| - 1] in s; }
    else { OrdinaryExists(s[..|s| - 1]); }
  }

  lemma {:induction false} HoldersConcat(s: seq<Rec>, t: seq<Rec>, b: nat)
    ensures Holders(s + t, b) == Holders(s, b) + Holders(t, b)
  {
    if t == [] {
      assert s + t == s;
    } else {
      HoldersConcat(s, t[..|t| - 1], b);
      assert (s + t)[..|s + t| - 1] == s + t[..|t| - 1];
    }
  }

  lemma HoldersOne(r: Rec, b: nat)
    ensures Holders([r], b) == if r.buf == Some(b) then 1 else 0
  {
    assert [r][..0] == [];
    assert Holders([], b) == 0;
  }

  // A walk conserves buffers: each stays with its record or goes to the free list.
  lemma {:induction false} UsesArrange(s: seq<Rec>, w: Sweep, free: seq<nat>, b: nat)
    ensures Holders(Arrange(s, w), b) + multiset(Reclaim(s, w, free))[b] == Holders(s, b) + multiset(free)[b]
  {
    HoldersConcat(Front(s, w) + Kept(s, w), Gone(s, w), b);
    HoldersConcat(Front(s, w), Kept(s, w), b);
    UsesParts(s, w, free, b);
  }

  lemma {:induction false} UsesParts(s: seq<Rec>, w: Sweep, free: seq<nat>, b: nat)
    ensures Holders(Front(s, w), b) + Holders(Kept(s, w), b) + multiset(Reclaim(s, w, free))[b]
         == Holders(s, b) + multiset(free)[b]
    ensures Holders(Gone(s, w), b) == 0
  {
    hide Decide;
    if s != [] {
      var i, r := s[..|s| - 1], s[|s| - 1];
      UsesParts(i, w, free, b);
      match Decide(w, r)
      case Promote =>
        HoldersConcat([r], Front(i, w), b);
        HoldersOne(r, b);
      case Stay =>
        HoldersConcat(Kept(i, w), [r], b);
        HoldersOne(r, b);
      case Release =>
        HoldersConcat(Gone(i, w), [After(w, r)], b);
        HoldersOne(After(w, r), b);
        if r.buf.Some? {
          assert multiset([r.buf.value] + Reclaim(i, w, free)) == multiset{r.buf.value} + multiset(Reclaim(i, w, free));
        }
    }
  }

  lemma {:induction false} RecsOkArrange(s: seq<Rec>, w: Sweep)
    requires AllOk(s)
    ensures AllOk(Arrange(s, w))
  {
    var t := Arrange(s, w);
    forall i | 0 <= i < |t| ensures RecOk(t[i]) { ArrangeMember(s, w, t[i]); }
  }

  lemma {:induction false} SweptInv(st: State, w: Sweep)
    requires Inv(st)
    ensures Inv(Swept(st, w))
  {
    OrdinaryArrange(st.recs, w);
    RecsOkArrange(st.recs, w);
    forall b: nat ensures Uses(Swept(st, w), b) == Uses(st, b) { UsesArrange(st.recs, w, st.bigFree, b); }
  }

  lemma RotatedSplit(s: seq<Rec>) returns (a: seq<Rec>, z: seq<Rec>)
    ensures s == a + z && Rotated(s) == z + a
  {
    var v := |s| - Trailing(s);
    a, z := s[..v], s[v..];
  }

  lemma {:induction false} RotatedTimes(s: seq<Rec>, r: Rec)
    ensures Times(Rotated(s), r) == Times(s, r)
  {
    var a, z := RotatedSplit(s);
    TimesConcat(a, z, r);
    TimesConcat(z, a, r);
  }

  lemma {:induction false} RotatedHolders(s: seq<Rec>, b: nat)
    ensures Holders(Rotated(s), b) == Holders(s, b)
  {
    var a, z := RotatedSplit(s);
    HoldersConcat(a, z, b);
    HoldersConcat(z, a, b);
  }

  lemma {:induction false} RotatedFacts(s: seq<Rec>)
    ensures OrdinaryCount(Rotated(s)) == OrdinaryCount(s)
    ensures forall r :: r in Rotated(s) <==> r in s
    ensures AllOk(s) ==> AllOk(Rotated(s))
    ensures OrdinaryCount(s) > 0 ==> Rotated(s) != [] && Ordinary(Rotated(s)[|s| - 1])
  {
    var a, z := RotatedSplit(s);
    OrdinaryConcat(a, z);
    OrdinaryConcat(z, a);
    if OrdinaryCount(s) > 0 { OrdinaryExists(s); }
  }

  lemma {:induction false} PurgedInv(st: State, q: Request, now: int)
    requires Inv(st)
    ensures Inv(Purged(st, q, now))
    ensures Ordinary(Victim(st, q, now))
  {
    var w := Purge(KeyOf(q), now);
    SweptInv(st, w);
    ArrangeLength(st.recs, w);
    RotatedFacts(Arrange(st.recs, w));
    forall b: nat ensures Uses(Purged(st, q, now), b) == Uses(Swept(st, w), b) {
      RotatedHolders(Arrange(st.recs, w), b);
    }
  }

  lemma {:induction false} InsertInv(st: State, q: Request, now: int, mallocOk: bool)
    requires Inv(st)
    ensures Inv(Insert(st, q, now, mallocOk).st)
  {
    PurgedInv(st, q, now);
    var s := Purged(st, q, now);
    if !Insert(st, q, now, mallocOk).failed {
      GrabInv(s, q, now, mallocOk);
    }
  }

  lemma {:induction false} GrabInv(s: State, q: Request, now: int, mallocOk: bool)
    requires Inv(s) && s.recs != [] && !NoBuffer(s, q, mallocOk)
    requires Ordinary(s.recs[|s.recs| - 1])
    ensures Inv(Grab(s, q, now))
  {
    var n := |s.recs| - 1;
    var victim, rest := s.recs[n], s.recs[..n];
    assert s.recs == rest + [victim];
    var (t, buf) := Take(s, q);
    var w := Evict(victim);
    var r := NewRec(q, buf, now, victim);
    var out := Arrange(rest, w);
    assert OrdinaryCount([r] + out) == s.size by {
      OrdinaryOne(r);
      OrdinaryConcat([r], out);
      OrdinaryArrange(rest, w);
    }
    RecsOkArrange(rest, w);
    assert AllOk([r] + out);
    forall b: nat
      ensures Uses(Grab(s, q, now), b) <= 1
      ensures Uses(Grab(s, q, now), b) == 1 ==> b < s.size / 10 - t.bigLeft
    {
      GrabUses(s, q, now, mallocOk, b);
    }
  }

  lemma {:induction false} GrabUses(s: State, q: Request, now: int, mallocOk: bool, b: nat)
    requires s.recs != [] && BuffersSound(s) && !NoBuffer(s, q, mallocOk)
    ensures var g := Grab(s, q, now);
            && g.bigLeft <= s.bigLeft
            && Uses(g, b) <= 1 && (Uses(g, b) == 1 ==> b < s.size / 10 - g.bigLeft)
  {
    var n := |s.recs| - 1;
    var rest, w := s.recs[..n], Evict(s.recs[n]);
    var (t, buf) := Take(s, q);
    var r := NewRec(q, buf, now, s.recs[n]);
    assert Uses(Grab(s, q, now), b) == Holders([r], b) + Holders(rest, b) + multiset(t.bigFree)[b] by {
      HoldersConcat([r], Arrange(rest, w), b);
      UsesArrange(rest, w, t.bigFree, b);
    }
    HoldersOne(r, b);
    assert Holders(rest, b) <= Holders(s.recs, b);
    assert Uses(s, b) <= 1 && (Uses(s, b) == 1 ==> b < s.size / 10 - s.bigLeft);
    TakeUses(s, q, mallocOk, b);
  }

  lemma TakeUses(s: State, q: Request, mallocOk: bool, b: nat)
    requires BuffersSound(s) && !NoBuffer(s, q, mallocOk)
    ensures var (t, buf) := Take(s, q);
            && t.bigLeft <= s.bigLeft
            && if buf == Some(b) then
                 && b < s.size / 10 - t.bigLeft
                 && Holders(s.recs, b) == 0 && multiset(t.bigFree)[b] == 0
               else multiset(t.bigFree)[b] == multiset(s.bigFree)[b]
  {
    assert Uses(s, b) <= 1 && (Uses(s, b) == 1 ==> b < s.size / 10 - s.bigLeft);
    if s.bigFree != [] {
      assert s.bigFree == [s.bigFree[0]] + s.bigFree[1..];
    }
  }
}
