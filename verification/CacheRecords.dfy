/** The records of the dnsmasq cache and the pure meaning of one walk over its list.

    A record's flag word is kept as one boolean per flag. A long name lives in a buffer
    of the shared pool; the record remembers which one (`buf`) and its text (`name`), which
    is sound because no buffer ever has two holders (`CacheRuns.BuffersSound`). */
module CacheRecords {
  import opened Options

  // struct all_addr: the first four bytes, and the twelve that only IPv6 uses.
  datatype Addr = Addr(word: int, rest: int)

  // memcmp over INADDRSZ or IN6ADDRSZ bytes.
  predicate SameAddr(a: Addr, b: Addr, v6: bool) {
    a.word == b.word && (v6 ==> a.rest == b.rest)
  }

  datatype Rec = Rec(
    fwd: bool, rev: bool, v4: bool, v6: bool,
    isNew: bool, immortal: bool, hosts: bool, dhcp: bool, neg: bool, nx: bool,
    buf: Option<nat>, ttd: int, addr: Addr, name: string)

  predicate Ordinary(r: Rec) { !r.hosts && !r.dhcp }

  predicate Keyed(r: Rec) { r.fwd || r.rev }

  predicate Fresh(r: Rec, now: int) { r.immortal || r.ttd > now }

  datatype Target = Name(text: string) | Address(addr: Addr)

  // What cache_insert files a record under: F_FORWARD or F_REVERSE, and one protocol.
  datatype Key = Key(target: Target, v6: bool)

  predicate Carries(r: Rec, k: Key) {
    && r.fwd == k.target.Name? && r.rev == k.target.Address?
    && r.v4 == !k.v6 && r.v6 == k.v6
    && match k.target
       case Name(t) => r.name == t
       case Address(a) => SameAddr(r.addr, a, k.v6)
  }

  predicate SameKey(j: Key, k: Key) {
    && j.v6 == k.v6
    && match (j.target, k.target)
       case (Name(t), Name(u)) => t == u
       case (Address(a), Address(b)) => SameAddr(a, b, k.v6)
       case _ => false
  }

  // What the two find functions look for; the protocol mask may also be F_HOSTS | F_DHCP.
  datatype Prot = OnlyV4 | OnlyV6 | LocalData

  datatype Query = Query(target: Target, prot: Prot)

  predicate Speaks(r: Rec, p: Prot) {
    match p
    case OnlyV4 => r.v4
    case OnlyV6 => r.v6
    case LocalData => r.hosts || r.dhcp
  }

  predicate Hits(r: Rec, q: Query) {
    && Speaks(r, q.prot)
    && match q.target
       case Name(t) => r.fwd && r.name == t
       case Address(a) => r.rev && SameAddr(r.addr, a, q.prot.OnlyV6?)
  }

  predicate Matches(r: Rec, q: Query, now: int) { Hits(r, q) && Fresh(r, now) }

  // cache_free: the record stays in the list, unreachable by any key, without its buffer.
  function Freed(r: Rec): Rec { r.(fwd := false, rev := false, buf := None) }

  // The five loops that walk the list while moving the node they stand on.
  datatype Sweep =
    | Lookup(q: Query, now: int)   // cache_find_by_name, cache_find_by_addr
    | Purge(key: Key, now: int)    // first loop of cache_insert
    | Evict(victim: Rec)           // last loop of cache_insert
    | Rollback                     // cache_end_insert

  datatype Action = Stay | Promote | Release

  predicate Stale(r: Rec, now: int) {
    Ordinary(r) && Keyed(r) && r.ttd < now && !r.immortal
  }

  predicate SharesKey(r: Rec, v: Rec) {
    && r.fwd == v.fwd && r.rev == v.rev && r.v4 == v.v4 && r.v6 == v.v6
    && ((v.rev && SameAddr(r.addr, v.addr, v.v6)) || (v.fwd && r.name == v.name))
  }

  function Decide(w: Sweep, r: Rec): Action {
    match w
    case Lookup(q, now) =>
      if !Hits(r, q) then Stay else if Fresh(r, now) then Promote else Release
    case Purge(key, now) =>
      if !Ordinary(r) then Stay
      else if Stale(r, now) then Release
      else if !r.isNew && Carries(r, key) then Release
      else Stay
    case Evict(victim) =>
      if Ordinary(r) && !r.isNew && SharesKey(r, victim) then Release else Stay
    case Rollback =>
      if r.isNew then Release else Stay
  }

  // What a released record becomes.
  function After(w: Sweep, r: Rec): Rec {
    if w.Rollback? then Freed(r).(isNew := false) else Freed(r)
  }

  // ---- the list a walk leaves behind

  function Front(s: seq<Rec>, w: Sweep): seq<Rec> {
    if s == [] then []
    else if Decide(w, s[|s| - 1]).Promote? then [s[|s| - 1]] + Front(s[..|s| - 1], w)
    else Front(s[..|s| - 1], w)
  }

  function Kept(s: seq<Rec>, w: Sweep): seq<Rec> {
    if s == [] then []
    else if Decide(w, s[|s| - 1]).Stay? then Kept(s[..|s| - 1], w) + [s[|s| - 1]]
    else Kept(s[..|s| - 1], w)
  }

  function Gone(s: seq<Rec>, w: Sweep): seq<Rec> {
    if s == [] then []
    else if Decide(w, s[|s| - 1]).Release? then Gone(s[..|s| - 1], w) + [After(w, s[|s| - 1])]
    else Gone(s[..|s| - 1], w)
  }

  function Arrange(s: seq<Rec>, w: Sweep): seq<Rec> {
    Front(s, w) + Kept(s, w) + Gone(s, w)
  }

  // The free list of long-name buffers after the walk.
  function Reclaim(s: seq<Rec>, w: Sweep, free: seq<nat>): seq<nat> {
    if s == [] then free
    else
      var r := s[|s| - 1];
      var rest := Reclaim(s[..|s| - 1], w, free);
      if Decide(w, r).Release? && r.buf.Some? then [r.buf.value] + rest else rest
  }

  // A walk that meets its own released records again leaves them alone.
  lemma ReleasedStay(w: Sweep, r: Rec)
    ensures Decide(w, After(w, r)).Stay?
  {
  }

  lemma ArrangeLength(s: seq<Rec>, w: Sweep)
    ensures |Front(s, w)| + |Kept(s, w)| + |Gone(s, w)| == |s|
  {
    if s != [] { ArrangeLength(s[..|s| - 1], w); }
  }

  // ---- multiplicity: the list as a bag of records

  function Times(s: seq<Rec>, r: Rec): nat {
    if s == [] then 0 else Times(s[..|s| - 1], r) + if s[|s| - 1] == r then 1 else 0
  }

  lemma {:induction false} TimesConcat(a: seq<Rec>, b: seq<Rec>, r: Rec)
    ensures Times(a + b, r) == Times(a, r) + Times(b, r)
  {
    if b == [] {
      assert a + b == a;
    } else {
      TimesConcat(a, b[..|b| - 1], r);
      assert (a + b)[..|a + b| - 1] == a + b[..|b| - 1];
    }
  }

  lemma TimesOne(x: Rec, r: Rec)
    ensures Times([x], r) == if x == r then 1 else 0
  {
    assert [x][..0] == [];
    assert Times([], r) == 0;
  }

  lemma {:induction false} TimesMember(s: seq<Rec>, r: Rec)
    ensures Times(s, r) > 0 <==> r in s
  {
    if s != [] {
      TimesMember(s[..|s| - 1], r);
      assert s == s[..|s| - 1] + [s[|s| - 1]];
    }
  }

  // No released record can look like r.
  ghost predicate Distinct(w: Sweep, r: Rec) {
    forall o :: Decide(w, o).Release? ==> After(w, o) != r
  }

  /** A walk only reorders what it does not release: a record that no released one can turn
      into is there as often as before, or not at all if it was released. */
  lemma {:induction false} TimesArrange(s: seq<Rec>, w: Sweep, r: Rec)
    requires Distinct(w, r)
    ensures Times(Arrange(s, w), r) == if Decide(w, r).Release? then 0 else Times(s, r)
  {
    TimesConcat(Front(s, w) + Kept(s, w), Gone(s, w), r);
    TimesConcat(Front(s, w), Kept(s, w), r);
    TimesParts(s, w, r);
  }

  lemma {:induction false} TimesParts(s: seq<Rec>, w: Sweep, r: Rec)
    requires Distinct(w, r)
    ensures Times(Front(s, w), r) == if Decide(w, r).Promote? then Times(s, r) else 0
    ensures Times(Kept(s, w), r) == if Decide(w, r).Stay? then Times(s, r) else 0
    ensures Times(Gone(s, w), r) == 0
  {
    hide Decide, After;
    if s != [] {
      var i, x := s[..|s| - 1], s[|s| - 1];
      TimesParts(i, w, r);
      TimesOne(x, r);
      match Decide(w, x)
      case Promote => TimesConcat([x], Front(i, w), r);
      case Stay => TimesConcat(Kept(i, w), [x], r);
      case Release =>
        TimesConcat(Gone(i, w), [After(w, x)], r);
        TimesOne(After(w, x), r);
    }
  }

  // Every record after the walk is an unreleased old one, or a released one made keyless.
  lemma {:induction false} ArrangeMember(s: seq<Rec>, w: Sweep, r: Rec)
    requires r in Arrange(s, w)
    ensures (r in s && !Decide(w, r).Release?)
         || exists o :: o in s && Decide(w, o).Release? && r == After(w, o)
  {
    if s != [] {
      var i := s[..|s| - 1];
      assert forall x :: x in i ==> x in s;
      if r in Arrange(i, w) { ArrangeMember(i, w, r); }
    }
  }

  lemma {:induction false} ArrangeKeeps(s: seq<Rec>, w: Sweep, r: Rec)
    requires r in s && !Decide(w, r).Release?
    ensures r in Arrange(s, w)
  {
    var i := s[..|s| - 1];
    assert s == i + [s[|s| - 1]];
    if r in i { ArrangeKeeps(i, w, r); }
  }

  // ---- lookup

  /** After a lookup walk the records that hit are exactly the leading ones, so following
      `next` while the record hits visits them all and stops. */
  lemma {:induction false} HitsLead(s: seq<Rec>, q: Query, now: int)
    ensures var w := Lookup(q, now);
            forall i :: 0 <= i < |Arrange(s, w)| ==>
              (Hits(Arrange(s, w)[i], q) <==> i < |Front(s, w)|)
  {
    var w := Lookup(q, now);
    FrontHits(s, q, now);
  }

  lemma {:induction false} FrontHits(s: seq<Rec>, q: Query, now: int)
    ensures var w := Lookup(q, now);
            && (forall i :: 0 <= i < |Front(s, w)| ==> Matches(Front(s, w)[i], q, now))
            && (forall i :: 0 <= i < |Kept(s, w)| ==> !Hits(Kept(s, w)[i], q))
            && (forall i :: 0 <= i < |Gone(s, w)| ==> !Hits(Gone(s, w)[i], q))
  {
    if s != [] { FrontHits(s[..|s| - 1], q, now); }
  }

  // ---- counting and order

  function OrdinaryCount(s: seq<Rec>): nat {
    if s == [] then 0 else OrdinaryCount(s[..|s| - 1]) + if Ordinary(s[|s| - 1]) then 1 else 0
  }

  lemma {:induction false} OrdinaryConcat(a: seq<Rec>, b: seq<Rec>)
    ensures OrdinaryCount(a + b) == OrdinaryCount(a) + OrdinaryCount(b)
  {
    if b == [] {
      assert a + b == a;
    } else {
      OrdinaryConcat(a, b[..|b| - 1]);
      assert (a + b)[..|a + b| - 1] == a + b[..|b| - 1];
    }
  }

  lemma OrdinaryOne(r: Rec)
    ensures OrdinaryCount([r]) == if Ordinary(r) then 1 else 0
  {
    assert [r][..0] == [];
    assert OrdinaryCount([]) == 0;
  }

  lemma {:induction false} OrdinaryArrange(s: seq<Rec>, w: Sweep)
    ensures OrdinaryCount(Arrange(s, w)) == OrdinaryCount(s)
  {
    OrdinaryConcat(Front(s, w) + Kept(s, w), Gone(s, w));
    OrdinaryConcat(Front(s, w), Kept(s, w));
    OrdinaryParts(s, w);
  }

  lemma {:induction false} OrdinaryParts(s: seq<Rec>, w: Sweep)
    ensures OrdinaryCount(Front(s, w)) + OrdinaryCount(Kept(s, w)) + OrdinaryCount(Gone(s, w))
         == OrdinaryCount(s)
  {
    if s != [] {
      var i, r := s[..|s| - 1], s[|s| - 1];
      OrdinaryParts(i, w);
      OrdinaryOne(r);
      match Decide(w, r)
      case Promote => OrdinaryConcat([r], Front(i, w));
      case Stay => OrdinaryConcat(Kept(i, w), [r]);
      case Release =>
        OrdinaryConcat(Gone(i, w), [After(w, r)]);
        OrdinaryOne(After(w, r));
    }
  }
}
