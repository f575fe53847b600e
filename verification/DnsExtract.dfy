/** extract_addresses on the bytes of a packet: the answer section is walked record by record, for
    an alias over again from its start, and stored in the cache as one transaction. */
module DnsExtract {
  import opened Options
  import opened Bytes
  import opened DnsNames
  import opened DnsPackets
  import opened DnsCompare
  import opened DnsRecords
  import opened DnsSection
  import opened CacheRecords
  import opened CacheRuns
  import opened CacheTransactions
  import Cache

  // ---- storing

  // Later outcomes of malloc do not matter to earlier inserts.
  lemma {:induction false} LongerRun(st: State, qs: seq<Request>, now: int, ok: seq<bool>, m: bool)
    requires Inv(st) && |qs| <= |ok|
    ensures RunInserts(st, qs, now, ok + [m]) == RunInserts(st, qs, now, ok)
  {
    hide Insert, Inv, Settled;
    if qs != [] {
      var n := |qs| - 1;
      LongerRun(st, qs[..n], now, ok, m);
      assert (ok + [m])[n] == ok[n];
    }
  }

  // One more insert of the transaction; after a failure nothing more happens.
  lemma NextInsert(st: State, qs: seq<Request>, now: int, ok: seq<bool>, q: Request, m: bool)
    requires Inv(st) && |qs| == |ok|
    ensures var t := RunInserts(st, qs, now, ok);
            var u := RunInserts(st, qs + [q], now, ok + [m]);
            && t.st.recs != []
            && if t.failed then u == t else Outcome(u.st, u.failed) == Insert(t.st, q, now, m)
  {
    hide Insert, Settled;
    LongerRun(st, qs, now, ok, m);
    var more := qs + [q];
    assert more[..|qs|] == qs && (ok + [m])[|qs|] == m;
    OrdinaryBound(RunInserts(st, qs, now, ok).st.recs);
  }

  // The cache is where the inserts so far have brought it.
  ghost predicate Along(cache: Cache.Cache, st: State, done: seq<Request>, now: int, ok: seq<bool>, fail: bool)
    reads cache, cache.nodes
  {
    cache.Valid() && Inv(st) && |done| == |ok| &&
    var t := RunInserts(st, done, now, ok); cache.Abs() == t.st && fail == t.failed
  }

  // A call of cache_insert within extract_addresses; malloc may fail or not.
  method Store(cache: Cache.Cache, q: Request, now: int, fail: bool, ghost st: State, ghost done: seq<Request>, ghost ok: seq<bool>)
    returns (failed: bool, ghost oks: seq<bool>)
    requires Along(cache, st, done, now, ok, fail)
    modifies cache, cache.nodes
    ensures Cache.SameNodes(cache.nodes, old(cache.nodes)) && Along(cache, st, done + [q], now, oks, failed)
  {
    hide Insert, Inv, RunInserts;
    var m: bool := *;
    NextInsert(st, done, now, ok, q, m);
    oks := ok + [m];
    failed := cache.Insert(q, now, m, fail);
  }

  // ---- reading

  datatype NameRead = Unusable | Root(next: nat) | Found(next: nat, text: seq<Byte>)

  // extract_name in extracting mode; the text as C reads it.
  method ReadName(pkt: seq<Byte>, plen: nat, off: nat) returns (r: NameRead)
    requires plen <= |pkt| && off < |pkt|
    ensures match NameAt(pkt, plen, off)
            case None => r.Unusable?
            case Some(ls) => r == if ls == [] then Root(End(pkt, off)) else Found(End(pkt, off), Buffer(ls))
  {
    hide Dotted, End, Join, CStr;
    ExtractReads(pkt, plen, off);
    var d := ExtractName(pkt, plen, off);
    match d
    case Bad => r := Unusable;
    case Underrun(next) => r := Root(next);
    case Text(next, text) =>
      ghost var ls := LabelsAt(pkt, plen, off).value;
      TextIs(ls, text);
      r := Found(next, CStr(text));
  }

  lemma TextIs(ls: Labels, text: seq<Byte>)
    requires ls != [] ==> text + [DOT] == Dotted(ls)
    ensures ls != [] ==> text == Join(ls)
  {
    hide Dotted, Join;
    if ls != [] {
      JoinDotted(ls);
      assert (text + [DOT])[..|text|] == text;
      assert (Join(ls) + [DOT])[..|Join(ls)|] == Join(ls);
    }
  }

  // The part behind the owner, which ends at e: type, class, TTL, and where data and record end.
  method ReadFields(pkt: seq<Byte>, plen: nat, e: nat) returns (rtype: nat, class_: nat, ttl: nat, next: nat)
    requires plen + SLACK <= |pkt| && e <= plen + 1
    ensures rtype == U16(pkt, e) && class_ == U16(pkt, e + 2) && ttl == U32(pkt, e + 4) && next == e + 10 + U16(pkt, e + 8)
  {
    rtype := U16(pkt, e);
    class_ := U16(pkt, e + 2);
    ttl := U32(pkt, e + 4);
    next := e + 10 + U16(pkt, e + 8);
  }

  // ---- storing the data of one record under a name

  method StoreData(cache: Cache.Cache, arpa: string -> Option<Arpa>, name: seq<Byte>, pkt: seq<Byte>, plen: nat, rtype: nat, p: nat,
                   ttl: nat, now: int, fail: bool, ghost owner: Labels,
                   ghost st: State, ghost done: seq<Request>, ghost ok: seq<bool>)
    returns (ending: Ending, failed: bool, ghost oks: seq<bool>)
    requires Along(cache, st, done, now, ok, fail)
    requires plen + SLACK <= |pkt| && p <= plen && owner != [] && name == Buffer(owner)
    modifies cache, cache.nodes
    ensures Cache.SameNodes(cache.nodes, old(cache.nodes))
    ensures var w := Stored(arpa, owner, DataAt(pkt, plen, rtype, p), ttl);
            ending == w.ending && Along(cache, st, done + w.requests, now, oks, failed)
  {
    hide Along, AddrAt, Buffer, NameAt, ToText;
    ending, failed, oks := Complete, fail, ok;
    assert done + [] == done;
    if rtype == T_A {
      failed, oks := Store(cache, ForName(ToText(name), Some(AddrAt(pkt, p)), false, ttl, false, false), now, fail, st, done, ok);
    } else if rtype == T_AAAA {
      failed, oks := Store(cache, ForName(ToText(name), Some(AddrAt(pkt, p)), true, ttl, false, false), now, fail, st, done, ok);
    } else if rtype == T_PTR {
      var a := arpa(ToText(name));
      if a.Some? {
        var n := ReadName(pkt, plen, p);
        if n.Unusable? { return BadPacket, fail, ok; }
        if n.Root? { return Astray, fail, ok; }
        failed, oks := Store(cache, ForAddr(ToText(n.text), a.value.addr, a.value.v6, ttl, false, false), now, fail, st, done, ok);
      }
    }
  }

  // ---- aliases

  // One turn of the inner loop: the target is extracted again, the record's owner compared with it,
  // and on a match the alias's own name extracted again and the record stored under it.
  ghost function ChaseAt(arpa: string -> Option<Arpa>, pkt: seq<Byte>, plen: nat, targ: nat, alias: Resource, p: nat): Walk
    requires plen + SLACK <= |pkt| && p <= plen && alias.owner != []
  {
    match NameAt(pkt, plen, targ)
    case None => BAD
    case Some(t) =>
      if t == [] then Walk([], Astray)
      else match RecordAt(pkt, plen, p)
           case None => BAD
           case Some((r, _)) => Followed(arpa, alias, t, r)
  }

  method ChaseOne(cache: Cache.Cache, arpa: string -> Option<Arpa>, pkt: seq<Byte>, plen: nat, orig: nat, targ: nat, p: nat,
                  ttl: nat, now: int, fail: bool, ghost alias: Resource,
                  ghost st: State, ghost done: seq<Request>, ghost ok: seq<bool>)
    returns (ending: Ending, next: nat, failed: bool, ghost oks: seq<bool>)
    requires Along(cache, st, done, now, ok, fail)
    requires plen + SLACK <= |pkt| && p <= plen && orig <= plen && targ <= plen
    requires NameAt(pkt, plen, orig) == Some(alias.owner) && alias.owner != [] && alias.ttl == ttl
    modifies cache, cache.nodes
    ensures Cache.SameNodes(cache.nodes, old(cache.nodes))
    ensures var w := ChaseAt(arpa, pkt, plen, targ, alias, p);
            && ending == w.ending && Along(cache, st, done + w.requests, now, oks, failed)
            && (ending.Complete? ==> RecordAt(pkt, plen, p).Some? && next == RecordAt(pkt, plen, p).value.1)
  {
    hide Along, Stored, Agrees, Comparable, DataAt, Buffer, NameAt, U16, U32, LabelsAt, End;
    ending, next, failed, oks := BadPacket, 0, fail, ok;
    assert done + [] == done;
    var target := ReadName(pkt, plen, targ);
    if target.Unusable? { return; }
    if target.Root? { return Astray, 0, fail, ok; }
    var c := CompareName(pkt, plen, p, target.text);
    if c.Unreadable? { return; }
    NameEnd(pkt, plen, p);
    var rtype, class_, cttl;
    rtype, class_, cttl, next := ReadFields(pkt, plen, c.next);
    if next > plen { return; }
    ending := Complete;
    if class_ == C_IN && c.same {
      var name := ReadName(pkt, plen, orig);
      if ttl < cttl { cttl := ttl; }
      ending, failed, oks := StoreData(cache, arpa, name.text, pkt, plen, rtype, c.next + 10, cttl, now, fail, alias.owner, st, done, ok);
    }
  }

  // What is stored for the alias: everything its target leads to in the section of n records.
  ghost function ChaseWalk(arpa: string -> Option<Arpa>, alias: Resource, target: Option<Labels>, rrs: seq<Resource>, n: nat): Walk
    requires alias.owner != []
  {
    if target.None? then BAD
    else if target.value == [] then Walk([], Astray)
    else Then(FollowAll(arpa, alias, target.value, rrs), Lacking(rrs, n))
  }

  // The walk so far, over the first k records.
  ghost function ChaseSome(arpa: string -> Option<Arpa>, alias: Resource, target: Option<Labels>, rrs: seq<Resource>, k: nat): Walk
    requires alias.owner != [] && k <= |rrs|
  {
    if target.None? || target.value == [] then NOTHING else FollowAll(arpa, alias, target.value, rrs[..k])
  }

  lemma ChaseStart(arpa: string -> Option<Arpa>, alias: Resource, target: Option<Labels>, rrs: seq<Resource>)
    requires alias.owner != []
    ensures ChaseSome(arpa, alias, target, rrs, 0) == NOTHING
  {
    assert rrs[..0] == [];
  }

  // Record k of the section is at p.
  lemma ChaseStep(arpa: string -> Option<Arpa>, pkt: seq<Byte>, plen: nat, targ: nat, alias: Resource, rrs: seq<Resource>, n: nat, k: nat, p: nat)
    requires plen + SLACK <= |pkt| && p <= plen && alias.owner != [] && k <= |rrs| && k < n
    requires rrs[k..] == Section(pkt, plen, n - k, p)
    ensures var t, x := NameAt(pkt, plen, targ), RecordAt(pkt, plen, p);
            var before, w := ChaseSome(arpa, alias, t, rrs, k), ChaseAt(arpa, pkt, plen, targ, alias, p);
            && (x.Some? <==> k < |rrs|)
            && (x.Some? ==> rrs[k + 1..] == Section(pkt, plen, n - k - 1, x.value.1))
            && (before.ending.Complete? ==>
                  if w.ending.Complete? then k < |rrs| && ChaseSome(arpa, alias, t, rrs, k + 1) == Then(before, w)
                  else ChaseWalk(arpa, alias, t, rrs, n) == Then(before, w))
  {
    hide Followed, RecordAt;
    var t, x := NameAt(pkt, plen, targ), RecordAt(pkt, plen, p);
    SectionStep(pkt, plen, rrs, n, k, p);
    if t.Some? && t.value != [] {
      if k < |rrs| {
        FollowNext(arpa, alias, t.value, rrs, k);
        if !FollowAll(arpa, alias, t.value, rrs[..k + 1]).ending.Complete? { FollowStuck(arpa, alias, t.value, rrs, k + 1); }
      } else {
        assert rrs[..k] == rrs;
      }
    }
  }

  lemma SectionStep(pkt: seq<Byte>, plen: nat, rrs: seq<Resource>, n: nat, k: nat, p: nat)
    requires plen + SLACK <= |pkt| && p <= plen && k <= |rrs| && k < n && rrs[k..] == Section(pkt, plen, n - k, p)
    ensures var x := RecordAt(pkt, plen, p);
            && (x.Some? <==> k < |rrs|)
            && (x.Some? ==> rrs[k] == x.value.0 && rrs[k + 1..] == Section(pkt, plen, n - k - 1, x.value.1))
  {
    hide RecordAt;
    var x := RecordAt(pkt, plen, p);
    if x.Some? {
      assert rrs[k..][0] == x.value.0;
      assert rrs[k + 1..] == rrs[k..][1..];
    } else {
      assert rrs[k..] == [];
    }
  }

  // The inner loop.
  method Chase(cache: Cache.Cache, arpa: string -> Option<Arpa>, pkt: seq<Byte>, plen: nat, n: nat, start: nat, orig: nat, targ: nat,
               ttl: nat, now: int, fail: bool, ghost alias: Resource,
               ghost st: State, ghost done: seq<Request>, ghost ok: seq<bool>)
    returns (ending: Ending, failed: bool, ghost oks: seq<bool>)
    requires Along(cache, st, done, now, ok, fail)
    requires plen + SLACK <= |pkt| && start <= plen && orig <= plen && targ <= plen && n > 0
    requires NameAt(pkt, plen, orig) == Some(alias.owner) && alias.owner != [] && alias.ttl == ttl
    modifies cache, cache.nodes
    ensures Cache.SameNodes(cache.nodes, old(cache.nodes))
    ensures var w := ChaseWalk(arpa, alias, NameAt(pkt, plen, targ), Section(pkt, plen, n, start), n);
            ending == w.ending && Along(cache, st, done + w.requests, now, oks, failed)
  {
    hide Along, NameAt, RecordAt, Section, ChaseAt, ChaseSome, ChaseWalk;
    ghost var rrs, t := Section(pkt, plen, n, start), NameAt(pkt, plen, targ);
    failed, oks := fail, ok;
    ghost var w := NOTHING;
    ChaseStart(arpa, alias, t, rrs);
    assert done + [] == done && rrs[0..] == rrs;
    var p: nat := start;
    for j := 0 to n
      invariant Cache.SameNodes(cache.nodes, old(cache.nodes))
      invariant p <= plen && j <= |rrs| && rrs[j..] == Section(pkt, plen, n - j, p)
      invariant w == ChaseSome(arpa, alias, t, rrs, j) && w.ending.Complete? && Along(cache, st, done + w.requests, now, oks, failed)
      invariant j > 0 ==> t.Some? && t.value != []
    {
      ghost var mid := cache.nodes;
      Cache.SameIndex(mid, old(cache.nodes));
      ChaseStep(arpa, pkt, plen, targ, alias, rrs, n, j, p);
      ghost var one := ChaseAt(arpa, pkt, plen, targ, alias, p);
      assert (done + w.requests) + one.requests == done + (w.requests + one.requests);
      ChaseNeeds(arpa, pkt, plen, targ, alias, p);
      ending, p, failed, oks := ChaseOne(cache, arpa, pkt, plen, orig, targ, p, ttl, now, failed, alias, st, done + w.requests, oks);
      Cache.SameTrans(cache.nodes, mid, old(cache.nodes));
      w := Then(w, one);
      if !ending.Complete? { return; }
    }
    ending := Complete;
    ChaseEnd(arpa, alias, t, rrs, n);
  }

  lemma ChaseNeeds(arpa: string -> Option<Arpa>, pkt: seq<Byte>, plen: nat, targ: nat, alias: Resource, p: nat)
    requires plen + SLACK <= |pkt| && p <= plen && alias.owner != []
    ensures ChaseAt(arpa, pkt, plen, targ, alias, p).ending.Complete?
            ==> NameAt(pkt, plen, targ).Some? && NameAt(pkt, plen, targ).value != []
  {
    hide Followed;
  }

  lemma ChaseEnd(arpa: string -> Option<Arpa>, alias: Resource, target: Option<Labels>, rrs: seq<Resource>, n: nat)
    requires alias.owner != [] && n == |rrs| && target.Some? && target.value != []
    ensures ChaseSome(arpa, alias, target, rrs, n).ending.Complete? ==> ChaseWalk(arpa, alias, target, rrs, n) == ChaseSome(arpa, alias, target, rrs, n)
  {
    assert rrs[..n] == rrs;
    var w := FollowAll(arpa, alias, target.value, rrs);
    assert w.requests + [] == w.requests;
  }

  // ---- the section

  // What the record at p makes the outer loop do.
  ghost function WalkAt(arpa: string -> Option<Arpa>, pkt: seq<Byte>, plen: nat, rrs: seq<Resource>, n: nat, p: nat): Walk
    requires plen + SLACK <= |pkt| && p <= plen
  {
    match RecordAt(pkt, plen, p)
    case None => BAD
    case Some((r, _)) => ForRecord(arpa, r, rrs, n)
  }

  // One turn of the outer loop.
  method ExtractOne(cache: Cache.Cache, arpa: string -> Option<Arpa>, pkt: seq<Byte>, plen: nat, n: nat, start: nat, p: nat,
                    now: int, fail: bool, ghost st: State, ghost done: seq<Request>, ghost ok: seq<bool>)
    returns (ending: Ending, next: nat, failed: bool, ghost oks: seq<bool>)
    requires Along(cache, st, done, now, ok, fail)
    requires plen + SLACK <= |pkt| && p <= plen && start <= plen && n > 0
    modifies cache, cache.nodes
    ensures Cache.SameNodes(cache.nodes, old(cache.nodes))
    ensures var w := WalkAt(arpa, pkt, plen, Section(pkt, plen, n, start), n, p);
            && ending == w.ending && Along(cache, st, done + w.requests, now, oks, failed)
            && (ending.Complete? ==> RecordAt(pkt, plen, p).Some? && next == RecordAt(pkt, plen, p).value.1)
  {
    hide Along, Stored, FollowAll, AddrAt, Buffer, Extractable, U16, U32, LabelsAt, End, Section;
    ending, next, failed, oks := BadPacket, 0, fail, ok;
    assert done + [] == done;
    var name := ReadName(pkt, plen, p);
    if name.Unusable? { return; }
    NameEnd(pkt, plen, p);
    var e := name.next;
    var rtype, class_, ttl;
    rtype, class_, ttl, next := ReadFields(pkt, plen, e);
    if next > plen { return; }
    if name.Root? { return Astray, 0, fail, ok; }
    ending := Complete;
    if class_ == C_IN {
      ghost var r := RecordAt(pkt, plen, p).value.0;
      if rtype == T_CNAME {
        ending, failed, oks := Chase(cache, arpa, pkt, plen, n, start, p, e + 10, ttl, now, fail, r, st, done, ok);
      } else {
        ending, failed, oks := StoreData(cache, arpa, name.text, pkt, plen, rtype, e + 10, ttl, now, fail, r.owner, st, done, ok);
      }
    }
  }

  lemma WalkStep(arpa: string -> Option<Arpa>, pkt: seq<Byte>, plen: nat, rrs: seq<Resource>, n: nat, k: nat, p: nat)
    requires plen + SLACK <= |pkt| && p <= plen && k <= |rrs| && k < n && rrs[k..] == Section(pkt, plen, n - k, p)
    ensures var x, before, w := RecordAt(pkt, plen, p), ForRecords(arpa, rrs[..k], rrs, n), WalkAt(arpa, pkt, plen, rrs, n, p);
            && (x.Some? <==> k < |rrs|)
            && (x.Some? ==> rrs[k + 1..] == Section(pkt, plen, n - k - 1, x.value.1))
            && (before.ending.Complete? ==>
                  if w.ending.Complete? then k < |rrs| && ForRecords(arpa, rrs[..k + 1], rrs, n) == Then(before, w)
                  else Requests(arpa, rrs, n) == Then(before, w))
  {
    hide ForRecord, RecordAt;
    SectionStep(pkt, plen, rrs, n, k, p);
    if k < |rrs| {
      RecordsNext(arpa, rrs, rrs, n, k);
      if !ForRecords(arpa, rrs[..k + 1], rrs, n).ending.Complete? { RecordsStuck(arpa, rrs, rrs, n, k + 1); }
    } else {
      assert rrs[..k] == rrs;
    }
  }

  lemma WalkEnds(arpa: string -> Option<Arpa>, rrs: seq<Resource>, n: nat)
    requires n == |rrs|
    ensures ForRecords(arpa, rrs[..n], rrs, n).ending.Complete? ==> Requests(arpa, rrs, n) == ForRecords(arpa, rrs[..n], rrs, n)
  {
    hide ForRecords;
    assert rrs[..n] == rrs;
    var w := ForRecords(arpa, rrs, rrs, n);
    assert w.requests + [] == w.requests;
  }

  /** extract_addresses, from the end of the question section on. The cache afterwards is that of a
      transaction of the requests the section makes: with its rollback on failure if the packet was
      read to its end, and left as it was after the last insert if it turned out bad before. */
  method ExtractAddresses(cache: Cache.Cache, arpa: string -> Option<Arpa>, pkt: seq<Byte>, plen: nat, ancount: nat, start: nat, now: int)
    returns (ending: Ending, ghost ok: seq<bool>)
    requires cache.Valid() && plen + SLACK <= |pkt| && start <= plen
    modifies cache, cache.nodes
    ensures cache.Valid() && Cache.SameNodes(cache.nodes, old(cache.nodes)) && Inv(old(cache.Abs()))
    ensures var w := Requests(arpa, Section(pkt, plen, ancount, start), ancount);
            && ending == w.ending && |ok| == |w.requests|
            && cache.Abs() == Left(RunInserts(old(cache.Abs()), w.requests, now, ok), w.ending)
  {
    hide Along, RecordAt, Section, WalkAt, ForRecords, Requests, RunInserts, Inv, EndInsert, Settled, Cache.SameNodes;
    ghost var st, rrs := cache.Abs(), Section(pkt, plen, ancount, start);
    Started(cache);
    Cache.SameSelf(cache.nodes);
    cache.StartInsert();
    var fail := false;
    ok := [];
    ghost var w := NOTHING;
    StartAlong(cache, st, now);
    NoRecords(arpa, rrs, ancount);
    assert [] + NOTHING.requests == NOTHING.requests && rrs[0..] == rrs;
    var p: nat := start;
    for i := 0 to ancount
      invariant Cache.SameNodes(cache.nodes, old(cache.nodes))
      invariant p <= plen && i <= |rrs| && rrs[i..] == Section(pkt, plen, ancount - i, p)
      invariant w == ForRecords(arpa, rrs[..i], rrs, ancount) && w.ending.Complete? && Along(cache, st, w.requests, now, ok, fail)
    {
      ghost var mid := cache.nodes;
      Cache.SameIndex(mid, old(cache.nodes));
      WalkStep(arpa, pkt, plen, rrs, ancount, i, p);
      ghost var one := WalkAt(arpa, pkt, plen, rrs, ancount, p);
      ending, p, fail, ok := ExtractOne(cache, arpa, pkt, plen, ancount, start, p, now, fail, st, w.requests, ok);
      Cache.SameTrans(cache.nodes, mid, old(cache.nodes));
      w := Then(w, one);
      if !ending.Complete? {
        Finish(cache, st, w.requests, now, ok, fail);
        return;
      }
    }
    ending := Complete;
    WalkEnds(arpa, rrs, ancount);
    ghost var mid := cache.nodes;
    Cache.SameIndex(mid, old(cache.nodes));
    Finish(cache, st, w.requests, now, ok, fail);
    cache.EndInsert(fail);
    Cache.SameTrans(cache.nodes, mid, old(cache.nodes));
  }

  // What a packet leaves of its transaction.
  ghost function Left(t: Txn, ending: Ending): State {
    if ending.Complete? then EndInsert(t.st, t.failed) else t.st
  }

  lemma NoRecords(arpa: string -> Option<Arpa>, rrs: seq<Resource>, n: nat)
    ensures ForRecords(arpa, rrs[..0], rrs, n) == NOTHING
  {
  }

  lemma Started(cache: Cache.Cache)
    requires cache.Valid()
    ensures Inv(cache.Abs())
  {
  }

  lemma StartAlong(cache: Cache.Cache, st: State, now: int)
    requires cache.Valid() && Inv(st) && cache.Abs() == st.(recs := Settled(st.recs))
    ensures Along(cache, st, [], now, [], false)
  {
    hide Inv;
  }

  lemma Finish(cache: Cache.Cache, st: State, all: seq<Request>, now: int, ok: seq<bool>, fail: bool)
    requires Along(cache, st, all, now, ok, fail)
    ensures cache.Valid() && Inv(st) && |all| == |ok|
    ensures var t := RunInserts(st, all, now, ok); cache.Abs() == t.st && fail == t.failed
  {
    hide RunInserts, Inv;
  }
}
