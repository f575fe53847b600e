/** What extract_addresses asks the cache to store for an answer section. The section is a list of
    records up to the first that cannot be read at all; a packet may still turn out bad at any record
    on the way, and what was stored until then stays stored. */
module DnsRecords {
  import opened Options
  import opened Bytes
  import opened DnsNames
  import opened DnsPackets
  import opened DnsCompare
  import opened CacheRecords
  import opened CacheRuns

  type Labels = seq<seq<Byte>>

  // A name in the data of a record is missing if it cannot be extracted.
  datatype Data = V4(addr: Addr) | V6(addr: Addr) | Pointer(name: Option<Labels>) | Alias(name: Option<Labels>) | Other

  // A resource record; `inet` is class IN.
  datatype Resource = Resource(owner: Labels, inet: bool, ttl: nat, data: Data)

  // What in_arpa_name_2_addr makes of a name.
  datatype Arpa = Arpa(addr: Addr, v6: bool)

  // A text as C reads it: up to the first zero.
  function CStr(s: seq<Byte>): seq<Byte> { if s == [] || s[0] == 0 then [] else [s[0]] + CStr(s[1..]) }

  function ToText(s: seq<Byte>): string { seq(|s|, i requires 0 <= i < |s| => s[i] as char) }

  // The text of a name in the caller's buffer, and as the cache stores it.
  function Buffer(ls: Labels): seq<Byte>
    requires ls != []
  {
    CStr(Join(ls))
  }

  function NameOf(ls: Labels): string
    requires ls != []
  {
    ToText(Buffer(ls))
  }

  // ---- walks

  // How it ends: Astray is where the root name is extracted and the buffer is missed.
  datatype Ending = Complete | BadPacket | Astray

  datatype Walk = Walk(requests: seq<Request>, ending: Ending)

  const NOTHING := Walk([], Complete)
  const BAD := Walk([], BadPacket)

  function Then(a: Walk, b: Walk): Walk {
    if a.ending.Complete? then Walk(a.requests + b.requests, b.ending) else a
  }

  // A record's data, stored under a name.
  function Stored(arpa: string -> Option<Arpa>, owner: Labels, data: Data, ttl: nat): Walk
    requires owner != []
  {
    match data
    case V4(a) => Walk([ForName(NameOf(owner), Some(a), false, ttl, false, false)], Complete)
    case V6(a) => Walk([ForName(NameOf(owner), Some(a), true, ttl, false, false)], Complete)
    case Pointer(n) =>
      var a := arpa(NameOf(owner));
      if a.None? then NOTHING
      else if n.None? then BAD
      else if n.value == [] then Walk([], Astray)
      else Walk([ForAddr(NameOf(n.value), a.value.addr, a.value.v6, ttl, false, false)], Complete)
    case Alias(_) => NOTHING
    case Other => NOTHING
  }

  // One record looked at for an alias of `target`: if its owner agrees it is stored under the alias,
  // with the smaller of the two TTLs.
  function Followed(arpa: string -> Option<Arpa>, alias: Resource, target: Labels, r: Resource): Walk
    requires alias.owner != [] && target != []
  {
    if !Comparable(r.owner, |Buffer(target)|) then BAD
    else if r.inet && Agrees(r.owner, Buffer(target)) then Stored(arpa, alias.owner, r.data, Min(alias.ttl, r.ttl))
    else NOTHING
  }

  function FollowAll(arpa: string -> Option<Arpa>, alias: Resource, target: Labels, rrs: seq<Resource>): Walk
    requires alias.owner != [] && target != []
  {
    if rrs == [] then NOTHING
    else Then(FollowAll(arpa, alias, target, rrs[..|rrs| - 1]), Followed(arpa, alias, target, rrs[|rrs| - 1]))
  }

  // The section is said to have n records.
  function Lacking(rrs: seq<Resource>, n: nat): Walk { if |rrs| < n then BAD else NOTHING }

  function ForRecord(arpa: string -> Option<Arpa>, r: Resource, all: seq<Resource>, n: nat): Walk {
    if !Extractable(r.owner) then BAD
    else if r.owner == [] then Walk([], Astray)
    else if !r.inet then NOTHING
    else if r.data.Alias? then
      if r.data.name.None? then BAD
      else if r.data.name.value == [] then Walk([], Astray)
      else Then(FollowAll(arpa, r, r.data.name.value, all), Lacking(all, n))
    else Stored(arpa, r.owner, r.data, r.ttl)
  }

  function ForRecords(arpa: string -> Option<Arpa>, rrs: seq<Resource>, all: seq<Resource>, n: nat): Walk {
    if rrs == [] then NOTHING else Then(ForRecords(arpa, rrs[..|rrs| - 1], all, n), ForRecord(arpa, rrs[|rrs| - 1], all, n))
  }

  function Requests(arpa: string -> Option<Arpa>, rrs: seq<Resource>, n: nat): Walk {
    Then(ForRecords(arpa, rrs, rrs, n), Lacking(rrs, n))
  }

  // ---- what the section says

  ghost predicate StatedVia(arpa: string -> Option<Arpa>, alias: Resource, target: Labels, r: Resource, q: Request)
    requires alias.owner != [] && target != []
  {
    r.inet && Agrees(r.owner, Buffer(target)) && q in Stored(arpa, alias.owner, r.data, Min(alias.ttl, r.ttl)).requests
  }

  // The section states q: a record of class IN says so itself, or an alias together with one of the
  // records whose owner agrees with its target, and then the TTL is the smaller of the two.
  ghost predicate StatedBy(arpa: string -> Option<Arpa>, r: Resource, all: seq<Resource>, q: Request) {
    && r.inet && r.owner != []
    && (q in Stored(arpa, r.owner, r.data, r.ttl).requests || StatedAlias(arpa, r, all, q))
  }

  ghost predicate StatedAlias(arpa: string -> Option<Arpa>, r: Resource, all: seq<Resource>, q: Request)
    requires r.owner != []
  {
    && r.data.Alias? && r.data.name.Some? && r.data.name.value != []
    && exists k :: 0 <= k < |all| && StatedVia(arpa, r, r.data.name.value, all[k], q)
  }

  ghost predicate Stated(arpa: string -> Option<Arpa>, rrs: seq<Resource>, q: Request) {
    exists i :: 0 <= i < |rrs| && StatedBy(arpa, rrs[i], rrs, q)
  }

  // All that is asked for is stated, and when the walk is complete all that is stated is asked for.
  ghost predicate Covers(w: Walk, q: Request, stated: bool) {
    (q in w.requests ==> stated) && (w.ending.Complete? && stated ==> q in w.requests)
  }

  lemma ThenCovers(a: Walk, b: Walk, q: Request, x: bool, y: bool)
    requires Covers(a, q, x) && Covers(b, q, y)
    ensures Covers(Then(a, b), q, x || y)
  {
  }

  lemma {:induction false} Follows(arpa: string -> Option<Arpa>, alias: Resource, target: Labels, rrs: seq<Resource>, q: Request)
    requires alias.owner != [] && target != []
    ensures Covers(FollowAll(arpa, alias, target, rrs), q, exists k :: 0 <= k < |rrs| && StatedVia(arpa, alias, target, rrs[k], q))
  {
    hide Stored, StatedVia, Followed, Then;
    if rrs != [] {
      var n := |rrs| - 1;
      var rest := rrs[..n];
      Follows(arpa, alias, target, rest, q);
      FollowsOne(arpa, alias, target, rrs[n], q);
      var x := exists k :: 0 <= k < n && StatedVia(arpa, alias, target, rest[k], q);
      ThenCovers(FollowAll(arpa, alias, target, rest), Followed(arpa, alias, target, rrs[n]), q, x, StatedVia(arpa, alias, target, rrs[n], q));
      assert forall k :: 0 <= k < n ==> rest[k] == rrs[k];
    }
  }

  lemma FollowsOne(arpa: string -> Option<Arpa>, alias: Resource, target: Labels, r: Resource, q: Request)
    requires alias.owner != [] && target != []
    ensures Covers(Followed(arpa, alias, target, r), q, StatedVia(arpa, alias, target, r, q))
  {
    hide Stored, Agrees, Comparable;
  }

  lemma ForOne(arpa: string -> Option<Arpa>, r: Resource, all: seq<Resource>, n: nat, q: Request)
    ensures Covers(ForRecord(arpa, r, all, n), q, StatedBy(arpa, r, all, q))
  {
    hide FollowAll, Agrees, NameOf;
    if r.data.Alias? && r.owner != [] && r.data.name.Some? && r.data.name.value != [] {
      Follows(arpa, r, r.data.name.value, all, q);
    }
  }

  lemma {:induction false} ForSome(arpa: string -> Option<Arpa>, rrs: seq<Resource>, all: seq<Resource>, n: nat, q: Request)
    ensures Covers(ForRecords(arpa, rrs, all, n), q, exists i :: 0 <= i < |rrs| && StatedBy(arpa, rrs[i], all, q))
  {
    hide ForRecord, StatedBy, Then;
    if rrs != [] {
      var m := |rrs| - 1;
      var rest := rrs[..m];
      ForSome(arpa, rest, all, n, q);
      ForOne(arpa, rrs[m], all, n, q);
      var x := exists i :: 0 <= i < m && StatedBy(arpa, rest[i], all, q);
      ThenCovers(ForRecords(arpa, rest, all, n), ForRecord(arpa, rrs[m], all, n), q, x, StatedBy(arpa, rrs[m], all, q));
      assert forall i :: 0 <= i < m ==> rest[i] == rrs[i];
    }
  }

  /** Only what the section states is asked to be stored; and all of it, unless the packet turns out
      bad on the way. */
  lemma RequestsAreStated(arpa: string -> Option<Arpa>, rrs: seq<Resource>, n: nat, q: Request)
    ensures var w := Requests(arpa, rrs, n);
            && (q in w.requests ==> Stated(arpa, rrs, q))
            && (w.ending.Complete? ==> (q in w.requests <==> Stated(arpa, rrs, q)))
  {
    hide ForRecords, StatedBy;
    ForSome(arpa, rrs, rrs, n, q);
  }

  // ---- walks that end early

  lemma {:induction false} FollowStuck(arpa: string -> Option<Arpa>, alias: Resource, target: Labels, rrs: seq<Resource>, k: nat)
    requires alias.owner != [] && target != [] && k <= |rrs| && !FollowAll(arpa, alias, target, rrs[..k]).ending.Complete?
    ensures FollowAll(arpa, alias, target, rrs) == FollowAll(arpa, alias, target, rrs[..k])
    decreases |rrs|
  {
    if k == |rrs| {
      assert rrs[..k] == rrs;
    } else {
      var n := |rrs| - 1;
      assert rrs[..n][..k] == rrs[..k];
      FollowStuck(arpa, alias, target, rrs[..n], k);
    }
  }

  lemma {:induction false} RecordsStuck(arpa: string -> Option<Arpa>, rrs: seq<Resource>, all: seq<Resource>, n: nat, k: nat)
    requires k <= |rrs| && !ForRecords(arpa, rrs[..k], all, n).ending.Complete?
    ensures ForRecords(arpa, rrs, all, n) == ForRecords(arpa, rrs[..k], all, n)
    decreases |rrs|
  {
    hide ForRecord;
    if k == |rrs| {
      assert rrs[..k] == rrs;
    } else {
      var m := |rrs| - 1;
      assert rrs[..m][..k] == rrs[..k];
      RecordsStuck(arpa, rrs[..m], all, n, k);
    }
  }

  lemma FollowNext(arpa: string -> Option<Arpa>, alias: Resource, target: Labels, rrs: seq<Resource>, k: nat)
    requires alias.owner != [] && target != [] && k < |rrs|
    ensures FollowAll(arpa, alias, target, rrs[..k + 1])
         == Then(FollowAll(arpa, alias, target, rrs[..k]), Followed(arpa, alias, target, rrs[k]))
  {
    assert rrs[..k + 1][..k] == rrs[..k];
  }

  lemma RecordsNext(arpa: string -> Option<Arpa>, rrs: seq<Resource>, all: seq<Resource>, n: nat, k: nat)
    requires k < |rrs|
    ensures ForRecords(arpa, rrs[..k + 1], all, n) == Then(ForRecords(arpa, rrs[..k], all, n), ForRecord(arpa, rrs[k], all, n))
  {
    assert rrs[..k + 1][..k] == rrs[..k];
  }
}
