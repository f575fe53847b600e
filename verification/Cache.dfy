/** The cache of cache.c as it is: one doubly linked list of heap nodes, walked while its
    nodes are being moved. Every method is proved against the pure operations of CacheRuns. */
module Cache {
  import opened Options
  import opened CacheRecords
  import opened CacheRuns
  import opened CacheTheorems
  import opened CacheLookups
  import opened CacheTransactions
  import opened CacheHistory

  class Crec {
    var next: Crec?
    var prev: Crec?
    var rec: Rec

    constructor (r: Rec)
      ensures rec == r
    {
      rec := r;
      next, prev := null, null;
    }
  }

  ghost predicate SameNodes(a: seq<Crec>, b: seq<Crec>) {
    |a| == |b| && (forall n :: n in a ==> n in b) && (forall n :: n in b ==> n in a)
  }

  ghost predicate Within(a: seq<Crec>, b: seq<Crec>) { forall n :: n in a ==> n in b }

  // Distinct nodes outside the list.
  ghost predicate Apart(a: seq<Crec>, b: seq<Crec>) {
    (forall n :: n in a ==> n !in b) && forall i, j :: 0 <= i < j < |a| ==> a[i] != a[j]
  }

  lemma NoSpares(b: seq<Crec>)
    ensures Apart([], b) && Within([], b)
  {
  }

  lemma WithinIndex(a: seq<Crec>, b: seq<Crec>)
    requires Within(a, b)
    ensures forall i :: 0 <= i < |a| ==> a[i] in b
  {
  }

  lemma WithinTrans(a: seq<Crec>, b: seq<Crec>, c: seq<Crec>)
    requires Within(a, b) && Within(b, c)
    ensures Within(a, c)
  {
  }

  lemma SameIndex(a: seq<Crec>, b: seq<Crec>)
    requires SameNodes(a, b)
    ensures |a| == |b| && forall i :: 0 <= i < |a| ==> a[i] in b
  {
  }

  lemma SameSelf(a: seq<Crec>)
    ensures SameNodes(a, a)
  {
  }

  lemma SameTrans(a: seq<Crec>, b: seq<Crec>, c: seq<Crec>)
    requires SameNodes(a, b) && SameNodes(b, c)
    ensures SameNodes(a, c)
  {
  }

  lemma SameRotated(was: seq<Crec>, rest: seq<Crec>, mid: seq<Crec>, x: Crec)
    requires was == rest + [x] && SameNodes(mid, rest)
    ensures SameNodes([x] + mid, was)
  {
  }

  lemma {:induction false} MovedNodes(was: seq<Crec>, k: nat)
    requires k < |was|
    ensures SameNodes(was, was)
    ensures var s := [was[k]] + Without(was, k);
            SameNodes(s, was) && |s| == |was| && forall i :: k < i < |was| ==> s[i] == was[i]
    ensures var s := Without(was, k) + [was[k]];
            SameNodes(s, was) && |s| == |was| && forall i :: k < i < |was| ==> s[i - 1] == was[i]
  {
    assert was == was[..k] + [was[k]] + was[k + 1..];
  }

  // A doubly linked list: distinct nodes, each pointing at its neighbours.
  ghost predicate Chain(nodes: seq<Crec>, head: Crec?, tail: Crec?)
    reads nodes
  {
    && (forall i, j :: 0 <= i < j < |nodes| ==> nodes[i] != nodes[j])
    && head == (if nodes == [] then null else nodes[0])
    && tail == (if nodes == [] then null else nodes[|nodes| - 1])
    && (forall i {:trigger nodes[i].prev} :: 0 <= i < |nodes| ==>
          nodes[i].prev == if i == 0 then null else nodes[i - 1])
    && (forall i {:trigger nodes[i].next} :: 0 <= i < |nodes| ==>
          nodes[i].next == if i == |nodes| - 1 then null else nodes[i + 1])
  }

  // The same list when the neighbours of node k skip it.
  ghost predicate Gap(nodes: seq<Crec>, k: nat)
    reads nodes
  {
    && (forall i, j :: 0 <= i < j < |nodes| ==> nodes[i] != nodes[j])
    && (forall i {:trigger nodes[i].prev} :: 0 <= i < |nodes| ==>
          var j := if i == k + 1 then k - 1 else i - 1;
          nodes[i].prev == if j < 0 then null else nodes[j])
    && (forall i {:trigger nodes[i].next} :: 0 <= i < |nodes| ==>
          var j := if i + 1 == k then k + 1 else i + 1;
          nodes[i].next == if j >= |nodes| then null else nodes[j])
  }

  lemma {:induction false} CloseGap(nodes: seq<Crec>, k: nat, head: Crec?, tail: Crec?)
    requires k < |nodes| && Gap(nodes, k)
    requires head == if k > 0 then nodes[0] else if |nodes| > 1 then nodes[1] else null
    requires tail == if k < |nodes| - 1 then nodes[|nodes| - 1] else if |nodes| > 1 then nodes[|nodes| - 2] else null
    ensures Chain(Without(nodes, k), head, tail)
    ensures nodes[k] !in Without(nodes, k)
  {
    var rest := Without(nodes, k);
    forall i | 0 <= i < |rest|
      ensures rest[i].prev == (if i == 0 then null else rest[i - 1])
      ensures rest[i].next == (if i == |rest| - 1 then null else rest[i + 1])
    {
      assert rest[i] == nodes[if i < k then i else i + 1];
    }
  }

  function Without<T>(s: seq<T>, k: nat): seq<T>
    requires k < |s|
  {
    s[..k] + s[k + 1..]
  }

  // The other nodes hold the other records.
  lemma WithoutHeld(nodes: seq<Crec>, recs: seq<Rec>, k: nat)
    requires |recs| == |nodes| && k < |nodes| && forall i :: 0 <= i < |nodes| ==> nodes[i].rec == recs[i]
    ensures var a, b := Without(nodes, k), Without(recs, k);
            |a| == |b| == |nodes| - 1 && forall i :: 0 <= i < |a| ==> a[i] in nodes && a[i].rec == b[i]
  {
  }

  class Cache {
    var head: Crec?
    var tail: Crec?
    var size: nat
    var inserted: nat
    var liveFreed: nat
    var bigFree: seq<nat>
    var bigLeft: nat

    // The nodes in list order, and the records they hold.
    ghost var nodes: seq<Crec>
    ghost var recs: seq<Rec>

    ghost predicate Linked()
      reads this, nodes
    {
      && Chain(nodes, head, tail)
      && |recs| == |nodes| && forall i {:trigger nodes[i].rec} {:trigger recs[i]} :: 0 <= i < |nodes| ==> nodes[i].rec == recs[i]
    }

    ghost function Abs(): State
      reads this
    {
      State(size, recs, bigFree, bigLeft)
    }

    ghost predicate Valid()
      reads this, nodes
    {
      Linked() && Inv(Abs())
    }

    // cache_link
    method Link(x: Crec)
      requires Linked() && x !in nodes
      modifies this`head, this`tail, this`nodes, this`recs, x`next, x`prev, nodes`prev
      ensures Linked()
      ensures nodes == [x] + old(nodes) && recs == [x.rec] + old(recs)
    {
      if head != null {
        head.prev := x;
      }
      x.next := head;
      x.prev := null;
      head := x;
      if tail == null {
        tail := x;
      }
      nodes, recs := [x] + nodes, [x.rec] + recs;
    }

    // cache_unlink, link by link: the neighbours of node k learn of each other.
    method Bypass(x: Crec, ghost k: nat)
      requires Chain(nodes, head, tail) && k < |nodes| && nodes[k] == x
      modifies this`head, this`tail, nodes`next, nodes`prev
      ensures Gap(nodes, k)
      ensures head == if k > 0 then nodes[0] else if |nodes| > 1 then nodes[1] else null
      ensures tail == if k < |nodes| - 1 then nodes[|nodes| - 1] else if |nodes| > 1 then nodes[|nodes| - 2] else null
    {
      if x.prev != null {
        x.prev.next := x.next;
      } else {
        head := x.next;
      }
      if x.next != null {
        x.next.prev := x.prev;
      } else {
        tail := x.prev;
      }
    }

    // cache_unlink
    method Unlink(x: Crec, ghost k: nat)
      requires Linked() && k < |nodes| && nodes[k] == x
      modifies this`head, this`tail, this`nodes, this`recs, nodes`next, nodes`prev
      ensures Linked()
      ensures nodes == Without(old(nodes), k) && recs == Without(old(recs), k)
      ensures x !in nodes
    {
      hide Chain, Gap, Without;
      Bypass(x, k);
      CloseGap(nodes, k, head, tail);
      WithoutHeld(nodes, recs, k);
      nodes, recs := Without(nodes, k), Without(recs, k);
    }

    // The tail of cache_free: x becomes the oldest entry.
    method Append(x: Crec)
      requires Linked() && x !in nodes && nodes != []
      modifies this`tail, this`nodes, this`recs, x`next, x`prev, tail`next
      ensures Linked()
      ensures nodes == old(nodes) + [x] && recs == old(recs) + [x.rec]
    {
      tail.next := x;
      x.prev := tail;
      x.next := null;
      tail := x;
      nodes, recs := nodes + [x], recs + [x.rec];
    }

    // cache_free
    method Free(x: Crec, ghost k: nat)
      requires Linked() && k < |nodes| && nodes[k] == x && |nodes| >= 2
      modifies this`head, this`tail, this`nodes, this`recs, this`bigFree, nodes
      ensures Linked()
      ensures nodes == Without(old(nodes), k) + [x]
      ensures recs == Without(old(recs), k) + [Freed(old(recs)[k])]
      ensures bigFree == if old(recs)[k].buf.Some? then [old(recs)[k].buf.value] + old(bigFree) else old(bigFree)
    {
      Unlink(x, k);
      x.rec := x.rec.(fwd := false, rev := false);
      if x.rec.buf.Some? {
        bigFree := [x.rec.buf.value] + bigFree;
        x.rec := x.rec.(buf := None);
      }
      Append(x);
    }

    // A found entry becomes the youngest.
    method MoveToHead(x: Crec, ghost k: nat)
      requires Linked() && k < |nodes| && nodes[k] == x
      modifies this`head, this`tail, this`nodes, this`recs, nodes`next, nodes`prev
      ensures Linked()
      ensures nodes == [x] + Without(old(nodes), k) && recs == [old(recs)[k]] + Without(old(recs), k)
    {
      Unlink(x, k);
      assert forall i :: 0 <= i < |nodes| ==> nodes[i] in old(nodes);
      hide Chain;
      Link(x);
    }

    method Drop(x: Crec, w: Sweep, ghost k: nat)
      requires Linked() && k < |nodes| && nodes[k] == x && |nodes| >= 2
      modifies this`head, this`tail, this`nodes, this`recs, this`bigFree, nodes
      ensures Linked()
      ensures nodes == Without(old(nodes), k) + [x]
      ensures recs == Without(old(recs), k) + [After(w, old(recs)[k])]
      ensures bigFree == if old(recs)[k].buf.Some? then [old(recs)[k].buf.value] + old(bigFree) else old(bigFree)
    {
      Free(x, k);
      if w.Rollback? {
        x.rec := x.rec.(isNew := false);
        recs := recs[|recs| - 1 := x.rec];
      }
    }

    // One turn of any of the five walking loops, standing on node x at position k.
    method Visit(x: Crec, w: Sweep, ghost k: nat) returns (tmp: Crec?)
      requires Linked() && k < |nodes| && nodes[k] == x && |nodes| >= 2
      modifies this`head, this`tail, this`nodes, this`recs, this`bigFree, nodes
      ensures Linked() && SameNodes(nodes, old(nodes))
      ensures Visited(w, k, old(recs), old(bigFree), recs, bigFree)
      ensures tmp == if k + 1 == |nodes| then null else nodes[if Decide(w, old(recs)[k]).Release? then k else k + 1]
    {
      tmp := x.next;
      ghost var was := nodes;
      assert tmp == if k + 1 == |was| then null else was[k + 1];
      MovedNodes(was, k);
      hide Chain, SameNodes, Without;
      match Decide(w, x.rec) {
        case Stay =>
        case Promote => MoveToHead(x, k);
        case Release => Drop(x, w, k);
      }
    }

    // The same turn, seen from the walk: i records of `all` visited so far.
    method Advance(x: Crec, w: Sweep, ghost all: seq<Rec>, ghost i: nat, ghost k: nat, ghost free: seq<nat>)
      returns (tmp: Crec?, ghost i': nat, ghost k': nat)
      requires Linked() && |nodes| >= 2 && k < |nodes| && nodes[k] == x
      requires Reached(all, w, i, k, free, recs, bigFree)
      modifies this`head, this`tail, this`nodes, this`recs, this`bigFree, nodes
      ensures Linked()
      ensures SameNodes(nodes, old(nodes))
      ensures k' <= |nodes| && tmp == if k' == |nodes| then null else nodes[k']
      ensures Reached(all, w, i', k', free, recs, bigFree)
      ensures i' > i || (i' == i && k' > k)
    {
      tmp := Visit(x, w, k);
      if i < |all| {
        Turn(all, w, i, k, free, old(recs), old(bigFree), recs, bigFree);
        i', k' := i + 1, if Decide(w, all[i]).Release? && k + 1 < |all| then k else k + 1;
      } else {
        TurnAgain(all, w, k, free, old(recs), old(bigFree), recs, bigFree);
        i', k' := i, k + 1;
      }
    }

    /** Walks the list from the head, saving `next` before each node is moved. Released nodes
        go to the tail and are met a second time; the walk still ends, having rearranged the
        list as Arrange says. */
    method Walk(w: Sweep)
      requires Linked() && |nodes| >= 2
      modifies this`head, this`tail, this`nodes, this`recs, this`bigFree, nodes
      ensures Linked()
      ensures recs == Arrange(old(recs), w) && bigFree == Reclaim(old(recs), w, old(bigFree))
      ensures SameNodes(nodes, old(nodes))
    {
      ghost var all, free := recs, bigFree;
      ghost var i: nat, k: nat := 0, 0;
      var crecp := head;
      assert all[..0] == [] && all == all[0..];
      while crecp != null
        invariant Linked() && |nodes| == |all| && SameNodes(nodes, old(nodes))
        invariant k <= |nodes| && crecp == if k == |nodes| then null else nodes[k]
        invariant Reached(all, w, i, k, free, recs, bigFree)
        decreases |all| - i, |nodes| - k
      {
        assert forall j :: 0 <= j < |nodes| ==> nodes[j] in old(nodes);
        crecp, i, k := Advance(crecp, w, all, i, k, free);
      }
      MidwayEnd(all, w, i, k, free, recs, bigFree);
    }

    // ---- the interface of cache.c

    // cache_init
    constructor (n: nat)
      requires n >= 3
      ensures Valid() && Abs() == Init(n) && fresh(nodes)
    {
      head, tail := null, null;
      size := n;
      bigFree := [];
      bigLeft := n / 10;
      inserted, liveFreed := 0, 0;
      nodes, recs := [], [];
      new;
      var i := 0;
      while i < n
        invariant i <= n && Linked() && recs == Blanks(i) && fresh(nodes)
        invariant size == n && bigFree == [] && bigLeft == n / 10
      {
        var x := new Crec(BLANK);
        BlanksShift(i);
        Link(x);
        i := i + 1;
      }
      ReachableInv(n, []);
    }

    method Unmark(x: Crec, ghost k: nat)
      requires Linked() && k < |nodes| && nodes[k] == x
      modifies this`recs, x`rec
      ensures Linked() && recs == old(recs)[k := old(recs)[k].(isNew := false)]
    {
      x.rec := x.rec.(isNew := false);
      recs := recs[k := x.rec];
    }

    // cache_start_insert
    method StartInsert()
      requires Valid()
      modifies this`recs, nodes`rec
      ensures Valid() && Abs() == old(Abs()).(recs := Settled(old(recs)))
    {
      StartInv(Abs());
      hide Inv;
      UnmarkAll();
    }

    method UnmarkAll()
      requires Linked()
      modifies this`recs, nodes`rec
      ensures Linked() && recs == Settled(old(recs))
    {
      hide PartlySettled, Settled;
      ghost var all := recs;
      ghost var i: nat := 0;
      var crecp := head;
      SettledStart(all);
      while crecp != null
        invariant Linked() && i <= |all| == |nodes| && crecp == if i == |nodes| then null else nodes[i]
        invariant PartlySettled(all, i, recs)
        decreases |all| - i
      {
        SettledStep(all, i, recs);
        Unmark(crecp, i);
        crecp := crecp.next;
        i := i + 1;
      }
      SettledEnd(all, recs);
    }

    // cache_end_insert
    method EndInsert(failed: bool)
      requires Valid()
      modifies this`head, this`tail, this`nodes, this`recs, this`bigFree, nodes
      ensures Valid() && Abs() == CacheTransactions.EndInsert(old(Abs()), failed)
      ensures SameNodes(nodes, old(nodes))
    {
      if failed {
        SweptInv(Abs(), Rollback);
        OrdinaryBound(recs);
        Walk(Rollback);
      }
    }

    // Detach the last node; the one in front of it becomes the tail.
    method DropTail() returns (x: Crec)
      requires Linked() && |nodes| >= 2
      modifies this`tail, this`nodes, this`recs, nodes`next
      ensures Linked() && x !in nodes && x == old(nodes)[|old(nodes)| - 1] && x.rec == old(recs)[|old(nodes)| - 1]
      ensures nodes == old(nodes)[..|old(nodes)| - 1] && recs == old(recs)[..|old(nodes)| - 1]
    {
      x := tail;
      tail := tail.prev;
      tail.next := null;
      nodes, recs := nodes[..|nodes| - 1], recs[..|recs| - 1];
    }

    method TailRec() returns (r: Rec)
      requires Linked() && nodes != []
      ensures r == recs[|recs| - 1]
    {
      r := tail.rec;
    }

    method TailIsLocal() returns (b: bool)
      requires Linked() && nodes != []
      ensures |recs| == |nodes| && b == !Ordinary(recs[|recs| - 1])
    {
      b := tail.rec.hosts || tail.rec.dhcp;
    }

    // Push the last record back to the top.
    method PushUp()
      requires Linked() && |nodes| >= 2
      modifies this`head, this`tail, this`nodes, this`recs, nodes`next, nodes`prev
      ensures Linked() && SameNodes(nodes, old(nodes)) && recs == Pushed(old(recs))
    {
      var x := DropTail();
      assert x in old(nodes);
      Link(x);
    }

    // The do-while loop of cache_insert, up to the point where an ordinary record is last.
    method RotateToOrdinary()
      requires Linked() && |nodes| >= 2 && OrdinaryCount(recs) > 0
      modifies this`head, this`tail, this`nodes, this`recs, nodes`next, nodes`prev
      ensures Linked() && recs == Rotated(old(recs)) && SameNodes(nodes, old(nodes))
    {
      hide *;
      RotateStart(recs, nodes);
      var isLocal := TailIsLocal();
      while isLocal
        invariant Linked() && SameNodes(nodes, old(nodes)) && |nodes| == |recs| >= 2
        invariant isLocal == !Ordinary(recs[|recs| - 1])
        invariant Trailing(recs) < |recs| && Rotated(recs) == Rotated(old(recs))
        decreases Trailing(recs)
      {
        ghost var was := nodes;
        SameIndex(was, old(nodes));
        PushedRotated(recs);
        PushUp();
        SameIndex(nodes, was);
        SameTrans(nodes, was, old(nodes));
        isLocal := TailIsLocal();
      }
      OrdinaryLast(recs);
    }

    // cache_insert; `mallocOk` is whether malloc would find room for a long name.
    method Insert(q: Request, now: int, mallocOk: bool, fail: bool) returns (failed: bool)
      requires Valid()
      modifies this, nodes
      ensures Valid() && SameNodes(nodes, old(nodes))
      ensures if fail then Abs() == old(Abs()) && failed
              else Outcome(Abs(), failed) == CacheRuns.Insert(old(Abs()), q, now, mallocOk)
      ensures inserted == old(inserted) + if failed then 0 else 1
    {
      hide *;
      Opened();
      InsertShape(Abs(), q, now, mallocOk, nodes);
      if fail {
        return true;
      }
      MakeRoom(q, now);
      ghost var mid := nodes;
      SameIndex(mid, old(nodes));
      failed := Fill(q, now, mallocOk);
      SameTrans(nodes, mid, old(nodes));
      Closed();
    }

    lemma Opened()
      requires Valid()
      ensures Linked() && Inv(Abs()) && |nodes| == |Abs().recs| && Abs() == State(size, recs, bigFree, bigLeft)
    {
    }

    lemma AbsIs()
      ensures Abs() == State(size, recs, bigFree, bigLeft)
    {
    }

    lemma Closed()
      requires Linked() && Inv(Abs())
      ensures Valid()
    {
    }

    // The first two loops of cache_insert: purge, then bring the victim to the end.
    method MakeRoom(q: Request, now: int)
      requires Linked() && |nodes| >= 2 && OrdinaryCount(Abs().recs) > 0
      modifies this`head, this`tail, this`nodes, this`recs, this`bigFree, nodes
      ensures Linked() && SameNodes(nodes, old(nodes)) && Abs() == Purged(old(Abs()), q, now)
    {
      hide Chain, Arrange, Reclaim, Rotated, SameNodes;
      OrdinaryArrange(recs, Purge(KeyOf(q), now));
      Walk(Purge(KeyOf(q), now));
      ghost var mid := nodes;
      SameIndex(mid, old(nodes));
      RotateToOrdinary();
      SameTrans(nodes, mid, old(nodes));
    }

    // A buffer for a long name, from the free list or by allocation; a short name takes none.
    method TakeBuffer(q: Request, mallocOk: bool) returns (ok: bool, buf: Option<nat>)
      requires bigLeft <= size / 10
      modifies this`bigFree, this`bigLeft
      ensures ok == !NoBuffer(old(Abs()), q, mallocOk)
      ensures if ok then (Abs(), buf) == Take(old(Abs()), q) else Abs() == old(Abs())
    {
      ok, buf := true, None;
      if |q.name| > SMALLDNAME - 1 {
        if bigFree != [] {
          buf := Some(bigFree[0]);
          bigFree := bigFree[1..];
        } else if bigLeft == 0 || !mallocOk {
          ok := false;
        } else {
          buf := Some(size / 10 - bigLeft);
          bigLeft := bigLeft - 1;
        }
      }
    }

    method Fill(q: Request, now: int, mallocOk: bool) returns (failed: bool)
      requires Linked() && |nodes| == |Abs().recs| >= 3 && Abs().bigLeft <= Abs().size / 10
      modifies this, nodes
      ensures Linked() && SameNodes(nodes, old(nodes)) && inserted == old(inserted) + if failed then 0 else 1
      ensures failed == (old(Abs()).recs[|old(Abs()).recs| - 1].isNew || NoBuffer(old(Abs()), q, mallocOk))
      ensures Abs() == if failed then old(Abs()) else Grab(old(Abs()), q, now)
    {
      hide Chain, Arrange, Reclaim, NewRec, NoBuffer, Take;
      var last := TailRec();
      failed := last.isNew;
      if !failed {
        var ok, buf := TakeBuffer(q, mallocOk);
        failed := !ok;
        if ok {
          Store(q, now, buf);
        }
      }
    }

    // The rest of cache_insert: grab the last record, clear its key, refill it.
    method Store(q: Request, now: int, buf: Option<nat>)
      requires Linked() && |nodes| >= 3
      modifies this`head, this`tail, this`nodes, this`recs, this`bigFree, this`liveFreed, this`inserted, nodes
      ensures Linked() && SameNodes(nodes, old(nodes)) && inserted == old(inserted) + 1
      ensures var n := |old(recs)| - 1;
              var rest, v := old(recs)[..n], old(recs)[n];
              && recs == [NewRec(q, buf, now, v)] + Arrange(rest, Evict(v))
              && bigFree == Reclaim(rest, Evict(v), old(bigFree))
    {
      var x := DropTail();
      ghost var rest := nodes;
      assert old(nodes) == rest + [x] && x in old(nodes);
      assert forall i :: 0 <= i < |nodes| ==> nodes[i] in old(nodes);
      Recycle(x, q, now, buf);
      SameRotated(old(nodes), rest, nodes[1..], x);
    }

    method Recycle(x: Crec, q: Request, now: int, buf: Option<nat>)
      requires Linked() && |nodes| >= 2 && x !in nodes
      modifies this`head, this`tail, this`nodes, this`recs, this`bigFree, this`liveFreed, this`inserted, nodes, x
      ensures Linked() && inserted == old(inserted) + 1
      ensures |nodes| > 0 && nodes[0] == x && SameNodes(nodes[1..], old(nodes))
      ensures recs == [NewRec(q, buf, now, old(x.rec))] + Arrange(old(recs), Evict(old(x.rec)))
      ensures bigFree == Reclaim(old(recs), Evict(old(x.rec)), old(bigFree))
    {
      EvictOthers(x.rec);
      assert forall i :: 0 <= i < |nodes| ==> nodes[i] in old(nodes);
      Refill(x, NewRec(q, buf, now, x.rec));
    }

    method Refill(x: Crec, r: Rec)
      requires Linked() && x !in nodes
      modifies this`head, this`tail, this`nodes, this`recs, this`inserted, x, nodes`prev
      ensures Linked() && nodes == [x] + old(nodes) && recs == [r] + old(recs) && inserted == old(inserted) + 1
    {
      x.rec := r;
      Link(x);
      inserted := inserted + 1;
    }

    // The records that share a key with the victim are freed too.
    method EvictOthers(v: Rec)
      requires Linked() && |nodes| >= 2
      modifies this`head, this`tail, this`nodes, this`recs, this`bigFree, this`liveFreed, nodes
      ensures Linked() && SameNodes(nodes, old(nodes))
      ensures recs == Arrange(old(recs), Evict(v)) && bigFree == Reclaim(old(recs), Evict(v), old(bigFree))
    {
      if v.fwd || v.rev {
        liveFreed := liveFreed + 1;
        Walk(Evict(v));
      } else {
        EvictNothing(recs, v, bigFree);
      }
    }

    // ---- /etc/hosts and DHCP

    // One /etc/hosts name, as cache_reload links it.
    method AddHost(name: string, addr: Addr, v6: bool, canonical: bool)
      requires Valid()
      modifies this`head, this`tail, this`nodes, this`recs, nodes`prev
      ensures Valid() && Abs() == old(Abs()).(recs := [HostRec(name, addr, v6, canonical)] + old(recs))
      ensures fresh(nodes[0]) && nodes[1..] == old(nodes)
    {
      hide Chain, Inv;
      PrependInv(Abs(), HostRec(name, addr, v6, canonical));
      var x := new Crec(HostRec(name, addr, v6, canonical));
      Link(x);
    }

    // One turn of the clearing loop of cache_reload, on node k.
    method ClearOne(x: Crec, ghost k: nat) returns (tmp: Crec?)
      requires Linked() && k < |nodes| && nodes[k] == x
      modifies this`head, this`tail, this`nodes, this`recs, this`bigFree, nodes
      ensures Linked()
      ensures var r := old(recs)[k];
              && nodes == (if r.hosts then Without(old(nodes), k) else old(nodes))
              && recs == (if r.hosts then Without(old(recs), k) else if r.dhcp then old(recs) else old(recs)[k := Wiped(r)])
              && bigFree == (if Ordinary(r) && r.buf.Some? then [r.buf.value] + old(bigFree) else old(bigFree))
              && var k' := if r.hosts then k else k + 1;
                 && |nodes| == |recs| && tmp == (if k' == |nodes| then null else nodes[k'])
      ensures Within(nodes, old(nodes))
    {
      tmp := x.next;
      if x.rec.hosts {
        Unlink(x, k);
      } else if !x.rec.dhcp {
        if x.rec.buf.Some? {
          bigFree := [x.rec.buf.value] + bigFree;
        }
        x.rec := Wiped(x.rec);
        recs := recs[k := x.rec];
      }
    }

    // One turn of the clearing loop: record i of the old list, at position k of the present one.
    method ClearNext(x: Crec, ghost all: seq<Rec>, ghost i: nat, ghost k: nat, ghost free: seq<nat>, ghost base: seq<Crec>)
      returns (tmp: Crec?, ghost k': nat)
      requires Linked() && Within(nodes, base) && |nodes| == |recs| && k < |nodes| && nodes[k] == x
      requires PartlyCleared(all, i, k, free, recs, bigFree)
      modifies this`head, this`tail, this`nodes, this`recs, this`bigFree, nodes
      ensures Linked() && Within(nodes, base) && |nodes| == |recs|
      ensures k' <= |nodes| && tmp == if k' == |nodes| then null else nodes[k']
      ensures i < |all| && PartlyCleared(all, i + 1, k', free, recs, bigFree)
    {
      hide Linked, PartlyCleared, Within, Without, Wiped;
      ghost var was := nodes;
      PartlyClearedStep(all, i, k, free, recs, bigFree);
      k' := if all[i].hosts then k else k + 1;
      tmp := ClearOne(x, k);
      WithinTrans(nodes, was, base);
    }

    // The clearing loop of cache_reload.
    method Clear()
      requires Valid()
      modifies this`head, this`tail, this`nodes, this`recs, this`bigFree, nodes
      ensures Valid() && Within(nodes, old(nodes))
      ensures Abs() == old(Abs()).(recs := Cleared(old(recs)), bigFree := Refunded(old(recs), old(bigFree)))
    {
      hide Inv, Linked, Cleared, Refunded, PartlyCleared, Within, SameNodes, Without, Wiped;
      ReloadInv(Abs());
      ghost var all, free := recs, bigFree;
      ghost var i: nat, k: nat := 0, 0;
      PartlyClearedStart(all, free);
      var crecp := First();
      while crecp != null
        invariant Linked() && Within(nodes, old(nodes)) && |nodes| == |recs|
        invariant k <= |nodes| && crecp == if k == |nodes| then null else nodes[k]
        invariant PartlyCleared(all, i, k, free, recs, bigFree)
        decreases |all| - i
      {
        WithinIndex(nodes, old(nodes));
        crecp, k := ClearNext(crecp, all, i, k, free, old(nodes));
        i := i + 1;
      }
      PartlyClearedEnd(all, i, k, free, recs, bigFree);
    }

    method First() returns (x: Crec?)
      requires Linked()
      ensures |nodes| == |recs| && x == (if |nodes| == 0 then null else nodes[0]) && Within(nodes, nodes)
    {
      x := head;
    }

    // One turn of the loop of cache_clear_dhcp, on node k, when i records of `all` have been seen.
    method DetachDhcp(x: Crec, spares: seq<Crec>, ghost all: seq<Rec>, ghost i: nat, ghost k: nat, ghost base: seq<Crec>)
      returns (tmp: Crec?, spares': seq<Crec>, ghost k': nat)
      requires Linked() && k < |nodes| && nodes[k] == x && Apart(spares, nodes) && PartlyDhcp(all, i, k, recs)
      requires Within(spares, base) && Within(nodes, base)
      modifies this`head, this`tail, this`nodes, this`recs, nodes
      ensures Linked() && Within(nodes, base) && Apart(spares', nodes)
      ensures Within(spares', base) && |spares'| + |nodes| == |spares| + |old(nodes)|
      ensures i < |all| && PartlyDhcp(all, i + 1, k', recs)
      ensures k' <= |nodes| == |recs| && tmp == if k' == |nodes| then null else nodes[k']
    {
      PartlyDhcpStep(all, i, k, recs);
      assert x in nodes && x !in spares;
      tmp := x.next;
      spares', k' := spares, k + 1;
      if x.rec.dhcp {
        Unlink(x, k);
        spares', k' := [x] + spares, k;
      }
    }

    // cache_clear_dhcp: the DHCP records leave the list and are handed over as spares.
    method ClearDhcp() returns (spares: seq<Crec>)
      requires Valid()
      modifies this`head, this`tail, this`nodes, this`recs, nodes
      ensures Valid() && Abs() == old(Abs()).(recs := WithoutDhcp(old(recs)))
      ensures Within(nodes, old(nodes)) && Apart(spares, nodes)
      ensures Within(spares, old(nodes)) && |spares| + |nodes| == |old(nodes)|
    {
      hide *;
      Opened();
      ClearDhcpInv(Abs());
      ghost var all := recs;
      ghost var i: nat, k: nat := 0, 0;
      PartlyDhcpStart(all);
      var crecp := First();
      spares := [];
      NoSpares(nodes);
      while crecp != null
        invariant Linked() && Within(nodes, old(nodes)) && Apart(spares, nodes)
        invariant Within(spares, old(nodes)) && |spares| + |nodes| == |old(nodes)|
        invariant k <= |nodes| == |recs| && crecp == if k == |nodes| then null else nodes[k]
        invariant PartlyDhcp(all, i, k, recs)
        decreases |all| - i
      {
        WithinIndex(nodes, old(nodes));
        crecp, spares, k := DetachDhcp(crecp, spares, all, i, k, old(nodes));
        i := i + 1;
      }
      PartlyDhcpEnd(all, i, k, recs);
      AbsIs();
      Closed();
    }

    // Rewrite the record at the head in place.
    method SetHead(x: Crec, r: Rec)
      requires Linked() && nodes != [] && nodes[0] == x
      modifies this`recs, x`rec
      ensures Linked() && recs == old(recs)[0 := r]
    {
      x.rec := r;
      recs := recs[0 := r];
    }

    method LinkRecord(x: Crec, r: Rec)
      requires Linked() && x !in nodes
      modifies this`head, this`tail, this`nodes, this`recs, x, nodes`prev
      ensures Linked() && nodes == [x] + old(nodes) && recs == [r] + old(recs)
    {
      x.rec := r;
      assert forall i :: 0 <= i < |nodes| ==> nodes[i] != x;
      Link(x);
    }

    // The newrec part of process_lease: build the record in a spare, or in fresh memory.
    method NewLease(l: Lease, spares: seq<Crec>, mallocOk: bool) returns (spares': seq<Crec>, ghost room: Option<Rec>)
      requires Linked() && Apart(spares, nodes)
      modifies this`head, this`tail, this`nodes, this`recs, nodes`prev, spares
      ensures Linked() && Apart(spares', nodes) && Within(spares', spares)
      ensures room == if |l.host| < SMALLDNAME - 1 && spares != [] then Some(old(spares[0].rec))
                      else if mallocOk then Some(BLANK) else None
      ensures recs == if room.Some? then [LeaseRec(l, room.value)] + old(recs) else old(recs)
    {
      spares' := spares;
      if |l.host| < SMALLDNAME - 1 && spares != [] {
        var x := spares[0];
        assert x in spares;
        spares', room := spares[1..], Some(x.rec);
        LinkRecord(x, LeaseRec(l, x.rec));
      } else if mallocOk {
        var x := new Crec(BLANK);
        room := Some(BLANK);
        LinkRecord(x, LeaseRec(l, x.rec));
      } else {
        room := None;
      }
    }

    // What process_lease does with the entry it found; returns whether a new record is needed.
    method Clash(x: Crec, l: Lease) returns (build: bool)
      requires Linked() && nodes != [] && nodes[0] == x
      modifies this`recs, x`rec
      ensures Linked() && (recs, build) == LeaseClash(old(recs), l)
    {
      build := false;
      if x.rec.hosts {
      } else if !x.rec.dhcp {
        if x.rec.neg {
          SetHead(x, x.rec.(fwd := false));
          build := true;
        }
      } else if l.ttd > x.rec.ttd || l.ttd == -1 {
        SetHead(x, x.rec.(addr := Addr(l.word, x.rec.addr.rest),
                          immortal := x.rec.immortal || l.ttd == -1,
                          ttd := if l.ttd == -1 then x.rec.ttd else l.ttd));
      }
    }

    // The lookup of process_lease: whoever holds the name is at the head of the list.
    method FindHolder(host: string, ghost spares: seq<Crec>) returns (found: Crec?)
      requires Valid() && Apart(spares, nodes)
      modifies this`head, this`tail, this`nodes, this`recs, this`bigFree, nodes
      ensures Linked() && SameNodes(nodes, old(nodes)) && Apart(spares, nodes) && Abs() == Swept(old(Abs()), Lookup(Query(Name(host), OnlyV4), 0))
      ensures match Holder(old(recs), host)
              case None => found == null && !(recs != [] && Hits(recs[0], Query(Name(host), OnlyV4)))
              case Some(h) => nodes != [] && found == nodes[0] && recs != [] && recs[0] == h && Hits(recs[0], Query(Name(host), OnlyV4))
    {
      hide Linked, Inv, Swept, SameNodes, Apart, Hits, Holder;
      HolderLeads(Abs(), host);
      ghost var was := nodes;
      found := Find(null, Query(Name(host), OnlyV4), 0, 0);
      Opened();
      SameApart(spares, was, nodes);
    }

    // process_lease
    method ProcessLease(l: Lease, spares: seq<Crec>, mallocOk: bool) returns (spares': seq<Crec>, ghost room: Option<Rec>)
      requires Valid() && Apart(spares, nodes)
      modifies this`head, this`tail, this`nodes, this`recs, this`bigFree, nodes, spares
      ensures Valid() && Apart(spares', nodes)
      ensures Abs() == Leased(old(Abs()), l, room)
      ensures room.Some? <==> NeedsRecord(old(recs), l.host) && ((|l.host| < SMALLDNAME - 1 && spares != []) || mallocOk)
    {
      hide Linked, Inv, Swept, Within, SameNodes, Apart, LeaseRec, Hits, Without, Leased, LeaseClash, Holder;
      ghost var was := nodes;
      var found := FindHolder(l.host, spares);
      SameIndex(nodes, was);
      var build := true;
      if found != null {
        ClashBuilds(recs, l);
        build := Clash(found, l);
      }
      spares', room := spares, None;
      if build {
        spares', room := NewLease(l, spares, mallocOk);
      }
      LeasedInv(old(Abs()), l, room);
      LeasedShape(old(Abs()), l, room);
    }

    // The iterating half of both find functions, standing on node k.
    method Next(crecp: Crec, q: Query, ghost k: nat) returns (found: Crec?)
      requires Linked() && k < |nodes| && nodes[k] == crecp
      ensures found == if k + 1 < |nodes| && Hits(recs[k + 1], q) then nodes[k + 1] else null
    {
      found := if crecp.next != null && Hits(crecp.next.rec, q) then crecp.next else null;
    }

    // cache_find_by_name and cache_find_by_addr: without a node they search, with one (node k) they move on.
    method Find(crecp: Crec?, q: Query, now: int, ghost k: nat) returns (found: Crec?)
      requires Valid() && (crecp != null ==> k < |nodes| && nodes[k] == crecp)
      modifies this`head, this`tail, this`nodes, this`recs, this`bigFree, nodes
      ensures Valid() && SameNodes(nodes, old(nodes)) && nodes != []
      ensures if crecp == null then
                && Abs() == Swept(old(Abs()), Lookup(q, now))
                && found == if Hits(recs[0], q) then nodes[0] else null
              else
                && nodes == old(nodes) && Abs() == old(Abs())
                && found == if k + 1 < |nodes| && Hits(recs[k + 1], q) then nodes[k + 1] else null
    {
      OrdinaryBound(recs);
      if crecp != null {
        found := Next(crecp, q, k);
        return;
      }
      SweptInv(Abs(), Lookup(q, now));
      Walk(Lookup(q, now));
      found := if head != null && Hits(head.rec, q) then head else null;
    }

    // Following `next` from the head while the records hit.
    method Collect(first: Crec?, q: Query, ghost n: nat) returns (found: seq<Rec>)
      requires Linked() && n <= |recs| && forall i :: 0 <= i < |recs| ==> (Hits(recs[i], q) <==> i < n)
      requires first == if n > 0 then nodes[0] else null
      ensures found == recs[..n]
    {
      found := [];
      var crecp := first;
      while crecp != null
        invariant |found| <= n && found == recs[..|found|]
        invariant crecp == if |found| < n then nodes[|found|] else null
        decreases n - |found|
      {
        ghost var k := |found|;
        found := found + [crecp.rec];
        crecp := Next(crecp, q, k);
      }
    }

    /** The loop around cache_find_by_name or cache_find_by_addr in answer_request: the records
        it sees are exactly those of the multimap that match and are fresh, each once. */
    method FindAll(q: Query, now: int) returns (found: seq<Rec>)
      requires Valid()
      modifies this`head, this`tail, this`nodes, this`recs, this`bigFree, nodes
      ensures Valid() && SameNodes(nodes, old(nodes))
      ensures Abs() == Swept(old(Abs()), Lookup(q, now)) && found == Front(old(recs), Lookup(q, now))
      ensures forall r :: Times(found, r) == if Matches(r, q, now) then Times(old(recs), r) else 0
    {
      ghost var front := Front(recs, Lookup(q, now));
      HitsLead(recs, q, now);
      forall r ensures Times(front, r) == if Matches(r, q, now) then Times(recs, r) else 0 {
        FrontTimes(recs, q, now, r);
      }
      var first := Find(null, q, now, 0);
      assert recs[..|front|] == front;
      found := Collect(first, q, |front|);
    }
  }

  // What the two halves of cache_insert need to know of a sound state.
  lemma {:induction false} InsertShape(st: State, q: Request, now: int, ok: bool, nodes: seq<Crec>)
    requires Inv(st)
    ensures |st.recs| >= 3 && OrdinaryCount(st.recs) > 0 && SameNodes(nodes, nodes)
    ensures Inv(CacheRuns.Insert(st, q, now, ok).st)
    ensures var s := Purged(st, q, now);
            && |s.recs| == |st.recs| && s.size == st.size && s.bigLeft == st.bigLeft <= s.size / 10
            && CacheRuns.Insert(st, q, now, ok) ==
                 if s.recs[|s.recs| - 1].isNew || NoBuffer(s, q, ok) then Outcome(s, true)
                 else Outcome(Grab(s, q, now), false)
  {
    hide RecOk, Arrange, Reclaim;
    OrdinaryBound(st.recs);
    InsertInv(st, q, now, ok);
    PurgedLength(st, q, now);
  }

  lemma PurgedLength(st: State, q: Request, now: int)
    ensures |Purged(st, q, now).recs| == |st.recs|
  {
    ArrangeLength(st.recs, Purge(KeyOf(q), now));
  }

  lemma {:induction false} RotateStart(s: seq<Rec>, nodes: seq<Crec>)
    requires OrdinaryCount(s) > 0
    ensures Trailing(s) < |s| && SameNodes(nodes, nodes)
  {
    OrdinaryExists(s);
  }

  lemma OrdinaryLast(s: seq<Rec>)
    requires s != [] && Ordinary(s[|s| - 1])
    ensures Rotated(s) == s
  {
    assert s[..|s|] == s && s[|s|..] == [];
  }

  function Pushed(s: seq<Rec>): seq<Rec>
    requires s != []
  {
    [s[|s| - 1]] + s[..|s| - 1]
  }

  // One turn of the victim loop: fewer hosts and DHCP records behind the last ordinary one.
  lemma {:induction false} PushedRotated(s: seq<Rec>)
    requires Trailing(s) < |s| && !Ordinary(s[|s| - 1])
    ensures var t := Pushed(s);
            Trailing(t) == Trailing(s) - 1 && Trailing(t) < |t| && Rotated(t) == Rotated(s)
  {
    hide Ordinary;
    PushedTrailing(s);
    SlideSeq(s, Trailing(s));
  }

  lemma {:induction false} SlideSeq<T>(s: seq<T>, n: nat)
    requires 0 < n < |s|
    ensures var m, t := |s|, [s[|s| - 1]] + s[..|s| - 1];
            t[m - n + 1..] + t[..m - n + 1] == s[m - n..] + s[..m - n]
  {
    var m, t := |s|, [s[|s| - 1]] + s[..|s| - 1];
    assert t[m - n + 1..] == s[m - n..m - 1];
    assert t[..m - n + 1] == [s[m - 1]] + s[..m - n];
    assert s[m - n..] == s[m - n..m - 1] + [s[m - 1]];
  }

  lemma {:induction false} PushedTrailing(s: seq<Rec>)
    requires Trailing(s) < |s| && !Ordinary(s[|s| - 1])
    ensures Trailing(Pushed(s)) == Trailing(s) - 1
  {
    var t, n, m := Pushed(s), Trailing(s), |s|;
    assert t[m - n] == s[m - n - 1];
    forall i | m - n + 1 <= i < m ensures !Ordinary(t[i]) { assert t[i] == s[i - 1]; }
    TrailingIs(t, n - 1);
  }

  lemma {:induction false} TrailingIs(s: seq<Rec>, n: nat)
    requires n < |s| && Ordinary(s[|s| - n - 1]) && forall i :: |s| - n <= i < |s| ==> !Ordinary(s[i])
    ensures Trailing(s) == n
  {
    if n > 0 { TrailingIs(s[..|s| - 1], n - 1); }
  }

  // The record found under the lease's name, and whether a new record is needed beside it.
  ghost function LeaseClash(recs: seq<Rec>, l: Lease): (seq<Rec>, bool)
    requires recs != []
  {
    var r := recs[0];
    if r.hosts then (recs, false)
    else if !r.dhcp then if r.neg then (recs[0 := r.(fwd := false)], true) else (recs, false)
    else if l.ttd > r.ttd || l.ttd == -1 then
      (recs[0 := r.(addr := Addr(l.word, r.addr.rest), immortal := r.immortal || l.ttd == -1,
                    ttd := if l.ttd == -1 then r.ttd else l.ttd)], false)
    else (recs, false)
  }

  lemma ClashBuilds(recs: seq<Rec>, l: Lease)
    requires recs != []
    ensures LeaseClash(recs, l).1 <==> Ordinary(recs[0]) && recs[0].neg
  {
  }

  lemma {:induction false} LeasedShape(st: State, l: Lease, room: Option<Rec>)
    ensures var q := Query(Name(l.host), OnlyV4);
            var s := Swept(st, Lookup(q, 0));
            var (t, build) := if s.recs != [] && Hits(s.recs[0], q) then LeaseClash(s.recs, l) else (s.recs, true);
            Leased(st, l, room) == s.(recs := if build && room.Some? then [LeaseRec(l, room.value)] + t else t)
  {
    hide Swept, Hits, LeaseRec;
    var s := Swept(st, Lookup(Query(Name(l.host), OnlyV4), 0));
    assert [] + s.recs == s.recs;
    if s.recs != [] {
      assert [] + s.recs[0 := s.recs[0].(fwd := false)] == s.recs[0 := s.recs[0].(fwd := false)];
    }
  }

  lemma SameApart(a: seq<Crec>, b: seq<Crec>, c: seq<Crec>)
    requires Apart(a, b) && SameNodes(c, b)
    ensures Apart(a, c)
  {
  }

  // The clearing loop after i records, standing on position k.
  ghost predicate PartlyCleared(all: seq<Rec>, i: nat, k: nat, free: seq<nat>, recs: seq<Rec>, pool: seq<nat>) {
    && i <= |all| && k == |Cleared(all[..i])| && recs == Cleared(all[..i]) + all[i..]
    && pool == Refunded(all[..i], free)
  }

  lemma {:induction false} PartlyClearedStart(all: seq<Rec>, free: seq<nat>)
    ensures PartlyCleared(all, 0, 0, free, all, free)
  {
    assert all[..0] == [] && all[0..] == all;
  }

  lemma {:induction false} PartlyClearedStep(all: seq<Rec>, i: nat, k: nat, free: seq<nat>, recs: seq<Rec>, pool: seq<nat>)
    requires PartlyCleared(all, i, k, free, recs, pool) && k < |recs|
    ensures i < |all| && recs[k] == all[i]
    ensures var r := all[i];
            var recs' := if r.hosts then Without(recs, k) else if r.dhcp then recs else recs[k := Wiped(r)];
            var pool' := if Ordinary(r) && r.buf.Some? then [r.buf.value] + pool else pool;
            PartlyCleared(all, i + 1, if r.hosts then k else k + 1, free, recs', pool')
  {
    assert all[..i + 1][..i] == all[..i];
    assert all[i..] == [all[i]] + all[i + 1..];
  }

  lemma {:induction false} PartlyClearedEnd(all: seq<Rec>, i: nat, k: nat, free: seq<nat>, recs: seq<Rec>, pool: seq<nat>)
    requires PartlyCleared(all, i, k, free, recs, pool) && k == |recs|
    ensures recs == Cleared(all) && pool == Refunded(all, free)
  {
    assert all[..|all|] == all && all[|all|..] == [];
  }

  ghost predicate PartlyDhcp(all: seq<Rec>, i: nat, k: nat, recs: seq<Rec>) {
    i <= |all| && k == |WithoutDhcp(all[..i])| && recs == WithoutDhcp(all[..i]) + all[i..]
  }

  lemma {:induction false} PartlyDhcpStart(all: seq<Rec>)
    ensures PartlyDhcp(all, 0, 0, all)
  {
    assert all[..0] == [] && all[0..] == all;
  }

  lemma {:induction false} PartlyDhcpStep(all: seq<Rec>, i: nat, k: nat, recs: seq<Rec>)
    requires PartlyDhcp(all, i, k, recs) && k < |recs|
    ensures i < |all| && recs[k] == all[i]
    ensures if all[i].dhcp then PartlyDhcp(all, i + 1, k, Without(recs, k)) else PartlyDhcp(all, i + 1, k + 1, recs)
  {
    assert all[..i + 1][..i] == all[..i];
    assert all[i..] == [all[i]] + all[i + 1..];
  }

  lemma {:induction false} PartlyDhcpEnd(all: seq<Rec>, i: nat, k: nat, recs: seq<Rec>)
    requires PartlyDhcp(all, i, k, recs) && k == |recs|
    ensures recs == WithoutDhcp(all)
  {
    assert all[..|all|] == all && all[|all|..] == [];
  }

  lemma {:induction false} BlanksShift(n: nat)
    ensures [BLANK] + Blanks(n) == Blanks(n + 1)
  {
    BlanksFacts(n, 0);
    BlanksFacts(n + 1, 0);
  }

  ghost predicate PartlySettled(all: seq<Rec>, i: nat, recs: seq<Rec>) {
    && i <= |all| == |recs| && |Settled(all[..i])| == i
    && recs == Settled(all[..i]) + all[i..]
  }

  lemma SettledStart(all: seq<Rec>)
    ensures PartlySettled(all, 0, all)
  {
    assert Settled(all[..0]) + all[0..] == all;
  }

  lemma SettledEnd(all: seq<Rec>, recs: seq<Rec>)
    requires PartlySettled(all, |all|, recs)
    ensures recs == Settled(all)
  {
    assert all[..|all|] == all && all[|all|..] == [];
  }

  lemma {:induction false} SettledStep(all: seq<Rec>, i: nat, recs: seq<Rec>)
    requires i < |all| && PartlySettled(all, i, recs)
    ensures PartlySettled(all, i + 1, recs[i := recs[i].(isNew := false)])
  {
    assert all[..i + 1][..i] == all[..i];
    assert Settled(all[..i + 1]) == Settled(all[..i]) + [all[i].(isNew := false)];
  }

  // Without a key there is nothing to evict.
  lemma {:induction false} EvictNothing(s: seq<Rec>, v: Rec, free: seq<nat>)
    requires !Keyed(v)
    ensures Arrange(s, Evict(v)) == s && Reclaim(s, Evict(v), free) == free
  {
    NoFront(s, Evict(v));
    EvictKeeps(s, v, free);
  }

  lemma {:induction false} EvictKeeps(s: seq<Rec>, v: Rec, free: seq<nat>)
    requires !Keyed(v)
    ensures Kept(s, Evict(v)) == s && Gone(s, Evict(v)) == [] && Reclaim(s, Evict(v), free) == free
  {
    if s != [] {
      EvictKeeps(s[..|s| - 1], v, free);
      assert s == s[..|s| - 1] + [s[|s| - 1]];
    }
  }

  // The list when the first i records of `all` have been visited.
  ghost function Midway(all: seq<Rec>, w: Sweep, i: nat): seq<Rec>
    requires i <= |all|
  {
    Front(all[..i], w) + Kept(all[..i], w) + all[i..] + Gone(all[..i], w)
  }

  // Where the walk stands: i records visited, the next one at position k of the list.
  ghost predicate Reached(all: seq<Rec>, w: Sweep, i: nat, k: nat, free: seq<nat>, recs: seq<Rec>, pool: seq<nat>) {
    && i <= |all| && |recs| == |all|
    && recs == Midway(all, w, i) && pool == Reclaim(all[..i], w, free)
    && var n := |Front(all[..i], w)| + |Kept(all[..i], w)|;
       if i < |all| then k == n else k >= n
  }

  // What Visit does to the list of records and the pool.
  ghost predicate Visited(w: Sweep, k: nat, recs: seq<Rec>, pool: seq<nat>, recs': seq<Rec>, pool': seq<nat>)
    requires k < |recs|
  {
    match Decide(w, recs[k])
    case Stay => recs' == recs && pool' == pool
    case Promote => recs' == [recs[k]] + Without(recs, k) && pool' == pool
    case Release =>
      && recs' == Without(recs, k) + [After(w, recs[k])]
      && pool' == if recs[k].buf.Some? then [recs[k].buf.value] + pool else pool
  }

  ghost predicate Moved(all: seq<Rec>, w: Sweep, i: nat, k: nat, free: seq<nat>, recs': seq<Rec>, pool': seq<nat>)
    requires i < |all|
  {
    if !Decide(w, all[i]).Release? then Reached(all, w, i + 1, k + 1, free, recs', pool')
    else
      && Reached(all, w, i + 1, k, free, recs', pool')
      && (k + 1 == |all| ==> i + 1 == |all| && Reached(all, w, i + 1, |all|, free, recs', pool'))
  }

  lemma {:induction false} Turn(all: seq<Rec>, w: Sweep, i: nat, k: nat, free: seq<nat>,
             recs: seq<Rec>, pool: seq<nat>, recs': seq<Rec>, pool': seq<nat>)
    requires i < |all| && Reached(all, w, i, k, free, recs, pool) && k < |recs|
    requires Visited(w, k, recs, pool, recs', pool')
    ensures recs[k] == all[i] && Moved(all, w, i, k, free, recs', pool')
  {
    hide Decide, After, Front, Kept, Gone, Reclaim, Reached, Without;
    var f, g, h, x, t := Front(all[..i], w), Kept(all[..i], w), Gone(all[..i], w), all[i], all[i + 1..];
    OpenReached(all, w, i, k, free, recs, pool);
    Unfold(all, w, i, free);
    TurnLists(f, g, x, t, h);
    CloseReached(all, w, i + 1, if Decide(w, x).Release? then k else k + 1, free, recs', pool');
    if Decide(w, x).Release? && k + 1 == |all| { CloseReached(all, w, i + 1, |all|, free, recs', pool'); }
  }

  lemma OpenReached(all: seq<Rec>, w: Sweep, i: nat, k: nat, free: seq<nat>, recs: seq<Rec>, pool: seq<nat>)
    requires i < |all| && Reached(all, w, i, k, free, recs, pool)
    ensures var f, g, h := Front(all[..i], w), Kept(all[..i], w), Gone(all[..i], w);
            && |f| + |g| + |h| == i && k == |f| + |g| && pool == Reclaim(all[..i], w, free)
            && recs == f + g + ([all[i]] + all[i + 1..]) + h
  {
    hide Front, Kept, Gone, Reclaim;
    ArrangeLength(all[..i], w);
    assert all[i..] == [all[i]] + all[i + 1..];
  }

  lemma CloseReached(all: seq<Rec>, w: Sweep, i: nat, k: nat, free: seq<nat>, recs: seq<Rec>, pool: seq<nat>)
    requires i <= |all| && pool == Reclaim(all[..i], w, free)
    requires var f, g, h := Front(all[..i], w), Kept(all[..i], w), Gone(all[..i], w);
             recs == f + g + all[i..] + h && if i < |all| then k == |f| + |g| else k >= |f| + |g|
    ensures Reached(all, w, i, k, free, recs, pool)
  {
    hide Front, Kept, Gone, Reclaim;
    ArrangeLength(all[..i], w);
  }

  lemma {:induction false} TurnAgain(all: seq<Rec>, w: Sweep, k: nat, free: seq<nat>,
                  recs: seq<Rec>, pool: seq<nat>, recs': seq<Rec>, pool': seq<nat>)
    requires Reached(all, w, |all|, k, free, recs, pool) && k < |recs|
    requires Visited(w, k, recs, pool, recs', pool')
    ensures Decide(w, recs[k]).Stay? && Reached(all, w, |all|, k + 1, free, recs', pool')
  {
    assert all[..|all|] == all && all[|all|..] == [];
    GoneStay(all, w);
    assert recs[k] == Gone(all, w)[k - |Front(all, w)| - |Kept(all, w)|];
  }

  lemma {:induction false} TurnLists(f: seq<Rec>, g: seq<Rec>, x: Rec, t: seq<Rec>, h: seq<Rec>)
    ensures var s := f + g + ([x] + t) + h;
            && s[|f| + |g|] == x
            && s == f + (g + [x]) + t + h
            && Without(s, |f| + |g|) == f + g + t + h
            && [x] + (f + g + t + h) == ([x] + f) + g + t + h
            && forall y :: (f + g + t + h) + [y] == f + g + t + (h + [y])
  {
  }

  lemma {:induction false} Unfold(all: seq<Rec>, w: Sweep, i: nat, free: seq<nat>)
    requires i < |all|
    ensures var a, b, r := all[..i], all[..i + 1], all[i];
            && Front(b, w) == (if Decide(w, r).Promote? then [r] + Front(a, w) else Front(a, w))
            && Kept(b, w) == (if Decide(w, r).Stay? then Kept(a, w) + [r] else Kept(a, w))
            && Gone(b, w) == (if Decide(w, r).Release? then Gone(a, w) + [After(w, r)] else Gone(a, w))
            && Reclaim(b, w, free) == (if Decide(w, r).Release? && r.buf.Some?
                                       then [r.buf.value] + Reclaim(a, w, free) else Reclaim(a, w, free))
  {
    assert all[..i + 1][..i] == all[..i];
  }

  // The walk cannot run out of list before every record has been visited.
  lemma {:induction false} MidwayEnd(all: seq<Rec>, w: Sweep, i: nat, k: nat, free: seq<nat>, recs: seq<Rec>, pool: seq<nat>)
    requires Reached(all, w, i, k, free, recs, pool) && k == |recs|
    ensures recs == Arrange(all, w) && pool == Reclaim(all, w, free)
  {
    ArrangeLength(all[..i], w);
    assert all[..|all|] == all && all[|all|..] == [];
  }

  lemma {:induction false} GoneStay(s: seq<Rec>, w: Sweep)
    ensures forall i :: 0 <= i < |Gone(s, w)| ==> Decide(w, Gone(s, w)[i]).Stay?
  {
    if s != [] {
      GoneStay(s[..|s| - 1], w);
      ReleasedStay(w, s[|s| - 1]);
    }
  }
}
