/** The owner of an answer is a pointer to the question: when it still spells the question's name
    after the answer has been written behind the question section. */
module DnsOwners {
  import opened Bytes
  import opened Options
  import opened DnsNames
  import opened DnsPackets

  // Requests are read, and answers given up, at this length.
  const PACKETSZ := 512

  // Everything read while spelling lies below `limit`.
  ghost predicate Below(pkt: seq<Byte>, plen: nat, off: nat, jumps: nat, labels: seq<seq<Byte>>, limit: nat)
    requires plen <= |pkt| && Spells(pkt, plen, off, jumps, labels)
    decreases jumps, |labels|
  {
    && off < limit
    && var l := pkt[off];
       if l == 0 then true
       else if IsPointer(l) then off + 1 < limit && Below(pkt, plen, Target(pkt, off), jumps - 1, labels, limit)
       else off + 1 + l <= limit && Below(pkt, plen, off + 1 + l, jumps, labels[1..], limit)
  }

  // In a packet that ends with its questions there is nothing else to read.
  lemma {:induction false} NothingBehind(pkt: seq<Byte>, plen: nat, off: nat, jumps: nat, labels: seq<seq<Byte>>, limit: nat)
    requires plen <= |pkt| && Spells(pkt, plen, off, jumps, labels) && off < plen <= limit
    ensures Below(pkt, plen, off, jumps, labels, limit)
    decreases jumps, |labels|
  {
    var l := pkt[off];
    if l == 0 {
    } else if IsPointer(l) {
      NothingBehind(pkt, plen, Target(pkt, off), jumps - 1, labels, limit);
    } else {
      NothingBehind(pkt, plen, off + 1 + l, jumps, labels[1..], limit);
    }
  }

  lemma {:induction false} SamePrefix(a: seq<Byte>, b: seq<Byte>, limit: nat, lo: nat, hi: nat)
    requires lo <= hi <= limit <= |a| && limit <= |b| && a[..limit] == b[..limit]
    ensures a[lo..hi] == b[lo..hi]
  {
    forall i | 0 <= i < limit ensures a[i] == b[i] { assert a[..limit][i] == b[..limit][i]; }
  }

  // A name spelled below `limit` survives anything written from there on.
  lemma {:induction false} BelowSurvives(pkt: seq<Byte>, plen: nat, off: nat, jumps: nat, labels: seq<seq<Byte>>,
                                         limit: nat, out: seq<Byte>, olen: nat)
    requires plen <= |pkt| && limit < olen <= |out| && limit <= |pkt| && out[..limit] == pkt[..limit]
    requires Spells(pkt, plen, off, jumps, labels) && Below(pkt, plen, off, jumps, labels, limit)
    ensures Spells(out, olen, off, jumps, labels)
    decreases jumps, |labels|
  {
    var l := pkt[off];
    assert out[off] == out[..limit][off] == l;
    if l == 0 {
    } else if IsPointer(l) {
      assert out[off + 1] == out[..limit][off + 1] == pkt[off + 1];
      BelowSurvives(pkt, plen, Target(pkt, off), jumps - 1, labels, limit, out, olen);
    } else {
      SamePrefix(out, pkt, limit, off + 1, off + 1 + l);
      BelowSurvives(pkt, plen, off + 1 + l, jumps, labels[1..], limit, out, olen);
    }
  }

  // ---- how many jumps fit below a limit

  // The pointers a name goes through, in order.
  ghost function Pointers(pkt: seq<Byte>, plen: nat, off: nat, jumps: nat, labels: seq<seq<Byte>>): (c: seq<nat>)
    requires plen <= |pkt| && Spells(pkt, plen, off, jumps, labels)
    ensures |c| == jumps
    decreases jumps, |labels|
  {
    var l := pkt[off];
    if l == 0 then []
    else if IsPointer(l) then [off] + Pointers(pkt, plen, Target(pkt, off), jumps - 1, labels)
    else Pointers(pkt, plen, off + 1 + l, jumps, labels[1..])
  }

  // The offset o holds a pointer below the limit, j jumps before the end.
  ghost predicate Hop(pkt: seq<Byte>, plen: nat, limit: nat, o: nat, j: nat)
    requires plen <= |pkt|
  {
    && o + 1 < limit && o + 1 < |pkt| && IsPointer(pkt[o]) && Target(pkt, o) < limit
    && j > 0 && exists ls :: Spells(pkt, plen, o, j, ls)
  }

  lemma HopHere(pkt: seq<Byte>, plen: nat, off: nat, jumps: nat, labels: seq<seq<Byte>>, limit: nat)
    requires plen <= |pkt| && Spells(pkt, plen, off, jumps, labels) && Below(pkt, plen, off, jumps, labels, limit) && IsPointer(pkt[off])
    ensures Hop(pkt, plen, limit, off, jumps) && jumps > 0 && off + 1 < |pkt|
    ensures var to := Target(pkt, off);
            && Spells(pkt, plen, to, jumps - 1, labels) && Below(pkt, plen, to, jumps - 1, labels, limit)
            && Pointers(pkt, plen, off, jumps, labels) == [off] + Pointers(pkt, plen, to, jumps - 1, labels)
  {
    hide LowerAll;
  }

  lemma NoHopHere(pkt: seq<Byte>, plen: nat, off: nat, jumps: nat, labels: seq<seq<Byte>>, limit: nat)
    requires plen <= |pkt| && Spells(pkt, plen, off, jumps, labels) && Below(pkt, plen, off, jumps, labels, limit)
    requires !IsPointer(pkt[off]) && jumps > 0
    ensures labels != []
    ensures var to := off + 1 + pkt[off];
            && Spells(pkt, plen, to, jumps, labels[1..]) && Below(pkt, plen, to, jumps, labels[1..], limit)
            && Pointers(pkt, plen, off, jumps, labels) == Pointers(pkt, plen, to, jumps, labels[1..])
  {
    hide LowerAll;
  }

  lemma SpelledIn(pkt: seq<Byte>, plen: nat, off: nat, jumps: nat, labels: seq<seq<Byte>>)
    requires plen <= |pkt| && Spells(pkt, plen, off, jumps, labels)
    ensures off < |pkt|
  {
  }

  lemma {:induction false} PointersHop(pkt: seq<Byte>, plen: nat, off: nat, jumps: nat, labels: seq<seq<Byte>>, limit: nat, i: nat)
    requires plen <= |pkt| && Spells(pkt, plen, off, jumps, labels) && Below(pkt, plen, off, jumps, labels, limit)
    requires i < jumps
    ensures Hop(pkt, plen, limit, Pointers(pkt, plen, off, jumps, labels)[i], jumps - i)
    decreases jumps, |labels|
  {
    hide Spells, Below, Hop, Pointers, Target;
    SpelledIn(pkt, plen, off, jumps, labels);
    if IsPointer(pkt[off]) {
      HopHere(pkt, plen, off, jumps, labels, limit);
      if i > 0 { PointersHop(pkt, plen, Target(pkt, off), jumps - 1, labels, limit, i - 1); }
    } else {
      NoHopHere(pkt, plen, off, jumps, labels, limit);
      PointersHop(pkt, plen, off + 1 + pkt[off], jumps, labels[1..], limit, i);
    }
  }

  // Pointers at different distances from the end are different, and lead to different places.
  lemma HopsDiffer(pkt: seq<Byte>, plen: nat, limit: nat, o: nat, j: nat, p: nat, k: nat)
    requires plen <= |pkt| && Hop(pkt, plen, limit, o, j) && Hop(pkt, plen, limit, p, k) && j != k
    ensures o != p && Target(pkt, o) != Target(pkt, p)
  {
    var ls :| Spells(pkt, plen, o, j, ls);
    var ms :| Spells(pkt, plen, p, k, ms);
    if o == p { SpellsUnique(pkt, plen, o, j, ls, k, ms); }
    if Target(pkt, o) == Target(pkt, p) { SpellsUnique(pkt, plen, Target(pkt, o), j - 1, ls, k - 1, ms); }
  }

  // Where a pointer's own second byte is the first byte of another, it can lead to four places only.
  lemma Overlapping(pkt: seq<Byte>, plen: nat, limit: nat, o: nat, j: nat, k: nat)
    requires plen <= |pkt| && limit <= 512 && Hop(pkt, plen, limit, o, j) && Hop(pkt, plen, limit, o + 1, k)
    ensures Target(pkt, o) in {192, 193, 448, 449}
  {
    assert pkt[o] == 192 || pkt[o] == 193;
    assert pkt[o + 1] == 192 || pkt[o + 1] == 193;
  }

  lemma SubsetSize(a: set<nat>, b: set<nat>)
    requires a <= b
    ensures |a| <= |b|
  {
    assert b == a + (b - a);
  }

  lemma {:induction false} Below512(n: nat) returns (s: set<nat>)
    ensures |s| == n && forall x: nat :: x in s <==> x < n
  {
    s := {};
    for i := 0 to n
      invariant |s| == i && forall x: nat :: x in s <==> x < i
    {
      s := s + {i};
    }
  }

  lemma {:induction false} Elements(c: seq<nat>) returns (s: set<nat>)
    requires forall i, j :: 0 <= i < j < |c| ==> c[i] != c[j]
    ensures |s| == |c| && forall x: nat :: x in s <==> x in c
  {
    if c == [] {
      s := {};
    } else {
      var n := |c| - 1;
      var t := Elements(c[..n]);
      assert c == c[..n] + [c[n]];
      assert c[n] !in c[..n];
      s := t + {c[n]};
    }
  }

  // Distinct places of pointers, each two bytes long, of which at most four overlap the next.
  lemma {:induction false} RoomFor(c: seq<nat>, t: seq<nat>, limit: nat)
    requires |t| == |c| && forall i :: 0 <= i < |c| ==> c[i] + 1 < limit
    requires forall i, j :: 0 <= i < j < |c| ==> c[i] != c[j] && t[i] != t[j]
    requires forall i, j :: 0 <= i < |c| && 0 <= j < |c| && c[j] == c[i] + 1 ==> t[i] in {192, 193, 448, 449}
    ensures 2 * |c| <= limit + 4
  {
    var d := seq(|c|, i requires 0 <= i < |c| => c[i] + 1);
    var a := Elements(c);
    var b := Elements(d);
    var all := Below512(limit);
    SubsetSize(a + b, all);
    FewShared(c, d, t, a * b);
    assert |a + b| + |a * b| == |a| + |b|;
  }

  lemma {:induction false} FewShared(c: seq<nat>, d: seq<nat>, t: seq<nat>, shared: set<nat>)
    requires |t| == |c| == |d| && forall i, j :: 0 <= i < j < |c| ==> d[i] != d[j] && t[i] != t[j]
    requires forall i, j :: 0 <= i < |c| && 0 <= j < |c| && c[j] == d[i] ==> t[i] in {192, 193, 448, 449}
    requires forall x :: x in shared ==> x in c && x in d
    ensures |shared| <= 4
  {
    var at := set i: nat | i < |c| && d[i] in shared;
    ImageSize(at, d);
    ImageSize(at, t);
    var here, to := set i | i in at :: d[i], set i | i in at :: t[i];
    SubsetSize(shared, here);
    forall y | y in to
      ensures y in {192, 193, 448, 449}
    {
      var i :| i in at && t[i] == y;
      var j :| 0 <= j < |c| && c[j] == d[i];
    }
    SubsetSize(to, {192, 193, 448, 449});
  }

  lemma {:induction false} ImageSize(at: set<nat>, f: seq<nat>)
    requires forall i :: i in at ==> i < |f|
    requires forall i, j :: 0 <= i < j < |f| ==> f[i] != f[j]
    ensures |set i | i in at :: f[i]| == |at|
  {
    if at != {} {
      var k :| k in at;
      var less := at - {k};
      ImageSize(less, f);
      assert (set i | i in at :: f[i]) == (set i | i in less :: f[i]) + {f[k]};
    }
  }

  // A name of n jumps reads at least 2n - 4 different bytes below the limit.
  lemma {:induction false} JumpsFit(pkt: seq<Byte>, plen: nat, off: nat, jumps: nat, labels: seq<seq<Byte>>, limit: nat)
    requires plen <= |pkt| && limit <= 512 && Spells(pkt, plen, off, jumps, labels) && Below(pkt, plen, off, jumps, labels, limit)
    ensures 2 * jumps <= limit + 4
  {
    hide Spells, Below, Hop, Target, Pointers;
    var c := Pointers(pkt, plen, off, jumps, labels);
    forall i | 0 <= i < jumps
      ensures Hop(pkt, plen, limit, c[i], jumps - i) && c[i] + 1 < limit && c[i] + 1 < |pkt|
    {
      PointersHop(pkt, plen, off, jumps, labels, limit, i);
      HopBounds(pkt, plen, limit, c[i], jumps - i);
    }
    var t := seq(jumps, i requires 0 <= i < jumps => Target(pkt, c[i]));
    forall i, j | 0 <= i < j < jumps
      ensures c[i] != c[j] && t[i] != t[j]
    {
      HopsDiffer(pkt, plen, limit, c[i], jumps - i, c[j], jumps - j);
    }
    forall i, j | 0 <= i < jumps && 0 <= j < jumps && c[j] == c[i] + 1
      ensures t[i] in {192, 193, 448, 449}
    {
      Overlapping(pkt, plen, limit, c[i], jumps - i, jumps - j);
    }
    RoomFor(c, t, limit);
  }

  lemma HopBounds(pkt: seq<Byte>, plen: nat, limit: nat, o: nat, j: nat)
    requires plen <= |pkt| && Hop(pkt, plen, limit, o, j)
    ensures o + 1 < limit && o + 1 < |pkt|
  {
  }

  // ---- the owner

  // A record of at least a type, a class, a TTL and a length, whose owner points to `owner`.
  predicate OwnedBy(rec: seq<Byte>, owner: nat) {
    |rec| >= 12 && owner < 16384 && rec[0] as int == 0xc0 + owner / 256 && rec[1] as int == owner % 256
  }

  // Both kinds of record that are written start in the same way.
  lemma {:induction false} FixedOwner(owner: nat, ttl: nat, rtype: nat, rest: seq<Byte>)
    requires owner < 16384 && |rest| >= 2
    ensures OwnedBy(Fixed(owner, ttl, rtype) + rest, owner)
  {
    hide Long, Short;
    LongLength(ttl);
    var o := Short(owner + 0xc000);
    OwnerPointer(owner);
    var tail := Short(rtype) + Short(C_IN) + Long(ttl);
    assert Fixed(owner, ttl, rtype) == o + tail;
  }

  lemma OwnerPointer(owner: nat)
    requires owner < 16384
    ensures Short(owner + 0xc000) == [0xc0 + owner / 256, owner % 256]
  {
  }

  lemma {:induction false} TextOwner(owner: nat, ttl: nat, pref: nat, rtype: nat, name: seq<Byte>)
    requires owner < 16384
    ensures OwnedBy(RecordBytes(owner, ttl, pref, rtype, name), owner)
  {
    hide Encode, Fixed, Short;
    var rdata := (if pref != 0 then Short(pref) else []) + Encode(name);
    LongLength(0);
    FixedOwner(owner, ttl, rtype, Short(|rdata|) + rdata);
    assert RecordBytes(owner, ttl, pref, rtype, name) == Fixed(owner, ttl, rtype) + (Short(|rdata|) + rdata);
  }

  // What stands at p in a reply of olen bytes.
  lemma OwnerStep(out: seq<Byte>, olen: nat, p: nat, owner: nat, rec: seq<Byte>)
    requires OwnedBy(rec, owner) && p + |rec| <= olen <= |out| && out[p..p + |rec|] == rec && owner < olen
    ensures IsPointer(out[p]) && p + 2 < olen && Target(out, p) == owner
  {
    assert out[p] == out[p..p + |rec|][0] && out[p + 1] == out[p..p + |rec|][1];
  }

  /** When the question's name is spelled below the place p where the answers start, extract_name on
      the owner of any record of the reply, at o, returns that name. The jumps never run out: one
      more than the question needs is still far from 255. */
  lemma {:induction false} OwnerIsQuestion(pkt: seq<Byte>, plen: nat, out: seq<Byte>, olen: nat, p: nat, o: nat, owner: nat,
                                           jumps: nat, ls: seq<seq<Byte>>, rec: seq<Byte>)
    requires plen <= |pkt| && p <= |pkt| && p <= o && o + |rec| <= olen <= |out| && olen <= PACKETSZ
    requires out[..p] == pkt[..p] && out[o..o + |rec|] == rec && OwnedBy(rec, owner)
    requires Names(pkt, plen, owner, jumps, ls) && Below(pkt, plen, owner, jumps, ls, p)
    ensures Names(out, olen, o, jumps + 1, ls) && End(out, o) == o + 2
  {
    hide Below;
    StartsBelow(pkt, plen, owner, jumps, ls, p);
    JumpsFit(pkt, plen, owner, jumps, ls, p);
    BelowSurvives(pkt, plen, owner, jumps, ls, p, out, olen);
    OwnerStep(out, olen, o, owner, rec);
  }

  lemma StartsBelow(pkt: seq<Byte>, plen: nat, off: nat, jumps: nat, labels: seq<seq<Byte>>, limit: nat)
    requires plen <= |pkt| && Spells(pkt, plen, off, jumps, labels) && Below(pkt, plen, off, jumps, labels, limit)
    ensures off < limit
  {
  }

  // The name goes on at offset `at`, and until there all is read below it.
  ghost predicate Reaches(pkt: seq<Byte>, plen: nat, off: nat, jumps: nat, labels: seq<seq<Byte>>, at: nat)
    requires plen <= |pkt| && Spells(pkt, plen, off, jumps, labels)
    decreases jumps, |labels|
  {
    off == at ||
    (off < at && pkt[off] != 0 &&
     if IsPointer(pkt[off]) then off + 1 < at && Reaches(pkt, plen, Target(pkt, off), jumps - 1, labels, at)
     else off + 1 + pkt[off] <= at && Reaches(pkt, plen, off + 1 + pkt[off], jumps, labels[1..], at))
  }

  // Whatever is spelled after the write still goes through that offset.
  lemma {:induction false} ReachesStill(pkt: seq<Byte>, plen: nat, off: nat, jumps: nat, labels: seq<seq<Byte>>, at: nat,
                                        out: seq<Byte>, olen: nat, j: nat, ms: seq<seq<Byte>>)
    returns (k: nat, ns: seq<seq<Byte>>)
    requires plen <= |pkt| && olen <= |out| && at <= |pkt| && at <= |out| && out[..at] == pkt[..at]
    requires Spells(pkt, plen, off, jumps, labels) && Reaches(pkt, plen, off, jumps, labels, at)
    requires Spells(out, olen, off, j, ms)
    ensures k <= j && Spells(out, olen, at, k, ns)
    decreases jumps, |labels|
  {
    if off == at {
      k, ns := j, ms;
    } else {
      var l := pkt[off];
      assert out[off] == out[..at][off] == l;
      if IsPointer(l) {
        assert out[off + 1] == out[..at][off + 1] == pkt[off + 1];
        k, ns := ReachesStill(pkt, plen, Target(pkt, off), jumps - 1, labels, at, out, olen, j - 1, ms);
      } else {
        k, ns := ReachesStill(pkt, plen, off + 1 + l, jumps, labels[1..], at, out, olen, j, ms[1..]);
      }
    }
  }

  /** When the question's name goes on at the very place where the record is written, the owner never
      decodes: it points to the question, and that leads back to the owner. */
  lemma {:induction false} OwnerCycles(pkt: seq<Byte>, plen: nat, olen: nat, p: nat, owner: nat, jumps: nat, ls: seq<seq<Byte>>,
                                       rec: seq<Byte>)
    requires plen <= |pkt| && p + |rec| <= olen <= |pkt| && OwnedBy(rec, owner) && owner < p
    requires Spells(pkt, plen, owner, jumps, ls) && Reaches(pkt, plen, owner, jumps, ls, p)
    ensures NoName(Splice(pkt, p, rec), olen, p)
  {
    hide Splice, Reaches;
    var out := Splice(pkt, p, rec);
    SpliceAt(pkt, p, rec, 0);
    OwnerStep(out, olen, p, owner, rec);
    forall j: nat, ms
      ensures !Spells(out, olen, p, j, ms)
    {
      if Spells(out, olen, p, j, ms) {
        var k, ns := ReachesStill(pkt, plen, owner, jumps, ls, p, out, olen, j - 1, ms);
        SpellsUnique(out, olen, p, j, ms, k, ns);
        assert false;
      }
    }
  }

  // A request of 21 bytes: one question for "a", type A, whose name is a pointer to a label behind
  // the question section.
  const BEHIND: seq<Byte> := [0, 1, 1, 0, 0, 1, 0, 0, 0, 0, 0, 0, 0xc0, 18, 0, 1, 0, 1, 1, 97, 0]

  /** The request is well formed, but every answer to it is written over its name. */
  lemma {:induction false} OwnerOverwritten(room: seq<Byte>, olen: nat, rec: seq<Byte>)
    requires OwnedBy(rec, 12) && 18 + |rec| <= olen <= |BEHIND| + |room|
    ensures var pkt := BEHIND + room;
            && Names(pkt, 21, 12, 1, [[97]]) && Skip(pkt, 21, 1, HEADER_SIZE) == Some(18)
            && NoName(Splice(pkt, 18, rec), olen, 18)
  {
    hide Splice;
    var pkt := BEHIND + room;
    assert pkt[12] == 0xc0 && pkt[13] == 18 && pkt[18] == 1 && pkt[19] == 97 && pkt[20] == 0;
    assert pkt[19..20] == [97] && LowerAll([97]) == [97];
    assert Spells(pkt, 21, 20, 0, []);
    assert [[97]][1..] == [];
    assert Spells(pkt, 21, 18, 0, [[97]]);
    assert Spells(pkt, 21, 12, 1, [[97]]);
    assert Dotted([[97]]) == [97, DOT];
    assert Reaches(pkt, 21, 12, 1, [[97]], 18);
    OwnerCycles(pkt, 21, olen, 18, 12, 1, [[97]], rec);
  }

  // ---- whatever is written

  // Nothing from lo to hi is read while spelling.
  ghost predicate Clear(pkt: seq<Byte>, plen: nat, off: nat, jumps: nat, labels: seq<seq<Byte>>, lo: nat, hi: nat)
    requires plen <= |pkt| && Spells(pkt, plen, off, jumps, labels)
    decreases jumps, |labels|
  {
    && (off < lo || hi <= off)
    && var l := pkt[off];
       if l == 0 then true
       else if IsPointer(l) then (off + 1 < lo || hi <= off + 1) && Clear(pkt, plen, Target(pkt, off), jumps - 1, labels, lo, hi)
       else (off + l < lo || hi <= off + 1) && Clear(pkt, plen, off + 1 + l, jumps, labels[1..], lo, hi)
  }

  predicate SameBut(a: seq<Byte>, b: seq<Byte>, lo: nat, hi: nat) {
    |a| == |b| && forall i :: 0 <= i < |a| && !(lo <= i < hi) ==> a[i] == b[i]
  }

  lemma SameCut(a: seq<Byte>, b: seq<Byte>, lo: nat, hi: nat, i: nat, j: nat)
    requires SameBut(a, b, lo, hi) && i <= j <= |a| && (j <= lo || hi <= i)
    ensures a[i..j] == b[i..j]
  {
  }

  lemma {:induction false} ClearSame(a: seq<Byte>, b: seq<Byte>, plen: nat, off: nat, jumps: nat, labels: seq<seq<Byte>>, lo: nat, hi: nat)
    requires plen <= |a| && SameBut(a, b, lo, hi) && Spells(a, plen, off, jumps, labels) && Clear(a, plen, off, jumps, labels, lo, hi)
    ensures Spells(b, plen, off, jumps, labels)
    decreases jumps, |labels|
  {
    var l := a[off];
    assert b[off] == l;
    if l == 0 {
    } else if IsPointer(l) {
      assert b[off + 1] == a[off + 1];
      ClearSame(a, b, plen, Target(a, off), jumps - 1, labels, lo, hi);
    } else {
      SameCut(a, b, lo, hi, off + 1, off + 1 + l);
      ClearSame(a, b, plen, off + 1 + l, jumps, labels[1..], lo, hi);
    }
  }

  // From lo to hi every byte is c.
  predicate Full(a: seq<Byte>, lo: nat, hi: nat, c: Byte) { lo <= hi <= |a| && forall i :: lo <= i < hi ==> a[i] == c }

  // Three memories that differ from lo to hi only, two of them full of different bytes there, and the byte before it.
  ghost predicate Varied(a: seq<Byte>, b: seq<Byte>, base: seq<Byte>, plen: nat, lo: nat, hi: nat) {
    && plen <= |a| && plen <= 15872 && 0 < lo < hi <= |a| && a[lo - 1] < 192
    && SameBut(a, b, lo, hi) && SameBut(a, base, lo, hi) && Full(a, lo, hi, 0xff) && Full(b, lo, hi, 0xfe)
  }

  lemma LowerHigh(w: seq<Byte>, i: nat)
    requires i < |w| && w[i] >= 0xfe
    ensures LowerAll(w)[i] == w[i]
  {
  }

  // A label that reads a byte that differs is not the same label.
  lemma LabelDiffers(a: seq<Byte>, b: seq<Byte>, lo: nat, hi: nat, i: nat, j: nat, k: nat)
    requires |a| == |b| && Full(a, lo, hi, 0xff) && Full(b, lo, hi, 0xfe) && i <= k < j <= |a| && lo <= k < hi
    ensures LowerAll(a[i..j]) != LowerAll(b[i..j])
  {
    hide LowerAll;
    assert a[i..j][k - i] == a[k] == 0xff && b[i..j][k - i] == b[k] == 0xfe;
    LowerHigh(a[i..j], k - i);
    LowerHigh(b[i..j], k - i);
  }

  lemma LabelClear(a: seq<Byte>, b: seq<Byte>, base: seq<Byte>, plen: nat, lo: nat, hi: nat, i: nat, j: nat)
    requires Varied(a, b, base, plen, lo, hi) && i < j <= |a| && LowerAll(a[i..j]) == LowerAll(b[i..j])
    ensures j <= lo || hi <= i
  {
    hide LowerAll, Full;
    if i < lo < j {
      LabelDiffers(a, b, lo, hi, i, j, lo);
    } else if lo <= i < hi {
      LabelDiffers(a, b, lo, hi, i, j, i);
    }
  }

  // No name goes on in a stretch of such bytes.
  lemma NotInside(a: seq<Byte>, plen: nat, off: nat, jumps: nat, labels: seq<seq<Byte>>, lo: nat, hi: nat)
    requires plen <= |a| && plen <= 15872 && Full(a, lo, hi, 0xff)
    ensures lo <= off < hi ==> !Spells(a, plen, off, jumps, labels)
  {
    if lo <= off < hi {
      assert a[off] == 0xff;
      assert off + 1 < |a| ==> Target(a, off) >= 15872;
    }
  }

  lemma JumpIs(mem: seq<Byte>, plen: nat, off: nat, j: nat, ls: seq<seq<Byte>>)
    requires plen <= |mem| && off < |mem| && IsPointer(mem[off])
    ensures Spells(mem, plen, off, j, ls)
       <==> j > 0 && off + 2 < plen && Target(mem, off) < plen && Spells(mem, plen, Target(mem, off), j - 1, ls)
  {
    hide Target, LowerAll;
  }

  lemma LabelIs(mem: seq<Byte>, plen: nat, off: nat, j: nat, ls: seq<seq<Byte>>)
    requires plen <= |mem| && off < |mem| && mem[off] != 0 && !IsPointer(mem[off])
    ensures var next := off + 1 + mem[off];
            Spells(mem, plen, off, j, ls) <==> ls != [] && next < plen && ls[0] == LowerAll(mem[off + 1..next]) && Spells(mem, plen, next, j, ls[1..])
  {
    hide Target, LowerAll;
  }

  lemma JumpClear(mem: seq<Byte>, plen: nat, off: nat, j: nat, ls: seq<seq<Byte>>, lo: nat, hi: nat)
    requires plen <= |mem| && off < |mem| && IsPointer(mem[off]) && Spells(mem, plen, off, j, ls) && (off < lo || hi <= off)
    requires (off + 1 < lo || hi <= off + 1) && j > 0 && off + 2 < plen
    requires Spells(mem, plen, Target(mem, off), j - 1, ls) && Clear(mem, plen, Target(mem, off), j - 1, ls, lo, hi)
    ensures Clear(mem, plen, off, j, ls, lo, hi)
  {
    hide Target, LowerAll, Spells;
  }

  lemma LabelIsClear(mem: seq<Byte>, plen: nat, off: nat, j: nat, ls: seq<seq<Byte>>, lo: nat, hi: nat)
    requires plen <= |mem| && off < |mem| && mem[off] != 0 && !IsPointer(mem[off]) && Spells(mem, plen, off, j, ls) && (off < lo || hi <= off)
    requires (off + mem[off] < lo || hi <= off + 1) && ls != []
    requires Spells(mem, plen, off + 1 + mem[off], j, ls[1..]) && Clear(mem, plen, off + 1 + mem[off], j, ls[1..], lo, hi)
    ensures Clear(mem, plen, off, j, ls, lo, hi)
  {
    hide Target, LowerAll, Spells;
  }

  lemma EndIs(mem: seq<Byte>, plen: nat, off: nat, j: nat, ls: seq<seq<Byte>>, lo: nat, hi: nat)
    requires plen <= |mem| && off < |mem| && mem[off] == 0 && (off < lo || hi <= off)
    ensures Spells(mem, plen, off, j, ls) <==> ls == [] && j == 0
    ensures Spells(mem, plen, off, j, ls) ==> Clear(mem, plen, off, j, ls, lo, hi)
  {
    hide Target, LowerAll;
  }

  lemma {:induction false} BothClear(a: seq<Byte>, b: seq<Byte>, base: seq<Byte>, plen: nat, off: nat, j: nat, k: nat, labels: seq<seq<Byte>>, lo: nat, hi: nat)
    requires Varied(a, b, base, plen, lo, hi) && Spells(a, plen, off, j, labels) && Spells(b, plen, off, k, labels)
    ensures |base| == |a| && plen <= |a| && Spells(base, plen, off, j, labels) && Clear(base, plen, off, j, labels, lo, hi)
    decreases j, |labels|
  {
    hide Full, LowerAll, Varied, Spells, Clear, Target, IsPointer, SameBut;
    Variation(a, b, base, plen, lo, hi, off);
    NotInside(a, plen, off, j, labels, lo, hi);
    SpelledIn(a, plen, off, j, labels);
    Same(a, b, base, lo, hi, off);
    var l := a[off];
    if l == 0 {
      EndIs(a, plen, off, j, labels, lo, hi);
      EndIs(base, plen, off, j, labels, lo, hi);
    } else if IsPointer(l) {
      JumpIs(a, plen, off, j, labels);
      JumpIs(b, plen, off, k, labels);
      Same(a, b, base, lo, hi, off + 1);
      SameTarget(a, b, off);
      SameTarget(a, base, off);
      BothClear(a, b, base, plen, Target(a, off), j - 1, k - 1, labels, lo, hi);
      JumpIs(base, plen, off, j, labels);
      JumpClear(base, plen, off, j, labels, lo, hi);
    } else {
      LabelIs(a, plen, off, j, labels);
      LabelIs(b, plen, off, k, labels);
      LabelClear(a, b, base, plen, lo, hi, off + 1, off + 1 + l);
      SameCut(a, base, lo, hi, off + 1, off + 1 + l);
      BothClear(a, b, base, plen, off + 1 + l, j, k, labels[1..], lo, hi);
      LabelIs(base, plen, off, j, labels);
      LabelIsClear(base, plen, off, j, labels, lo, hi);
    }
  }

  lemma Same(a: seq<Byte>, b: seq<Byte>, base: seq<Byte>, lo: nat, hi: nat, i: nat)
    requires SameBut(a, b, lo, hi) && SameBut(a, base, lo, hi) && i < |a|
    ensures |b| == |a| == |base| && ((i < lo || hi <= i) ==> b[i] == a[i] == base[i])
  {
  }

  lemma SameTarget(a: seq<Byte>, b: seq<Byte>, off: nat)
    requires off + 1 < |a| == |b| && a[off] == b[off] && a[off + 1] == b[off + 1]
    ensures Target(a, off) == Target(b, off)
  {
  }

  lemma Variation(a: seq<Byte>, b: seq<Byte>, base: seq<Byte>, plen: nat, lo: nat, hi: nat, off: nat)
    requires Varied(a, b, base, plen, lo, hi)
    ensures plen <= |a| && plen <= 15872 && SameBut(a, b, lo, hi) && SameBut(a, base, lo, hi) && Full(a, lo, hi, 0xff)
    ensures off + 1 == lo ==> !IsPointer(a[off])
  {
    hide Full;
  }

  function OwnerBytes(owner: nat): seq<Byte>
    requires owner < 16384
  {
    [0xc0 + owner / 256, owner % 256]
  }

  function Filler(owner: nat, m: nat, c: Byte): (rec: seq<Byte>)
    requires owner < 16384 && m >= 12
    ensures OwnedBy(rec, owner) && |rec| == m
  {
    OwnerBytes(owner) + seq(m - 2, i => c)
  }

  // The owner decodes to ls when rec is written at p.
  ghost predicate Decodes(pkt: seq<Byte>, p: nat, olen: nat, rec: seq<Byte>, ls: seq<seq<Byte>>)
    requires p + |rec| <= olen <= |pkt|
  {
    exists j: nat :: Names(Splice(pkt, p, rec), olen, p, j, ls)
  }

  // The name is spelled with a jump to spare.
  ghost predicate Spare(mem: seq<Byte>, olen: nat, off: nat, j: nat, ls: seq<seq<Byte>>)
    requires olen <= |mem|
  {
    j < MAX_HOPS && Spells(mem, olen, off, j, ls)
  }

  // And nothing is read of the m bytes at p but the first two.
  ghost predicate SpareClear(mem: seq<Byte>, olen: nat, off: nat, j: nat, ls: seq<seq<Byte>>, p: nat, m: nat)
    requires olen <= |mem|
  {
    Spare(mem, olen, off, j, ls) && Clear(mem, olen, off, j, ls, p + 2, p + m)
  }

  lemma DecodesVia(pkt: seq<Byte>, p: nat, olen: nat, rec: seq<Byte>, owner: nat, ls: seq<seq<Byte>>)
    requires p + |rec| <= olen <= |pkt| && OwnedBy(rec, owner) && owner < p
    ensures Decodes(pkt, p, olen, rec, ls)
       <==> |Dotted(ls)| < MAXDNAME && exists j: nat :: Spare(Splice(pkt, p, rec), olen, owner, j, ls)
  {
    hide Splice, Dotted;
    var out := Splice(pkt, p, rec);
    SpliceAt(pkt, p, rec, 0);
    OwnerStep(out, olen, p, owner, rec);
    if Decodes(pkt, p, olen, rec, ls) {
      var j: nat :| Names(out, olen, p, j, ls);
      var k: nat := j - 1;
      assert Spare(out, olen, owner, k, ls);
    }
    if j: nat :| Spare(out, olen, owner, j, ls) {
      assert Spells(out, olen, p, j + 1, ls);
      assert |Dotted(ls)| < MAXDNAME ==> Names(out, olen, p, j + 1, ls);
    }
  }

  lemma WrittenSame(pkt: seq<Byte>, p: nat, rec: seq<Byte>, owner: nat)
    requires OwnedBy(rec, owner) && p + |rec| <= |pkt|
    ensures SameBut(Splice(pkt, p, rec), Splice(pkt, p, OwnerBytes(owner)), p + 2, p + |rec|)
  {
  }

  lemma FillerVaries(pkt: seq<Byte>, p: nat, owner: nat, m: nat, olen: nat)
    requires owner < 16384 && owner % 256 < 192 && m >= 12 && p + m <= olen <= |pkt| && olen <= 15872
    ensures Varied(Splice(pkt, p, Filler(owner, m, 0xff)), Splice(pkt, p, Filler(owner, m, 0xfe)), Splice(pkt, p, OwnerBytes(owner)), olen, p + 2, p + m)
  {
  }

  /** Whatever is written, exactly. The owner of a record at p decodes to a name for every record of m bytes
      if and only if it does when only the owner is written, and then reads nothing of the rest of the
      record. (An owner whose low byte is 192 or more could itself be read as a pointer.) */
  lemma DecodesAlways(pkt: seq<Byte>, p: nat, olen: nat, m: nat, owner: nat, ls: seq<seq<Byte>>)
    requires owner < p && owner < 16384 && owner % 256 < 192 && m >= 12 && p + m <= olen <= |pkt| && olen <= 15872
    ensures (forall rec :: |rec| == m && OwnedBy(rec, owner) ==> Decodes(pkt, p, olen, rec, ls))
       <==> var base := Splice(pkt, p, OwnerBytes(owner));
            |Dotted(ls)| < MAXDNAME
            && exists j: nat :: SpareClear(base, olen, owner, j, ls, p, m)
  {
    hide Splice, Dotted, Spells, Clear, Decodes, Varied, SameBut, OwnedBy;
    var base, ff, fe := Splice(pkt, p, OwnerBytes(owner)), Filler(owner, m, 0xff), Filler(owner, m, 0xfe);
    SpliceLength(pkt, p, OwnerBytes(owner));
    if forall rec :: |rec| == m && OwnedBy(rec, owner) ==> Decodes(pkt, p, olen, rec, ls) {
      assert Decodes(pkt, p, olen, ff, ls) && Decodes(pkt, p, olen, fe, ls);
      DecodesVia(pkt, p, olen, ff, owner, ls);
      DecodesVia(pkt, p, olen, fe, owner, ls);
      var a, b := Splice(pkt, p, ff), Splice(pkt, p, fe);
      var j: nat :| Spare(a, olen, owner, j, ls);
      var k: nat :| Spare(b, olen, owner, k, ls);
      FillerVaries(pkt, p, owner, m, olen);
      BothClear(a, b, base, olen, owner, j, k, ls, p + 2, p + m);
      assert SpareClear(base, olen, owner, j, ls, p, m);
    }
    if |Dotted(ls)| < MAXDNAME && exists j: nat :: SpareClear(base, olen, owner, j, ls, p, m) {
      var j: nat :| SpareClear(base, olen, owner, j, ls, p, m);
      forall rec | |rec| == m && OwnedBy(rec, owner)
        ensures Decodes(pkt, p, olen, rec, ls)
      {
        WrittenSame(pkt, p, rec, owner);
        SameTurned(Splice(pkt, p, rec), base, p + 2, p + m);
        SpliceLength(pkt, p, rec);
        ClearSame(base, Splice(pkt, p, rec), olen, owner, j, ls, p + 2, p + m);
        assert Spare(Splice(pkt, p, rec), olen, owner, j, ls);
        DecodesVia(pkt, p, olen, rec, owner, ls);
      }
    }
  }

  lemma SpliceLength(pkt: seq<Byte>, p: nat, bytes: seq<Byte>)
    requires p + |bytes| <= |pkt|
    ensures |Splice(pkt, p, bytes)| == |pkt|
  {
  }

  lemma SameTurned(a: seq<Byte>, b: seq<Byte>, lo: nat, hi: nat)
    requires SameBut(a, b, lo, hi)
    ensures SameBut(b, a, lo, hi)
  {
  }
}
