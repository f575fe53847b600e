/** One question of answer_request: what is written for it, from the cache and from the settings, and
    when it is given up. */
module DnsAnswers {
  import opened Options
  import opened Bytes
  import opened DnsNames
  import opened DnsPackets
  import opened DnsOwners
  import opened CacheRecords
  import opened CacheRuns
  import opened CacheTheorems
  import opened CacheHistory
  import Cache

  // ---- records

  // A record from /etc/hosts or a DHCP lease.
  predicate Local(r: Rec) { r.hosts || r.dhcp }

  // The TTL field of an answer.
  function Ttl(r: Rec, now: int): nat { AnswerTtl(r, now) % 0x1_0000_0000 }

  // What is fresh has a TTL that fits its field.
  lemma TtlFits(r: Rec, now: int)
    requires Fresh(r, now) && 0 <= now && r.ttd <= TIME_MAX
    ensures Ttl(r, now) == AnswerTtl(r, now)
  {
  }

  function AddressBytes(addr: Addr, v6: bool): seq<Byte> {
    Long(addr.word % 0x1_0000_0000)
    + if v6 then Long(addr.rest / 0x1_0000_0000_0000_0000 % 0x1_0000_0000) + Long(addr.rest / 0x1_0000_0000 % 0x1_0000_0000)
                 + Long(addr.rest % 0x1_0000_0000)
      else []
  }

  function AddressRecord(owner: nat, ttl: nat, addr: Addr, v6: bool): seq<Byte> {
    Fixed(owner, ttl, if v6 then T_AAAA else T_A) + (Short(if v6 then 16 else 4) + AddressBytes(addr, v6))
  }

  function ToBytes(name: string): seq<Byte> { seq(|name|, i requires 0 <= i < |name| => name[i] as int % 256) }

  // Three of the ways a question is answered from the cache: with addresses, or with names.
  datatype Path = ToV4 | ToV6 | ToName

  function RecordFor(path: Path, r: Rec, owner: nat, now: int): seq<Byte> {
    if path.ToName? then RecordBytes(owner, Ttl(r, now), 0, T_PTR, ToBytes(r.name))
    else AddressRecord(owner, Ttl(r, now), r.addr, path.ToV6?)
  }

  // A negative record stands for no answer.
  predicate Written(path: Path, r: Rec) { path.ToName? || !r.neg }

  function Given(path: Path, found: seq<Rec>, owner: nat, now: int): seq<seq<Byte>> {
    if found == [] then []
    else
      var n := |found| - 1;
      Given(path, found[..n], owner, now) + if Written(path, found[n]) then [RecordFor(path, found[n], owner, now)] else []
  }

  function Flat(rs: seq<seq<Byte>>): seq<Byte> { if rs == [] then [] else Flat(rs[..|rs| - 1]) + rs[|rs| - 1] }

  lemma FlatMore(rs: seq<seq<Byte>>, rec: seq<Byte>)
    ensures Flat(rs + [rec]) == Flat(rs) + rec
  {
    assert (rs + [rec])[..|rs|] == rs;
  }

  lemma FlatNone()
    ensures Flat([]) == []
  {
  }

  lemma {:induction false} FlatConcat(a: seq<seq<Byte>>, b: seq<seq<Byte>>)
    ensures Flat(a + b) == Flat(a) + Flat(b)
  {
    hide Flat;
    if b == [] {
      FlatNone();
      assert a + b == a && Flat(a) + [] == Flat(a);
    } else {
      var n := |b| - 1;
      var rest, last := b[..n], b[n];
      FlatConcat(a, rest);
      assert a + b == (a + rest) + [last] && b == rest + [last];
      FlatMore(a + rest, last);
      FlatMore(rest, last);
      assert Flat(a) + Flat(rest) + last == Flat(a) + (Flat(rest) + last);
    }
  }

  lemma GivenMore(path: Path, found: seq<Rec>, k: nat, owner: nat, now: int)
    requires k < |found|
    ensures Given(path, found[..k + 1], owner, now)
         == Given(path, found[..k], owner, now) + if Written(path, found[k]) then [RecordFor(path, found[k], owner, now)] else []
  {
    hide RecordFor;
    assert found[..k + 1][..k] == found[..k];
  }

  // ---- lengths

  lemma {:induction false} EncodeLength(name: seq<Byte>)
    ensures |Encode(name)| <= |name| + 2
    decreases |name|
  {
    if name != [] {
      var n := Head(name);
      var rest := if n < |name| then name[n + 1..] else [];
      EncodeLength(rest);
      EncodeStep(name, n, rest);
    }
  }

  lemma EncodeStep(name: seq<Byte>, n: nat, rest: seq<Byte>)
    requires name != [] && n == Head(name) && rest == if n < |name| then name[n + 1..] else []
    ensures |Encode(name)| == 1 + n + |Encode(rest)|
  {
    hide Head;
  }

  lemma AddressLength(owner: nat, ttl: nat, addr: Addr, v6: bool)
    ensures |AddressRecord(owner, ttl, addr, v6)| == (if v6 then 28 else 16) && |Fixed(owner, ttl, if v6 then T_AAAA else T_A)| == 10
    ensures |AddressBytes(addr, v6)| == (if v6 then 16 else 4) && |Short(4)| == 2 == |Short(16)|
  {
    hide Long;
    LongLength(ttl);
    LongLength(addr.word % 0x1_0000_0000);
    LongLength(addr.rest / 0x1_0000_0000_0000_0000 % 0x1_0000_0000);
    LongLength(addr.rest / 0x1_0000_0000 % 0x1_0000_0000);
    LongLength(addr.rest % 0x1_0000_0000);
  }

  // ---- every record points to the question

  ghost predicate AllOwned(rs: seq<seq<Byte>>, owner: nat) { forall i :: 0 <= i < |rs| ==> OwnedBy(rs[i], owner) }

  lemma RecordOwned(path: Path, r: Rec, owner: nat, now: int)
    requires owner < 16384
    ensures OwnedBy(RecordFor(path, r, owner, now), owner)
  {
    hide RecordBytes, Fixed, Short;
    var ttl := Ttl(r, now);
    if path.ToName? {
      TextOwner(owner, ttl, 0, T_PTR, ToBytes(r.name));
    } else {
      AddressLength(owner, ttl, r.addr, path.ToV6?);
      FixedOwner(owner, ttl, if path.ToV6? then T_AAAA else T_A, Short(if path.ToV6? then 16 else 4) + AddressBytes(r.addr, path.ToV6?));
    }
  }

  lemma {:induction false} GivenOwned(path: Path, found: seq<Rec>, owner: nat, now: int)
    requires owner < 16384
    ensures AllOwned(Given(path, found, owner, now), owner)
  {
    hide RecordFor, OwnedBy;
    if found != [] {
      GivenOwned(path, found[..|found| - 1], owner, now);
      RecordOwned(path, found[|found| - 1], owner, now);
    }
  }

  // ---- reading a TTL back

  lemma LongBack(x: nat)
    requires x <= 0xffff_ffff
    ensures var l := Long(x);
            |l| == 4 && (l[0] as int) * 0x100_0000 + (l[1] as int) * 0x1_0000 + (l[2] as int) * 0x100 + l[3] as int == x
  {
    var hi := x / 65536;
    assert hi / 256 < 256 && x == hi * 65536 + x % 65536;
    assert x / 256 == hi * 256 + x % 65536 / 256;
  }

  // A resolver that reads the TTL field of any answer from the cache finds what is left of the TTL.
  lemma TtlReadBack(path: Path, r: Rec, owner: nat, now: int)
    ensures var b := RecordFor(path, r, owner, now);
            && |b| >= 12
            && (b[6] as int) * 0x100_0000 + (b[7] as int) * 0x1_0000 + (b[8] as int) * 0x100 + b[9] as int == Ttl(r, now)
  {
    hide Long, Ttl, Encode, AddressBytes;
    var b, ttl := RecordFor(path, r, owner, now), Ttl(r, now);
    TtlRange(r, now);
    LongBack(ttl);
    var rtype := if path.ToName? then T_PTR else if path.ToV6? then T_AAAA else T_A;
    var f := Fixed(owner, ttl, rtype);
    LongLength(ttl);
    assert f[6..10] == Long(ttl);
    AtLeast(path, r, owner, now);
    assert b[..10] == f;
    assert b[6] == f[6..10][0] && b[7] == f[6..10][1] && b[8] == f[6..10][2] && b[9] == f[6..10][3];
  }

  lemma TtlRange(r: Rec, now: int)
    ensures Ttl(r, now) <= 0xffff_ffff
  {
  }

  lemma AtLeast(path: Path, r: Rec, owner: nat, now: int)
    ensures |RecordFor(path, r, owner, now)| >= 12
  {
    hide Encode, Long, AddressBytes;
    LongLength(Ttl(r, now));
  }

  // ---- what is found

  ghost predicate SomeForeign(found: seq<Rec>) { exists i :: 0 <= i < |found| && !Local(found[i]) }

  ghost predicate SomeNx(path: Path, found: seq<Rec>) {
    exists i :: 0 <= i < |found| && !Written(path, found[i]) && found[i].nx
  }

  // An answer stays authoritative while everything in it is local knowledge and positive.
  ghost predicate AllKnown(path: Path, found: seq<Rec>) {
    forall i :: 0 <= i < |found| ==> Local(found[i]) && Written(path, found[i])
  }

  // How many records are written.
  function Count(path: Path, found: seq<Rec>): nat {
    if found == [] then 0 else Count(path, found[..|found| - 1]) + if Written(path, found[|found| - 1]) then 1 else 0
  }

  lemma {:induction false} CountIs(path: Path, found: seq<Rec>, owner: nat, now: int)
    ensures |Given(path, found, owner, now)| == Count(path, found)
  {
    hide RecordFor;
    if found != [] { CountIs(path, found[..|found| - 1], owner, now); }
  }

  // Answered at all; authoritative; known not to exist; and the number of answers.
  datatype Tally = Tally(ans: bool, auth: bool, nx: bool, count: nat)

  ghost function Tallied(t: Tally, path: Path, found: seq<Rec>): Tally {
    Tally(t.ans || found != [], t.auth && AllKnown(path, found), t.nx || SomeNx(path, found), t.count + Count(path, found))
  }

  lemma TalliedMore(t: Tally, path: Path, found: seq<Rec>, k: nat)
    requires k < |found|
    ensures var a, r := Tallied(t, path, found[..k]), found[k];
            Tallied(t, path, found[..k + 1])
            == Tally(true, a.auth && Local(r) && Written(path, r), a.nx || (!Written(path, r) && r.nx),
                     a.count + if Written(path, r) then 1 else 0)
    ensures SomeForeign(found[..k + 1]) == (SomeForeign(found[..k]) || !Local(found[k]))
    ensures !Local(found[k]) ==> SomeForeign(found)
  {
    hide Local, Written;
    var a, b := found[..k], found[..k + 1];
    assert b[..k] == a;
    assert b[k] == found[k] && forall i :: 0 <= i < k ==> b[i] == a[i];
  }

  lemma TalliedNone(t: Tally, path: Path, owner: nat, now: int)
    ensures Tallied(t, path, []) == t && !SomeForeign([]) && Given(path, [], owner, now) == []
  {
  }

  // ---- writing

  // The records rs, and nothing else, have been written from `start` on.
  ghost predicate Progress(mem: seq<Byte>, data: seq<Byte>, start: nat, rs: seq<seq<Byte>>, ansp: nat) {
    |data| == |mem| && start + |Flat(rs)| <= |mem| && ansp == start + |Flat(rs)| && data == Splice(mem, start, Flat(rs))
  }

  lemma ProgressMore(mem: seq<Byte>, data: seq<Byte>, start: nat, rs: seq<seq<Byte>>, ansp: nat, rec: seq<Byte>)
    requires Progress(mem, data, start, rs, ansp) && ansp + |rec| <= |mem|
    ensures |data| == |mem| && Progress(mem, Splice(data, ansp, rec), start, rs + [rec], ansp + |rec|)
  {
    hide Splice, Flat;
    FlatMore(rs, rec);
    SpliceMore(mem, start, Flat(rs), rec, []);
  }

  lemma ProgressKeeps(mem: seq<Byte>, data: seq<Byte>, start: nat, rs: seq<seq<Byte>>, ansp: nat)
    requires Progress(mem, data, start, rs, ansp)
    ensures |data| == |mem| && start <= |mem| && data[..start] == mem[..start] && ansp == start + |Flat(rs)|
  {
  }

  method PutAddress(pkt: Packet, owner: nat, p: nat, ttl: nat, addr: Addr, v6: bool) returns (q: nat)
    requires p + |AddressRecord(owner, ttl, addr, v6)| <= pkt.data.Length
    modifies pkt.data
    ensures q == p + |AddressRecord(owner, ttl, addr, v6)|
    ensures pkt.data[..] == Splice(old(pkt.data[..]), p, AddressRecord(owner, ttl, addr, v6))
  {
    hide Fixed, Short, Splice, AddressBytes;
    ghost var mem := pkt.data[..];
    var a, b, c := Fixed(owner, ttl, if v6 then T_AAAA else T_A), Short(if v6 then 16 else 4), AddressBytes(addr, v6);
    SpliceMore(mem, p, a, b, c);
    SpliceMore(mem, p, a + b, c, []);
    q := pkt.Put(a, p);
    q := pkt.Put(b, q);
    q := pkt.Put(c, q);
  }

  // A record found, as one record of the reply.
  method PutRecord(pkt: Packet, path: Path, r: Rec, owner: nat, p: nat, now: int) returns (q: nat)
    requires p + |RecordFor(path, r, owner, now)| <= pkt.data.Length
    modifies pkt.data
    ensures q == p + |RecordFor(path, r, owner, now)|
    ensures pkt.data[..] == Splice(old(pkt.data[..]), p, RecordFor(path, r, owner, now))
  {
    hide RecordBytes, AddressRecord, Splice;
    if path.ToName? {
      q := pkt.AddTextRecord(owner, p, Ttl(r, now), 0, T_PTR, ToBytes(r.name));
    } else {
      q := PutAddress(pkt, owner, p, Ttl(r, now), r.addr, path.ToV6?);
    }
  }

  // How an attempt ends: the request goes on, is given up, or a record would leave the buffer.
  datatype Status = Fine | Up | Over

  // The room up to the limit, and up to the end of the buffer, from where the records start.
  datatype Box = Box(room: nat, size: nat)

  // The limit is only looked at when a record has been written.
  function Fitting(box: Box, used: nat): Status { if used > box.size then Over else if used > box.room then Up else Fine }

  // One record found, behind `used` bytes: given up for a wildcard question about foreign data, written unless negative.
  function EndsOne(path: Path, r: Rec, any: bool, owner: nat, now: int, used: nat, box: Box): Status {
    if any && !Local(r) then Up
    else if Written(path, r) then Fitting(box, used + |RecordFor(path, r, owner, now)|)
    else Fine
  }

  function Ends(path: Path, found: seq<Rec>, any: bool, owner: nat, now: int, used: nat, box: Box): Status {
    if found == [] then Fine
    else
      var n := |found| - 1;
      var e := Ends(path, found[..n], any, owner, now, used, box);
      if !e.Fine? then e else EndsOne(path, found[n], any, owner, now, used + |Flat(Given(path, found[..n], owner, now))|, box)
  }

  lemma EndsMore(path: Path, found: seq<Rec>, k: nat, any: bool, owner: nat, now: int, used: nat, box: Box)
    requires k < |found| && Ends(path, found[..k], any, owner, now, used, box).Fine?
    ensures Ends(path, found[..k + 1], any, owner, now, used, box)
         == EndsOne(path, found[k], any, owner, now, used + |Flat(Given(path, found[..k], owner, now))|, box)
  {
    hide EndsOne, Flat, Given;
    assert found[..k + 1][..k] == found[..k];
  }

  lemma {:induction false} EndsStuck(path: Path, found: seq<Rec>, k: nat, any: bool, owner: nat, now: int, used: nat, box: Box)
    requires k <= |found| && !Ends(path, found[..k], any, owner, now, used, box).Fine?
    ensures Ends(path, found, any, owner, now, used, box) == Ends(path, found[..k], any, owner, now, used, box)
    decreases |found|
  {
    hide EndsOne, Flat, Given;
    if k == |found| {
      assert found[..k] == found;
    } else {
      var n := |found| - 1;
      assert found[..n][..k] == found[..k];
      EndsStuck(path, found[..n], k, any, owner, now, used, box);
    }
  }

  /** The attempt goes on if and only if nothing found is foreign to a wildcard question and all records
      fit the room. */
  lemma {:induction false} EndsFine(path: Path, found: seq<Rec>, any: bool, owner: nat, now: int, used: nat, box: Box)
    requires used <= box.room <= box.size
    ensures Ends(path, found, any, owner, now, used, box).Fine?
       <==> !(any && SomeForeign(found)) && used + |Flat(Given(path, found, owner, now))| <= box.room
  {
    hide RecordFor, Flat, Local, Written;
    FlatNone();
    if found != [] {
      var n := |found| - 1;
      var rest, r := found[..n], found[n];
      EndsFine(path, rest, any, owner, now, used, box);
      assert found == rest + [r];
      if Written(path, r) { FlatMore(Given(path, rest, owner, now), RecordFor(path, r, owner, now)); }
      assert SomeForeign(found) <==> SomeForeign(rest) || !Local(r) by { ForeignMore(rest, r); }
      assert Given(path, rest, owner, now) + [] == Given(path, rest, owner, now);
    }
  }

  lemma ForeignMore(rest: seq<Rec>, r: Rec)
    ensures SomeForeign(rest + [r]) <==> SomeForeign(rest) || !Local(r)
  {
    hide Local;
    var all := rest + [r];
    assert all[|rest|] == r && forall i :: 0 <= i < |rest| ==> all[i] == rest[i];
  }

  method WriteOne(pkt: Packet, path: Path, r: Rec, any: bool, owner: nat, ansp: nat, limit: nat, now: int,
                  ghost mem: seq<Byte>, ghost start: nat, ghost rs: seq<seq<Byte>>)
    returns (status: Status, next: nat)
    requires ansp <= limit <= pkt.data.Length && Progress(mem, pkt.data[..], start, rs, ansp)
    modifies pkt.data
    ensures |pkt.data[..]| == |mem| && start <= |mem| && pkt.data[..start] == mem[..start] && start <= limit
    ensures var more := if Written(path, r) then [RecordFor(path, r, owner, now)] else [];
            && status == EndsOne(path, r, any, owner, now, |Flat(rs)|, Box(limit - start, |mem| - start))
            && (status.Fine? ==> next <= limit && Progress(mem, pkt.data[..], start, rs + more, next))
  {
    hide Progress, RecordFor, Splice, Flat;
    ProgressKeeps(mem, pkt.data[..], start, rs, ansp);
    status, next := Fine, ansp;
    if any && !Local(r) { return Up, next; }
    if Written(path, r) {
      var rec := RecordFor(path, r, owner, now);
      if ansp + |rec| > pkt.data.Length { return Over, next; }
      ProgressMore(mem, pkt.data[..], start, rs, ansp, rec);
      next := PutRecord(pkt, path, r, owner, ansp, now);
      ProgressKeeps(mem, pkt.data[..], start, rs + [rec], next);
      if next > limit { status := Up; }
    } else {
      assert rs + [] == rs;
    }
  }

  // The loop over what was found.
  method WriteAll(pkt: Packet, path: Path, found: seq<Rec>, any: bool, owner: nat, from: nat, limit: nat, now: int, t: Tally,
                  ghost mem: seq<Byte>, ghost start: nat, ghost rs: seq<seq<Byte>>)
    returns (status: Status, ansp: nat, tally: Tally)
    requires from <= limit <= pkt.data.Length && Progress(mem, pkt.data[..], start, rs, from)
    modifies pkt.data
    ensures |pkt.data[..]| == |mem| && start <= limit <= |mem| && pkt.data[..start] == mem[..start]
    ensures status == Ends(path, found, any, owner, now, |Flat(rs)|, Box(limit - start, |mem| - start))
    ensures status.Fine? ==> && ansp <= limit && Progress(mem, pkt.data[..], start, rs + Given(path, found, owner, now), ansp)
                             && tally == Tallied(t, path, found)
  {
    hide Progress, RecordFor, Flat, Given, Tallied, SomeForeign, Written, Local, Ends, EndsOne;
    ProgressKeeps(mem, pkt.data[..], start, rs, from);
    status, ansp, tally := Fine, from, t;
    ghost var box, used := Box(limit - start, |mem| - start), |Flat(rs)|;
    assert found[..0] == [];
    TalliedNone(t, path, owner, now);
    EndsNone(path, any, owner, now, used, box);
    assert rs + [] == rs;
    for k := 0 to |found|
      invariant |pkt.data[..]| == |mem| && pkt.data[..start] == mem[..start]
      invariant ansp <= limit && Progress(mem, pkt.data[..], start, rs + Given(path, found[..k], owner, now), ansp)
      invariant status.Fine? && tally == Tallied(t, path, found[..k]) && Ends(path, found[..k], any, owner, now, used, box).Fine?
    {
      var r := found[k];
      ghost var given := Given(path, found[..k], owner, now);
      GivenMore(path, found, k, owner, now);
      TalliedMore(t, path, found, k);
      EndsMore(path, found, k, any, owner, now, used, box);
      FlatConcat(rs, given);
      ghost var more := if Written(path, r) then [RecordFor(path, r, owner, now)] else [];
      assert (rs + given) + more == rs + (given + more);
      status, ansp := WriteOne(pkt, path, r, any, owner, ansp, limit, now, mem, start, rs + given);
      if !status.Fine? {
        EndsStuck(path, found, k + 1, any, owner, now, used, box);
        return;
      }
      tally := Tally(true, tally.auth && Local(r) && Written(path, r), tally.nx || (!Written(path, r) && r.nx),
                     tally.count + if Written(path, r) then 1 else 0);
    }
    assert found[..|found|] == found;
  }

  lemma EndsNone(path: Path, any: bool, owner: nat, now: int, used: nat, box: Box)
    ensures Ends(path, [], any, owner, now, used, box).Fine?
  {
  }
}
