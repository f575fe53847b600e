/** What the answers in the bytes of a reply say: the fields of every record, and for what a packet brought the
    very bytes of that packet. */
module DnsReplyData {
  import opened Options
  import opened Bytes
  import opened DnsNames
  import opened DnsPackets
  import opened DnsCompare
  import opened DnsRecords
  import opened DnsSection
  import opened DnsExtract
  import opened DnsHistory
  import opened DnsAnswers
  import opened DnsReplies
  import opened DnsReplySafety
  import opened DnsReplyRecords
  import opened DnsReplyTtl
  import opened CacheRecords
  import opened CacheRuns
  import opened CacheHistory
  import opened CacheLookups

  // ---- the fields of an answer

  lemma ShortBack(b: seq<Byte>, p: nat, x: nat)
    requires p + 2 <= |b| && b[p..p + 2] == Short(x)
    ensures U16(b, p) == x % 65536
  {
    assert b[p] == b[p..p + 2][0] && b[p + 1] == b[p..p + 2][1];
  }

  lemma LongReads(b: seq<Byte>, p: nat, x: nat)
    requires p + 4 <= |b| && b[p..p + 4] == Long(x) && x <= 0xffff_ffff
    ensures U32(b, p) == x
  {
    hide Long;
    LongBack(x);
    var l := b[p..p + 4];
    assert b[p] == l[0] && b[p + 1] == l[1] && b[p + 2] == l[2] && b[p + 3] == l[3];
  }

  // The owner is a pointer to the question; then come the type, class IN, the TTL and the length of what follows.
  ghost predicate Fields(b: seq<Byte>, owner: nat, rtype: nat, ttl: nat) {
    && |b| >= 12 && U16(b, 0) == 0xc000 + owner % 16384 && U16(b, 2) == rtype && U16(b, 4) == 1 && U32(b, 6) == ttl
    && U16(b, 10) == (|b| - 12) % 65536
  }

  lemma FixedFields(owner: nat, ttl: nat, rtype: nat, n: nat, data: seq<Byte>)
    requires ttl <= 0xffff_ffff && rtype < 65536 && n == |data|
    ensures Fields(Fixed(owner, ttl, rtype) + Short(n) + data, owner, rtype, ttl)
  {
    hide Short, Long;
    LongLength(ttl);
    var b := Fixed(owner, ttl, rtype) + Short(n) + data;
    assert b[0..2] == Short(owner % 16384 + 0xc000) && b[2..4] == Short(rtype) && b[4..6] == Short(C_IN) && b[6..10] == Long(ttl) && b[10..12] == Short(n);
    ShortBack(b, 0, owner % 16384 + 0xc000);
    ShortBack(b, 2, rtype);
    ShortBack(b, 4, C_IN);
    ShortBack(b, 10, n);
    LongReads(b, 6, ttl);
  }

  function TypeOf(path: Path): nat { if path.ToName? then 12 else if path.ToV6? then 28 else 1 }

  lemma RecordFields(path: Path, r: Rec, owner: nat, now: int)
    ensures Fields(RecordFor(path, r, owner, now), owner, TypeOf(path), Ttl(r, now))
  {
    hide Fields, Fixed, Short, Encode, AddressBytes, Ttl;
    TtlRange(r, now);
    var ttl := Ttl(r, now);
    if path.ToName? {
      var rdata := [] + Encode(ToBytes(r.name));
      FixedFields(owner, ttl, T_PTR, |rdata|, rdata);
    } else {
      var v6 := path.ToV6?;
      AddressLength(owner, ttl, r.addr, v6);
      var f, n, d := Fixed(owner, ttl, if v6 then T_AAAA else T_A), Short(if v6 then 16 else 4), AddressBytes(r.addr, v6);
      FixedFields(owner, ttl, if v6 then T_AAAA else T_A, if v6 then 16 else 4, d);
      assert f + (n + d) == f + n + d;
    }
  }

  lemma TextFields(ask: Ask, pref: nat, rtype: nat, name: string)
    requires rtype < 65536
    ensures Fields(FixedText(ask, pref, rtype, name), ask.owner, rtype, 0)
  {
    hide Fields, Fixed, Short, Encode, ToBytes;
    var rdata := (if pref != 0 then Short(pref) else []) + Encode(ToBytes(name));
    FixedFields(ask.owner, 0, rtype, |rdata|, rdata);
  }

  // The data of a text: its preference, if it has one, and the name written out.
  lemma TextIs(ask: Ask, pref: nat, rtype: nat, name: string)
    ensures var b := FixedText(ask, pref, rtype, name);
            if pref != 0 then |b| >= 14 && U16(b, 12) == pref % 65536 && b[14..] == Encode(ToBytes(name))
            else |b| >= 12 && b[12..] == Encode(ToBytes(name))
  {
    hide Short, Encode, ToBytes, Long;
    LongLength(0);
    var b, e := FixedText(ask, pref, rtype, name), Encode(ToBytes(name));
    if pref != 0 {
      assert b[12..14] == Short(pref);
      ShortBack(b, 12, pref);
    } else {
      assert [] + e == e;
    }
  }

  // The address in the data of a record: four bytes, or sixteen.
  ghost predicate HasAddress(b: seq<Byte>, addr: Addr, v6: bool) {
    if v6
    then && |b| == 28 && U32(b, 12) == addr.word % 0x1_0000_0000
         && (U32(b, 16) * 0x1_0000_0000 + U32(b, 20)) * 0x1_0000_0000 + U32(b, 24) == addr.rest % 0x1_0000_0000_0000_0000_0000_0000
    else |b| == 16 && U32(b, 12) == addr.word % 0x1_0000_0000
  }

  lemma ThreeWords(rest: int)
    ensures (rest / 0x1_0000_0000_0000_0000 % 0x1_0000_0000 * 0x1_0000_0000 + rest / 0x1_0000_0000 % 0x1_0000_0000) * 0x1_0000_0000
            + rest % 0x1_0000_0000 == rest % 0x1_0000_0000_0000_0000_0000_0000
  {
    var w := 0x1_0000_0000;
    assert rest / 0x1_0000_0000_0000_0000 == rest / w / w;
    assert rest == rest / w * w + rest % w && rest / w == rest / w / w * w + rest / w % w;
    var h := rest / w / w;
    assert h == h / w * w + h % w;
    assert rest == h / w * 0x1_0000_0000_0000_0000_0000_0000 + ((h % w * w + rest / w % w) * w + rest % w);
  }

  // Four words behind twelve bytes.
  lemma WordsRead(b: seq<Byte>, w: nat, x: nat, y: nat, z: nat)
    requires |b| == 28 && b[12..] == Long(w) + (Long(x) + Long(y) + Long(z))
    requires w <= 0xffff_ffff && x <= 0xffff_ffff && y <= 0xffff_ffff && z <= 0xffff_ffff
    ensures U32(b, 12) == w && U32(b, 16) == x && U32(b, 20) == y && U32(b, 24) == z
  {
    hide Long, U32;
    Lengths(w, x, y, z);
    var d := b[12..];
    assert b[12..16] == d[..4] == Long(w);
    assert b[16..20] == d[4..8] == Long(x);
    assert b[20..24] == d[8..12] == Long(y);
    assert b[24..28] == d[12..16] == Long(z);
    LongReads(b, 12, w);
    LongReads(b, 16, x);
    LongReads(b, 20, y);
    LongReads(b, 24, z);
  }

  lemma WordRead(b: seq<Byte>, w: nat)
    requires |b| == 16 && b[12..] == Long(w) && w <= 0xffff_ffff
    ensures U32(b, 12) == w
  {
    hide Long, U32;
    assert b[12..16] == b[12..];
    LongReads(b, 12, w);
  }

  /** The data of an address record is the address of the record found, first byte first. */
  lemma AddressReadBack(path: Path, r: Rec, owner: nat, now: int)
    requires !path.ToName?
    ensures HasAddress(RecordFor(path, r, owner, now), r.addr, path.ToV6?)
  {
    hide Fixed, Short, Long, Ttl, U32;
    var v6 := path.ToV6?;
    var b, d := RecordFor(path, r, owner, now), AddressBytes(r.addr, v6);
    AddressLength(owner, Ttl(r, now), r.addr, v6);
    assert b[12..] == d;
    var w := r.addr.word % 0x1_0000_0000;
    if v6 {
      var x, y, z := r.addr.rest / 0x1_0000_0000_0000_0000 % 0x1_0000_0000, r.addr.rest / 0x1_0000_0000 % 0x1_0000_0000, r.addr.rest % 0x1_0000_0000;
      WordsRead(b, w, x, y, z);
      ThreeWords(r.addr.rest);
    } else {
      assert Long(w) + [] == Long(w);
      WordRead(b, w);
    }
  }

  lemma Lengths(w: nat, x: nat, y: nat, z: nat)
    ensures |Long(w)| == |Long(x)| == |Long(y)| == |Long(z)| == 4
  {
  }

  // ---- the records of a packet, by their bytes

  lemma {:induction false} SkimBound(pkt: seq<Byte>, plen: nat, off: nat)
    requires plen <= |pkt|
    ensures Skim(pkt, plen, off).Some? ==> off < Skim(pkt, plen, off).value <= plen + 1 && off < plen
    decreases plen - off
  {
    if off < plen && !IsPointer(pkt[off]) && pkt[off] != 0 { SkimBound(pkt, plen, off + 1 + pkt[off]); }
  }

  // Behind the owner that ends at e are type, class, TTL and length; the record ends within the packet.
  function RecordEnd(pkt: seq<Byte>, plen: nat, off: nat): Option<nat>
    requires plen + SLACK <= |pkt|
  {
    SkimBound(pkt, plen, off);
    match Skim(pkt, plen, off)
    case None => None
    case Some(e) => var n := e + 10 + U16(pkt, e + 8); if n <= plen then Some(n) else None
  }

  // Where the k-th record behind `start` starts.
  function StartOf(pkt: seq<Byte>, plen: nat, start: nat, k: nat): Option<nat>
    requires plen + SLACK <= |pkt|
    decreases k
  {
    if k == 0 then Some(start)
    else match RecordEnd(pkt, plen, start)
         case None => None
         case Some(next) => StartOf(pkt, plen, next, k - 1)
  }

  // The k-th record starts at off, and its type is at e.
  ghost predicate RecordHere(pkt: seq<Byte>, plen: nat, start: nat, k: nat, off: nat, e: nat) {
    && plen + SLACK <= |pkt| && StartOf(pkt, plen, start, k) == Some(off) && Skim(pkt, plen, off) == Some(e)
    && e + 10 <= plen && e + 10 + U16(pkt, e + 8) <= plen
  }

  // A resource record as the bytes at off and e say.
  ghost predicate ReadsAs(pkt: seq<Byte>, plen: nat, off: nat, e: nat, rr: Resource)
    requires plen + SLACK <= |pkt| && e + 10 <= plen
  {
    && LabelsAt(pkt, plen, off) == Some(rr.owner) && rr.inet == (U16(pkt, e + 2) == 1) && rr.ttl == U32(pkt, e + 4)
    && match rr.data
       case V4(a) => U16(pkt, e) == 1 && a.word == U32(pkt, e + 10)
       case V6(a) => U16(pkt, e) == 28 && a.word == U32(pkt, e + 10)
                     && a.rest == (U32(pkt, e + 14) * 0x1_0000_0000 + U32(pkt, e + 18)) * 0x1_0000_0000 + U32(pkt, e + 22)
       case Pointer(n) => U16(pkt, e) == 12 && n == NameAt(pkt, plen, e + 10)
       case Alias(n) => U16(pkt, e) == 5 && n == NameAt(pkt, plen, e + 10)
       case Other => U16(pkt, e) != 1 && U16(pkt, e) != 28 && U16(pkt, e) != 12 && U16(pkt, e) != 5
  }

  lemma RecordAtReads(pkt: seq<Byte>, plen: nat, off: nat)
    requires plen + SLACK <= |pkt| && off <= plen && RecordAt(pkt, plen, off).Some?
    ensures var (rr, next) := RecordAt(pkt, plen, off).value;
            && RecordEnd(pkt, plen, off) == Some(next) && Skim(pkt, plen, off).Some?
            && var e := Skim(pkt, plen, off).value; e + 10 <= plen && e + 10 + U16(pkt, e + 8) == next && ReadsAs(pkt, plen, off, e, rr)
  {
    hide Spells, Skim, NameAt, LabelsAt, DnsNames.End, U16, U32;
    NameEnd(pkt, plen, off);
    SkimIsEnd(pkt, plen, off);
    SkimBound(pkt, plen, off);
  }

  /** Every record of a section is where the bytes say, and says what they say. */
  lemma {:induction false} SectionAt(pkt: seq<Byte>, plen: nat, n: nat, start: nat, k: nat) returns (off: nat, e: nat)
    requires plen + SLACK <= |pkt| && start <= plen && k < |Section(pkt, plen, n, start)|
    ensures RecordHere(pkt, plen, start, k, off, e) && ReadsAs(pkt, plen, off, e, Section(pkt, plen, n, start)[k])
    decreases k
  {
    hide RecordAt, ReadsAs, Skim, U16, U32, RecordEnd;
    RecordAtReads(pkt, plen, start);
    var (rr, next) := RecordAt(pkt, plen, start).value;
    if k == 0 {
      off, e := start, Skim(pkt, plen, start).value;
    } else {
      off, e := SectionAt(pkt, plen, n - 1, next, k - 1);
    }
  }

  // ---- equal numbers are equal bytes

  lemma SameShort(a: seq<Byte>, p: nat, b: seq<Byte>, q: nat)
    requires p + 2 <= |a| && q + 2 <= |b| && U16(a, p) == U16(b, q)
    ensures a[p] == b[q] && a[p + 1] == b[q + 1]
  {
  }

  lemma SameLong(a: seq<Byte>, p: nat, b: seq<Byte>, q: nat)
    requires p + 4 <= |a| && q + 4 <= |b| && U32(a, p) == U32(b, q)
    ensures a[p..p + 4] == b[q..q + 4]
  {
    hide U16;
    HalfBound(a, p);
    HalfBound(a, p + 2);
    HalfBound(b, q);
    HalfBound(b, q + 2);
    SameShort(a, p, b, q);
    SameShort(a, p + 2, b, q + 2);
  }

  lemma HalfBound(a: seq<Byte>, p: nat)
    requires p + 2 <= |a|
    ensures 0 <= U16(a, p) < 65536
  {
  }

  lemma WordsApart(x: nat, y: nat, z: nat, a: nat, b: nat, c: nat)
    requires x < 0x1_0000_0000 && y < 0x1_0000_0000 && z < 0x1_0000_0000 && a < 0x1_0000_0000 && b < 0x1_0000_0000 && c < 0x1_0000_0000
    requires (x * 0x1_0000_0000 + y) * 0x1_0000_0000 + z == (a * 0x1_0000_0000 + b) * 0x1_0000_0000 + c
    ensures x == a && y == b && z == c
  {
  }

  lemma FourWords(a: seq<Byte>, p: nat, b: seq<Byte>, q: nat)
    requires p + 16 <= |a| && q + 16 <= |b|
    requires a[p..p + 4] == b[q..q + 4] && a[p + 4..p + 8] == b[q + 4..q + 8] && a[p + 8..p + 12] == b[q + 8..q + 12] && a[p + 12..p + 16] == b[q + 12..q + 16]
    ensures a[p..p + 16] == b[q..q + 16]
  {
    assert a[p..p + 16] == a[p..p + 4] + a[p + 4..p + 8] + a[p + 8..p + 12] + a[p + 12..p + 16];
    assert b[q..q + 16] == b[q..q + 4] + b[q + 4..q + 8] + b[q + 8..q + 12] + b[q + 12..q + 16];
  }

  function SizeOf(path: Path): nat { if path.ToV6? then 16 else 4 }

  // An address that was read from a packet and is written into a reply is the same bytes.
  lemma SameBytes(pkt: seq<Byte>, plen: nat, off: nat, e: nat, rr: Resource, rec: seq<Byte>, addr: Addr, path: Path)
    requires plen + SLACK <= |pkt| && e + 10 <= plen && ReadsAs(pkt, plen, off, e, rr) && !path.ToName?
    requires if path.ToV6? then rr.data.V6? && addr == rr.data.addr else rr.data.V4? && addr.word == rr.data.addr.word
    requires HasAddress(rec, addr, path.ToV6?)
    ensures |rec| == 12 + SizeOf(path) && rec[12..] == pkt[e + 10..e + 10 + SizeOf(path)] && U16(pkt, e) == TypeOf(path)
  {
    hide U32, U16, LabelsAt, NameAt;
    SameLong(rec, 12, pkt, e + 10);
    assert rec[12..] == rec[12..|rec|];
    if path.ToV6? {
      SmallRest(U32(pkt, e + 14), U32(pkt, e + 18), U32(pkt, e + 22));
      WordsApart(U32(rec, 16), U32(rec, 20), U32(rec, 24), U32(pkt, e + 14), U32(pkt, e + 18), U32(pkt, e + 22));
      SameLong(rec, 16, pkt, e + 14);
      SameLong(rec, 20, pkt, e + 18);
      SameLong(rec, 24, pkt, e + 22);
      FourWords(rec, 12, pkt, e + 10);
    }
  }

  lemma SmallRest(x: nat, y: nat, z: nat)
    requires x <= 0xffff_ffff && y <= 0xffff_ffff && z <= 0xffff_ffff
    ensures var r := (x * 0x1_0000_0000 + y) * 0x1_0000_0000 + z; r % 0x1_0000_0000_0000_0000_0000_0000 == r
  {
  }

  // ---- what a packet brought

  // What can be stored for a record of a section.
  lemma StoredIs(arpa: string -> Option<Arpa>, owner: Labels, data: Data, ttl: nat, rq: Request)
    requires owner != [] && rq in Stored(arpa, owner, data, ttl).requests
    ensures rq.ttl == ttl
    ensures rq.ForName? ==> rq.name == NameOf(owner) && (if rq.v6 then data.V6? else data.V4?) && rq.known == Some(data.addr)
    ensures rq.ForAddr? ==> data.Pointer? && data.name.Some? && data.name.value != [] && rq.name == NameOf(data.name.value)
                            && arpa(NameOf(owner)) == Some(Arpa(rq.addr, rq.v6))
  {
    hide NameOf;
  }

  // The record at w is an alias whose target agrees with the owner of the record at off.
  ghost predicate AliasLeads(pkt: seq<Byte>, plen: nat, off: nat, ew: nat)
    requires plen + SLACK <= |pkt| && ew + 10 <= plen
  {
    var target, owner := NameAt(pkt, plen, ew + 10), LabelsAt(pkt, plen, off);
    U16(pkt, ew) == 5 && target.Some? && target.value != [] && owner.Some? && Agrees(owner.value, Buffer(target.value))
  }

  predicate SameArpa(arpa: string -> Option<Arpa>, a: string, b: string) {
    arpa(a).Some? && arpa(b).Some? && arpa(a).value.v6 == arpa(b).value.v6 && SameAddr(arpa(a).value.addr, arpa(b).value.addr, arpa(a).value.v6)
  }

  // Where the records of an answer are in the packet: k holds the data, w the name.
  datatype Place = Place(h: nat, k: nat, off: nat, e: nat, w: nat, offw: nat, ew: nat)

  // The record of n bytes at `at` in the reply `out`, sent at t, is what packet h brought.
  ghost predicate Brought(arpa: string -> Option<Arpa>, hs: seq<Happening>, t: int, ask: Ask, path: Path, rec: seq<Byte>, x: Place) {
    && x.h < |hs| && hs[x.h].Packet? && HappensBy(arpa, hs[x.h], t) && |rec| >= 12
    && var pkt, plen, start := hs[x.h].pkt, hs[x.h].plen, hs[x.h].start;
       && x.k < hs[x.h].ancount && RecordHere(pkt, plen, start, x.k, x.off, x.e) && U16(pkt, x.e + 2) == 1
       && x.w < hs[x.h].ancount && RecordHere(pkt, plen, start, x.w, x.offw, x.ew) && U16(pkt, x.ew + 2) == 1
       && (x.w != x.k ==> AliasLeads(pkt, plen, x.off, x.ew)) && U16(pkt, x.e) == TypeOf(path) == U16(rec, 2)
       && LabelsAt(pkt, plen, x.offw).Some? && LabelsAt(pkt, plen, x.offw).value != []
       && Lasts(hs[x.h].at, if x.w == x.k then U32(pkt, x.e + 4) else Min(U32(pkt, x.ew + 4), U32(pkt, x.e + 4)), t, U32(rec, 6))
       && var name := NameOf(LabelsAt(pkt, plen, x.offw).value);
          if path.ToName? then SameArpa(arpa, name, ask.name) && Spelt(pkt, plen, x.e, rec)
          else name == ask.name && |rec| == 12 + SizeOf(path) && rec[12..] == pkt[x.e + 10..x.e + 10 + SizeOf(path)]
  }

  // A TTL of n that arrived at t0: left is what remains of it at t.
  predicate Lasts(t0: int, n: nat, t: int, left: nat) { t < t0 + n && left == t0 + n - t }

  // The data is the name that the packet has at e + 10, written out.
  ghost predicate Spelt(pkt: seq<Byte>, plen: nat, e: nat, rec: seq<Byte>)
    requires plen + SLACK <= |pkt| && e + 10 <= plen && |rec| >= 12
  {
    var name := NameAt(pkt, plen, e + 10);
    name.Some? && name.value != [] && rec[12..] == Encode(Buffer(name.value))
  }

  // Which insert a record that answers comes from.
  lemma AddressFrom(path: Path, ask: Ask, arpa: string -> Option<Arpa>, q: Query, t: int, r: Rec, rq: Request, at: int)
    requires !path.ToName? && Looks(path, ask, arpa, q) && Matches(r, q, t) && Answers(r, rq, at)
    ensures rq.ForName? && rq.v6 == path.ToV6? && rq.name == ask.name
    ensures rq.known.Some? ==> if path.ToV6? then r.addr == rq.known.value else r.addr.word == rq.known.value.word
  {
  }

  lemma NameFrom(ask: Ask, arpa: string -> Option<Arpa>, q: Query, t: int, r: Rec, rq: Request, at: int)
    requires Looks(ToName, ask, arpa, q) && Matches(r, q, t) && Answers(r, rq, at)
    ensures rq.ForAddr? && r.name == rq.name && r.rev && arpa(ask.name).Some?
    ensures var b := arpa(ask.name).value; b.v6 == rq.v6 && SameAddr(rq.addr, b.addr, rq.v6)
  {
  }

  // The records that state an insert, in the bytes of the packet.
  lemma StatedPlace(arpa: string -> Option<Arpa>, pkt: seq<Byte>, plen: nat, n: nat, start: nat, rq: Request, h: nat)
    returns (x: Place, data: Resource, owner: Resource)
    requires plen + SLACK <= |pkt| && start <= plen && Stated(arpa, Section(pkt, plen, n, start), rq)
    ensures x.h == h && x.k < n && x.w < n && RecordHere(pkt, plen, start, x.k, x.off, x.e) && RecordHere(pkt, plen, start, x.w, x.offw, x.ew)
    ensures ReadsAs(pkt, plen, x.off, x.e, data) && ReadsAs(pkt, plen, x.offw, x.ew, owner) && data.inet && owner.inet && owner.owner != []
    ensures x.w != x.k ==> AliasLeads(pkt, plen, x.off, x.ew)
    ensures rq in Stored(arpa, owner.owner, data.data, if x.w == x.k then data.ttl else Min(owner.ttl, data.ttl)).requests
  {
    hide Stored, Agrees, RecordHere, U16, U32, NameAt, LabelsAt;
    var rrs := Section(pkt, plen, n, start);
    var w :| 0 <= w < |rrs| && StatedBy(arpa, rrs[w], rrs, rq);
    owner := rrs[w];
    var offw, ew := SectionAt(pkt, plen, n, start, w);
    HereBounds(pkt, plen, start, w, offw, ew);
    if rq in Stored(arpa, owner.owner, owner.data, owner.ttl).requests {
      data := owner;
      x := Place(h, w, offw, ew, w, offw, ew);
    } else {
      var k :| 0 <= k < |rrs| && StatedVia(arpa, owner, owner.data.name.value, rrs[k], rq);
      data := rrs[k];
      var off, e := SectionAt(pkt, plen, n, start, k);
      HereBounds(pkt, plen, start, k, off, e);
      AliasEmpty(arpa, owner, owner.data, owner.ttl);
      if k == w { AliasEmpty(arpa, owner, owner.data, Min(owner.ttl, data.ttl)); }
      x := Place(h, k, off, e, w, offw, ew);
    }
  }

  lemma HereBounds(pkt: seq<Byte>, plen: nat, start: nat, k: nat, off: nat, e: nat)
    requires RecordHere(pkt, plen, start, k, off, e)
    ensures plen + SLACK <= |pkt| && e + 10 <= plen
  {
  }

  // An alias stores nothing by itself.
  lemma AliasEmpty(arpa: string -> Option<Arpa>, owner: Resource, data: Data, ttl: nat)
    requires owner.owner != [] && data.Alias?
    ensures Stored(arpa, owner.owner, data, ttl).requests == []
  {
  }

  lemma AddressBrought(arpa: string -> Option<Arpa>, hs: seq<Happening>, t: int, ask: Ask, path: Path, r: Rec, q: Query, h: nat, rq: Request) returns (x: Place)
    requires h < |hs| && hs[h].Packet? && HappensBy(arpa, hs[h], t) && !path.ToName? && 0 <= t
    requires Looks(path, ask, arpa, q) && Matches(r, q, t) && Answers(r, rq, hs[h].at) && t < hs[h].at + rq.ttl && AnswerTtl(r, t) == hs[h].at + rq.ttl - t
    requires Stated(arpa, Section(hs[h].pkt, hs[h].plen, hs[h].ancount, hs[h].start), rq)
    ensures Brought(arpa, hs, t, ask, path, RecordFor(path, r, ask.owner, t), x)
  {
    hide Stored, RecordHere, U16, U32, NameAt, LabelsAt, RecordFor, Looks, Matches, Answers, Stated, WalkOf, AnswerTtl, AliasLeads, Section, NameOf, Ttl, Ordinary;
    var rec := RecordFor(path, r, ask.owner, t);
    var data, owner;
    x, data, owner := StatedPlace(arpa, hs[h].pkt, hs[h].plen, hs[h].ancount, hs[h].start, rq, h);
    StoredIs(arpa, owner.owner, data.data, if x.w == x.k then data.ttl else Min(owner.ttl, data.ttl), rq);
    HereBounds(hs[h].pkt, hs[h].plen, hs[h].start, x.k, x.off, x.e);
    HereBounds(hs[h].pkt, hs[h].plen, hs[h].start, x.w, x.offw, x.ew);
    AddressFrom(path, ask, arpa, q, t, r, rq, hs[h].at);
    AddressReadBack(path, r, ask.owner, t);
    SameBytes(hs[h].pkt, hs[h].plen, x.off, x.e, data, rec, r.addr, path);
    RecordFields(path, r, ask.owner, t);
    LeftIs(r, t, hs[h].at, rq);
  }

  lemma LeftIs(r: Rec, t: int, at: int, rq: Request)
    requires Answers(r, rq, at) && t < at + rq.ttl && AnswerTtl(r, t) == at + rq.ttl - t && 0 <= t
    ensures Ttl(r, t) == at + rq.ttl - t
  {
    Fits(r, t, at + rq.ttl - t, at, rq);
  }

  lemma TextBack(s: seq<Byte>)
    ensures ToBytes(ToText(s)) == s
  {
  }

  // The data of a text record without preference is the name, written out.
  lemma TextData(path: Path, r: Rec, owner: nat, now: int)
    requires path.ToName?
    ensures var b := RecordFor(path, r, owner, now); |b| >= 12 && b[12..] == Encode(ToBytes(r.name))
  {
    hide Encode, Short, Long, ToBytes, Ttl;
    LongLength(Ttl(r, now));
    var e := Encode(ToBytes(r.name));
    assert [] + e == e;
  }

  lemma NameBrought(arpa: string -> Option<Arpa>, hs: seq<Happening>, t: int, ask: Ask, path: Path, r: Rec, q: Query, h: nat, rq: Request) returns (x: Place)
    requires h < |hs| && hs[h].Packet? && HappensBy(arpa, hs[h], t) && path.ToName? && 0 <= t
    requires Looks(path, ask, arpa, q) && Matches(r, q, t) && Answers(r, rq, hs[h].at) && t < hs[h].at + rq.ttl && AnswerTtl(r, t) == hs[h].at + rq.ttl - t
    requires Stated(arpa, Section(hs[h].pkt, hs[h].plen, hs[h].ancount, hs[h].start), rq)
    ensures Brought(arpa, hs, t, ask, path, RecordFor(path, r, ask.owner, t), x)
  {
    hide Stored, RecordHere, U16, U32, NameAt, LabelsAt, RecordFor, Looks, Matches, Answers, Stated, WalkOf, AnswerTtl, AliasLeads, Section, Buffer, Ttl, Ordinary, Encode;
    var rec := RecordFor(path, r, ask.owner, t);
    var data, owner;
    x, data, owner := StatedPlace(arpa, hs[h].pkt, hs[h].plen, hs[h].ancount, hs[h].start, rq, h);
    StoredIs(arpa, owner.owner, data.data, if x.w == x.k then data.ttl else Min(owner.ttl, data.ttl), rq);
    HereBounds(hs[h].pkt, hs[h].plen, hs[h].start, x.k, x.off, x.e);
    HereBounds(hs[h].pkt, hs[h].plen, hs[h].start, x.w, x.offw, x.ew);
    NameFrom(ask, arpa, q, t, r, rq, hs[h].at);
    TextData(path, r, ask.owner, t);
    TextBack(Buffer(data.data.name.value));
    RecordFields(path, r, ask.owner, t);
    LeftIs(r, t, hs[h].at, rq);
  }

  /** A record of a reply that comes from the cache was brought by a packet: its type, its data and its TTL are
      those of a record of that packet, under the name asked for or an alias of it. */
  lemma AnswerBrought(arpa: string -> Option<Arpa>, size: nat, hs: seq<Happening>, t: int, ask: Ask, rec: seq<Byte>, path: Path, q: Query, r: Rec) returns (x: Place)
    requires size >= 3 && 0 <= t <= TIME_MAX && forall i :: 0 <= i < |hs| ==> HappensBy(arpa, hs[i], t)
    requires IsAnswer(rec, Run(size, History(arpa, hs, t)).st.recs, ask, arpa, t, path, q, r) && Ordinary(r)
    ensures Brought(arpa, hs, t, ask, path, rec, x)
  {
    hide Run, History, HappensBy, Section, Stated, RecordFor, Brought, Answers, AnswerTtl, Matches, Looks;
    if path.ToName? { Reversed(path, ask, arpa, q, t, r); }
    var h, rq := TtlEndToEnd(arpa, size, hs, q, t, r);
    if path.ToName? {
      x := NameBrought(arpa, hs, t, ask, path, r, q, h, rq);
    } else {
      x := AddressBrought(arpa, hs, t, ask, path, r, q, h, rq);
    }
  }

  lemma Reversed(path: Path, ask: Ask, arpa: string -> Option<Arpa>, q: Query, t: int, r: Rec)
    requires path.ToName? && Looks(path, ask, arpa, q) && Matches(r, q, t)
    ensures r.rev
  {
  }

  // ---- names

  // Labels of a name that is a text: proper ones without a zero byte.
  predicate Textual(ls: Labels) { Proper(ls) && 0 !in Join(ls) }

  lemma TextualBuffer(ls: Labels)
    requires Textual(ls)
    ensures Buffer(ls) == Join(ls)
  {
    NoZero(Join(ls));
  }

  // The name that a reply gives for an address is read back as the name that the packet gave.
  lemma SpeltBack(pkt: seq<Byte>, plen: nat, e: nat, rec: seq<Byte>, out: seq<Byte>, olen: nat, at: nat, ls: Labels)
    requires plen + SLACK <= |pkt| && e + 10 <= plen && |rec| >= 12 && Spelt(pkt, plen, e, rec) && NameAt(pkt, plen, e + 10) == Some(ls)
    requires Textual(ls) && at + |rec| <= olen <= |out| && out[at..at + |rec|] == rec
    ensures Names(out, olen, at + 12, 0, ls) && DnsNames.End(out, at + 12) == at + |rec|
  {
    hide Encode, Wire, Spells, LabelsAt, DnsNames.End, Dotted;
    TextualBuffer(ls);
    EncodeJoin(ls);
    var n := |rec|;
    assert out[at + 12..at + n] == out[at..at + n][12..];
    SpellsWire(out, olen, at + 12, ls);
  }

  // Two such names have the same text only if they are the same, label by label.
  lemma NamesApart(a: Labels, b: Labels)
    requires Textual(a) && Textual(b) && NameOf(a) == NameOf(b)
    ensures a == b
  {
    hide Wire, Encode, Spells;
    TextualBuffer(a);
    TextualBuffer(b);
    TextBack(Join(a));
    TextBack(Join(b));
    EncodeJoin(a);
    EncodeJoin(b);
    var mem := Wire(a);
    assert mem[0..0 + |Wire(a)|] == Wire(a);
    SpellsWire(mem, |mem|, 0, a);
    SpellsWire(mem, |mem|, 0, b);
    SpellsUnique(mem, |mem|, 0, 0, a, 0, b);
  }

  // ---- the reply

  // The i-th record of a part is in the reply, and whatever it comes from, it says what that says.
  ghost predicate ToldAt(o: Settings, hs: seq<Happening>, recs: seq<Rec>, t: int, out: seq<Byte>, ansp: nat, p: Part, i: nat)
    requires i < |p.records|
  {
    var at, rec := p.at + |Flat(p.records[..i])|, p.records[i];
    && at + |rec| <= ansp <= |out| && out[at..at + |rec|] == rec
    && forall path, q, r :: IsAnswer(rec, recs, p.ask, o.arpa, t, path, q, r) ==> Told(o, hs, t, p.ask, rec, path, r)
  }

  ghost predicate Told(o: Settings, hs: seq<Happening>, t: int, ask: Ask, rec: seq<Byte>, path: Path, r: Rec) {
    && Fields(rec, ask.owner, TypeOf(path), Ttl(r, t))
    && (!path.ToName? ==> HasAddress(rec, r.addr, path.ToV6?))
    && (path.ToName? ==> rec[12..] == Encode(ToBytes(r.name)))
    && (Ordinary(r) ==> exists x :: Brought(o.arpa, hs, t, ask, path, rec, x))
  }

  lemma RecordTold(size: nat, hs: seq<Happening>, t: int, o: Settings, ask: Ask, rec: seq<Byte>, path: Path, q: Query, r: Rec)
    requires size >= 3 && 0 <= t <= TIME_MAX && forall i :: 0 <= i < |hs| ==> HappensBy(o.arpa, hs[i], t)
    requires IsAnswer(rec, Run(size, History(o.arpa, hs, t)).st.recs, ask, o.arpa, t, path, q, r)
    ensures Told(o, hs, t, ask, rec, path, r)
  {
    hide Run, History, HappensBy, RecordFor, Brought, Fields, HasAddress, Encode, Ttl;
    RecordFields(path, r, ask.owner, t);
    FieldsLength(rec, ask.owner, TypeOf(path), Ttl(r, t));
    if path.ToName? { TextData(path, r, ask.owner, t); } else { AddressReadBack(path, r, ask.owner, t); }
    if Ordinary(r) { var x := AnswerBrought(o.arpa, size, hs, t, ask, rec, path, q, r); }
  }

  lemma FieldsLength(b: seq<Byte>, owner: nat, rtype: nat, ttl: nat)
    requires Fields(b, owner, rtype, ttl)
    ensures |b| >= 12
  {
  }

  /** Replies end to end. In every history, each record in the bytes of every reply sent at t has the fields of
      what it comes from; and what was learned from a packet has the type, the data bytes, the TTL less the time
      since and the owner of a record of that packet, or of two that an alias joins. */
  lemma ReplyData(size: nat, hs: seq<Happening>, t: int, o: Settings, mem: seq<Byte>, plen: nat, n: nat, limit: nat, start: nat)
    returns (parts: seq<Part>)
    requires size >= 3 && 0 <= t <= TIME_MAX && forall i :: 0 <= i < |hs| ==> HappensBy(o.arpa, hs[i], t)
    requires Ready(Begin(Run(size, History(o.arpa, hs, t)).st, mem, start), plen, n, limit) && Skip(mem, plen, n, HEADER_SIZE) == Some(start)
    ensures start <= plen <= |mem|
    ensures var st := Run(size, History(o.arpa, hs, t)).st;
            match Replies(Turning(o, t, plen, limit), Begin(st, mem, start), n)
            case Replied(_, out, ansp, _, _, log) =>
              && |parts| == n && Accounted(mem, start, plen, st.recs, o, t, parts, out, ansp, log)
              && forall k, i :: 0 <= k < |parts| && 0 <= i < |parts[k].records| ==> ToldAt(o, hs, st.recs, t, out, ansp, parts[k], i)
            case _ => true
  {
    hide Run, History, HappensBy, Replies, Turning, Accounted, HonestAt, ToldAt, Ready, Skip;
    var st := Run(size, History(o.arpa, hs, t)).st;
    parts := ReplyTtl(size, hs, t, o, mem, plen, n, limit, start);
    var r := Replies(Turning(o, t, plen, limit), Begin(st, mem, start), n);
    if r.Replied? {
      AccountedBounds(mem, start, plen, st.recs, o, t, parts, r.mem, r.ansp, r.log);
      forall k, i | 0 <= k < |parts| && 0 <= i < |parts[k].records|
        ensures ToldAt(o, hs, st.recs, t, r.mem, r.ansp, parts[k], i)
      {
        HonestTold(size, hs, t, o, r.mem, r.ansp, parts[k], i);
      }
    }
  }

  lemma HonestTold(size: nat, hs: seq<Happening>, t: int, o: Settings, out: seq<Byte>, ansp: nat, p: Part, i: nat)
    requires size >= 3 && 0 <= t <= TIME_MAX && forall i :: 0 <= i < |hs| ==> HappensBy(o.arpa, hs[i], t)
    requires i < |p.records| && ansp <= |out| && HonestAt(o.arpa, hs, Run(size, History(o.arpa, hs, t)).st.recs, t, out, ansp, p, i)
    ensures ToldAt(o, hs, Run(size, History(o.arpa, hs, t)).st.recs, t, out, ansp, p, i)
  {
    hide Run, History, HappensBy, IsAnswer, Told, Honest, Flat, U32;
    var recs := Run(size, History(o.arpa, hs, t)).st.recs;
    forall path, q, r | IsAnswer(p.records[i], recs, p.ask, o.arpa, t, path, q, r)
      ensures Told(o, hs, t, p.ask, p.records[i], path, r)
    {
      RecordTold(size, hs, t, o, p.ask, p.records[i], path, q, r);
    }
  }
}
