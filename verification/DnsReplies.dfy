/** answer_request as a whole: every question in turn, answered behind the question section or the
    whole request given up. */
module DnsReplies {
  import opened Options
  import opened Bytes
  import opened DnsNames
  import opened DnsPackets
  import opened DnsCompare
  import opened DnsRecords
  import opened DnsSection
  import opened DnsExtract
  import opened DnsOwners
  import opened DnsAnswers
  import opened CacheRecords
  import opened CacheRuns
  import Cache

  // ---- settings and questions

  // The options, the fixed mail exchanger, and what the system makes of addresses.
  datatype Settings = Settings(filter: bool, bogusPriv: bool, selfMx: bool, mxName: Option<string>, mxTarget: string,
                               arpa: string -> Option<Arpa>, private: Addr -> bool, dotted: Addr -> string)

  // The offset of a question, its name and its type.
  datatype Ask = Ask(owner: nat, name: string, qtype: nat)

  // ---- one question, stage by stage

  // The cache, what is known so far, the records given so far, and whether the request goes on.
  datatype Stage = Stage(st: State, tally: Tally, records: seq<seq<Byte>>, status: Status)

  // The records must fit the room that is left.
  ghost function Capped(s: Stage, before: Stage, box: Box): Stage {
    var e := Fitting(box, |Flat(s.records)|);
    if e.Fine? then s else before.(st := s.st, status := e)
  }

  // Everything the cache holds for a key.
  ghost function FromCache(s: Stage, path: Path, q: Query, ask: Ask, now: int, box: Box): Stage {
    var w := Lookup(q, now);
    var found, st := Front(s.st.recs, w), Swept(s.st, w);
    var e := Ends(path, found, ask.qtype == T_ANY, ask.owner, now, |Flat(s.records)|, box);
    if !e.Fine? then s.(st := st, status := e)
    else Stage(st, Tallied(s.tally, path, found), s.records + Given(path, found, ask.owner, now), Fine)
  }

  ghost function WithText(s: Stage, ask: Ask, pref: nat, rtype: nat, name: string, box: Box): Stage {
    Capped(s.(tally := s.tally.(ans := true, count := s.tally.count + 1), records := s.records + [RecordBytes(ask.owner, 0, pref, rtype, ToBytes(name))]), s, box)
  }

  // Names for an address; for a private one that is not known, its own digits.
  ghost function PtrStage(s: Stage, ask: Ask, a: Arpa, o: Settings, now: int, box: Box): Stage {
    var t := FromCache(s, ToName, Query(Address(a.addr), if a.v6 then OnlyV6 else OnlyV4), ask, now, box);
    if t.status.Fine? && !t.tally.ans && !a.v6 && o.bogusPriv && o.private(a.addr)
    then WithText(t, ask, 0, T_PTR, o.dotted(a.addr), box)
    else t
  }

  // Addresses for a name; wildcard questions for names with underscores are answered with nothing.
  ghost function AddressStage(s: Stage, path: Path, ask: Ask, o: Settings, now: int, box: Box): Stage {
    if o.filter && ask.qtype == T_ANY && '_' in ask.name then s.(tally := s.tally.(ans := true))
    else FromCache(s, path, Query(Name(ask.name), if path.ToV6? then OnlyV6 else OnlyV4), ask, now, box)
  }

  // The fixed exchanger, or the host itself if it is known locally.
  ghost function MxStage(s: Stage, ask: Ask, o: Settings, now: int, box: Box): Stage {
    if o.mxName == Some(ask.name) then WithText(s, ask, 1, T_MX, o.mxTarget, box)
    else if o.selfMx then
      var w := Lookup(Query(Name(ask.name), LocalData), now);
      var t := s.(st := Swept(s.st, w));
      if Front(s.st.recs, w) != [] then WithText(t, ask, 1, T_MX, ask.name, box) else t
    else s
  }

  predicate Asks(ask: Ask, qtype: nat) { ask.qtype == qtype || ask.qtype == T_ANY }

  // A name that does not stand for an address.
  ghost function HostStage(s: Stage, ask: Ask, o: Settings, now: int, box: Box): Stage {
    var s1 := if Asks(ask, T_A) then AddressStage(s, ToV4, ask, o, now, box) else s;
    var s2 := if s1.status.Fine? && Asks(ask, T_AAAA) then AddressStage(s1, ToV6, ask, o, now, box) else s1;
    if s2.status.Fine? && Asks(ask, T_MX) then MxStage(s2, ask, o, now, box) else s2
  }

  ghost function QuestionStage(s: Stage, ask: Ask, o: Settings, now: int, box: Box): Stage {
    var s1 := if o.filter && (ask.qtype == T_SOA || ask.qtype == T_SRV) then s.(tally := s.tally.(ans := true)) else s;
    match o.arpa(ask.name)
    case None => HostStage(s1, ask, o, now, box)
    case Some(a) => if Asks(ask, T_PTR) then PtrStage(s1, ask, a, o, now, box) else s1
  }

  // ---- the same on the cache and the packet

  function BoxAt(mem: seq<Byte>, start: nat, limit: nat): Box
    requires start <= limit <= |mem|
  {
    Box(limit - start, |mem| - start)
  }

  // Everything that lasts between the stages of a question whose records start at `start`.
  ghost predicate At(cache: Cache.Cache, pkt: Packet, s: Stage, mem: seq<Byte>, start: nat, limit: nat, ansp: nat)
    reads cache, cache.nodes, pkt, pkt.data
  {
    && cache.Valid() && cache.Abs() == s.st
    && limit <= |mem| && |pkt.data[..]| == |mem| && start <= limit && pkt.data[..start] == mem[..start]
    && (s.status.Fine? ==> ansp <= limit && Progress(mem, pkt.data[..], start, s.records, ansp))
  }

  method AnswerFromCache(cache: Cache.Cache, pkt: Packet, path: Path, q: Query, ask: Ask, now: int, limit: nat, from: nat, t: Tally,
                         ghost s: Stage, ghost mem: seq<Byte>, ghost start: nat)
    returns (status: Status, ansp: nat, tally: Tally, ghost after: Stage)
    requires At(cache, pkt, s, mem, start, limit, from) && s.status.Fine? && s.tally == t
    modifies cache, cache.nodes, pkt.data
    ensures Cache.SameNodes(cache.nodes, old(cache.nodes)) && At(cache, pkt, after, mem, start, limit, ansp)
    ensures after == FromCache(s, path, q, ask, now, BoxAt(mem, start, limit)) && status == after.status && tally == after.tally
  {
    hide Progress, Given, Flat, Tallied, Swept, Arrange, Front, Ends, Times, Matches;
    ghost var w, recs := Lookup(q, now), cache.recs;
    SweptRecs(s.st, w);
    var found := cache.FindAll(q, now);
    after := FromCache(s, path, q, ask, now, BoxAt(mem, start, limit));
    var u;
    status, ansp, u := WriteAll(pkt, path, found, ask.qtype == T_ANY, ask.owner, from, limit, now, t, mem, start, s.records);
    tally := if status.Fine? then u else t;
  }

  lemma SweptRecs(st: State, w: Sweep)
    ensures Swept(st, w).recs == Arrange(st.recs, w)
  {
  }

  method AnswerText(cache: Cache.Cache, pkt: Packet, ask: Ask, pref: nat, rtype: nat, name: string, limit: nat, from: nat, t: Tally,
                    ghost s: Stage, ghost mem: seq<Byte>, ghost start: nat)
    returns (status: Status, ansp: nat, tally: Tally, ghost after: Stage)
    requires At(cache, pkt, s, mem, start, limit, from) && s.status.Fine? && s.tally == t
    modifies pkt.data
    ensures At(cache, pkt, after, mem, start, limit, ansp)
    ensures after == WithText(s, ask, pref, rtype, name, BoxAt(mem, start, limit)) && status == after.status && tally == after.tally
  {
    hide Progress, Flat, RecordBytes, Splice, ToBytes;
    after := WithText(s, ask, pref, rtype, name, BoxAt(mem, start, limit));
    var rec := RecordBytes(ask.owner, 0, pref, rtype, ToBytes(name));
    ProgressKeeps(mem, pkt.data[..], start, s.records, from);
    FlatMore(s.records, rec);
    status, ansp, tally := Fine, from, t;
    if from + |rec| > pkt.data.Length { return Over, from, t, after; }
    ProgressMore(mem, pkt.data[..], start, s.records, from, rec);
    ansp := pkt.AddTextRecord(ask.owner, from, 0, pref, rtype, ToBytes(name));
    ProgressKeeps(mem, pkt.data[..], start, s.records + [rec], ansp);
    if ansp > limit { return Up, ansp, t, after; }
    tally := t.(ans := true, count := t.count + 1);
  }

  method AnswerPtr(cache: Cache.Cache, pkt: Packet, ask: Ask, a: Arpa, o: Settings, now: int, limit: nat, from: nat, t: Tally,
                   ghost s: Stage, ghost mem: seq<Byte>, ghost start: nat)
    returns (status: Status, ansp: nat, tally: Tally, ghost after: Stage)
    requires At(cache, pkt, s, mem, start, limit, from) && s.status.Fine? && s.tally == t
    modifies cache, cache.nodes, pkt.data
    ensures Cache.SameNodes(cache.nodes, old(cache.nodes)) && At(cache, pkt, after, mem, start, limit, ansp)
    ensures after == PtrStage(s, ask, a, o, now, BoxAt(mem, start, limit)) && status == after.status && tally == after.tally
  {
    hide At, FromCache, WithText;
    status, ansp, tally, after := AnswerFromCache(cache, pkt, ToName, Query(Address(a.addr), if a.v6 then OnlyV6 else OnlyV4), ask, now, limit, from, t, s, mem, start);
    if status.Fine? && !tally.ans && !a.v6 && o.bogusPriv && o.private(a.addr) {
      status, ansp, tally, after := AnswerText(cache, pkt, ask, 0, T_PTR, o.dotted(a.addr), limit, ansp, tally, after, mem, start);
    }
  }

  method AnswerAddresses(cache: Cache.Cache, pkt: Packet, path: Path, ask: Ask, o: Settings, now: int, limit: nat, from: nat, t: Tally,
                         ghost s: Stage, ghost mem: seq<Byte>, ghost start: nat)
    returns (status: Status, ansp: nat, tally: Tally, ghost after: Stage)
    requires At(cache, pkt, s, mem, start, limit, from) && s.status.Fine? && s.tally == t
    modifies cache, cache.nodes, pkt.data
    ensures Cache.SameNodes(cache.nodes, old(cache.nodes)) && At(cache, pkt, after, mem, start, limit, ansp)
    ensures after == AddressStage(s, path, ask, o, now, BoxAt(mem, start, limit)) && status == after.status && tally == after.tally
  {
    hide Progress, FromCache;
    if o.filter && ask.qtype == T_ANY && '_' in ask.name {
      status, ansp, tally, after := Fine, from, t.(ans := true), s.(tally := t.(ans := true));
    } else {
      status, ansp, tally, after := AnswerFromCache(cache, pkt, path, Query(Name(ask.name), if path.ToV6? then OnlyV6 else OnlyV4), ask, now, limit, from, t, s, mem, start);
    }
  }

  // A lookup returns something exactly when there is something to lead the list.
  lemma FoundSome(s: seq<Rec>, q: Query, now: int)
    requires Arrange(s, Lookup(q, now)) != []
    ensures Hits(Arrange(s, Lookup(q, now))[0], q) <==> Front(s, Lookup(q, now)) != []
  {
    HitsLead(s, q, now);
  }

  method AnswerMx(cache: Cache.Cache, pkt: Packet, ask: Ask, o: Settings, now: int, limit: nat, from: nat, t: Tally,
                  ghost s: Stage, ghost mem: seq<Byte>, ghost start: nat)
    returns (status: Status, ansp: nat, tally: Tally, ghost after: Stage)
    requires At(cache, pkt, s, mem, start, limit, from) && s.status.Fine? && s.tally == t
    modifies cache, cache.nodes, pkt.data
    ensures Cache.SameNodes(cache.nodes, old(cache.nodes)) && At(cache, pkt, after, mem, start, limit, ansp)
    ensures after == MxStage(s, ask, o, now, BoxAt(mem, start, limit)) && status == after.status && tally == after.tally
  {
    hide Progress, WithText, Hits, Front, Arrange;
    status, ansp, tally, after := Fine, from, t, s;
    if o.mxName == Some(ask.name) {
      status, ansp, tally, after := AnswerText(cache, pkt, ask, 1, T_MX, o.mxTarget, limit, from, t, s, mem, start);
    } else if o.selfMx {
      ghost var w, recs := Lookup(Query(Name(ask.name), LocalData), now), cache.recs;
        var crecp := cache.Find(null, Query(Name(ask.name), LocalData), now, 0);
      after := s.(st := Swept(s.st, w));
      assert cache.recs == Arrange(recs, w);
      FoundSome(recs, Query(Name(ask.name), LocalData), now);
      assert At(cache, pkt, after, mem, start, limit, from);
      ghost var found := cache.nodes;
      if crecp != null {
        status, ansp, tally, after := AnswerText(cache, pkt, ask, 1, T_MX, ask.name, limit, from, t, after, mem, start);
      }
    }
  }

  method AnswerHost(cache: Cache.Cache, pkt: Packet, ask: Ask, o: Settings, now: int, limit: nat, from: nat, t: Tally,
                    ghost s: Stage, ghost mem: seq<Byte>, ghost start: nat)
    returns (status: Status, ansp: nat, tally: Tally, ghost after: Stage)
    requires At(cache, pkt, s, mem, start, limit, from) && s.status.Fine? && s.tally == t
    modifies cache, cache.nodes, pkt.data
    ensures Cache.SameNodes(cache.nodes, old(cache.nodes)) && At(cache, pkt, after, mem, start, limit, ansp)
    ensures after == HostStage(s, ask, o, now, BoxAt(mem, start, limit)) && status == after.status && tally == after.tally
  {
    hide At, AddressStage, MxStage, Cache.SameNodes;
    status, ansp, tally, after := Fine, from, t, s;
    ghost var base := cache.nodes;
    Cache.SameSelf(base);
    if Asks(ask, T_A) {
      status, ansp, tally, after := AnswerAddresses(cache, pkt, ToV4, ask, o, now, limit, ansp, tally, after, mem, start);
    }
    if status.Fine? && Asks(ask, T_AAAA) {
      ghost var mid := cache.nodes;
      Cache.SameIndex(mid, base);
      status, ansp, tally, after := AnswerAddresses(cache, pkt, ToV6, ask, o, now, limit, ansp, tally, after, mem, start);
      Cache.SameTrans(cache.nodes, mid, base);
    }
    if status.Fine? && Asks(ask, T_MX) {
      ghost var mid := cache.nodes;
      Cache.SameIndex(mid, base);
      status, ansp, tally, after := AnswerMx(cache, pkt, ask, o, now, limit, ansp, tally, after, mem, start);
      Cache.SameTrans(cache.nodes, mid, base);
    }
  }

  /** One question: whatever is asked, the cache, the packet and the tally are those of its stages. */
  method AnswerQuestion(cache: Cache.Cache, pkt: Packet, ask: Ask, o: Settings, now: int, limit: nat, from: nat, t: Tally,
                        ghost s: Stage, ghost mem: seq<Byte>, ghost start: nat)
    returns (status: Status, ansp: nat, tally: Tally, ghost after: Stage)
    requires At(cache, pkt, s, mem, start, limit, from) && s.status.Fine? && s.tally == t
    modifies cache, cache.nodes, pkt.data
    ensures Cache.SameNodes(cache.nodes, old(cache.nodes)) && At(cache, pkt, after, mem, start, limit, ansp)
    ensures after == QuestionStage(s, ask, o, now, BoxAt(mem, start, limit)) && status == after.status && tally == after.tally
  {
    hide At, PtrStage, HostStage, Cache.SameNodes;
    status, ansp, tally, after := Fine, from, t, s;
    Cache.SameSelf(cache.nodes);
    var a := o.arpa(ask.name);
    if o.filter && (ask.qtype == T_SOA || ask.qtype == T_SRV) {
      tally := t.(ans := true);
      after := s.(tally := tally);
      AtTally(cache, pkt, s, tally, mem, start, limit, from);
    }
    if a.None? {
      status, ansp, tally, after := AnswerHost(cache, pkt, ask, o, now, limit, ansp, tally, after, mem, start);
    } else if Asks(ask, T_PTR) {
      status, ansp, tally, after := AnswerPtr(cache, pkt, ask, a.value, o, now, limit, ansp, tally, after, mem, start);
    }
  }

  lemma AtTally(cache: Cache.Cache, pkt: Packet, s: Stage, t: Tally, mem: seq<Byte>, start: nat, limit: nat, ansp: nat)
    requires At(cache, pkt, s, mem, start, limit, ansp)
    ensures At(cache, pkt, s.(tally := t), mem, start, limit, ansp)
  {
    hide Progress;
  }

  // ---- all questions

  lemma {:induction false} SkimStays(mem: seq<Byte>, out: seq<Byte>, plen: nat, p: nat, last: nat)
    requires plen <= |mem| && plen <= |out| && last <= plen && mem[..last] == out[..last]
    requires Skim(mem, plen, p).Some? && Skim(mem, plen, p).value <= last
    ensures Skim(out, plen, p) == Skim(mem, plen, p) && p < last
    decreases plen - p
  {
    if !IsPointer(mem[p]) && mem[p] != 0 { SkimStays(mem, out, plen, p + 1 + mem[p], last); }
    assert mem[..last][p] == out[..last][p];
  }

  lemma {:induction false} SkipForward(mem: seq<Byte>, plen: nat, n: nat, p: nat)
    requires plen <= |mem| && Skip(mem, plen, n, p).Some?
    ensures p <= Skip(mem, plen, n, p).value <= plen
    decreases n
  {
    if n > 0 {
      SkimForward(mem, plen, p);
      SkipForward(mem, plen, n - 1, Skim(mem, plen, p).value + 4);
    }
  }

  lemma {:induction false} SkimForward(mem: seq<Byte>, plen: nat, p: nat)
    requires plen <= |mem| && Skim(mem, plen, p).Some?
    ensures p < Skim(mem, plen, p).value
    decreases plen - p
  {
    if !IsPointer(mem[p]) && mem[p] != 0 { SkimForward(mem, plen, p + 1 + mem[p]); }
  }

  // What is written behind the questions does not move them.
  lemma {:induction false} SkipStays(mem: seq<Byte>, out: seq<Byte>, plen: nat, n: nat, p: nat)
    requires plen <= |mem| && plen <= |out| && Skip(mem, plen, n, p).Some?
    requires var last := Skip(mem, plen, n, p).value; last <= plen ==> mem[..last] == out[..last]
    ensures Skip(out, plen, n, p) == Skip(mem, plen, n, p)
    decreases n
  {
    if n > 0 {
      var e, last := Skim(mem, plen, p).value, Skip(mem, plen, n, p).value;
      SkipForward(mem, plen, n - 1, e + 4);
      SkimStays(mem, out, plen, p, last);
      SkipStays(mem, out, plen, n - 1, e + 4);
    }
  }

  // A question that can be read ends where the skipping says.
  lemma NextQuestion(mem: seq<Byte>, plen: nat, n: nat, p: nat)
    requires plen <= |mem| && n > 0 && Skip(mem, plen, n, p).Some? && LabelsAt(mem, plen, p).Some?
    ensures p < plen && p < End(mem, p) && End(mem, p) + 4 <= Skip(mem, plen, n, p).value <= plen
    ensures Skip(mem, plen, n - 1, End(mem, p) + 4) == Skip(mem, plen, n, p)
  {
    hide Spells;
    var ls := LabelsAt(mem, plen, p).value;
    var j: nat :| Spells(mem, plen, p, j, ls) && j <= MAX_HOPS;
    SkimEnd(mem, plen, p, j, ls);
    SkimForward(mem, plen, p);
    SkipForward(mem, plen, n - 1, End(mem, p) + 4);
  }

  // Where a record of the reply stands, and the question it belongs to.
  datatype Placed = Placed(at: nat, owner: nat, rec: seq<Byte>)

  function PlacedAll(rs: seq<seq<Byte>>, at: nat, owner: nat): (log: seq<Placed>)
    ensures |log| == |rs| && forall i :: 0 <= i < |rs| ==> log[i] == Placed(at + |Flat(rs[..i])|, owner, rs[i])
  {
    seq(|rs|, i requires 0 <= i < |rs| => Placed(at + |Flat(rs[..i])|, owner, rs[i]))
  }

  datatype Reply =
    | GivenUp(st: State)
    | Strayed(st: State)
    | Overrun(st: State)
    | Replied(st: State, mem: seq<Byte>, ansp: nat, auth: bool, nx: bool, log: seq<Placed>)

  // How a question is answered, given the cache, the tally and the room left.
  type Answerer = (State, Tally, Ask, Box) -> Stage

  ghost function Answering(o: Settings, now: int): Answerer {
    (st: State, t: Tally, ask: Ask, box: Box) => QuestionStage(Stage(st, t, [], Fine), ask, o, now, box)
  }

  // How far the loop over the questions has come.
  datatype Loop = Loop(st: State, mem: seq<Byte>, p: nat, ansp: nat, auth: bool, nx: bool, log: seq<Placed>)

  datatype Turn = Out(reply: Reply) | On(next: Loop)

  // All that is read and written lies in memory.
  predicate Sized(l: Loop, plen: nat, limit: nat) {
    plen + SLACK <= |l.mem| && limit <= |l.mem| && l.p <= plen && l.ansp <= limit
  }

  // n questions are left, and the answers go behind the last.
  predicate Ready(l: Loop, plen: nat, n: nat, limit: nat) {
    && Sized(l, plen, limit)
    && Skip(l.mem, plen, n, l.p).Some? && Skip(l.mem, plen, n, l.p).value <= l.ansp
  }

  ghost function OneTurn(answer: Answerer, l: Loop, plen: nat, limit: nat): Turn
    requires Sized(l, plen, limit)
  {
    match NameAt(l.mem, plen, l.p)
    case None => Out(GivenUp(l.st))
    case Some(ls) =>
      if ls == [] then Out(Strayed(l.st))
      else
        NameEnd(l.mem, plen, l.p);
        var e := End(l.mem, l.p);
        if U16(l.mem, e + 2) != C_IN then Out(GivenUp(l.st))
        else
          var s := answer(l.st, Tally(false, l.auth, l.nx, |l.log|), Ask(l.p, NameOf(ls), U16(l.mem, e)), BoxAt(l.mem, l.ansp, limit));
          if s.status.Over? then Out(Overrun(s.st))
          else if !s.status.Fine? || !s.tally.ans || l.ansp + |Flat(s.records)| > limit then Out(GivenUp(s.st))
          else On(Loop(s.st, Splice(l.mem, l.ansp, Flat(s.records)), e + 4, l.ansp + |Flat(s.records)|,
                       s.tally.auth, s.tally.nx, l.log + PlacedAll(s.records, l.ansp, l.p)))
  }

  lemma TurnReady(answer: Answerer, l: Loop, plen: nat, n: nat, limit: nat)
    requires n > 0 && Ready(l, plen, n, limit)
    ensures var t := OneTurn(answer, l, plen, limit);
            t.On? ==> Ready(t.next, plen, n - 1, limit) && Skip(t.next.mem, plen, n - 1, t.next.p) == Skip(l.mem, plen, n, l.p)
  {
    hide Skip, LabelsAt, End, U16, Flat, Splice, NameOf, PlacedAll;
    var t := OneTurn(answer, l, plen, limit);
    if t.On? {
      NextQuestion(l.mem, plen, n, l.p);
      var bytes := Flat(answer(l.st, Tally(false, l.auth, l.nx, |l.log|), Ask(l.p, NameOf(NameAt(l.mem, plen, l.p).value), U16(l.mem, End(l.mem, l.p))), BoxAt(l.mem, l.ansp, limit)).records);
      NextTurn(l.mem, t.next.mem, plen, n, l.p, l.ansp, bytes);
    }
  }

  // The turns of a request of plen bytes.
  ghost function Turning(o: Settings, now: int, plen: nat, limit: nat): Loop -> Turn {
    (l: Loop) => if Sized(l, plen, limit) then OneTurn(Answering(o, now), l, plen, limit) else Out(GivenUp(l.st))
  }

  ghost function Replies(turn: Loop -> Turn, l: Loop, n: nat): Reply
    decreases n
  {
    if n == 0 then Replied(l.st, l.mem, l.ansp, l.auth, l.nx, l.log)
    else match turn(l)
         case Out(r) => r
         case On(next) => Replies(turn, next, n - 1)
  }

  lemma NextTurn(mem: seq<Byte>, out: seq<Byte>, plen: nat, n: nat, p: nat, ansp: nat, bytes: seq<Byte>)
    requires plen <= |mem| && n > 0 && LabelsAt(mem, plen, p).Some? && ansp + |bytes| <= |mem| && out == Splice(mem, ansp, bytes)
    requires Skip(mem, plen, n, p).Some? && Skip(mem, plen, n, p).value <= ansp
    ensures |out| == |mem| && Skip(out, plen, n - 1, End(mem, p) + 4) == Skip(mem, plen, n, p)
  {
    hide Skip, LabelsAt, End;
    NextQuestion(mem, plen, n, p);
    var last := Skip(mem, plen, n, p).value;
    assert out[..last] == mem[..last];
    SkipStays(mem, out, plen, n - 1, End(mem, p) + 4);
  }

  // Before the first record of a question.
  lemma AtStart(cache: Cache.Cache, pkt: Packet, t: Tally, limit: nat, ansp: nat)
    requires cache.Valid() && ansp <= limit <= pkt.data.Length
    ensures At(cache, pkt, Stage(cache.Abs(), t, [], Fine), pkt.data[..], ansp, limit, ansp)
  {
    FlatNone();
    SpliceNothing(pkt.data[..], ansp);
  }

  lemma AtEnd(cache: Cache.Cache, pkt: Packet, s: Stage, mem: seq<Byte>, start: nat, limit: nat, ansp: nat)
    requires At(cache, pkt, s, mem, start, limit, ansp)
    ensures cache.Valid() && cache.Abs() == s.st && pkt.data[..start] == mem[..start] && |pkt.data[..]| == |mem|
    ensures s.status.Fine? ==> ansp <= limit && start + |Flat(s.records)| <= |mem| && ansp == start + |Flat(s.records)|
    ensures s.status.Fine? ==> pkt.data[..] == Splice(mem, start, Flat(s.records))
  {
    hide Flat;
  }

  // The loop stands where the specification does.
  ghost predicate Stands(cache: Cache.Cache, pkt: Packet, l: Loop, plen: nat, n: nat, limit: nat)
    reads cache, cache.nodes, pkt, pkt.data
  {
    && cache.Valid() && cache.Abs() == l.st && pkt.data[..] == l.mem && Ready(l, plen, n, limit)
  }

  // The tally at the start of a question.
  function TallyOf(l: Loop): Tally { Tally(false, l.auth, l.nx, |l.log|) }

  // The number of answers grows with the records.
  ghost predicate Counted(s: Stage, t: Stage) { t.status.Fine? ==> t.tally.count - |t.records| == s.tally.count - |s.records| }

  lemma CacheCounted(s: Stage, path: Path, q: Query, ask: Ask, now: int, box: Box)
    ensures Counted(s, FromCache(s, path, q, ask, now, box))
  {
    hide Given, Flat, Swept, Front, Ends, AllKnown, SomeNx, Count;
    CountIs(path, Front(s.st.recs, Lookup(q, now)), ask.owner, now);
  }

  lemma AddressCounted(s: Stage, path: Path, ask: Ask, o: Settings, now: int, box: Box)
    ensures Counted(s, AddressStage(s, path, ask, o, now, box))
  {
    hide FromCache;
    CacheCounted(s, path, Query(Name(ask.name), if path.ToV6? then OnlyV6 else OnlyV4), ask, now, box);
  }

  lemma CountKept(s: Stage, ask: Ask, o: Settings, now: int, box: Box)
    requires s.status.Fine?
    ensures Counted(s, QuestionStage(s, ask, o, now, box))
  {
    hide FromCache, Flat, RecordBytes, Swept, Front, AddressStage;
    var s1 := if o.filter && (ask.qtype == T_SOA || ask.qtype == T_SRV) then s.(tally := s.tally.(ans := true)) else s;
    match o.arpa(ask.name) {
      case None =>
        AddressCounted(s1, ToV4, ask, o, now, box);
        var s2 := if Asks(ask, T_A) then AddressStage(s1, ToV4, ask, o, now, box) else s1;
        AddressCounted(s2, ToV6, ask, o, now, box);
      case Some(a) =>
        CacheCounted(s1, ToName, Query(Address(a.addr), if a.v6 then OnlyV6 else OnlyV4), ask, now, box);
    }
  }

  datatype Step = No | Off | Past | Next

  // One turn of the loop over the questions.
  method AnswerNext(cache: Cache.Cache, pkt: Packet, plen: nat, limit: nat, o: Settings, now: int, p: nat, ansp: nat, t: Tally,
                    ghost l: Loop, ghost n: nat)
    returns (step: Step, p': nat, ansp': nat, tally: Tally, ghost turn: Turn)
    requires n > 0 && Stands(cache, pkt, l, plen, n, limit)
    requires p == l.p && ansp == l.ansp && t == TallyOf(l)
    modifies cache, cache.nodes, pkt.data
    ensures Cache.SameNodes(cache.nodes, old(cache.nodes)) && turn == OneTurn(Answering(o, now), l, plen, limit)
    ensures |pkt.data[..]| == |l.mem| && l.ansp <= |l.mem| && pkt.data[..l.ansp] == l.mem[..l.ansp] && cache.Valid()
    ensures match turn
            case On(m) => step == Next && Stands(cache, pkt, m, plen, n - 1, limit) && p' == m.p && ansp' == m.ansp && tally == TallyOf(m)
            case Out(r) => !r.Replied? && cache.Abs() == r.st && step == if r.GivenUp? then No else if r.Strayed? then Off else Past
  {
    hide QuestionStage, At, Skip, LabelsAt, End, U16, Flat, Splice, Buffer, ToText, Extractable, Cache.SameNodes;
    Cache.SameSelf(cache.nodes);
    step, p', ansp', tally, turn := No, p, ansp, t, OneTurn(Answering(o, now), l, plen, limit);
    TurnReady(Answering(o, now), l, plen, n, limit);
    var name := ReadName(pkt.data[..], plen, p);
    if name.Unusable? { return; }
    if name.Root? { step := Off; return; }
    NextQuestion(l.mem, plen, n, p);
    var e := name.next;
    var qtype, qclass := U16(pkt.data[..], e), U16(pkt.data[..], e + 2);
    if qclass != C_IN { return; }
    var ask := Ask(p, ToText(name.text), qtype);
    AtStart(cache, pkt, t, limit, ansp);
    ghost var s := Stage(l.st, t, [], Fine);
    var status, last, u;
    ghost var after;
    status, last, u, after := AnswerQuestion(cache, pkt, ask, o, now, limit, ansp, t, s, l.mem, ansp);
    AtEnd(cache, pkt, after, l.mem, ansp, limit, last);
    CountKept(s, ask, o, now, BoxAt(l.mem, ansp, limit));
    assert after == Answering(o, now)(l.st, t, ask, BoxAt(l.mem, ansp, limit));
    if status.Over? { step := Past; return; }
    if !status.Fine? || !u.ans { return; }
    step, p', ansp', tally := Next, e + 4, last, u.(ans := false);
  }

  datatype Answer = Cannot | Stray | Beyond | Answered(length: nat, auth: bool, nxdomain: bool, count: nat)

  // The loop over n questions from the start of the section on.
  method AnswerAll(cache: Cache.Cache, pkt: Packet, plen: nat, limit: nat, n: nat, start: nat, o: Settings, now: int, ghost l: Loop)
    returns (r: Answer)
    requires Stands(cache, pkt, l, plen, n, limit)
    requires l.p == HEADER_SIZE && l.ansp == start && l.auth && !l.nx && l.log == []
    modifies cache, cache.nodes, pkt.data
    ensures cache.Valid() && Cache.SameNodes(cache.nodes, old(cache.nodes))
    ensures |pkt.data[..]| == |l.mem| && start <= |l.mem| && pkt.data[..start] == l.mem[..start]
    ensures match Replies(Turning(o, now, plen, limit), l, n)
            case GivenUp(st) => r == Cannot && cache.Abs() == st
            case Strayed(st) => r == Stray && cache.Abs() == st
            case Overrun(st) => r == Beyond && cache.Abs() == st
            case Replied(st, mem, ansp, auth, nx, log) =>
              r == Answered(ansp, auth, |log| == 0 && nx, |log|) && cache.Abs() == st && pkt.data[..] == mem
  {
    hide Stands, OneTurn, Answering, Turning, Cache.SameNodes, Ready;
    Cache.SameSelf(cache.nodes);
    var p: nat, ansp: nat, t := HEADER_SIZE, start, Tally(false, true, false, 0);
    ghost var m, turns := l, Turning(o, now, plen, limit);
    StandsFacts(cache, pkt, l, plen, n, limit);
    for q := 0 to n
      invariant Cache.SameNodes(cache.nodes, old(cache.nodes)) && Stands(cache, pkt, m, plen, n - q, limit) && Ready(m, plen, n - q, limit)
      invariant Replies(turns, l, n) == Replies(turns, m, n - q)
      invariant p == m.p && ansp == m.ansp && t == TallyOf(m) && start <= ansp
      invariant |m.mem| == |l.mem| && start <= |l.mem| && m.mem[..start] == l.mem[..start] && pkt.data[..] == m.mem
    {
      ghost var mid, before := cache.nodes, m.mem;
      Cache.SameIndex(mid, old(cache.nodes));
      TurnGrows(o, now, m, plen, n - q, limit);
      var step;
      ghost var turn;
      step, p, ansp, t, turn := AnswerNext(cache, pkt, plen, limit, o, now, p, ansp, t, m, n - q);
      Cache.SameTrans(cache.nodes, mid, old(cache.nodes));
      assert pkt.data[..start] == pkt.data[..m.ansp][..start] == before[..m.ansp][..start] == before[..start];
      if step == No { return Cannot; }
      if step == Off { return Stray; }
      if step == Past { return Beyond; }
      m := turn.next;
      StandsFacts(cache, pkt, m, plen, n - q - 1, limit);
    }
    StandsFacts(cache, pkt, m, plen, 0, limit);
    return Answered(ansp, t.auth, t.count == 0 && t.nx, t.count);
  }

  lemma StandsFacts(cache: Cache.Cache, pkt: Packet, l: Loop, plen: nat, n: nat, limit: nat)
    requires Stands(cache, pkt, l, plen, n, limit)
    ensures cache.Valid() && cache.Abs() == l.st && pkt.data[..] == l.mem && Ready(l, plen, n, limit) && l.ansp <= |l.mem|
  {
    hide Skip;
  }

  lemma TurnGrows(o: Settings, now: int, l: Loop, plen: nat, n: nat, limit: nat)
    requires n > 0 && Ready(l, plen, n, limit)
    ensures Sized(l, plen, limit) && l.ansp <= |l.mem| && Turning(o, now, plen, limit)(l) == OneTurn(Answering(o, now), l, plen, limit)
    ensures var t := OneTurn(Answering(o, now), l, plen, limit); t.On? ==> l.ansp <= t.next.ansp && |t.next.mem| == |l.mem|
  {
    hide Skip, LabelsAt, End, U16, Flat, NameOf, Answering;
  }

  /** answer_request. Without questions, or when they cannot be skipped, nothing happens. Otherwise the
      answer, the cache and the packet are those of the loop over the questions; and whatever happens,
      nothing in front of the answers is touched. */
  method AnswerRequest(cache: Cache.Cache, pkt: Packet, plen: nat, limit: nat, qdcount: nat, isQuery: bool, o: Settings, now: int)
    returns (r: Answer)
    requires cache.Valid() && plen <= limit && limit + SLACK <= pkt.data.Length
    modifies cache, cache.nodes, pkt.data
    ensures cache.Valid() && Cache.SameNodes(cache.nodes, old(cache.nodes))
    ensures var mem, start := old(pkt.data[..]), Skip(old(pkt.data[..]), plen, qdcount, HEADER_SIZE);
            if qdcount == 0 || !isQuery || start.None? then r == Cannot && cache.Abs() == old(cache.Abs()) && pkt.data[..] == mem
            else
              var l := Loop(old(cache.Abs()), mem, HEADER_SIZE, start.value, true, false, []);
              && Ready(l, plen, qdcount, limit) && pkt.data[..start.value] == mem[..start.value]
              && match Replies(Turning(o, now, plen, limit), l, qdcount)
                 case GivenUp(st) => r == Cannot && cache.Abs() == st
                 case Strayed(st) => r == Stray && cache.Abs() == st
                 case Overrun(st) => r == Beyond && cache.Abs() == st
                 case Replied(st, out, ansp, auth, nx, log) =>
                   r == Answered(ansp, auth, |log| == 0 && nx, |log|) && cache.Abs() == st && pkt.data[..] == out
  {
    hide Replies, Turning, Skip, Cache.SameNodes;
    Cache.SameSelf(cache.nodes);
    if qdcount == 0 || !isQuery { return Cannot; }
    var start := SkipQuestions(pkt.data[..], plen, qdcount);
    if start.None? { return Cannot; }
    SkipForward(pkt.data[..], plen, qdcount, HEADER_SIZE);
    ghost var l := Loop(cache.Abs(), pkt.data[..], HEADER_SIZE, start.value, true, false, []);
    r := AnswerAll(cache, pkt, plen, limit, qdcount, start.value, o, now, l);
  }
}
