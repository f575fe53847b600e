/** The table of pending queries of forward.c as a state machine: what a client query, an
    upstream reply and a server reload do to it, and what every run keeps.

    Servers are named by their memory address, so that a pointer can outlive its server. */
module Forwarding {
  import opened Options

  const FTABSIZ := 50
  const TIMEOUT := 40

  datatype Server = Server(addr: nat, v4: bool, domain: Option<string>, fromResolv: bool, noAddr: bool, literal: bool)

  // struct frec; `serial` is a history variable: which allocation the entry serves.
  datatype Frec = Frec(source: nat, fd: nat, origId: nat, newId: nat, sentto: nat, time: int, serial: nat)

  // History: who allocated an upstream id, and which replies were passed on to whom.
  datatype Alloc = Alloc(source: nat, fd: nat, origId: nat, newId: nat, domain: Option<string>)
  datatype Delivery = Delivery(serial: nat, source: nat, fd: nat, origId: nat, newId: nat)

  datatype State = State(frecs: seq<Frec>, servers: seq<nat>, mem: map<nat, Server>, last: Option<nat>,
                         allocs: seq<Alloc>, passed: seq<Delivery>)

  predicate Live(f: Frec) { f.newId != 0 }

  // ---- lookups

  // lookup_frec
  function ById(fs: seq<Frec>, id: nat): (r: Option<nat>)
    ensures r.Some? ==> r.value < |fs| && fs[r.value].newId == id && forall i :: 0 <= i < r.value ==> fs[i].newId != id
    ensures r.None? ==> forall i :: 0 <= i < |fs| ==> fs[i].newId != id
  {
    if fs == [] then None
    else
      var n := |fs| - 1;
      match ById(fs[..n], id)
      case Some(i) => Some(i)
      case None => if fs[n].newId == id then Some(n) else None
  }

  predicate From(f: Frec, source: nat, id: nat) { Live(f) && f.origId == id && f.source == source }

  // lookup_frec_by_sender
  function BySender(fs: seq<Frec>, source: nat, id: nat): (r: Option<nat>)
    ensures r.Some? ==> r.value < |fs| && From(fs[r.value], source, id)
                        && forall i :: 0 <= i < r.value ==> !From(fs[i], source, id)
    ensures r.None? ==> forall i :: 0 <= i < |fs| ==> !From(fs[i], source, id)
  {
    if fs == [] then None
    else
      var n := |fs| - 1;
      match BySender(fs[..n], source, id)
      case Some(i) => Some(i)
      case None => if From(fs[n], source, id) then Some(n) else None
  }

  // ---- get_new_frec

  // The oldest entry not younger than `now`; of equally old ones the last.
  function Oldest(fs: seq<Frec>, now: int): (r: Option<nat>)
    ensures r.Some? ==> && r.value < |fs| && fs[r.value].time <= now
                        && forall i :: 0 <= i < |fs| && fs[i].time <= now ==> fs[r.value].time <= fs[i].time
    ensures r.None? ==> forall i :: 0 <= i < |fs| ==> fs[i].time > now
  {
    if fs == [] then None
    else
      var n := |fs| - 1;
      match Oldest(fs[..n], now)
      case None => if fs[n].time <= now then Some(n) else None
      case Some(i) => if fs[n].time <= fs[i].time then Some(n) else Some(i)
  }

  // `room` is the uninitialised entry malloc returns, if it does.
  function GetNew(fs: seq<Frec>, now: int, room: Option<Frec>): Option<(seq<Frec>, nat)> {
    match ById(fs, 0)
    case Some(i) => Some((fs[i := fs[i].(time := now)], i))
    case None =>
      var o := Oldest(fs, now);
      if o.Some? && now - fs[o.value].time > TIMEOUT then
        Some((fs[o.value := fs[o.value].(time := now)], o.value))
      else if |fs| > FTABSIZ || room.None? then None
      else Some(([room.value.(time := now)] + fs, 0))
  }

  // ---- the server list

  function IndexOf(list: seq<nat>, p: nat): (i: nat)
    requires p in list
    ensures i < |list| && list[i] == p
  {
    if list[0] == p then 0 else
      assert p in list[1..];
      1 + IndexOf(list[1..], p)
  }

  // The server behind p, or the first one at the end of the list.
  function NextServer(list: seq<nat>, p: nat): nat
    requires p in list
  {
    var i := IndexOf(list, p); if i + 1 < |list| then list[i + 1] else list[0]
  }

  // The k-th server tried when starting at position i.
  function Turn(list: seq<nat>, i: nat, k: nat): nat
    requires i < |list| && k < |list|
  {
    if i + k < |list| then list[i + k] else list[i + k - |list|]
  }

  function Info(mem: map<nat, Server>, p: nat): Server {
    if p in mem then mem[p] else Server(0, true, None, false, false, false)
  }

  // sends[k] is whether the k-th sendto works.
  predicate Accepts(list: seq<nat>, mem: map<nat, Server>, domain: Option<string>, i: nat, k: nat, sends: seq<bool>)
    requires i < |list| && k < |list| <= |sends|
  {
    var s := Info(mem, Turn(list, i, k));
    s.domain == domain && !s.noAddr && !s.literal && sends[k]
  }

  // The first attempt from the k-th on that gets the query out.
  function FirstSent(list: seq<nat>, mem: map<nat, Server>, domain: Option<string>, i: nat, k: nat, sends: seq<bool>): (r: Option<nat>)
    requires i < |list| <= |sends| && k <= |list|
    ensures r.Some? ==> k <= r.value < |list| && Accepts(list, mem, domain, i, r.value, sends)
                        && forall j :: k <= j < r.value ==> !Accepts(list, mem, domain, i, j, sends)
    ensures r.None? ==> forall j :: k <= j < |list| ==> !Accepts(list, mem, domain, i, j, sends)
    decreases |list| - k
  {
    if k == |list| then None
    else if Accepts(list, mem, domain, i, k, sends) then Some(k)
    else FirstSent(list, mem, domain, i, k + 1, sends)
  }

  // ---- which domain a query belongs to

  datatype QueryName = NoName | Named(name: string, kind: Kind)
  datatype Kind = AskV4 | AskV6 | AskOther

  predicate EndsWith(s: string, d: string) { |s| >= |d| && s[|s| - |d|..] == d }

  // The name is something followed by the domain.
  lemma EndsWithIs(s: string, d: string)
    ensures EndsWith(s, d) <==> exists p :: s == p + d
  {
    if EndsWith(s, d) { assert s == s[..|s| - |d|] + d; }
  }

  // A server whose domain covers the name; a literal address only if it is of the family asked for.
  predicate Covers(s: Server, q: QueryName) {
    && q.Named? && s.domain.Some? && |s.domain.value| > 0 && EndsWith(q.name, s.domain.value)
    && (s.literal ==> if s.v4 then q.kind.AskV4? else q.kind.AskV6?)
  }

  function DomainLen(s: Server): nat { if s.domain.Some? then |s.domain.value| else 0 }

  // The first covering server whose domain is longest.
  function Best(list: seq<nat>, mem: map<nat, Server>, q: QueryName): (r: Option<nat>)
    ensures r.Some? ==> && r.value in list && Covers(Info(mem, r.value), q)
                        && forall p :: p in list && Covers(Info(mem, p), q) ==> DomainLen(Info(mem, p)) <= DomainLen(Info(mem, r.value))
    ensures r.None? ==> forall p :: p in list ==> !Covers(Info(mem, p), q)
  {
    if list == [] then None
    else
      var n := |list| - 1;
      var b, s := Best(list[..n], mem, q), Info(mem, list[n]);
      assert list == list[..n] + [list[n]];
      if Covers(s, q) && (b.None? || DomainLen(s) > DomainLen(Info(mem, b.value))) then Some(list[n]) else b
  }

  function ChosenDomain(s: State, q: QueryName): Option<string> {
    match Best(s.servers, s.mem, q)
    case Some(p) => Info(s.mem, p).domain
    case None => None
  }

  // ---- the three kinds of step

  datatype Event =
    | Query(now: int, source: nat, fd: nat, origId: nat, rd: bool, q: QueryName, strict: bool,
            room: Option<Frec>, newId: nat, sends: seq<bool>)
    | Reply(id: nat, good: bool)
    | Reload(list: seq<nat>, info: map<nat, Server>)

  // The send loop for entry i, starting at server `start`.
  function Send(s: State, i: nat, domain: Option<string>, start: nat, sends: seq<bool>): State
    requires i < |s.frecs| && start in s.servers && |s.servers| <= |sends|
  {
    var at := IndexOf(s.servers, start);
    match FirstSent(s.servers, s.mem, domain, at, 0, sends)
    case Some(k) =>
      var p := Turn(s.servers, at, k);
      s.(frecs := s.frecs[i := s.frecs[i].(sentto := p)],
         last := if domain.Some? then s.last else Some(NextServer(s.servers, p)))
    case None =>
      s.(frecs := s.frecs[i := s.frecs[i].(sentto := start, newId := 0)])
  }

  ghost predicate PointersIn(s: State) {
    && (s.servers != [] ==> s.last.Some? && s.last.value in s.servers)
    && forall i :: 0 <= i < |s.frecs| && Live(s.frecs[i]) ==> s.frecs[i].sentto in s.servers
  }

  // A new query that is to be forwarded takes an entry and an upstream id.
  function Allocate(s: State, e: Event, fs: seq<Frec>, i: nat): State
    requires e.Query? && i < |fs| && s.servers != [] && s.last.Some?
  {
    var domain := ChosenDomain(s, e.q);
    var start := if domain.Some? || e.strict then s.servers[0] else s.last.value;
    var f := Frec(e.source, e.fd, e.origId, e.newId, start, fs[i].time, |s.allocs|);
    s.(frecs := fs[i := f], allocs := s.allocs + [Alloc(e.source, e.fd, e.origId, e.newId, domain)])
  }

  // forward_query
  ghost function OnQuery(s: State, e: Event): State
    requires e.Query? && PointersIn(s) && |s.servers| <= |e.sends|
  {
    if !e.rd || s.servers == [] then s
    else match BySender(s.frecs, e.source, e.origId)
         case Some(i) =>
           var at := s.frecs[i].sentto;
           Send(s, i, Info(s.mem, at).domain, NextServer(s.servers, at), e.sends)
         case None =>
           var b := Best(s.servers, s.mem, e.q);
           if b.Some? && Info(s.mem, b.value).literal then s
           else match GetNew(s.frecs, e.now, e.room)
                case None => s
                case Some((fs, i)) =>
                  GetNewShape(s.frecs, e.now, e.room);
                  var t := Allocate(s, e, fs, i);
                  Send(t, i, ChosenDomain(s, e.q), t.frecs[i].sentto, e.sends)
  }

  // reply_query, for a packet that is a response
  function OnReply(s: State, e: Event): State
    requires e.Reply?
  {
    match ById(s.frecs, e.id)
    case None => s
    case Some(i) =>
      var f := s.frecs[i];
      s.(frecs := s.frecs[i := f.(newId := 0)],
         last := if e.good && Info(s.mem, f.sentto).domain.None? then Some(f.sentto) else s.last,
         passed := s.passed + [Delivery(f.serial, f.source, f.fd, f.origId, e.id)])
  }

  // forward_init(0)
  function Cancelled(fs: seq<Frec>): (r: seq<Frec>)
    ensures |r| == |fs| && forall i :: 0 <= i < |fs| ==> r[i] == fs[i].(newId := 0)
  {
    if fs == [] then [] else Cancelled(fs[..|fs| - 1]) + [fs[|fs| - 1].(newId := 0)]
  }

  // A reload: all queries are cancelled, and the first server of the new list counts as the last good one.
  function OnReload(s: State, e: Event): State
    requires e.Reload?
  {
    s.(frecs := Cancelled(s.frecs), servers := e.list, mem := e.info,
       last := if e.list == [] then None else Some(e.list[0]))
  }

  lemma {:induction false} GetNewShape(fs: seq<Frec>, now: int, room: Option<Frec>)
    ensures var r := GetNew(fs, now, room);
            r.Some? ==> var (gs, i) := r.value;
              && i < |gs| && gs[i].time == now && |gs| >= |fs| && |gs| <= (if |fs| > FTABSIZ then |fs| else FTABSIZ + 1)
              // an entry aged TIMEOUT or less is never recycled
              && (|gs| == |fs| ==> gs == fs[i := gs[i]] && (Live(fs[i]) ==> now - fs[i].time > TIMEOUT))
              && (|gs| != |fs| ==> i == 0 && gs == [gs[0]] + fs)
  {
  }
}
