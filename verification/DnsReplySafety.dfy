/** What every reply of answer_request keeps: the questions stay, every record stands where it was
    written, and its owner decodes to the name of its question. */
module DnsReplySafety {
  import opened Options
  import opened Bytes
  import opened DnsNames
  import opened DnsPackets
  import opened DnsCompare
  import opened DnsRecords
  import opened DnsSection
  import opened DnsOwners
  import opened DnsAnswers
  import opened DnsReplies
  import opened CacheRecords
  import opened CacheRuns

  // ---- every record of a question points to it

  lemma OwnedMore(rs: seq<seq<Byte>>, more: seq<seq<Byte>>, owner: nat)
    requires AllOwned(rs, owner) && AllOwned(more, owner)
    ensures AllOwned(rs + more, owner)
  {
    hide OwnedBy;
  }

  lemma CacheOwned(s: Stage, path: Path, q: Query, ask: Ask, now: int, box: Box)
    requires AllOwned(s.records, ask.owner) && ask.owner < 16384
    ensures AllOwned(FromCache(s, path, q, ask, now, box).records, ask.owner)
  {
    hide AllOwned, Given, Flat, Swept, Front, Ends, Tallied;
    var g := Given(path, Front(s.st.recs, Lookup(q, now)), ask.owner, now);
    GivenOwned(path, Front(s.st.recs, Lookup(q, now)), ask.owner, now);
    OwnedMore(s.records, g, ask.owner);
  }

  lemma TextOwned(s: Stage, ask: Ask, pref: nat, rtype: nat, name: string, box: Box)
    requires AllOwned(s.records, ask.owner) && ask.owner < 16384
    ensures AllOwned(WithText(s, ask, pref, rtype, name, box).records, ask.owner)
  {
    hide OwnedBy, Flat, RecordBytes, ToBytes;
    TextOwner(ask.owner, 0, pref, rtype, ToBytes(name));
    OwnedMore(s.records, [RecordBytes(ask.owner, 0, pref, rtype, ToBytes(name))], ask.owner);
  }

  lemma AddressOwned(s: Stage, path: Path, ask: Ask, o: Settings, now: int, box: Box)
    requires AllOwned(s.records, ask.owner) && ask.owner < 16384
    ensures AllOwned(AddressStage(s, path, ask, o, now, box).records, ask.owner)
  {
    hide FromCache, AllOwned;
    CacheOwned(s, path, Query(Name(ask.name), if path.ToV6? then OnlyV6 else OnlyV4), ask, now, box);
  }

  lemma MxOwned(s: Stage, ask: Ask, o: Settings, now: int, box: Box)
    requires AllOwned(s.records, ask.owner) && ask.owner < 16384
    ensures AllOwned(MxStage(s, ask, o, now, box).records, ask.owner)
  {
    hide WithText, AllOwned, Swept, Front;
    TextOwned(s, ask, 1, T_MX, o.mxTarget, box);
    TextOwned(s.(st := Swept(s.st, Lookup(Query(Name(ask.name), LocalData), now))), ask, 1, T_MX, ask.name, box);
  }

  lemma PtrOwned(s: Stage, ask: Ask, a: Arpa, o: Settings, now: int, box: Box)
    requires AllOwned(s.records, ask.owner) && ask.owner < 16384
    ensures AllOwned(PtrStage(s, ask, a, o, now, box).records, ask.owner)
  {
    hide FromCache, WithText, AllOwned;
    var q := Query(Address(a.addr), if a.v6 then OnlyV6 else OnlyV4);
    CacheOwned(s, ToName, q, ask, now, box);
    TextOwned(FromCache(s, ToName, q, ask, now, box), ask, 0, T_PTR, o.dotted(a.addr), box);
  }

  lemma QuestionOwned(s: Stage, ask: Ask, o: Settings, now: int, box: Box)
    requires AllOwned(s.records, ask.owner) && ask.owner < 16384
    ensures AllOwned(QuestionStage(s, ask, o, now, box).records, ask.owner)
  {
    hide AddressStage, MxStage, PtrStage, AllOwned;
    var s1 := if o.filter && (ask.qtype == T_SOA || ask.qtype == T_SRV) then s.(tally := s.tally.(ans := true)) else s;
    match o.arpa(ask.name) {
      case None =>
        AddressOwned(s1, ToV4, ask, o, now, box);
        var s2 := if Asks(ask, T_A) then AddressStage(s1, ToV4, ask, o, now, box) else s1;
        AddressOwned(s2, ToV6, ask, o, now, box);
        var s3 := if s2.status.Fine? && Asks(ask, T_AAAA) then AddressStage(s2, ToV6, ask, o, now, box) else s2;
        MxOwned(s3, ask, o, now, box);
      case Some(a) => PtrOwned(s1, ask, a, o, now, box);
    }
  }

  // ---- every record stands where it was put

  lemma {:induction false} FlatAt(rs: seq<seq<Byte>>, i: nat)
    requires i < |rs|
    ensures var at := |Flat(rs[..i])|; at + |rs[i]| <= |Flat(rs)| && Flat(rs)[at..at + |rs[i]|] == rs[i]
  {
    hide Flat;
    var a, b := rs[..i], rs[i + 1..];
    assert rs == (a + [rs[i]]) + b;
    FlatConcat(a + [rs[i]], b);
    FlatMore(a, rs[i]);
  }

  lemma SpliceCut(mem: seq<Byte>, p: nat, bytes: seq<Byte>, at: nat, n: nat)
    requires p + |bytes| <= |mem| && at + n <= |bytes|
    ensures Splice(mem, p, bytes)[p + at..p + at + n] == bytes[at..at + n]
  {
  }

  // An entry of the log: the record is there, behind the questions, and belongs to a question that can be read.
  ghost predicate Entry(mem0: seq<Byte>, plen: nat, mem: seq<Byte>, ansp: nat, e: Placed)
    requires plen <= |mem0|
  {
    && plen <= e.at && e.at + |e.rec| <= ansp <= |mem| && mem[e.at..e.at + |e.rec|] == e.rec && OwnedBy(e.rec, e.owner)
    && e.owner < plen && exists j: nat, ls :: Names(mem0, plen, e.owner, j, ls)
  }

  ghost predicate LogOk(mem0: seq<Byte>, plen: nat, mem: seq<Byte>, ansp: nat, log: seq<Placed>)
    requires plen <= |mem0|
  {
    forall k :: 0 <= k < |log| ==> Entry(mem0, plen, mem, ansp, log[k])
  }

  lemma {:induction false} SpellsSame(a: seq<Byte>, b: seq<Byte>, plen: nat, off: nat, j: nat, ls: Labels)
    requires plen <= |a| && plen <= |b| && a[..plen] == b[..plen] && off < plen && Spells(a, plen, off, j, ls)
    ensures Spells(b, plen, off, j, ls)
    decreases j, |ls|
  {
    var l := a[off];
    assert b[off] == b[..plen][off] == l;
    if l == 0 {
    } else if IsPointer(l) {
      assert b[off + 1] == b[..plen][off + 1] == a[off + 1];
      SpellsSame(a, b, plen, DnsNames.Target(a, off), j - 1, ls);
    } else {
      SamePrefix(a, b, plen, off + 1, off + 1 + l);
      SpellsSame(a, b, plen, off + 1 + l, j, ls[1..]);
    }
  }

  lemma QuestionNamed(mem0: seq<Byte>, mem: seq<Byte>, plen: nat, p: nat)
    requires plen <= |mem0| && plen <= |mem| && mem[..plen] == mem0[..plen] && p < plen && NameAt(mem, plen, p).Some?
    ensures exists j: nat, ls :: Names(mem0, plen, p, j, ls)
  {
    hide Spells;
    ExtractReads(mem, plen, p);
    var ls := NameAt(mem, plen, p).value;
    var j: nat :| Names(mem, plen, p, j, ls);
    SpellsSame(mem, mem0, plen, p, j, ls);
    assert Names(mem0, plen, p, j, ls);
  }

  // Older entries are not touched by what is written behind them.
  lemma EntryStays(mem0: seq<Byte>, plen: nat, mem: seq<Byte>, ansp: nat, e: Placed, bytes: seq<Byte>)
    requires plen <= |mem0| && Entry(mem0, plen, mem, ansp, e) && ansp + |bytes| <= |mem|
    ensures Entry(mem0, plen, Splice(mem, ansp, bytes), ansp + |bytes|, e)
  {
    hide Names, OwnedBy;
    var out := Splice(mem, ansp, bytes);
    assert out[e.at..e.at + |e.rec|] == mem[e.at..e.at + |e.rec|];
  }

  lemma EntryNew(mem0: seq<Byte>, plen: nat, mem: seq<Byte>, ansp: nat, rs: seq<seq<Byte>>, owner: nat, i: nat)
    requires plen <= |mem0| && plen <= ansp && ansp + |Flat(rs)| <= |mem| && i < |rs| && AllOwned(rs, owner)
    requires owner < plen && exists j: nat, ls :: Names(mem0, plen, owner, j, ls)
    ensures Entry(mem0, plen, Splice(mem, ansp, Flat(rs)), ansp + |Flat(rs)|, PlacedAll(rs, ansp, owner)[i])
  {
    hide Flat, Names, OwnedBy, Splice;
    FlatAt(rs, i);
    SpliceCut(mem, ansp, Flat(rs), |Flat(rs[..i])|, |rs[i]|);
  }

  lemma LogStays(mem0: seq<Byte>, plen: nat, mem: seq<Byte>, ansp: nat, log: seq<Placed>, rs: seq<seq<Byte>>, owner: nat)
    requires plen <= |mem0| && plen <= ansp && ansp + |Flat(rs)| <= |mem| && AllOwned(rs, owner) && LogOk(mem0, plen, mem, ansp, log)
    requires owner < plen && exists j: nat, ls :: Names(mem0, plen, owner, j, ls)
    ensures LogOk(mem0, plen, Splice(mem, ansp, Flat(rs)), ansp + |Flat(rs)|, log + PlacedAll(rs, ansp, owner))
  {
    hide Entry, Flat, Names, AllOwned, Splice;
    var more := PlacedAll(rs, ansp, owner);
    var all := log + more;
    forall k | 0 <= k < |all|
      ensures Entry(mem0, plen, Splice(mem, ansp, Flat(rs)), ansp + |Flat(rs)|, all[k])
    {
      if k < |log| {
        EntryStays(mem0, plen, mem, ansp, log[k], Flat(rs));
      } else {
        EntryNew(mem0, plen, mem, ansp, rs, owner, k - |log|);
      }
    }
  }

  // ---- over all questions

  ghost predicate Kept(mem0: seq<Byte>, plen: nat, l: Loop)
    requires plen <= |mem0|
  {
    && |l.mem| == |mem0| && plen <= l.ansp <= |l.mem| && l.mem[..plen] == mem0[..plen]
    && LogOk(mem0, plen, l.mem, l.ansp, l.log)
  }

  lemma TurnKeeps(mem0: seq<Byte>, o: Settings, now: int, l: Loop, plen: nat, n: nat, limit: nat)
    requires plen <= |mem0| && n > 0 && Ready(l, plen, n, limit) && Kept(mem0, plen, l) && limit <= PACKETSZ && plen <= limit
    ensures var t := OneTurn(Answering(o, now), l, plen, limit); t.On? ==> Kept(mem0, plen, t.next)
  {
    hide LogOk, Flat, Skip, LabelsAt, End, U16, Buffer, ToText, QuestionStage, AllOwned, Splice, Extractable;
    var t := OneTurn(Answering(o, now), l, plen, limit);
    if t.On? {
      NextQuestion(l.mem, plen, n, l.p);
      var ls := NameAt(l.mem, plen, l.p).value;
      var ask := Ask(l.p, NameOf(ls), U16(l.mem, End(l.mem, l.p)));
      var s := Stage(l.st, TallyOf(l), [], Fine);
      var rs := QuestionStage(s, ask, o, now, BoxAt(l.mem, l.ansp, limit)).records;
      NoneOwned(l.p);
      QuestionOwned(s, ask, o, now, BoxAt(l.mem, l.ansp, limit));
      QuestionNamed(mem0, l.mem, plen, l.p);
      LogStays(mem0, plen, l.mem, l.ansp, l.log, rs, l.p);
      FrontStays(l.mem, l.ansp, Flat(rs), plen);
    }
  }

  lemma NoneOwned(owner: nat)
    ensures AllOwned([], owner)
  {
  }

  lemma FrontStays(mem: seq<Byte>, p: nat, bytes: seq<Byte>, n: nat)
    requires n <= p && p + |bytes| <= |mem|
    ensures Splice(mem, p, bytes)[..n] == mem[..n]
  {
  }

  lemma NotReplied(answer: Answerer, l: Loop, plen: nat, limit: nat)
    requires Sized(l, plen, limit)
    ensures var t := OneTurn(answer, l, plen, limit); t.Out? ==> !t.reply.Replied?
  {
    hide LabelsAt, End, U16, Flat, NameOf, Splice;
  }

  lemma {:induction false} RepliesKeep(mem0: seq<Byte>, o: Settings, now: int, l: Loop, plen: nat, n: nat, limit: nat)
    requires plen <= |mem0| && Ready(l, plen, n, limit) && Kept(mem0, plen, l) && limit <= PACKETSZ && plen <= limit
    ensures match Replies(Turning(o, now, plen, limit), l, n)
            case Replied(_, mem, ansp, _, _, log) =>
              |mem| == |mem0| && plen <= ansp <= limit && mem[..plen] == mem0[..plen] && LogOk(mem0, plen, mem, ansp, log)
            case _ => true
    decreases n
  {
    hide OneTurn, Answering, Turning, LogOk, Skip;
    if n > 0 {
      TurnGrows(o, now, l, plen, n, limit);
      TurnReady(Answering(o, now), l, plen, n, limit);
      TurnKeeps(mem0, o, now, l, plen, n, limit);
      var t := OneTurn(Answering(o, now), l, plen, limit);
      NotReplied(Answering(o, now), l, plen, limit);
      if t.On? { RepliesKeep(mem0, o, now, t.next, plen, n - 1, limit); }
    }
  }

  /** A request that ends with its questions is answered so that the questions stay as they are, every
      record of the answer is where it was written, and extract_name on its owner returns the name of
      the question it answers. */
  lemma {:induction false} OwnersDecode(mem: seq<Byte>, o: Settings, now: int, st: State, plen: nat, n: nat, limit: nat)
    requires var l := Loop(st, mem, HEADER_SIZE, plen, true, false, []); Ready(l, plen, n, limit) && limit <= PACKETSZ && plen <= limit
    ensures match Replies(Turning(o, now, plen, limit), Loop(st, mem, HEADER_SIZE, plen, true, false, []), n)
            case Replied(_, out, ansp, _, _, log) =>
              && |out| == |mem| && ansp <= limit && out[..plen] == mem[..plen]
              && forall k :: 0 <= k < |log| ==> Decodes(mem, plen, out, ansp, log[k])
            case _ => true
  {
    hide Replies, Turning, LogOk, Skip, Decodes;
    var l := Loop(st, mem, HEADER_SIZE, plen, true, false, []);
    EmptyLog(mem, plen);
    RepliesKeep(mem, o, now, l, plen, n, limit);
    var r := Replies(Turning(o, now, plen, limit), l, n);
    if r.Replied? {
      forall k | 0 <= k < |r.log|
        ensures Decodes(mem, plen, r.mem, r.ansp, r.log[k])
      {
        EntryOf(mem, plen, r.mem, r.ansp, r.log, k);
        EntryDecodes(mem, plen, r.mem, r.ansp, r.log[k]);
      }
    }
  }

  lemma EmptyLog(mem: seq<Byte>, plen: nat)
    requires plen <= |mem|
    ensures LogOk(mem, plen, mem, plen, [])
  {
  }

  lemma EntryOf(mem0: seq<Byte>, plen: nat, mem: seq<Byte>, ansp: nat, log: seq<Placed>, k: nat)
    requires plen <= |mem0| && LogOk(mem0, plen, mem, ansp, log) && k < |log|
    ensures Entry(mem0, plen, mem, ansp, log[k])
  {
  }

  // The record is in the reply, and its owner is the name of its question.
  ghost predicate Decodes(mem: seq<Byte>, plen: nat, out: seq<Byte>, olen: nat, e: Placed)
    requires plen <= |mem| && olen <= |out|
  {
    && e.at + |e.rec| <= olen && out[e.at..e.at + |e.rec|] == e.rec
    && exists j: nat, ls :: Names(mem, plen, e.owner, j, ls) && Names(out, olen, e.at, j + 1, ls)
  }

  lemma EntryDecodes(mem0: seq<Byte>, plen: nat, mem: seq<Byte>, ansp: nat, e: Placed)
    requires plen <= |mem0| && Entry(mem0, plen, mem, ansp, e) && ansp <= PACKETSZ && mem[..plen] == mem0[..plen]
    ensures Decodes(mem0, plen, mem, ansp, e)
  {
    hide Spells, Dotted, OwnedBy;
    var j: nat, ls :| Names(mem0, plen, e.owner, j, ls);
    NothingBehind(mem0, plen, e.owner, j, ls, plen);
    OwnerIsQuestion(mem0, plen, mem, ansp, plen, e.at, e.owner, j, ls, e.rec);
  }
}
