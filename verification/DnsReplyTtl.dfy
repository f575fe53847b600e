/** The TTLs in the bytes of a reply, from the packets that arrived to the reply that is sent. */
module DnsReplyTtl {
  import opened Options
  import opened Bytes
  import opened DnsNames
  import opened DnsPackets
  import opened DnsRecords
  import opened DnsSection
  import opened DnsExtract
  import opened DnsHistory
  import opened DnsAnswers
  import opened DnsReplies
  import opened DnsReplySafety
  import opened DnsReplyRecords
  import opened CacheRecords
  import opened CacheRuns
  import opened CacheHistory
  import opened CacheLookups

  // The packet hs[i] stated rq, the record r holds it, and ttl is what is left of its TTL at time t.
  ghost predicate LeftOf(arpa: string -> Option<Arpa>, hs: seq<Happening>, t: int, r: Rec, ttl: nat, i: nat, rq: Request) {
    && i < |hs| && hs[i].Packet? && HappensBy(arpa, hs[i], t)
    && Stated(arpa, Section(hs[i].pkt, hs[i].plen, hs[i].ancount, hs[i].start), rq)
    && Answers(r, rq, hs[i].at) && t < hs[i].at + rq.ttl && ttl == hs[i].at + rq.ttl - t
  }

  // A record of the reply and its TTL: local knowledge and fixed texts have none.
  ghost predicate Honest(arpa: string -> Option<Arpa>, hs: seq<Happening>, recs: seq<Rec>, t: int, ask: Ask, rec: seq<Byte>, ttl: nat) {
    || (exists pref, rtype, name :: rec == FixedText(ask, pref, rtype, name) && ttl == 0)
    || exists path, q, r :: IsAnswer(rec, recs, ask, arpa, t, path, q, r)
         && if Ordinary(r) then exists i, rq :: LeftOf(arpa, hs, t, r, ttl, i, rq) else ttl == 0
  }

  lemma TextTtl(ask: Ask, pref: nat, rtype: nat, name: string)
    ensures var b := FixedText(ask, pref, rtype, name); |b| >= 10 && U32(b, 6) == 0
  {
    hide Encode, ToBytes;
    LongLength(0);
    var b := FixedText(ask, pref, rtype, name);
    assert b[..10] == Fixed(ask.owner, 0, rtype);
    assert b[6..10] == b[..10][6..10] == Long(0);
    assert b[6] == b[6..10][0] && b[7] == b[6..10][1] && b[8] == b[6..10][2] && b[9] == b[6..10][3];
  }

  lemma CachedTtl(path: Path, r: Rec, owner: nat, now: int)
    ensures var b := RecordFor(path, r, owner, now); |b| >= 10 && U32(b, 6) == Ttl(r, now)
  {
    hide RecordFor, Ttl;
    TtlReadBack(path, r, owner, now);
  }

  lemma LocalTtl(r: Rec, now: int)
    requires RecOk(r) && !Ordinary(r)
    ensures Ttl(r, now) == 0
  {
  }

  lemma AnswerHonest(arpa: string -> Option<Arpa>, size: nat, hs: seq<Happening>, t: int, ask: Ask, rec: seq<Byte>, path: Path, q: Query, r: Rec)
    requires size >= 3 && 0 <= t <= TIME_MAX && forall i :: 0 <= i < |hs| ==> HappensBy(arpa, hs[i], t)
    requires IsAnswer(rec, Run(size, History(arpa, hs, t)).st.recs, ask, arpa, t, path, q, r)
    ensures |rec| >= 10 && Honest(arpa, hs, Run(size, History(arpa, hs, t)).st.recs, t, ask, rec, U32(rec, 6))
  {
    hide Run, History, RecordFor, HappensBy, Section, Stated, Ttl, RecOk, FixedText, AnswerTtl, Answers;
    CachedTtl(path, r, ask.owner, t);
    if Ordinary(r) {
      var i, rq := TtlEndToEnd(arpa, size, hs, q, t, r);
      Fits(r, t, hs[i].at + rq.ttl - t, hs[i].at, rq);
      assert LeftOf(arpa, hs, t, r, U32(rec, 6), i, rq);
    } else {
      ReachableInv(size, History(arpa, hs, t));
      OkIn(Run(size, History(arpa, hs, t)).st, r);
      LocalTtl(r, t);
    }
  }

  lemma Fits(r: Rec, t: int, left: int, at: int, rq: Request)
    requires AnswerTtl(r, t) == left && 0 <= t && Answers(r, rq, at) && Ordinary(r) && left > 0
    ensures Ttl(r, t) == left
  {
  }

  lemma SourceHonest(arpa: string -> Option<Arpa>, size: nat, hs: seq<Happening>, t: int, ask: Ask, rec: seq<Byte>)
    requires size >= 3 && 0 <= t <= TIME_MAX && forall i :: 0 <= i < |hs| ==> HappensBy(arpa, hs[i], t)
    requires Sourced(rec, Run(size, History(arpa, hs, t)).st.recs, ask, arpa, t)
    ensures |rec| >= 10 && Honest(arpa, hs, Run(size, History(arpa, hs, t)).st.recs, t, ask, rec, U32(rec, 6))
  {
    hide Run, History, HappensBy, IsAnswer, FixedText, LeftOf, U32;
    var recs := Run(size, History(arpa, hs, t)).st.recs;
    if path, q, r :| IsAnswer(rec, recs, ask, arpa, t, path, q, r) {
      AnswerHonest(arpa, size, hs, t, ask, rec, path, q, r);
    } else {
      var pref, rtype, name :| rec == FixedText(ask, pref, rtype, name);
      TextTtl(ask, pref, rtype, name);
    }
  }

  // ---- in the bytes of the reply

  // Where the i-th record of a part is.
  lemma PartAt(mem: seq<Byte>, start: nat, ansp: nat, parts: seq<Part>, k: nat, i: nat)
    requires start <= ansp <= |mem| && mem[start..ansp] == Flat(Records(parts)) && k < |parts| && i < |parts[k].records|
    requires parts[k].at == start + |Flat(Records(parts[..k]))|
    ensures var at, rec := parts[k].at + |Flat(parts[k].records[..i])|, parts[k].records[i];
            at + |rec| <= ansp && mem[at..at + |rec|] == rec
  {
    hide Flat, Records;
    var rs := parts[k].records;
    var a := Records(parts[..k]);
    var b := RecordsSplit(parts, k);
    FlatConcat(a + rs, b);
    FlatConcat(a, rs);
    FlatAt(rs, i);
    var all := Flat(Records(parts));
    var off, at, n := |Flat(a)|, |Flat(rs[..i])|, |rs[i]|;
    assert all[off..off + |Flat(rs)|] == Flat(rs);
    assert all[off + at..off + at + n] == all[off..off + |Flat(rs)|][at..at + n];
    assert all == Flat(a) + Flat(rs) + Flat(b) && at + n <= |Flat(rs)|;
    Within(mem, start, ansp, off + at, n);
  }

  lemma Within(mem: seq<Byte>, start: nat, ansp: nat, at: nat, n: nat)
    requires start <= ansp <= |mem| && at + n <= ansp - start
    ensures mem[start + at..start + at + n] == mem[start..ansp][at..at + n]
  {
    var a, b := mem[start + at..start + at + n], mem[start..ansp][at..at + n];
    forall i | 0 <= i < n
      ensures a[i] == b[i]
    {
      assert b[i] == mem[start..ansp][at + i] == mem[start + (at + i)];
    }
  }

  lemma {:induction false} RecordsSplit(parts: seq<Part>, k: nat) returns (b: seq<seq<Byte>>)
    requires k < |parts|
    ensures Records(parts) == Records(parts[..k]) + parts[k].records + b
  {
    var n := |parts| - 1;
    if k == n {
      b := [];
      assert Records(parts) + [] == Records(parts);
    } else {
      var c := RecordsSplit(parts[..n], k);
      assert parts[..n][..k] == parts[..k];
      b := c + parts[n].records;
    }
  }

  lemma FieldAt(mem: seq<Byte>, at: nat, rec: seq<Byte>)
    requires |rec| >= 10 && at + |rec| <= |mem| && mem[at..at + |rec|] == rec
    ensures U32(mem, at + 6) == U32(rec, 6)
  {
    var cut := mem[at..at + |rec|];
    assert cut[6] == mem[at + 6] && cut[7] == mem[at + 7] && cut[8] == mem[at + 8] && cut[9] == mem[at + 9];
  }

  // The i-th record of a part, as it is in the reply.
  ghost predicate HonestAt(arpa: string -> Option<Arpa>, hs: seq<Happening>, recs: seq<Rec>, t: int, mem: seq<Byte>, ansp: nat, p: Part, i: nat)
    requires i < |p.records| && ansp <= |mem|
  {
    var at, rec := p.at + |Flat(p.records[..i])|, p.records[i];
    10 <= |rec| && at + |rec| <= ansp && mem[at..at + |rec|] == rec && Honest(arpa, hs, recs, t, p.ask, rec, U32(mem, at + 6))
  }

  lemma RecordHonest(size: nat, hs: seq<Happening>, t: int, o: Settings, mem0: seq<Byte>, start: nat, plen: nat, parts: seq<Part>,
                     mem: seq<Byte>, ansp: nat, log: seq<Placed>, k: nat, i: nat)
    requires size >= 3 && 0 <= t <= TIME_MAX && (forall i :: 0 <= i < |hs| ==> HappensBy(o.arpa, hs[i], t)) && start <= plen <= |mem0|
    requires Accounted(mem0, start, plen, Run(size, History(o.arpa, hs, t)).st.recs, o, t, parts, mem, ansp, log)
    requires k < |parts| && i < |parts[k].records|
    ensures HonestAt(o.arpa, hs, Run(size, History(o.arpa, hs, t)).st.recs, t, mem, ansp, parts[k], i)
  {
    hide Run, History, HappensBy, Sourced, Honest, Exact, Flat, Records, LogOf, Skip, Asked, U32;
    var recs, p := Run(size, History(o.arpa, hs, t)).st.recs, parts[k];
    assert PartOk(mem0, start, plen, recs, o, t, parts, k);
    ExactSourced(p.records, recs, p.ask, o, t);
    SourceHonest(o.arpa, size, hs, t, p.ask, p.records[i]);
    PartAt(mem, start, ansp, parts, k, i);
    FieldAt(mem, p.at + |Flat(p.records[..i])|, p.records[i]);
  }

  /** TTLs in the reply. In every history, each record of every reply sent at time t is in the reply with
      a TTL field that is 0, for local knowledge and fixed texts, or t0 + n - t, for a record that the
      bytes of a packet that arrived at t0 stated with TTL n, and t < t0 + n. */
  lemma ReplyTtl(size: nat, hs: seq<Happening>, t: int, o: Settings, mem: seq<Byte>, plen: nat, n: nat, limit: nat, start: nat)
    returns (parts: seq<Part>)
    requires size >= 3 && 0 <= t <= TIME_MAX && forall i :: 0 <= i < |hs| ==> HappensBy(o.arpa, hs[i], t)
    requires Ready(Begin(Run(size, History(o.arpa, hs, t)).st, mem, start), plen, n, limit) && Skip(mem, plen, n, HEADER_SIZE) == Some(start)
    ensures start <= plen <= |mem|
    ensures var st := Run(size, History(o.arpa, hs, t)).st;
            match Replies(Turning(o, t, plen, limit), Begin(st, mem, start), n)
            case Replied(_, out, ansp, _, _, log) =>
              && |parts| == n && Accounted(mem, start, plen, st.recs, o, t, parts, out, ansp, log)
              && forall k, i :: 0 <= k < |parts| && 0 <= i < |parts[k].records| ==> HonestAt(o.arpa, hs, st.recs, t, out, ansp, parts[k], i)
            case _ => true
  {
    hide Run, History, HappensBy, Replies, Turning, Accounted, HonestAt, Ready, Skip;
    var st := Run(size, History(o.arpa, hs, t)).st;
    parts := ReplyExact(mem, o, t, st, plen, n, limit, start);
    var r := Replies(Turning(o, t, plen, limit), Begin(st, mem, start), n);
    if r.Replied? {
      AccountedBounds(mem, start, plen, st.recs, o, t, parts, r.mem, r.ansp, r.log);
      forall k, i | 0 <= k < |parts| && 0 <= i < |parts[k].records|
        ensures HonestAt(o.arpa, hs, st.recs, t, r.mem, r.ansp, parts[k], i)
      {
        RecordHonest(size, hs, t, o, mem, start, plen, parts, r.mem, r.ansp, r.log, k, i);
      }
    }
  }

  lemma AccountedBounds(mem0: seq<Byte>, start: nat, plen: nat, recs: seq<Rec>, o: Settings, now: int, parts: seq<Part>,
                        mem: seq<Byte>, ansp: nat, log: seq<Placed>)
    requires start <= plen <= |mem0| && Accounted(mem0, start, plen, recs, o, now, parts, mem, ansp, log)
    ensures ansp <= |mem|
  {
    hide Flat, Records, LogOf, PartsOk;
  }
}
