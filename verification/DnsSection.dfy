/** The records of an answer section, read from the bytes of a packet. */
module DnsSection {
  import opened Options
  import opened Bytes
  import opened DnsNames
  import opened DnsPackets
  import opened DnsCompare
  import opened DnsRecords
  import opened CacheRecords

  // The memory behind a packet that is read before any bound is checked; the buffer is larger still.
  const SLACK := 16

  function U16(pkt: seq<Byte>, p: nat): nat
    requires p + 2 <= |pkt|
  {
    (pkt[p] as int) * 256 + pkt[p + 1] as int
  }

  function U32(pkt: seq<Byte>, p: nat): (x: nat)
    requires p + 4 <= |pkt|
    ensures x <= 0xffff_ffff
  {
    U16(pkt, p) * 65536 + U16(pkt, p + 2)
  }

  // The first four bytes of an address, and the other twelve.
  function AddrAt(pkt: seq<Byte>, p: nat): Addr
    requires p + 16 <= |pkt|
  {
    Addr(U32(pkt, p), (U32(pkt, p + 4) * 0x1_0000_0000 + U32(pkt, p + 8)) * 0x1_0000_0000 + U32(pkt, p + 12))
  }

  // A name that can be extracted.
  ghost function NameAt(pkt: seq<Byte>, plen: nat, p: nat): Option<Labels>
    requires plen <= |pkt|
  {
    var r := LabelsAt(pkt, plen, p);
    if r.Some? && Extractable(r.value) then r else None
  }

  ghost function DataAt(pkt: seq<Byte>, plen: nat, rtype: nat, p: nat): Data
    requires plen + SLACK <= |pkt| && p <= plen
  {
    if rtype == T_A then V4(AddrAt(pkt, p))
    else if rtype == T_AAAA then V6(AddrAt(pkt, p))
    else if rtype == T_PTR then Pointer(NameAt(pkt, plen, p))
    else if rtype == T_CNAME then Alias(NameAt(pkt, plen, p))
    else Other
  }

  lemma {:induction false} EndBound(pkt: seq<Byte>, plen: nat, off: nat, j: nat, ls: Labels)
    requires plen <= |pkt| && Spells(pkt, plen, off, j, ls) && off <= plen
    ensures off < End(pkt, off) <= plen + 1
    decreases j, |ls|
  {
    if pkt[off] != 0 && !IsPointer(pkt[off]) { EndBound(pkt, plen, off + 1 + pkt[off], j, ls[1..]); }
  }

  lemma NameEnd(pkt: seq<Byte>, plen: nat, off: nat)
    requires plen <= |pkt| && off <= plen && LabelsAt(pkt, plen, off).Some?
    ensures off < End(pkt, off) <= plen + 1
  {
    hide Spells;
    var ls := LabelsAt(pkt, plen, off).value;
    var j: nat :| Spells(pkt, plen, off, j, ls) && j <= MAX_HOPS;
    EndBound(pkt, plen, off, j, ls);
  }

  // The record at an offset and the offset behind it: owner, type, class, TTL, length, data.
  ghost function RecordAt(pkt: seq<Byte>, plen: nat, off: nat): (r: Option<(Resource, nat)>)
    requires plen + SLACK <= |pkt| && off <= plen
    ensures r.Some? ==> off < r.value.1 <= plen
  {
    var ls := LabelsAt(pkt, plen, off);
    if ls.None? then None
    else
      NameEnd(pkt, plen, off);
      var e := End(pkt, off);
      var next := e + 10 + U16(pkt, e + 8);
      if next > plen then None
      else Some((Resource(ls.value, U16(pkt, e + 2) == C_IN, U32(pkt, e + 4), DataAt(pkt, plen, U16(pkt, e), e + 10)), next))
  }

  // At most n records from an offset on, up to the first that cannot be read.
  ghost function Section(pkt: seq<Byte>, plen: nat, n: nat, off: nat): (rrs: seq<Resource>)
    requires plen + SLACK <= |pkt| && off <= plen
    ensures |rrs| <= n && forall i :: 0 <= i < |rrs| ==> rrs[i].ttl <= 0xffff_ffff
  {
    if n == 0 then []
    else match RecordAt(pkt, plen, off)
         case None => []
         case Some((r, next)) => [r] + Section(pkt, plen, n - 1, next)
  }
}
