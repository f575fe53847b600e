/** The comparing mode of extract_name on the bytes of a packet: it stops at the last label, so it
    finds more than equal names, and its bound on the length is another one. */
module DnsCompare {
  import opened Bytes
  import opened Options
  import opened DnsNames
  import opened DnsPackets

  predicate Prefix(a: seq<Byte>, b: seq<Byte>) { |a| <= |b| && b[..|a|] == a }

  function Min(a: nat, b: nat): nat { if a < b then a else b }

  // ---- the name at an offset, of any length

  ghost predicate Spelled(pkt: seq<Byte>, plen: nat, off: nat, labels: seq<seq<Byte>>)
    requires plen <= |pkt|
  {
    exists j: nat :: Spells(pkt, plen, off, j, labels) && j <= MAX_HOPS
  }

  lemma SpelledOnce(pkt: seq<Byte>, plen: nat, off: nat, ls: seq<seq<Byte>>, ms: seq<seq<Byte>>)
    requires plen <= |pkt| && Spelled(pkt, plen, off, ls) && Spelled(pkt, plen, off, ms)
    ensures ls == ms
  {
    var j: nat :| Spells(pkt, plen, off, j, ls) && j <= MAX_HOPS;
    var k: nat :| Spells(pkt, plen, off, k, ms) && k <= MAX_HOPS;
    SpellsUnique(pkt, plen, off, j, ls, k, ms);
  }

  ghost function LabelsAt(pkt: seq<Byte>, plen: nat, off: nat): (r: Option<seq<seq<Byte>>>)
    requires plen <= |pkt|
    ensures r.Some? ==> Spelled(pkt, plen, off, r.value)
    ensures r.None? ==> forall ls :: !Spelled(pkt, plen, off, ls)
  {
    if exists ls :: Spelled(pkt, plen, off, ls) then var ls :| Spelled(pkt, plen, off, ls); Some(ls) else None
  }

  lemma LabelsAre(pkt: seq<Byte>, plen: nat, off: nat, ls: seq<seq<Byte>>)
    requires plen <= |pkt| && Spelled(pkt, plen, off, ls)
    ensures LabelsAt(pkt, plen, off) == Some(ls)
  {
    SpelledOnce(pkt, plen, off, ls, LabelsAt(pkt, plen, off).value);
  }

  // What the extracting mode makes of it.
  predicate Extractable(labels: seq<seq<Byte>>) { |Dotted(labels)| < MAXDNAME }

  lemma ExtractReads(pkt: seq<Byte>, plen: nat, off: nat)
    requires plen <= |pkt|
    ensures var r := LabelsAt(pkt, plen, off);
            && (NoName(pkt, plen, off) <==> !(r.Some? && Extractable(r.value)))
            && (r.Some? && Extractable(r.value) ==> exists j: nat :: Names(pkt, plen, off, j, r.value))
  {
    hide Spells, Dotted;
    var r := LabelsAt(pkt, plen, off);
    if r.Some? && Extractable(r.value) {
      var j: nat :| Spells(pkt, plen, off, j, r.value) && j <= MAX_HOPS;
      assert Names(pkt, plen, off, j, r.value);
    }
    if !NoName(pkt, plen, off) {
      var j: nat, ls :| Names(pkt, plen, off, j, ls);
      assert Spelled(pkt, plen, off, ls);
      LabelsAre(pkt, plen, off, ls);
    }
  }

  // ---- comparing

  // While comparing, the place in a name of n characters never passes its end, and only that place
  // counts against the limit.
  predicate Comparable(labels: seq<seq<Byte>>, n: nat) {
    forall k :: 0 <= k < |labels| ==> Min(n, |Dotted(labels[..k])|) + |labels[k]| + 1 < MAXDNAME
  }

  // The compared character is a signed char, and the packet's byte is not: from 128 on they differ.
  predicate Same(c: Byte, b: Byte) { c == b && b < 128 }

  predicate PlainText(w: seq<Byte>) { forall i :: 0 <= i < |w| ==> w[i] < 128 }

  predicate Plain(labels: seq<seq<Byte>>) { forall i :: 0 <= i < |labels| ==> PlainText(labels[i]) }

  // No difference is found: the labels, each with a dot, begin the name with a dot behind it, and have seven-bit characters.
  predicate Agrees(labels: seq<seq<Byte>>, name: seq<Byte>) { Prefix(Dotted(labels), name + [DOT]) && Plain(labels) }

  lemma PlainMore(labels: seq<seq<Byte>>, w: seq<Byte>)
    ensures Plain(labels + [w]) <==> Plain(labels) && PlainText(w)
  {
    hide PlainText;
    var all := labels + [w];
    assert all[|labels|] == w && forall i :: 0 <= i < |labels| ==> all[i] == labels[i];
  }

  lemma PrefixCut(a: seq<Byte>, b: seq<Byte>, n: seq<Byte>)
    ensures Prefix(a + b, n) <==> Prefix(a, n) && |a| + |b| <= |n| && n[|a|..|a| + |b|] == b
  {
    if Prefix(a + b, n) {
      assert n[..|a|] == n[..|a + b|][..|a|];
      assert n[|a|..|a| + |b|] == n[..|a + b|][|a|..];
    }
    if |a| + |b| <= |n| { assert n[..|a + b|] == n[..|a|] + n[|a|..|a| + |b|]; }
  }

  // One label more: its characters must be in the name, and then a dot or the name's end.
  lemma AgreesMore(labels: seq<seq<Byte>>, w: seq<Byte>, name: seq<Byte>)
    ensures var at := |Dotted(labels)|;
            Agrees(labels + [w], name)
            <==> Agrees(labels, name) && PlainText(w) && at + |w| <= |name| && name[at..at + |w|] == w && (at + |w| == |name| || name[at + |w|] == DOT)
  {
    hide Dotted, Prefix, PlainText, Plain;
    PlainMore(labels, w);
    var d, n, at := Dotted(labels), name + [DOT], |Dotted(labels)|;
    DottedSnoc(labels, w);
    assert d + w + [DOT] == d + (w + [DOT]);
    PrefixCut(d, w + [DOT], n);
    if at + |w| <= |name| {
      assert n[at..at + |w| + 1] == name[at..at + |w|] + [n[at + |w|]];
      assert (w + [DOT])[..|w|] == w;
    }
  }

  // The loop over the characters of a label: past the end of the name nothing agrees.
  method CompareLabel(pkt: seq<Byte>, p: nat, l: nat, name: seq<Byte>, from: nat, sofar: bool) returns (cp: nat, same: bool)
    requires p + l <= |pkt| && from <= |name|
    ensures cp == Min(|name|, from + l)
    ensures same == (sofar && from + l <= |name| && name[from..from + l] == LowerAll(pkt[p..p + l]) && PlainText(LowerAll(pkt[p..p + l])))
  {
    cp, same := from, sofar;
    ghost var w := LowerAll(pkt[p..p + l]);
    for j := 0 to l
      invariant cp == Min(|name|, from + j)
      invariant same == (sofar && from + j <= |name| && name[from..from + j] == w[..j] && PlainText(w[..j]))
    {
      if cp == |name| {
        same := false;
      } else {
        assert name[from..from + j + 1] == name[from..from + j] + [name[from + j]];
        assert w[..j + 1] == w[..j] + [w[j]];
        PlainSnoc(w, j);
        if !Same(name[cp], Lower(pkt[p + j])) { same := false; }
        cp := cp + 1;
      }
    }
    assert w[..l] == w;
  }

  lemma PlainSnoc(w: seq<Byte>, j: nat)
    requires j < |w|
    ensures PlainText(w[..j + 1]) <==> PlainText(w[..j]) && w[j] < 128
  {
    var a := w[..j + 1];
    assert a[j] == w[j] && forall i :: 0 <= i < j ==> a[i] == w[..j][i];
  }

  // A dot, unless the name ends here.
  method CompareDot(name: seq<Byte>, from: nat, sofar: bool) returns (cp: nat, same: bool)
    requires from <= |name|
    ensures cp == Min(|name|, from + 1) && same == (sofar && (from == |name| || name[from] == DOT))
  {
    cp, same := from, sofar;
    if cp < |name| {
      if name[cp] != DOT { same := false; }
      cp := cp + 1;
    }
  }

  datatype Compared = Unreadable | Compared(next: nat, same: bool)

  lemma NotReadable(pkt: seq<Byte>, plen: nat, start: nat, n: nat, hops: nat, done: seq<seq<Byte>>, off: nat)
    requires plen <= |pkt| && Leads(pkt, plen, start, hops, done, off)
    requires || (off < |pkt| && IsPointer(pkt[off]) && (off + 2 >= plen || Target(pkt, off) >= plen))
             || hops > MAX_HOPS
             || (off < |pkt| && 0 < pkt[off] && !IsPointer(pkt[off])
                 && (Min(n, |Dotted(done)|) + pkt[off] + 1 >= MAXDNAME || off + 1 + pkt[off] >= plen))
    ensures forall ls :: Spelled(pkt, plen, start, ls) ==> !Comparable(ls, n)
  {
    hide Dotted;
    forall j: nat, ls | Spells(pkt, plen, start, j, ls) && j <= MAX_HOPS
      ensures !Comparable(ls, n)
    {
      assert Spells(pkt, plen, off, j - hops, ls[|done|..]);
      assert ls[..|done|] == done;
      assert ls[|done|] == ls[|done|..][0];
    }
  }

  lemma ComparableMore(done: seq<seq<Byte>>, w: seq<Byte>, n: nat)
    requires Comparable(done, n) && Min(n, |Dotted(done)|) + |w| + 1 < MAXDNAME
    ensures Comparable(done + [w], n)
  {
    hide Dotted;
    var ls := done + [w];
    assert ls[..|done|] == done;
    assert forall k :: 0 <= k < |done| ==> ls[..k] == done[..k];
  }

  lemma AgreesNothing(name: seq<Byte>)
    ensures Agrees([], name) && Comparable([], |name|) && Dotted([]) == []
  {
  }

  /** extract_name in comparing mode: it reads a name of any length as long as the place in the
      compared name stays within the limit, ends just past the encoding, and tells whether the labels
      agree with the name. */
  method CompareName(pkt: seq<Byte>, plen: nat, start: nat, name: seq<Byte>) returns (r: Compared)
    requires plen <= |pkt| && start < |pkt|
    ensures var ls := LabelsAt(pkt, plen, start);
            if ls.Some? && Comparable(ls.value, |name|) then r == Compared(End(pkt, start), Agrees(ls.value, name))
            else r == Unreadable
  {
    hide Spells, Leads, Dotted, End, LowerAll, Comparable, Agrees, Spelled;
    var p, hops, cp, same := start, 0, 0, true;
    var p1: int := -1;
    ghost var done: seq<seq<Byte>> := [];
    LeadsStart(pkt, plen, start);
    EndStep(pkt, start);
    AgreesNothing(name);
    var l := pkt[p];
    while l != 0
      invariant p < |pkt| && l == pkt[p] && (p == start || p < plen)
      invariant 0 <= hops <= MAX_HOPS && cp == Min(|name|, |Dotted(done)|)
      invariant same == Agrees(done, name) && Comparable(done, |name|)
      invariant Leads(pkt, plen, start, hops, done, p)
      invariant if p1 < 0 then hops == 0 && End(pkt, start) == End(pkt, p) else p1 == End(pkt, start)
      decreases MAX_HOPS - hops, |pkt| - p
    {
      EndStep(pkt, p);
      if IsPointer(l) {
        if p + 2 >= plen {
          NotReadable(pkt, plen, start, |name|, hops, done, p);
          return Unreadable;
        }
        var off := Target(pkt, p);
        if off >= plen {
          NotReadable(pkt, plen, start, |name|, hops, done, p);
          return Unreadable;
        }
        if p1 < 0 {
          p1 := p + 2;
        }
        LeadsJump(pkt, plen, start, hops, done, p);
        hops := hops + 1;
        if hops > MAX_HOPS {
          NotReadable(pkt, plen, start, |name|, hops, done, off);
          return Unreadable;
        }
        p := off;
      } else {
        if cp + l + 1 >= MAXDNAME || p + 1 + l >= plen {
          NotReadable(pkt, plen, start, |name|, hops, done, p);
          return Unreadable;
        }
        ghost var word := LowerAll(pkt[p + 1..p + 1 + l]);
        LeadsLabel(pkt, plen, start, hops, done, p);
        DottedSnoc(done, word);
        AgreesMore(done, word, name);
        ComparableMore(done, word, |name|);
        AgreesShort(done, name);
        ghost var from := cp;
        cp, same := CompareLabel(pkt, p + 1, l, name, cp, same);
        cp, same := CompareDot(name, cp, same);
        done := done + [word];
        p := p + 1 + l;
      }
      l := pkt[p];
    }
    EndStep(pkt, p);
    ArrivedAt(pkt, plen, start, hops, done, p);
    r := Compared(if p1 < 0 then p + 1 else p1, same);
  }

  // Agreeing labels reach at most one dot beyond the name.
  lemma AgreesShort(labels: seq<seq<Byte>>, name: seq<Byte>)
    ensures Agrees(labels, name) ==> |Dotted(labels)| <= |name| + 1
  {
  }

  lemma ArrivedAt(pkt: seq<Byte>, plen: nat, start: nat, hops: nat, done: seq<seq<Byte>>, off: nat)
    requires plen <= |pkt| && Leads(pkt, plen, start, hops, done, off)
    requires off < |pkt| && pkt[off] == 0 && hops <= MAX_HOPS
    ensures LabelsAt(pkt, plen, start) == Some(done)
  {
    assert done[..|done|] == done && done[|done|..] == [];
    assert Spells(pkt, plen, off, 0, []);
    assert Spells(pkt, plen, start, hops, done);
    LabelsAre(pkt, plen, start, done);
  }

  lemma CutAt(name: seq<Byte>, k: nat)
    requires k <= |name|
    ensures var n := name + [DOT];
            n[..k] == name[..k] && n[k..k + 1] == [if k < |name| then name[k] else DOT] && name[..|name|] == name
  {
    var n := name + [DOT];
    assert n[..k] == name[..k];
    assert n[k] == if k < |name| then name[k] else DOT;
  }

  /** Names agree if and only if they are the same, or the compared one goes on with a dot after the
      owner's text; and the owner's text is of seven bits. */
  lemma AgreesIs(labels: seq<seq<Byte>>, name: seq<Byte>)
    requires labels != []
    ensures var owner := Join(labels);
            Agrees(labels, name)
            <==> Plain(labels) && (owner == name || (|owner| < |name| && name[..|owner|] == owner && name[|owner|] == DOT))
  {
    hide Join, Dotted, Plain;
    JoinDotted(labels);
    var owner, n := Join(labels), name + [DOT];
    PrefixCut(owner, [DOT], n);
    if |owner| <= |name| { CutAt(name, |owner|); }
  }

  /** Two names with a character from 128 on do not agree though they are the same: one letter in Latin-1. */
  lemma AccentDiffers()
    ensures Join([[233]]) == [233] && !Agrees([[233]], [233])
  {
    assert [[233]][0][0] == 233;
    assert !PlainText([[233]][0]);
  }
}
