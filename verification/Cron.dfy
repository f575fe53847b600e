/** The crontab compiler of entry.c and the minute tick of cron.c. The five bitmaps of an entry lie
    in one block of bytes, as in the source's record, so that a clear that runs past one of them
    reaches its neighbour. */
module Cron {
  import opened Options
  import opened Arithmetic
  import opened CronBits
  import opened CronText
  import opened CronScanner

  // Byte offsets of the bitmaps: 8, 3, 4, 2 and 1 bytes, then two bytes of padding.
  const AT_MINUTE := 0
  const AT_HOUR := 8
  const AT_DOM := 11
  const AT_MONTH := 15
  const AT_DOW := 17
  const BLOCK_SIZE := 20

  // ---- sets of bits

  ghost predicate InSpans(spans: seq<Span>, v: int) { exists i :: 0 <= i < |spans| && spans[i].Has(v) }

  // The bits of sp below `upto` have been added, and nothing else.
  ghost predicate Added(was: seq<bv8>, after: seq<bv8>, at: nat, low: nat, sp: Span, upto: int) {
    |after| == |was| &&
    forall n {:trigger Bit(after, n)} :: 0 <= n < 8 * |was| ==>
      Bit(after, n) == (Bit(was, n) || (n >= 8 * at && n - 8 * at + low < upto && sp.Has(n - 8 * at + low)))
  }

  // From an element of a span the next one is a step away.
  lemma NextElement(sp: Span, i: nat, v: int)
    requires sp.step >= 1 && sp.Has(i) && i <= v <= i + sp.step
    ensures sp.Has(v) == (v <= sp.b && (v == i || v == i + sp.step))
  {
    StepOn(i - sp.a, sp.step, v - i);
  }

  lemma NothingAdded(s: seq<bv8>, at: nat, low: nat, sp: Span)
    ensures Added(s, s, at, low, sp, sp.a)
  {
    hide Bit;
  }

  // Setting the element i, the next one after those below it.
  lemma AddedNext(was: seq<bv8>, mid: seq<bv8>, after: seq<bv8>, at: nat, low: nat, sp: Span, i: nat)
    requires sp.step >= 1 && sp.Has(i) && i >= low && |mid| == |after| && 8 * at + i - low < 8 * |mid|
    requires Added(was, mid, at, low, sp, i)
    requires forall n {:trigger Bit(after, n)} :: 0 <= n < 8 * |mid| ==> Bit(after, n) == (Bit(mid, n) || n == 8 * at + (i - low))
    ensures Added(was, after, at, low, sp, i + sp.step)
  {
    hide Bit, Span.Has;
    forall n | 0 <= n < 8 * |was|
      ensures Bit(after, n)
           == (Bit(was, n) || (n >= 8 * at && n - 8 * at + low < i + sp.step && sp.Has(n - 8 * at + low)))
    {
      var v := n - 8 * at + low;
      if i <= v < i + sp.step { NextElement(sp, i, v); }
      assert Bit(mid, n) == (Bit(was, n) || (n >= 8 * at && v < i && sp.Has(v)));
    }
  }

  // set_element
  method SetElement(block: array<bv8>, at: nat, kind: Kind, number: int) returns (ok: bool)
    requires kind.low <= kind.high && 8 * at + kind.high - kind.low < 8 * block.Length
    modifies block
    ensures ok == (kind.low <= number <= kind.high)
    ensures !ok ==> block[..] == old(block[..])
    ensures ok ==> forall n {:trigger Bit(block[..], n)} :: 0 <= n < 8 * block.Length ==>
                     Bit(block[..], n) == (old(Bit(block[..], n)) || n == 8 * at + (number - kind.low))
  {
    hide Bit;
    ok := !(number < kind.low || number > kind.high);
    if ok { Set(block, at, number - kind.low); }
  }

  // The loop at the end of get_range.
  method SetSpan(block: array<bv8>, at: nat, kind: Kind, sp: Span) returns (ok: bool)
    requires kind.low <= kind.high && 8 * at + kind.high - kind.low < 8 * block.Length
    requires EffectOf(kind, sp) != Loop && sp.a <= INT_MAX && sp.b <= INT_MAX && sp.step <= INT_MAX
    modifies block
    ensures ok == EffectOf(kind, sp).Accept?
    ensures ok ==> Added(old(block[..]), block[..], at, kind.low, sp, sp.b + 1)
  {
    hide Added, Bit, Span.Has, Steady, Fits, EffectOf;
    ghost var was := block[..];
    NothingAdded(was, at, kind.low, sp);
    FirstElement(kind, sp);
    var i: int := sp.a;
    while i <= sp.b
      invariant -0x8000_0000 <= i <= INT_MAX && if i < 0 then !EffectOf(kind, sp).Accept? else sp.a <= i && (i <= sp.b ==> OnTheWay(kind, sp, i))
      invariant i >= 0 ==> Added(was, block[..], at, kind.low, sp, i) && FitsBelow(kind, sp, i)
      invariant sp.step == 0 ==> i == sp.a
      decreases i >= 0, sp.b - i
    {
      ghost var mid := block[..];
      ok := SetElement(block, at, kind, i);
      if !ok {
        if i >= 0 { OutOfBounds(kind, sp, i); }
        return false;
      }
      Runs(kind, sp, i);
      AddedNext(was, mid, block[..], at, kind.low, sp, i);
      Elements(kind, sp, i);
      i := Wrap32(i + sp.step);
    }
    AllElements(kind, sp, i);
    AddedAll(was, block[..], at, kind.low, sp, i);
    return true;
  }

  // Addition in an int.
  function Wrap32(x: int): int { (x + 0x8000_0000) % 0x1_0000_0000 - 0x8000_0000 }

  // i is an element, or the one that a step of 0 repeats.
  ghost predicate OnTheWay(kind: Kind, sp: Span, i: int) { if sp.step == 0 then i == sp.a else sp.Has(i) }

  // Everything below i could be set and counted on.
  ghost predicate FitsBelow(kind: Kind, sp: Span, i: int) {
    forall v {:trigger sp.Has(v)} :: sp.Has(v) && v < i ==> kind.low <= v <= kind.high && v + sp.step <= INT_MAX
  }

  lemma OutOfBounds(kind: Kind, sp: Span, i: int)
    requires EffectOf(kind, sp) != Loop && sp.a <= i <= sp.b && OnTheWay(kind, sp, i) && !(kind.low <= i <= kind.high)
    ensures !EffectOf(kind, sp).Accept?
  {
    hide Steady, Span.Has;
  }

  // A step of 0 that would loop is excluded.
  lemma Runs(kind: Kind, sp: Span, i: int)
    requires EffectOf(kind, sp) != Loop && sp.a <= i <= sp.b && OnTheWay(kind, sp, i) && kind.low <= i <= kind.high
    ensures sp.step >= 1 && sp.Has(i)
  {
    hide Steady, Fits, Span.Has;
  }

  lemma AllElements(kind: Kind, sp: Span, i: int)
    requires i > sp.b && FitsBelow(kind, sp, i) && EffectOf(kind, sp) != Loop && (sp.step == 0 ==> sp.a > sp.b)
    ensures EffectOf(kind, sp).Accept?
  {
    assert forall v :: sp.Has(v) ==> v < i;
  }

  lemma FirstElement(kind: Kind, sp: Span)
    ensures sp.a <= sp.b ==> OnTheWay(kind, sp, sp.a)
    ensures FitsBelow(kind, sp, sp.a)
  {
  }

  // Between an element and the next there is none.
  lemma Elements(kind: Kind, sp: Span, i: nat)
    requires 1 <= sp.step <= INT_MAX && sp.Has(i) && sp.a <= i <= sp.b <= INT_MAX && kind.low <= i <= kind.high && FitsBelow(kind, sp, i)
    ensures var n := Wrap32(i + sp.step);
            if i + sp.step <= INT_MAX
            then n == i + sp.step && (n <= sp.b ==> OnTheWay(kind, sp, n)) && FitsBelow(kind, sp, n)
            else -0x8000_0000 <= n < 0 && !EffectOf(kind, sp).Accept?
  {
    hide Span.Has;
    NextElement(sp, i, i + sp.step);
    forall v | sp.Has(v) && v < i + sp.step
      ensures v <= i
    {
      if v > i { NextElement(sp, i, v); }
    }
    if i + sp.step > INT_MAX { assert !Steady(sp); }
  }

  lemma AddedAll(was: seq<bv8>, after: seq<bv8>, at: nat, low: nat, sp: Span, upto: int)
    requires Added(was, after, at, low, sp, upto) && upto > sp.b
    ensures Added(was, after, at, low, sp, sp.b + 1)
  {
    hide Bit;
  }

  lemma SingleElement(kind: Kind, a: nat, was: seq<bv8>, after: seq<bv8>, at: nat)
    requires kind.low <= kind.high && KindFits(kind) && |after| == |was|
    requires kind.low <= a <= kind.high ==>
               forall n {:trigger Bit(after, n)} :: 0 <= n < 8 * |was| ==> Bit(after, n) == (Bit(was, n) || n == 8 * at + (a - kind.low))
    ensures var sp := Span(a, a, 1);
            && EffectOf(kind, sp) == (if kind.low <= a <= kind.high then Accept else Refuse)
            && (EffectOf(kind, sp).Accept? ==> Added(was, after, at, kind.low, sp, sp.b + 1))
  {
    hide Bit;
    var sp := Span(a, a, 1);
    assert sp.Has(a);
    assert forall v :: sp.Has(v) <==> v == a;
  }

  lemma NothingToRead(kind: Kind)
    ensures ReadNumber(kind, "") == Eof
  {
  }

  // get_range up to its loop: the numbers of a range, none at an error.
  method GetBounds(sc: Scanner, kind: Kind, start: Option<char>) returns (sp: Span, single: bool, ch: Option<char>)
    requires sc.Valid()
    modifies sc
    ensures sc.Valid()
    ensures match ReadBounds(kind, old(sc.Rest(start)))
            case Eof => ch.None?
            case Read(v, rest) => sp == v && ch.Some? && sc.Rest(ch) == rest && (single ==> sp == Span(sp.a, sp.a, 1))
  {
    hide ReadNumber;
    NothingToRead(kind);
    var num1, num2, num3 := 0, 0, 1;
    sp, single, ch := Span(0, 0, 1), false, None;
    if start == Some('*') {
      num1, num2 := kind.low, kind.high;
      ch := sc.GetChar();
      if ch.None? { return; }
    } else {
      num1, ch := sc.GetNumber(kind, start);
      if ch.None? { return; }
      if ch.value != '-' {
        return Span(num1, num1, 1), true, ch;
      }
      ch := sc.GetChar();
      if ch.None? { return; }
      num2, ch := sc.GetNumber(kind, ch);
      if ch.None? { return; }
    }
    if ch.value == '/' {
      ch := sc.GetChar();
      if ch.None? { return; }
      num3, ch := sc.GetNumber(STEP, ch);
      if ch.None? { return; }
    }
    sp := Span(num1, num2, num3);
  }

  // All that a field can be made of is an int.
  predicate KindFits(kind: Kind) { kind.high < INT_MAX && kind.low + |kind.names| <= INT_MAX }

  lemma BoundsFit(kind: Kind, s: string)
    requires kind.low <= kind.high && KindFits(kind)
    ensures match ReadBounds(kind, s)
            case Eof => true
            case Read(sp, _) => sp.a <= INT_MAX && sp.b <= INT_MAX && sp.step <= INT_MAX
  {
    hide ReadNumber;
    NumberFits(kind, s);
    var r := ReadNumber(kind, s);
    if s != "" && s[0] == '*' {
      if |s| > 1 { StepFits(kind.low, kind.high, s[1..]); }
    } else if r.Read? && r.rest != "" && r.rest[0] == '-' {
      NumberFits(kind, r.rest[1..]);
      var u := ReadNumber(kind, r.rest[1..]);
      if u.Read? && u.rest != "" { StepFits(r.value, u.value, u.rest); }
    }
  }

  lemma StepFits(a: nat, b: nat, s: string)
    requires s != "" && a <= INT_MAX && b <= INT_MAX
    ensures match ReadStep(a, b, s)
            case Eof => true
            case Read(sp, _) => sp.a <= INT_MAX && sp.b <= INT_MAX && sp.step <= INT_MAX
  {
    hide ReadNumber;
    NumberFits(STEP, s[1..]);
  }

  lemma NumberFits(kind: Kind, s: string)
    requires KindFits(kind)
    ensures ReadNumber(kind, s).Read? ==> ReadNumber(kind, s).value <= INT_MAX && ReadNumber(kind, s).rest != ""
  {
    hide Value, WordLength;
    ValueFits(kind, s[..WordLength(s)]);
  }

  lemma ValueFits(kind: Kind, w: string)
    requires KindFits(kind)
    ensures Value(kind, w).Some? ==> Value(kind, w).value <= INT_MAX
  {
    hide Decimal;
    NameBound(kind.names, w, 0);
  }

  lemma {:induction false} NameBound(names: seq<string>, w: string, i: nat)
    requires i <= |names|
    ensures NameIndex(names, w, i).Some? ==> NameIndex(names, w, i).value < |names|
    decreases |names| - i
  {
    if i < |names| { NameBound(names, w, i + 1); }
  }

  // get_range
  method GetRange(sc: Scanner, block: array<bv8>, at: nat, kind: Kind, start: Option<char>) returns (ch: Option<char>)
    requires sc.Valid() && kind.low <= kind.high && KindFits(kind) && 8 * at + kind.high - kind.low < 8 * block.Length
    requires var r := ReadBounds(kind, sc.Rest(start)); r.Read? ==> EffectOf(kind, r.value) != Loop
    modifies sc, block
    ensures sc.Valid()
    ensures match ReadBounds(kind, old(sc.Rest(start)))
            case Eof => ch.None?
            case Read(sp, rest) =>
              if EffectOf(kind, sp).Accept?
              then ch.Some? && sc.Rest(ch) == rest && Added(old(block[..]), block[..], at, kind.low, sp, sp.b + 1)
              else ch.None?
  {
    hide ReadBounds, EffectOf, Added, Bit;
    ghost var was := block[..];
    BoundsFit(kind, sc.Rest(start));
    var sp, single, next := GetBounds(sc, kind, start);
    if next.None? { return None; }
    var ok;
    if single {
      ok := SetElement(block, at, kind, sp.a);
      SingleElement(kind, sp.a, was, block[..], at);
    } else {
      ok := SetSpan(block, at, kind, sp);
    }
    return if ok then next else None;
  }

  // ---- lists

  // The field's bits, and the one behind them that the clear also reaches, are those of the spans.
  ghost predicate Holds(was: seq<bv8>, after: seq<bv8>, at: nat, kind: Kind, spans: seq<Span>) {
    |after| == |was| &&
    forall n {:trigger Bit(after, n)} :: 0 <= n < 8 * |was| ==>
      Bit(after, n) == if 8 * at <= n <= 8 * at + (kind.high - kind.low + 1) then InSpans(spans, n - 8 * at + kind.low)
                       else Bit(was, n)
  }

  lemma ClearedHolds(was: seq<bv8>, after: seq<bv8>, at: nat, kind: Kind)
    requires |after| == |was|
    requires forall n {:trigger Bit(after, n)} :: 0 <= n < 8 * |was| ==>
               Bit(after, n) == (Bit(was, n) && !(8 * at + 0 <= n <= 8 * at + (kind.high - kind.low + 1)))
    ensures Holds(was, after, at, kind, [])
  {
    hide Bit;
  }

  lemma HoldsNext(was: seq<bv8>, mid: seq<bv8>, after: seq<bv8>, at: nat, kind: Kind, spans: seq<Span>, sp: Span)
    requires kind.low <= kind.high && Holds(was, mid, at, kind, spans)
    requires Added(mid, after, at, kind.low, sp, sp.b + 1) && EffectOf(kind, sp).Accept?
    ensures Holds(was, after, at, kind, spans + [sp])
  {
    hide Bit, Span.Has;
    forall n | 0 <= n < 8 * |was|
      ensures Bit(after, n) == if 8 * at <= n <= 8 * at + (kind.high - kind.low + 1)
                               then InSpans(spans + [sp], n - 8 * at + kind.low) else Bit(was, n)
    {
      var v := n - 8 * at + kind.low;
      InSpansAppend(spans, sp, v);
      AcceptedFits(kind, sp, v);
      assert Bit(after, n) == (Bit(mid, n) || (n >= 8 * at && v < sp.b + 1 && sp.Has(v)));
    }
  }

  lemma AcceptedFits(kind: Kind, sp: Span, v: int)
    requires EffectOf(kind, sp).Accept?
    ensures sp.Has(v) ==> kind.low <= v <= kind.high && v <= sp.b
  {
  }

  lemma InSpansAppend(spans: seq<Span>, sp: Span, v: int)
    ensures InSpans(spans + [sp], v) == (InSpans(spans, v) || sp.Has(v))
  {
    hide Span.Has;
    var all := spans + [sp];
    assert all[|spans|] == sp && forall i :: 0 <= i < |spans| ==> all[i] == spans[i];
  }

  // The rest of a list read after the spans already taken.
  ghost function After(spans: seq<Span>, r: ListRead): ListRead {
    if r.Listed? then Listed(spans + r.spans, r.rest) else r
  }

  lemma AfterNext(kind: Kind, s: string, spans: seq<Span>)
    requires ReadBounds(kind, s).Read?
    ensures var sp, t := ReadBounds(kind, s).value, ReadBounds(kind, s).rest;
            EffectOf(kind, sp).Accept? && t != "" && t[0] == ','
            ==> After(spans, ReadList(kind, s)) == After(spans + [sp], ReadList(kind, t[1..]))
  {
    hide ReadBounds, EffectOf;
    BoundsShorten(kind, s);
    var sp, t := ReadBounds(kind, s).value, ReadBounds(kind, s).rest;
    if EffectOf(kind, sp).Accept? && t[0] == ',' {
      var r := ReadList(kind, t[1..]);
      if r.Listed? { assert spans + ([sp] + r.spans) == spans + [sp] + r.spans; }
    }
  }

  // get_list
  method GetList(sc: Scanner, block: array<bv8>, at: nat, kind: Kind, start: Option<char>) returns (ch: Option<char>)
    requires sc.Valid() && kind.low <= kind.high && KindFits(kind) && 8 * at + kind.high - kind.low + 1 < 8 * block.Length
    requires !ReadList(kind, sc.Rest(start)).Looping?
    modifies sc, block
    ensures sc.Valid()
    ensures var r := ReadList(kind, old(sc.Rest(start)));
            && ch.Some? == r.Listed?
            && (r.Listed? ==> sc.Rest(ch) == r.rest && Holds(old(block[..]), block[..], at, kind, r.spans))
  {
    hide Holds, Added, ReadBounds, EffectOf, Bit;
    ghost var was, want := block[..], ReadList(kind, sc.Rest(start));
    Nclear(block, at, 0, kind.high - kind.low + 1);
    ClearedHolds(was, block[..], at, kind);
    ch := start;
    ghost var spans: seq<Span> := [];
    var done := false;
    assert After([], want) == want;
    while !done
      invariant sc.Valid()
      invariant !done ==> After(spans, ReadList(kind, sc.Rest(ch))) == want && Holds(was, block[..], at, kind, spans)
      invariant done ==> Finished(sc.Rest(ch), spans) == want && (want.Listed? ==> Holds(was, block[..], at, kind, spans))
      decreases !done, |sc.Rest(ch)|
    {
      ghost var s, mid := sc.Rest(ch), block[..];
      ch := GetRange(sc, block, at, kind, ch);
      ghost var r := ReadBounds(kind, s);
      BoundsShorten(kind, s);
      if r.Read? && EffectOf(kind, r.value).Accept? {
        HoldsNext(was, mid, block[..], at, kind, spans, r.value);
        AfterNext(kind, s, spans);
        spans := spans + [r.value];
      }
      if ch == Some(',') {
        ch := sc.GetChar();
      } else {
        done := true;
      }
    }
    ch := sc.SkipNonblank(ch);
    ch := sc.SkipBlank(ch);
  }

  // The end of a list: nothing is left at an error.
  ghost function Finished(s: string, spans: seq<Span>): ListRead {
    var rest := SkipBlanks(SkipNonblanks(s));
    if rest == "" then Refused else Listed(spans, rest)
  }

  // ---- entries

  ghost predicate FieldIs(s: seq<bv8>, at: nat, kind: Kind, spans: seq<Span>)
    requires kind.low <= kind.high && 8 * at + kind.high - kind.low < 8 * |s|
  {
    forall v {:trigger InSpans(spans, v)} :: kind.low <= v <= kind.high ==>
      Bit(s, 8 * at + (v - kind.low)) == InSpans(spans, v)
  }

  lemma OwnField(was: seq<bv8>, after: seq<bv8>, at: nat, kind: Kind, spans: seq<Span>)
    requires Holds(was, after, at, kind, spans) && kind.low <= kind.high && 8 * at + kind.high - kind.low < 8 * |was|
    ensures FieldIs(after, at, kind, spans)
  {
    hide Bit, InSpans;
    forall v | kind.low <= v <= kind.high
      ensures Bit(after, 8 * at + (v - kind.low)) == InSpans(spans, v)
    {
      var n := 8 * at + (v - kind.low);
      assert n - 8 * at + kind.low == v;
    }
  }

  // Compiling one field leaves an earlier one alone when it lies wholly in front.
  lemma OtherField(was: seq<bv8>, after: seq<bv8>, at: nat, kind: Kind, spans: seq<Span>, front: nat, k: Kind, there: seq<Span>)
    requires Holds(was, after, at, kind, spans) && k.low <= k.high && 8 * front + (k.high - k.low) < 8 * at <= 8 * |was|
    requires FieldIs(was, front, k, there)
    ensures FieldIs(after, front, k, there)
  {
    hide Bit, InSpans;
    forall v | k.low <= v <= k.high
      ensures Bit(after, 8 * front + (v - k.low)) == InSpans(there, v)
    {
      assert Bit(after, 8 * front + (v - k.low)) == Bit(was, 8 * front + (v - k.low));
    }
  }

  // All five fields, before the Sundays are made equal.
  ghost predicate Fields(s: seq<bv8>, r: LineRead)
    requires |s| == BLOCK_SIZE && r.Loaded?
  {
    && FieldIs(s, AT_MINUTE, MINUTE, r.minute) && FieldIs(s, AT_HOUR, HOUR, r.hour) && FieldIs(s, AT_DOM, DOM, r.dom)
    && FieldIs(s, AT_MONTH, MONTH, r.month) && FieldIs(s, AT_DOW, DOW, r.dow)
  }

  // The bitmaps of an entry that was loaded.
  ghost predicate Compiled(s: seq<bv8>, r: LineRead)
    requires |s| == BLOCK_SIZE && r.Loaded?
  {
    && FieldIs(s, AT_MINUTE, MINUTE, r.minute) && FieldIs(s, AT_HOUR, HOUR, r.hour) && FieldIs(s, AT_DOM, DOM, r.dom)
    && FieldIs(s, AT_MONTH, MONTH, r.month)
    && forall v :: 0 <= v <= 7 ==> Bit(s, 8 * AT_DOW + v) == (InSpans(r.dow, v) || (v % 7 == 0 && (InSpans(r.dow, 0) || InSpans(r.dow, 7))))
  }

  lemma FieldsKept(s0: seq<bv8>, s1: seq<bv8>, s2: seq<bv8>, s3: seq<bv8>, s4: seq<bv8>, s5: seq<bv8>, r: LineRead)
    requires r.Loaded? && |s0| == BLOCK_SIZE
    requires Holds(s0, s1, AT_MINUTE, MINUTE, r.minute) && Holds(s1, s2, AT_HOUR, HOUR, r.hour)
    requires Holds(s2, s3, AT_DOM, DOM, r.dom) && Holds(s3, s4, AT_MONTH, MONTH, r.month)
    requires Holds(s4, s5, AT_DOW, DOW, r.dow)
    ensures |s5| == BLOCK_SIZE && Fields(s5, r)
  {
    assert |s1| == |s2| == |s3| == |s4| == |s5| == BLOCK_SIZE;
    MinuteKept(s0, s1, s2, s3, s4, s5, r);
    OwnField(s1, s2, AT_HOUR, HOUR, r.hour);
    OwnField(s2, s3, AT_DOM, DOM, r.dom);
    OtherField(s2, s3, AT_DOM, DOM, r.dom, AT_HOUR, HOUR, r.hour);
    OwnField(s3, s4, AT_MONTH, MONTH, r.month);
    OtherField(s3, s4, AT_MONTH, MONTH, r.month, AT_HOUR, HOUR, r.hour);
    OtherField(s3, s4, AT_MONTH, MONTH, r.month, AT_DOM, DOM, r.dom);
    OwnField(s4, s5, AT_DOW, DOW, r.dow);
    OtherField(s4, s5, AT_DOW, DOW, r.dow, AT_HOUR, HOUR, r.hour);
    OtherField(s4, s5, AT_DOW, DOW, r.dow, AT_DOM, DOM, r.dom);
    OtherField(s4, s5, AT_DOW, DOW, r.dow, AT_MONTH, MONTH, r.month);
  }

  lemma MinuteKept(s0: seq<bv8>, s1: seq<bv8>, s2: seq<bv8>, s3: seq<bv8>, s4: seq<bv8>, s5: seq<bv8>, r: LineRead)
    requires r.Loaded? && |s0| == |s1| == |s2| == |s3| == |s4| == |s5| == BLOCK_SIZE
    requires Holds(s0, s1, AT_MINUTE, MINUTE, r.minute) && Holds(s1, s2, AT_HOUR, HOUR, r.hour)
    requires Holds(s2, s3, AT_DOM, DOM, r.dom) && Holds(s3, s4, AT_MONTH, MONTH, r.month)
    requires Holds(s4, s5, AT_DOW, DOW, r.dow)
    ensures FieldIs(s5, AT_MINUTE, MINUTE, r.minute)
  {
    hide Holds, FieldIs;
    OwnField(s0, s1, AT_MINUTE, MINUTE, r.minute);
    OtherField(s1, s2, AT_HOUR, HOUR, r.hour, AT_MINUTE, MINUTE, r.minute);
    OtherField(s2, s3, AT_DOM, DOM, r.dom, AT_MINUTE, MINUTE, r.minute);
    OtherField(s3, s4, AT_MONTH, MONTH, r.month, AT_MINUTE, MINUTE, r.minute);
    OtherField(s4, s5, AT_DOW, DOW, r.dow, AT_MINUTE, MINUTE, r.minute);
  }

  // Setting both Sunday bits when one is set.
  lemma Sundays(s: seq<bv8>, t: seq<bv8>, r: LineRead)
    requires |s| == |t| == BLOCK_SIZE && r.Loaded? && Fields(s, r)
    requires var sunday := Bit(s, 8 * AT_DOW + 0) || Bit(s, 8 * AT_DOW + 7);
             forall n {:trigger Bit(t, n)} :: 0 <= n < 8 * BLOCK_SIZE ==>
               Bit(t, n) == (Bit(s, n) || (sunday && (n == 8 * AT_DOW + 0 || n == 8 * AT_DOW + 7)))
    ensures Compiled(t, r)
  {
    hide Bit, InSpans;
    SameField(s, t, AT_MINUTE, MINUTE, r.minute);
    SameField(s, t, AT_HOUR, HOUR, r.hour);
    SameField(s, t, AT_DOM, DOM, r.dom);
    SameField(s, t, AT_MONTH, MONTH, r.month);
    WeekDays(s, t, r.dow);
  }

  lemma SameField(s: seq<bv8>, t: seq<bv8>, at: nat, kind: Kind, spans: seq<Span>)
    requires |s| == |t| == BLOCK_SIZE && kind.low <= kind.high && 8 * at + kind.high - kind.low < 8 * AT_DOW
    requires FieldIs(s, at, kind, spans)
    requires forall n {:trigger Bit(t, n)} :: 0 <= n < 8 * AT_DOW ==> Bit(t, n) == Bit(s, n)
    ensures FieldIs(t, at, kind, spans)
  {
    hide Bit, InSpans;
    assert forall v {:trigger InSpans(spans, v)} :: kind.low <= v <= kind.high ==>
      Bit(t, 8 * at + (v - kind.low)) == Bit(s, 8 * at + (v - kind.low));
  }

  lemma WeekDays(s: seq<bv8>, t: seq<bv8>, dow: seq<Span>)
    requires |s| == |t| == BLOCK_SIZE && FieldIs(s, AT_DOW, DOW, dow)
    requires var sunday := Bit(s, 8 * AT_DOW + 0) || Bit(s, 8 * AT_DOW + 7);
             forall n {:trigger Bit(t, n)} :: 0 <= n < 8 * BLOCK_SIZE ==>
               Bit(t, n) == (Bit(s, n) || (sunday && (n == 8 * AT_DOW + 0 || n == 8 * AT_DOW + 7)))
    ensures forall v :: 0 <= v <= 7 ==>
      Bit(t, 8 * AT_DOW + v) == (InSpans(dow, v) || (v % 7 == 0 && (InSpans(dow, 0) || InSpans(dow, 7))))
  {
    hide Bit, InSpans;
    forall v | 0 <= v <= 7
      ensures Bit(s, 8 * AT_DOW + v) == InSpans(dow, v)
    {
      assert 8 * AT_DOW + (v - DOW.low) == 8 * AT_DOW + v;
      var _ := InSpans(dow, v);
    }
    assert Bit(s, 8 * AT_DOW + 0) == InSpans(dow, 0) && Bit(s, 8 * AT_DOW + 7) == InSpans(dow, 7);
  }

  class Entry {
    const block: array<bv8>
    var domStar: bool
    var dowStar: bool

    // calloc
    constructor ()
      ensures block.Length == BLOCK_SIZE && !domStar && !dowStar && fresh(block)
    {
      block := new bv8[BLOCK_SIZE](_ => 0);
      domStar, dowStar := false, false;
    }

    // The five calls of get_list, in order; hour's clear reaches the first bit of dom, which is read later.
    method LoadFields(sc: Scanner, start: Option<char>) returns (ch: Option<char>)
      requires sc.Valid() && block.Length == BLOCK_SIZE && !domStar && !dowStar
      requires !ReadLine(sc.Rest(start)).Stuck?
      modifies this, block, sc
      ensures sc.Valid()
      ensures var r := ReadLine(old(sc.Rest(start)));
              && ch.Some? == r.Loaded?
              && (r.Loaded? ==> sc.Rest(ch) == r.rest && Fields(block[..], r) && domStar == r.domStar && dowStar == r.dowStar)
    {
      hide ReadList, Holds, FieldIs;
      ghost var r, s0 := ReadLine(sc.Rest(start)), block[..];
      ch := GetList(sc, block, AT_MINUTE, MINUTE, start);
      if ch.None? { return; }
      ghost var s1 := block[..];
      ch := GetList(sc, block, AT_HOUR, HOUR, ch);
      if ch.None? { return; }
      ghost var s2 := block[..];
      if ch.value == '*' { domStar := true; }
      ch := GetList(sc, block, AT_DOM, DOM, ch);
      if ch.None? { return; }
      ghost var s3 := block[..];
      ch := GetList(sc, block, AT_MONTH, MONTH, ch);
      if ch.None? { return; }
      ghost var s4 := block[..];
      if ch.value == '*' { dowStar := true; }
      ch := GetList(sc, block, AT_DOW, DOW, ch);
      if ch.None? { return; }
      FieldsKept(s0, s1, s2, s3, s4, block[..], r);
    }

    // The whole branch: the fields, then 0 and 7 made the same day.
    method Load(sc: Scanner, start: Option<char>) returns (ch: Option<char>)
      requires sc.Valid() && block.Length == BLOCK_SIZE && !domStar && !dowStar
      requires !ReadLine(sc.Rest(start)).Stuck?
      modifies this, block, sc
      ensures sc.Valid()
      ensures var r := ReadLine(old(sc.Rest(start)));
              && ch.Some? == r.Loaded?
              && (r.Loaded? ==> sc.Rest(ch) == r.rest && Compiled(block[..], r) && domStar == r.domStar && dowStar == r.dowStar)
    {
      hide ReadLine, Fields, Bit, Compiled;
      ghost var r := ReadLine(sc.Rest(start));
      ch := LoadFields(sc, start);
      if ch.None? { return; }
      ghost var s := block[..];
      var sun0 := TestBit(AT_DOW, 0);
      var sun7 := TestBit(AT_DOW, 7);
      if sun0 || sun7 {
        Set(block, AT_DOW, 0);
        Set(block, AT_DOW, 7);
      }
      Sundays(s, block[..], r);
    }

    // bit_test
    method TestBit(at: nat, bit: nat) returns (b: bool)
      requires 8 * at + bit < 8 * block.Length
      ensures b == Bit(block[..], 8 * at + bit)
    {
      hide Test;
      b := Test(block[at + bit / 8], bit % 8);
    }
  }
}
