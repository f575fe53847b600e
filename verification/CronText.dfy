/** The time fields of a crontab line as text: the grammar, what a line says directly, and the
    character-by-character reading of entry.c proved to recover it. */
module CronText {
  import opened Options

  const MAX_TEMPSTR := 100

  // ---- characters and words

  predicate IsDigit(c: char) { '0' <= c <= '9' }
  predicate IsAlnum(c: char) { IsDigit(c) || 'a' <= c <= 'z' || 'A' <= c <= 'Z' }
  predicate IsBlank(c: char) { c == ' ' || c == '\t' }

  function Lower(c: char): char { if 'A' <= c <= 'Z' then c + 32 as char else c }

  predicate AllDigits(w: string) { forall i :: 0 <= i < |w| ==> IsDigit(w[i]) }

  // strcasecmp says equal
  predicate SameName(a: string, b: string) {
    |a| == |b| && forall i :: 0 <= i < |a| ==> Lower(a[i]) == Lower(b[i])
  }

  // That is: of the same length, and at each place the same character, or a letter in either case.
  lemma SameNameIs(a: string, b: string)
    ensures SameName(a, b)
       <==> |a| == |b| && forall i :: 0 <= i < |a| ==> EitherCase(a[i], b[i])
  {
    forall i | 0 <= i < |a| && i < |b|
      ensures Lower(a[i]) == Lower(b[i]) <==> EitherCase(a[i], b[i])
    {
      LetterCase(a[i], b[i]);
    }
  }

  predicate EitherCase(c: char, d: char) {
    c == d || ('A' <= c <= 'Z' && d as int == c as int + 32) || ('A' <= d <= 'Z' && c as int == d as int + 32)
  }

  lemma LetterCase(c: char, d: char)
    ensures Lower(c) == Lower(d) <==> EitherCase(c, d)
  {
  }

  function Decimal(w: string): nat
    requires AllDigits(w)
  {
    if w == "" then 0 else 10 * Decimal(w[..|w| - 1]) + (w[|w| - 1] as int - '0' as int)
  }

  // An int has 32 bits.
  const INT_MAX := 0x7fff_ffff

  // atoi: a number that does not fit is the largest int.
  function Atoi(w: string): (n: nat)
    requires AllDigits(w)
    ensures n <= INT_MAX
  {
    if Decimal(w) <= INT_MAX then Decimal(w) else INT_MAX
  }

  // The first name of the list that the word spells.
  function NameIndex(names: seq<string>, w: string, i: nat): Option<nat>
    requires i <= |names|
    decreases |names| - i
  {
    if i == |names| then None else if SameName(names[i], w) then Some(i) else NameIndex(names, w, i + 1)
  }

  // A field of the table: its bounds and its names.
  datatype Kind = Kind(low: nat, high: nat, names: seq<string>)

  const MINUTE := Kind(0, 59, [])
  const HOUR := Kind(0, 23, [])
  const DOM := Kind(1, 31, [])
  const MONTH := Kind(1, 12, ["Jan", "Feb", "Mar", "Apr", "May", "Jun", "Jul", "Aug", "Sep", "Oct", "Nov", "Dec"])
  const DOW := Kind(0, 7, ["Sun", "Mon", "Tue", "Wed", "Thu", "Fri", "Sat", "Sun"])
  const STEP := Kind(0, 0, [])

  // What a word stands for in a field: a name of the field, or else a number.
  function Value(kind: Kind, w: string): Option<nat> {
    var i := NameIndex(kind.names, w, 0);
    if i.Some? then Some(i.value + kind.low) else if AllDigits(w) then Some(Atoi(w)) else None
  }

  // A name with three letters that differ from those of all names before it stands for its own place.
  lemma {:induction false} OwnPlace(names: seq<string>, i: nat, k: nat)
    requires i <= k < |names| && forall j :: i <= j < k ==> !SameName(names[j], names[k])
    ensures NameIndex(names, names[k], i) == Some(k)
    decreases k - i
  {
    if i < k { OwnPlace(names, i + 1, k); }
  }

  lemma ThreeLetters(a: string, b: string)
    requires |a| == |b| == 3 && (Lower(a[0]) != Lower(b[0]) || Lower(a[1]) != Lower(b[1]) || Lower(a[2]) != Lower(b[2]))
    ensures !SameName(a, b)
  {
  }

  // The months count from 1.
  lemma MonthsCount()
    ensures Value(MONTH, "Jan") == Some(1) && Value(MONTH, "Jun") == Some(6) && Value(MONTH, "Jul") == Some(7) && Value(MONTH, "Dec") == Some(12)
  {
    hide SameName, AllDigits, Atoi;
    var m := MONTH.names;
    forall k | 0 <= k < 12
      ensures NameIndex(m, m[k], 0) == Some(k)
    {
      forall j | 0 <= j < k
        ensures !SameName(m[j], m[k])
      {
        ThreeLetters(m[j], m[k]);
      }
      OwnPlace(m, 0, k);
    }
    assert m[0] == "Jan" && m[5] == "Jun" && m[6] == "Jul" && m[11] == "Dec";
  }

  // The days count from Sunday, 0, which stands again at the end.
  lemma DaysCount()
    ensures Value(DOW, "Sun") == Some(0) && Value(DOW, "Mon") == Some(1) && Value(DOW, "Sat") == Some(6)
  {
    hide SameName, AllDigits, Atoi;
    var d := DOW.names;
    forall k | 0 <= k < 7
      ensures NameIndex(d, d[k], 0) == Some(k)
    {
      forall j | 0 <= j < k
        ensures !SameName(d[j], d[k])
      {
        ThreeLetters(d[j], d[k]);
      }
      OwnPlace(d, 0, k);
    }
    assert d[0] == "Sun" && d[1] == "Mon" && d[6] == "Sat";
  }

  // ---- what a line says

  // The values a, a + step, ... up to b.
  datatype Span = Span(a: nat, b: nat, step: nat) {
    predicate Has(v: int) { a <= v <= b && step >= 1 && (v - a) % step == 0 }
  }

  // *, *\/step, a, a-b, a-b/step; the words as they are spelled.
  datatype Item = Star(step: Option<string>) | One(a: string) | Range(a: string, b: string, step: Option<string>)

  // The five fields as spelled, and the blanks behind each; then the rest of the file.
  datatype Line = Line(minute: seq<Item>, hour: seq<Item>, dom: seq<Item>, month: seq<Item>, dow: seq<Item>,
                       gaps: seq<string>, command: string)

  predicate WordOk(kind: Kind, w: string) {
    0 < |w| < MAX_TEMPSTR && (forall i :: 0 <= i < |w| ==> IsAlnum(w[i])) && Value(kind, w).Some?
  }

  predicate StepOk(step: Option<string>) {
    step.Some? ==> WordOk(STEP, step.value) && Value(STEP, step.value).value >= 1
  }

  predicate ItemOk(kind: Kind, item: Item) {
    match item
    case Star(step) => StepOk(step)
    case One(a) => WordOk(kind, a)
    case Range(a, b, step) => WordOk(kind, a) && WordOk(kind, b) && StepOk(step)
  }

  predicate FieldOk(kind: Kind, items: seq<Item>) {
    items != [] && forall i :: 0 <= i < |items| ==> ItemOk(kind, items[i])
  }

  predicate GapOk(gap: string) { gap != "" && forall i :: 0 <= i < |gap| ==> IsBlank(gap[i]) }

  predicate LineOk(l: Line) {
    && FieldOk(MINUTE, l.minute) && FieldOk(HOUR, l.hour) && FieldOk(DOM, l.dom)
    && FieldOk(MONTH, l.month) && FieldOk(DOW, l.dow)
    && |l.gaps| == 5 && (forall i :: 0 <= i < 5 ==> GapOk(l.gaps[i]))
    && l.command != "" && !IsBlank(l.command[0])
  }

  function StepOf(step: Option<string>): (n: nat)
    requires StepOk(step)
    ensures n >= 1
  {
    if step.Some? then Value(STEP, step.value).value else 1
  }

  function Meaning(kind: Kind, item: Item): (s: Span)
    requires ItemOk(kind, item)
    ensures s.step >= 1
  {
    match item
    case Star(step) => Span(kind.low, kind.high, StepOf(step))
    case One(a) => Span(Value(kind, a).value, Value(kind, a).value, 1)
    case Range(a, b, step) => Span(Value(kind, a).value, Value(kind, b).value, StepOf(step))
  }

  // The field names v.
  ghost predicate Names(kind: Kind, items: seq<Item>, v: int)
    requires FieldOk(kind, items)
  {
    exists i :: 0 <= i < |items| && Meaning(kind, items[i]).Has(v)
  }

  // Every value the field names lies within its bounds.
  ghost predicate InRange(kind: Kind, items: seq<Item>)
    requires FieldOk(kind, items)
  {
    forall v :: Names(kind, items, v) ==> kind.low <= v <= kind.high
  }

  // Behind each value of a span another step can be counted.
  ghost predicate Steady(sp: Span) { forall v {:trigger sp.Has(v)} :: sp.Has(v) ==> v + sp.step <= INT_MAX }

  ghost predicate AllSteady(kind: Kind, items: seq<Item>)
    requires FieldOk(kind, items)
  {
    forall i :: 0 <= i < |items| ==> Steady(Meaning(kind, items[i]))
  }

  ghost predicate Allowed(kind: Kind, items: seq<Item>)
    requires FieldOk(kind, items)
  {
    InRange(kind, items) && AllSteady(kind, items)
  }

  ghost predicate AllAllowed(l: Line)
    requires LineOk(l)
  {
    && Allowed(MINUTE, l.minute) && Allowed(HOUR, l.hour) && Allowed(DOM, l.dom)
    && Allowed(MONTH, l.month) && Allowed(DOW, l.dow)
  }

  predicate StartsWithStar(items: seq<Item>) { items != [] && items[0].Star? }

  // Broken-down time: dow counts from Sunday, 0.
  datatype When = When(minute: nat, hour: nat, dom: nat, month: nat, dow: nat)

  predicate WhenOk(t: When) { t.minute <= 59 && t.hour <= 23 && 1 <= t.dom <= 31 && 1 <= t.month <= 12 && t.dow <= 6 }

  // Sunday is both 0 and 7.
  ghost predicate NamesDay(items: seq<Item>, dow: nat)
    requires FieldOk(DOW, items)
  {
    Names(DOW, items, dow) || (dow == 0 && Names(DOW, items, 7))
  }

  // The line read directly: with a star in either day field both must agree, otherwise one suffices.
  ghost predicate SaysNow(l: Line, t: When)
    requires LineOk(l)
  {
    var day, weekday := Names(DOM, l.dom, t.dom), NamesDay(l.dow, t.dow);
    && Names(MINUTE, l.minute, t.minute) && Names(HOUR, l.hour, t.hour) && Names(MONTH, l.month, t.month)
    && if StartsWithStar(l.dom) || StartsWithStar(l.dow) then weekday && day else weekday || day
  }

  // ---- spelling

  function StepText(step: Option<string>): string { if step.Some? then "/" + step.value else "" }

  function ItemText(item: Item): string {
    match item
    case Star(step) => "*" + StepText(step)
    case One(a) => a
    case Range(a, b, step) => a + "-" + b + StepText(step)
  }

  function FieldText(items: seq<Item>): string
    requires items != []
  {
    if |items| == 1 then ItemText(items[0]) else ItemText(items[0]) + "," + FieldText(items[1..])
  }

  // A field, the blanks behind it, and what follows.
  function Spelled(items: seq<Item>, gap: string, tail: string): string
    requires items != []
  {
    FieldText(items) + (gap + tail)
  }

  function LineText(l: Line): string
    requires LineOk(l)
  {
    Spelled(l.minute, l.gaps[0], Spelled(l.hour, l.gaps[1], Spelled(l.dom, l.gaps[2],
    Spelled(l.month, l.gaps[3], Spelled(l.dow, l.gaps[4], l.command)))))
  }

  // ---- reading: every function takes the characters not yet consumed

  // Length of the leading run of letters and digits.
  function WordLength(s: string): (n: nat)
    ensures n <= |s| && (forall i :: 0 <= i < n ==> IsAlnum(s[i])) && (n < |s| ==> !IsAlnum(s[n]))
  {
    if s == "" || !IsAlnum(s[0]) then 0 else 1 + WordLength(s[1..])
  }

  datatype Read<+T> = Eof | Read(value: T, rest: string)

  // get_number: also an error when nothing follows the word.
  function ReadNumber(kind: Kind, s: string): Read<nat> {
    var n := WordLength(s);
    var v := Value(kind, s[..n]);
    if n >= MAX_TEMPSTR || v.None? || n == |s| then Eof else Read(v.value, s[n..])
  }

  // get_range up to the numbers.
  function ReadBounds(kind: Kind, s: string): Read<Span> {
    if s == "" then Eof
    else if s[0] == '*' then if |s| == 1 then Eof else ReadStep(kind.low, kind.high, s[1..])
    else
      match ReadNumber(kind, s)
      case Eof => Eof
      case Read(a, t) =>
        if t[0] != '-' then Read(Span(a, a, 1), t)
        else if |t| == 1 then Eof
        else match ReadNumber(kind, t[1..])
             case Eof => Eof
             case Read(b, u) => ReadStep(a, b, u)
  }

  function ReadStep(a: nat, b: nat, s: string): Read<Span>
    requires s != ""
  {
    if s[0] != '/' then Read(Span(a, b, 1), s)
    else if |s| == 1 then Eof
    else match ReadNumber(STEP, s[1..])
         case Eof => Eof
         case Read(n, t) => Read(Span(a, b, n), t)
  }

  // What the loop that sets the elements of a span does.
  datatype Effect = Refuse | Loop | Accept

  ghost predicate Fits(kind: Kind, sp: Span) {
    forall v {:trigger sp.Has(v)} :: sp.Has(v) ==> kind.low <= v <= kind.high
  }

  // A step of 0 repeats the first element for ever, unless that is refused at once. A counter that
  // wraps around is negative, and refused.
  ghost function EffectOf(kind: Kind, sp: Span): Effect {
    if sp.a > sp.b then Accept
    else if sp.step == 0 then if kind.low <= sp.a <= kind.high then Loop else Refuse
    else if Fits(kind, sp) && Steady(sp) then Accept else Refuse
  }

  function SkipNonblanks(s: string): string {
    if s == "" || IsBlank(s[0]) || s[0] == '\n' then s else SkipNonblanks(s[1..])
  }

  function SkipBlanks(s: string): string {
    if s == "" || !IsBlank(s[0]) then s else SkipBlanks(s[1..])
  }

  datatype ListRead = Refused | Looping | Listed(spans: seq<Span>, rest: string)

  // get_list: whatever stands between the last range and the next blank is skipped.
  ghost function ReadList(kind: Kind, s: string): ListRead
    decreases |s|
  {
    match ReadBounds(kind, s)
    case Eof => Refused
    case Read(sp, t) =>
      BoundsShorten(kind, s);
      match EffectOf(kind, sp)
      case Refuse => Refused
      case Loop => Looping
      case Accept =>
        if t[0] == ',' then
          match ReadList(kind, t[1..])
          case Refused => Refused
          case Looping => Looping
          case Listed(spans, rest) => Listed([sp] + spans, rest)
        else
          var rest := SkipBlanks(SkipNonblanks(t));
          if rest == "" then Refused else Listed([sp], rest)
  }

  lemma BoundsShorten(kind: Kind, s: string)
    ensures ReadBounds(kind, s).Read? ==> 0 < |ReadBounds(kind, s).rest| <= |s|
  {
    hide Value, WordLength;
  }

  datatype LineRead = Bad | Stuck |
    Loaded(minute: seq<Span>, hour: seq<Span>, dom: seq<Span>, month: seq<Span>, dow: seq<Span>,
           domStar: bool, dowStar: bool, rest: string)

  // The five-field branch of load_entry.
  ghost function ReadLine(s: string): LineRead {
    var minute := ReadList(MINUTE, s);
    if !minute.Listed? then Failed(minute) else
    var hour := ReadList(HOUR, minute.rest);
    if !hour.Listed? then Failed(hour) else
    var dom := ReadList(DOM, hour.rest);
    if !dom.Listed? then Failed(dom) else
    var month := ReadList(MONTH, dom.rest);
    if !month.Listed? then Failed(month) else
    var dow := ReadList(DOW, month.rest);
    if !dow.Listed? then Failed(dow) else
    Loaded(minute.spans, hour.spans, dom.spans, month.spans, dow.spans,
           Starred(hour.rest), Starred(month.rest), dow.rest)
  }

  function Failed(l: ListRead): LineRead { if l.Looping? then Stuck else Bad }

  predicate Starred(s: string) { s != "" && s[0] == '*' }

  // ---- reading back what was spelled

  function Spans(kind: Kind, items: seq<Item>): (s: seq<Span>)
    requires forall i :: 0 <= i < |items| ==> ItemOk(kind, items[i])
    ensures |s| == |items| && forall i :: 0 <= i < |s| ==> s[i] == Meaning(kind, items[i])
  {
    seq(|items|, i requires 0 <= i < |items| => Meaning(kind, items[i]))
  }

  // The reader stops here: not part of a word, a range or a step.
  predicate Stops(tail: string) { tail != "" && !IsAlnum(tail[0]) && tail[0] != '-' && tail[0] != '/' }

  lemma {:induction false} WordBack(w: string, tail: string)
    requires (forall i :: 0 <= i < |w| ==> IsAlnum(w[i])) && tail != "" && !IsAlnum(tail[0])
    ensures WordLength(w + tail) == |w|
  {
    hide IsAlnum;
    if w == "" {
      assert w + tail == tail;
    } else {
      assert (w + tail)[0] == w[0] && (w + tail)[1..] == w[1..] + tail;
      WordBack(w[1..], tail);
    }
  }

  lemma {:induction false} NumberBack(kind: Kind, w: string, tail: string)
    requires WordOk(kind, w) && tail != "" && !IsAlnum(tail[0])
    ensures ReadNumber(kind, w + tail) == Read(Value(kind, w).value, tail)
    ensures IsAlnum((w + tail)[0])
  {
    hide Value, WordLength, IsAlnum;
    WordBack(w, tail);
    assert (w + tail)[..|w|] == w && (w + tail)[|w|..] == tail && (w + tail)[0] == w[0];
  }

  lemma {:induction false} StepBack(a: nat, b: nat, step: Option<string>, tail: string)
    requires StepOk(step) && Stops(tail)
    ensures ReadStep(a, b, StepText(step) + tail) == Read(Span(a, b, StepOf(step)), tail)
  {
    hide Value, ReadNumber, WordOk;
    if step.Some? {
      NumberBack(STEP, step.value, tail);
      assert (StepText(step) + tail)[1..] == step.value + tail;
    } else {
      assert StepText(step) + tail == tail;
    }
  }

  lemma AfterRange(step: Option<string>, tail: string)
    requires tail != ""
    ensures var after := StepText(step) + tail; after[0] == '/' || after == tail
  {
    if step.None? { assert StepText(step) + tail == tail; }
  }

  lemma {:induction false} RangeBack(kind: Kind, a: string, b: string, step: Option<string>, tail: string)
    requires ItemOk(kind, Range(a, b, step)) && Stops(tail)
    ensures ReadBounds(kind, a + ("-" + (b + (StepText(step) + tail)))) == Read(Meaning(kind, Range(a, b, step)), tail)
  {
    hide Value, ReadNumber, ReadStep, StepText;
    var after := StepText(step) + tail;
    AfterRange(step, tail);
    var dash := "-" + (b + after);
    NumberBack(kind, a, dash);
    assert dash[1..] == b + after;
    NumberBack(kind, b, after);
    StepBack(Value(kind, a).value, Value(kind, b).value, step, tail);
  }

  lemma {:induction false} ItemBack(kind: Kind, item: Item, tail: string)
    requires ItemOk(kind, item) && Stops(tail)
    ensures ReadBounds(kind, ItemText(item) + tail) == Read(Meaning(kind, item), tail)
  {
    hide Value, ReadNumber, ReadStep, StepText;
    match item {
      case Star(step) =>
        StepBack(kind.low, kind.high, step, tail);
        assert (ItemText(item) + tail)[1..] == StepText(step) + tail;
      case One(a) =>
        NumberBack(kind, a, tail);
      case Range(a, b, step) =>
        RangeBack(kind, a, b, step, tail);
        assert ItemText(item) + tail == a + ("-" + (b + (StepText(step) + tail)));
    }
  }

  lemma {:induction false} BlanksBack(gap: string, tail: string)
    requires (forall i :: 0 <= i < |gap| ==> IsBlank(gap[i])) && tail != "" && !IsBlank(tail[0])
    ensures SkipBlanks(gap + tail) == tail
    decreases |gap|
  {
    if gap == "" {
      assert gap + tail == tail;
    } else {
      assert (gap + tail)[1..] == gap[1..] + tail;
      BlanksBack(gap[1..], tail);
    }
  }

  // A value is out of bounds in the field exactly when it is in one of its items.
  lemma RangesFit(kind: Kind, items: seq<Item>)
    requires FieldOk(kind, items)
    ensures Allowed(kind, items) <==> AllFit(kind, items)
  {
    hide Meaning, ItemOk, Span.Has, Steady;
    if InRange(kind, items) {
      forall i, v | 0 <= i < |items| && Meaning(kind, items[i]).Has(v)
        ensures kind.low <= v <= kind.high
      {
        assert Names(kind, items, v);
      }
    }
  }

  ghost predicate AllFit(kind: Kind, items: seq<Item>)
    requires forall i :: 0 <= i < |items| ==> ItemOk(kind, items[i])
  {
    forall i :: 0 <= i < |items| ==> Fits(kind, Meaning(kind, items[i])) && Steady(Meaning(kind, items[i]))
  }

  lemma EffectIs(kind: Kind, sp: Span)
    requires sp.step >= 1
    ensures EffectOf(kind, sp) == if Fits(kind, sp) && Steady(sp) then Accept else Refuse
  {
  }

  lemma {:induction false} ListBack(kind: Kind, items: seq<Item>, gap: string, tail: string)
    requires FieldOk(kind, items) && GapOk(gap) && tail != "" && !IsBlank(tail[0])
    ensures ReadList(kind, Spelled(items, gap, tail))
         == if AllFit(kind, items) then Listed(Spans(kind, items), tail) else Refused
    decreases |items|
  {
    hide ItemOk, Meaning, Fits, Steady, ItemText, ReadBounds, EffectOf;
    var s := FieldText(items) + (gap + tail);
    var sp := Meaning(kind, items[0]);
    EffectIs(kind, sp);
    if |items| == 1 {
      ItemBack(kind, items[0], gap + tail);
      assert SkipNonblanks(gap + tail) == gap + tail;
      BlanksBack(gap, tail);
      assert Spans(kind, items) == [sp];
    } else {
      var more := FieldText(items[1..]) + (gap + tail);
      assert s == ItemText(items[0]) + ("," + more);
      ItemBack(kind, items[0], "," + more);
      assert ("," + more)[1..] == more;
      ListBack(kind, items[1..], gap, tail);
      assert Spans(kind, items) == [sp] + Spans(kind, items[1..]);
      FitsCons(kind, items);
    }
  }

  lemma FitsCons(kind: Kind, items: seq<Item>)
    requires FieldOk(kind, items) && |items| > 1
    ensures AllFit(kind, items) <==> Fits(kind, Meaning(kind, items[0])) && Steady(Meaning(kind, items[0])) && AllFit(kind, items[1..])
  {
    hide Fits, Steady, Meaning, ItemOk;
    assert items == [items[0]] + items[1..];
  }

  lemma {:induction false} FieldStart(kind: Kind, items: seq<Item>, gap: string, tail: string)
    requires FieldOk(kind, items)
    ensures var s := Spelled(items, gap, tail);
            s != "" && !IsBlank(s[0]) && Starred(s) == StartsWithStar(items)
  {
    hide Value, StepText;
    var item := items[0];
    var text := FieldText(items);
    assert text[..|ItemText(item)|] == ItemText(item);
    assert ItemText(item) != "" && text[0] == ItemText(item)[0];
    assert Spelled(items, gap, tail)[0] == text[0];
  }

  lemma {:induction false} FieldBack(kind: Kind, items: seq<Item>, gap: string, tail: string)
    requires FieldOk(kind, items) && GapOk(gap) && tail != "" && !IsBlank(tail[0])
    ensures ReadList(kind, Spelled(items, gap, tail))
         == if Allowed(kind, items) then Listed(Spans(kind, items), tail) else Refused
    ensures var s := Spelled(items, gap, tail);
            s != "" && !IsBlank(s[0]) && Starred(s) == StartsWithStar(items)
  {
    hide *;
    ListBack(kind, items, gap, tail);
    RangesFit(kind, items);
    FieldStart(kind, items, gap, tail);
  }

  // The five-field branch accepts a well-formed line exactly when everything it names is within
  // bounds and no counter wraps around, and then holds what the line says.
  lemma {:induction false} LineBack(l: Line)
    requires LineOk(l)
    ensures ReadLine(LineText(l))
         == if AllAllowed(l)
            then Loaded(Spans(MINUTE, l.minute), Spans(HOUR, l.hour), Spans(DOM, l.dom), Spans(MONTH, l.month),
                        Spans(DOW, l.dow), StartsWithStar(l.dom), StartsWithStar(l.dow), l.command)
            else Bad
  {
    hide ReadList, Spelled, ItemOk, Allowed, GapOk, StartsWithStar, Spans, Starred;
    var dow := Spelled(l.dow, l.gaps[4], l.command);
    FieldBack(DOW, l.dow, l.gaps[4], l.command);
    var month := Spelled(l.month, l.gaps[3], dow);
    FieldBack(MONTH, l.month, l.gaps[3], dow);
    var dom := Spelled(l.dom, l.gaps[2], month);
    FieldBack(DOM, l.dom, l.gaps[2], month);
    var hour := Spelled(l.hour, l.gaps[1], dom);
    FieldBack(HOUR, l.hour, l.gaps[1], dom);
    FieldBack(MINUTE, l.minute, l.gaps[0], hour);
  }

  // ---- a step that is too large

  const BIG_STEP := Range("1", "31", Some("2147483647"))

  // Every day that BIG_STEP names is a day of the month: it names the first only.
  lemma BigStepSays(v: int)
    requires ItemOk(DOM, BIG_STEP)
    ensures Meaning(DOM, BIG_STEP) == Span(1, 31, INT_MAX) && (Meaning(DOM, BIG_STEP).Has(v) <==> v == 1)
  {
    BigNumbers();
  }

  lemma BigNumbers()
    ensures Value(DOM, "1") == Some(1) && Value(DOM, "31") == Some(31) && Value(STEP, "2147483647") == Some(INT_MAX)
  {
    assert Decimal("1") == 10 * Decimal("") + 1;
    assert "31"[..1] == "3" && Decimal("3") == 10 * Decimal("") + 3;
    TenDigits();
  }

  lemma DecimalMore(w: string, c: char)
    requires AllDigits(w) && IsDigit(c)
    ensures AllDigits(w + [c]) && Decimal(w + [c]) == 10 * Decimal(w) + (c as int - '0' as int)
  {
    assert (w + [c])[..|w|] == w;
  }

  lemma TenDigits()
    ensures AllDigits("2147483647") && Decimal("2147483647") == INT_MAX
  {
    hide Decimal, AllDigits;
    assert AllDigits("") && Decimal("") == 0 by { NoDigits(); }
    DecimalMore("", '2');
    DecimalMore("2", '1');
    DecimalMore("21", '4');
    DecimalMore("214", '7');
    DecimalMore("2147", '4');
    DecimalMore("21474", '8');
    DecimalMore("214748", '3');
    DecimalMore("2147483", '6');
    DecimalMore("21474836", '4');
    DecimalMore("214748364", '7');
    assert "" + ['2'] == "2" && "2" + ['1'] == "21" && "21" + ['4'] == "214" && "214" + ['7'] == "2147" && "2147" + ['4'] == "21474";
    assert "21474" + ['8'] == "214748" && "214748" + ['3'] == "2147483" && "2147483" + ['6'] == "21474836";
    assert "21474836" + ['4'] == "214748364" && "214748364" + ['7'] == "2147483647";
  }

  lemma NoDigits()
    ensures AllDigits("") && Decimal("") == 0
  {
  }

  /** All that 1-31/2147483647 names is within bounds, and yet it is refused: behind the first day the counter
      wraps around. */
  lemma BigStepRefused()
    ensures ItemOk(DOM, BIG_STEP) && Fits(DOM, Meaning(DOM, BIG_STEP)) && EffectOf(DOM, Meaning(DOM, BIG_STEP)).Refuse?
  {
    BigNumbers();
    var sp := Meaning(DOM, BIG_STEP);
    BigStepSays(1);
    assert sp.Has(1) && !Steady(sp);
  }
}
