/** cron_tick, and the theorem that compiling a crontab line to bitmaps keeps its meaning. */
module CronTick {
  import opened Options
  import opened CronBits
  import opened CronText
  import opened CronScanner
  import opened Cron

  // The bit tests of cron_tick, all values counted from the first of their field.
  predicate DueNow(s: seq<bv8>, domStar: bool, dowStar: bool, t: When)
    requires |s| == BLOCK_SIZE && WhenOk(t)
  {
    && Bit(s, 8 * AT_MINUTE + t.minute) && Bit(s, 8 * AT_HOUR + t.hour) && Bit(s, 8 * AT_MONTH + (t.month - 1))
    && if domStar || dowStar
       then Bit(s, 8 * AT_DOW + t.dow) && Bit(s, 8 * AT_DOM + (t.dom - 1))
       else Bit(s, 8 * AT_DOW + t.dow) || Bit(s, 8 * AT_DOM + (t.dom - 1))
  }

  lemma NamesAreSpans(kind: Kind, items: seq<Item>, v: int)
    requires FieldOk(kind, items)
    ensures Names(kind, items, v) == InSpans(Spans(kind, items), v)
  {
    hide Meaning, ItemOk, Span.Has;
    var spans := Spans(kind, items);
    assert forall i :: 0 <= i < |items| ==> spans[i] == Meaning(kind, items[i]);
    if Names(kind, items, v) {
      var i :| 0 <= i < |items| && Meaning(kind, items[i]).Has(v);
      assert spans[i].Has(v);
    }
  }

  lemma FieldMeans(s: seq<bv8>, at: nat, kind: Kind, items: seq<Item>, v: nat)
    requires FieldOk(kind, items) && kind.low <= v <= kind.high && 8 * at + kind.high - kind.low < 8 * |s|
    requires FieldIs(s, at, kind, Spans(kind, items))
    ensures Bit(s, 8 * at + (v - kind.low)) == Names(kind, items, v)
  {
    hide Bit, Names, InSpans, Spans;
    NamesAreSpans(kind, items, v);
    assert InSpans(Spans(kind, items), v) == Bit(s, 8 * at + (v - kind.low));
  }

  // Whatever bitmaps and flags reading the line's text leaves, the tick finds the entry due
  // exactly when the line says so.
  lemma MeaningKept(l: Line, s: seq<bv8>, domStar: bool, dowStar: bool, t: When)
    requires LineOk(l) && AllAllowed(l) && |s| == BLOCK_SIZE && WhenOk(t)
    requires var r := ReadLine(LineText(l)); r.Loaded? && Compiled(s, r) && domStar == r.domStar && dowStar == r.dowStar
    ensures DueNow(s, domStar, dowStar, t) == SaysNow(l, t)
  {
    hide ReadLine, LineText, Names, AllAllowed, FieldOk, StartsWithStar, FieldIs, Bit, InSpans, Spans;
    LineBack(l);
    FieldMeans(s, AT_MINUTE, MINUTE, l.minute, t.minute);
    FieldMeans(s, AT_HOUR, HOUR, l.hour, t.hour);
    FieldMeans(s, AT_DOM, DOM, l.dom, t.dom);
    FieldMeans(s, AT_MONTH, MONTH, l.month, t.month);
    NamesAreSpans(DOW, l.dow, t.dow);
    NamesAreSpans(DOW, l.dow, 0);
    NamesAreSpans(DOW, l.dow, 7);
  }

  // Loading a well-formed line from the file: accepted exactly when all it names is within bounds
  // and no counter wraps around.
  method LoadLine(sc: Scanner, start: Option<char>, ghost l: Line) returns (e: Entry, ch: Option<char>)
    requires sc.Valid() && LineOk(l) && sc.Rest(start) == LineText(l)
    modifies sc
    ensures sc.Valid() && fresh(e) && fresh(e.block) && e.block.Length == BLOCK_SIZE
    ensures ch.Some? == AllAllowed(l)
    ensures ch.Some? ==> sc.Rest(ch) == l.command
    ensures ch.Some? ==> forall t | WhenOk(t) :: DueNow(e.block[..], e.domStar, e.dowStar, t) == SaysNow(l, t)
  {
    hide ReadLine, LineText, AllAllowed, LineOk, SaysNow, DueNow, WhenOk, Compiled;
    e := new Entry();
    LineBack(l);
    ch := e.Load(sc, start);
    if ch.Some? {
      forall t | WhenOk(t)
        ensures DueNow(e.block[..], e.domStar, e.dowStar, t) == SaysNow(l, t)
      {
        MeaningKept(l, e.block[..], e.domStar, e.dowStar, t);
      }
    }
  }

  // The condition of cron_tick, test by test.
  method IsDue(e: Entry, t: When) returns (due: bool)
    requires e.block.Length == BLOCK_SIZE && WhenOk(t)
    ensures due == DueNow(e.block[..], e.domStar, e.dowStar, t)
  {
    hide Bit;
    var minute := e.TestBit(AT_MINUTE, t.minute);
    var hour := e.TestBit(AT_HOUR, t.hour);
    var month := e.TestBit(AT_MONTH, t.month - 1);
    var dow := e.TestBit(AT_DOW, t.dow);
    var dom := e.TestBit(AT_DOM, t.dom - 1);
    due := minute && hour && month && if e.domStar || e.dowStar then dow && dom else dow || dom;
  }

  // A queued job: the user's place in the database and the entry's in the crontab.
  datatype Job = Job(user: nat, entry: nat)

  ghost predicate Listed(db: seq<seq<Entry>>, j: Job) { j.user < |db| && j.entry < |db[j.user]| }

  ghost predicate DbOk(db: seq<seq<Entry>>) {
    forall u, k :: 0 <= u < |db| && 0 <= k < |db[u]| ==> db[u][k].block.Length == BLOCK_SIZE
  }

  ghost predicate DueJob(db: seq<seq<Entry>>, t: When, j: Job)
    requires DbOk(db) && WhenOk(t)
    reads set u, k | 0 <= u < |db| && 0 <= k < |db[u]| :: db[u][k]
    reads set u, k | 0 <= u < |db| && 0 <= k < |db[u]| :: db[u][k].block
  {
    Listed(db, j) && var e := db[j.user][j.entry]; DueNow(e.block[..], e.domStar, e.dowStar, t)
  }

  predicate Distinct(jobs: seq<Job>) { forall i, j :: 0 <= i < j < |jobs| ==> jobs[i] != jobs[j] }

  // In front of job j of the walk over all users and their entries.
  predicate Before(x: Job, user: nat, entry: nat) { x.user < user || (x.user == user && x.entry < entry) }

  // job_add: at the tail, unless already queued.
  function JobAdd(jobs: seq<Job>, j: Job): (r: seq<Job>)
    requires Distinct(jobs)
    ensures Distinct(r) && (forall x :: x in r <==> x in jobs || x == j)
  {
    if j in jobs then jobs else jobs + [j]
  }

  // cron_tick: the queue gains exactly the entries that are due.
  method Tick(db: seq<seq<Entry>>, t: When, queue: seq<Job>) returns (jobs: seq<Job>)
    requires DbOk(db) && WhenOk(t) && Distinct(queue)
    ensures Distinct(jobs) && forall j :: j in jobs <==> j in queue || DueJob(db, t, j)
  {
    hide DueNow, Distinct;
    jobs := queue;
    for u := 0 to |db|
      invariant Distinct(jobs) && forall j :: j in jobs <==> j in queue || (DueJob(db, t, j) && Before(j, u, 0))
    {
      for k := 0 to |db[u]|
        invariant Distinct(jobs) && forall j :: j in jobs <==> j in queue || (DueJob(db, t, j) && Before(j, u, k))
      {
        var due := IsDue(db[u][k], t);
        assert due == DueJob(db, t, Job(u, k));
        if due { jobs := JobAdd(jobs, Job(u, k)); }
      }
    }
  }
}
