/** The phase lock of the NTP client (phaselock.c): a ring of the last sixteen measurements, the
    correction for wandering frequency, and the search for the two envelopes. Times are whole
    seconds; heights and slopes are exact. */
module PhaseLock {
  import opened Envelope

  const RING_SIZE := 16

  // s.min and s.max are the corrected bounds of the skew.
  datatype Datum = Datum(absolute: nat, skew: real, errorbar: real, freq: int, min: real, max: real)

  function Curve(d: Datum, s: nat): real { if s == 0 then d.min else d.max }

  function NextUp(i: nat): nat { if i + 1 >= RING_SIZE then 0 else i + 1 }

  function NextDn(i: nat): nat { if i == 0 then RING_SIZE - 1 else i - 1 }

  // Where the k-th oldest measurement lies when the newest is at rp.
  function At(rp: nat, k: nat): (i: nat)
    ensures i < RING_SIZE
  {
    (rp + 1 + k) % RING_SIZE
  }

  lemma AtNext(rp: nat, k: nat)
    requires rp < RING_SIZE && k < RING_SIZE
    ensures At(rp, 0) == NextUp(rp) && At(rp, RING_SIZE - 1) == rp && At(rp, k + 1) == NextUp(At(rp, k))
    ensures k > 0 ==> At(rp, k - 1) == NextDn(At(rp, k)) && At(rp, k) != At(rp, 0)
    ensures At(rp, RING_SIZE) == At(rp, 0)
    ensures At(rp, k) == rp <==> k == RING_SIZE - 1
  {
  }

  // The walk over the ring ends where it began.
  lemma AtMore(rp: nat, k: nat)
    requires rp < RING_SIZE && k <= RING_SIZE
    ensures 0 < k ==> (At(rp, k) == NextUp(rp) <==> k == RING_SIZE)
    ensures k < RING_SIZE ==> At(rp, k + 1) == NextUp(At(rp, k))
  {
    hide At, NextUp;
    AtNext(rp, if k < RING_SIZE then k else 0);
  }

  // One curve in time order.
  ghost function Points(ring: seq<Datum>, rp: nat, s: nat): (ps: seq<Point>)
    requires |ring| == RING_SIZE
    ensures |ps| == RING_SIZE
    ensures forall k :: 0 <= k < RING_SIZE ==> ps[k] == Point(ring[At(rp, k)].absolute as real, Curve(ring[At(rp, k)], s))
  {
    seq(RING_SIZE, k requires 0 <= k < RING_SIZE => Point(ring[At(rp, k)].absolute as real, Curve(ring[At(rp, k)], s)))
  }

  ghost predicate InOrder(ring: seq<Datum>, rp: nat)
    requires |ring| == RING_SIZE
  {
    forall i, k {:trigger At(rp, i), At(rp, k)} :: 0 <= i < k < RING_SIZE ==> ring[At(rp, i)].absolute < ring[At(rp, k)].absolute
  }

  lemma PointsRise(ring: seq<Datum>, rp: nat, s: nat, u: nat)
    requires |ring| == RING_SIZE && InOrder(ring, rp)
    ensures Rising(Points(ring, rp, s)) && SameTimes(Points(ring, rp, s), Points(ring, rp, u))
  {
    hide At;
  }

  // ---- pass 1

  // The skew that the frequencies in force since measurement k have caused, against the last one.
  ghost function Drift(ring: seq<Datum>, rp: nat, freq: int, k: nat): real
    requires |ring| == RING_SIZE && k < RING_SIZE
    decreases RING_SIZE - k
  {
    if k == RING_SIZE - 1 then 0.0
    else Drift(ring, rp, freq, k + 1) + Share(ring[At(rp, k + 1)], ring[At(rp, k)], freq)
  }

  function Share(j: Datum, n: Datum, freq: int): real {
    (j.absolute - n.absolute) as real * (j.freq - freq) as real / 65536.0
  }

  function Corrected(d: Datum, cum: real): Datum {
    d.(max := d.skew - cum + d.errorbar, min := d.skew - cum - d.errorbar)
  }

  ghost predicate AllCorrected(was: seq<Datum>, after: seq<Datum>, rp: nat, freq: int)
    requires |was| == RING_SIZE
  {
    |after| == RING_SIZE &&
    forall k {:trigger At(rp, k)} :: 0 <= k < RING_SIZE ==> after[At(rp, k)] == Corrected(was[At(rp, k)], Drift(was, rp, freq, k))
  }

  // What a clock that gains `rate`, slowed by freq, is off after dt seconds.
  function Gain(rate: real, freq: int, dt: int): real { (rate - freq as real / 65536.0) * dt as real }

  ghost predicate Wanders(ring: seq<Datum>, rp: nat, rate: real, i: nat)
    requires |ring| == RING_SIZE && i < RING_SIZE - 1
  {
    var n, j := ring[At(rp, i)], ring[At(rp, i + 1)];
    j.skew - n.skew == Gain(rate, j.freq, j.absolute - n.absolute)
  }

  // If between two measurements the skew grew as the frequency then in force makes it grow, the
  // corrected skews lie on the line that the present frequency alone would give.
  lemma {:induction false} Straightens(ring: seq<Datum>, rp: nat, freq: int, rate: real, k: nat)
    requires |ring| == RING_SIZE && k < RING_SIZE
    requires forall i :: 0 <= i < RING_SIZE - 1 ==> Wanders(ring, rp, rate, i)
    ensures var n, last := ring[At(rp, k)], ring[At(rp, RING_SIZE - 1)];
            n.skew - Drift(ring, rp, freq, k) == last.skew + Gain(rate, freq, n.absolute - last.absolute)
    decreases RING_SIZE - k
  {
    hide At, Gain, Share;
    if k < RING_SIZE - 1 {
      Straightens(ring, rp, freq, rate, k + 1);
      assert Wanders(ring, rp, rate, k);
      var n, j, last := ring[At(rp, k)], ring[At(rp, k + 1)], ring[At(rp, RING_SIZE - 1)];
      StraightStep(n, j, last, freq, rate);
    } else {
      NoGain(rate, freq);
    }
  }

  /** After pass 1 the measurements of such a clock are bands around one straight line, each as wide as its error. */
  lemma BandIsStraight(was: seq<Datum>, after: seq<Datum>, rp: nat, freq: int, rate: real, k: nat)
    requires |was| == RING_SIZE && k < RING_SIZE && AllCorrected(was, after, rp, freq)
    requires forall i :: 0 <= i < RING_SIZE - 1 ==> Wanders(was, rp, rate, i)
    ensures var d, last := was[At(rp, k)], was[At(rp, RING_SIZE - 1)];
            var line := last.skew + (rate - freq as real / 65536.0) * (d.absolute - last.absolute) as real;
            && after[At(rp, k)].max == line + d.errorbar && after[At(rp, k)].min == line - d.errorbar
            && after[At(rp, k)].absolute == d.absolute
  {
    hide At, Drift;
    Straightens(was, rp, freq, rate, k);
  }

  lemma NoGain(rate: real, freq: int)
    ensures Gain(rate, freq, 0) == 0.0
  {
  }

  lemma StraightStep(n: Datum, j: Datum, last: Datum, freq: int, rate: real)
    ensures Gain(rate, freq, j.absolute - last.absolute) - Gain(rate, j.freq, j.absolute - n.absolute) - Share(j, n, freq)
         == Gain(rate, freq, n.absolute - last.absolute)
  {
    var dt, back := (j.absolute - n.absolute) as real, (j.absolute - last.absolute) as real;
    var f, g := j.freq as real / 65536.0, freq as real / 65536.0;
    assert (j.freq - freq) as real == j.freq as real - freq as real;
    assert Share(j, n, freq) == dt * (f - g);
    assert (n.absolute - last.absolute) as real == back - dt;
    assert (rate - g) * (back - dt) == (rate - g) * back - (rate - f) * dt - dt * (f - g);
  }

  // ---- search

  ghost predicate Later(p: Point, qs: seq<Point>, j: nat) { forall i :: j < i < |qs| ==> p.t < qs[i].t }

  // Among the points between j and upto, m is reached at the smallest slope, the first such (sign 0),
  // or at the largest, the last such (sign 1).
  ghost predicate Chosen(sign: nat, p: Point, qs: seq<Point>, j: nat, m: nat, upto: nat)
    requires Later(p, qs, j) && j < m < upto <= |qs|
  {
    forall i :: j < i < upto && i != m ==>
      var a, b := Slope(p, qs[m]), Slope(p, qs[i]);
      if sign == 0 then (if i < m then a < b else a <= b) else (if i < m then a >= b else a > b)
  }

  lemma ChosenNext(sign: nat, p: Point, qs: seq<Point>, j: nat, m: nat, k: nat)
    requires sign <= 1 && Later(p, qs, j) && j < m < k < |qs| && Chosen(sign, p, qs, j, m, k)
    ensures var take := (Slope(p, qs[k]) < Slope(p, qs[m])) != (sign == 1);
            Chosen(sign, p, qs, j, if take then k else m, k + 1)
  {
    hide Slope;
  }

  lemma ChosenBest(sign: nat, p: Point, qs: seq<Point>, j: nat, m: nat)
    requires sign <= 1 && Later(p, qs, j) && j < m < |qs| && Chosen(sign, p, qs, j, m, |qs|)
    ensures Best(sign == 0, p, qs, j, m)
  {
    hide Slope;
  }

  // ---- the lines between the envelopes that passes 2 and 3 look out for

  ghost predicate Pair(ps: seq<Point>, qs: seq<Point>) { Rising(ps) && SameTimes(ps, qs) }

  // The steepest (lower) or flattest line from vertex c - 1 onto the later points of the other curve,
  // when its slope is strictly between those of the segments that meet there.
  ghost predicate Candidate(lower: bool, ps: seq<Point>, qs: seq<Point>, segs: seq<Seg>, verts: seq<nat>, first: real, c: nat, m: nat) {
    && Pair(ps, qs) && 1 <= c <= |verts| && c < |segs| && verts[c - 1] < m < |qs|
    && var p, j := ps[verts[c - 1]], verts[c - 1];
       Later(p, qs, j) && Best(!lower, p, qs, j, m) &&
       var k := Slope(p, qs[m]);
       var last := if c == 1 then first else segs[c - 1].slope;
       if lower then last < k < segs[c].slope else segs[c].slope < k < last
  }

  // The line kept so far: a candidate of least slope, if there is any.
  ghost predicate Saved(lower: bool, ps: seq<Point>, qs: seq<Point>, newest: real, segs: seq<Seg>, verts: seq<nat>, first: real,
                        upto: nat, found: bool, save: Seg) {
    && (found ==> exists c: nat, m: nat :: c < upto && Candidate(lower, ps, qs, segs, verts, first, c, m)
                                 && save == Join(ps[verts[c - 1]], qs[m], newest))
    && forall c: nat, m: nat :: c < upto && Candidate(lower, ps, qs, segs, verts, first, c, m) ==>
         found && save.slope <= Slope(ps[verts[c - 1]], qs[m])
  }

  lemma CandidateStays(lower: bool, ps: seq<Point>, qs: seq<Point>, segs: seq<Seg>, after: seq<Seg>, verts: seq<nat>, more: seq<nat>,
                       first: real, c: nat, m: nat)
    requires |segs| == |after| && 1 <= c < |segs| && c <= |verts| <= |more| && more[..|verts|] == verts
    requires after[c] == segs[c] && after[c - 1] == segs[c - 1]
    ensures Candidate(lower, ps, qs, segs, verts, first, c, m) == Candidate(lower, ps, qs, after, more, first, c, m)
  {
    hide Best, Pair, Later, Slope;
    assert more[c - 1] == more[..|verts|][c - 1] == verts[c - 1];
  }

  lemma BestSame(lower: bool, p: Point, qs: seq<Point>, j: nat, m: nat, n: nat)
    requires Later(p, qs, j) && j < m < |qs| && j < n < |qs| && Best(lower, p, qs, j, m) && Best(lower, p, qs, j, n)
    ensures Slope(p, qs[m]) == Slope(p, qs[n])
  {
    hide Slope;
  }

  lemma SavedStays(lower: bool, ps: seq<Point>, qs: seq<Point>, newest: real, segs: seq<Seg>, after: seq<Seg>, verts: seq<nat>,
                   more: seq<nat>, first: real, upto: nat, found: bool, save: Seg)
    requires Saved(lower, ps, qs, newest, segs, verts, first, upto, found, save)
    requires |segs| == |after| && upto <= |verts| + 1 && |verts| <= |more| && more[..|verts|] == verts && upto <= |segs|
    requires after[..upto] == segs[..upto]
    ensures Saved(lower, ps, qs, newest, after, more, first, upto, found, save)
  {
    hide Candidate, Slope, Join;
    forall c: nat, m: nat | 1 <= c < upto
      ensures Candidate(lower, ps, qs, segs, verts, first, c, m) == Candidate(lower, ps, qs, after, more, first, c, m)
      ensures more[c - 1] == verts[c - 1]
    {
      assert after[c] == after[..upto][c] == segs[c] && after[c - 1] == after[..upto][c - 1] == segs[c - 1];
      assert more[c - 1] == more[..|verts|][c - 1];
      CandidateStays(lower, ps, qs, segs, after, verts, more, first, c, m);
    }
    NotBeforeFirst(lower, ps, qs, segs, verts, first);
    NotBeforeFirst(lower, ps, qs, after, more, first);
  }

  lemma NotBeforeFirst(lower: bool, ps: seq<Point>, qs: seq<Point>, segs: seq<Seg>, verts: seq<nat>, first: real)
    ensures forall c: nat, m: nat :: Candidate(lower, ps, qs, segs, verts, first, c, m) ==> 1 <= c
  {
  }

  // What the test after the second search does to the line kept.
  lemma SavedStep(lower: bool, ps: seq<Point>, qs: seq<Point>, newest: real, segs: seq<Seg>, verts: seq<nat>, first: real,
                  found: bool, save: Seg, m: nat)
    requires Pair(ps, qs) && 1 <= |verts| < |segs| && verts[|verts| - 1] < m < |qs|
    requires Later(ps[verts[|verts| - 1]], qs, verts[|verts| - 1])
    requires Best(!lower, ps[verts[|verts| - 1]], qs, verts[|verts| - 1], m)
    requires Saved(lower, ps, qs, newest, segs, verts, first, |verts|, found, save)
    ensures var c := |verts|;
            var check := Join(ps[verts[c - 1]], qs[m], newest);
            var last := if c == 1 then first else segs[c - 1].slope;
            var fits := if lower then check.slope < segs[c].slope && check.slope > last
                        else check.slope > segs[c].slope && check.slope < last;
            var take := fits && (!found || check.slope < save.slope);
            Saved(lower, ps, qs, newest, segs, verts, first, c + 1, found || take, if take then check else save)
  {
    hide Best, Rising, Slope;
    var c := |verts|;
    var j := verts[c - 1];
    var check := Join(ps[j], qs[m], newest);
    forall n: nat | Candidate(lower, ps, qs, segs, verts, first, c, n)
      ensures Slope(ps[j], qs[n]) == Slope(ps[j], qs[m])
    {
      BestSame(!lower, ps[j], qs, j, m, n);
    }
    var last := if c == 1 then first else segs[c - 1].slope;
    var fits := if lower then check.slope < segs[c].slope && check.slope > last
                else check.slope > segs[c].slope && check.slope < last;
    if fits { assert Candidate(lower, ps, qs, segs, verts, first, c, m); }
  }

  lemma ChosenFirst(sign: nat, p: Point, qs: seq<Point>, j: nat)
    requires Later(p, qs, j) && j + 1 < |qs|
    ensures Chosen(sign, p, qs, j, j + 1, j + 2)
  {
  }

  // The choice so far, of the points between kj and k.
  ghost predicate Scanned(sign: nat, p: Point, qs: seq<Point>, kj: nat, m: nat, k: nat, rp: nat, newest: real, nextj: nat, answer: Seg) {
    && |qs| == RING_SIZE && Later(p, qs, kj) && kj < k <= RING_SIZE
    && (k == kj + 1 || (kj < m < k && nextj == At(rp, m) && Chosen(sign, p, qs, kj, m, k)
                        && answer == Join(p, qs[m], newest) && answer.slope == Slope(p, qs[m])))
  }

  lemma ScanStart(sign: nat, p: Point, qs: seq<Point>, kj: nat, rp: nat, newest: real, nextj: nat, answer: Seg)
    requires |qs| == RING_SIZE && Later(p, qs, kj) && kj < RING_SIZE
    ensures Scanned(sign, p, qs, kj, kj + 1, kj + 1, rp, newest, nextj, answer)
  {
    hide Later;
  }

  lemma ScanStep(sign: nat, p: Point, qs: seq<Point>, kj: nat, m: nat, k: nat, rp: nat, newest: real, nextj: nat, answer: Seg, slope: real, offset: real)
    requires Scanned(sign, p, qs, kj, m, k, rp, newest, nextj, answer) && sign <= 1 && k < RING_SIZE && p.t < qs[k].t
    requires slope == Slope(p, qs[k]) && Seg(slope, offset) == Join(p, qs[k], newest)
    ensures var take := k == kj + 1 || ((slope < answer.slope) != (sign == 1));
            if take then Scanned(sign, p, qs, kj, k, k + 1, rp, newest, At(rp, k), Seg(slope, offset))
            else Scanned(sign, p, qs, kj, m, k + 1, rp, newest, nextj, answer)
  {
    hide Slope, Join, At, Chosen;
    if k == kj + 1 { ChosenFirst(sign, p, qs, kj); } else { ChosenNext(sign, p, qs, kj, m, k); }
  }

  lemma ScanEnd(sign: nat, p: Point, qs: seq<Point>, kj: nat, m: nat, k: nat, rp: nat, newest: real, nextj: nat, answer: Seg)
    requires Scanned(sign, p, qs, kj, m, k, rp, newest, nextj, answer) && k > kj + 1
    ensures |qs| == RING_SIZE && Later(p, qs, kj) && kj < m < k <= RING_SIZE
    ensures (forall i :: kj < i < |qs| ==> p.t < qs[i].t) && nextj == At(rp, m) && answer == Join(p, qs[m], newest) && Chosen(sign, p, qs, kj, m, k)
  {
    hide At, Chosen, Join, Slope;
  }

  lemma LaterPoints(ring: seq<Datum>, rp: nat, s: nat, u: nat, j: nat)
    requires |ring| == RING_SIZE && InOrder(ring, rp) && j < RING_SIZE
    ensures Later(Points(ring, rp, s)[j], Points(ring, rp, u), j)
  {
    hide At;
  }

  lemma AtDistinct(rp: nat)
    ensures forall i, k {:trigger At(rp, i), At(rp, k)} :: 0 <= i < RING_SIZE && 0 <= k < RING_SIZE && At(rp, i) == At(rp, k) ==> i == k
  {
  }

  lemma DriftStart(ring: seq<Datum>, rp: nat, freq: int)
    requires |ring| == RING_SIZE
    ensures Drift(ring, rp, freq, RING_SIZE - 1) == 0.0
  {
  }

  lemma DriftNext(ring: seq<Datum>, rp: nat, freq: int, k: nat)
    requires |ring| == RING_SIZE && k < RING_SIZE - 1
    ensures Drift(ring, rp, freq, k) == Drift(ring, rp, freq, k + 1) + Share(ring[At(rp, k + 1)], ring[At(rp, k)], freq)
  {
  }

  // Correcting a measurement leaves its time and frequency alone.
  lemma ShareKept(d: Datum, cum: real, n: Datum, freq: int)
    ensures Share(Corrected(d, cum), n, freq) == Share(d, n, freq)
  {
  }

  lemma AtZero(rp: nat)
    requires rp < RING_SIZE
    ensures NextDn(At(rp, 0)) == rp
  {
  }

  lemma HullStart(lower: bool, ps: seq<Point>, newest: real, segs: seq<Seg>)
    requires Rising(ps) && ps != [] && segs != []
    ensures Hull(lower, ps, newest, segs, [0])
  {
  }

  lemma SavedStart(lower: bool, ps: seq<Point>, qs: seq<Point>, newest: real, segs: seq<Seg>, first: real, save: Seg)
    ensures Saved(lower, ps, qs, newest, segs, [0], first, 1, false, save)
  {
    hide Best, Pair, Later, Slope;
  }

  // One turn of pass 2 or 3: the new vertex m by the best slope, x for the line to look out for.
  lemma Turn(lower: bool, ps: seq<Point>, qs: seq<Point>, newest: real, segs: seq<Seg>, verts: seq<nat>, first: real,
             found: bool, save: Seg, m: nat, x: nat)
    requires Pair(ps, qs) && Hull(lower, ps, newest, segs, verts) && |verts| < |segs|
    requires Saved(lower, ps, qs, newest, segs, verts, first, |verts|, found, save)
    requires verts[|verts| - 1] < m < |ps| && verts[|verts| - 1] < x < |qs|
    requires var j, s, t := verts[|verts| - 1], if lower then 0 else 1, if lower then 1 else 0;
             && Later(ps[j], ps, j) && Chosen(s, ps[j], ps, j, m, |ps|)
             && Later(ps[j], qs, j) && Chosen(t, ps[j], qs, j, x, |qs|)
    ensures var c, j := |verts|, verts[|verts| - 1];
            var after := segs[c := Join(ps[j], ps[m], newest)];
            var check := Join(ps[j], qs[x], newest);
            var last := if c == 1 then first else segs[c - 1].slope;
            var fits := if lower then check.slope < after[c].slope && check.slope > last
                        else check.slope > after[c].slope && check.slope < last;
            var take := fits && (!found || check.slope < save.slope);
            && Hull(lower, ps, newest, after, verts + [m])
            && Saved(lower, ps, qs, newest, after, verts + [m], first, c + 1, found || take, if take then check else save)
            && c <= m
  {
    hide Hull, Saved, Chosen, Best, Later, Slope, Join;
    VertexBound(lower, ps, newest, segs, verts);
    var c, j, s, t := |verts|, verts[|verts| - 1], if lower then 0 else 1, if lower then 1 else 0;
    var after := segs[c := Join(ps[j], ps[m], newest)];
    ChosenBest(s, ps[j], ps, j, m);
    ChosenBest(t, ps[j], qs, j, x);
    HullStep(lower, ps, newest, segs, verts, m);
    SavedStays(lower, ps, qs, newest, segs, after, verts, verts, first, c, found, save);
    SavedStep(lower, ps, qs, newest, after, verts, first, found, save, x);
    var check := Join(ps[j], qs[x], newest);
    var last := if c == 1 then first else segs[c - 1].slope;
    var fits := if lower then check.slope < after[c].slope && check.slope > last
                else check.slope > after[c].slope && check.slope < last;
    var take := fits && (!found || check.slope < save.slope);
    SavedStays(lower, ps, qs, newest, after, after, verts, verts + [m], first, c + 1, found || take, if take then check else save);
  }

  lemma VertexBound(lower: bool, ps: seq<Point>, newest: real, segs: seq<Seg>, verts: seq<nat>)
    requires Hull(lower, ps, newest, segs, verts)
    ensures 1 <= |verts| <= |segs| && |verts| - 1 <= verts[|verts| - 1] < |ps| && Rising(ps)
  {
  }

  // The line that is kept passes through a vertex and lies between the two curves from there on.
  lemma KeptCrosses(lower: bool, ps: seq<Point>, qs: seq<Point>, newest: real, segs: seq<Seg>, verts: seq<nat>, first: real, save: Seg)
    requires Pair(ps, qs) && Hull(lower, ps, newest, segs, verts)
    requires Saved(lower, ps, qs, newest, segs, verts, first, |verts|, true, save)
    ensures exists k: nat :: Crossing(lower, ps, qs, k, newest, save)
  {
    hide Best, Crossing, Hull, Slope, Join;
    var c: nat, m: nat :| c < |verts| && Candidate(lower, ps, qs, segs, verts, first, c, m)
                          && save == Join(ps[verts[c - 1]], qs[m], newest);
    CandidateCrosses(lower, ps, qs, newest, segs, verts, first, c, m);
  }

  lemma CandidateCrosses(lower: bool, ps: seq<Point>, qs: seq<Point>, newest: real, segs: seq<Seg>, verts: seq<nat>, first: real, c: nat, m: nat)
    requires Hull(lower, ps, newest, segs, verts) && c < |verts| && Candidate(lower, ps, qs, segs, verts, first, c, m)
    ensures Crossing(lower, ps, qs, verts[c - 1], newest, Join(ps[verts[c - 1]], qs[m], newest))
  {
    hide Slope, Crossing, Side, Join, LineAt, Through, Best;
    var j := verts[c - 1];
    assert SegOk(lower, ps, newest, segs, verts, c);
    NextIsBest(lower, ps, newest, segs[c], j, verts[c]);
    if c > 1 { assert SegOk(lower, ps, newest, segs, verts, c - 1); JoinThrough(ps[verts[c - 2]], ps[j], newest); }
    CrossFrom(lower, ps, qs, j, m, newest, segs[c - 1], segs[c].slope, c > 1);
  }

  // A segment that has all points on its side leaves its first vertex at the best slope.
  lemma NextIsBest(lower: bool, ps: seq<Point>, newest: real, s: Seg, j: nat, n: nat)
    requires Rising(ps) && j < n < |ps| && s == Join(ps[j], ps[n], newest) && Side(lower, s, newest, ps)
    ensures forall i :: j < i < |ps| ==> Steeper(lower, s.slope, Slope(ps[j], ps[i]))
  {
    hide Slope, LineAt, Through, Join;
    JoinThrough(ps[j], ps[n], newest);
    forall i | j < i < |ps|
      ensures Steeper(lower, s.slope, Slope(ps[j], ps[i]))
    {
      Ahead(s, newest, ps[j], ps[i]);
    }
  }

  lemma CrossFrom(lower: bool, ps: seq<Point>, qs: seq<Point>, j: nat, m: nat, newest: real, prev: Seg, next: real, some: bool)
    requires Pair(ps, qs) && j < m < |ps| && Later(ps[j], qs, j) && Best(!lower, ps[j], qs, j, m) && (some <==> j > 0)
    requires some ==> Through(prev, newest, ps[j]) && Side(lower, prev, newest, ps) && Steeper(lower, prev.slope, Slope(ps[j], qs[m]))
    requires Steeper(lower, Slope(ps[j], qs[m]), next) && forall i :: j < i < |ps| ==> Steeper(lower, next, Slope(ps[j], ps[i]))
    ensures Crossing(lower, ps, qs, j, newest, Join(ps[j], qs[m], newest))
  {
    hide Slope, LineAt, Through, Join, Crossing, Least, Most, Above, Below;
    if lower {
      CrossBelow(ps, qs, j, m, newest, prev, next);
    } else {
      CrossAbove(ps, qs, j, m, newest, prev, next);
    }
  }

  // ---- the ring over time

  // The last `valid` measurements, the newest at `last`, in order of time.
  ghost predicate InOrderSince(ring: seq<Datum>, last: nat, valid: nat)
    requires |ring| == RING_SIZE && valid <= RING_SIZE
  {
    forall i, k {:trigger At(last, i), At(last, k)} :: RING_SIZE - valid <= i < k < RING_SIZE ==>
      ring[At(last, i)].absolute < ring[At(last, k)].absolute
  }

  lemma AtShift(last: nat, k: nat)
    requires last < RING_SIZE && k < RING_SIZE - 1
    ensures At(NextUp(last), k) == At(last, k + 1) && At(last, k + 1) != NextUp(last)
  {
  }

  // A later measurement over the oldest one.
  lemma RingGrows(ring: seq<Datum>, last: nat, valid: nat, d: Datum)
    requires |ring| == RING_SIZE && valid <= RING_SIZE && last < RING_SIZE && InOrderSince(ring, last, valid)
    requires valid > 0 ==> ring[last].absolute < d.absolute
    ensures InOrderSince(ring[NextUp(last) := d], NextUp(last), if valid < RING_SIZE then valid + 1 else valid)
  {
    hide At, NextUp;
    var rp, now := NextUp(last), if valid < RING_SIZE then valid + 1 else valid;
    AtShift(last, 0);
    AtNext(last, 0);
    AtNext(At(last, 0), 0);
    var after := ring[rp := d];
    forall i, k | RING_SIZE - now <= i < k < RING_SIZE
      ensures after[At(rp, i)].absolute < after[At(rp, k)].absolute
    {
      AtShift(last, i);
      if k < RING_SIZE - 1 {
        AtShift(last, k);
      } else {
        assert At(rp, k) == rp && At(last, RING_SIZE - 1) == last;
        if i + 1 < RING_SIZE - 1 { assert ring[At(last, i + 1)].absolute < ring[At(last, RING_SIZE - 1)].absolute; }
      }
    }
  }

  // Both envelopes, from the oldest measurement to the newest.
  ghost predicate Enveloped(ring: seq<Datum>, rp: nat, maxs: seq<Seg>, mins: seq<Seg>, top: seq<nat>, bottom: seq<nat>)
    requires |ring| == RING_SIZE && rp < RING_SIZE
  {
    var us, ws, newest := Points(ring, rp, 1), Points(ring, rp, 0), ring[rp].absolute as real;
    && 2 <= |top| <= RING_SIZE && top[|top| - 1] == RING_SIZE - 1 && Hull(true, us, newest, maxs, top)
    && 2 <= |bottom| <= RING_SIZE && bottom[|bottom| - 1] == RING_SIZE - 1 && Hull(false, ws, newest, mins, bottom)
  }

  ghost predicate Consistent(ring: seq<Datum>, rp: nat, saveMin: Seg, saveMax: Seg)
    requires |ring| == RING_SIZE && rp < RING_SIZE
  {
    var us, ws, newest := Points(ring, rp, 1), Points(ring, rp, 0), ring[rp].absolute as real;
    && (exists k: nat :: Crossing(true, us, ws, k, newest, saveMin))
    && (exists k: nat :: Crossing(false, ws, us, k, newest, saveMax))
  }

  // A segment and the k-th oldest measurement.
  lemma SegmentIs(ring: seq<Datum>, rp: nat, lower: bool, segs: seq<Seg>, verts: seq<nat>, i: nat, k: nat)
    requires |ring| == RING_SIZE && rp < RING_SIZE && k < RING_SIZE && 1 <= i < |verts|
    requires Hull(lower, Points(ring, rp, if lower then 1 else 0), ring[rp].absolute as real, segs, verts)
    ensures |verts| <= |segs|
    ensures var d := ring[At(rp, k)];
            var line := segs[i].offset + segs[i].slope * (d.absolute as real - ring[rp].absolute as real);
            if lower then line <= d.max else line >= d.min
    ensures i >= 2 ==> if lower then segs[i - 1].slope <= segs[i].slope else segs[i - 1].slope >= segs[i].slope
  {
    hide At, Join, Rising;
    var ps, newest := Points(ring, rp, if lower then 1 else 0), ring[rp].absolute as real;
    assert SegOk(lower, ps, newest, segs, verts, i);
    var p := ps[k];
    assert if lower then LineAt(segs[i], newest, p.t) <= p.y else LineAt(segs[i], newest, p.t) >= p.y;
  }

  /** Both envelopes in plain numbers: every segment of the one is on or below the upper end of every measurement
      and slopes do not decrease, every segment of the other is on or above the lower end and slopes do not increase. */
  lemma EnvelopesAre(ring: seq<Datum>, rp: nat, maxs: seq<Seg>, mins: seq<Seg>, top: seq<nat>, bottom: seq<nat>, k: nat)
    requires |ring| == RING_SIZE && rp < RING_SIZE && k < RING_SIZE && Enveloped(ring, rp, maxs, mins, top, bottom)
    ensures |top| <= |maxs| && |bottom| <= |mins|
    ensures var d, newest := ring[At(rp, k)], ring[rp].absolute;
            && (forall i :: 1 <= i < |top| ==> maxs[i].offset + maxs[i].slope * (d.absolute as real - newest as real) <= d.max)
            && (forall i :: 1 <= i < |bottom| ==> mins[i].offset + mins[i].slope * (d.absolute as real - newest as real) >= d.min)
    ensures forall i :: 2 <= i < |top| ==> maxs[i - 1].slope <= maxs[i].slope
    ensures forall i :: 2 <= i < |bottom| ==> mins[i - 1].slope >= mins[i].slope
  {
    hide At, Hull;
    SegmentIs(ring, rp, true, maxs, top, 1, k);
    SegmentIs(ring, rp, false, mins, bottom, 1, k);
    var d, newest := ring[At(rp, k)], ring[rp].absolute;
    forall i | 1 <= i < |top|
      ensures maxs[i].offset + maxs[i].slope * (d.absolute as real - newest as real) <= d.max
      ensures i >= 2 ==> maxs[i - 1].slope <= maxs[i].slope
    {
      SegmentIs(ring, rp, true, maxs, top, i, k);
    }
    forall i | 1 <= i < |bottom|
      ensures mins[i].offset + mins[i].slope * (d.absolute as real - newest as real) >= d.min
      ensures i >= 2 ==> mins[i - 1].slope >= mins[i].slope
    {
      SegmentIs(ring, rp, false, mins, bottom, i, k);
    }
  }

  lemma UpDown(rp: nat)
    requires rp < RING_SIZE
    ensures NextUp(NextDn(rp)) == rp && NextDn(rp) < RING_SIZE && NextDn((rp + 1) % RING_SIZE) == rp
  {
  }

  // Correction touches no time.
  lemma Recorded(was: seq<Datum>, after: seq<Datum>, rp: nat, freq: int, valid: nat)
    requires |was| == |after| == RING_SIZE && valid <= RING_SIZE && InOrderSince(was, rp, valid)
    requires AllCorrected(was, after, rp, freq)
    ensures after[rp % RING_SIZE].absolute == was[rp % RING_SIZE].absolute
    ensures InOrderSince(after, rp, valid) && (valid == RING_SIZE ==> InOrder(after, rp))
  {
    hide At, Drift;
    assert after[At(rp, RING_SIZE - 1)].absolute == was[At(rp, RING_SIZE - 1)].absolute;
    LastAt(rp);
  }

  lemma LastAt(rp: nat)
    ensures At(rp, RING_SIZE - 1) == rp % RING_SIZE
  {
  }

  class Lock {
    const ring: array<Datum>
    const maxseg: array<Seg>
    const minseg: array<Seg>
    var rp: nat
    var valid: nat

    ghost predicate Shape()
      reads this
    {
      && ring.Length == RING_SIZE && maxseg.Length == RING_SIZE + 1 && minseg.Length == RING_SIZE + 1 && maxseg != minseg
      && rp < RING_SIZE && valid <= RING_SIZE
    }

    // Static data: all zero, and no measurement yet.
    constructor ()
      ensures Shape() && fresh(ring) && fresh(maxseg) && fresh(minseg)
      ensures rp == 0 && valid == 0 && InOrderSince(ring[..], NextDn(rp), valid)
    {
      ring := new Datum[RING_SIZE](i => Datum(0, 0.0, 0.0, 0, 0.0, 0.0));
      maxseg := new Seg[RING_SIZE + 1](i => Seg(0.0, 0.0));
      minseg := new Seg[RING_SIZE + 1](i => Seg(0.0, 0.0));
      rp, valid := 0, 0;
    }

    ghost function Newest(): real
      reads this, ring
      requires Shape()
    {
      ring[rp].absolute as real
    }

    // The line from the kj-th oldest measurement to the k-th.
    method SlopeTo(j: nat, n: nat, s0: nat, s1: nat, ghost kj: nat, ghost k: nat) returns (slope: real, offset: real)
      requires Shape() && InOrder(ring[..], rp) && kj < k < RING_SIZE && j == At(rp, kj) && n == At(rp, k)
      ensures var p, q := Points(ring[..], rp, s1)[kj], Points(ring[..], rp, s0)[k];
              p.t < q.t && slope == Slope(p, q) && Seg(slope, offset) == Join(p, q, Newest())
    {
      hide At;
      var dt := (ring[n].absolute - ring[j].absolute) as real;
      slope := (Curve(ring[n], s0) - Curve(ring[j], s1)) / dt;
      offset := Curve(ring[n], s0) + slope * (ring[rp].absolute - ring[n].absolute) as real;
    }

    // search: j is the kj-th oldest measurement, not the newest.
    method Search(j: nat, s0: nat, s1: nat, sign: nat, ghost kj: nat) returns (nextj: nat, answer: Seg, ghost m: nat)
      requires Shape() && InOrder(ring[..], rp) && sign <= 1 && kj < RING_SIZE - 1 && j == At(rp, kj)
      ensures var ps, qs := Points(ring[..], rp, s1), Points(ring[..], rp, s0);
              && kj < m < RING_SIZE && nextj == At(rp, m) && Later(ps[kj], qs, kj)
              && answer == Join(ps[kj], qs[m], Newest())
              && Chosen(sign, ps[kj], qs, kj, m, RING_SIZE)
    {
      hide At, Slope, Join, NextUp, Chosen, Later, InOrder, Scanned;
      ghost var ps, qs := Points(ring[..], rp, s1), Points(ring[..], rp, s0);
      LaterPoints(ring[..], rp, s1, s0, kj);
      ghost var p := ps[kj];
      AtMore(rp, kj);
      var n, cinit := NextUp(j), true;
      nextj, answer := 0, Seg(0.0, 0.0);
      ghost var k := kj + 1;
      m := kj + 1;
      ScanStart(sign, p, qs, kj, rp, Newest(), nextj, answer);
      while n != NextUp(rp)
        invariant kj < k <= RING_SIZE && n == At(rp, k) && cinit == (k == kj + 1)
        invariant Scanned(sign, p, qs, kj, m, k, rp, Newest(), nextj, answer)
        decreases RING_SIZE - k
      {
        AtMore(rp, k);
        var slope, offset := SlopeTo(j, n, s0, s1, kj, k);
        ScanStep(sign, p, qs, kj, m, k, rp, Newest(), nextj, answer, slope, offset);
        if cinit || ((slope < answer.slope) != (sign == 1)) {
          answer := Seg(slope, offset);
          cinit := false;
          nextj := n;
          m := k;
        }
        n := NextUp(n);
        k := k + 1;
      }
      AtMore(rp, k);
      ScanEnd(sign, p, qs, kj, m, k, rp, Newest(), nextj, answer);
    }

    // Pass 1: both curves corrected for the frequencies that were in force.
    method Correct(freq: int)
      requires Shape()
      modifies ring
      ensures AllCorrected(old(ring[..]), ring[..], rp, freq)
    {
      hide At, NextDn, Drift, Share, Corrected;
      ghost var was := ring[..];
      DriftStart(was, rp, freq);
      ghost var k := RING_SIZE - 1;
      AtNext(rp, k);
      AtDistinct(rp);
      var j, cum := rp, 0.0;
      while true
        invariant 0 <= k < RING_SIZE && j == At(rp, k) && cum == Drift(was, rp, freq, k)
        invariant forall i {:trigger At(rp, i)} :: 0 <= i < RING_SIZE ==>
                    ring[At(rp, i)] == if i > k then Corrected(was[At(rp, i)], Drift(was, rp, freq, i)) else was[At(rp, i)]
        decreases k
      {
        ring[j] := Corrected(ring[j], cum);
        var n := NextDn(j);
        AtNext(rp, k);
        AtNext(rp, 0);
        AtZero(rp);
        if n == rp { break; }
        DriftNext(was, rp, freq, k - 1);
        ShareKept(was[j], cum, was[n], freq);
        cum := cum + Share(ring[j], ring[n], freq);
        j := n;
        k := k - 1;
      }
    }

    // Pass 2: the envelope from below of s.max, and the line to keep.
    method MaxEnvelope() returns (avail: nat, found: bool, save: Seg, ghost verts: seq<nat>)
      requires Shape() && InOrder(ring[..], rp)
      modifies maxseg
      ensures var us, ws := Points(ring[..], rp, 1), Points(ring[..], rp, 0);
              && avail == |verts| && 2 <= avail <= RING_SIZE && verts[avail - 1] == RING_SIZE - 1
              && Hull(true, us, Newest(), maxseg[..], verts)
              && Saved(true, us, ws, Newest(), maxseg[..], verts, -100.0, avail, found, save)
    {
      hide Hull, Saved, At, NextUp, Join, Best, Chosen, Later, Rising, SameTimes, Slope, InOrder;
      ghost var us, ws := Points(ring[..], rp, 1), Points(ring[..], rp, 0);
      PointsRise(ring[..], rp, 1, 0);
      AtNext(rp, 0);
      verts := [0];
      HullStart(true, us, Newest(), maxseg[..]);
      found, save := false, Seg(0.0, 0.0);
      SavedStart(true, us, ws, Newest(), maxseg[..], -100.0, save);
      var c, j, last := 1, NextUp(rp), -100.0;
      while true
        invariant c == |verts| && 1 <= c < RING_SIZE && c - 1 <= verts[c - 1] < RING_SIZE - 1 && j == At(rp, verts[c - 1])
        invariant Hull(true, us, Newest(), maxseg[..], verts)
        invariant last == if c == 1 then -100.0 else maxseg[c - 1].slope
        invariant Saved(true, us, ws, Newest(), maxseg[..], verts, -100.0, c, found, save)
        decreases RING_SIZE - verts[c - 1]
      {
        ghost var segs, kj := maxseg[..], verts[c - 1];
        var nextj, seg, m := Search(j, 1, 1, 0, kj);
        maxseg[c] := seg;
        assert maxseg[..] == segs[c := seg];
        var _, check, x := Search(j, 0, 1, 1, kj);
        Turn(true, us, ws, Newest(), segs, verts, -100.0, found, save, m, x);
        if check.slope < maxseg[c].slope && check.slope > last && (!found || check.slope < save.slope) {
          found, save := true, check;
        }
        last := maxseg[c].slope;
        verts := verts + [m];
        c := c + 1;
        AtNext(rp, m);
        if nextj == rp { break; }
        j := nextj;
      }
      avail := c;
    }

    // Pass 3: the mirror image for s.min.
    method MinEnvelope() returns (avail: nat, found: bool, save: Seg, ghost verts: seq<nat>)
      requires Shape() && InOrder(ring[..], rp)
      modifies minseg
      ensures var ws, us := Points(ring[..], rp, 0), Points(ring[..], rp, 1);
              && avail == |verts| && 2 <= avail <= RING_SIZE && verts[avail - 1] == RING_SIZE - 1
              && Hull(false, ws, Newest(), minseg[..], verts)
              && Saved(false, ws, us, Newest(), minseg[..], verts, 100.0, avail, found, save)
    {
      hide Hull, Saved, At, NextUp, Join, Best, Chosen, Later, Rising, SameTimes, Slope, InOrder;
      ghost var ws, us := Points(ring[..], rp, 0), Points(ring[..], rp, 1);
      PointsRise(ring[..], rp, 0, 1);
      AtNext(rp, 0);
      verts := [0];
      HullStart(false, ws, Newest(), minseg[..]);
      found, save := false, Seg(0.0, 0.0);
      SavedStart(false, ws, us, Newest(), minseg[..], 100.0, save);
      var c, j, last := 1, NextUp(rp), 100.0;
      while true
        invariant c == |verts| && 1 <= c < RING_SIZE && c - 1 <= verts[c - 1] < RING_SIZE - 1 && j == At(rp, verts[c - 1])
        invariant Hull(false, ws, Newest(), minseg[..], verts)
        invariant last == if c == 1 then 100.0 else minseg[c - 1].slope
        invariant Saved(false, ws, us, Newest(), minseg[..], verts, 100.0, c, found, save)
        decreases RING_SIZE - verts[c - 1]
      {
        ghost var segs, kj := minseg[..], verts[c - 1];
        var nextj, seg, m := Search(j, 0, 0, 1, kj);
        minseg[c] := seg;
        assert minseg[..] == segs[c := seg];
        var _, check, x := Search(j, 1, 0, 0, kj);
        Turn(false, ws, us, Newest(), segs, verts, 100.0, found, save, m, x);
        if check.slope > minseg[c].slope && check.slope < last && (!found || check.slope < save.slope) {
          found, save := true, check;
        }
        last := minseg[c].slope;
        verts := verts + [m];
        c := c + 1;
        AtNext(rp, m);
        if nextj == rp { break; }
        j := nextj;
      }
      avail := c;
    }

    // Passes 1 to 3 on a full ring.
    method Passes(freq: int)
      returns (inconsistent: bool, saveMin: Seg, saveMax: Seg, ghost top: seq<nat>, ghost bottom: seq<nat>)
      requires Shape() && InOrderSince(ring[..], rp, RING_SIZE)
      modifies ring, maxseg, minseg
      ensures AllCorrected(old(ring[..]), ring[..], rp, freq) && InOrderSince(ring[..], rp, RING_SIZE)
      ensures ring[rp].absolute == old(ring[rp].absolute)
      ensures Enveloped(ring[..], rp, maxseg[..], minseg[..], top, bottom)
      ensures !inconsistent ==> Consistent(ring[..], rp, saveMin, saveMax)
    {
      hide Hull, Saved, At, Crossing, Rising, SameTimes, InOrder, InOrderSince, AllCorrected;
      ghost var stored := ring[..];
      Correct(freq);
      Recorded(stored, ring[..], rp, freq, RING_SIZE);
      var _, foundMin, min, up := MaxEnvelope();
      var _, foundMax, max, down := MinEnvelope();
      PointsRise(ring[..], rp, 1, 0);
      PointsRise(ring[..], rp, 0, 1);
      ghost var us, ws := Points(ring[..], rp, 1), Points(ring[..], rp, 0);
      if foundMin { KeptCrosses(true, us, ws, Newest(), maxseg[..], up, -100.0, min); }
      if foundMax { KeptCrosses(false, ws, us, Newest(), minseg[..], down, 100.0, max); }
      inconsistent, saveMin, saveMax, top, bottom := !foundMin || !foundMax, min, max, up, down;
    }

    // contemplate_data up to pass 3: store the measurement, and once the ring is full correct it
    // and find both envelopes.
    method Contemplate(absolute: nat, skew: real, errorbar: real, freq: int)
      returns (full: bool, inconsistent: bool, saveMin: Seg, saveMax: Seg, ghost top: seq<nat>, ghost bottom: seq<nat>)
      requires Shape() && InOrderSince(ring[..], NextDn(rp), valid)
      requires valid > 0 ==> ring[NextDn(rp)].absolute < absolute
      modifies this`rp, this`valid, ring, maxseg, minseg
      ensures Shape() && rp == (old(rp) + 1) % RING_SIZE && NextDn(rp) == old(rp) && InOrderSince(ring[..], old(rp), valid)
      ensures valid == if old(valid) < RING_SIZE then old(valid) + 1 else RING_SIZE
      ensures full == (valid == RING_SIZE)
      ensures var stored := old(ring[..])[old(rp) := Datum(absolute, skew, errorbar - 800.0, freq, old(ring[rp].min), old(ring[rp].max))];
              if full then AllCorrected(stored, ring[..], old(rp), freq) else ring[..] == stored
      ensures full ==> Enveloped(ring[..], old(rp), maxseg[..], minseg[..], top, bottom)
      ensures full && !inconsistent ==> Consistent(ring[..], old(rp), saveMin, saveMax)
    {
      hide NextUp, InOrderSince, AllCorrected, Enveloped, Consistent;
      UpDown(rp);
      var d := Datum(absolute, skew, errorbar - 800.0, freq, ring[rp].min, ring[rp].max);
      RingGrows(ring[..], NextDn(rp), valid, d);
      ghost var was := ring[..];
      ring[rp] := d;
      assert ring[..] == was[rp := d];
      if valid < RING_SIZE { valid := valid + 1; }
      full, inconsistent, saveMin, saveMax, top, bottom := valid == RING_SIZE, false, Seg(0.0, 0.0), Seg(0.0, 0.0), [], [];
      if full {
        inconsistent, saveMin, saveMax, top, bottom := Passes(freq);
      }
      rp := (rp + 1) % RING_SIZE;
    }
  }
}
