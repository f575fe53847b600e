/** Lower convex envelopes of points in time order: what one greedy step from vertex to vertex keeps. */
module Envelope {

  datatype Point = Point(t: real, y: real)

  // A line, by its slope and its height at the newest point's time.
  datatype Seg = Seg(slope: real, offset: real)

  function LineAt(s: Seg, newest: real, t: real): real { s.offset + s.slope * (t - newest) }

  function Slope(p: Point, q: Point): real
    requires p.t < q.t
  {
    (q.y - p.y) / (q.t - p.t)
  }

  // The line of slope k through q.
  function Aimed(k: real, q: Point, newest: real): Seg { Seg(k, q.y + k * (newest - q.t)) }

  // The line through p and q.
  function Join(p: Point, q: Point, newest: real): Seg
    requires p.t < q.t
  {
    Aimed(Slope(p, q), q, newest)
  }

  predicate Rising(ps: seq<Point>) { forall i, j :: 0 <= i < j < |ps| ==> ps[i].t < ps[j].t }

  ghost predicate Through(s: Seg, newest: real, p: Point) { LineAt(s, newest, p.t) == p.y }

  ghost predicate Below(s: Seg, newest: real, ps: seq<Point>) {
    forall i :: 0 <= i < |ps| ==> LineAt(s, newest, ps[i].t) <= ps[i].y
  }

  // From p, no later point of qs is reached at a smaller slope than qs[m].
  ghost predicate Least(p: Point, qs: seq<Point>, j: nat, m: nat)
    requires j < m < |qs| && forall i :: j < i < |qs| ==> p.t < qs[i].t
  {
    forall i :: j < i < |qs| ==> Slope(p, qs[m]) <= Slope(p, qs[i])
  }

  // ---- arithmetic of one line

  lemma Rise(p: Point, q: Point)
    requires p.t < q.t
    ensures Slope(p, q) * (q.t - p.t) == q.y - p.y
  {
  }

  lemma Linear(k: real, a: real, b: real, c: real)
    ensures k * (a - b) + k * (b - c) == k * (a - c)
    ensures a == c ==> k * (a - b) + k * (b - c) == 0.0
  {
  }

  lemma Product(a: real, b: real, d: real)
    requires d > 0.0
    ensures a <= b <==> a * d <= b * d
  {
    if a <= b { assert (b - a) * d >= 0.0; } else { assert (a - b) * d > 0.0; }
  }

  // A line through p, taken from there.
  lemma From(s: Seg, newest: real, p: Point, t: real)
    requires Through(s, newest, p)
    ensures LineAt(s, newest, t) == p.y + s.slope * (t - p.t)
  {
    Linear(s.slope, t, p.t, newest);
  }

  lemma PointSlope(k: real, newest: real, p: Point, q: Point)
    requires k * (q.t - p.t) == q.y - p.y
    ensures var s := Aimed(k, q, newest); Through(s, newest, p) && Through(s, newest, q)
  {
    var s := Aimed(k, q, newest);
    Linear(k, q.t, newest, q.t);
    assert Through(s, newest, q);
    From(s, newest, q, p.t);
    Linear(k, p.t, q.t, p.t);
  }

  lemma JoinThrough(p: Point, q: Point, newest: real)
    requires p.t < q.t
    ensures Through(Join(p, q, newest), newest, p) && Through(Join(p, q, newest), newest, q)
  {
    hide Slope, LineAt, Through, Aimed;
    Rise(p, q);
    PointSlope(Slope(p, q), newest, p, q);
  }

  // Ahead of p, a line through it lies on or below q exactly when its slope is at most q's.
  lemma Ahead(s: Seg, newest: real, p: Point, q: Point)
    requires Through(s, newest, p) && p.t < q.t
    ensures LineAt(s, newest, q.t) <= q.y <==> s.slope <= Slope(p, q)
    ensures LineAt(s, newest, q.t) >= q.y <==> s.slope >= Slope(p, q)
  {
    hide Slope, LineAt, Through;
    From(s, newest, p, q.t);
    Rise(p, q);
    Product(s.slope, Slope(p, q), q.t - p.t);
    Product(Slope(p, q), s.slope, q.t - p.t);
  }

  // Behind p, of two lines through it the steeper one is lower.
  lemma Behind(s: Seg, u: Seg, newest: real, p: Point, t: real)
    requires Through(s, newest, p) && Through(u, newest, p) && t < p.t && s.slope <= u.slope
    ensures LineAt(u, newest, t) <= LineAt(s, newest, t)
  {
    hide LineAt, Through;
    From(s, newest, p, t);
    From(u, newest, p, t);
    Product(s.slope, u.slope, p.t - t);
    Linear(s.slope, t, p.t, t);
    Linear(u.slope, t, p.t, t);
  }

  // ---- a vertex

  // A line through the vertex j, at least as steep as one that lies below everything and no
  // steeper than the least slope onwards, lies below everything.
  lemma Supports(ps: seq<Point>, j: nat, s: Seg, newest: real, prev: Seg)
    requires Rising(ps) && j < |ps| && Through(s, newest, ps[j])
    requires j > 0 ==> Through(prev, newest, ps[j]) && Below(prev, newest, ps) && prev.slope <= s.slope
    requires forall i :: j < i < |ps| ==> s.slope <= Slope(ps[j], ps[i])
    ensures Below(s, newest, ps)
  {
    hide Slope, LineAt, Through;
    forall i | 0 <= i < |ps|
      ensures LineAt(s, newest, ps[i].t) <= ps[i].y
    {
      if i < j {
        Behind(prev, s, newest, ps[j], ps[i].t);
      } else if i > j {
        Ahead(s, newest, ps[j], ps[i]);
      } else {
        AtVertex(s, newest, ps[j]);
      }
    }
  }

  lemma AtVertex(s: Seg, newest: real, p: Point)
    requires Through(s, newest, p)
    ensures LineAt(s, newest, p.t) <= p.y
  {
  }

  // The greedy step: the next segment is no less steep than the last, and lies below everything.
  lemma NextSegment(ps: seq<Point>, j: nat, m: nat, newest: real, prev: Seg)
    requires Rising(ps) && j < m < |ps| && Least(ps[j], ps, j, m)
    requires j > 0 ==> Through(prev, newest, ps[j]) && Below(prev, newest, ps)
    ensures var s := Join(ps[j], ps[m], newest);
            && Through(s, newest, ps[j]) && Through(s, newest, ps[m]) && Below(s, newest, ps)
            && (j > 0 ==> prev.slope <= s.slope)
  {
    hide Slope, LineAt, Through;
    var s := Join(ps[j], ps[m], newest);
    JoinThrough(ps[j], ps[m], newest);
    if j > 0 { Ahead(prev, newest, ps[j], ps[m]); }
    Supports(ps, j, s, newest, prev);
  }

  // ---- the mirror image

  function Flip(ps: seq<Point>): (qs: seq<Point>)
    ensures |qs| == |ps| && forall i :: 0 <= i < |qs| ==> qs[i] == Point(ps[i].t, -ps[i].y)
  {
    seq(|ps|, i requires 0 <= i < |ps| => Point(ps[i].t, -ps[i].y))
  }

  function Neg(s: Seg): Seg { Seg(-s.slope, -s.offset) }

  ghost predicate Above(s: Seg, newest: real, ps: seq<Point>) {
    forall i :: 0 <= i < |ps| ==> LineAt(s, newest, ps[i].t) >= ps[i].y
  }

  lemma LineNeg(s: Seg, newest: real, t: real)
    ensures LineAt(Neg(s), newest, t) == -LineAt(s, newest, t)
  {
    assert -s.slope * (t - newest) == -(s.slope * (t - newest));
  }

  lemma FlipAbove(s: Seg, newest: real, ps: seq<Point>)
    ensures Above(s, newest, ps) <==> Below(Neg(s), newest, Flip(ps))
  {
    hide LineAt, Neg;
    forall i | 0 <= i < |ps|
      ensures LineAt(s, newest, ps[i].t) >= ps[i].y <==> LineAt(Neg(s), newest, Flip(ps)[i].t) <= Flip(ps)[i].y
    {
      LineNeg(s, newest, ps[i].t);
    }
  }

  lemma SlopeNeg(p: Point, q: Point)
    requires p.t < q.t
    ensures Slope(Point(p.t, -p.y), Point(q.t, -q.y)) == -Slope(p, q)
  {
    var d := q.t - p.t;
    assert (-q.y - -p.y) / d == -((q.y - p.y) / d);
  }

  ghost predicate Most(p: Point, qs: seq<Point>, j: nat, m: nat)
    requires j < m < |qs| && forall i :: j < i < |qs| ==> p.t < qs[i].t
  {
    forall i :: j < i < |qs| ==> Slope(p, qs[m]) >= Slope(p, qs[i])
  }

  function Mirror(p: Point): Point { Point(p.t, -p.y) }

  lemma JoinNeg(p: Point, q: Point, newest: real)
    requires p.t < q.t
    ensures Join(Mirror(p), Mirror(q), newest) == Neg(Join(p, q, newest))
  {
    hide Slope;
    SlopeNeg(p, q);
    var k := Slope(p, q);
    assert -k * (newest - q.t) == -(k * (newest - q.t));
  }

  lemma ThroughNeg(s: Seg, newest: real, p: Point)
    ensures Through(Neg(s), newest, Mirror(p)) <==> Through(s, newest, p)
  {
    hide LineAt, Neg;
    LineNeg(s, newest, p.t);
  }

  lemma MostFlips(p: Point, qs: seq<Point>, j: nat, m: nat)
    requires j < m < |qs| && forall i :: j < i < |qs| ==> p.t < qs[i].t
    ensures Most(p, qs, j, m) <==> Least(Mirror(p), Flip(qs), j, m)
    ensures Least(p, qs, j, m) <==> Most(Mirror(p), Flip(qs), j, m)
  {
    hide Slope;
    forall i | j < i < |qs|
      ensures Slope(Mirror(p), Flip(qs)[i]) == -Slope(p, qs[i])
    {
      SlopeNeg(p, qs[i]);
    }
  }

  // ---- whole envelopes, from below (lower) or from above

  ghost predicate Side(lower: bool, s: Seg, newest: real, ps: seq<Point>) {
    if lower then Below(s, newest, ps) else Above(s, newest, ps)
  }

  ghost predicate Best(lower: bool, p: Point, qs: seq<Point>, j: nat, m: nat)
    requires j < m < |qs| && forall i :: j < i < |qs| ==> p.t < qs[i].t
  {
    if lower then Least(p, qs, j, m) else Most(p, qs, j, m)
  }

  predicate Steeper(lower: bool, a: real, b: real) { if lower then a <= b else b <= a }

  // Segment i joins vertices i - 1 and i, has all points on its side and turns the right way.
  ghost predicate SegOk(lower: bool, ps: seq<Point>, newest: real, segs: seq<Seg>, verts: seq<nat>, i: nat)
    requires Rising(ps) && 1 <= i < |verts| <= |segs|
  {
    && verts[i - 1] < verts[i] < |ps|
    && segs[i] == Join(ps[verts[i - 1]], ps[verts[i]], newest)
    && Side(lower, segs[i], newest, ps)
    && (i >= 2 ==> Steeper(lower, segs[i - 1].slope, segs[i].slope))
  }

  // Segments from the oldest point to the last vertex so far.
  ghost predicate Hull(lower: bool, ps: seq<Point>, newest: real, segs: seq<Seg>, verts: seq<nat>) {
    && Rising(ps) && 1 <= |verts| <= |segs| && verts[0] == 0 && |verts| - 1 <= verts[|verts| - 1] < |ps|
    && forall i :: 1 <= i < |verts| ==> SegOk(lower, ps, newest, segs, verts, i)
  }

  lemma NextAbove(ps: seq<Point>, j: nat, m: nat, newest: real, prev: Seg)
    requires Rising(ps) && j < m < |ps| && Most(ps[j], ps, j, m)
    requires j > 0 ==> Through(prev, newest, ps[j]) && Above(prev, newest, ps)
    ensures var s := Join(ps[j], ps[m], newest);
            && Through(s, newest, ps[m]) && Above(s, newest, ps) && (j > 0 ==> s.slope <= prev.slope)
  {
    hide Slope, LineAt, Through, Join, Least, Most, Above, Below;
    var s, qs := Join(ps[j], ps[m], newest), Flip(ps);
    assert qs[j] == Mirror(ps[j]) && qs[m] == Mirror(ps[m]);
    MostFlips(ps[j], ps, j, m);
    ThroughNeg(prev, newest, ps[j]);
    FlipAbove(prev, newest, ps);
    NextSegment(qs, j, m, newest, Neg(prev));
    JoinNeg(ps[j], ps[m], newest);
    ThroughNeg(s, newest, ps[m]);
    FlipAbove(s, newest, ps);
  }

  // One more vertex, reached at the best slope.
  lemma HullStep(lower: bool, ps: seq<Point>, newest: real, segs: seq<Seg>, verts: seq<nat>, m: nat)
    requires Hull(lower, ps, newest, segs, verts) && |verts| < |segs|
    requires verts[|verts| - 1] < m < |ps| && Best(lower, ps[verts[|verts| - 1]], ps, verts[|verts| - 1], m)
    ensures Hull(lower, ps, newest, segs[|verts| := Join(ps[verts[|verts| - 1]], ps[m], newest)], verts + [m])
  {
    hide Side, Slope, LineAt, Through, Join, Least, Most, Above, Below;
    var c := |verts|;
    var j := verts[c - 1];
    LastSegment(lower, ps, newest, segs, verts);
    var s := Join(ps[j], ps[m], newest);
    StepSide(lower, ps, j, m, newest, segs[c - 1]);
    var after, more := segs[c := s], verts + [m];
    forall i | 1 <= i < |more|
      ensures SegOk(lower, ps, newest, after, more, i)
    {
      if i < c { assert SegOk(lower, ps, newest, segs, verts, i); }
    }
  }

  // The last segment ends in the current vertex.
  lemma LastSegment(lower: bool, ps: seq<Point>, newest: real, segs: seq<Seg>, verts: seq<nat>)
    requires Hull(lower, ps, newest, segs, verts)
    ensures var c := |verts|;
            && (c > 1 <==> verts[c - 1] > 0)
            && (c > 1 ==> Through(segs[c - 1], newest, ps[verts[c - 1]]) && Side(lower, segs[c - 1], newest, ps))
  {
    hide Side, Slope, LineAt, Through, Join;
    var c := |verts|;
    if c > 1 {
      assert SegOk(lower, ps, newest, segs, verts, c - 1);
      var p, q := ps[verts[c - 2]], ps[verts[c - 1]];
      JoinThrough(p, q, newest);
    }
  }

  lemma StepSide(lower: bool, ps: seq<Point>, j: nat, m: nat, newest: real, prev: Seg)
    requires Rising(ps) && j < m < |ps| && Best(lower, ps[j], ps, j, m)
    requires j > 0 ==> Through(prev, newest, ps[j]) && Side(lower, prev, newest, ps)
    ensures var s := Join(ps[j], ps[m], newest);
            Side(lower, s, newest, ps) && (j > 0 ==> Steeper(lower, prev.slope, s.slope))
  {
    hide Slope, LineAt, Through, Join, Least, Most, Above, Below;
    if lower {
      NextSegment(ps, j, m, newest, prev);
    } else {
      NextAbove(ps, j, m, newest, prev);
    }
  }

  // ---- lines between the two envelopes

  predicate SameTimes(ps: seq<Point>, qs: seq<Point>) {
    |ps| == |qs| && forall i :: 0 <= i < |ps| ==> ps[i].t == qs[i].t
  }

  // A line through ps[k] that has all of ps on its one side, and the later points of qs on the other.
  ghost predicate Crossing(lower: bool, ps: seq<Point>, qs: seq<Point>, k: nat, newest: real, s: Seg) {
    && k < |ps| == |qs|
    && Through(s, newest, ps[k]) && Side(lower, s, newest, ps)
    && forall i :: k < i < |qs| ==>
         if lower then LineAt(s, newest, qs[i].t) >= qs[i].y else LineAt(s, newest, qs[i].t) <= qs[i].y
  }

  // The steepest line from a vertex onto the later points of qs, when its slope is between those
  // of the two segments that meet in the vertex.
  lemma CrossBelow(ps: seq<Point>, qs: seq<Point>, j: nat, m: nat, newest: real, prev: Seg, next: real)
    requires Rising(ps) && SameTimes(ps, qs) && j < m < |ps| && Most(ps[j], qs, j, m)
    requires j > 0 ==> Through(prev, newest, ps[j]) && Below(prev, newest, ps) && prev.slope <= Slope(ps[j], qs[m])
    requires Slope(ps[j], qs[m]) <= next && forall i :: j < i < |ps| ==> next <= Slope(ps[j], ps[i])
    ensures Crossing(true, ps, qs, j, newest, Join(ps[j], qs[m], newest))
  {
    hide Slope, LineAt, Through;
    var s := Join(ps[j], qs[m], newest);
    JoinThrough(ps[j], qs[m], newest);
    Supports(ps, j, s, newest, prev);
    forall i | j < i < |qs|
      ensures LineAt(s, newest, qs[i].t) >= qs[i].y
    {
      Ahead(s, newest, ps[j], qs[i]);
    }
  }

  lemma CrossAbove(ps: seq<Point>, qs: seq<Point>, j: nat, m: nat, newest: real, prev: Seg, next: real)
    requires Rising(ps) && SameTimes(ps, qs) && j < m < |ps| && Least(ps[j], qs, j, m)
    requires j > 0 ==> Through(prev, newest, ps[j]) && Above(prev, newest, ps) && prev.slope >= Slope(ps[j], qs[m])
    requires Slope(ps[j], qs[m]) >= next && forall i :: j < i < |ps| ==> next >= Slope(ps[j], ps[i])
    ensures Crossing(false, ps, qs, j, newest, Join(ps[j], qs[m], newest))
  {
    hide Slope, LineAt, Through, Join, Least, Most, Above, Below;
    var s, us, vs := Join(ps[j], qs[m], newest), Flip(ps), Flip(qs);
    assert us[j] == Mirror(ps[j]) && vs[m] == Mirror(qs[m]);
    MostFlips(ps[j], qs, j, m);
    ThroughNeg(prev, newest, ps[j]);
    FlipAbove(prev, newest, ps);
    SlopeNeg(ps[j], qs[m]);
    forall i | j < i < |ps|
      ensures -next <= Slope(us[j], us[i])
    {
      SlopeNeg(ps[j], ps[i]);
    }
    CrossBelow(us, vs, j, m, newest, Neg(prev), -next);
    JoinNeg(ps[j], qs[m], newest);
    ThroughNeg(s, newest, ps[j]);
    FlipAbove(s, newest, ps);
    forall i | j < i < |qs|
      ensures LineAt(s, newest, qs[i].t) <= qs[i].y
    {
      LineNeg(s, newest, qs[i].t);
    }
  }
}
