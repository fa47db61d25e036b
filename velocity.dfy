/** Id-keyed point maps and finite-difference velocities.  std::map::insert
    keeps the first value given for a key (ptsVelocity); operator[] keeps the
    last (pts_map, prevLeftPtsMap). */
module Velocity {
  import opened Geometry
  import opened Compaction

  /** The map insert(make_pair(ids[i], pts[i])) builds for i < |ids|. */
  function FirstWins<T>(ids: seq<int>, pts: seq<T>): (m: map<int, T>)
    requires |pts| >= |ids|
    ensures |m| <= |ids|
  {
    if |ids| == 0 then map[]
    else
      var m := FirstWins(ids[..|ids| - 1], pts);
      if ids[|ids| - 1] in m then m else m[ids[|ids| - 1] := pts[|ids| - 1]]
  }

  /** The map m[ids[i]] = pts[i] builds for i < |ids|. */
  function LastWins<T>(ids: seq<int>, pts: seq<T>): (m: map<int, T>)
    requires |pts| >= |ids|
    ensures |m| <= |ids|
  {
    if |ids| == 0 then map[]
    else LastWins(ids[..|ids| - 1], pts)[ids[|ids| - 1] := pts[|ids| - 1]]
  }

  /** insert: the keys are exactly the ids. */
  lemma {:induction false} FirstWinsKeys<T>(ids: seq<int>, pts: seq<T>)
    requires |pts| >= |ids|
    ensures forall k :: k in FirstWins(ids, pts) <==> k in ids
  {
    if |ids| > 0 {
      var init := ids[..|ids| - 1];
      FirstWinsKeys(init, pts);
      assert ids == init + [ids[|ids| - 1]];
    }
  }

  /** insert: each id maps to the point of its first occurrence. */
  lemma {:induction false} FirstWinsAt<T>(ids: seq<int>, pts: seq<T>)
    requires |pts| >= |ids|
    ensures forall i :: 0 <= i < |ids| && ids[i] !in ids[..i] ==>
              ids[i] in FirstWins(ids, pts) && FirstWins(ids, pts)[ids[i]] == pts[i]
  {
    if |ids| > 0 {
      var init := ids[..|ids| - 1];
      var last := |ids| - 1;
      FirstWinsAt(init, pts);
      FirstWinsKeys(init, pts);
      var k := ids[last];
      assert k in FirstWins(init, pts) <==> k in init;
      forall i | 0 <= i < last && ids[i] !in ids[..i]
        ensures ids[i] in FirstWins(ids, pts) && FirstWins(ids, pts)[ids[i]] == pts[i]
      {
        assert init[..i] == ids[..i];
        assert init[i] == ids[i] && init[i] !in init[..i];
      }
      assert ids[..last] == init;
    }
  }

  /** operator[]: the keys are exactly the ids. */
  lemma {:induction false} LastWinsKeys<T>(ids: seq<int>, pts: seq<T>)
    requires |pts| >= |ids|
    ensures forall k :: k in LastWins(ids, pts) <==> k in ids
  {
    if |ids| > 0 {
      var init := ids[..|ids| - 1];
      LastWinsKeys(init, pts);
      assert ids == init + [ids[|ids| - 1]];
    }
  }

  /** operator[]: an id whose occurrence at i is its last maps to pts[i]. */
  lemma {:induction false} LastWinsAtIndex<T>(ids: seq<int>, pts: seq<T>, i: nat)
    requires |pts| >= |ids| && i < |ids| && ids[i] !in ids[i + 1..]
    ensures ids[i] in LastWins(ids, pts) && LastWins(ids, pts)[ids[i]] == pts[i]
  {
    var last := |ids| - 1;
    if i < last {
      var init := ids[..last];
      assert ids[last] in ids[i + 1..];
      assert init[i + 1..] == ids[i + 1..last];
      LastWinsAtIndex(init, pts, i);
    }
  }

  /** operator[]: each id maps to the point of its last occurrence. */
  lemma LastWinsAt<T>(ids: seq<int>, pts: seq<T>)
    requires |pts| >= |ids|
    ensures forall i :: 0 <= i < |ids| && ids[i] !in ids[i + 1..] ==>
              ids[i] in LastWins(ids, pts) && LastWins(ids, pts)[ids[i]] == pts[i]
  {
    forall i | 0 <= i < |ids| && ids[i] !in ids[i + 1..]
      ensures ids[i] in LastWins(ids, pts) && LastWins(ids, pts)[ids[i]] == pts[i]
    {
      LastWinsAtIndex(ids, pts, i);
    }
  }

  /** With distinct ids the two ways of building the map agree. */
  lemma FirstWinsIsLastWins<T>(ids: seq<int>, pts: seq<T>)
    requires |pts| >= |ids|
    requires Distinct(ids)
    ensures FirstWins(ids, pts) == LastWins(ids, pts)
  {
    FirstWinsKeys(ids, pts);
    FirstWinsAt(ids, pts);
    LastWinsKeys(ids, pts);
    LastWinsAt(ids, pts);
    forall k | k in FirstWins(ids, pts)
      ensures FirstWins(ids, pts)[k] == LastWins(ids, pts)[k]
    {
      var i :| 0 <= i < |ids| && ids[i] == k;
      assert ids[i] !in ids[..i];
      assert ids[i] !in ids[i + 1..];
    }
  }

  /** pts_map: an id -> point map filled with operator[]. */
  method PtsMap(ids: seq<int>, curPts: seq<Point2>) returns (prevMap: map<int, Point2>)
    requires |curPts| >= |ids|
    ensures prevMap == LastWins(ids, curPts)
  {
    prevMap := map[];
    for i := 0 to |ids|
      invariant prevMap == LastWins(ids[..i], curPts)
    {
      assert ids[..i + 1][..i] == ids[..i];
      prevMap := prevMap[ids[i] := curPts[i]];
    }
    assert ids[..|ids|] == ids;
  }

  /** The per-axis finite difference (p - q) / dt. */
  function Velocity2(p: Point2, q: Point2, dt: real): (v: Point2)
    requires dt != 0.0
  {
    Point2((p.x - q.x) / dt, (p.y - q.y) / dt)
  }

  function Velocity3(p: Point3, q: Point3, dt: real): (v: Point3)
    requires dt != 0.0
  {
    Point3((p.x - q.x) / dt, (p.y - q.y) / dt, (p.z - q.z) / dt)
  }

  /** Moving the previous point with the velocity for dt lands on the
      current point; an unmoved point has zero velocity. */
  lemma Velocity2RoundTrip(p: Point2, q: Point2, dt: real)
    requires dt != 0.0
    ensures q.x + dt * Velocity2(p, q, dt).x == p.x && q.y + dt * Velocity2(p, q, dt).y == p.y
    ensures p == q ==> Velocity2(p, q, dt) == Point2(0.0, 0.0)
  {
  }

  lemma Velocity3RoundTrip(p: Point3, q: Point3, dt: real)
    requires dt != 0.0
    ensures q.x + dt * Velocity3(p, q, dt).x == p.x && q.y + dt * Velocity3(p, q, dt).y == p.y
            && q.z + dt * Velocity3(p, q, dt).z == p.z
    ensures p == q ==> Velocity3(p, q, dt) == Point3(0.0, 0.0, 0.0)
  {
  }

  /** The velocity of point i against the previous id -> point map: the
      finite difference when the id was seen, zero otherwise. */
  function VelocityAt2(ids: seq<int>, pts: seq<Point2>, prev: map<int, Point2>, dt: real, i: nat): Point2
    requires i < |ids| && i < |pts| && dt != 0.0
  {
    if ids[i] in prev then Velocity2(pts[i], prev[ids[i]], dt) else Point2(0.0, 0.0)
  }

  function VelocityAt3(ids: seq<int>, pts: seq<Point3>, prev: map<int, Point3>, dt: real, i: nat): Point3
    requires i < |ids| && i < |pts| && dt != 0.0
  {
    if ids[i] in prev then Velocity3(pts[i], prev[ids[i]], dt) else Point3(0.0, 0.0, 0.0)
  }

  /** The velocities of pts, point by point, against the previous map. */
  function Velocities2(ids: seq<int>, pts: seq<Point2>, prev: map<int, Point2>, dt: real): (v: seq<Point2>)
    requires |ids| >= |pts| && dt != 0.0
    ensures |v| == |pts|
  {
    if |pts| == 0 then []
    else Velocities2(ids, pts[..|pts| - 1], prev, dt) + [VelocityAt2(ids, pts, prev, dt, |pts| - 1)]
  }

  function Velocities3(ids: seq<int>, pts: seq<Point3>, prev: map<int, Point3>, dt: real): (v: seq<Point3>)
    requires |ids| >= |pts| && dt != 0.0
    ensures |v| == |pts|
  {
    if |pts| == 0 then []
    else Velocities3(ids, pts[..|pts| - 1], prev, dt) + [VelocityAt3(ids, pts, prev, dt, |pts| - 1)]
  }

  /** Entry i of the velocities is the velocity of point i: the finite
      difference against the previous point of its id, zero for a new id. */
  lemma {:induction false} Velocities2At(ids: seq<int>, pts: seq<Point2>, prev: map<int, Point2>, dt: real)
    requires |ids| >= |pts| && dt != 0.0
    ensures forall i :: 0 <= i < |pts| ==> Velocities2(ids, pts, prev, dt)[i] == VelocityAt2(ids, pts, prev, dt, i)
  {
    if |pts| > 0 {
      var init := pts[..|pts| - 1];
      Velocities2At(ids, init, prev, dt);
      forall i | 0 <= i < |init|
        ensures VelocityAt2(ids, init, prev, dt, i) == VelocityAt2(ids, pts, prev, dt, i)
      {
        assert init[i] == pts[i];
      }
    }
  }

  lemma {:induction false} Velocities3At(ids: seq<int>, pts: seq<Point3>, prev: map<int, Point3>, dt: real)
    requires |ids| >= |pts| && dt != 0.0
    ensures forall i :: 0 <= i < |pts| ==> Velocities3(ids, pts, prev, dt)[i] == VelocityAt3(ids, pts, prev, dt, i)
  {
    if |pts| > 0 {
      var init := pts[..|pts| - 1];
      Velocities3At(ids, init, prev, dt);
      forall i | 0 <= i < |init|
        ensures VelocityAt3(ids, init, prev, dt, i) == VelocityAt3(ids, pts, prev, dt, i)
      {
        assert init[i] == pts[i];
      }
    }
  }

  /** n zero velocities. */
  function Zeros2(n: nat): (v: seq<Point2>)
    ensures |v| == n && forall i :: 0 <= i < n ==> v[i] == Point2(0.0, 0.0)
  {
    if n == 0 then [] else Zeros2(n - 1) + [Point2(0.0, 0.0)]
  }

  function Zeros3(n: nat): (v: seq<Point3>)
    ensures |v| == n && forall i :: 0 <= i < n ==> v[i] == Point3(0.0, 0.0, 0.0)
  {
    if n == 0 then [] else Zeros3(n - 1) + [Point3(0.0, 0.0, 0.0)]
  }

  /** The computation of ptsVelocity, given dt and the number of zeros the
      branch without a previous map produces: the id -> point map of pts
      filled with insert, and the velocity of every point. */
  method IdVelocities2(ids: seq<int>, pts: seq<Point2>, prevIdPts: map<int, Point2>, dt: real, zeros: nat)
    returns (velocity: seq<Point2>, curIdPts: map<int, Point2>)
    requires |pts| >= |ids|
    requires |prevIdPts| > 0 ==> |ids| >= |pts| && dt != 0.0
    ensures curIdPts == FirstWins(ids, pts)
    ensures velocity == if |prevIdPts| > 0 then Velocities2(ids, pts, prevIdPts, dt) else Zeros2(zeros)
  {
    curIdPts := map[];
    for i := 0 to |ids|
      invariant curIdPts == FirstWins(ids[..i], pts)
    {
      assert ids[..i + 1][..i] == ids[..i];
      if ids[i] !in curIdPts {
        curIdPts := curIdPts[ids[i] := pts[i]];
      }
    }
    assert ids[..|ids|] == ids;
    velocity := [];
    if |prevIdPts| > 0 {
      for i := 0 to |pts|
        invariant velocity == Velocities2(ids, pts[..i], prevIdPts, dt)
      {
        assert pts[..i + 1][..i] == pts[..i];
        if ids[i] in prevIdPts {
          var q := prevIdPts[ids[i]];
          velocity := velocity + [Point2((pts[i].x - q.x) / dt, (pts[i].y - q.y) / dt)];
        } else {
          velocity := velocity + [Point2(0.0, 0.0)];
        }
      }
      assert pts[..|pts|] == pts;
    } else {
      for i := 0 to zeros
        invariant velocity == Zeros2(i)
      {
        velocity := velocity + [Point2(0.0, 0.0)];
      }
    }
  }

  method IdVelocities3(ids: seq<int>, pts: seq<Point3>, prevIdPts: map<int, Point3>, dt: real, zeros: nat)
    returns (velocity: seq<Point3>, curIdPts: map<int, Point3>)
    requires |pts| >= |ids|
    requires |prevIdPts| > 0 ==> |ids| >= |pts| && dt != 0.0
    ensures curIdPts == FirstWins(ids, pts)
    ensures velocity == if |prevIdPts| > 0 then Velocities3(ids, pts, prevIdPts, dt) else Zeros3(zeros)
  {
    curIdPts := map[];
    for i := 0 to |ids|
      invariant curIdPts == FirstWins(ids[..i], pts)
    {
      assert ids[..i + 1][..i] == ids[..i];
      if ids[i] !in curIdPts {
        curIdPts := curIdPts[ids[i] := pts[i]];
      }
    }
    assert ids[..|ids|] == ids;
    velocity := [];
    if |prevIdPts| > 0 {
      for i := 0 to |pts|
        invariant velocity == Velocities3(ids, pts[..i], prevIdPts, dt)
      {
        assert pts[..i + 1][..i] == pts[..i];
        if ids[i] in prevIdPts {
          var q := prevIdPts[ids[i]];
          velocity := velocity + [Point3((pts[i].x - q.x) / dt, (pts[i].y - q.y) / dt, (pts[i].z - q.z) / dt)];
        } else {
          velocity := velocity + [Point3(0.0, 0.0, 0.0)];
        }
      }
      assert pts[..|pts|] == pts;
    } else {
      for i := 0 to zeros
        invariant velocity == Zeros3(i)
      {
        velocity := velocity + [Point3(0.0, 0.0, 0.0)];
      }
    }
  }
}
