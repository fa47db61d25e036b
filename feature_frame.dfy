/** The tracker's output: FeatureFrame, a map from feature id to the list
    of (camera id, 8-vector) observations of that feature in this frame.
    The 8-vector is (x, y, z) of the undistorted point, (u, v) of the pixel
    and (vx, vy, vz) of the velocity. */
module FeatureFrames {
  import opened Geometry
  import opened Compaction

  /** One emplace_back(camera_id, xyz_uv_velocity) entry. */
  datatype Observation = Observation(camera: int, x: real, y: real, z: real, u: real, v: real,
                                     vx: real, vy: real, vz: real)

  type FeatureFrame = map<int, seq<Observation>>

  /** ff[id] as operator[] sees it: the empty list for a new id. */
  function Bucket(ff: FeatureFrame, id: int): seq<Observation>
  {
    if id in ff then ff[id] else []
  }

  /** ff[id].emplace_back(o): o goes to the end of id's list and no other
      list changes. */
  function Emplace(ff: FeatureFrame, id: int, o: Observation): FeatureFrame
  {
    ff[id := Bucket(ff, id) + [o]]
  }

  /** The frame after emplacing obs[i] under ids[i] for i < |ids|, in order. */
  function Emplaced(ff: FeatureFrame, ids: seq<int>, obs: seq<Observation>): FeatureFrame
    requires |obs| >= |ids|
  {
    if |ids| == 0 then ff
    else Emplace(Emplaced(ff, ids[..|ids| - 1], obs), ids[|ids| - 1], obs[|ids| - 1])
  }

  /** The observations among obs[..|ids|] filed under id x, in order. */
  function WithId(ids: seq<int>, obs: seq<Observation>, x: int): seq<Observation>
    requires |obs| >= |ids|
  {
    if |ids| == 0 then []
    else WithId(ids[..|ids| - 1], obs, x) + (if ids[|ids| - 1] == x then [obs[|ids| - 1]] else [])
  }

  /** Emplacing a batch appends to every id's list exactly that id's
      observations of the batch, in batch order. */
  lemma {:induction false} EmplacedList(ff: FeatureFrame, ids: seq<int>, obs: seq<Observation>, x: int)
    requires |obs| >= |ids|
    ensures Bucket(Emplaced(ff, ids, obs), x) == Bucket(ff, x) + WithId(ids, obs, x)
  {
    if |ids| > 0 {
      var last := |ids| - 1;
      var init, o := ids[..last], obs[last];
      EmplacedList(ff, init, obs, x);
      if ids[last] == x {
        assert Bucket(ff, x) + WithId(init, obs, x) + [o] == Bucket(ff, x) + (WithId(init, obs, x) + [o]);
      }
    }
  }

  /** An id has a list after a batch exactly when it had one or occurs in
      the batch. */
  lemma {:induction false} EmplacedKeys(ff: FeatureFrame, ids: seq<int>, obs: seq<Observation>, x: int)
    requires |obs| >= |ids|
    ensures x in Emplaced(ff, ids, obs) <==> x in ff || x in ids
  {
    if |ids| > 0 {
      var last := |ids| - 1;
      EmplacedKeys(ff, ids[..last], obs, x);
      assert ids == ids[..last] + [ids[last]];
    }
  }

  /** Both facts about a batch together. */
  lemma EmplacedBucket(ff: FeatureFrame, ids: seq<int>, obs: seq<Observation>, x: int)
    requires |obs| >= |ids|
    ensures Bucket(Emplaced(ff, ids, obs), x) == Bucket(ff, x) + WithId(ids, obs, x)
    ensures x in Emplaced(ff, ids, obs) <==> x in ff || x in ids
  {
    EmplacedList(ff, ids, obs, x);
    EmplacedKeys(ff, ids, obs, x);
  }

  /** With distinct ids every id of the batch receives exactly its own
      observation. */
  lemma {:induction false} WithIdOfDistinct(ids: seq<int>, obs: seq<Observation>, i: nat)
    requires |obs| >= |ids| && i < |ids|
    requires Distinct(ids)
    ensures WithId(ids, obs, ids[i]) == [obs[i]]
  {
    var init := ids[..|ids| - 1];
    assert Distinct(init);
    if i < |ids| - 1 {
      WithIdOfDistinct(init, obs, i);
    } else {
      WithIdAbsent(init, obs, ids[i]);
    }
  }

  /** An id that is not in the batch receives nothing. */
  lemma {:induction false} WithIdAbsent(ids: seq<int>, obs: seq<Observation>, x: int)
    requires |obs| >= |ids|
    requires x !in ids
    ensures WithId(ids, obs, x) == []
  {
    if |ids| > 0 {
      WithIdAbsent(ids[..|ids| - 1], obs, x);
    }
  }

  /** The entry trackImage builds for a tracked pixel: the undistorted
      plane point with z = 1, the pixel, and a planar velocity with vz = 0. */
  function PlaneObservation(camera: int, un: Point2, p: Point2, vel: Point2): Observation
  {
    Observation(camera, un.x, un.y, 1.0, p.x, p.y, vel.x, vel.y, 0.0)
  }

  /** The entry setup_feature_frame builds from a 3D bearing and a 3D
      velocity. */
  function SpaceObservation(camera: int, un: Point3, p: Point2, vel: Point3): Observation
  {
    Observation(camera, un.x, un.y, un.z, p.x, p.y, vel.x, vel.y, vel.z)
  }

  function PlaneObservations(camera: int, unPts: seq<Point2>, pts: seq<Point2>, vel: seq<Point2>, n: nat): (r: seq<Observation>)
    requires |unPts| >= n && |pts| >= n && |vel| >= n
    ensures |r| == n
  {
    seq(n, i requires 0 <= i < n => PlaneObservation(camera, unPts[i], pts[i], vel[i]))
  }

  function SpaceObservations(camera: int, unPts: seq<Point3>, pts: seq<Point2>, vel: seq<Point3>, n: nat): (r: seq<Observation>)
    requires |unPts| >= n && |pts| >= n && |vel| >= n
    ensures |r| == n
  {
    seq(n, i requires 0 <= i < n => SpaceObservation(camera, unPts[i], pts[i], vel[i]))
  }

  /** The assembly loops of trackImage: one camera's tracked points (ids,
      undistorted points, pixels, velocities) emplaced into ff. */
  method AppendPlaneObservations(ff: FeatureFrame, ids: seq<int>, camera: int,
                                 unPts: seq<Point2>, pts: seq<Point2>, vel: seq<Point2>)
    returns (r: FeatureFrame)
    requires |unPts| >= |ids| && |pts| >= |ids| && |vel| >= |ids|
    ensures r == Emplaced(ff, ids, PlaneObservations(camera, unPts, pts, vel, |ids|))
    ensures forall x :: Bucket(r, x) == Bucket(ff, x) + WithId(ids, PlaneObservations(camera, unPts, pts, vel, |ids|), x)
  {
    ghost var obs := PlaneObservations(camera, unPts, pts, vel, |ids|);
    r := ff;
    for i := 0 to |ids|
      invariant r == Emplaced(ff, ids[..i], obs)
    {
      assert ids[..i + 1][..i] == ids[..i];
      var o := PlaneObservation(camera, unPts[i], pts[i], vel[i]);
      r := r[ids[i] := Bucket(r, ids[i]) + [o]];
    }
    assert ids[..|ids|] == ids;
    forall x
      ensures Bucket(r, x) == Bucket(ff, x) + WithId(ids, obs, x)
    {
      EmplacedBucket(ff, ids, obs, x);
    }
  }

  /** setup_feature_frame(ff, ids, cur_pts, cur_un_pts, cur_pts_vel,
      camera_id): the 3D variant of the assembly loop. */
  method SetupFeatureFrame(ff: FeatureFrame, ids: seq<int>, curPts: seq<Point2>,
                           curUnPts: seq<Point3>, curPtsVel: seq<Point3>, cameraId: int)
    returns (r: FeatureFrame)
    requires |curUnPts| >= |ids| && |curPts| >= |ids| && |curPtsVel| >= |ids|
    ensures r == Emplaced(ff, ids, SpaceObservations(cameraId, curUnPts, curPts, curPtsVel, |ids|))
    ensures forall x :: Bucket(r, x) == Bucket(ff, x) + WithId(ids, SpaceObservations(cameraId, curUnPts, curPts, curPtsVel, |ids|), x)
  {
    ghost var obs := SpaceObservations(cameraId, curUnPts, curPts, curPtsVel, |ids|);
    r := ff;
    for i := 0 to |ids|
      invariant r == Emplaced(ff, ids[..i], obs)
    {
      assert ids[..i + 1][..i] == ids[..i];
      var o := SpaceObservation(cameraId, curUnPts[i], curPts[i], curPtsVel[i]);
      r := r[ids[i] := Bucket(r, ids[i]) + [o]];
    }
    assert ids[..|ids|] == ids;
    forall x
      ensures Bucket(r, x) == Bucket(ff, x) + WithId(ids, obs, x)
    {
      EmplacedBucket(ff, ids, obs, x);
    }
  }

  /** The points one fisheye view contributes to setup_feature_frame(). */
  datatype View = View(ids: seq<int>, pts: seq<Point2>, unPts: seq<Point3>, vel: seq<Point3>)

  predicate ViewShaped(w: View)
  {
    |w.pts| >= |w.ids| && |w.unPts| >= |w.ids| && |w.vel| >= |w.ids|
  }

  function ViewObservations(w: View, camera: int): (r: seq<Observation>)
    requires ViewShaped(w)
    ensures |r| == |w.ids|
  {
    SpaceObservations(camera, w.unPts, w.pts, w.vel, |w.ids|)
  }

  /** setup_feature_frame(): the up-top and up-side views as camera 0, then
      the down-top and down-side views as camera 1, into an empty frame.
      Each id's list holds its observations in exactly that order. */
  method SetupFeatureFrameAll(upTop: View, upSide: View, downTop: View, downSide: View)
    returns (ff: FeatureFrame)
    requires ViewShaped(upTop) && ViewShaped(upSide) && ViewShaped(downTop) && ViewShaped(downSide)
    ensures forall x :: Bucket(ff, x) ==
              WithId(upTop.ids, ViewObservations(upTop, 0), x) + WithId(upSide.ids, ViewObservations(upSide, 0), x)
              + WithId(downTop.ids, ViewObservations(downTop, 1), x) + WithId(downSide.ids, ViewObservations(downSide, 1), x)
    ensures forall x :: x in ff <==> x in upTop.ids || x in upSide.ids || x in downTop.ids || x in downSide.ids
  {
    var f0: FeatureFrame := map[];
    var f1 := SetupFeatureFrame(f0, upTop.ids, upTop.pts, upTop.unPts, upTop.vel, 0);
    var f2 := SetupFeatureFrame(f1, upSide.ids, upSide.pts, upSide.unPts, upSide.vel, 0);
    var f3 := SetupFeatureFrame(f2, downTop.ids, downTop.pts, downTop.unPts, downTop.vel, 1);
    ff := SetupFeatureFrame(f3, downSide.ids, downSide.pts, downSide.unPts, downSide.vel, 1);
    forall x
      ensures Bucket(ff, x) ==
              WithId(upTop.ids, ViewObservations(upTop, 0), x) + WithId(upSide.ids, ViewObservations(upSide, 0), x)
              + WithId(downTop.ids, ViewObservations(downTop, 1), x) + WithId(downSide.ids, ViewObservations(downSide, 1), x)
      ensures x in ff <==> x in upTop.ids || x in upSide.ids || x in downTop.ids || x in downSide.ids
    {
      EmplacedBucket(f0, upTop.ids, ViewObservations(upTop, 0), x);
      EmplacedBucket(f1, upSide.ids, ViewObservations(upSide, 0), x);
      EmplacedBucket(f2, downTop.ids, ViewObservations(downTop, 1), x);
      EmplacedBucket(f3, downSide.ids, ViewObservations(downSide, 1), x);
    }
  }

  /** The frame trackImage assembles: the left points as one batch, then
      the right points as another. */
  function TrackFrame(ids: seq<int>, left: seq<Observation>, idsRight: seq<int>, right: seq<Observation>): FeatureFrame
    requires |left| >= |ids| && |right| >= |idsRight|
  {
    Emplaced(Emplaced(map[], ids, left), idsRight, right)
  }

  /** With distinct left ids and distinct right ids, an id tracked on both
      sides has exactly its camera-0 entry followed by its camera-1 entry. */
  lemma LeftThenRight(ids: seq<int>, left: seq<Observation>, idsRight: seq<int>, right: seq<Observation>, i: nat, j: nat)
    requires |left| >= |ids| && |right| >= |idsRight|
    requires Distinct(ids) && Distinct(idsRight)
    requires i < |ids| && j < |idsRight| && ids[i] == idsRight[j]
    ensures Bucket(TrackFrame(ids, left, idsRight, right), ids[i]) == [left[i], right[j]]
  {
    EmplacedBucket(map[], ids, left, ids[i]);
    EmplacedBucket(Emplaced(map[], ids, left), idsRight, right, ids[i]);
    WithIdOfDistinct(ids, left, i);
    WithIdOfDistinct(idsRight, right, j);
  }

  /** A left id not tracked on the right has exactly its camera-0 entry. */
  lemma LeftOnly(ids: seq<int>, left: seq<Observation>, idsRight: seq<int>, right: seq<Observation>, i: nat)
    requires |left| >= |ids| && |right| >= |idsRight|
    requires Distinct(ids)
    requires i < |ids| && ids[i] !in idsRight
    ensures Bucket(TrackFrame(ids, left, idsRight, right), ids[i]) == [left[i]]
  {
    EmplacedBucket(map[], ids, left, ids[i]);
    EmplacedBucket(Emplaced(map[], ids, left), idsRight, right, ids[i]);
    WithIdOfDistinct(ids, left, i);
    WithIdAbsent(idsRight, right, ids[i]);
  }

  /** The frame's ids are exactly the left and the right ids. */
  lemma TrackFrameIds(ids: seq<int>, left: seq<Observation>, idsRight: seq<int>, right: seq<Observation>, x: int)
    requires |left| >= |ids| && |right| >= |idsRight|
    ensures x in TrackFrame(ids, left, idsRight, right) <==> x in ids || x in idsRight
  {
    EmplacedBucket(map[], ids, left, x);
    EmplacedBucket(Emplaced(map[], ids, left), idsRight, right, x);
  }

  /** The buckets of trackImage's frame when both id lists are free of
      duplicates and every right id is a left id: the frame's ids are the left
      ids; a left-only id has its camera-0 entry alone, and an id also
      tracked on the right has its camera-0 entry followed by its camera-1
      entry. */
  lemma FrameBuckets(ids: seq<int>, left: seq<Observation>, idsRight: seq<int>, right: seq<Observation>)
    requires |left| >= |ids| && |right| >= |idsRight|
    requires Distinct(ids) && Distinct(idsRight)
    requires forall x :: x in idsRight ==> x in ids
    ensures forall x :: x in TrackFrame(ids, left, idsRight, right) <==> x in ids
    ensures forall i :: 0 <= i < |ids| && ids[i] !in idsRight ==>
              Bucket(TrackFrame(ids, left, idsRight, right), ids[i]) == [left[i]]
    ensures forall i, j :: 0 <= i < |ids| && 0 <= j < |idsRight| && ids[i] == idsRight[j] ==>
              Bucket(TrackFrame(ids, left, idsRight, right), ids[i]) == [left[i], right[j]]
  {
    forall x
      ensures x in TrackFrame(ids, left, idsRight, right) <==> x in ids
    {
      TrackFrameIds(ids, left, idsRight, right, x);
    }
    forall i | 0 <= i < |ids| && ids[i] !in idsRight
      ensures Bucket(TrackFrame(ids, left, idsRight, right), ids[i]) == [left[i]]
    {
      LeftOnly(ids, left, idsRight, right, i);
    }
    forall i, j | 0 <= i < |ids| && 0 <= j < |idsRight| && ids[i] == idsRight[j]
      ensures Bucket(TrackFrame(ids, left, idsRight, right), ids[i]) == [left[i], right[j]]
    {
      LeftThenRight(ids, left, idsRight, right, i, j);
    }
  }
}
