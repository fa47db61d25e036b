/** The FeatureTracker object: the per-frame track state (previous and
    current points, ids, ages, id counter, prediction, undistorted points and
    velocities, right-camera tracks) and the operations of trackImage that
    update it.  Images, optical flow, corner detection and the camera models
    are oracle functions handed in with each call. */
module Tracker {
  import opened Geometry
  import opened Compaction
  import opened MaskSelection
  import opened Replenishment
  import opened Velocity
  import opened FeatureFrames
  import opened FlowValidation

  /** The global parameters trackImage reads: MAX_CNT, MIN_DIST, FLOW_BACK
      and ENABLE_DOWNSAMPLE. */
  datatype Config = Config(maxCnt: int, minDist: int, flowBack: bool, enableDownsample: bool)

  /** A seeded temporal flow that finds fewer points than this is redone
      without the seed. */
  const MIN_PREDICTED_SUCCESSES := 10

  /** What trackImage learns from OpenCV and the camera models for one frame:
      - seededFlow(prev, guess): pyramidal LK from the previous image, started
        at the predicted positions (one pyramid level);
      - fullFlow(prev): pyramidal LK without a seed (three levels);
      - reverseFlow(cur, guess): LK back to the previous image, started at the
        previous positions;
      - corners(maxCorners, mask): goodFeaturesToTrack on the current image;
      - undistortLeft / undistortRight: undistortedPts with camera 0 / 1;
      - stereoFlow(cur): LK from the left to the right image;
      - stereoReverse(right): LK from the right back to the left image. */
  datatype Oracles = Oracles(
    seededFlow: (seq<Point2>, seq<Point2>) -> Flow,
    fullFlow: seq<Point2> -> Flow,
    reverseFlow: (seq<Point2>, seq<Point2>) -> Flow,
    corners: (int, seq<Point2>) -> seq<Point2>,
    undistortLeft: seq<Point2> -> seq<Point2>,
    stereoFlow: seq<Point2> -> Flow,
    stereoReverse: seq<Point2> -> Flow,
    undistortRight: seq<Point2> -> seq<Point2>)

  /** Every flow answers one point and one status per query point, and
      undistortion keeps the number of points. */
  ghost predicate OraclesShaped(o: Oracles)
  {
    (forall p, g {:trigger o.seededFlow(p, g)} :: FlowShaped(o.seededFlow(p, g), |p|))
    && (forall p {:trigger o.fullFlow(p)} :: FlowShaped(o.fullFlow(p), |p|))
    && (forall c, g {:trigger o.reverseFlow(c, g)} :: FlowShaped(o.reverseFlow(c, g), |c|))
    && (forall p {:trigger o.stereoFlow(p)} :: FlowShaped(o.stereoFlow(p), |p|))
    && (forall p {:trigger o.stereoReverse(p)} :: FlowShaped(o.stereoReverse(p), |p|))
    && (forall p {:trigger o.undistortLeft(p)} :: |o.undistortLeft(p)| == |p|)
    && (forall p {:trigger o.undistortRight(p)} :: |o.undistortRight(p)| == |p|)
  }

  /** goodFeaturesToTrack returns at most maxCorners corners. */
  ghost predicate CornersBounded(o: Oracles)
  {
    forall n, m {:trigger o.corners(n, m)} :: n >= 0 ==> |o.corners(n, m)| <= n
  }

  /** The temporal flow trackImage keeps: the seeded flow when there is a
      prediction and it found at least MIN_PREDICTED_SUCCESSES points,
      otherwise the unseeded flow. */
  function TemporalFlow(o: Oracles, prev: seq<Point2>, guess: seq<Point2>, hasPrediction: bool): (f: Flow)
    ensures OraclesShaped(o) ==> FlowShaped(f, |prev|)
    ensures !hasPrediction ==> f == o.fullFlow(prev)
    ensures hasPrediction && CountTrue(o.seededFlow(prev, guess).status) < MIN_PREDICTED_SUCCESSES ==>
              f == o.fullFlow(prev)
    ensures hasPrediction && CountTrue(o.seededFlow(prev, guess).status) >= MIN_PREDICTED_SUCCESSES ==>
              f == o.seededFlow(prev, guess)
  {
    if hasPrediction && CountTrue(o.seededFlow(prev, guess).status) >= MIN_PREDICTED_SUCCESSES
    then o.seededFlow(prev, guess)
    else o.fullFlow(prev)
  }

  /** The invariant of the tracker's parallel vectors ids / track_cnt: equal
      lengths, no id twice, every id handed out before (below n_id), every
      age at least 1. */
  ghost predicate WellFormedTracks(ids: seq<int>, cnt: seq<int>, nId: int)
  {
    |ids| == |cnt| && Distinct(ids)
    && (forall i :: 0 <= i < |ids| ==> 0 <= ids[i] < nId)
    && (forall i :: 0 <= i < |cnt| ==> cnt[i] >= 1)
  }

  /** Lockstep compaction keeps the track invariant. */
  lemma CompactionKeepsWellFormed(ids: seq<int>, cnt: seq<int>, nId: int, status: seq<bool>)
    requires WellFormedTracks(ids, cnt, nId) && |status| >= |ids|
    ensures WellFormedTracks(Kept(ids, status), Kept(cnt, status), nId)
  {
    KeptDistinct(ids, status);
    KeptAt(ids, status);
    KeptAt(cnt, status);
  }

  /** setMask's selection of tracks with distinct ids keeps tracks of the
      input, none of them removed, with distinct ids. */
  lemma SelectionFrom(z: seq<Track>, removed: set<int>, minDist: int)
    requires IdsDistinct(z)
    ensures var kept := Select(SortByAge(z), removed, minDist);
      IdsDistinct(kept) && forall t :: t in kept ==> t in z && t.id !in removed
  {
    var sorted := SortByAge(z);
    SortByAgeIdsDistinct(z);
    SortByAgeSorts(z);
    SelectIdsDistinct(sorted, removed, minDist);
    forall t | t in Select(sorted, removed, minDist) ensures t in z {
      assert t in multiset(sorted);
    }
  }

  /** setMask's selection keeps the track invariant. */
  lemma SelectionKeepsWellFormed(cnt: seq<int>, pts: seq<Point2>, ids: seq<int>, removed: set<int>,
                                 minDist: int, nId: int)
    requires WellFormedTracks(ids, cnt, nId) && |pts| == |ids|
    ensures var kept := Select(SortByAge(Zip(cnt, pts, ids)), removed, minDist);
      WellFormedTracks(IdsOf(kept), CountsOf(kept), nId)
      && forall x :: x in IdsOf(kept) ==> x in ids && x !in removed
  {
    var z := Zip(cnt, pts, ids);
    assert IdsDistinct(z) by {
      forall i, j | 0 <= i < j < |z| ensures z[i].id != z[j].id {
        assert z[i].id == ids[i] && z[j].id == ids[j];
      }
    }
    SelectionFrom(z, removed, minDist);
    var kept := Select(SortByAge(z), removed, minDist);
    var r, c := IdsOf(kept), CountsOf(kept);
    forall k | 0 <= k < |kept|
      ensures r[k] in ids && r[k] !in removed && 0 <= r[k] < nId && c[k] >= 1
    {
      var i :| 0 <= i < |z| && z[i] == kept[k];
      assert r[k] == ids[i] && c[k] == cnt[i];
    }
    forall i, j | 0 <= i < j < |r| ensures r[i] != r[j] {
      assert r[i] == kept[i].id && r[j] == kept[j].id;
    }
    forall x | x in r ensures x in ids && x !in removed {
      var k :| 0 <= k < |r| && r[k] == x;
    }
  }

  /** New points with ids n_id, n_id + 1, ... and age 1 keep the track
      invariant, with n_id advanced past them. */
  lemma FreshIdsKeepWellFormed(ids: seq<int>, cnt: seq<int>, nId: int, n: nat)
    requires WellFormedTracks(ids, cnt, nId) && nId >= 0
    ensures WellFormedTracks(ids + FreshIds(nId, n), cnt + Ones(n), nId + n)
  {
    var r := ids + FreshIds(nId, n);
    forall i, j | 0 <= i < j < |r| ensures r[i] != r[j] {
      if i >= |ids| {
        assert r[i] == nId + (i - |ids|) && r[j] == nId + (j - |ids|);
      } else if j >= |ids| {
        assert r[i] < nId <= r[j];
      } else {
        assert r[i] == ids[i] && r[j] == ids[j];
      }
    }
  }

  /** The projections of the predicted points of the tracked ids, in the
      order of ids (predict_pts_debug). */
  function Projections(ids: seq<int>, predictions: map<int, Point3>, spaceToPlane: Point3 -> Point2): (r: seq<Point2>)
    ensures |r| <= |ids|
  {
    if |ids| == 0 then []
    else
      var id := ids[|ids| - 1];
      Projections(ids[..|ids| - 1], predictions, spaceToPlane)
      + (if id in predictions then [spaceToPlane(predictions[id])] else [])
  }

  /** predict_pts_debug holds one projection per tracked id that has a
      prediction: entry k is the projection of the k-th such id, in the
      order of ids (status marks the ids with a prediction). */
  lemma {:induction false} ProjectionsOfPredictedIds(ids: seq<int>, predictions: map<int, Point3>,
                                                     spaceToPlane: Point3 -> Point2, status: seq<bool>)
    requires |status| >= |ids|
    requires forall i :: 0 <= i < |ids| ==> (status[i] <==> ids[i] in predictions)
    ensures var predicted := Kept(ids, status);
      var r := Projections(ids, predictions, spaceToPlane);
      |r| == |predicted|
      && forall k :: 0 <= k < |r| ==> predicted[k] in predictions && r[k] == spaceToPlane(predictions[predicted[k]])
  {
    if |ids| > 0 {
      var init := ids[..|ids| - 1];
      ProjectionsOfPredictedIds(init, predictions, spaceToPlane, status);
    }
  }

  /** The flows trackImage computes on the previous points: the seeded
      flow is tried first when there is a prediction and redone without the
      seed when it found fewer than MIN_PREDICTED_SUCCESSES points; the
      reverse flow runs from the kept flow's points back to the previous
      frame (it is read only when FLOW_BACK is set). */
  method TemporalFlows(o: Oracles, prev: seq<Point2>, guess: seq<Point2>, hasPrediction: bool)
    returns (fwd: Flow, rev: Flow)
    requires OraclesShaped(o)
    ensures fwd == TemporalFlow(o, prev, guess, hasPrediction) && rev == o.reverseFlow(fwd.pts, prev)
    ensures FlowShaped(fwd, |prev|) && FlowShaped(rev, |prev|)
  {
    if hasPrediction {
      fwd := o.seededFlow(prev, guess);
      var succNum := CountSuccess(fwd.status);
      if succNum < MIN_PREDICTED_SUCCESSES {
        fwd := o.fullFlow(prev);
      }
    } else {
      fwd := o.fullFlow(prev);
    }
    rev := o.reverseFlow(fwd.pts, prev);
  }

  /** The flows of the stereo step: from the left points into the right
      image, and back. */
  method StereoFlows(o: Oracles, cur: seq<Point2>) returns (f: Flow, rev: Flow)
    requires OraclesShaped(o)
    ensures f == o.stereoFlow(cur) && rev == o.stereoReverse(f.pts)
    ensures FlowShaped(f, |cur|) && FlowShaped(rev, |cur|)
  {
    f := o.stereoFlow(cur);
    rev := o.stereoReverse(f.pts);
  }

  /** The right-camera vectors of the tracker: ids_right, cur_right_pts,
      cur_un_right_pts, right_pts_velocity and cur_un_right_pts_map. */
  datatype RightTracks = RightTracks(ids: seq<int>, pts: seq<Point2>, unPts: seq<Point2>,
                                     velocity: seq<Point2>, idPts: map<int, Point2>)

  /** What the stereo step of trackImage computes from the left ids and
      points cur, the stereo flow f and its reverse rev, camera 1's
      undistortion and the previous right map over dt: nothing without left
      points; otherwise the survivors of the stereo rule, their undistorted
      points, the id -> point map filled with insert, and their velocities
      (as many zeros as there are left points when the previous map is
      empty). */
  function StereoTracks(ids: seq<int>, cur: seq<Point2>, f: Flow, rev: Flow, flowBack: bool,
                        width: int, height: int, undistort: seq<Point2> -> seq<Point2>,
                        prevMap: map<int, Point2>, dt: real): (r: RightTracks)
    requires |ids| == |cur| && FlowShaped(f, |cur|) && FlowShaped(rev, |cur|)
    requires forall p {:trigger undistort(p)} :: |undistort(p)| == |p|
    requires |prevMap| > 0 ==> dt != 0.0
    ensures |r.ids| == |r.pts| == |r.unPts| <= |r.velocity| <= |cur|
  {
    if |cur| == 0 then RightTracks([], [], [], [], map[])
    else
      var s := StereoSurvival(cur, f, rev, flowBack, width, height);
      KeptSameLength(ids, f.pts, s);
      var rightIds := Kept(ids, s);
      var un := undistort(Kept(f.pts, s));
      RightTracks(rightIds, Kept(f.pts, s), un,
                  if |prevMap| > 0 then Velocities2(rightIds, un, prevMap, dt) else Zeros2(|cur|),
                  FirstWins(rightIds, un))
  }

  /** In the stereo step every right id is a left id, no id appears twice
      when the left ids are distinct, and the map's keys are exactly the
      right ids.  With a non-empty previous right map there is one velocity
      per right id, its finite difference against that map; with an empty
      one there is one zero velocity per left point. */
  lemma StereoTracksShape(ids: seq<int>, cur: seq<Point2>, f: Flow, rev: Flow, flowBack: bool,
                          width: int, height: int, undistort: seq<Point2> -> seq<Point2>,
                          prevMap: map<int, Point2>, dt: real)
    requires |ids| == |cur| && FlowShaped(f, |cur|) && FlowShaped(rev, |cur|)
    requires forall p {:trigger undistort(p)} :: |undistort(p)| == |p|
    requires |prevMap| > 0 ==> dt != 0.0
    ensures var r := StereoTracks(ids, cur, f, rev, flowBack, width, height, undistort, prevMap, dt);
      (forall x :: x in r.ids ==> x in ids)
      && (Distinct(ids) ==> Distinct(r.ids))
      && (forall x :: x in r.idPts <==> x in r.ids)
      && (|prevMap| > 0 ==>
            |r.velocity| == |r.ids|
            && forall j :: 0 <= j < |r.ids| ==> r.velocity[j] == VelocityAt2(r.ids, r.unPts, prevMap, dt, j))
      && (|prevMap| == 0 ==>
            |r.velocity| == |cur| && forall j :: 0 <= j < |cur| ==> r.velocity[j] == Point2(0.0, 0.0))
  {
    var r := StereoTracks(ids, cur, f, rev, flowBack, width, height, undistort, prevMap, dt);
    if |cur| > 0 {
      var s := StereoSurvival(cur, f, rev, flowBack, width, height);
      KeptSameLength(ids, f.pts, s);
      KeptMembers(ids, s);
      KeptSameLength(cur, ids, s);
      if Distinct(ids) {
        KeptDistinct(ids, s);
      }
      FirstWinsKeys(r.ids, r.unPts);
      if |prevMap| > 0 {
        Velocities2At(r.ids, r.unPts, prevMap, dt);
      }
    }
  }

  /** The stereo step, computed. */
  method StereoStep(ids: seq<int>, cur: seq<Point2>, f: Flow, rev: Flow, flowBack: bool,
                    width: int, height: int, undistort: seq<Point2> -> seq<Point2>,
                    prevMap: map<int, Point2>, dt: real)
    returns (r: RightTracks)
    requires |ids| == |cur| && FlowShaped(f, |cur|) && FlowShaped(rev, |cur|)
    requires forall p {:trigger undistort(p)} :: |undistort(p)| == |p|
    requires |prevMap| > 0 ==> dt != 0.0
    ensures r == StereoTracks(ids, cur, f, rev, flowBack, width, height, undistort, prevMap, dt)
  {
    r := RightTracks([], [], [], [], map[]);
    if |cur| > 0 {
      var status := StereoStatus(cur, f, rev, flowBack, width, height);
      KeptSameLength(ids, f.pts, status);
      var rightPts := ReduceVector(f.pts, status);
      var idsRight := ReduceVector(ids, status);
      var unRightPts := undistort(rightPts);
      var velocity, idPts := IdVelocities2(idsRight, unRightPts, prevMap, dt, |cur|);
      r := RightTracks(idsRight, rightPts, unRightPts, velocity, idPts);
    }
  }

  /** The temporal step of trackImage, given the kept flow fwd of the
      previous points and its reverse flow rev: the survivor rule decides
      which tracks stay, prev_pts, cur_pts (the tracked positions), ids and
      track_cnt are compacted in lockstep, and every remaining age grows by
      one. */
  method Propagate(prev: seq<Point2>, ids: seq<int>, cnt: seq<int>, fwd: Flow, rev: Flow,
                   flowBack: bool, width: int, height: int)
    returns (prevOut: seq<Point2>, curOut: seq<Point2>, idsOut: seq<int>, cntOut: seq<int>)
    requires |prev| == |ids| == |cnt| && FlowShaped(fwd, |prev|) && FlowShaped(rev, |prev|)
    ensures var s := Survival(prev, fwd, rev, flowBack, width, height);
      prevOut == Kept(prev, s) && curOut == Kept(fwd.pts, s) && idsOut == Kept(ids, s)
      && |cntOut| == |Kept(cnt, s)|
      && forall k :: 0 <= k < |cntOut| ==> cntOut[k] == Kept(cnt, s)[k] + 1
    ensures |prevOut| == |curOut| == |idsOut| == |cntOut| <= |prev|
  {
    var status := SurvivalStatus(prev, fwd, rev, flowBack, width, height);
    KeptSameLength(cnt, ids, status);
    KeptSameLength(prev, ids, status);
    var c: seq<int>;
    prevOut, curOut, idsOut, c := CompactTracks(prev, fwd.pts, ids, cnt, status);
    cntOut := IncrementAll(c);
  }

  /** Lockstep compaction followed by aging keeps the track invariant. */
  lemma AgingKeepsWellFormed(ids: seq<int>, cnt: seq<int>, nId: int, status: seq<bool>, aged: seq<int>)
    requires WellFormedTracks(ids, cnt, nId) && |status| >= |ids|
    requires |aged| == |Kept(cnt, status)| && forall k :: 0 <= k < |aged| ==> aged[k] == Kept(cnt, status)[k] + 1
    ensures WellFormedTracks(Kept(ids, status), aged, nId)
  {
    CompactionKeepsWellFormed(ids, cnt, nId, status);
  }

  /** The selection of setMask: the tracks sorted by age, longest-lived
      first, kept greedily when their id is not removed and no disk painted
      so far covers them; every kept track paints its disk. */
  method MaskSelect(cnt: seq<int>, pts: seq<Point2>, ids: seq<int>, removed: set<int>, minDist: int)
    returns (ptsOut: seq<Point2>, idsOut: seq<int>, cntOut: seq<int>, mask: seq<Point2>)
    requires |cnt| >= |pts| && |ids| >= |pts|
    ensures var kept := Select(SortByAge(Zip(cnt, pts, ids)), removed, minDist);
      ptsOut == PointsOf(kept) && idsOut == IdsOf(kept) && cntOut == CountsOf(kept) && mask == ptsOut
  {
    var sorted := SortByAge(Zip(cnt, pts, ids));
    ptsOut, idsOut, cntOut, mask := [], [], [], [];
    for k := 0 to |sorted|
      invariant var kept := Select(sorted[..k], removed, minDist);
        ptsOut == PointsOf(kept) && idsOut == IdsOf(kept) && cntOut == CountsOf(kept) && mask == ptsOut
    {
      var t := sorted[k];
      SelectStep(sorted, k, removed, minDist);
      ProjectionsSnoc(Select(sorted[..k], removed, minDist), t);
      if t.id !in removed {
        if MaskOpen(mask, t.pt, minDist) {
          ptsOut := ptsOut + [t.pt];
          idsOut := idsOut + [t.id];
          cntOut := cntOut + [t.cnt];
          mask := mask + [t.pt];
        }
      }
    }
    assert sorted[..|sorted|] == sorted;
  }

  /** The tracks setMask keeps are in order of decreasing age, pairwise
      more than MIN_DIST apart, each one of the given tracks, and none of
      them is removed. */
  lemma SetMaskKeeps(z: seq<Track>, removed: set<int>, minDist: int)
    ensures var kept := Select(SortByAge(z), removed, minDist);
      AgeDescending(kept) && Separated(kept, minDist) && forall t :: t in kept ==> t in z && t.id !in removed
  {
    var sorted := SortByAge(z);
    SortByAgeSorts(z);
    SelectDescending(sorted, removed, minDist);
    SelectSeparated(sorted, removed, minDist);
    forall t | t in Select(sorted, removed, minDist)
      ensures t in z
    {
      assert t in multiset(sorted);
    }
  }

  /** The loop of addPoints: every new point becomes a track with the next
      id and age 1, in detection order. */
  method AppendFresh(pts: seq<Point2>, ids: seq<int>, cnt: seq<int>, nId: int, newPts: seq<Point2>)
    returns (ptsOut: seq<Point2>, idsOut: seq<int>, cntOut: seq<int>, nIdOut: int)
    ensures ptsOut == pts + newPts
    ensures idsOut == ids + FreshIds(nId, |newPts|)
    ensures cntOut == cnt + Ones(|newPts|)
    ensures nIdOut == nId + |newPts|
  {
    ptsOut, idsOut, cntOut, nIdOut := pts, ids, cnt, nId;
    for k := 0 to |newPts|
      invariant ptsOut == pts + newPts[..k]
      invariant idsOut == ids + FreshIds(nId, k)
      invariant cntOut == cnt + Ones(k)
      invariant nIdOut == nId + k
    {
      assert newPts[..k + 1] == newPts[..k] + [newPts[k]];
      assert FreshIds(nId, k + 1) == FreshIds(nId, k) + [nIdOut];
      assert Ones(k + 1) == Ones(k) + [1];
      ptsOut := ptsOut + [newPts[k]];
      idsOut := idsOut + [nIdOut];
      nIdOut := nIdOut + 1;
      cntOut := cntOut + [1];
    }
    assert newPts[..|newPts|] == newPts;
  }

  /** The image size and timestamps of the tracker: row, col, cur_time and
      prev_time. */
  datatype Clock = Clock(row: int, col: int, curTime: real, prevTime: real)

  /** The left-camera track store: prev_pts, cur_pts, ids, track_cnt (one
      age per track) and the id counter n_id. */
  datatype Tracks = Tracks(prevPts: seq<Point2>, curPts: seq<Point2>, ids: seq<int>, trackCnt: seq<int>, nId: int)

  /** Between frames prev_pts, ids and track_cnt describe the same tracks
      position by position, under the track invariant. */
  ghost predicate TracksValid(tr: Tracks)
  {
    0 <= tr.nId && |tr.prevPts| == |tr.ids| && WellFormedTracks(tr.ids, tr.trackCnt, tr.nId)
  }

  /** The prediction for the next frame: hasPrediction, predict_pts (one
      seed per track) and predict_pts_debug. */
  datatype Prediction = Prediction(hasPrediction: bool, predictPts: seq<Point2>, predictPtsDebug: seq<Point2>)

  /** The detection state: the mask (the centres of the disks painted into
      it, in painting order) and n_pts, the corners found last. */
  datatype Detection = Detection(mask: seq<Point2>, nPts: seq<Point2>)

  /** The left-camera outputs kept between frames: cur_un_pts, prev_un_pts,
      pts_velocity, cur_un_pts_map, prev_un_pts_map and prevLeftPtsMap. */
  datatype LeftOutputs = LeftOutputs(curUnPts: seq<Point2>, prevUnPts: seq<Point2>, ptsVelocity: seq<Point2>,
                                     curUnPtsMap: map<int, Point2>, prevUnPtsMap: map<int, Point2>,
                                     prevLeftPtsMap: map<int, Point2>)


  /** The image size trackImage works at: halved with ENABLE_DOWNSAMPLE. */
  function Scaled(cfg: Config, n: int): int
  {
    if cfg.enableDownsample then n / 2 else n
  }

  /** Every age grown by one. */
  function Aged(cnt: seq<int>): seq<int>
  {
    seq(|cnt|, i requires 0 <= i < |cnt| => cnt[i] + 1)
  }

  /** The tracks left after the temporal step of trackImage: none without
      previous points; otherwise the temporal flow it keeps and the reverse
      flow decide which tracks survive, and each survivor keeps its id,
      moves to its tracked position and ages by one. */
  function Survivors(o: Oracles, flowBack: bool, tr: Tracks, pred: Prediction, width: int, height: int): (r: seq<Track>)
    requires OraclesShaped(o) && |tr.prevPts| == |tr.ids| == |tr.trackCnt|
    ensures |r| <= |tr.ids|
  {
    if |tr.prevPts| == 0 then []
    else
      var fwd := TemporalFlow(o, tr.prevPts, pred.predictPts, pred.hasPrediction);
      var s := Survival(tr.prevPts, fwd, o.reverseFlow(fwd.pts, tr.prevPts), flowBack, width, height);
      Zip(Aged(Kept(tr.trackCnt, s)), Kept(fwd.pts, s), Kept(tr.ids, s))
  }

  /** The tracks setMask keeps of the survivors. */
  function MaskKept(o: Oracles, cfg: Config, tr: Tracks, pred: Prediction, removed: set<int>,
                    width: int, height: int): seq<Track>
    requires OraclesShaped(o) && |tr.prevPts| == |tr.ids| == |tr.trackCnt|
  {
    Select(SortByAge(Survivors(o, cfg.flowBack, tr, pred, width, height)), removed, cfg.minDist)
  }

  /** The corners trackImage asks goodFeaturesToTrack for, outside the
      disks around the kept points: the shortfall when it exceeds the gate,
      otherwise none. */
  function NewCorners(o: Oracles, maxCnt: int, kept: seq<Point2>): seq<Point2>
  {
    if ReplenishGate(maxCnt, |kept|) then o.corners(maxCnt - |kept|, kept) else []
  }

  /** The track store and the detection state the left-image part of
      trackImage leaves: the kept tracks followed by one new track per new
      corner, with consecutive ids from n_id on and age 1, prev_pts equal to
      cur_pts; the mask holds the kept points and n_pts the new corners. */
  function LeftStep(o: Oracles, cfg: Config, tr: Tracks, pred: Prediction, removed: set<int>,
                    width: int, height: int): (r: (Tracks, Detection))
    requires OraclesShaped(o) && |tr.prevPts| == |tr.ids| == |tr.trackCnt|
    ensures |r.0.curPts| == |r.0.ids| == |r.0.trackCnt|
  {
    var kept := MaskKept(o, cfg, tr, pred, removed, width, height);
    var pts := PointsOf(kept);
    var newPts := NewCorners(o, cfg.maxCnt, pts);
    (Tracks(pts + newPts, pts + newPts, IdsOf(kept) + FreshIds(tr.nId, |newPts|),
            CountsOf(kept) + Ones(|newPts|), tr.nId + |newPts|),
     Detection(pts, newPts))
  }

  /** The survivors keep the track invariant: their ids are distinct ids of
      the store, below n_id and with ages at least 1. */
  lemma SurvivorsWellFormed(o: Oracles, flowBack: bool, tr: Tracks, pred: Prediction, width: int, height: int)
    requires OraclesShaped(o) && TracksValid(tr)
    ensures var z := Survivors(o, flowBack, tr, pred, width, height);
      WellFormedTracks(IdsOf(z), CountsOf(z), tr.nId) && forall x :: x in IdsOf(z) ==> x in tr.ids
  {
    var z := Survivors(o, flowBack, tr, pred, width, height);
    if |tr.prevPts| > 0 {
      var fwd := TemporalFlow(o, tr.prevPts, pred.predictPts, pred.hasPrediction);
      var s := Survival(tr.prevPts, fwd, o.reverseFlow(fwd.pts, tr.prevPts), flowBack, width, height);
      var aged := Aged(Kept(tr.trackCnt, s));
      AgingKeepsWellFormed(tr.ids, tr.trackCnt, tr.nId, s, aged);
      KeptMembers(tr.ids, s);
      KeptSameLength(tr.trackCnt, tr.ids, s);
      KeptSameLength(fwd.pts, tr.ids, s);
      assert IdsOf(z) == Kept(tr.ids, s);
      assert CountsOf(z) == aged;
    }
  }

  /** The left-image part of trackImage keeps the track invariant, leaves
      prev_pts equal to cur_pts, and advances n_id by the number of new
      corners. */
  lemma LeftStepKeepsValid(o: Oracles, cfg: Config, tr: Tracks, pred: Prediction, removed: set<int>,
                           width: int, height: int)
    requires OraclesShaped(o) && TracksValid(tr)
    ensures var (next, det) := LeftStep(o, cfg, tr, pred, removed, width, height);
      TracksValid(next) && next.prevPts == next.curPts && next.nId == tr.nId + |det.nPts|
  {
    var z := Survivors(o, cfg.flowBack, tr, pred, width, height);
    var kept := MaskKept(o, cfg, tr, pred, removed, width, height);
    var newPts := NewCorners(o, cfg.maxCnt, PointsOf(kept));
    SurvivorsWellFormed(o, cfg.flowBack, tr, pred, width, height);
    ZipOfProjections(z);
    SelectionKeepsWellFormed(CountsOf(z), PointsOf(z), IdsOf(z), removed, cfg.minDist, tr.nId);
    FreshIdsKeepWellFormed(IdsOf(kept), CountsOf(kept), tr.nId, |newPts|);
  }

  /** After the left-image part every id is either old or new: an old id
      (below the previous n_id) survived from the store and is not in
      removed_pts; a new id sits after the kept tracks, is the previous
      n_id plus its offset among the new corners, and has age 1. */
  lemma LeftStepIds(o: Oracles, cfg: Config, tr: Tracks, pred: Prediction, removed: set<int>,
                    width: int, height: int)
    requires OraclesShaped(o) && TracksValid(tr)
    ensures var (next, det) := LeftStep(o, cfg, tr, pred, removed, width, height);
      forall i :: 0 <= i < |next.ids| ==>
        (next.ids[i] < tr.nId ==> i < |det.mask| && next.ids[i] in tr.ids && next.ids[i] !in removed)
        && (next.ids[i] >= tr.nId ==> i >= |det.mask| && next.ids[i] == tr.nId + (i - |det.mask|)
                                      && next.trackCnt[i] == 1)
  {
    var (next, det) := LeftStep(o, cfg, tr, pred, removed, width, height);
    var z := Survivors(o, cfg.flowBack, tr, pred, width, height);
    var kept := MaskKept(o, cfg, tr, pred, removed, width, height);
    SurvivorsWellFormed(o, cfg.flowBack, tr, pred, width, height);
    ZipOfProjections(z);
    SelectionKeepsWellFormed(CountsOf(z), PointsOf(z), IdsOf(z), removed, cfg.minDist, tr.nId);
    var m := |det.mask|;
    forall i | 0 <= i < |next.ids|
      ensures next.ids[i] < tr.nId ==> i < m && next.ids[i] in tr.ids && next.ids[i] !in removed
      ensures next.ids[i] >= tr.nId ==> i >= m && next.ids[i] == tr.nId + (i - m) && next.trackCnt[i] == 1
    {
      if i < m {
        assert next.ids[i] == IdsOf(kept)[i] && IdsOf(kept)[i] in IdsOf(kept);
      } else {
        assert next.ids[i] == FreshIds(tr.nId, |det.nPts|)[i - m];
        assert next.trackCnt[i] == Ones(|det.nPts|)[i - m];
      }
    }
  }

  /** With a corner detector that respects its limit, at most MAX_CNT
      tracks before the left-image part means at most MAX_CNT after. */
  lemma LeftStepBounded(o: Oracles, cfg: Config, tr: Tracks, pred: Prediction, removed: set<int>,
                        width: int, height: int)
    requires OraclesShaped(o) && TracksValid(tr)
    requires CornersBounded(o) && |tr.prevPts| <= cfg.maxCnt
    ensures |LeftStep(o, cfg, tr, pred, removed, width, height).0.curPts| <= cfg.maxCnt
  {
    var z := Survivors(o, cfg.flowBack, tr, pred, width, height);
    var kept := MaskKept(o, cfg, tr, pred, removed, width, height);
    SurvivorsWellFormed(o, cfg.flowBack, tr, pred, width, height);
    assert |z| == |IdsOf(z)| <= |tr.ids| by {
      if |tr.prevPts| > 0 {
        var fwd := TemporalFlow(o, tr.prevPts, pred.predictPts, pred.hasPrediction);
        var s := Survival(tr.prevPts, fwd, o.reverseFlow(fwd.pts, tr.prevPts), cfg.flowBack, width, height);
        KeptSameLength(fwd.pts, tr.ids, s);
      }
    }
    assert |PointsOf(kept)| <= cfg.maxCnt;
  }

  /** The mask of the left-image part: the kept points, pairwise more than
      MIN_DIST apart, in order of decreasing age. */
  lemma LeftStepMask(o: Oracles, cfg: Config, tr: Tracks, pred: Prediction, removed: set<int>,
                     width: int, height: int)
    requires OraclesShaped(o) && |tr.prevPts| == |tr.ids| == |tr.trackCnt|
    ensures var kept := MaskKept(o, cfg, tr, pred, removed, width, height);
      LeftStep(o, cfg, tr, pred, removed, width, height).1.mask == PointsOf(kept)
      && Separated(kept, cfg.minDist) && AgeDescending(kept)
  {
    SetMaskKeeps(Survivors(o, cfg.flowBack, tr, pred, width, height), removed, cfg.minDist);
  }

  /** The left-camera outputs trackImage leaves for the store tr, given the
      previous undistorted map over dt: camera 0's undistortion of cur_pts
      (also the new prev_un_pts), ptsVelocity's velocities and map (zeros
      when the previous map is empty; the map is also the new
      prev_un_pts_map), and pts_map of ids and cur_pts. */
  function LeftOutputsOf(o: Oracles, tr: Tracks, prevUnMap: map<int, Point2>, dt: real): (l: LeftOutputs)
    requires OraclesShaped(o) && |tr.ids| == |tr.curPts| && (|prevUnMap| > 0 ==> dt != 0.0)
    ensures |l.curUnPts| == |l.ptsVelocity| == |tr.ids|
  {
    var un := o.undistortLeft(tr.curPts);
    var unMap := FirstWins(tr.ids, un);
    LeftOutputs(un, un, if |prevUnMap| > 0 then Velocities2(tr.ids, un, prevUnMap, dt) else Zeros2(|tr.curPts|),
                unMap, unMap, LastWins(tr.ids, tr.curPts))
  }

  /** With the ids of the store free of duplicates, both maps of the left
      outputs have exactly the store's ids as keys and send each id to its
      own undistorted, respectively distorted, point, and each velocity is
      the finite difference against the previous map, or zero without
      one. */
  lemma LeftOutputsShape(o: Oracles, tr: Tracks, prevUnMap: map<int, Point2>, dt: real)
    requires OraclesShaped(o) && |tr.ids| == |tr.curPts| && (|prevUnMap| > 0 ==> dt != 0.0)
    requires Distinct(tr.ids)
    ensures var l := LeftOutputsOf(o, tr, prevUnMap, dt);
      forall x :: (x in l.curUnPtsMap <==> x in tr.ids) && (x in l.prevLeftPtsMap <==> x in tr.ids)
    ensures var l := LeftOutputsOf(o, tr, prevUnMap, dt);
      forall i :: 0 <= i < |tr.ids| ==>
        tr.ids[i] in l.curUnPtsMap && l.curUnPtsMap[tr.ids[i]] == l.curUnPts[i]
        && tr.ids[i] in l.prevLeftPtsMap && l.prevLeftPtsMap[tr.ids[i]] == tr.curPts[i]
    ensures var l := LeftOutputsOf(o, tr, prevUnMap, dt);
      forall i :: 0 <= i < |tr.ids| ==>
        l.ptsVelocity[i] == if |prevUnMap| > 0 then VelocityAt2(tr.ids, l.curUnPts, prevUnMap, dt, i)
                            else Point2(0.0, 0.0)
  {
    var l := LeftOutputsOf(o, tr, prevUnMap, dt);
    FirstWinsKeys(tr.ids, l.curUnPts);
    FirstWinsAt(tr.ids, l.curUnPts);
    LastWinsKeys(tr.ids, tr.curPts);
    LastWinsAt(tr.ids, tr.curPts);
    forall i | 0 <= i < |tr.ids|
      ensures tr.ids[i] !in tr.ids[..i] && tr.ids[i] !in tr.ids[i + 1..]
    {
      forall j | 0 <= j < |tr.ids| && j != i ensures tr.ids[j] != tr.ids[i] {}
    }
    if |prevUnMap| > 0 {
      Velocities2At(tr.ids, l.curUnPts, prevUnMap, dt);
    }
  }

  /** The right vectors the stereo step of trackImage computes on the store
      tr: the stereo rule on the flow of cur_pts into the right image and
      its reverse, with camera 1's undistortion and the previous right map
      over dt. */
  function RightStep(o: Oracles, flowBack: bool, width: int, height: int, tr: Tracks,
                     prevRightMap: map<int, Point2>, dt: real): (rt: RightTracks)
    requires OraclesShaped(o) && |tr.ids| == |tr.curPts| && (|prevRightMap| > 0 ==> dt != 0.0)
    ensures |rt.ids| == |rt.pts| == |rt.unPts| <= |rt.velocity| <= |tr.ids|
  {
    var f := o.stereoFlow(tr.curPts);
    StereoTracks(tr.ids, tr.curPts, f, o.stereoReverse(f.pts), flowBack, width, height,
                 o.undistortRight, prevRightMap, dt)
  }

  /** After the stereo step the right ids are distinct left ids and the
      right map has exactly them as keys. */
  lemma RightStepShape(o: Oracles, flowBack: bool, width: int, height: int, tr: Tracks,
                       prevRightMap: map<int, Point2>, dt: real)
    requires OraclesShaped(o) && |tr.ids| == |tr.curPts| && (|prevRightMap| > 0 ==> dt != 0.0)
    requires Distinct(tr.ids)
    ensures var rt := RightStep(o, flowBack, width, height, tr, prevRightMap, dt);
      Distinct(rt.ids) && (forall x :: x in rt.ids ==> x in tr.ids) && (forall x :: x in rt.idPts <==> x in rt.ids)
  {
    var f := o.stereoFlow(tr.curPts);
    StereoTracksShape(tr.ids, tr.curPts, f, o.stereoReverse(f.pts), flowBack, width, height,
                      o.undistortRight, prevRightMap, dt);
  }

  /** The frame trackImage returns for the store tr, the left outputs l and,
      when a right image was tracked, the right vectors rt: camera 0 for
      every left id, then camera 1 for every right id. */
  function OutputFrame(tr: Tracks, l: LeftOutputs, withRight: bool, rt: RightTracks): FeatureFrame
    requires |l.curUnPts| >= |tr.ids| && |tr.curPts| >= |tr.ids| && |l.ptsVelocity| >= |tr.ids|
    requires withRight ==> |rt.unPts| >= |rt.ids| && |rt.pts| >= |rt.ids| && |rt.velocity| >= |rt.ids|
  {
    TrackFrame(tr.ids, PlaneObservations(0, l.curUnPts, tr.curPts, l.ptsVelocity, |tr.ids|),
               if withRight then rt.ids else [],
               if withRight then PlaneObservations(1, rt.unPts, rt.pts, rt.velocity, |rt.ids|) else [])
  }

  /** The frame's ids are the left ids; an id tracked on the left only has
      its camera-0 observation alone, one also tracked on the right has its
      camera-0 observation followed by its camera-1 observation. */
  lemma OutputFrameBuckets(tr: Tracks, l: LeftOutputs, withRight: bool, rt: RightTracks)
    requires |l.curUnPts| >= |tr.ids| && |tr.curPts| >= |tr.ids| && |l.ptsVelocity| >= |tr.ids|
    requires withRight ==> |rt.unPts| >= |rt.ids| && |rt.pts| >= |rt.ids| && |rt.velocity| >= |rt.ids|
    requires withRight ==> Distinct(rt.ids) && forall x :: x in rt.ids ==> x in tr.ids
    requires Distinct(tr.ids)
    ensures var ff := OutputFrame(tr, l, withRight, rt);
      forall x :: x in ff <==> x in tr.ids
    ensures var ff := OutputFrame(tr, l, withRight, rt);
      forall i :: 0 <= i < |tr.ids| && (!withRight || tr.ids[i] !in rt.ids) ==>
        Bucket(ff, tr.ids[i]) == [PlaneObservation(0, l.curUnPts[i], tr.curPts[i], l.ptsVelocity[i])]
    ensures var ff := OutputFrame(tr, l, withRight, rt);
      forall i, j :: withRight && 0 <= i < |tr.ids| && 0 <= j < |rt.ids| && tr.ids[i] == rt.ids[j] ==>
        Bucket(ff, tr.ids[i]) == [PlaneObservation(0, l.curUnPts[i], tr.curPts[i], l.ptsVelocity[i]),
                                  PlaneObservation(1, rt.unPts[j], rt.pts[j], rt.velocity[j])]
  {
    var left := PlaneObservations(0, l.curUnPts, tr.curPts, l.ptsVelocity, |tr.ids|);
    var rightIds := if withRight then rt.ids else [];
    var right := if withRight then PlaneObservations(1, rt.unPts, rt.pts, rt.velocity, |rt.ids|) else [];
    var ff := OutputFrame(tr, l, withRight, rt);
    assert ff == TrackFrame(tr.ids, left, rightIds, right);
    forall x ensures x in ff <==> x in tr.ids {
      TrackFrameIds(tr.ids, left, rightIds, right, x);
    }
    forall i | 0 <= i < |tr.ids| && (!withRight || tr.ids[i] !in rt.ids)
      ensures Bucket(ff, tr.ids[i]) == [PlaneObservation(0, l.curUnPts[i], tr.curPts[i], l.ptsVelocity[i])]
    {
      LeftOnly(tr.ids, left, rightIds, right, i);
    }
    forall i, j | withRight && 0 <= i < |tr.ids| && 0 <= j < |rt.ids| && tr.ids[i] == rt.ids[j]
      ensures Bucket(ff, tr.ids[i]) == [PlaneObservation(0, l.curUnPts[i], tr.curPts[i], l.ptsVelocity[i]),
                                        PlaneObservation(1, rt.unPts[j], rt.pts[j], rt.velocity[j])]
    {
      LeftThenRight(tr.ids, left, rightIds, right, i, j);
    }
  }

  /** The tracks the temporal step computes from the kept flow and its
      reverse are the survivors. */
  lemma PropagatedSurvivors(o: Oracles, flowBack: bool, tr: Tracks, pred: Prediction, width: int, height: int,
                            fwd: Flow, rev: Flow, cur: seq<Point2>, ids: seq<int>, cnt: seq<int>)
    requires OraclesShaped(o) && |tr.prevPts| == |tr.ids| == |tr.trackCnt|
    requires fwd == if |tr.prevPts| > 0 then TemporalFlow(o, tr.prevPts, pred.predictPts, pred.hasPrediction)
                    else Flow([], [])
    requires |tr.prevPts| > 0 ==> rev == o.reverseFlow(fwd.pts, tr.prevPts)
    requires FlowShaped(fwd, |tr.prevPts|) && FlowShaped(rev, |tr.prevPts|)
    requires var s := Survival(tr.prevPts, fwd, rev, flowBack, width, height);
      cur == Kept(fwd.pts, s) && ids == Kept(tr.ids, s)
      && |cnt| == |Kept(tr.trackCnt, s)| && forall k :: 0 <= k < |cnt| ==> cnt[k] == Kept(tr.trackCnt, s)[k] + 1
    ensures Zip(cnt, cur, ids) == Survivors(o, flowBack, tr, pred, width, height)
  {
    var s := Survival(tr.prevPts, fwd, rev, flowBack, width, height);
    assert cnt == Aged(Kept(tr.trackCnt, s));
  }

  /** The left-image part of trackImage on the store tr, computed: the
      temporal step, setMask, and replenishment through goodFeaturesToTrack
      and addPoints. */
  method TrackLeft(o: Oracles, tr: Tracks, pred: Prediction, removed: set<int>, cfg: Config,
                   width: int, height: int)
    returns (next: Tracks, det: Detection)
    requires OraclesShaped(o) && TracksValid(tr)
    ensures (next, det) == LeftStep(o, cfg, tr, pred, removed, width, height)
    ensures |next.curPts| == |next.ids|
    ensures TracksValid(next) && next.prevPts == next.curPts
  {
    var prev, ids, cnt, nId := tr.prevPts, tr.ids, tr.trackCnt, tr.nId;

    // Temporal flow, survivor rule, aging.
    var fwd, rev := Flow([], []), Flow([], []);
    if |prev| > 0 {
      fwd, rev := TemporalFlows(o, prev, pred.predictPts, pred.hasPrediction);
    }
    var p1, c1, i1, n1 := Propagate(prev, ids, cnt, fwd, rev, cfg.flowBack, width, height);
    PropagatedSurvivors(o, cfg.flowBack, tr, pred, width, height, fwd, rev, c1, i1, n1);

    // setMask.
    var c2, i2, n2, m2 := MaskSelect(n1, c1, i1, removed, cfg.minDist);

    // Replenishment and addPoints.
    var cur, idsOut, cntOut, nIdOut, newPts := Replenish(o, c2, i2, n2, nId, cfg.maxCnt);
    next := Tracks(cur, cur, idsOut, cntOut, nIdOut);
    det := Detection(m2, newPts);
    LeftStepKeepsValid(o, cfg, tr, pred, removed, width, height);
  }

  /** Replenishment in trackImage: when the shortfall MAX_CNT - |cur_pts|
      exceeds MAX_CNT / 4, goodFeaturesToTrack is asked for that many
      corners outside the mask around the kept points, otherwise n_pts is cleared; addPoints then
      appends n_pts as new tracks.  The new tracks have ids from n_id on
      and age 1, and a corner detector that respects its limit never takes
      the count past MAX_CNT. */
  method Replenish(o: Oracles, cur: seq<Point2>, ids: seq<int>, cnt: seq<int>, nId: int, maxCnt: int)
    returns (curOut: seq<Point2>, idsOut: seq<int>, cntOut: seq<int>, nIdOut: int, newPts: seq<Point2>)
    requires |cur| == |ids| == |cnt|
    ensures newPts == NewCorners(o, maxCnt, cur)
    ensures curOut == cur + newPts && idsOut == ids + FreshIds(nId, |newPts|)
    ensures cntOut == cnt + Ones(|newPts|) && nIdOut == nId + |newPts|
    ensures forall i :: |ids| <= i < |idsOut| ==> idsOut[i] >= nId && cntOut[i] == 1
    ensures CornersBounded(o) && |cur| <= maxCnt ==> |curOut| <= maxCnt
  {
    newPts := [];
    if ReplenishGate(maxCnt, |cur|) {
      newPts := o.corners(maxCnt - |cur|, cur);
    }
    curOut, idsOut, cntOut, nIdOut := AppendFresh(cur, ids, cnt, nId, newPts);
    forall i | |ids| <= i < |idsOut|
      ensures idsOut[i] >= nId && cntOut[i] == 1
    {
      assert idsOut[i] == FreshIds(nId, |newPts|)[i - |ids|];
      assert cntOut[i] == Ones(|newPts|)[i - |ids|];
    }
  }


  /** The rest of trackImage once the left tracks tr are known: the left
      outputs; with a right image of a stereo rig, the stereo step, whose
      map becomes prev_un_right_pts_map (without one, the right vectors and
      that map stay as they were); and the output frame. */
  function FrameOf(o: Oracles, flowBack: bool, width: int, height: int, tr: Tracks, prevUnMap: map<int, Point2>,
                   dt: real, withRight: bool, oldRight: RightTracks, prevRightMap: map<int, Point2>)
    : (LeftOutputs, RightTracks, map<int, Point2>, FeatureFrame)
    requires OraclesShaped(o) && |tr.curPts| == |tr.ids|
    requires |prevUnMap| > 0 || (withRight && |prevRightMap| > 0) ==> dt != 0.0
  {
    var l := LeftOutputsOf(o, tr, prevUnMap, dt);
    var rt := if withRight then RightStep(o, flowBack, width, height, tr, prevRightMap, dt) else oldRight;
    (l, rt, if withRight then rt.idPts else prevRightMap, OutputFrame(tr, l, withRight, rt))
  }

  /** FrameOf computed: undistortion, ptsVelocity and pts_map on the left
      tracks, the stereo step, and the assembly of the output frame. */
  method FrameOutputs(o: Oracles, tr: Tracks, prevUnMap: map<int, Point2>, dt: real,
                      withRight: bool, flowBack: bool, width: int, height: int,
                      oldRight: RightTracks, prevRightMap: map<int, Point2>)
    returns (l: LeftOutputs, right: RightTracks, prevRight: map<int, Point2>, frame: FeatureFrame)
    requires OraclesShaped(o) && |tr.curPts| == |tr.ids|
    requires |prevUnMap| > 0 || (withRight && |prevRightMap| > 0) ==> dt != 0.0
    ensures (l, right, prevRight, frame) == FrameOf(o, flowBack, width, height, tr, prevUnMap, dt, withRight,
                                                    oldRight, prevRightMap)
  {
    var cur, ids := tr.curPts, tr.ids;
    var un := o.undistortLeft(cur);
    var vel, unMap := IdVelocities2(ids, un, prevUnMap, dt, |cur|);
    right, prevRight := oldRight, prevRightMap;
    if withRight {
      var f, back := Flow([], []), Flow([], []);
      if |cur| > 0 {
        f, back := StereoFlows(o, cur);
      }
      right := StereoStep(ids, cur, f, back, flowBack, width, height, o.undistortRight, prevRightMap, dt);
      assert right == RightStep(o, flowBack, width, height, tr, prevRightMap, dt);
      prevRight := right.idPts;
    }
    var leftMap := PtsMap(ids, cur);
    l := LeftOutputs(un, un, vel, unMap, unMap, leftMap);
    frame := AppendPlaneObservations(map[], ids, 0, un, cur, vel);
    if withRight {
      frame := AppendPlaneObservations(frame, right.ids, 1, right.unPts, right.pts, right.velocity);
    }
  }

  /** The members of the tracker that trackImage updates. */
  datatype TrackerState = TrackerState(clock: Clock, tracks: Tracks, prediction: Prediction, detection: Detection,
                                       left: LeftOutputs, right: RightTracks, prevUnRightPtsMap: map<int, Point2>)

  /** The state trackImage leaves and the frame it returns for the old
      state s, a frame of width x height pixels at time t and the stereo
      flag withRight (a right image given to a stereo rig), once the left
      image has produced the track store tr and the detection state det:
      the (possibly halved) image size with both timestamps at t, tr and
      det, the prediction switched off, and the outputs FrameOf computes on
      tr over the time since the previous frame. */
  function Completed(o: Oracles, cfg: Config, s: TrackerState, t: real, width: int, height: int, withRight: bool,
                     tr: Tracks, det: Detection): (r: (TrackerState, FeatureFrame))
    requires OraclesShaped(o) && |tr.curPts| == |tr.ids|
    requires |s.left.prevUnPtsMap| > 0 || (withRight && |s.prevUnRightPtsMap| > 0) ==> t != s.clock.prevTime
    ensures r.0.tracks == tr && r.0.detection == det && !r.0.prediction.hasPrediction
    ensures r.0.clock.curTime == r.0.clock.prevTime == t
  {
    var w, h := Scaled(cfg, width), Scaled(cfg, height);
    var fo := FrameOf(o, cfg.flowBack, w, h, tr, s.left.prevUnPtsMap, t - s.clock.prevTime, withRight,
                      s.right, s.prevUnRightPtsMap);
    (TrackerState(Clock(h, w, t, t), tr, s.prediction.(hasPrediction := false), det, fo.0, fo.1, fo.2), fo.3)
  }

  /** Outputs computed by FrameOutputs complete the state as Completed says. */
  lemma CompletedFromOutputs(o: Oracles, cfg: Config, s: TrackerState, t: real, width: int, height: int,
                             withRight: bool, tr: Tracks, det: Detection,
                             l: LeftOutputs, rt: RightTracks, prevRight: map<int, Point2>, frame: FeatureFrame)
    requires OraclesShaped(o) && |tr.curPts| == |tr.ids|
    requires |s.left.prevUnPtsMap| > 0 || (withRight && |s.prevUnRightPtsMap| > 0) ==> t != s.clock.prevTime
    requires (l, rt, prevRight, frame) == FrameOf(o, cfg.flowBack, Scaled(cfg, width), Scaled(cfg, height), tr,
                                                  s.left.prevUnPtsMap, t - s.clock.prevTime, withRight,
                                                  s.right, s.prevUnRightPtsMap)
    ensures (TrackerState(Clock(Scaled(cfg, height), Scaled(cfg, width), t, t), tr,
                          s.prediction.(hasPrediction := false), det, l, rt, prevRight), frame)
            == Completed(o, cfg, s, t, width, height, withRight, tr, det)
  {
  }

  /** The outputs of trackImage once the left image has produced the
      store tr and the detection state det, computed. */
  method Finish(o: Oracles, cfg: Config, s: TrackerState, t: real, width: int, height: int, withRight: bool,
                tr: Tracks, det: Detection)
    returns (r: (TrackerState, FeatureFrame))
    requires OraclesShaped(o) && |tr.curPts| == |tr.ids|
    requires |s.left.prevUnPtsMap| > 0 || (withRight && |s.prevUnRightPtsMap| > 0) ==> t != s.clock.prevTime
    ensures r.0.tracks == tr && r.0.detection == det
    ensures r == Completed(o, cfg, s, t, width, height, withRight, tr, det)
  {
    var w, h := Scaled(cfg, width), Scaled(cfg, height);
    var l, rt, prevRight, frame := FrameOutputs(o, tr, s.left.prevUnPtsMap, t - s.clock.prevTime,
                                                withRight, cfg.flowBack, w, h, s.right, s.prevUnRightPtsMap);
    CompletedFromOutputs(o, cfg, s, t, width, height, withRight, tr, det, l, rt, prevRight, frame);
    r := (TrackerState(Clock(h, w, t, t), tr, s.prediction.(hasPrediction := false), det, l, rt, prevRight), frame);
  }

  /** trackImage computed on the state s: the left-image part, then the
      outputs. */
  method TrackImageStep(o: Oracles, cfg: Config, removed: set<int>, s: TrackerState, t: real,
                        width: int, height: int, withRight: bool)
    returns (r: (TrackerState, FeatureFrame))
    requires OraclesShaped(o) && TracksValid(s.tracks)
    requires |s.left.prevUnPtsMap| > 0 || (withRight && |s.prevUnRightPtsMap| > 0) ==> t != s.clock.prevTime
    ensures (r.0.tracks, r.0.detection)
            == LeftStep(o, cfg, s.tracks, s.prediction, removed, Scaled(cfg, width), Scaled(cfg, height))
    ensures TracksValid(r.0.tracks) && r.0.tracks.prevPts == r.0.tracks.curPts
    ensures r == Completed(o, cfg, s, t, width, height, withRight, r.0.tracks, r.0.detection)
  {
    var next, det := TrackLeft(o, s.tracks, s.prediction, removed, cfg, Scaled(cfg, width), Scaled(cfg, height));
    r := Finish(o, cfg, s, t, width, height, withRight, next, det);
  }

  /** The FeatureTracker object.  Its member variables are grouped by role
      into the records above; right holds ids_right, cur_right_pts,
      cur_un_right_pts, right_pts_velocity and cur_un_right_pts_map. */
  class FeatureTracker {
    const cfg: Config
    var clock: Clock
    var tracks: Tracks
    var removedPts: set<int>
    var prediction: Prediction
    var detection: Detection
    var left: LeftOutputs
    var right: RightTracks
    var prevUnRightPtsMap: map<int, Point2>
    var stereoCam: bool

    ghost predicate Valid()
      reads this
    {
      TracksValid(tracks)
    }

    /** The constructor: no tracks, no camera pair yet, ids start at 0 and
        there is no prediction. */
    constructor(cfg: Config)
      ensures this.cfg == cfg && !stereoCam && !prediction.hasPrediction && removedPts == {}
      ensures tracks == Tracks([], [], [], [], 0)
      ensures left.prevUnPtsMap == map[] && prevUnRightPtsMap == map[] && left.prevLeftPtsMap == map[]
      ensures Valid()
    {
      this.cfg := cfg;
      stereoCam := false;
      clock := Clock(0, 0, 0.0, 0.0);
      tracks := Tracks([], [], [], [], 0);
      removedPts := {};
      prediction := Prediction(false, [], []);
      detection := Detection([], []);
      left := LeftOutputs([], [], [], map[], map[], map[]);
      right := RightTracks([], [], [], [], map[]);
      prevUnRightPtsMap := map[];
    }

    /** setMask: the current tracks sorted by age, longest-lived first, then
        kept greedily when their id is not in removed_pts and no disk painted
        so far covers them; every kept track paints its disk.  What the kept
        tracks satisfy is SetMaskKeeps. */
    method SetMask()
      modifies this`tracks, this`detection
      requires |tracks.trackCnt| >= |tracks.curPts| && |tracks.ids| >= |tracks.curPts|
      ensures var kept := old(Select(SortByAge(Zip(tracks.trackCnt, tracks.curPts, tracks.ids)), removedPts, cfg.minDist));
        tracks == old(tracks).(curPts := PointsOf(kept), ids := IdsOf(kept), trackCnt := CountsOf(kept))
        && detection == old(detection).(mask := PointsOf(kept))
    {
      var p, i, c, m := MaskSelect(tracks.trackCnt, tracks.curPts, tracks.ids, removedPts, cfg.minDist);
      tracks := tracks.(curPts := p, ids := i, trackCnt := c);
      detection := detection.(mask := m);
    }

    /** addPoints: every new point becomes a track with the next id and age
        1, in detection order. */
    method AddPoints()
      modifies this`tracks
      ensures tracks == old(tracks.(curPts := tracks.curPts + detection.nPts,
                                    ids := tracks.ids + FreshIds(tracks.nId, |detection.nPts|),
                                    trackCnt := tracks.trackCnt + Ones(|detection.nPts|),
                                    nId := tracks.nId + |detection.nPts|))
    {
      var p, i, c, n := AppendFresh(tracks.curPts, tracks.ids, tracks.trackCnt, tracks.nId, detection.nPts);
      tracks := tracks.(curPts := p, ids := i, trackCnt := c, nId := n);
    }

    /** ptsVelocity: the id -> point map of pts filled with insert (the
        first point given for an id stays), and the velocity of each point
        against the previous map over dt = cur_time - prev_time, zero for an
        id not seen before.  With an empty previous map the result is as many
        zeros as the member cur_pts holds, not as pts holds. */
    method PtsVelocity(ids: seq<int>, pts: seq<Point2>, prevIdPts: map<int, Point2>)
      returns (velocity: seq<Point2>, curIdPts: map<int, Point2>)
      requires |pts| >= |ids|
      requires |prevIdPts| > 0 ==> |ids| >= |pts| && clock.curTime != clock.prevTime
      ensures curIdPts == FirstWins(ids, pts)
      ensures velocity == if |prevIdPts| > 0 then Velocities2(ids, pts, prevIdPts, clock.curTime - clock.prevTime)
                          else Zeros2(|tracks.curPts|)
    {
      velocity, curIdPts := IdVelocities2(ids, pts, prevIdPts, clock.curTime - clock.prevTime, |tracks.curPts|);
    }

    /** ptsVelocity3D: the same on 3D points; here the parameter cur_pts
        hides the member, so the zero branch has one entry per point given. */
    method PtsVelocity3D(ids: seq<int>, curPts: seq<Point3>, prevIdPts: map<int, Point3>)
      returns (velocity: seq<Point3>, curIdPts: map<int, Point3>)
      requires |curPts| >= |ids|
      requires |prevIdPts| > 0 ==> |ids| >= |curPts| && clock.curTime != clock.prevTime
      ensures curIdPts == FirstWins(ids, curPts)
      ensures velocity == if |prevIdPts| > 0 then Velocities3(ids, curPts, prevIdPts, clock.curTime - clock.prevTime)
                          else Zeros3(|curPts|)
    {
      velocity, curIdPts := IdVelocities3(ids, curPts, prevIdPts, clock.curTime - clock.prevTime, |curPts|);
    }

    /** setPrediction: one seed per tracked id for the next temporal flow,
        the projection (camera model spaceToPlane) of the predicted 3D point
        when there is one, else the previous position; the projections alone
        are also kept, in id order, for display. */
    method SetPrediction(predictions: map<int, Point3>, spaceToPlane: Point3 -> Point2)
      modifies this`prediction
      requires |tracks.prevPts| >= |tracks.ids|
      ensures prediction.hasPrediction
      ensures |prediction.predictPts| == |tracks.ids|
      ensures forall i :: 0 <= i < |tracks.ids| ==>
                prediction.predictPts[i] == if tracks.ids[i] in predictions then spaceToPlane(predictions[tracks.ids[i]])
                                            else tracks.prevPts[i]
      ensures prediction.predictPtsDebug == Projections(tracks.ids, predictions, spaceToPlane)
    {
      var ids, prevPts := tracks.ids, tracks.prevPts;
      var predictPts, predictPtsDebug := [], [];
      for i := 0 to |ids|
        invariant |predictPts| == i
        invariant forall k :: 0 <= k < i ==>
                    predictPts[k] == if ids[k] in predictions then spaceToPlane(predictions[ids[k]]) else prevPts[k]
        invariant predictPtsDebug == Projections(ids[..i], predictions, spaceToPlane)
      {
        assert ids[..i + 1][..i] == ids[..i];
        var id := ids[i];
        if id in predictions {
          var uv := spaceToPlane(predictions[id]);
          predictPts := predictPts + [uv];
          predictPtsDebug := predictPtsDebug + [uv];
        } else {
          predictPts := predictPts + [prevPts[i]];
        }
      }
      assert ids[..|ids|] == ids;
      prediction := Prediction(true, predictPts, predictPtsDebug);
    }

    /** removeOutliers: the tracks whose id is in the given set are dropped
        from prev_pts, ids and track_cnt in lockstep (cur_pts is left as it
        is); exactly the ids outside the set remain, and the track invariant
        is kept. */
    method RemoveOutliers(removePtsIds: set<int>)
      modifies this`tracks
      requires |tracks.prevPts| <= |tracks.ids| && |tracks.trackCnt| <= |tracks.ids|
      ensures var keep := old(NotRemovedMask(tracks.ids, removePtsIds));
        tracks == old(tracks.(prevPts := Kept(tracks.prevPts, keep), ids := Kept(tracks.ids, keep),
                              trackCnt := Kept(tracks.trackCnt, keep)))
      ensures forall x :: x in tracks.ids <==> x in old(tracks.ids) && x !in removePtsIds
      ensures old(Valid()) ==> Valid()
    {
      var tr := tracks;
      var status := NotRemovedStatus(tr.ids, removePtsIds);
      KeptNotRemoved(tr.ids, status, removePtsIds);
      if TracksValid(tr) {
        CompactionKeepsWellFormed(tr.ids, tr.trackCnt, tr.nId, status);
        KeptSameLength(tr.prevPts, tr.ids, status);
      }
      var prevPts := ReduceVector(tr.prevPts, status);
      var ids := ReduceVector(tr.ids, status);
      var trackCnt := ReduceVector(tr.trackCnt, status);
      tracks := tr.(prevPts := prevPts, ids := ids, trackCnt := trackCnt);
    }

    /** The members trackImage updates, as one value. */
    function State(): TrackerState
      reads this
    {
      TrackerState(clock, tracks, prediction, detection, left, right, prevUnRightPtsMap)
    }

    /** The end of trackImage: the new state is written back into the
        members. */
    method Commit(st: TrackerState)
      modifies this`clock, this`tracks, this`prediction, this`detection, this`left, this`right, this`prevUnRightPtsMap
      ensures State() == st
    {
      clock, tracks, prediction, detection, left, right, prevUnRightPtsMap :=
        st.clock, st.tracks, st.prediction, st.detection, st.left, st.right, st.prevUnRightPtsMap;
    }

    /** trackImage on the CPU path: one frame of width x height pixels at
        time t, with or without a right image.  The track store and the
        detection state become those LeftStep computes from the old state,
        keeping the track invariant, and the whole state and the returned
        frame are those Completed builds from the old state and the new
        store, with the stereo step only for a right image of a stereo
        rig. */
    method TrackImage(t: real, width: nat, height: nat, hasRight: bool, o: Oracles) returns (frame: FeatureFrame)
      modifies this`clock, this`tracks, this`prediction, this`detection, this`left, this`right, this`prevUnRightPtsMap
      requires Valid() && OraclesShaped(o)
      requires |left.prevUnPtsMap| > 0 || (hasRight && stereoCam && |prevUnRightPtsMap| > 0) ==> t != clock.prevTime
      ensures Valid() && tracks.prevPts == tracks.curPts
      ensures (tracks, detection) == old(LeftStep(o, cfg, tracks, prediction, removedPts, Scaled(cfg, width), Scaled(cfg, height)))
      ensures (State(), frame) == Completed(o, cfg, old(State()), t, width, height, hasRight && stereoCam, tracks, detection)
    {
      var r := TrackImageStep(o, cfg, removedPts, State(), t, width, height, hasRight && stereoCam);
      Commit(r.0);
      frame := r.1;

    }
  }
}
