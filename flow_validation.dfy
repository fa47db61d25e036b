/** The status loops that decide which tracked points survive a frame: the
    success count of the warm start, the forward-backward round-trip check,
    the border check, the stereo check and the age increment, and the
    opticalflow_track helper that strings them together. */
module FlowValidation {
  import opened Geometry
  import opened Compaction

  /** What calcOpticalFlowPyrLK writes: one point and one status per input
      point. */
  datatype Flow = Flow(pts: seq<Point2>, status: seq<bool>)

  predicate FlowShaped(f: Flow, n: nat)
  {
    |f.pts| == n && |f.status| == n
  }

  /** The succ_num loop of the warm start. */
  method CountSuccess(status: seq<bool>) returns (succNum: nat)
    ensures succNum == CountTrue(status)
    ensures succNum == |status| <==> forall i :: 0 <= i < |status| ==> status[i]
  {
    succNum := 0;
    for i := 0 to |status|
      invariant succNum == CountTrue(status[..i])
    {
      assert status[..i + 1][..i] == status[..i];
      if status[i] {
        succNum := succNum + 1;
      }
    }
    assert status[..|status|] == status;
    CountTrueFull(status);
  }

  /** The number of successes counts the points a compaction by that status
      keeps. */
  lemma SuccessCountsSurvivors<T>(v: seq<T>, status: seq<bool>)
    requires |v| == |status|
    ensures |Kept(v, status)| == CountTrue(status)
  {
    KeptAt(v, status);
    assert status[..|v|] == status;
  }

  /** The FLOW_BACK loop: status[i] stays set exactly when the forward flow,
      the reverse flow and the 0.5 px round trip all succeed. */
  method ReverseCheck(status: seq<bool>, reverseStatus: seq<bool>, prevPts: seq<Point2>, reversePts: seq<Point2>)
    returns (r: seq<bool>)
    requires |reverseStatus| >= |status| && |prevPts| >= |status| && |reversePts| >= |status|
    ensures |r| == |status|
    ensures forall i :: 0 <= i < |status| ==>
              (r[i] <==> status[i] && reverseStatus[i] && WithinRoundTrip(prevPts[i], reversePts[i]))
  {
    r := status;
    for i := 0 to |status|
      invariant |r| == |status|
      invariant forall k :: 0 <= k < i ==>
                  (r[k] <==> status[k] && reverseStatus[k] && WithinRoundTrip(prevPts[k], reversePts[k]))
      invariant forall k :: i <= k < |status| ==> r[k] == status[k]
    {
      if r[i] && reverseStatus[i] && WithinRoundTrip(prevPts[i], reversePts[i]) {
        r := r[i := true];
      } else {
        r := r[i := false];
      }
    }
  }

  /** The border loop: a set status is cleared when its point is outside the
      border; entries beyond the points are left alone. */
  method BorderCheck(status: seq<bool>, pts: seq<Point2>, width: int, height: int) returns (r: seq<bool>)
    requires |status| >= |pts|
    ensures |r| == |status|
    ensures forall i :: 0 <= i < |pts| ==> (r[i] <==> status[i] && InBorder(pts[i], width, height))
    ensures forall i :: |pts| <= i < |status| ==> r[i] == status[i]
  {
    r := status;
    for i := 0 to |pts|
      invariant |r| == |status|
      invariant forall k :: 0 <= k < i ==> (r[k] <==> status[k] && InBorder(pts[k], width, height))
      invariant forall k :: i <= k < |status| ==> r[k] == status[k]
    {
      if r[i] && !InBorder(pts[i], width, height) {
        r := r[i := false];
      }
    }
  }

  /** The stereo FLOW_BACK loop: the right point must also lie inside the
      border, and the right-to-left flow must return within 0.5 px. */
  method StereoCheck(status: seq<bool>, statusRightLeft: seq<bool>, curRightPts: seq<Point2>,
                     curPts: seq<Point2>, reverseLeftPts: seq<Point2>, width: int, height: int)
    returns (r: seq<bool>)
    requires |statusRightLeft| >= |status| && |curRightPts| >= |status|
    requires |curPts| >= |status| && |reverseLeftPts| >= |status|
    ensures |r| == |status|
    ensures forall i :: 0 <= i < |status| ==>
              (r[i] <==> status[i] && statusRightLeft[i] && InBorder(curRightPts[i], width, height)
                         && WithinRoundTrip(curPts[i], reverseLeftPts[i]))
  {
    r := status;
    for i := 0 to |status|
      invariant |r| == |status|
      invariant forall k :: 0 <= k < i ==>
                  (r[k] <==> status[k] && statusRightLeft[k] && InBorder(curRightPts[k], width, height)
                             && WithinRoundTrip(curPts[k], reverseLeftPts[k]))
      invariant forall k :: i <= k < |status| ==> r[k] == status[k]
    {
      if r[i] && statusRightLeft[i] && InBorder(curRightPts[i], width, height)
         && WithinRoundTrip(curPts[i], reverseLeftPts[i]) {
        r := r[i := true];
      } else {
        r := r[i := false];
      }
    }
  }

  /** The stereo survivor rule for left point i: the left-to-right flow
      found it and, with FLOW_BACK only, the right-to-left flow found it too,
      the right point lies inside the border and the round trip returns
      within 0.5 px. */
  predicate StereoSurvives(cur: seq<Point2>, fwd: Flow, rev: Flow, flowBack: bool, width: int, height: int, i: nat)
    requires FlowShaped(fwd, |cur|) && FlowShaped(rev, |cur|) && i < |cur|
  {
    fwd.status[i]
    && (flowBack ==> rev.status[i] && InBorder(fwd.pts[i], width, height) && WithinRoundTrip(cur[i], rev.pts[i]))
  }

  /** The stereo status as a vector. */
  function StereoSurvival(cur: seq<Point2>, fwd: Flow, rev: Flow, flowBack: bool, width: int, height: int): (s: seq<bool>)
    requires FlowShaped(fwd, |cur|) && FlowShaped(rev, |cur|)
    ensures |s| == |cur|
  {
    seq(|cur|, i requires 0 <= i < |cur| => StereoSurvives(cur, fwd, rev, flowBack, width, height, i))
  }

  /** The stereo status of trackImage: the left-to-right flow status,
      narrowed by the FLOW_BACK loop when it is enabled. */
  method StereoStatus(cur: seq<Point2>, fwd: Flow, rev: Flow, flowBack: bool, width: int, height: int)
    returns (status: seq<bool>)
    requires FlowShaped(fwd, |cur|) && FlowShaped(rev, |cur|)
    ensures status == StereoSurvival(cur, fwd, rev, flowBack, width, height)
  {
    status := fwd.status;
    if flowBack {
      status := StereoCheck(status, rev.status, fwd.pts, cur, rev.pts, width, height);
    }
  }

  /** With FLOW_BACK every right point kept lies inside the border. */
  lemma StereoSurvivorsInBorder(cur: seq<Point2>, fwd: Flow, rev: Flow, width: int, height: int)
    requires FlowShaped(fwd, |cur|) && FlowShaped(rev, |cur|)
    ensures forall p :: p in Kept(fwd.pts, StereoSurvival(cur, fwd, rev, true, width, height)) ==> InBorder(p, width, height)
  {
    var s := StereoSurvival(cur, fwd, rev, true, width, height);
    KeptMembers(fwd.pts, s);
    forall p | p in Kept(fwd.pts, s)
      ensures InBorder(p, width, height)
    {
      var i :| 0 <= i < |fwd.pts| && s[i] && fwd.pts[i] == p;
      assert StereoSurvives(cur, fwd, rev, true, width, height, i);
    }
  }

  /** Without FLOW_BACK the right points are not border-checked: a right
      point found at the image corner (outside the border) is kept. */
  lemma StereoBorderUncheckedExample()
    ensures var fwd := Flow([Point2(0.0, 0.0)], [true]);
      var s := StereoSurvival([Point2(5.0, 5.0)], fwd, fwd, false, 10, 10);
      Kept(fwd.pts, s) == [Point2(0.0, 0.0)] && !InBorder(Point2(0.0, 0.0), 10, 10)
  {
    var fwd := Flow([Point2(0.0, 0.0)], [true]);
    var s := StereoSurvival([Point2(5.0, 5.0)], fwd, fwd, false, 10, 10);
    assert StereoSurvives([Point2(5.0, 5.0)], fwd, fwd, false, 10, 10, 0);
    assert s[..1][..0] == [];
    assert s == [true];
    assert Round(0.0) == 0;
  }

  /** for (auto &n : track_cnt) n++ */
  method IncrementAll(cnt: seq<int>) returns (r: seq<int>)
    ensures |r| == |cnt|
    ensures forall i :: 0 <= i < |cnt| ==> r[i] == cnt[i] + 1
  {
    r := cnt;
    for i := 0 to |cnt|
      invariant |r| == |cnt|
      invariant forall k :: 0 <= k < i ==> r[k] == cnt[k] + 1
      invariant forall k :: i <= k < |cnt| ==> r[k] == cnt[k]
    {
      r := r[i := r[i] + 1];
    }
  }

  /** The temporal survivor rule for point i: forward success, with FLOW_BACK
      also reverse success and a round trip within 0.5 px, and the tracked
      point inside the border. */
  predicate Survives(prev: seq<Point2>, fwd: Flow, rev: Flow, flowBack: bool, width: int, height: int, i: nat)
    requires FlowShaped(fwd, |prev|) && FlowShaped(rev, |prev|) && i < |prev|
  {
    fwd.status[i]
    && (flowBack ==> rev.status[i] && WithinRoundTrip(prev[i], rev.pts[i]))
    && InBorder(fwd.pts[i], width, height)
  }

  /** The status the survivor rule leaves, as a vector. */
  function Survival(prev: seq<Point2>, fwd: Flow, rev: Flow, flowBack: bool, width: int, height: int): (s: seq<bool>)
    requires FlowShaped(fwd, |prev|) && FlowShaped(rev, |prev|)
    ensures |s| == |prev|
  {
    seq(|prev|, i requires 0 <= i < |prev| => Survives(prev, fwd, rev, flowBack, width, height, i))
  }

  /** The status loops of a temporal step compute the survivor rule. */
  method SurvivalStatus(prev: seq<Point2>, fwd: Flow, rev: Flow, flowBack: bool, width: int, height: int)
    returns (status: seq<bool>)
    requires FlowShaped(fwd, |prev|) && FlowShaped(rev, |prev|)
    ensures status == Survival(prev, fwd, rev, flowBack, width, height)
  {
    status := fwd.status;
    if flowBack {
      status := ReverseCheck(status, rev.status, prev, rev.pts);
    }
    status := BorderCheck(status, fwd.pts, width, height);
  }

  /** Compacting the tracked points, the previous points and any parallel
      vector with the survivor status keeps them in lockstep. */
  lemma SurvivorsLockstep<T>(prev: seq<Point2>, fwd: Flow, rev: Flow, flowBack: bool, width: int, height: int, v: seq<T>)
    requires FlowShaped(fwd, |prev|) && FlowShaped(rev, |prev|) && |v| == |prev|
    ensures var s := Survival(prev, fwd, rev, flowBack, width, height);
      |Kept(fwd.pts, s)| == |Kept(prev, s)| == |Kept(v, s)|
  {
    var s := Survival(prev, fwd, rev, flowBack, width, height);
    KeptSameLength(fwd.pts, prev, s);
    KeptSameLength(prev, v, s);
  }

  /** Survivor k of the compaction is track i = KeptIndices(s, n)[k] in every
      compacted vector, and it passed every test: in particular no surviving
      tracked point fails the border check. */
  lemma SurvivorPassed<T>(prev: seq<Point2>, fwd: Flow, rev: Flow, flowBack: bool, width: int, height: int,
                          v: seq<T>, k: nat)
    requires FlowShaped(fwd, |prev|) && FlowShaped(rev, |prev|) && |v| == |prev|
    requires k < |KeptIndices(Survival(prev, fwd, rev, flowBack, width, height), |prev|)|
    ensures var s := Survival(prev, fwd, rev, flowBack, width, height);
      var i := KeptIndices(s, |prev|)[k];
      i < |prev| && k < |Kept(fwd.pts, s)| && k < |Kept(prev, s)| && k < |Kept(v, s)|
      && Kept(fwd.pts, s)[k] == fwd.pts[i] && Kept(prev, s)[k] == prev[i] && Kept(v, s)[k] == v[i]
      && fwd.status[i] && InBorder(Kept(fwd.pts, s)[k], width, height)
      && (flowBack ==> rev.status[i] && WithinRoundTrip(Kept(prev, s)[k], rev.pts[i]))
  {
    var s := Survival(prev, fwd, rev, flowBack, width, height);
    KeptAt(fwd.pts, s);
    KeptAt(prev, s);
    KeptAt(v, s);
    var i := KeptIndices(s, |prev|)[k];
    assert s[i];
    assert Survives(prev, fwd, rev, flowBack, width, height, i);
  }

  /** A point that fails the border check never survives, whatever the
      flow statuses say. */
  lemma OutOfBorderDropped(prev: seq<Point2>, fwd: Flow, rev: Flow, flowBack: bool, width: int, height: int, i: nat)
    requires FlowShaped(fwd, |prev|) && FlowShaped(rev, |prev|) && i < |prev|
    requires !InBorder(fwd.pts[i], width, height)
    ensures !Survival(prev, fwd, rev, flowBack, width, height)[i]
    ensures forall p :: p in Kept(fwd.pts, Survival(prev, fwd, rev, flowBack, width, height)) ==> InBorder(p, width, height)
  {
    var s := Survival(prev, fwd, rev, flowBack, width, height);
    KeptMembers(fwd.pts, s);
  }

  /** track_cnt after the removed-id filter of opticalflow_track, filtered
      together with ids when it is not empty. */
  function FilterCounts(cnt: seq<int>, status: seq<bool>): seq<int>
    requires |cnt| == 0 || |cnt| <= |status|
  {
    if |cnt| > 0 then Kept(cnt, status) else cnt
  }

  /** The reduceVector calls after the status loops: the previous points,
      the tracked points, the ids and (when not empty) the ages compacted
      with one status. */
  method CompactTracks(prev: seq<Point2>, cur: seq<Point2>, ids: seq<int>, cnt: seq<int>, status: seq<bool>)
    returns (prevOut: seq<Point2>, curOut: seq<Point2>, idsOut: seq<int>, cntOut: seq<int>)
    requires |prev| == |cur| == |ids| == |status|
    requires |cnt| == 0 || |cnt| == |ids|
    ensures prevOut == Kept(prev, status) && curOut == Kept(cur, status) && idsOut == Kept(ids, status)
    ensures cntOut == FilterCounts(cnt, status)
    ensures |prevOut| == |curOut| == |idsOut| && (|cnt| == |ids| ==> |cntOut| == |idsOut|)
  {
    KeptSameLength(prev, ids, status);
    KeptSameLength(cur, ids, status);
    prevOut := ReduceVector(prev, status);
    curOut := ReduceVector(cur, status);
    idsOut := ReduceVector(ids, status);
    cntOut := cnt;
    if |cnt| > 0 {
      KeptSameLength(cnt, ids, status);
      cntOut := ReduceVector(cnt, status);
    }
  }

  /** The removed-id filter: the previous points, the ids and (when not
      empty) the ages of the tracks whose id is not in removed. */
  method DropRemoved(prev: seq<Point2>, ids: seq<int>, cnt: seq<int>, removed: set<int>)
    returns (prevOut: seq<Point2>, idsOut: seq<int>, cntOut: seq<int>)
    requires |prev| == |ids|
    requires |cnt| == 0 || |cnt| == |ids|
    ensures prevOut == Kept(prev, NotRemovedMask(ids, removed)) && idsOut == Kept(ids, NotRemovedMask(ids, removed))
    ensures cntOut == FilterCounts(cnt, NotRemovedMask(ids, removed))
    ensures |prevOut| == |idsOut| && (|cnt| == |ids| ==> |cntOut| == |idsOut|)
    ensures forall x :: x in idsOut <==> x in ids && x !in removed
  {
    var keep := NotRemovedStatus(ids, removed);
    KeptSameLength(prev, ids, keep);
    prevOut := ReduceVector(prev, keep);
    idsOut := ReduceVector(ids, keep);
    cntOut := cnt;
    if |cnt| > 0 {
      KeptSameLength(cnt, ids, keep);
      cntOut := ReduceVector(cnt, keep);
    }
    KeptNotRemoved(ids, keep, removed);
  }

  /** The temporal step of opticalflow_track once removed ids are gone:
      pyramid flow forward (and, with FLOW_BACK, back), the survivor rule,
      lockstep compaction and the age increment. */
  method TrackSurvivors(prev: seq<Point2>, ids: seq<int>, cnt: seq<int>, width: int, height: int, flowBack: bool,
                        forward: seq<Point2> -> Flow, reverse: seq<Point2> -> Flow)
    returns (curPts: seq<Point2>, prevOut: seq<Point2>, idsOut: seq<int>, cntOut: seq<int>)
    requires |prev| == |ids|
    requires |cnt| == 0 || |cnt| == |ids|
    requires FlowShaped(forward(prev), |prev|)
    requires FlowShaped(reverse(forward(prev).pts), |prev|)
    ensures var fwd := forward(prev);
      var s := Survival(prev, fwd, reverse(fwd.pts), flowBack, width, height);
      curPts == Kept(fwd.pts, s) && prevOut == Kept(prev, s) && idsOut == Kept(ids, s)
      && |cntOut| == |FilterCounts(cnt, s)|
      && (forall k :: 0 <= k < |cntOut| ==> cntOut[k] == FilterCounts(cnt, s)[k] + 1)
    ensures |curPts| == |prevOut| == |idsOut| && (|cnt| == |ids| ==> |cntOut| == |idsOut|)
  {
    var fwd := forward(prev);
    var rev := reverse(fwd.pts);
    var status := SurvivalStatus(prev, fwd, rev, flowBack, width, height);
    var c1;
    prevOut, curPts, idsOut, c1 := CompactTracks(prev, fwd.pts, ids, cnt, status);
    cntOut := IncrementAll(c1);
  }

  /** opticalflow_track (both overloads; they differ only in where the image
      size comes from), with the removed-id filter applied to track_cnt as
      well as to prev_pts and ids.  The pyramid flows are the oracles
      forward and reverse; the returned vectors are the updated prev_pts,
      ids and track_cnt and the tracked points. */
  method OpticalFlowTrack(prevPts: seq<Point2>, ids: seq<int>, trackCnt: seq<int>, removed: set<int>,
                          width: int, height: int, flowBack: bool,
                          forward: seq<Point2> -> Flow, reverse: seq<Point2> -> Flow)
    returns (curPts: seq<Point2>, prevOut: seq<Point2>, idsOut: seq<int>, cntOut: seq<int>)
    requires |prevPts| == |ids|
    requires |trackCnt| == 0 || |trackCnt| == |ids|
    requires forall q :: FlowShaped(forward(q), |q|)
    requires forall q :: FlowShaped(reverse(q), |q|)
    ensures |prevPts| == 0 ==> curPts == [] && prevOut == prevPts && idsOut == ids && cntOut == trackCnt
    ensures |prevPts| > 0 && |Kept(prevPts, NotRemovedMask(ids, removed))| == 0 ==>
              curPts == [] && prevOut == [] && idsOut == []
              && cntOut == FilterCounts(trackCnt, NotRemovedMask(ids, removed))
    ensures |prevPts| > 0 && |Kept(prevPts, NotRemovedMask(ids, removed))| > 0 ==>
              var keep := NotRemovedMask(ids, removed);
              var p1 := Kept(prevPts, keep);
              var fwd := forward(p1);
              var s := Survival(p1, fwd, reverse(fwd.pts), flowBack, width, height);
              curPts == Kept(fwd.pts, s) && prevOut == Kept(p1, s) && idsOut == Kept(Kept(ids, keep), s)
              && |cntOut| == |FilterCounts(FilterCounts(trackCnt, keep), s)|
              && forall k :: 0 <= k < |cntOut| ==> cntOut[k] == FilterCounts(FilterCounts(trackCnt, keep), s)[k] + 1
    ensures |prevOut| == |idsOut| && (|trackCnt| == |ids| ==> |cntOut| == |idsOut|)
  {
    if |prevPts| == 0 {
      return [], prevPts, ids, trackCnt;
    }
    var p1, i1, c1 := DropRemoved(prevPts, ids, trackCnt, removed);
    if |p1| == 0 {
      return [], p1, i1, c1;
    }
    curPts, prevOut, idsOut, cntOut := TrackSurvivors(p1, i1, c1, width, height, flowBack, forward, reverse);
  }

  /** opticalflow_track as written: track_cnt is not filtered with the
      removed-id status, so once an id is removed (and some remain) the
      final reduceVector(track_cnt, status) runs i up to |track_cnt| on a
      status of only |prev_pts| entries.  outOfRange reports exactly that
      out-of-range read.  Otherwise the survivors are those of the corrected
      model with the unfiltered track_cnt in place of the filtered one, and
      when every id is removed track_cnt is returned untouched. */
  method OpticalFlowTrackAsWritten(prevPts: seq<Point2>, ids: seq<int>, trackCnt: seq<int>, removed: set<int>,
                                   width: int, height: int, flowBack: bool,
                                   forward: seq<Point2> -> Flow, reverse: seq<Point2> -> Flow)
    returns (outOfRange: bool, curPts: seq<Point2>, prevOut: seq<Point2>, idsOut: seq<int>, cntOut: seq<int>)
    requires |prevPts| == |ids|
    requires |trackCnt| == 0 || |trackCnt| == |ids|
    requires forall q :: FlowShaped(forward(q), |q|)
    requires forall q :: FlowShaped(reverse(q), |q|)
    ensures outOfRange <==> StatusOverrun(prevPts, ids, trackCnt, removed)
    ensures |prevPts| == 0 ==> curPts == [] && prevOut == prevPts && idsOut == ids && cntOut == trackCnt
    ensures |prevPts| > 0 && |Kept(prevPts, NotRemovedMask(ids, removed))| == 0 ==>
              curPts == [] && prevOut == [] && idsOut == [] && cntOut == trackCnt
    ensures !outOfRange && |prevPts| > 0 && |Kept(prevPts, NotRemovedMask(ids, removed))| > 0 ==>
              var keep := NotRemovedMask(ids, removed);
              var p1 := Kept(prevPts, keep);
              var fwd := forward(p1);
              var s := Survival(p1, fwd, reverse(fwd.pts), flowBack, width, height);
              |trackCnt| <= |s|
              && curPts == Kept(fwd.pts, s) && prevOut == Kept(p1, s) && idsOut == Kept(Kept(ids, keep), s)
              && |cntOut| == |FilterCounts(trackCnt, s)|
              && forall k :: 0 <= k < |cntOut| ==> cntOut[k] == FilterCounts(trackCnt, s)[k] + 1
    ensures |prevOut| == |idsOut|
    ensures !outOfRange && |trackCnt| == |ids| && |Kept(prevPts, NotRemovedMask(ids, removed))| > 0 ==>
              |cntOut| == |idsOut|
  {
    outOfRange := false;
    if |prevPts| == 0 {
      return false, [], prevPts, ids, trackCnt;
    }
    var keep := NotRemovedStatus(ids, removed);
    KeptSameLength(prevPts, ids, keep);
    var p1 := ReduceVector(prevPts, keep);
    var i1 := ReduceVector(ids, keep);
    if |p1| == 0 {
      return false, [], p1, i1, trackCnt;
    }
    if |trackCnt| > |p1| {
      // reduceVector(track_cnt, status) would read status[|p1|]
      return true, [], p1, i1, trackCnt;
    }
    curPts, prevOut, idsOut, cntOut := TrackSurvivors(p1, i1, trackCnt, width, height, flowBack, forward, reverse);
  }

  /** The inputs on which the as-written reduceVector(track_cnt, status)
      reads past the end of status: some but not all ids are removed while
      track_cnt is non-empty. */
  ghost predicate StatusOverrun(prevPts: seq<Point2>, ids: seq<int>, trackCnt: seq<int>, removed: set<int>)
    requires |prevPts| == |ids|
  {
    var p1 := Kept(prevPts, NotRemovedMask(ids, removed));
    |prevPts| > 0 && 0 < |p1| < |trackCnt|
  }

  /** Away from the overrun the two versions agree on track_cnt: when some
      track survives the removal, filtering track_cnt with the removed-id
      status leaves it as it is. */
  lemma {:induction false} NoOverrunCountsUnfiltered(prevPts: seq<Point2>, ids: seq<int>, trackCnt: seq<int>, removed: set<int>)
    requires |prevPts| == |ids|
    requires |trackCnt| == 0 || |trackCnt| == |ids|
    requires |Kept(prevPts, NotRemovedMask(ids, removed))| > 0
    requires !StatusOverrun(prevPts, ids, trackCnt, removed)
    ensures FilterCounts(trackCnt, NotRemovedMask(ids, removed)) == trackCnt
  {
    var keep := NotRemovedMask(ids, removed);
    if |trackCnt| > 0 {
      assert keep[..|trackCnt|] == keep;
      assert keep[..|prevPts|] == keep;
      CountTrueFull(keep);
      KeptAll(trackCnt, keep);
    }
  }

  /** Two tracks with ids 0 and 1, ages 3 and 5, and id 1 removed: the
      as-written helper overruns its status vector. */
  lemma StatusOverrunExample()
    ensures StatusOverrun([Point2(10.0, 10.0), Point2(20.0, 20.0)], [0, 1], [3, 5], {1})
  {
    var prevPts := [Point2(10.0, 10.0), Point2(20.0, 20.0)];
    var mask := NotRemovedMask([0, 1], {1});
    assert mask == [true, false];
    assert prevPts[..1] == [Point2(10.0, 10.0)];
    assert [Point2(10.0, 10.0)][..0] == [];
    assert Kept(prevPts, mask) == [Point2(10.0, 10.0)];
  }
}
