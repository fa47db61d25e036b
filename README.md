# Feature-track bookkeeping of the VINS-Fisheye feature tracker

This project models the discrete bookkeeping of `FeatureTracker` in
`vins_estimator/src/featureTracker/feature_tracker.cpp`. That is the logic
around the OpenCV primitives that decides which tracks survive a frame, which
are kept under the spatial mask, which new corners become tracks with which ids
and ages, how velocities are derived from id-keyed maps, and how the per-frame
feature map (id → list of (camera, 8-vector)) is assembled.

Optical flow (`calcOpticalFlowPyrLK`), corner detection
(`goodFeaturesToTrack`), ORB detection and the camera models
(`liftProjective`, `spaceToPlane`, `undistortedPts`) are oracles. The model
takes them as function-typed parameters: the record `Tracker.Oracles`, or the
`forward`/`reverse`/`orb`/`corners` parameters. The shape predicates
(`OraclesShaped`, `FlowShaped`) say the one thing assumed of them: every flow
answers one point and one status per query point.

Modules, one per concern:

- `Geometry` — points over the reals, `cvRound`, `inBorder` and the squared
  form of `distance`.
- `Compaction` — `reduceVector`, written as a write-index loop over an array,
  and its specification `Kept`: the subsequence selected by the status, in
  order.
- `MaskSelection` — `setMask`'s age sort and greedy disk suppression.
- `Replenishment` — the `detectPoints` gate, region ORB offsets and id minting.
- `Velocity` — id → point maps built with `insert` (the first value stays) or
  `operator[]` (the last value stays), and finite-difference velocities.
- `FeatureFrames` — `setup_feature_frame` and `emplace_back` into the frame map.
- `FlowValidation` — the status loops, the survivor rule and both
  `opticalflow_track` overloads.
- `Tracker` — the `FeatureTracker` class and `trackImage`.

The class keeps the member variables grouped by role into records:

| record | members |
|---|---|
| `Clock` | row, col, cur/prev time |
| `Tracks` | prev_pts, cur_pts, ids, track_cnt, n_id |
| `Prediction` | hasPrediction, predict_pts, predict_pts_debug |
| `Detection` | mask, n_pts |
| `LeftOutputs` | undistorted points, velocities and maps |
| `RightTracks` | right-camera vectors and map |

`trackImage` is proved in four steps:

1. `TrackImageStep` computes the left-image part; its specification is the
   function `LeftStep`.
2. It then computes the outputs; their specification is `Completed`.
3. `Commit` writes the resulting state back into the members.
4. The properties of the result are lemmas about the specification functions:
   the track invariant is kept, ids are fresh, the mask is separated and age
   ordered, and the frame has the right buckets.

## Model

| member | source | states |
|---|---|---|
| `Geometry.Round` | vins_estimator/src/featureTracker/feature_tracker.cpp:19-25 | cvRound: the result is within 1/2 of its argument, and exact halves go to the even integer |
| `Geometry.InBorderBounds` | vins_estimator/src/featureTracker/feature_tracker.cpp:19-33 | a point inBorder accepts lies in [0.5, size - 1.5] on both axes, and every point strictly inside that band is accepted |
| `Geometry.InBorder` | vins_estimator/src/featureTracker/feature_tracker.cpp:19-33 | definition of the inBorder test (round, then compare with BORDER_SIZE); a point can be inBorder only in an image wider and taller than 2 BORDER_SIZE; its meaning is stated by InBorderBounds |
| `Geometry.LastColumnRejected` | vins_estimator/src/featureTracker/feature_tracker.cpp:19-33 | a point on the last pixel column is outside the 1-pixel border |
| `Geometry.SqDistance` | vins_estimator/src/featureTracker/feature_tracker.cpp:35-41 | the squared distance is non-negative and zero for identical points |
| `Geometry.SqDistanceSymmetric` | vins_estimator/src/featureTracker/feature_tracker.cpp:35-41 | distance is symmetric |
| `Geometry.SquareNonNegative` | vins_estimator/src/featureTracker/feature_tracker.cpp:35-41 | a square is non-negative (so SqDistance >= 0) |
| `Geometry.RoundTripTolerance` | vins_estimator/src/featureTracker/feature_tracker.cpp:543-551 | a round trip back to the start passes the 0.5 px test; one that misses by a pixel along an axis fails |
| `Compaction.CountTrue` | vins_estimator/src/featureTracker/feature_tracker.cpp:43-50 | the number of set status entries is at most the status length |
| `Compaction.CountTrueFull` | vins_estimator/src/featureTracker/feature_tracker.cpp:524-531 | the count equals the length exactly when every status entry is set |
| `Compaction.KeptIndices` | vins_estimator/src/featureTracker/feature_tracker.cpp:43-50 | the positions reduceVector keeps: strictly increasing, each with a set status, every set position below n included, as many as set entries |
| `Compaction.Kept` | vins_estimator/src/featureTracker/feature_tracker.cpp:43-59 | the compacted vector's length is the number of set entries among the first \|v\| |
| `Compaction.KeptAt` | vins_estimator/src/featureTracker/feature_tracker.cpp:43-59 | element k of the compacted vector is the original element at the k-th kept position: the order is kept and nothing else is |
| `Compaction.KeptLockstep` | vins_estimator/src/featureTracker/feature_tracker.cpp:347-352 | two parallel vectors compacted with one status keep equal lengths, and entry k of both comes from the same original position |
| `Compaction.KeptSameLength` | vins_estimator/src/featureTracker/feature_tracker.cpp:640-646 | parallel vectors of equal length stay of equal length after compaction |
| `Compaction.KeptMembers` | vins_estimator/src/featureTracker/feature_tracker.cpp:43-59 | an element survives compaction exactly when one of its occurrences has a set status |
| `Compaction.KeptDistinct` | vins_estimator/src/featureTracker/feature_tracker.cpp:43-59 | compaction never introduces a duplicate |
| `Compaction.KeptAll` | vins_estimator/src/featureTracker/feature_tracker.cpp:43-59 | an all-set status leaves the vector unchanged |
| `Compaction.NotRemovedMask` | vins_estimator/src/featureTracker/feature_tracker.cpp:1175-1191 | one status entry per id |
| `Compaction.NotRemovedStatus` | vins_estimator/src/featureTracker/feature_tracker.cpp:301-311 | the status loop sets entry i exactly when ids[i] is not in the removed set |
| `Compaction.KeptNotRemoved` | vins_estimator/src/featureTracker/feature_tracker.cpp:1175-1191 | filtering by that status keeps exactly the ids not in the set |
| `Compaction.KeptSnoc` | vins_estimator/src/featureTracker/feature_tracker.cpp:43-50 | visiting one more element appends it exactly when its status is set |
| `Compaction.ReduceVector` | vins_estimator/src/featureTracker/feature_tracker.cpp:43-59 | the in-place write-index loop leaves exactly Kept(v, status); it requires \|status\| >= \|v\| |
| `MaskSelection.ZipOfProjections` | vins_estimator/src/featureTracker/feature_tracker.cpp:75-78 | reading (track_cnt, point, id) back from the three projections gives the same tracks |
| `MaskSelection.Insert` | vins_estimator/src/featureTracker/feature_tracker.cpp:80-83 | inserting a track adds exactly one entry |
| `MaskSelection.InsertPermutes` | vins_estimator/src/featureTracker/feature_tracker.cpp:80-83 | insertion adds exactly the inserted track to the multiset |
| `MaskSelection.ConsDescending` | vins_estimator/src/featureTracker/feature_tracker.cpp:80-83 | a track at least as old as every entry of a descending list can go in front of it |
| `MaskSelection.HeadOldest` | vins_estimator/src/featureTracker/feature_tracker.cpp:80-83 | the head of a descending list is its oldest entry, and the rest is descending |
| `MaskSelection.InsertDescending` | vins_estimator/src/featureTracker/feature_tracker.cpp:80-83 | insertion keeps track_cnt non-increasing |
| `MaskSelection.ConsIdsDistinct` | vins_estimator/src/featureTracker/feature_tracker.cpp:80-83 | a track with a new id can go in front of a list with distinct ids |
| `MaskSelection.InsertIdsDistinct` | vins_estimator/src/featureTracker/feature_tracker.cpp:80-83 | insertion of a new id keeps ids distinct |
| `MaskSelection.SortByAge` | vins_estimator/src/featureTracker/feature_tracker.cpp:80-83 | the sort keeps the number of tracks |
| `MaskSelection.SortByAgeDescending` | vins_estimator/src/featureTracker/feature_tracker.cpp:80-83 | the sorted list has non-increasing track_cnt (the comparator a.first > b.first) |
| `MaskSelection.SortByAgePermutes` | vins_estimator/src/featureTracker/feature_tracker.cpp:80-83 | the sorted list is a permutation of the input |
| `MaskSelection.SortByAgeSorts` | vins_estimator/src/featureTracker/feature_tracker.cpp:80-83 | the sort yields a descending permutation |
| `MaskSelection.SortByAgeIdsDistinct` | vins_estimator/src/featureTracker/feature_tracker.cpp:80-83 | sorting keeps ids distinct |
| `MaskSelection.Select` | vins_estimator/src/featureTracker/feature_tracker.cpp:89-100 | every kept track is an input track whose id is not in removed_pts |
| `MaskSelection.MaskOpen` | vins_estimator/src/featureTracker/feature_tracker.cpp:92 | the mask.at(pt) == 255 test: no painted disk of radius MIN_DIST covers the point, so a point open in the mask is none of the painted centres |
| `MaskSelection.SelectStep` | vins_estimator/src/featureTracker/feature_tracker.cpp:89-100 | the next visited track is appended exactly when its id is not removed and the mask is still 255 at its point |
| `MaskSelection.ProjectionsSnoc` | vins_estimator/src/featureTracker/feature_tracker.cpp:94-96 | pushing a track pushes its point, id and track_cnt onto the three vectors |
| `MaskSelection.SelectSeparated` | vins_estimator/src/featureTracker/feature_tracker.cpp:92-97 | every kept point lies outside the MIN_DIST disk of every point kept before it |
| `MaskSelection.SelectDescending` | vins_estimator/src/featureTracker/feature_tracker.cpp:89-100 | kept tracks keep the descending age order |
| `MaskSelection.SelectIdsDistinct` | vins_estimator/src/featureTracker/feature_tracker.cpp:89-100 | kept tracks have distinct ids |
| `MaskSelection.SelectPrefix` | vins_estimator/src/featureTracker/feature_tracker.cpp:89-100 | the selection of a prefix is a prefix of the selection: later tracks never evict earlier ones |
| `MaskSelection.SelectMaximal` | vins_estimator/src/featureTracker/feature_tracker.cpp:89-100 | a non-removed track that was not kept lies within MIN_DIST of a kept point |
| `Replenishment.CDiv` | vins_estimator/src/featureTracker/feature_tracker.cpp:197-202 | C++ integer division truncates toward zero |
| `Replenishment.ReplenishGateMeaning` | vins_estimator/src/featureTracker/feature_tracker.cpp:663-667 | for MAX_CNT >= 0 the gate MAX_CNT - n > MAX_CNT / 4 opens exactly when 4n < 3 MAX_CNT |
| `Replenishment.ReplenishGateExample` | vins_estimator/src/featureTracker/feature_tracker.cpp:663-667 | with MAX_CNT 150 the gate is shut at 140 and 113 tracks and open at 112 |
| `Replenishment.ReplenishGate` | vins_estimator/src/featureTracker/feature_tracker.cpp:663-667 | definition of the gate MAX_CNT - n > MAX_CNT / 4 with truncating division; for MAX_CNT >= 0 it opens only when n < MAX_CNT; its exact meaning is stated by ReplenishGateMeaning |
| `Replenishment.FreshIds` | vins_estimator/src/featureTracker/feature_tracker.cpp:103-111 | one new id per new point |
| `Replenishment.Ones` | vins_estimator/src/featureTracker/feature_tracker.cpp:103-111 | one initial age per new point |
| `Replenishment.Shifted` | vins_estimator/src/featureTracker/feature_tracker.cpp:183-189 | shifting keeps the number of keypoints |
| `Replenishment.DetectOrbByRegion` | vins_estimator/src/featureTracker/feature_tracker.cpp:170-193 | the nested cell loops return the keypoints of every cell, column by column, each shifted by small_width * i in x and, as written, small_width * j in y |
| `Replenishment.ColumnOffsetsAgree` | vins_estimator/src/featureTracker/feature_tracker.cpp:186 | on square cells, or in a single row, the y offset small_width * j gives the same points as small_height * j |
| `Replenishment.OrbOffsetMatchesIntended` | vins_estimator/src/featureTracker/feature_tracker.cpp:218-222 | for the 4 x 4 and 4 x 1 grids detectPoints asks for, the as-written offset equals the intended one |
| `Replenishment.OrbOffsetQuirkExample` | vins_estimator/src/featureTracker/feature_tracker.cpp:186 | on a 2 x 2 grid of a wide image the as-written offset puts a keypoint outside the image |
| `Replenishment.DetectPoints` | vins_estimator/src/featureTracker/feature_tracker.cpp:196-233 | with the gate shut n_pts is empty; with it open n_pts comes from goodFeaturesToTrack for the shortfall, or from region ORB on 4 x 4 (square) or 4 x 1 cells |
| `Velocity.FirstWinsKeys` | vins_estimator/src/featureTracker/feature_tracker.cpp:1050-1054 | the map filled with insert has exactly the ids as keys |
| `Velocity.FirstWins` | vins_estimator/src/featureTracker/feature_tracker.cpp:1050-1054 | the map filled with insert has at most one entry per id; its keys and values are stated by FirstWinsKeys and FirstWinsAt |
| `Velocity.FirstWinsAt` | vins_estimator/src/featureTracker/feature_tracker.cpp:1050-1054 | with insert each id maps to the point of its first occurrence |
| `Velocity.LastWinsKeys` | vins_estimator/src/featureTracker/feature_tracker.cpp:449-455 | the map filled with operator[] has exactly the ids as keys |
| `Velocity.LastWins` | vins_estimator/src/featureTracker/feature_tracker.cpp:449-455 | the map filled with operator[] has at most one entry per id; its keys and values are stated by LastWinsKeys and LastWinsAt |
| `Velocity.LastWinsAtIndex` | vins_estimator/src/featureTracker/feature_tracker.cpp:449-455 | with operator[] an id whose last occurrence is at i maps to pts[i] |
| `Velocity.LastWinsAt` | vins_estimator/src/featureTracker/feature_tracker.cpp:449-455 | with operator[] each id maps to the point of its last occurrence |
| `Velocity.FirstWinsIsLastWins` | vins_estimator/src/featureTracker/feature_tracker.cpp:827-829 | with distinct ids insert and operator[] build the same map |
| `Velocity.PtsMap` | vins_estimator/src/featureTracker/feature_tracker.cpp:449-455 | pts_map is the operator[] map of ids and points |
| `Velocity.Velocity2RoundTrip` | vins_estimator/src/featureTracker/feature_tracker.cpp:1066-1067 | the previous point moved by velocity * dt is the current point, and an unmoved point has zero velocity |
| `Velocity.Velocity3RoundTrip` | vins_estimator/src/featureTracker/feature_tracker.cpp:1023-1025 | the same on 3D points |
| `Velocity.Velocities2` | vins_estimator/src/featureTracker/feature_tracker.cpp:1056-1074 | one velocity per point |
| `Velocity.Velocities3` | vins_estimator/src/featureTracker/feature_tracker.cpp:1012-1034 | one velocity per point |
| `Velocity.Velocities2At` | vins_estimator/src/featureTracker/feature_tracker.cpp:1056-1074 | velocity i is (pts[i] - prev[ids[i]]) / dt when the id was in the previous map, zero otherwise |
| `Velocity.Velocities3At` | vins_estimator/src/featureTracker/feature_tracker.cpp:1012-1034 | the same on 3D points |
| `Velocity.Zeros2` | vins_estimator/src/featureTracker/feature_tracker.cpp:1075-1081 | n zero velocities |
| `Velocity.Zeros3` | vins_estimator/src/featureTracker/feature_tracker.cpp:1035-1041 | n zero velocities |
| `Velocity.IdVelocities2` | vins_estimator/src/featureTracker/feature_tracker.cpp:1045-1083 | ptsVelocity's loops: cur_id_pts is the insert map of ids and points, and the velocities are Velocities2 with a non-empty previous map, zeros otherwise |
| `Velocity.IdVelocities3` | vins_estimator/src/featureTracker/feature_tracker.cpp:1001-1043 | ptsVelocity3D's loops, likewise on 3D points |
| `FeatureFrames.EmplacedList` | vins_estimator/src/featureTracker/feature_tracker.cpp:235-259 | emplacing a batch appends to each id's list exactly that id's observations of the batch, in order |
| `FeatureFrames.EmplacedKeys` | vins_estimator/src/featureTracker/feature_tracker.cpp:235-259 | an id has a list after a batch exactly when it had one or occurs in the batch |
| `FeatureFrames.EmplacedBucket` | vins_estimator/src/featureTracker/feature_tracker.cpp:235-259 | both facts together |
| `FeatureFrames.WithIdOfDistinct` | vins_estimator/src/featureTracker/feature_tracker.cpp:235-259 | with distinct ids the batch gives id i exactly observation i |
| `FeatureFrames.WithIdAbsent` | vins_estimator/src/featureTracker/feature_tracker.cpp:235-259 | an id not in the batch gets nothing |
| `FeatureFrames.PlaneObservations` | vins_estimator/src/featureTracker/feature_tracker.cpp:832-859 | one observation per tracked point |
| `FeatureFrames.SpaceObservations` | vins_estimator/src/featureTracker/feature_tracker.cpp:235-259 | one observation per tracked point |
| `FeatureFrames.AppendPlaneObservations` | vins_estimator/src/featureTracker/feature_tracker.cpp:832-859 | the assembly loop appends to each id's list the (camera, x, y, 1, u, v, vx, vy) entries of that id, in order |
| `FeatureFrames.SetupFeatureFrame` | vins_estimator/src/featureTracker/feature_tracker.cpp:235-259 | setup_feature_frame appends to each id's list its (camera, bearing, pixel, 3D velocity) entries, in order |
| `FeatureFrames.ViewObservations` | vins_estimator/src/featureTracker/feature_tracker.cpp:262-270 | one observation per point of a view |
| `FeatureFrames.SetupFeatureFrameAll` | vins_estimator/src/featureTracker/feature_tracker.cpp:262-270 | the frame holds, per id, the up-top and up-side entries as camera 0 followed by the down-top and down-side entries as camera 1, and has exactly the ids of the four views |
| `FeatureFrames.LeftThenRight` | vins_estimator/src/featureTracker/feature_tracker.cpp:831-890 | an id tracked in both cameras gets its camera-0 entry followed by its camera-1 entry |
| `FeatureFrames.LeftOnly` | vins_estimator/src/featureTracker/feature_tracker.cpp:831-859 | an id tracked only on the left gets exactly its camera-0 entry |
| `FeatureFrames.TrackFrameIds` | vins_estimator/src/featureTracker/feature_tracker.cpp:831-890 | the frame's ids are exactly the left and the right ids |
| `FeatureFrames.FrameBuckets` | vins_estimator/src/featureTracker/feature_tracker.cpp:831-890 | with right ids a distinct subset of the distinct left ids, the frame has exactly the left ids, each with one camera-0 entry and, when tracked on the right, its camera-1 entry after it |
| `FlowValidation.CountSuccess` | vins_estimator/src/featureTracker/feature_tracker.cpp:524-531 | succ_num is the number of set statuses, and it equals the length exactly when all are set |
| `FlowValidation.SuccessCountsSurvivors` | vins_estimator/src/featureTracker/feature_tracker.cpp:524-531 | succ_num is the number of points a compaction by that status keeps |
| `FlowValidation.ReverseCheck` | vins_estimator/src/featureTracker/feature_tracker.cpp:543-551 | status[i] stays set exactly when forward status, reverse status and the 0.5 px round trip all hold |
| `FlowValidation.BorderCheck` | vins_estimator/src/featureTracker/feature_tracker.cpp:640-642 | a status stays set exactly when it was set and its point is inBorder |
| `FlowValidation.StereoCheck` | vins_estimator/src/featureTracker/feature_tracker.cpp:739-751 | status[i] stays set exactly when both stereo flows succeeded, the right point is inBorder and the round trip is within 0.5 px |
| `FlowValidation.StereoSurvival` | vins_estimator/src/featureTracker/feature_tracker.cpp:739-751 | one stereo status per left point |
| `FlowValidation.StereoStatus` | vins_estimator/src/featureTracker/feature_tracker.cpp:739-751 | the stereo status is the left-to-right status, narrowed by the FLOW_BACK loop when enabled |
| `FlowValidation.StereoSurvivorsInBorder` | vins_estimator/src/featureTracker/feature_tracker.cpp:739-751 | with FLOW_BACK every kept right point is inBorder |
| `FlowValidation.StereoBorderUncheckedExample` | vins_estimator/src/featureTracker/feature_tracker.cpp:739-751 | without FLOW_BACK a right point outside the border is kept |
| `FlowValidation.IncrementAll` | vins_estimator/src/featureTracker/feature_tracker.cpp:652-653 | every track_cnt grows by exactly one |
| `FlowValidation.Survival` | vins_estimator/src/featureTracker/feature_tracker.cpp:536-553 | one temporal status per previous point |
| `FlowValidation.SurvivalStatus` | vins_estimator/src/featureTracker/feature_tracker.cpp:536-553 | the status loops compute the survivor rule: forward status, with FLOW_BACK also reverse status and round trip, and inBorder |
| `FlowValidation.Survives` | vins_estimator/src/featureTracker/feature_tracker.cpp:536-553 | definition of the survivor rule; its meaning is stated by SurvivorPassed and OutOfBorderDropped |
| `FlowValidation.SurvivorsLockstep` | vins_estimator/src/featureTracker/feature_tracker.cpp:640-646 | the tracked points, previous points and any parallel vector compacted with the survivor status have equal lengths |
| `FlowValidation.SurvivorPassed` | vins_estimator/src/featureTracker/feature_tracker.cpp:640-646 | survivor k is the same original track in every compacted vector, and it passed every test, including inBorder |
| `FlowValidation.OutOfBorderDropped` | vins_estimator/src/featureTracker/feature_tracker.cpp:640-642 | a point outside the border never survives, and no surviving point fails inBorder |
| `FlowValidation.CompactTracks` | vins_estimator/src/featureTracker/feature_tracker.cpp:347-352 | prev_pts, cur_pts, ids and (when not empty) track_cnt are each compacted with one status and stay of equal length |
| `FlowValidation.DropRemoved` | vins_estimator/src/featureTracker/feature_tracker.cpp:301-311 | the removed-id filter keeps exactly the tracks whose id is not removed, in lockstep |
| `FlowValidation.TrackSurvivors` | vins_estimator/src/featureTracker/feature_tracker.cpp:317-361 | the flow step of opticalflow_track keeps exactly the survivors, in lockstep, each age plus one |
| `FlowValidation.OpticalFlowTrack` | vins_estimator/src/featureTracker/feature_tracker.cpp:292-364 | no previous points: nothing changes; none left after the removed filter: empty outputs; otherwise the survivors of the filtered tracks in lockstep, each age plus one (track_cnt filtered with the ids, see Findings) |
| `FlowValidation.OpticalFlowTrackAsWritten` | vins_estimator/src/featureTracker/feature_tracker.cpp:366-447 | as written, the final reduceVector(track_cnt, status) reads past status exactly on the StatusOverrun inputs; with no previous points everything is returned untouched; when every id is removed prev_pts and ids become empty and track_cnt is left as it was; otherwise the survivors are those of the flow step applied to the unfiltered track_cnt, each age plus one |
| `FlowValidation.StatusOverrunExample` | vins_estimator/src/featureTracker/feature_tracker.cpp:375-385 | ids [0, 1], ages [3, 5] with id 1 removed overrun the status vector |
| `FlowValidation.NoOverrunCountsUnfiltered` | vins_estimator/src/featureTracker/feature_tracker.cpp:375-385 | off the overrun inputs, with some track left after the removal, filtering track_cnt by the removed-id status leaves it unchanged, so the as-written and the corrected versions agree there |
| `Tracker.TemporalFlow` | vins_estimator/src/featureTracker/feature_tracker.cpp:518-534 | without a prediction, or when fewer than 10 seeded statuses succeed, the unseeded three-level flow is used; with a prediction and at least 10 seeded successes the seeded flow is kept |
| `Tracker.CompactionKeepsWellFormed` | vins_estimator/src/featureTracker/feature_tracker.cpp:640-646 | compacting ids and track_cnt in lockstep keeps them equal in length, distinct, below n_id and of age >= 1 |
| `Tracker.SelectionFrom` | vins_estimator/src/featureTracker/feature_tracker.cpp:75-100 | setMask keeps distinct-id input tracks, none removed |
| `Tracker.SelectionKeepsWellFormed` | vins_estimator/src/featureTracker/feature_tracker.cpp:75-100 | setMask keeps the track invariant and only keeps ids that were tracked and not removed |
| `Tracker.FreshIdsKeepWellFormed` | vins_estimator/src/featureTracker/feature_tracker.cpp:103-111 | appending ids n_id, n_id + 1, ... with age 1 and advancing n_id keeps ids distinct and below n_id |
| `Tracker.Projections` | vins_estimator/src/featureTracker/feature_tracker.cpp:1151-1172 | at most one debug projection per tracked id |
| `Tracker.ProjectionsOfPredictedIds` | vins_estimator/src/featureTracker/feature_tracker.cpp:1151-1172 | predict_pts_debug has one entry per tracked id that has a prediction, and entry k is the projection of the k-th such id in the order of ids |
| `Tracker.TemporalFlows` | vins_estimator/src/featureTracker/feature_tracker.cpp:510-553 | the kept forward flow is TemporalFlow's, and the reverse flow runs from its points back to the previous points |
| `Tracker.StereoFlows` | vins_estimator/src/featureTracker/feature_tracker.cpp:739-743 | the stereo flow goes from the left points into the right image, and its reverse goes back |
| `Tracker.StereoTracks` | vins_estimator/src/featureTracker/feature_tracker.cpp:721-813 | ids_right, cur_right_pts and cur_un_right_pts have equal lengths, at most one per left point; right_pts_velocity has at least as many entries as ids_right and at most one per left point |
| `Tracker.StereoTracksShape` | vins_estimator/src/featureTracker/feature_tracker.cpp:799-812 | ids_right is a subset of the left ids, distinct when they are; the right map has exactly them as keys; with a non-empty previous right map there is one velocity per right id, its finite difference against that map, otherwise one zero velocity per left point |
| `Tracker.StereoStep` | vins_estimator/src/featureTracker/feature_tracker.cpp:721-813 | the stereo step computes StereoTracks |
| `Tracker.Propagate` | vins_estimator/src/featureTracker/feature_tracker.cpp:536-653 | prev_pts, cur_pts and ids become the survivors, compacted in lockstep, and each surviving track_cnt is its old value plus one |
| `Tracker.AgingKeepsWellFormed` | vins_estimator/src/featureTracker/feature_tracker.cpp:640-653 | compaction followed by aging keeps the track invariant |
| `Tracker.MaskSelect` | vins_estimator/src/featureTracker/feature_tracker.cpp:70-101 | setMask's loop leaves cur_pts, ids, track_cnt and the painted mask as the greedy selection of the age-sorted tracks |
| `Tracker.SetMaskKeeps` | vins_estimator/src/featureTracker/feature_tracker.cpp:70-101 | the tracks setMask keeps are age-descending, pairwise outside MIN_DIST, input tracks, and not removed |
| `Tracker.AppendFresh` | vins_estimator/src/featureTracker/feature_tracker.cpp:103-111 | addPoints appends the new points, ids n_id.. and ages 1, and advances n_id by their number, leaving the existing prefix unchanged |
| `Tracker.LeftStep` | vins_estimator/src/featureTracker/feature_tracker.cpp:508-677 | the left-image part leaves cur_pts, ids and track_cnt of equal length |
| `Tracker.SurvivorsWellFormed` | vins_estimator/src/featureTracker/feature_tracker.cpp:640-653 | survivors keep the track invariant, and their ids were tracked before |
| `Tracker.Survivors` | vins_estimator/src/featureTracker/feature_tracker.cpp:510-653 | there are at most as many survivors as tracked points; its meaning is stated by SurvivorsWellFormed and PropagatedSurvivors |
| `Tracker.LeftStepKeepsValid` | vins_estimator/src/featureTracker/feature_tracker.cpp:508-677 | the left-image part keeps the track invariant, and advances n_id by the number of new corners |
| `Tracker.LeftStepIds` | vins_estimator/src/featureTracker/feature_tracker.cpp:508-677 | every id is either old (tracked before, not removed, among the kept prefix) or new (n_id plus its offset among the new corners, age 1) |
| `Tracker.LeftStepBounded` | vins_estimator/src/featureTracker/feature_tracker.cpp:663-677 | with a corner detector that respects its limit, at most MAX_CNT tracks stay at most MAX_CNT |
| `Tracker.LeftStepMask` | vins_estimator/src/featureTracker/feature_tracker.cpp:658 | the mask holds the kept points, pairwise outside MIN_DIST and age-descending |
| `Tracker.LeftOutputsOf` | vins_estimator/src/featureTracker/feature_tracker.cpp:718-719 | one undistorted point and one velocity per track |
| `Tracker.LeftOutputsShape` | vins_estimator/src/featureTracker/feature_tracker.cpp:718-829 | cur_un_pts_map and prevLeftPtsMap have exactly the track ids as keys and map each id to its own point; velocities are finite differences, or zero with an empty previous map |
| `Tracker.RightStepShape` | vins_estimator/src/featureTracker/feature_tracker.cpp:799-812 | right ids are distinct left ids, and the right map has exactly them as keys |
| `Tracker.RightStep` | vins_estimator/src/featureTracker/feature_tracker.cpp:721-813 | ids_right, cur_right_pts and cur_un_right_pts have equal lengths, at most one per left id, and there are at least as many right velocities; the rest of its meaning is stated by RightStepShape |
| `Tracker.OutputFrameBuckets` | vins_estimator/src/featureTracker/feature_tracker.cpp:831-890 | the frame has exactly the left ids; a left-only id has its camera-0 entry (z = 1) alone, and an id also tracked on the right has its camera-0 entry and then its camera-1 entry |
| `Tracker.OutputFrame` | vins_estimator/src/featureTracker/feature_tracker.cpp:831-890 | definition of the frame assembly; its meaning is stated by OutputFrameBuckets |
| `Tracker.PropagatedSurvivors` | vins_estimator/src/featureTracker/feature_tracker.cpp:510-653 | the tracks the temporal step computes are the Survivors specification |
| `Tracker.TrackLeft` | vins_estimator/src/featureTracker/feature_tracker.cpp:508-677 | the temporal step, setMask and replenishment compute LeftStep, keep the invariant and leave prev_pts equal to cur_pts |
| `Tracker.Replenish` | vins_estimator/src/featureTracker/feature_tracker.cpp:663-677 | corners are requested only through the gate; new tracks have ids >= n_id and age 1; the count never passes MAX_CNT with a bounded detector |
| `Tracker.FrameOutputs` | vins_estimator/src/featureTracker/feature_tracker.cpp:718-890 | undistortion, velocities, the stereo step, pts_map and the assembly compute FrameOf |
| `Tracker.CompletedFromOutputs` | vins_estimator/src/featureTracker/feature_tracker.cpp:817-829 | the state written back from those outputs is Completed's |
| `Tracker.Completed` | vins_estimator/src/featureTracker/feature_tracker.cpp:817-829 | the new state keeps the left store and the detection state, switches hasPrediction off and sets both timestamps to the frame time; its outputs are stated by CompletedFromOutputs |
| `Tracker.Finish` | vins_estimator/src/featureTracker/feature_tracker.cpp:718-890 | the rest of trackImage keeps the left store and the detection state and computes Completed |
| `Tracker.TrackImageStep` | vins_estimator/src/featureTracker/feature_tracker.cpp:458-894 | trackImage on the state: the store is LeftStep's, valid, with prev_pts equal to cur_pts, and the new state and frame are Completed's |
| `Tracker.FeatureTracker.constructor` | vins_estimator/src/featureTracker/feature_tracker.cpp:61-67 | no tracks, n_id 0, no stereo camera, no prediction, empty previous maps |
| `Tracker.FeatureTracker.SetMask` | vins_estimator/src/featureTracker/feature_tracker.cpp:70-101 | cur_pts, ids, track_cnt and the mask become the greedy selection; nothing else changes |
| `Tracker.FeatureTracker.AddPoints` | vins_estimator/src/featureTracker/feature_tracker.cpp:103-111 | n_pts are appended as tracks with ids n_id.. and age 1, and n_id advances by \|n_pts\| |
| `Tracker.FeatureTracker.PtsVelocity` | vins_estimator/src/featureTracker/feature_tracker.cpp:1045-1083 | cur_id_pts is rebuilt with insert; the velocities are finite differences, or as many zeros as the member cur_pts holds when the previous map is empty |
| `Tracker.FeatureTracker.PtsVelocity3D` | vins_estimator/src/featureTracker/feature_tracker.cpp:1001-1043 | the same on 3D points, with one zero per point given |
| `Tracker.FeatureTracker.SetPrediction` | vins_estimator/src/featureTracker/feature_tracker.cpp:1151-1172 | hasPrediction is set; predict_pts[i] is the projection of the prediction for ids[i] when there is one, else prev_pts[i]; predict_pts_debug holds the projections alone |
| `Tracker.FeatureTracker.RemoveOutliers` | vins_estimator/src/featureTracker/feature_tracker.cpp:1175-1191 | prev_pts, ids and track_cnt are compacted in lockstep, exactly the ids outside the set remain, and the invariant is kept |
| `Tracker.FeatureTracker.Commit` | vins_estimator/src/featureTracker/feature_tracker.cpp:817-829 | the members become the computed state |
| `Tracker.FeatureTracker.TrackImage` | vins_estimator/src/featureTracker/feature_tracker.cpp:458-894 | the store and detection state become LeftStep's of the old state, the invariant is kept, and the state and frame are Completed's, with the stereo step only for a right image of a stereo rig |

## Left out

- The GPU paths (`GpuMat` upload/download, the CUDA flow and corner detector) are left out. They have the same bookkeeping as the CPU path that is modelled.
- `calcOpticalFlowPyrLK`, `goodFeaturesToTrack` and ORB `detect` are oracle parameters. Only their output shape is assumed: one point and one status per query point.
- The camera models, `undistortedPts` and `undistortedPtsTop` are oracle or opaque values. The `UNIT_SPHERE_ERROR` normalisation of the assembled 3D entries is left out too.
- Floating point is not modelled: points are reals. `distance <= 0.5` is the squared comparison with 0.25. `cvRound` is round-half-to-even.
- Image resizing and downsampling of the pixels are left out. Only the halved width and height (`Scaled`) are modelled.
- These are left out as visualisation, I/O or logging: `drawTrack`, `drawTrackImage`, `showUndistortion`, `imshow`, and the logging and timing counters.
- `rejectWithF` is left out. It is a RANSAC fundamental-matrix estimate, and its call is commented out.
- `readIntrinsicParameter` (YAML loading) is left out. The model takes `stereoCam` as a member set from outside.
- The stored images (`prev_img` and the others) are left out. Images enter only through the oracles.
- The mask raster is modelled as the list of painted disk centres.
  - A point is masked when it lies within the closed MIN_DIST disk of a painted centre.
  - The corner oracle receives the kept points in place of the raster.
  - Pixel-level rasterisation of `cv::circle` is not modelled.
- `MaskSelection.SortByAge` is one admissible order of `std::sort` (an insertion sort). `std::sort` is not stable, so its tie order is unspecified. Every property of the selection is therefore proved for any age-descending input (`SelectDescending`, `SelectSeparated`, `SelectMaximal`, `SelectPrefix`). Only `MaskSelect` and `LeftStep` fix this particular tie order.
- `Tracker.FeatureTracker.PtsVelocity`, `Tracker.FeatureTracker.PtsVelocity3D`, `Tracker.TrackImageStep` and `Tracker.FeatureTracker.TrackImage` require a non-zero time step whenever a previous map is non-empty. The source divides by `cur_time - prev_time` unchecked.
- `Tracker.FeatureTracker.TrackImage` models the CPU path of trackImage only.
  - The removed-id filter (`removed_pts`) is applied in setMask only, as in the CPU path.
  - `Tracker.FeatureTracker.Commit` states the new state as a whole value and does not restate its fields.
- `Tracker.FeatureTracker.RemoveOutliers` leaves `cur_pts` as it is, as the source does. Its invariant uses `prev_pts`, `ids` and `track_cnt` only.

## Findings

| source | as written | input that shows it | evidently intended | confidence | as-written member | corrected member |
|---|---|---|---|---|---|---|
| vins_estimator/src/featureTracker/feature_tracker.cpp:301-352 | the removed-id filter compacts `prev_pts` and `ids` but not `track_cnt` (lines 310-311 and 384-385), and after the flow `reduceVector(track_cnt, status)` runs (lines 351 and 431) with a status only as long as the filtered `prev_pts`, reading past its end | ids [0, 1], track_cnt [3, 5], removed_pts {1}: status has one entry and track_cnt two | `track_cnt` filtered together with `prev_pts` and `ids`, so that it stays parallel to them | not executed | `FlowValidation.OpticalFlowTrackAsWritten`, `FlowValidation.StatusOverrunExample` | `FlowValidation.OpticalFlowTrack` |
