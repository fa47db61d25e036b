/** Feature replenishment: the gate that decides whether new corners are
    detected, the region-partitioned ORB detection and its coordinate
    offsets, and the ids and ages given to new points. */
module Replenishment {
  import opened Geometry

  /** C++ integer division of int operands: truncation toward zero. */
  function CDiv(a: int, b: int): (q: int)
    requires b > 0
    ensures a >= 0 ==> q == a / b
    ensures a < 0 ==> q == -((-a) / b)
  {
    if a >= 0 then a / b else -((-a) / b)
  }

  /** detectPoints and trackImage detect new points only when the shortfall
      required - current exceeds a quarter of the target (C++ division). */
  predicate ReplenishGate(required: int, current: int)
    ensures required >= 0 && ReplenishGate(required, current) ==> current < required
  {
    required - current > CDiv(required, 4)
  }

  /** For a non-negative target the gate opens exactly when fewer than three
      quarters of the target are currently tracked. */
  lemma ReplenishGateMeaning(required: int, current: int)
    requires required >= 0
    ensures ReplenishGate(required, current) <==> 4 * current < 3 * required
  {
    var q := required / 4;
    assert required == 4 * q + required % 4;
  }

  /** With a target of 150 and 140 tracked (shortfall 10, threshold 37)
      nothing is detected; with 112 tracked (shortfall 38) detection runs. */
  lemma ReplenishGateExample()
    ensures !ReplenishGate(150, 140)
    ensures ReplenishGate(150, 112) && !ReplenishGate(150, 113)
  {
  }

  /** The ids addPoints hands out to n new points: n_id, n_id + 1, .... */
  function FreshIds(start: int, n: nat): (r: seq<int>)
    ensures |r| == n
  {
    seq(n, k requires 0 <= k < n => start + k)
  }

  /** The initial track_cnt of n new points. */
  function Ones(n: nat): (r: seq<int>)
    ensures |r| == n
  {
    seq(n, k requires 0 <= k < n => 1)
  }

  /** A region of interest cv::Rect(x, y, width, height). */
  datatype Rect = Rect(x: int, y: int, width: int, height: int)

  /** Region-local keypoints moved into full-image coordinates. */
  function Shifted(kpts: seq<Point2>, dx: int, dy: int): (r: seq<Point2>)
    ensures |r| == |kpts|
  {
    seq(|kpts|, k requires 0 <= k < |kpts| => Point2(kpts[k].x + dx as real, kpts[k].y + dy as real))
  }

  /** The ROI of cell (i, j) in a grid of cells of size sw x sh. */
  function CellRoi(sw: int, sh: int, i: int, j: int): Rect
  {
    Rect(sw * i, sh * j, sw, sh)
  }

  /** The points of cells (i, 0) .. (i, n - 1) of grid column i, where the
      y offset of cell (i, j) is yStep * j. */
  function ColumnPoints(orb: Rect -> seq<Point2>, sw: int, sh: int, yStep: int, i: int, n: nat): seq<Point2>
  {
    if n == 0 then []
    else ColumnPoints(orb, sw, sh, yStep, i, n - 1) + Shifted(orb(CellRoi(sw, sh, i, n - 1)), sw * i, yStep * (n - 1))
  }

  /** The points of grid columns 0 .. m - 1, each column over `rows` cells. */
  function GridPoints(orb: Rect -> seq<Point2>, sw: int, sh: int, yStep: int, rows: nat, m: nat): seq<Point2>
  {
    if m == 0 then []
    else GridPoints(orb, sw, sh, yStep, rows, m - 1) + ColumnPoints(orb, sw, sh, yStep, m - 1, rows)
  }

  /** detect_orb_by_region: the image is cut into cols x rows cells of size
      (img_cols / cols) x (img_rows / rows); ORB is run on each cell (the
      oracle orb, given the cell's ROI) and the keypoints found are shifted by
      the cell's origin, column by column.  As in the source, the y shift of
      cell (i, j) is small_width * j, not small_height * j. */
  method DetectOrbByRegion(imgCols: nat, imgRows: nat, cols: nat, rows: nat, orb: Rect -> seq<Point2>)
    returns (ret: seq<Point2>)
    requires cols > 0 && rows > 0
    ensures ret == GridPoints(orb, imgCols / cols, imgRows / rows, imgCols / cols, rows, cols)
  {
    var sw := imgCols / cols;
    var sh := imgRows / rows;
    ret := [];
    for i := 0 to cols
      invariant ret == GridPoints(orb, sw, sh, sw, rows, i)
    {
      for j := 0 to rows
        invariant ret == GridPoints(orb, sw, sh, sw, rows, i) + ColumnPoints(orb, sw, sh, sw, i, j)
      {
        var kpts := orb(Rect(sw * i, sh * j, sw, sh));
        ghost var before := ret;
        for k := 0 to |kpts|
          invariant ret == before + Shifted(kpts[..k], sw * i, sw * j)
        {
          var p := Point2(kpts[k].x + (sw * i) as real, kpts[k].y + (sw * j) as real);
          assert Shifted(kpts[..k + 1], sw * i, sw * j) == Shifted(kpts[..k], sw * i, sw * j) + [p];
          ret := ret + [p];
        }
        assert kpts[..|kpts|] == kpts;
      }
    }
  }

  /** The grid detectPoints asks for: 4 x 4 cells on a square image, a
      single row of 4 cells otherwise. */
  function OrbRows(imgCols: nat, imgRows: nat): nat
  {
    if imgCols == imgRows then 4 else 1
  }

  lemma {:induction false} ColumnOffsetsAgree(orb: Rect -> seq<Point2>, sw: int, sh: int, i: int, n: nat)
    requires sw == sh || n <= 1
    ensures ColumnPoints(orb, sw, sh, sw, i, n) == ColumnPoints(orb, sw, sh, sh, i, n)
  {
    if n > 0 {
      ColumnOffsetsAgree(orb, sw, sh, i, n - 1);
    }
  }

  /** The y-offset quirk is harmless for every grid detectPoints requests: on
      a square image the cells are square, and a single row has no y shift,
      so the points equal those with the intended offset small_height * j. */
  lemma {:induction false} OrbOffsetMatchesIntended(orb: Rect -> seq<Point2>, imgCols: nat, imgRows: nat, m: nat)
    requires m <= 4
    ensures var rows := OrbRows(imgCols, imgRows);
      GridPoints(orb, imgCols / 4, imgRows / rows, imgCols / 4, rows, m)
        == GridPoints(orb, imgCols / 4, imgRows / rows, imgRows / rows, rows, m)
  {
    var rows := OrbRows(imgCols, imgRows);
    if m > 0 {
      OrbOffsetMatchesIntended(orb, imgCols, imgRows, m - 1);
      ColumnOffsetsAgree(orb, imgCols / 4, imgRows / rows, m - 1, rows);
    }
  }

  /** On a grid the source never requests (a wide image cut into 2 x 2 cells)
      the quirk shows: a keypoint at the origin of cell (0, 1) of an 8 x 4
      image lands at y = 4, outside the image, instead of y = 2. */
  lemma OrbOffsetQuirkExample()
    ensures var orb := (r: Rect) => [Point2(0.0, 0.0)];
      GridPoints(orb, 4, 2, 4, 2, 1) == [Point2(0.0, 0.0), Point2(0.0, 4.0)]
      && GridPoints(orb, 4, 2, 2, 2, 1) == [Point2(0.0, 0.0), Point2(0.0, 2.0)]
  {
    var orb := (r: Rect) => [Point2(0.0, 0.0)];
    assert Shifted([Point2(0.0, 0.0)], 0, 0) == [Point2(0.0, 0.0)];
    assert Shifted([Point2(0.0, 0.0)], 0, 4) == [Point2(0.0, 4.0)];
    assert Shifted([Point2(0.0, 0.0)], 0, 2) == [Point2(0.0, 2.0)];
  }

  /** detectPoints: when the gate is open, goodFeaturesToTrack (the oracle
      corners, given the number of corners wanted) or region ORB on a 4 x 4
      (square image) or 4 x 1 grid; otherwise no new points. */
  method DetectPoints(required: int, current: nat, useOrb: bool, imgCols: nat, imgRows: nat,
                      corners: int -> seq<Point2>, orb: Rect -> seq<Point2>)
    returns (nPts: seq<Point2>)
    ensures !ReplenishGate(required, current) ==> nPts == []
    ensures ReplenishGate(required, current) && !useOrb ==> nPts == corners(required - current)
    ensures ReplenishGate(required, current) && useOrb ==>
              var rows := OrbRows(imgCols, imgRows);
              nPts == GridPoints(orb, imgCols / 4, imgRows / rows, imgCols / 4, rows, 4)
  {
    var lack := required - current;
    if lack > CDiv(required, 4) {
      if !useOrb {
        nPts := corners(lack);
      } else if imgCols == imgRows {
        nPts := DetectOrbByRegion(imgCols, imgRows, 4, 4, orb);
      } else {
        nPts := DetectOrbByRegion(imgCols, imgRows, 4, 1, orb);
      }
    } else {
      nPts := [];
    }
  }
}
