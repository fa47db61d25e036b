/** setMask: tracks sorted by age, longest-lived first, then kept greedily
    when their id is not removed and the spatial mask is still open at their
    position; each kept track closes a disk of radius MIN_DIST. */
module MaskSelection {
  import opened Geometry

  /** One entry of cnt_pts_id: (track_cnt, (point, id)). */
  datatype Track = Track(cnt: int, pt: Point2, id: int)

  /** The parallel vectors (track_cnt, cur_pts, ids) read as a list of tracks,
      over the first |pts| entries. */
  function Zip(cnts: seq<int>, pts: seq<Point2>, ids: seq<int>): seq<Track>
    requires |cnts| >= |pts| && |ids| >= |pts|
  {
    seq(|pts|, i requires 0 <= i < |pts| => Track(cnts[i], pts[i], ids[i]))
  }

  function PointsOf(s: seq<Track>): seq<Point2>
  {
    seq(|s|, i requires 0 <= i < |s| => s[i].pt)
  }

  function IdsOf(s: seq<Track>): seq<int>
  {
    seq(|s|, i requires 0 <= i < |s| => s[i].id)
  }

  function CountsOf(s: seq<Track>): seq<int>
  {
    seq(|s|, i requires 0 <= i < |s| => s[i].cnt)
  }

  /** Zipping the three projections gives the tracks back. */
  lemma ZipOfProjections(s: seq<Track>)
    ensures Zip(CountsOf(s), PointsOf(s), IdsOf(s)) == s
  {
  }

  /** The sort comparator a.first > b.first: track_cnt non-increasing. */
  ghost predicate AgeDescending(s: seq<Track>)
  {
    forall i, j :: 0 <= i < j < |s| ==> s[i].cnt >= s[j].cnt
  }

  ghost predicate IdsDistinct(s: seq<Track>)
  {
    forall i, j :: 0 <= i < j < |s| ==> s[i].id != s[j].id
  }

  /** Insert t into a list sorted by descending age, after every entry at
      least as old as t. */
  function Insert(t: Track, r: seq<Track>): (q: seq<Track>)
    ensures |q| == |r| + 1
  {
    if |r| == 0 then [t]
    else if r[0].cnt >= t.cnt then [r[0]] + Insert(t, r[1..])
    else [t] + r
  }

  lemma {:induction false} InsertPermutes(t: Track, r: seq<Track>)
    ensures multiset(Insert(t, r)) == multiset(r) + multiset{t}
    ensures forall x :: x in Insert(t, r) <==> x == t || x in r
  {
    if |r| > 0 && r[0].cnt >= t.cnt {
      InsertPermutes(t, r[1..]);
      assert r == [r[0]] + r[1..];
    }
  }

  /** A track at least as old as every entry of a descending list can go
      in front of it. */
  lemma ConsDescending(a: Track, s: seq<Track>)
    requires AgeDescending(s)
    requires forall x :: x in s ==> a.cnt >= x.cnt
    ensures AgeDescending([a] + s)
  {
    var q := [a] + s;
    forall i, j | 0 <= i < j < |q| ensures q[i].cnt >= q[j].cnt {
      assert q[j] == s[j - 1];
      if i > 0 {
        assert q[i] == s[i - 1];
      }
    }
  }

  /** The head of a descending list is at least as old as all of it, and its
      tail is descending too. */
  lemma HeadOldest(r: seq<Track>)
    requires AgeDescending(r) && |r| > 0
    ensures forall x :: x in r ==> r[0].cnt >= x.cnt
    ensures AgeDescending(r[1..])
  {
    forall x | x in r ensures r[0].cnt >= x.cnt {
      var k :| 0 <= k < |r| && r[k] == x;
    }
    forall i, j | 0 <= i < j < |r| - 1 ensures r[1..][i].cnt >= r[1..][j].cnt {
      assert r[1..][i] == r[i + 1] && r[1..][j] == r[j + 1];
    }
  }

  lemma {:induction false} InsertDescending(t: Track, r: seq<Track>)
    requires AgeDescending(r)
    ensures AgeDescending(Insert(t, r))
  {
    if |r| == 0 {
      assert Insert(t, r) == [t];
    } else {
      HeadOldest(r);
      if r[0].cnt >= t.cnt {
        var tail := Insert(t, r[1..]);
        InsertDescending(t, r[1..]);
        InsertPermutes(t, r[1..]);
        forall x | x in tail ensures r[0].cnt >= x.cnt {
          if x != t {
            assert x in r[1..];
          }
        }
        ConsDescending(r[0], tail);
      } else {
        ConsDescending(t, r);
      }
    }
  }

  /** A track whose id no entry of a list with distinct ids has can go in
      front of it. */
  lemma ConsIdsDistinct(a: Track, s: seq<Track>)
    requires IdsDistinct(s)
    requires forall x :: x in s ==> x.id != a.id
    ensures IdsDistinct([a] + s)
  {
    var q := [a] + s;
    forall i, j | 0 <= i < j < |q| ensures q[i].id != q[j].id {
      assert q[j] == s[j - 1];
      if i > 0 {
        assert q[i] == s[i - 1];
      }
    }
  }

  lemma {:induction false} InsertIdsDistinct(t: Track, r: seq<Track>)
    requires IdsDistinct(r)
    requires forall x :: x in r ==> x.id != t.id
    ensures IdsDistinct(Insert(t, r))
  {
    if |r| == 0 {
      assert Insert(t, r) == [t];
    } else if r[0].cnt >= t.cnt {
      var tail := Insert(t, r[1..]);
      assert IdsDistinct(r[1..]) by {
        forall i, j | 0 <= i < j < |r| - 1 ensures r[1..][i].id != r[1..][j].id {
          assert r[1..][i] == r[i + 1] && r[1..][j] == r[j + 1];
        }
      }
      forall x | x in r[1..] ensures x.id != t.id {
        assert x in r;
      }
      InsertIdsDistinct(t, r[1..]);
      InsertPermutes(t, r[1..]);
      forall x | x in tail ensures x.id != r[0].id {
        if x != t {
          var k :| 0 <= k < |r| - 1 && r[1..][k] == x;
          assert r[k + 1] == x;
        }
      }
      ConsIdsDistinct(r[0], tail);
    } else {
      ConsIdsDistinct(t, r);
    }
  }

  /** std::sort of cnt_pts_id with the comparator a.first > b.first, written
      as an insertion sort.  std::sort is not stable: the source promises only
      a permutation whose track_cnt does not increase, which is all that
      SortByAgeSorts states and all that the lemmas about setMask rely on;
      the tie order this definition picks is one of those std::sort may
      produce. */
  function SortByAge(s: seq<Track>): (r: seq<Track>)
    ensures |r| == |s|
  {
    if |s| == 0 then [] else Insert(s[|s| - 1], SortByAge(s[..|s| - 1]))
  }

  lemma {:induction false} SortByAgeDescending(s: seq<Track>)
    ensures AgeDescending(SortByAge(s))
  {
    if |s| > 0 {
      SortByAgeDescending(s[..|s| - 1]);
      InsertDescending(s[|s| - 1], SortByAge(s[..|s| - 1]));
    }
  }

  lemma {:induction false} SortByAgePermutes(s: seq<Track>)
    ensures multiset(SortByAge(s)) == multiset(s)
  {
    if |s| > 0 {
      var init := s[..|s| - 1];
      var t := s[|s| - 1];
      SortByAgePermutes(init);
      InsertPermutes(t, SortByAge(init));
      assert s == init + [t];
    }
  }

  /** The sort yields a permutation whose ages do not increase. */
  lemma SortByAgeSorts(s: seq<Track>)
    ensures AgeDescending(SortByAge(s))
    ensures multiset(SortByAge(s)) == multiset(s)
  {
    SortByAgeDescending(s);
    SortByAgePermutes(s);
  }

  lemma {:induction false} SortByAgeIdsDistinct(s: seq<Track>)
    requires IdsDistinct(s)
    ensures IdsDistinct(SortByAge(s))
  {
    if |s| > 0 {
      var init := s[..|s| - 1];
      var t := s[|s| - 1];
      var sortedInit := SortByAge(init);
      assert SortByAge(s) == Insert(t, sortedInit);
      assert IdsDistinct(init) by {
        forall i, j | 0 <= i < j < |init| ensures init[i].id != init[j].id {
          assert init[i] == s[i] && init[j] == s[j];
        }
      }
      SortByAgeIdsDistinct(init);
      SortByAgeSorts(init);
      forall x | x in sortedInit ensures x.id != t.id {
        assert x in multiset(init);
        var i :| 0 <= i < |init| && init[i] == x;
        assert s[i] == x;
      }
      InsertIdsDistinct(t, sortedInit);
    }
  }

  /** The square of the suppression radius MIN_DIST. */
  function SqRadius(minDist: int): real
  {
    (minDist * minDist) as real
  }

  /** mask.at(p) == 255: no painted disk of radius minDist covers p. */
  predicate MaskOpen(mask: seq<Point2>, p: Point2, minDist: int)
    ensures MaskOpen(mask, p, minDist) ==> p !in mask
  {
    forall c :: c in mask ==> SqDistance(p, c) > SqRadius(minDist)
  }

  /** The greedy pass of setMask over an already sorted list: the tracks kept,
      in visiting order (the disks painted are exactly their points). */
  function Select(s: seq<Track>, removed: set<int>, minDist: int): (r: seq<Track>)
    ensures |r| <= |s|
    ensures forall t :: t in r ==> t in s && t.id !in removed
  {
    if |s| == 0 then []
    else
      var kept := Select(s[..|s| - 1], removed, minDist);
      var t := s[|s| - 1];
      if t.id !in removed && MaskOpen(PointsOf(kept), t.pt, minDist) then kept + [t] else kept
  }

  /** One more visited track: kept exactly when it is not removed and the
      mask is open at its position. */
  lemma SelectStep(s: seq<Track>, k: nat, removed: set<int>, minDist: int)
    requires k < |s|
    ensures var kept := Select(s[..k], removed, minDist);
      Select(s[..k + 1], removed, minDist)
      == if s[k].id !in removed && MaskOpen(PointsOf(kept), s[k].pt, minDist) then kept + [s[k]] else kept
  {
    assert s[..k + 1][..k] == s[..k];
  }

  /** The projections of a list with one more track. */
  lemma ProjectionsSnoc(s: seq<Track>, t: Track)
    ensures PointsOf(s + [t]) == PointsOf(s) + [t.pt]
    ensures IdsOf(s + [t]) == IdsOf(s) + [t.id]
    ensures CountsOf(s + [t]) == CountsOf(s) + [t.cnt]
  {
  }

  /** Every point lies more than minDist from every point before it. */
  ghost predicate Separated(r: seq<Track>, minDist: int)
  {
    forall i, j :: 0 <= i < j < |r| ==> SqDistance(r[j].pt, r[i].pt) > SqRadius(minDist)
  }

  /** Every kept point lies more than minDist (outside the mask disk) from
      every point kept before it. */
  lemma {:induction false} SelectSeparated(s: seq<Track>, removed: set<int>, minDist: int)
    ensures Separated(Select(s, removed, minDist), minDist)
  {
    if |s| > 0 {
      var kept := Select(s[..|s| - 1], removed, minDist);
      SelectSeparated(s[..|s| - 1], removed, minDist);
      var t := s[|s| - 1];
      if t.id !in removed && MaskOpen(PointsOf(kept), t.pt, minDist) {
        var r := kept + [t];
        assert Select(s, removed, minDist) == r;
        forall i, j | 0 <= i < j < |r|
          ensures SqDistance(r[j].pt, r[i].pt) > SqRadius(minDist)
        {
          if j == |kept| {
            var c := PointsOf(kept)[i];
            assert c == kept[i].pt;
            assert c in PointsOf(kept);
            assert SqDistance(t.pt, c) > SqRadius(minDist);
            assert r[j] == t && r[i] == kept[i];
          } else {
            assert r[j] == kept[j] && r[i] == kept[i];
          }
        }
      }
    }
  }

  /** Kept tracks keep the descending age order of the sorted input. */
  lemma {:induction false} SelectDescending(s: seq<Track>, removed: set<int>, minDist: int)
    requires AgeDescending(s)
    ensures AgeDescending(Select(s, removed, minDist))
  {
    if |s| > 0 {
      var init := s[..|s| - 1];
      SelectDescending(init, removed, minDist);
      var kept := Select(init, removed, minDist);
      forall x | x in kept
        ensures x.cnt >= s[|s| - 1].cnt
      {
        var i :| 0 <= i < |init| && init[i] == x;
      }
    }
  }

  /** Kept tracks have pairwise different ids when the input does. */
  lemma {:induction false} SelectIdsDistinct(s: seq<Track>, removed: set<int>, minDist: int)
    requires IdsDistinct(s)
    ensures IdsDistinct(Select(s, removed, minDist))
  {
    if |s| > 0 {
      var init := s[..|s| - 1];
      SelectIdsDistinct(init, removed, minDist);
      var kept := Select(init, removed, minDist);
      forall x | x in kept
        ensures x.id != s[|s| - 1].id
      {
        var i :| 0 <= i < |init| && init[i] == x;
      }
    }
  }

  /** The selection of a prefix is a prefix of the selection. */
  lemma {:induction false} SelectPrefix(s: seq<Track>, n: nat, removed: set<int>, minDist: int)
    requires n <= |s|
    ensures var p := Select(s[..n], removed, minDist);
      |p| <= |Select(s, removed, minDist)| && p == Select(s, removed, minDist)[..|p|]
  {
    if n < |s| {
      var init := s[..|s| - 1];
      SelectPrefix(init, n, removed, minDist);
      assert init[..n] == s[..n];
      var p := Select(s[..n], removed, minDist);
      var q := Select(init, removed, minDist);
      var r := Select(s, removed, minDist);
      assert r[..|q|] == q;
      assert q[..|p|] == p;
      assert r[..|p|] == r[..|q|][..|p|];
    } else {
      assert s[..n] == s;
    }
  }

  /** Greedy maximality: a track that is not removed and was not kept is
      covered by the disk of some kept track. */
  lemma {:induction false} SelectMaximal(s: seq<Track>, removed: set<int>, minDist: int)
    ensures var r := Select(s, removed, minDist);
      forall k :: 0 <= k < |s| && s[k].id !in removed && s[k] !in r ==>
        exists c :: c in PointsOf(r) && SqDistance(s[k].pt, c) <= SqRadius(minDist)
  {
    if |s| > 0 {
      var init := s[..|s| - 1];
      var kept := Select(init, removed, minDist);
      var r := Select(s, removed, minDist);
      SelectMaximal(init, removed, minDist);
      SelectPrefix(s, |s| - 1, removed, minDist);
      assert kept == r[..|kept|];
      forall k | 0 <= k < |s| && s[k].id !in removed && s[k] !in r
        ensures exists c :: c in PointsOf(r) && SqDistance(s[k].pt, c) <= SqRadius(minDist)
      {
        if k < |s| - 1 {
          assert init[k] == s[k];
          assert s[k] !in kept;
          var c :| c in PointsOf(kept) && SqDistance(s[k].pt, c) <= SqRadius(minDist);
          var i :| 0 <= i < |kept| && PointsOf(kept)[i] == c;
          assert PointsOf(r)[i] == c;
        } else {
          assert r == kept;
          assert !MaskOpen(PointsOf(kept), s[k].pt, minDist);
        }
      }
    }
  }
}
