/** reduceVector: status-driven compaction of the tracker's parallel vectors.
    Every vector of a track set is compacted with the same status vector, so
    position k of every compacted vector still describes one and the same
    original track: the one at KeptIndices(status, n)[k]. */
module Compaction {

  /** All elements pairwise different. */
  ghost predicate Distinct<T>(s: seq<T>)
  {
    forall i, j :: 0 <= i < j < |s| ==> s[i] != s[j]
  }

  /** Number of set entries in a status vector. */
  function CountTrue(status: seq<bool>): (n: nat)
    ensures n <= |status|
  {
    if |status| == 0 then 0
    else CountTrue(status[..|status| - 1]) + (if status[|status| - 1] then 1 else 0)
  }

  /** A status vector is all set exactly when it counts its own length. */
  lemma {:induction false} CountTrueFull(status: seq<bool>)
    ensures CountTrue(status) == |status| <==> forall i :: 0 <= i < |status| ==> status[i]
  {
    if |status| > 0 {
      var init := status[..|status| - 1];
      CountTrueFull(init);
      assert forall i :: 0 <= i < |init| ==> init[i] == status[i];
    }
  }

  /** The positions below n whose status is set, in increasing order. */
  function KeptIndices(status: seq<bool>, n: nat): (r: seq<nat>)
    requires n <= |status|
    ensures |r| == CountTrue(status[..n])
    ensures forall k :: 0 <= k < |r| ==> r[k] < n && status[r[k]]
    ensures forall a, b :: 0 <= a < b < |r| ==> r[a] < r[b]
    ensures forall i :: 0 <= i < n && status[i] ==> i in r
  {
    if n == 0 then []
    else
      assert status[..n][..n - 1] == status[..n - 1];
      KeptIndices(status, n - 1) + (if status[n - 1] then [n - 1] else [])
  }

  /** What reduceVector leaves in v: the elements whose status entry is set,
      in their original order. */
  function Kept<T>(v: seq<T>, status: seq<bool>): (r: seq<T>)
    requires |v| <= |status|
    ensures |r| == CountTrue(status[..|v|])
  {
    if |v| == 0 then []
    else
      assert status[..|v|][..|v| - 1] == status[..|v| - 1];
      Kept(v[..|v| - 1], status) + (if status[|v| - 1] then [v[|v| - 1]] else [])
  }

  /** Element k of the compacted vector is the original element at the k-th
      kept position; in particular |Kept(v, status)| counts the set entries
      among the first |v| statuses. */
  lemma {:induction false} KeptAt<T>(v: seq<T>, status: seq<bool>)
    requires |v| <= |status|
    ensures |Kept(v, status)| == |KeptIndices(status, |v|)|
    ensures forall k :: 0 <= k < |Kept(v, status)| ==>
              KeptIndices(status, |v|)[k] < |v| && Kept(v, status)[k] == v[KeptIndices(status, |v|)[k]]
  {
    if |v| > 0 {
      var n := |v| - 1;
      var init := v[..n];
      KeptAt(init, status);
      var ki, kin := KeptIndices(status, n), Kept(init, status);
      var kiv, kv := KeptIndices(status, |v|), Kept(v, status);
      assert kiv == ki + (if status[n] then [n] else []);
      assert kv == kin + (if status[n] then [v[n]] else []);
      forall k | 0 <= k < |kv| ensures kiv[k] < |v| && kv[k] == v[kiv[k]] {
        if k < |kin| {
          assert kiv[k] == ki[k] && kv[k] == kin[k] && init[ki[k]] == v[ki[k]];
        }
      }
    }
  }

  /** Two vectors compacted with one status stay in lockstep: equal lengths
      in, equal lengths out, and equal positions still pair the same track. */
  lemma KeptLockstep<A, B>(a: seq<A>, b: seq<B>, status: seq<bool>)
    requires |a| == |b| <= |status|
    ensures |Kept(a, status)| == |Kept(b, status)| == |KeptIndices(status, |a|)|
    ensures forall k :: 0 <= k < |Kept(a, status)| ==>
              var i := KeptIndices(status, |a|)[k];
              i < |a| && status[i] && Kept(a, status)[k] == a[i] && Kept(b, status)[k] == b[i]
  {
    KeptAt(a, status);
    KeptAt(b, status);
  }

  /** Equal lengths in, equal lengths out. */
  lemma KeptSameLength<A, B>(a: seq<A>, b: seq<B>, status: seq<bool>)
    requires |a| == |b| <= |status|
    ensures |Kept(a, status)| == |Kept(b, status)|
  {
    KeptAt(a, status);
    KeptAt(b, status);
  }

  /** Membership: an element survives exactly when some occurrence of it has
      its status set. */
  lemma KeptMembers<T>(v: seq<T>, status: seq<bool>)
    requires |v| <= |status|
    ensures forall x :: x in Kept(v, status) <==> exists i :: 0 <= i < |v| && status[i] && v[i] == x
  {
    KeptAt(v, status);
    var idx := KeptIndices(status, |v|);
    forall x
      ensures x in Kept(v, status) <==> exists i :: 0 <= i < |v| && status[i] && v[i] == x
    {
      if x in Kept(v, status) {
        var k :| 0 <= k < |Kept(v, status)| && Kept(v, status)[k] == x;
        assert status[idx[k]] && v[idx[k]] == x;
      }
      if i :| 0 <= i < |v| && status[i] && v[i] == x {
        assert i in idx;
        var k :| 0 <= k < |idx| && idx[k] == i;
        assert Kept(v, status)[k] == x;
      }
    }
  }

  /** Compaction never introduces a duplicate. */
  lemma KeptDistinct<T>(v: seq<T>, status: seq<bool>)
    requires |v| <= |status|
    requires Distinct(v)
    ensures Distinct(Kept(v, status))
  {
    KeptAt(v, status);
  }

  /** An all-set status keeps everything. */
  lemma {:induction false} KeptAll<T>(v: seq<T>, status: seq<bool>)
    requires |v| <= |status|
    requires forall i :: 0 <= i < |v| ==> status[i]
    ensures Kept(v, status) == v
  {
    if |v| > 0 {
      KeptAll(v[..|v| - 1], status);
      assert v[..|v| - 1] + [v[|v| - 1]] == v;
    }
  }

  /** Entry i is set when ids[i] is not in the removal set. */
  function NotRemovedMask(ids: seq<int>, removed: set<int>): (status: seq<bool>)
    ensures |status| == |ids|
  {
    seq(|ids|, i requires 0 <= i < |ids| => ids[i] !in removed)
  }

  /** The status vector removeOutliers and opticalflow_track build: entry i
      is set when ids[i] is not in the removal set. */
  method NotRemovedStatus(ids: seq<int>, removed: set<int>) returns (status: seq<bool>)
    ensures |status| == |ids|
    ensures forall i :: 0 <= i < |ids| ==> (status[i] <==> ids[i] !in removed)
    ensures status == NotRemovedMask(ids, removed)
  {
    status := [];
    for i := 0 to |ids|
      invariant |status| == i
      invariant forall k :: 0 <= k < i ==> (status[k] <==> ids[k] !in removed)
    {
      if ids[i] !in removed {
        status := status + [true];
      } else {
        status := status + [false];
      }
    }
  }

  /** Filtering by a removal set keeps exactly the ids that are not in it. */
  lemma KeptNotRemoved(ids: seq<int>, status: seq<bool>, removed: set<int>)
    requires |status| == |ids|
    requires forall i :: 0 <= i < |ids| ==> (status[i] <==> ids[i] !in removed)
    ensures forall x :: x in Kept(ids, status) <==> x in ids && x !in removed
  {
    KeptMembers(ids, status);
  }

  /** Compacting one more element appends it exactly when its status is
      set. */
  lemma KeptSnoc<T>(v: seq<T>, status: seq<bool>, i: nat)
    requires i < |v| <= |status|
    ensures Kept(v[..i + 1], status) == Kept(v[..i], status) + (if status[i] then [v[i]] else [])
  {
    assert v[..i + 1][..i] == v[..i];
  }

  /** reduceVector (both overloads): the write-index loop v[j++] = v[i] over
      the first |v| statuses, then the resize to j. */
  method ReduceVector<T>(v: seq<T>, status: seq<bool>) returns (r: seq<T>)
    requires |status| >= |v|
    ensures r == Kept(v, status)
  {
    var a := new T[|v|](i requires 0 <= i < |v| => v[i]);
    var j := 0;
    for i := 0 to |v|
      invariant j <= i
      invariant a[..j] == Kept(v[..i], status)
      invariant forall k :: i <= k < |v| ==> a[k] == v[k]
    {
      KeptSnoc(v, status, i);
      if status[i] {
        a[j] := a[i];
        j := j + 1;
      }
    }
    assert v[..|v|] == v;
    r := a[..j];
  }
}
