/** The kd-tree histogram of a sample set, as the filter uses it: the
    poses inserted since the last pf_kdtree_clear, in insertion order, and
    leaf_count, the number of distinct cells they fall in. The cell of a
    pose is the tree's key function. */
module Histogram {
  import opened Types

  /** The occupied cells of a histogram holding the poses t. */
  function Bins(key: Pose -> BinKey, t: seq<Pose>): (bins: set<BinKey>)
    ensures forall i :: 0 <= i < |t| ==> key(t[i]) in bins
  {
    if t == [] then {} else Bins(key, t[..|t| - 1]) + {key(t[|t| - 1])}
  }

  /** Every occupied cell is the cell of an inserted pose, so with Bins's
      own contract the occupied cells are exactly the cells of the poses,
      and leaf_count is their number. */
  lemma {:induction false} BinsOnlyInserted(key: Pose -> BinKey, t: seq<Pose>, b: BinKey)
    requires b in Bins(key, t)
    ensures exists i :: 0 <= i < |t| && key(t[i]) == b
  {
    var init := t[..|t| - 1];
    if b == key(t[|t| - 1]) {
      assert key(t[|t| - 1]) == b;
    } else {
      BinsOnlyInserted(key, init, b);
      var i :| 0 <= i < |init| && key(init[i]) == b;
      assert t[i] == init[i];
    }
  }

  /** leaf_count: the number of occupied cells. */
  function LeafCount(key: Pose -> BinKey, t: seq<Pose>): nat {
    |Bins(key, t)|
  }

  /** An empty histogram has no leaves, a non-empty one at least one, and
      there are never more leaves than inserted poses. */
  lemma {:induction false} LeafCountBounds(key: Pose -> BinKey, t: seq<Pose>)
    ensures t == [] <==> LeafCount(key, t) == 0
    ensures LeafCount(key, t) <= |t|
  {
    if t != [] {
      var init := t[..|t| - 1];
      LeafCountBounds(key, init);
      assert key(t[|t| - 1]) in Bins(key, t);
      assert |Bins(key, init) + {key(t[|t| - 1])}| <= |Bins(key, init)| + 1;
    }
  }

  /** Inserting a pose adds a leaf exactly when its cell was empty. */
  lemma LeafCountInsert(key: Pose -> BinKey, t: seq<Pose>, p: Pose)
    ensures key(p) in Bins(key, t) ==> LeafCount(key, t + [p]) == LeafCount(key, t)
    ensures key(p) !in Bins(key, t) ==> LeafCount(key, t + [p]) == LeafCount(key, t) + 1
  {
    var u := t + [p];
    assert u[..|u| - 1] == t;
    assert Bins(key, u) == Bins(key, t) + {key(p)};
    if key(p) in Bins(key, t) {
      assert Bins(key, u) == Bins(key, t);
    }
  }
}
