/** The cluster table of pf_cluster_stats (pf/pf.c:1027-1111) as a
    function of the live samples and of the label the clustered kd-tree
    gives each pose: the slots are zeroed, every sample with a label below
    the table's capacity is added to its slot, and the first cluster_count
    slots are then turned from running sums into a mean and covariance. */
module Clusters {
  import opened Types

  /** cluster_max_count, the capacity of every cluster table. */
  const ClusterMaxCount: nat := 100

  /** A cluster table: the slots and cluster_count. */
  datatype Table = Table(slots: seq<Cluster>, clusterCount: int)

  /** The label pf_kdtree_get_cluster gives a pose of a histogram holding
      the poses kt. */
  function Label(tree: KdTreeModel, kt: seq<Pose>, p: Pose): nat {
    tree.clusterOf(kt, p)
  }

  /** A table of zeroed slots. */
  function ZeroTable(): (t: Table)
    ensures |t.slots| == ClusterMaxCount && t.clusterCount == 0
    ensures forall i :: 0 <= i < |t.slots| ==> t.slots[i] == EmptyCluster
  {
    Table(seq(ClusterMaxCount, _ => EmptyCluster), 0)
  }

  /** A sample added to the running sums of its cluster: one more sample,
      its weight, the weighted x, y, cos theta and sin theta, and the
      weighted products of x and y. */
  function AddSample(cl: Cluster, smp: Sample, math: MathLib): Cluster {
    var w, x, y := smp.weight, smp.pose.x, smp.pose.y;
    cl.(count := cl.count + 1, weight := cl.weight + w,
        m0 := cl.m0 + w * x, m1 := cl.m1 + w * y,
        m2 := cl.m2 + w * math.cos(smp.pose.theta), m3 := cl.m3 + w * math.sin(smp.pose.theta),
        c00 := cl.c00 + w * x * x, c01 := cl.c01 + w * x * y,
        c10 := cl.c10 + w * y * x, c11 := cl.c11 + w * y * y)
  }

  /** One step of the accumulation loop: a sample whose label is at least
      cluster_max_count is skipped; otherwise it is added to its slot and
      cluster_count grows to cover the label. */
  function Accumulate(t: Table, smp: Sample, c: nat, math: MathLib): Table
    requires |t.slots| == ClusterMaxCount
  {
    if c >= ClusterMaxCount then t
    else Table(t.slots[c := AddSample(t.slots[c], smp, math)],
               if c + 1 > t.clusterCount then c + 1 else t.clusterCount)
  }

  /** The table after the accumulation loop has seen the samples s. */
  function Gather(tree: KdTreeModel, kt: seq<Pose>, s: seq<Sample>, math: MathLib): (t: Table)
    ensures |t.slots| == ClusterMaxCount
  {
    if s == [] then ZeroTable()
    else
      Accumulate(Gather(tree, kt, s[..|s| - 1], math), s[|s| - 1], Label(tree, kt, s[|s| - 1].pose), math)
  }

  /** Running sums turned into statistics: the mean position is the
      weighted mean of x and y, the mean heading atan2 of the summed sines
      and cosines, the linear covariance E[v v'] - mean mean', and the
      angular variance -2 log of the length of the mean heading vector.
      A slot of zero weight has no defined mean in C (0/0); here the
      quotient is 0. */
  function Finish(cl: Cluster, math: MathLib): (r: Cluster)
    ensures r.count == cl.count && r.weight == cl.weight
    ensures r.m0 == cl.m0 && r.m1 == cl.m1 && r.m2 == cl.m2 && r.m3 == cl.m3
    ensures cl.weight != 0.0 ==> r.mean.x * cl.weight == cl.m0 && r.mean.y * cl.weight == cl.m1
  {
    var mx, my := Quot(cl.m0, cl.weight), Quot(cl.m1, cl.weight);
    cl.(mean := Pose(mx, my, math.atan2(cl.m3, cl.m2)),
        cov := Cov(Quot(cl.c00, cl.weight) - mx * mx, Quot(cl.c01, cl.weight) - mx * my,
                   Quot(cl.c10, cl.weight) - my * mx, Quot(cl.c11, cl.weight) - my * my,
                   -2.0 * math.log(math.sqrt(cl.m2 * cl.m2 + cl.m3 * cl.m3))))
  }

  /** The normalisation loop: the first cluster_count slots are finished. */
  function Finalize(t: Table, math: MathLib): (r: Table)
    requires |t.slots| == ClusterMaxCount
    ensures |r.slots| == ClusterMaxCount && r.clusterCount == t.clusterCount
  {
    Table(seq(ClusterMaxCount, i requires 0 <= i < ClusterMaxCount =>
                if i < t.clusterCount then Finish(t.slots[i], math) else t.slots[i]),
          t.clusterCount)
  }

  /** The table pf_cluster_stats leaves behind. */
  function ClusterTable(tree: KdTreeModel, kt: seq<Pose>, s: seq<Sample>, math: MathLib): Table
  {
    Finalize(Gather(tree, kt, s, math), math)
  }

  /** The number of samples carrying label c. */
  function CountLabel(tree: KdTreeModel, kt: seq<Pose>, s: seq<Sample>, c: int): nat {
    if s == [] then 0
    else CountLabel(tree, kt, s[..|s| - 1], c) + (if Label(tree, kt, s[|s| - 1].pose) == c then 1 else 0)
  }

  /** The summed weight of the samples carrying label c. */
  function WeightLabel(tree: KdTreeModel, kt: seq<Pose>, s: seq<Sample>, c: int): real {
    if s == [] then 0.0
    else WeightLabel(tree, kt, s[..|s| - 1], c) + (if Label(tree, kt, s[|s| - 1].pose) == c then s[|s| - 1].weight else 0.0)
  }

  /** cluster_count is one more than the largest label below
      cluster_max_count, or 0 when there is none; so it never exceeds
      cluster_max_count, and every slot from cluster_count on is still
      zero. */
  lemma {:induction false} GatherShape(tree: KdTreeModel, kt: seq<Pose>, s: seq<Sample>, math: MathLib)
    ensures var t := Gather(tree, kt, s, math);
            && 0 <= t.clusterCount <= ClusterMaxCount
            && (forall i :: 0 <= i < |s| && Label(tree, kt, s[i].pose) < ClusterMaxCount ==>
                  Label(tree, kt, s[i].pose) < t.clusterCount)
            && (t.clusterCount > 0 ==>
                  exists i :: 0 <= i < |s| && Label(tree, kt, s[i].pose) == t.clusterCount - 1)
            && (forall c :: t.clusterCount <= c < ClusterMaxCount ==> t.slots[c] == EmptyCluster)
  {
    if s != [] {
      var init := s[..|s| - 1];
      GatherShape(tree, kt, init, math);
      var t0 := Gather(tree, kt, init, math);
      var c := Label(tree, kt, s[|s| - 1].pose);
      var t := Gather(tree, kt, s, math);
      assert t == Accumulate(t0, s[|s| - 1], c, math);
      forall i | 0 <= i < |s| && Label(tree, kt, s[i].pose) < ClusterMaxCount
        ensures Label(tree, kt, s[i].pose) < t.clusterCount
      {
        if i < |s| - 1 {
          assert s[i] == init[i];
        }
      }
      if t.clusterCount > 0 {
        if c < ClusterMaxCount && c + 1 > t0.clusterCount {
          assert Label(tree, kt, s[|s| - 1].pose) == t.clusterCount - 1;
        } else {
          var i :| 0 <= i < |init| && Label(tree, kt, init[i].pose) == t0.clusterCount - 1;
          assert s[i] == init[i];
        }
      }
    }
  }

  /** The count and weight of every slot are the number and the summed
      weight of the samples carrying its label. */
  lemma {:induction false} GatherCounts(tree: KdTreeModel, kt: seq<Pose>, s: seq<Sample>, math: MathLib, c: int)
    requires 0 <= c < ClusterMaxCount
    ensures Gather(tree, kt, s, math).slots[c].count == CountLabel(tree, kt, s, c)
    ensures Gather(tree, kt, s, math).slots[c].weight == WeightLabel(tree, kt, s, c)
  {
    if s != [] {
      var init := s[..|s| - 1];
      GatherCounts(tree, kt, init, math, c);
    }
  }

  /** What pf_cluster_stats promises of its table: at most
      cluster_max_count clusters, each with the count and weight of the
      samples carrying its label, and zero slots after the last. */
  lemma ClusterTableFacts(tree: KdTreeModel, kt: seq<Pose>, s: seq<Sample>, math: MathLib)
    ensures var t := ClusterTable(tree, kt, s, math);
            && 0 <= t.clusterCount <= ClusterMaxCount
            && (forall c :: 0 <= c < ClusterMaxCount ==>
                  t.slots[c].count == CountLabel(tree, kt, s, c) && t.slots[c].weight == WeightLabel(tree, kt, s, c))
            && (forall c :: t.clusterCount <= c < ClusterMaxCount ==> t.slots[c] == EmptyCluster)
  {
    GatherShape(tree, kt, s, math);
    forall c | 0 <= c < ClusterMaxCount
      ensures Gather(tree, kt, s, math).slots[c].count == CountLabel(tree, kt, s, c)
      ensures Gather(tree, kt, s, math).slots[c].weight == WeightLabel(tree, kt, s, c)
    {
      GatherCounts(tree, kt, s, math, c);
    }
  }

  /** What a cluster query hands back: the slot's weight, mean and
      covariance; nothing (the C functions return 0); or, for the query as
      written, a read outside the table. */
  datatype Lookup = Found(weight: real, mean: Pose, cov: Cov) | NotFound | OutOfBounds

  /** pf_get_cluster_stats and pf_get_cluster_stats_set as written: only
      labels at or above cluster_count are refused, so a negative label
      reads before the start of the table. */
  function ClusterLookupAsWritten(slots: seq<Cluster>, count: int, clabel: int): (r: Lookup)
    requires |slots| == ClusterMaxCount && count <= ClusterMaxCount
    ensures r == NotFound <==> clabel >= count
    ensures r == OutOfBounds <==> clabel < 0 && clabel < count
    ensures r.Found? ==> 0 <= clabel < count && r == Found(slots[clabel].weight, slots[clabel].mean, slots[clabel].cov)
  {
    if clabel >= count then NotFound
    else if clabel < 0 then OutOfBounds
    else Found(slots[clabel].weight, slots[clabel].mean, slots[clabel].cov)
  }

  /** The cluster query with negative labels refused too: a label is found
      exactly when it names one of the first cluster_count slots, and the
      slot is copied out unchanged. */
  function ClusterLookup(slots: seq<Cluster>, count: int, clabel: int): (r: Lookup)
    requires |slots| == ClusterMaxCount && count <= ClusterMaxCount
    ensures r != OutOfBounds
    ensures r == NotFound <==> clabel < 0 || clabel >= count
    ensures r.Found? ==> r == Found(slots[clabel].weight, slots[clabel].mean, slots[clabel].cov)
  {
    if clabel < 0 || clabel >= count then NotFound
    else Found(slots[clabel].weight, slots[clabel].mean, slots[clabel].cov)
  }

  /** The two queries differ only on negative labels, which the query as
      written reads out of bounds whatever cluster_count is, even for an
      empty table. */
  lemma NegativeLabelOutOfBounds(slots: seq<Cluster>, count: int, clabel: int)
    requires |slots| == ClusterMaxCount && 0 <= count <= ClusterMaxCount
    ensures clabel >= 0 ==> ClusterLookupAsWritten(slots, count, clabel) == ClusterLookup(slots, count, clabel)
    ensures clabel < 0 ==> ClusterLookupAsWritten(slots, count, clabel) == OutOfBounds
    ensures clabel < 0 ==> ClusterLookup(slots, count, clabel) == NotFound
  {
  }
}
