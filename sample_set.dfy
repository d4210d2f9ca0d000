/** A sample set of the filter, pf_sample_set_t: a fixed array of samples
    of which the first sample_count are live, the kd-tree histogram of the
    poses inserted since it was last cleared, and a cluster table of
    cluster_max_count slots of which the first cluster_count are in use. */
module SampleSets {
  import opened Types
  import opened Weights
  import opened Clusters
  import opened Histogram
  import opened KldLimit
  import opened Draws
  import opened Proposals
  import opened Hypotheses

  /** The number of poses pf_update_resample_map adds after drawing
      `drawn` samples: none unless fewer than min_samples + 10 were drawn,
      and then up to 100 but never past max_samples. */
  function BackfillCount(drawn: int, minSamples: int, maxSamples: int): (r: nat)
    requires drawn <= maxSamples
    ensures r <= 100 && drawn + r <= maxSamples
    ensures drawn >= minSamples + 10 ==> r == 0
    ensures drawn < minSamples + 10 ==> r == 100 || drawn + r == maxSamples
  {
    if drawn < minSamples + 10 then Min(100, maxSamples - drawn) else 0
  }

  lemma ConcatAssoc<T>(a: seq<T>, b: seq<T>, c: seq<T>)
    ensures (a + b) + c == a + (b + c)
  {
  }

  /** The first n values of a pose source: the draws of the Gaussian of
      pf_init, or the results of the init callback of pf_init_model. */
  function Series(f: nat -> Pose, n: nat): (ps: seq<Pose>)
    ensures |ps| == n
    ensures forall i :: 0 <= i < n ==> ps[i] == f(i)
  {
    seq(n, i requires 0 <= i < n => f(i))
  }

  /** The poses pf_update_resample_map leaves in the new set: at most cap
      draws from src, then the map-wide backfill. */
  ghost function MapResampled(p: KldParams, key: Pose -> BinKey, src: seq<Pose>, m: GridMap, rng: Rng, cap: int,
                              minSamples: int, maxSamples: int): seq<Pose>
    requires p.popErr != 0.0 && PicksBelow(rng.pick, cap, |src|) && cap <= maxSamples && 0 <= maxSamples
    requires AllFillable(m, rng, MapWide(false),
               BackfillCount(|Resampled(p, key, src, rng.pick, cap)|, minSamples, maxSamples))
  {
    var drawn := Resampled(p, key, src, rng.pick, cap);
    drawn + Sampled(m, rng, MapWide(false), BackfillCount(|drawn|, minSamples, maxSamples))
  }

  /** The poses pf_update_resample_hyps leaves in the new set: at most cap
      draws from src, then each hypothesis's share of the room left as
      tries. */
  function HypsResampled(p: KldParams, key: Pose -> BinKey, src: seq<Pose>, m: GridMap, hyps: seq<Hyp>, rng: Rng,
                         cap: int, nParticle: int, maxSamples: int): seq<Pose>
    requires p.popErr != 0.0 && PicksBelow(rng.pick, cap, |src|) && cap <= maxSamples && 0 <= maxSamples
    requires |hyps| >= 1
  {
    var drawn := Resampled(p, key, src, rng.pick, cap);
    drawn + HypsRun(m, hyps, rng, |hyps|, HypShare(|drawn|, maxSamples, nParticle, |hyps|))
  }

  /** The poses pf_update_resample_hyps_2 leaves in the current set before
      drawing from it: its live poses src, then, for each hypothesis, the
      kept tries of an even share of the room left up to maxSamples. */
  function Injected(src: seq<Pose>, m: GridMap, hyps: seq<Hyp>, rng: Rng, maxSamples: int): seq<Pose>
    requires |hyps| >= 1
  {
    src + HypsRun(m, hyps, rng, |hyps|, CDiv(maxSamples - |src|, |hyps|))
  }

  /** The poses pf_update_resample_hyps_3 leaves in the new set: at most
      nReq draws from src, then every hypothesis's block carried over, the
      room left up to maxSamples shared among the hypotheses. */
  function BlockResampled(p: KldParams, key: Pose -> BinKey, src: seq<Pose>, pick: nat -> nat, m: GridMap,
                          hyps: seq<Hyp>, rng: Rng, nReq: int, maxSamples: int, fuel: nat): seq<Pose>
    requires p.popErr != 0.0 && PicksBelow(pick, nReq, |src|) && |hyps| >= 1
  {
    Resampled(p, key, src, pick, nReq) + Blocks(p, key, m, hyps, rng, |hyps|, CDiv(maxSamples - nReq, |hyps|), fuel)
  }

  /** The block pf_update_resample_hyps_3 leaves in its scratch set: the
      last hypothesis's. */
  function LastBlock(p: KldParams, key: Pose -> BinKey, m: GridMap, hyps: seq<Hyp>, rng: Rng, nReq: int,
                     maxSamples: int, fuel: nat): seq<Pose>
    requires p.popErr != 0.0 && |hyps| >= 1
  {
    Block(p, key, m, hyps, rng, |hyps| - 1, CDiv(maxSamples - nReq, |hyps|), fuel)
  }

  class SampleSet {
    const samples: array<Sample>
    var sampleCount: int
    var kdtree: seq<Pose>
    const clusters: array<Cluster>
    var clusterCount: int

    ghost predicate Valid()
      reads this
    {
      && 0 <= sampleCount <= samples.Length
      && clusters.Length == ClusterMaxCount
      && 0 <= clusterCount <= ClusterMaxCount
    }

    /** The cluster table holds the statistics of the live samples. */
    ghost predicate Clustered(tree: KdTreeModel, math: MathLib)
      reads this, samples, clusters
      requires Valid()
    {
      && clusters[..] == ClusterTable(tree, kdtree, Live(), math).slots
      && clusterCount == ClusterTable(tree, kdtree, Live(), math).clusterCount
    }

    /** The live samples. */
    function Live(): (s: seq<Sample>)
      reads this, samples
      requires Valid()
      ensures |s| == sampleCount
    {
      samples[..sampleCount]
    }

    /** One set as pf_alloc builds it: max_samples samples at the origin,
        each of weight 1/max_samples, an empty histogram and an empty,
        zeroed cluster table. */
    constructor(maxSamples: nat)
      ensures Valid() && fresh(samples) && fresh(clusters)
      ensures samples.Length == maxSamples && sampleCount == maxSamples
      ensures forall i :: 0 <= i < maxSamples ==> samples[i] == Sample(Origin, 1.0 / maxSamples as real)
      ensures Uniform(Live())
      ensures kdtree == [] && clusterCount == 0
      ensures clusters[..] == ZeroTable().slots
    {
      var arr := new Sample[maxSamples];
      var i := 0;
      while i < maxSamples
        invariant 0 <= i <= maxSamples
        invariant forall k :: 0 <= k < i ==> arr[k] == Sample(Origin, 1.0 / maxSamples as real)
      {
        arr[i] := Sample(Origin, 1.0 / maxSamples as real);
        i := i + 1;
      }
      samples := arr;
      sampleCount := maxSamples;
      kdtree := [];
      clusters := new Cluster[ClusterMaxCount](_ => EmptyCluster);
      clusterCount := 0;
    }

    /** One more live sample of weight 1.0 at p, written into the first
        free slot; it is inserted into the histogram when track holds. The
        slots past it are left as they were. */
    method Append(p: Pose, track: bool)
      requires Valid() && sampleCount < samples.Length
      modifies this`sampleCount, this`kdtree, samples
      ensures Valid() && sampleCount == old(sampleCount) + 1
      ensures samples[sampleCount..] == old(samples[..])[sampleCount..]
      ensures Live() == old(Live()) + [Sample(p, 1.0)]
      ensures track ==> kdtree == old(kdtree) + [p]
      ensures !track ==> kdtree == old(kdtree)
    {
      samples[sampleCount] := Sample(p, 1.0);
      sampleCount := sampleCount + 1;
      if track {
        kdtree := kdtree + [p];
      }
      assert Live() == old(Live()) + [Sample(p, 1.0)] by {
        assert Live() == samples[..sampleCount - 1] + [samples[sampleCount - 1]];
      }
    }

    /** The draw loop every resampler starts with, filling this set from
        the live samples of a: the set is emptied and its histogram
        cleared, and it receives copies (weight 1.0) of the poses of the
        picked samples until it holds cap samples or more than the KLD
        limit for its histogram's leaf count. total is the weight added. */
    method DrawFrom(a: SampleSet, p: KldParams, key: Pose -> BinKey, cap: int, pick: nat -> nat) returns (total: real)
      requires Valid() && a.Valid() && a != this && a.samples != samples
      requires p.popErr != 0.0 && cap <= samples.Length
      requires ValidPicks(a.Live(), pick, cap)
      modifies this`sampleCount, this`kdtree, samples
      ensures Valid()
      ensures kdtree == Resampled(p, key, Poses(a.Live()), pick, cap)
      ensures Live() == Fresh(kdtree)
      ensures total == sampleCount as real
    {
      ghost var src := Poses(a.Live());
      kdtree := [];
      sampleCount := 0;
      total := 0.0;
      while sampleCount < cap
        invariant Valid() && (sampleCount <= cap || sampleCount == 0)
        invariant kdtree == Drawn(src, pick, sampleCount)
        invariant Live() == Fresh(kdtree)
        invariant DrawCount(p, key, src, pick, cap, sampleCount) == DrawCount(p, key, src, pick, cap, 0)
        invariant total == sampleCount as real
      {
        var stop := DrawNext(a, p, key, src, pick, cap);
        total := total + 1.0;
        if stop {
          break;
        }
      }
    }

    /** One pass of the draw loop: the pose of the sample the next draw
        picks is copied in with weight 1.0 and inserted into the
        histogram; stop is the KLD test on the grown histogram, and the
        count the loop ends with is reached now exactly when it holds. */
    method DrawNext(a: SampleSet, p: KldParams, key: Pose -> BinKey, ghost src: seq<Pose>, pick: nat -> nat, cap: int)
      returns (stop: bool)
      requires Valid() && a.Valid() && a != this && a.samples != samples && p.popErr != 0.0
      requires src == Poses(a.Live()) && PicksBelow(pick, cap, |src|)
      requires sampleCount < cap <= samples.Length
      requires kdtree == Drawn(src, pick, sampleCount) && Live() == Fresh(kdtree)
      modifies this`sampleCount, this`kdtree, samples
      ensures Valid() && sampleCount == old(sampleCount) + 1
      ensures kdtree == Drawn(src, pick, sampleCount) && Live() == Fresh(kdtree)
      ensures stop == Enough(p, key, src, pick, sampleCount)
      ensures stop ==> DrawCount(p, key, src, pick, cap, old(sampleCount)) == sampleCount
      ensures !stop ==> DrawCount(p, key, src, pick, cap, old(sampleCount))
                        == DrawCount(p, key, src, pick, cap, sampleCount)
    {
      ghost var n: nat := sampleCount;
      DrawStep(p, key, src, pick, cap, n);
      FreshAppend(kdtree, src[pick(n)]);
      var i := pick(sampleCount);
      Append(a.samples[i].pose, true);
      stop := sampleCount > ResampleLimit(p, LeafCount(key, kdtree));
    }

    /** The normalisation loop: every live weight divided by t; nothing
        else changes. */
    method NormalizeBy(t: real)
      requires Valid() && (sampleCount == 0 || t != 0.0)
      modifies samples
      ensures Live() == Divided(old(Live()), t)
      ensures samples[sampleCount..] == old(samples[sampleCount..])
    {
      var i := 0;
      while i < sampleCount
        invariant 0 <= i <= sampleCount
        invariant samples[..i] == Divided(old(Live()), t)[..i]
        invariant samples[i..] == old(samples[i..])
      {
        samples[i] := Sample(samples[i].pose, samples[i].weight / t);
        assert samples[i + 1..] == old(samples[i + 1..]) by {
          assert samples[i + 1..] == samples[i..][1..];
        }
        i := i + 1;
      }
    }

    /** Clear the histogram and insert every live pose, as
        pf_update_action_update_cluster and pf_cluster_set do. */
    method RebuildTree()
      requires Valid()
      modifies this`kdtree
      ensures kdtree == Poses(Live())
    {
      kdtree := [];
      var i := 0;
      while i < sampleCount
        invariant 0 <= i <= sampleCount
        invariant kdtree == Poses(Live()[..i])
      {
        assert Live()[..i + 1] == Live()[..i] + [samples[i]];
        kdtree := kdtree + [samples[i].pose];
        i := i + 1;
      }
      assert Live()[..sampleCount] == Live();
    }

    /** pf_cluster_stats: the table is zeroed, every live sample is added
        to the slot of its label (labels at or above cluster_max_count are
        skipped), and the used slots are turned into means and
        covariances. The histogram must hold exactly the live poses, so
        that every sample has a cluster label (pf_cluster_stats asserts the
        label is not negative, which is what the tree returns for a pose it
        does not hold). */
    method ClusterStats(tree: KdTreeModel, math: MathLib)
      requires Valid() && kdtree == Poses(Live())
      modifies this`clusterCount, clusters
      ensures Valid()
      ensures clusters[..] == ClusterTable(tree, kdtree, Live(), math).slots
      ensures clusterCount == ClusterTable(tree, kdtree, Live(), math).clusterCount
    {
      ZeroClusters();
      GatherClusters(tree, math);
      FinishClusters(math);
    }

    /** The first loop of pf_cluster_stats: no clusters, every slot zero. */
    method ZeroClusters()
      requires Valid()
      modifies this`clusterCount, clusters
      ensures Valid()
      ensures clusters[..] == ZeroTable().slots && clusterCount == 0
    {
      clusterCount := 0;
      var i := 0;
      while i < ClusterMaxCount
        invariant 0 <= i <= ClusterMaxCount
        invariant forall k :: 0 <= k < i ==> clusters[k] == EmptyCluster
        invariant clusterCount == 0
      {
        clusters[i] := EmptyCluster;
        i := i + 1;
      }
    }

    /** The accumulation loop of pf_cluster_stats, from a zeroed table. */
    method GatherClusters(tree: KdTreeModel, math: MathLib)
      requires Valid() && kdtree == Poses(Live())
      requires clusters[..] == ZeroTable().slots && clusterCount == 0
      modifies this`clusterCount, clusters
      ensures Valid()
      ensures clusters[..] == Gather(tree, kdtree, Live(), math).slots
      ensures clusterCount == Gather(tree, kdtree, Live(), math).clusterCount
    {
      ghost var s := Live();
      var i := 0;
      assert s[..0] == [];
      while i < sampleCount
        invariant 0 <= i <= sampleCount
        invariant clusters[..] == Gather(tree, kdtree, s[..i], math).slots
        invariant clusterCount == Gather(tree, kdtree, s[..i], math).clusterCount
      {
        assert s[..i + 1][..i] == s[..i];
        var smp := samples[i];
        var c := tree.clusterOf(kdtree, smp.pose);
        if c < ClusterMaxCount {
          if c + 1 > clusterCount {
            clusterCount := c + 1;
          }
          clusters[c] := AddSample(clusters[c], smp, math);
        }
        i := i + 1;
      }
      assert s[..sampleCount] == s;
      GatherShape(tree, kdtree, s, math);
    }

    /** The normalisation loop of pf_cluster_stats: the used slots are
        finished. */
    method FinishClusters(math: MathLib)
      requires Valid()
      modifies clusters
      ensures clusters[..] == Finalize(Table(old(clusters[..]), clusterCount), math).slots
    {
      ghost var g := clusters[..];
      var i := 0;
      while i < clusterCount
        invariant 0 <= i <= clusterCount
        invariant forall k :: 0 <= k < ClusterMaxCount ==> clusters[k] == if k < i then Finish(g[k], math) else g[k]
      {
        clusters[i] := Finish(clusters[i], math);
        i := i + 1;
      }
      ghost var f := Finalize(Table(g, clusterCount), math).slots;
      assert forall k :: 0 <= k < ClusterMaxCount ==> clusters[k] == f[k];
      assert clusters[..] == f;
    }

    /** pf_cluster_set: a fresh histogram of the live poses and fresh
        cluster statistics. */
    method ClusterSet(tree: KdTreeModel, math: MathLib)
      requires Valid()
      modifies this`kdtree, this`clusterCount, clusters
      ensures Valid() && kdtree == Poses(Live())
      ensures clusters[..] == ClusterTable(tree, kdtree, Live(), math).slots
      ensures clusterCount == ClusterTable(tree, kdtree, Live(), math).clusterCount
    {
      clusterCount := 0;
      RebuildTree();
      ClusterStats(tree, math);
    }

    /** The accumulation loop of pf_get_cep_stats: the total weight and
        the weighted sums of x, y and x*x + y*y of the live samples. */
    method Moments() returns (mn: real, mx: real, my: real, mrr: real)
      requires Valid()
      ensures mn == TotalWeight(Live()) && mx == MomentX(Live())
      ensures my == MomentY(Live()) && mrr == MomentRR(Live())
    {
      ghost var live := Live();
      mn, mx, my, mrr := 0.0, 0.0, 0.0, 0.0;
      var i := 0;
      while i < sampleCount
        invariant 0 <= i <= sampleCount
        invariant mn == TotalWeight(live[..i]) && mx == MomentX(live[..i])
        invariant my == MomentY(live[..i]) && mrr == MomentRR(live[..i])
      {
        assert live[..i + 1][..i] == live[..i];
        var smp := samples[i];
        mn := mn + smp.weight;
        mx := mx + smp.weight * smp.pose.x;
        my := my + smp.weight * smp.pose.y;
        mrr := mrr + smp.weight * smp.pose.x * smp.pose.x;
        mrr := mrr + smp.weight * smp.pose.y * smp.pose.y;
        i := i + 1;
      }
      assert live[..sampleCount] == live;
    }

    /** pf_get_cluster_stats_set, with negative labels refused. */
    method GetClusterStatsSet(clabel: int) returns (r: Lookup)
      requires Valid()
      ensures r == ClusterLookup(clusters[..], clusterCount, clabel)
      ensures r == NotFound <==> clabel < 0 || clabel >= clusterCount
    {
      if clabel < 0 || clabel >= clusterCount {
        return NotFound;
      }
      var cl := clusters[clabel];
      r := Found(cl.weight, cl.mean, cl.cov);
    }
  
    /** The appending loop of pf_update_resample_addParticle: n poses from
        the map-wide rejection sampler with uniform headings, each of
        weight 1.0, inserted into the histogram, one more unit of total
        weight each. */
    method AppendFromMap(m: GridMap, rng: Rng, n: nat, total0: real) returns (total: real)
      requires Valid() && sampleCount + n <= samples.Length
      requires AllFillable(m, rng, MapWide(false), n)
      modifies this`sampleCount, this`kdtree, samples
      ensures Valid()
      ensures kdtree == old(kdtree) + Sampled(m, rng, MapWide(false), n)
      ensures Live() == old(Live()) + Fresh(Sampled(m, rng, MapWide(false), n))
      ensures total == total0 + n as real
    {
      ghost var added := Sampled(m, rng, MapWide(false), n);
      total := total0;
      var i := 0;
      while i < n
        invariant 0 <= i <= n && Valid() && sampleCount == old(sampleCount) + i
        invariant kdtree == old(kdtree) + added[..i]
        invariant Live() == old(Live()) + Fresh(added[..i])
        invariant total == total0 + i as real
      {
        var p, _ := RejectionSample(m, rng, MapWide(false), i);
        assert added[..i + 1] == added[..i] + [p];
        FreshAppend(added[..i], p);
        Append(p, true);
        total := total + 1.0;
        i := i + 1;
      }
      assert added[..n] == added;
    }

    /** The backfill of pf_update_resample_map: when fewer than
        min_samples + 10 samples were drawn, up to 100 poses from the
        map-wide rejection sampler, stopping at max_samples, each of weight
        1.0 and inserted into the histogram. */
    method BackfillFromMap(m: GridMap, rng: Rng, minSamples: int, maxSamples: int, total0: real) returns (total: real)
      requires Valid() && maxSamples <= samples.Length && sampleCount <= maxSamples
      requires AllFillable(m, rng, MapWide(false), BackfillCount(sampleCount, minSamples, maxSamples))
      modifies this`sampleCount, this`kdtree, samples
      ensures Valid()
      ensures var added := Sampled(m, rng, MapWide(false), BackfillCount(old(sampleCount), minSamples, maxSamples));
              && kdtree == old(kdtree) + added
              && Live() == old(Live()) + Fresh(added)
              && total == total0 + |added| as real
    {
      ghost var n := BackfillCount(sampleCount, minSamples, maxSamples);
      ghost var added := Sampled(m, rng, MapWide(false), n);
      total := total0;
      if sampleCount < minSamples + 10 {
        var i := 0;
        while i < 100 && sampleCount < maxSamples
          invariant 0 <= i <= n && Valid() && sampleCount == old(sampleCount) + i
          invariant kdtree == old(kdtree) + added[..i]
          invariant Live() == old(Live()) + Fresh(added[..i])
          invariant total == total0 + i as real
        {
          var p, _ := RejectionSample(m, rng, MapWide(false), i);
          assert added[..i + 1] == added[..i] + [p];
          FreshAppend(added[..i], p);
          Append(p, true);
          total := total + 1.0;
          i := i + 1;
        }
        assert i == n;
        assert added[..n] == added;
      }
    }

    /** One hypothesis's tries: n candidates around hypothesis j, each kept
        (weight 1.0, one more unit of total weight, inserted into the
        histogram when track holds) if it lands in a free cell. */
    method AppendTries(m: GridMap, hyps: seq<Hyp>, rng: Rng, j: nat, n: int, zeroHeading: bool, track: bool, total0: real)
      returns (total: real)
      requires Valid() && j < |hyps| && sampleCount + Max0(n) <= samples.Length
      modifies this`sampleCount, this`kdtree, samples
      ensures Valid()
      ensures Live() == old(Live()) + Fresh(HypRun(m, hyps, rng, j, n, zeroHeading))
      ensures track ==> kdtree == old(kdtree) + HypRun(m, hyps, rng, j, n, zeroHeading)
      ensures !track ==> kdtree == old(kdtree)
      ensures total == total0 + |HypRun(m, hyps, rng, j, n, zeroHeading)| as real
    {
      ghost var live0, tree0, count0 := Live(), kdtree, sampleCount;
      ghost var kept: seq<Pose> := [];
      assert Live() == live0 + Fresh(kept);
      total := total0;
      var i := 0;
      while i < n
        invariant 0 <= i && (i <= n || i == 0) && Valid()
        invariant kept == HypRun(m, hyps, rng, j, i, zeroHeading)
        invariant sampleCount == count0 + |kept|
        invariant Live() == live0 + Fresh(kept)
        invariant track ==> kdtree == tree0 + kept
        invariant !track ==> kdtree == tree0
        invariant total == total0 + |kept| as real
      {
        total := AppendTry(m, hyps, rng, j, i, zeroHeading, track, live0, tree0, total);
        kept := HypRun(m, hyps, rng, j, i + 1, zeroHeading);
        i := i + 1;
      }
    }

    /** Try i for hypothesis j: the candidate is kept (weight 1.0, one more
        unit of total weight, inserted into the histogram when track holds)
        if it lands in a free cell. */
    method AppendTry(m: GridMap, hyps: seq<Hyp>, rng: Rng, j: nat, i: nat, zeroHeading: bool, track: bool,
                     ghost live0: seq<Sample>, ghost tree0: seq<Pose>, total0: real)
      returns (total: real)
      requires Valid() && j < |hyps| && sampleCount < samples.Length
      requires Live() == live0 + Fresh(HypRun(m, hyps, rng, j, i, zeroHeading))
      requires track ==> kdtree == tree0 + HypRun(m, hyps, rng, j, i, zeroHeading)
      requires !track ==> kdtree == tree0
      modifies this`sampleCount, this`kdtree, samples
      ensures Valid()
      ensures sampleCount - old(sampleCount)
              == |HypRun(m, hyps, rng, j, i + 1, zeroHeading)| - |HypRun(m, hyps, rng, j, i, zeroHeading)|
      ensures Live() == live0 + Fresh(HypRun(m, hyps, rng, j, i + 1, zeroHeading))
      ensures track ==> kdtree == tree0 + HypRun(m, hyps, rng, j, i + 1, zeroHeading)
      ensures !track ==> kdtree == tree0
      ensures total - total0
              == (|HypRun(m, hyps, rng, j, i + 1, zeroHeading)| - |HypRun(m, hyps, rng, j, i, zeroHeading)|) as real
    {
      ghost var kept := HypRun(m, hyps, rng, j, i, zeroHeading);
      total := total0;
      var c := HypCandidate(hyps, rng, j, i, zeroHeading);
      if FreeCell(m, c) {
        assert HypRun(m, hyps, rng, j, i + 1, zeroHeading) == kept + [c];
        FreshAppend(kept, c);
        Append(c, track);
        total := total + 1.0;
      } else {
        assert HypRun(m, hyps, rng, j, i + 1, zeroHeading) == kept;
      }
    }

    /** The hypothesis loops of pf_update_resample_hyps and _hyps_2: n
        tries for each hypothesis in turn. */
    method AppendHypotheses(m: GridMap, hyps: seq<Hyp>, rng: Rng, n: int, track: bool, total0: real)
      returns (total: real)
      requires Valid() && sampleCount + Times(|hyps|, Max0(n)) <= samples.Length
      modifies this`sampleCount, this`kdtree, samples
      ensures Valid()
      ensures Live() == old(Live()) + Fresh(HypsRun(m, hyps, rng, |hyps|, n))
      ensures track ==> kdtree == old(kdtree) + HypsRun(m, hyps, rng, |hyps|, n)
      ensures !track ==> kdtree == old(kdtree)
      ensures total == total0 + |HypsRun(m, hyps, rng, |hyps|, n)| as real
    {
      ghost var live0, tree0 := Live(), kdtree;
      ghost var kept: seq<Pose> := [];
      assert Live() == live0 + Fresh(kept);
      total := total0;
      var j := 0;
      while j < |hyps|
        invariant 0 <= j <= |hyps| && Valid()
        invariant kept == HypsRun(m, hyps, rng, j, n)
        invariant sampleCount == old(sampleCount) + |kept|
        invariant Live() == live0 + Fresh(kept)
        invariant track ==> kdtree == tree0 + kept
        invariant !track ==> kdtree == tree0
        invariant total == total0 + |kept| as real
      {
        ghost var run := HypRun(m, hyps, rng, j, n, false);
        assert HypsRun(m, hyps, rng, j + 1, n) == kept + run;
        ghost var N := Max0(n);
        assert |kept| <= Times(j, N);
        TimesRoom(j, |hyps|, N);
        total := AppendTries(m, hyps, rng, j, n, false, track, total);
        FreshConcat(kept, run);
        ConcatAssoc(live0, Fresh(kept), Fresh(run));
        ConcatAssoc(tree0, kept, run);
        kept := kept + run;
        j := j + 1;
      }
    }

    /** The scratch work of pf_update_resample_hyps_3 for hypothesis j: the
        set is emptied and its histogram cleared, the seeds are tried, and
        then, while fewer than nNew poses are kept and their count does not
        exceed pf_resample_limit_2 of the histogram, one more try, at most
        fuel of them. */
    method GrowBlock(p: KldParams, key: Pose -> BinKey, m: GridMap, hyps: seq<Hyp>, rng: Rng, j: nat, nNew: int, fuel: nat)
      requires Valid() && p.popErr != 0.0 && j < |hyps| && Max0(nNew) <= samples.Length
      modifies this`sampleCount, this`kdtree, samples
      ensures Valid()
      ensures kdtree == Block(p, key, m, hyps, rng, j, nNew, fuel)
      ensures Live() == Fresh(kdtree)
    {
      sampleCount := 0;
      kdtree := [];
      var nMin := SeedTries(nNew);
      var _ := AppendTries(m, hyps, rng, j, nMin, true, true, 0.0);
      var t: nat := Max0(nMin);
      var tries: nat := 0;
      ghost var block := Block(p, key, m, hyps, rng, j, nNew, fuel);
      assert kdtree == HypRun(m, hyps, rng, j, nMin, true);
      assert Expand(p, key, m, hyps, rng, j, kdtree, t, nNew, fuel) == block;
      while sampleCount < nNew && tries < fuel
        invariant Valid() && tries <= fuel && sampleCount <= Max0(nNew)
        invariant Live() == Fresh(kdtree) && sampleCount == |kdtree|
        invariant Expand(p, key, m, hyps, rng, j, kdtree, t, nNew, fuel - tries) == block
      {
        ExpandStep(p, key, m, hyps, rng, j, kdtree, t, nNew, fuel - tries);
        var ntemp := ResampleLimitTwo(p, LeafCount(key, kdtree));
        if sampleCount > ntemp {
          break;
        }
        var c := HypCandidate(hyps, rng, j, t, true);
        ghost var next := if FreeCell(m, c) then kdtree + [c] else kdtree;
        assert Expand(p, key, m, hyps, rng, j, next, t + 1, nNew, fuel - tries - 1) == block;
        if FreeCell(m, c) {
          FreshAppend(kdtree, c);
          Append(c, true);
        }
        assert kdtree == next;
        t := t + 1;
        tries := tries + 1;
      }
    }

    /** The carry loop of pf_update_resample_hyps_3: every live sample of
        the scratch set a is appended here at the same position, with the
        i-th uniform heading for hypothesis j, and inserted into the
        histogram. */
    method CarryFrom(a: SampleSet, rng: Rng, j: nat)
      requires Valid() && a.Valid() && a != this && a.samples != samples
      requires sampleCount + a.sampleCount <= samples.Length
      requires a.Live() == Fresh(a.kdtree)
      modifies this`sampleCount, this`kdtree, samples
      ensures Valid()
      ensures kdtree == old(kdtree) + Carry(rng, j, a.kdtree)
      ensures Live() == old(Live()) + Fresh(Carry(rng, j, a.kdtree))
    {
      ghost var moved := Carry(rng, j, a.kdtree);
      var i := 0;
      while i < a.sampleCount
        invariant 0 <= i <= a.sampleCount && Valid() && sampleCount == old(sampleCount) + i
        invariant kdtree == old(kdtree) + moved[..i]
        invariant Live() == old(Live()) + Fresh(moved[..i])
      {
        var pose := a.samples[i].pose;
        var q := Pose(pose.x, pose.y, Heading(rng.spin(j, i)));
        assert q == moved[i];
        assert moved[..i + 1] == moved[..i] + [q];
        FreshAppend(moved[..i], q);
        Append(q, true);
        i := i + 1;
      }
      assert moved[..a.sampleCount] == moved;
    }

    /** The weight reset of pf_update_resample_hyps_2: every live weight
        becomes 1/sample_count. */
    method SpreadEvenly()
      requires Valid()
      modifies samples
      ensures Live() == Even(Poses(old(Live())))
    {
      ghost var target := Even(Poses(Live()));
      var i := 0;
      while i < sampleCount
        invariant 0 <= i <= sampleCount
        invariant forall k :: 0 <= k < i ==> samples[k] == target[k]
        invariant forall k :: i <= k < sampleCount ==> samples[k] == old(samples[k])
      {
        samples[i] := Sample(samples[i].pose, 1.0 / sampleCount as real);
        i := i + 1;
      }
      assert Live() == target;
    }
  
    /** The sampling loop of pf_init and pf_init_model: n samples, sample i
        at f(i) with weight 1/n, all inserted into the cleared histogram. */
    method FillSeries(f: nat -> Pose, n: nat)
      requires Valid() && n <= samples.Length
      modifies this`sampleCount, this`kdtree, samples
      ensures Valid() && kdtree == Series(f, n) && Live() == Even(kdtree)
    {
      ghost var ps := Series(f, n);
      kdtree := [];
      sampleCount := n;
      var i := 0;
      while i < sampleCount
        invariant 0 <= i <= sampleCount == n && Valid()
        invariant kdtree == ps[..i]
        invariant forall k :: 0 <= k < i ==> samples[k] == Even(ps)[k]
      {
        var p := f(i);
        samples[i] := Sample(p, 1.0 / n as real);
        kdtree := kdtree + [p];
        i := i + 1;
      }
      assert Live() == Even(ps);
    }

    /** The sampling loop of pf_init_map and pf_init_to_point: n samples,
        sample i at the pose the rejection sampler puts in slot i, with
        weight 1/n, all inserted into the cleared histogram. */
    method FillSampled(m: GridMap, rng: Rng, prop: Proposal, n: nat)
      requires Valid() && n <= samples.Length && AllFillable(m, rng, prop, n)
      modifies this`sampleCount, this`kdtree, samples
      ensures Valid() && kdtree == Sampled(m, rng, prop, n) && Live() == Even(kdtree)
    {
      ghost var ps := Sampled(m, rng, prop, n);
      kdtree := [];
      sampleCount := n;
      var i := 0;
      while i < sampleCount
        invariant 0 <= i <= sampleCount == n && Valid()
        invariant kdtree == ps[..i]
        invariant forall k :: 0 <= k < i ==> samples[k] == Even(ps)[k]
      {
        var p, _ := RejectionSample(m, rng, prop, i);
        samples[i] := Sample(p, 1.0 / n as real);
        kdtree := kdtree + [p];
        i := i + 1;
      }
      assert Live() == Even(ps);
    }

    /** The normalisation of pf_update_sensor, given the total the sensor
        model returned: a positive total divides every live weight, any
        other total resets them to 1/sample_count; either way the squares
        of the new weights are summed. */
    method NormalizeSensed(total: real) returns (sq: real)
      requires Valid()
      modifies samples
      ensures total > 0.0 ==> Live() == Divided(old(Live()), total)
      ensures total <= 0.0 ==> Live() == Even(Poses(old(Live())))
      ensures sq == SquareSum(Live())
    {
      if total > 0.0 {
        sq := DivideSquared(total);
      } else {
        sq := ResetSquared();
      }
    }

    /** The first loop of pf_update_sensor: divide and sum the squares. */
    method DivideSquared(total: real) returns (sq: real)
      requires Valid() && total > 0.0
      modifies samples
      ensures Live() == Divided(old(Live()), total)
      ensures sq == SquareSum(Live())
    {
      ghost var target := Divided(Live(), total);
      sq := 0.0;
      var i := 0;
      while i < sampleCount
        invariant 0 <= i <= sampleCount
        invariant forall k :: 0 <= k < i ==> samples[k] == target[k]
        invariant forall k :: i <= k < sampleCount ==> samples[k] == old(samples[k])
        invariant sq == SquareSum(target[..i])
      {
        samples[i] := Sample(samples[i].pose, samples[i].weight / total);
        sq := sq + samples[i].weight * samples[i].weight;
        assert target[..i + 1][..i] == target[..i];
        i := i + 1;
      }
      assert Live() == target;
      assert target[..sampleCount] == target;
    }

    /** The second loop of pf_update_sensor: reset to 1/sample_count and
        sum the squares. */
    method ResetSquared() returns (sq: real)
      requires Valid()
      modifies samples
      ensures Live() == Even(Poses(old(Live())))
      ensures sq == SquareSum(Live())
    {
      ghost var target := Even(Poses(Live()));
      sq := 0.0;
      var i := 0;
      while i < sampleCount
        invariant 0 <= i <= sampleCount
        invariant forall k :: 0 <= k < i ==> samples[k] == target[k]
        invariant forall k :: i <= k < sampleCount ==> samples[k] == old(samples[k])
        invariant sq == SquareSum(target[..i])
      {
        samples[i] := Sample(samples[i].pose, 1.0 / sampleCount as real);
        sq := sq + samples[i].weight * samples[i].weight;
        assert target[..i + 1][..i] == target[..i];
        i := i + 1;
      }
      assert Live() == target;
      assert target[..sampleCount] == target;
    }
  
    /** The first half of pf_update_resample_hyps_2: the room left up to
        maxSamples is shared out evenly among the hypotheses as tries, the
        tries that land in free cells are appended without a histogram
        update, and then every live weight becomes 1/sample_count. */
    method InjectHypotheses(m: GridMap, hyps: seq<Hyp>, rng: Rng, maxSamples: int)
      requires Valid() && |hyps| >= 1 && maxSamples <= samples.Length && sampleCount <= maxSamples
      modifies this`sampleCount, this`kdtree, samples
      ensures Valid() && kdtree == old(kdtree)
      ensures Live() == Even(Injected(old(Poses(Live())), m, hyps, rng, maxSamples))
    {
      ghost var before := Live();
      ghost var want := Injected(Poses(before), m, hyps, rng, maxSamples);
      var nNew := CDiv(maxSamples - sampleCount, |hyps|);
      SharedRoom(maxSamples - sampleCount, |hyps|);
      ghost var run := HypsRun(m, hyps, rng, |hyps|, nNew);
      assert want == Poses(before) + run;
      var _ := AppendHypotheses(m, hyps, rng, nNew, false, 0.0);
      PosesConcat(before, Fresh(run));
      assert Poses(Live()) == want;
      SpreadEvenly();
    }
  
    /** The hypothesis loop of pf_update_resample_hyps_3: for each
        hypothesis in turn the scratch set a grows that hypothesis's block,
        which is then carried into this set. */
    method CarryBlocks(a: SampleSet, p: KldParams, key: Pose -> BinKey, m: GridMap, hyps: seq<Hyp>, rng: Rng,
                       nNew: int, fuel: nat)
      requires Valid() && a.Valid() && a != this && a.samples != samples
      requires p.popErr != 0.0 && |hyps| >= 1 && Max0(nNew) <= a.samples.Length
      requires sampleCount + Times(|hyps|, Max0(nNew)) <= samples.Length
      requires Live() == Fresh(kdtree)
      modifies this`sampleCount, this`kdtree, samples, a`sampleCount, a`kdtree, a.samples
      ensures Valid() && a.Valid()
      ensures kdtree == old(kdtree) + Blocks(p, key, m, hyps, rng, |hyps|, nNew, fuel)
      ensures Live() == Fresh(kdtree)
      ensures a.kdtree == Block(p, key, m, hyps, rng, |hyps| - 1, nNew, fuel) && a.Live() == Fresh(a.kdtree)
    {
      ghost var tree0 := kdtree;
      var j := 0;
      while j < |hyps|
        invariant 0 <= j <= |hyps| && Valid() && a.Valid()
        invariant kdtree == tree0 + Blocks(p, key, m, hyps, rng, j, nNew, fuel)
        invariant Live() == Fresh(kdtree) && sampleCount == |kdtree|
        invariant j > 0 ==> a.kdtree == Block(p, key, m, hyps, rng, j - 1, nNew, fuel) && a.Live() == Fresh(a.kdtree)
      {
        CarryBlock(a, p, key, m, hyps, rng, j, nNew, fuel, tree0);
        j := j + 1;
      }
      assert j - 1 == |hyps| - 1;
    }

    /** One pass of the hypothesis loop of pf_update_resample_hyps_3: the
        block of hypothesis j is grown in a and carried over here. */
    method CarryBlock(a: SampleSet, p: KldParams, key: Pose -> BinKey, m: GridMap, hyps: seq<Hyp>, rng: Rng,
                      j: nat, nNew: int, fuel: nat, ghost tree0: seq<Pose>)
      requires Valid() && a.Valid() && a != this && a.samples != samples
      requires p.popErr != 0.0 && j < |hyps| && Max0(nNew) <= a.samples.Length
      requires |tree0| + Times(|hyps|, Max0(nNew)) <= samples.Length
      requires kdtree == tree0 + Blocks(p, key, m, hyps, rng, j, nNew, fuel) && Live() == Fresh(kdtree)
      modifies this`sampleCount, this`kdtree, samples, a`sampleCount, a`kdtree, a.samples
      ensures Valid() && a.Valid()
      ensures kdtree == tree0 + Blocks(p, key, m, hyps, rng, j + 1, nNew, fuel) && Live() == Fresh(kdtree)
      ensures a.kdtree == Block(p, key, m, hyps, rng, j, nNew, fuel) && a.Live() == Fresh(a.kdtree)
    {
      a.GrowBlock(p, key, m, hyps, rng, j, nNew, fuel);
      BlockBounds(p, key, m, hyps, rng, j, nNew, fuel);
      BlocksBounds(p, key, m, hyps, rng, j, nNew, fuel);
      TimesRoom(j, |hyps|, Max0(nNew));
      ghost var prev := kdtree;
      ghost var moved := Carry(rng, j, a.kdtree);
      CarryFrom(a, rng, j);
      FreshConcat(prev, moved);
      assert Blocks(p, key, m, hyps, rng, j + 1, nNew, fuel) == Blocks(p, key, m, hyps, rng, j, nNew, fuel) + moved;
      ConcatAssoc(tree0, Blocks(p, key, m, hyps, rng, j, nNew, fuel), moved);
    }

    /** pf_update_resample_addParticle up to the normalisation: at most cap
        draws from a, then n poses from the map-wide rejection sampler. */
    method DrawThenMap(a: SampleSet, p: KldParams, key: Pose -> BinKey, cap: int, m: GridMap, rng: Rng, n: nat)
      returns (total: real)
      requires Valid() && a.Valid() && a != this && a.samples != samples
      requires p.popErr != 0.0 && 0 <= cap && cap + n <= samples.Length
      requires ValidPicks(a.Live(), rng.pick, cap) && AllFillable(m, rng, MapWide(false), n)
      modifies this`sampleCount, this`kdtree, samples
      ensures Valid()
      ensures kdtree == Resampled(p, key, Poses(a.Live()), rng.pick, cap) + Sampled(m, rng, MapWide(false), n)
      ensures Live() == Fresh(kdtree) && total == sampleCount as real
    {
      total := DrawFrom(a, p, key, cap, rng.pick);
      ghost var drawn := kdtree;
      total := AppendFromMap(m, rng, n, total);
      FreshConcat(drawn, Sampled(m, rng, MapWide(false), n));
    }

    /** pf_update_resample_map up to the normalisation: at most cap draws
        from a, then the map-wide backfill. */
    method DrawThenBackfill(a: SampleSet, p: KldParams, key: Pose -> BinKey, cap: int, m: GridMap, rng: Rng,
                            minSamples: int, maxSamples: int)
      returns (total: real)
      requires Valid() && a.Valid() && a != this && a.samples != samples
      requires p.popErr != 0.0 && 0 <= maxSamples && cap <= maxSamples <= samples.Length
      requires ValidPicks(a.Live(), rng.pick, cap)
      requires AllFillable(m, rng, MapWide(false),
                 BackfillCount(|Resampled(p, key, Poses(a.Live()), rng.pick, cap)|, minSamples, maxSamples))
      modifies this`sampleCount, this`kdtree, samples
      ensures Valid()
      ensures kdtree == MapResampled(p, key, Poses(a.Live()), m, rng, cap, minSamples, maxSamples)
      ensures Live() == Fresh(kdtree) && total == sampleCount as real
    {
      total := DrawFrom(a, p, key, cap, rng.pick);
      ghost var drawn := kdtree;
      total := BackfillFromMap(m, rng, minSamples, maxSamples, total);
      FreshConcat(drawn, Sampled(m, rng, MapWide(false), BackfillCount(|drawn|, minSamples, maxSamples)));
    }

    /** pf_update_resample_hyps up to the normalisation: at most cap draws
        from a, then each hypothesis's share of the room left (capped at
        nParticle) as tries. */
    method DrawThenHyps(a: SampleSet, p: KldParams, key: Pose -> BinKey, cap: int, m: GridMap, hyps: seq<Hyp>,
                        rng: Rng, nParticle: int, maxSamples: int)
      returns (total: real)
      requires Valid() && a.Valid() && a != this && a.samples != samples
      requires p.popErr != 0.0 && 0 <= maxSamples && cap <= maxSamples <= samples.Length && |hyps| >= 1
      requires ValidPicks(a.Live(), rng.pick, cap)
      modifies this`sampleCount, this`kdtree, samples
      ensures Valid()
      ensures kdtree == HypsResampled(p, key, Poses(a.Live()), m, hyps, rng, cap, nParticle, maxSamples)
      ensures Live() == Fresh(kdtree) && total == sampleCount as real
    {
      total := DrawFrom(a, p, key, cap, rng.pick);
      ghost var drawn := kdtree;
      var nNew := HypShare(sampleCount, maxSamples, nParticle, |hyps|);
      total := AppendHypotheses(m, hyps, rng, nNew, true, total);
      FreshConcat(drawn, HypsRun(m, hyps, rng, |hyps|, nNew));
    }

    /** pf_update_resample_hyps_2 up to the normalisation: a receives the
        hypothesis tries and even weights, then at most max_samples - 1000
        samples are drawn from it. */
    method InjectThenDraw(a: SampleSet, p: KldParams, key: Pose -> BinKey, m: GridMap, hyps: seq<Hyp>, rng: Rng,
                          maxSamples: int)
      requires Valid() && a.Valid() && a != this && a.samples != samples
      requires p.popErr != 0.0 && |hyps| >= 1 && maxSamples <= samples.Length
      requires maxSamples <= a.samples.Length && a.sampleCount <= maxSamples
      requires PicksBelow(rng.pick, maxSamples - 1000, |Injected(Poses(a.Live()), m, hyps, rng, maxSamples)|)
      modifies this`sampleCount, this`kdtree, samples, a`sampleCount, a`kdtree, a.samples
      ensures Valid() && a.Valid()
      ensures a.Live() == Even(Injected(old(Poses(a.Live())), m, hyps, rng, maxSamples))
      ensures a.kdtree == old(a.kdtree)
      ensures kdtree == Resampled(p, key, Injected(old(Poses(a.Live())), m, hyps, rng, maxSamples), rng.pick,
                                  maxSamples - 1000)
      ensures Live() == Fresh(kdtree)
    {
      ghost var ps := Injected(Poses(a.Live()), m, hyps, rng, maxSamples);
      a.InjectHypotheses(m, hyps, rng, maxSamples);
      EvenPicks(ps, rng.pick, maxSamples - 1000);
      var _ := DrawFrom(a, p, key, maxSamples - 1000, rng.pick);
      assert kdtree == Resampled(p, key, ps, rng.pick, maxSamples - 1000);
    }

    /** pf_update_resample_hyps_3 up to the normalisation: at most nReq
        draws from a, then the room left up to maxSamples is shared among
        the hypotheses, whose blocks are grown in a and carried here. */
    method DrawThenBlocks(a: SampleSet, p: KldParams, key: Pose -> BinKey, m: GridMap, hyps: seq<Hyp>, rng: Rng,
                          nReq: int, maxSamples: int, fuel: nat)
      requires Valid() && a.Valid() && a != this && a.samples != samples
      requires p.popErr != 0.0 && |hyps| >= 1 && 0 <= nReq <= maxSamples
      requires maxSamples <= samples.Length && maxSamples <= a.samples.Length
      requires ValidPicks(a.Live(), rng.pick, nReq)
      modifies this`sampleCount, this`kdtree, samples, a`sampleCount, a`kdtree, a.samples
      ensures Valid() && a.Valid()
      ensures kdtree == BlockResampled(p, key, old(Poses(a.Live())), rng.pick, m, hyps, rng, nReq, maxSamples, fuel)
      ensures a.kdtree == LastBlock(p, key, m, hyps, rng, nReq, maxSamples, fuel)
      ensures a.Live() == Fresh(a.kdtree)
      ensures Live() == Fresh(kdtree)
    {
      ghost var last := Block(p, key, m, hyps, rng, |hyps| - 1, CDiv(maxSamples - nReq, |hyps|), fuel);
      assert last == LastBlock(p, key, m, hyps, rng, nReq, maxSamples, fuel);
      ghost var src := Poses(a.Live());
      var _ := DrawFrom(a, p, key, nReq, rng.pick);
      CarryAfterDraw(a, p, key, m, hyps, rng, nReq, maxSamples, fuel, src, rng.pick);
      assert a.kdtree == last;
    }

    /** The hypothesis part of pf_update_resample_hyps_3, once this set
        holds the draws: the room left up to maxSamples is shared among the
        hypotheses, whose blocks are grown in a and carried here. */
    method CarryAfterDraw(a: SampleSet, p: KldParams, key: Pose -> BinKey, m: GridMap, hyps: seq<Hyp>, rng: Rng,
                          nReq: int, maxSamples: int, fuel: nat, ghost src: seq<Pose>, ghost pick: nat -> nat)
      requires Valid() && a.Valid() && a != this && a.samples != samples
      requires p.popErr != 0.0 && |hyps| >= 1 && 0 <= nReq <= maxSamples
      requires maxSamples <= samples.Length && maxSamples <= a.samples.Length
      requires PicksBelow(pick, nReq, |src|)
      requires kdtree == Resampled(p, key, src, pick, nReq) && Live() == Fresh(kdtree)
      modifies this`sampleCount, this`kdtree, samples, a`sampleCount, a`kdtree, a.samples
      ensures Valid() && a.Valid()
      ensures kdtree == BlockResampled(p, key, src, pick, m, hyps, rng, nReq, maxSamples, fuel)
      ensures a.kdtree == Block(p, key, m, hyps, rng, |hyps| - 1, CDiv(maxSamples - nReq, |hyps|), fuel)
      ensures a.Live() == Fresh(a.kdtree)
      ensures Live() == Fresh(kdtree)
    {
      var nNew := CDiv(maxSamples - nReq, |hyps|);
      ghost var carried := kdtree + Blocks(p, key, m, hyps, rng, |hyps|, nNew, fuel);
      assert carried == BlockResampled(p, key, src, pick, m, hyps, rng, nReq, maxSamples, fuel);
      SharedRoom(maxSamples - nReq, |hyps|);
      TimesRoom(0, |hyps|, Max0(nNew));
      CarryBlocks(a, p, key, m, hyps, rng, nNew, fuel);
      assert kdtree == carried;
    }
  }
}
