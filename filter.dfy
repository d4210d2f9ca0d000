/** The particle filter of pf/pf.c, pf_t: two sample sets used as a double
    buffer, the population parameters of the KLD test, and the operations
    that initialise the active set, reweight it from a sensor model and
    resample it into the other set. */
module ParticleFilter {
  import opened Types
  import opened Weights
  import opened KldLimit
  import opened Histogram
  import opened Clusters
  import opened Draws
  import opened Proposals
  import opened Hypotheses
  import opened SampleSets

  /** The mean and the variance pf_get_cep_stats reports. */
  datatype CepStats = CepStats(mean: Pose, variance: real)

  class Filter {
    const minSamples: int
    const maxSamples: int
    const overHeadSamples: int
    const popErr: real
    const popZ: real
    var sumSquareWeights: real
    const set0: SampleSet
    const set1: SampleSet
    var currentSet: int
    const math: MathLib
    const tree: KdTreeModel

    /** Two distinct sets of capacity max_samples, an overhead that fits in
        them, the fixed KLD error and quantile, and a current index of 0 or
        1. */
    ghost predicate Valid()
      reads this, set0, set1
    {
      && set0 != set1 && set0.samples != set1.samples && set0.clusters != set1.clusters
      && set0.Valid() && set1.Valid()
      && set0.samples.Length == maxSamples && set1.samples.Length == maxSamples
      && 0 <= overHeadSamples <= maxSamples
      && popErr == 0.01 && popZ == 3.0
      && (currentSet == 0 || currentSet == 1)
    }

    /** The parameters of the KLD limit. */
    function Params(): (p: KldParams)
      ensures p.minSamples == minSamples && p.maxSamples == maxSamples
    {
      KldParams(minSamples, maxSamples, popZ, popErr, math.sqrt)
    }

    /** sets[current_set]. */
    function Current(): (s: SampleSet)
      reads this
      ensures s == set0 || s == set1
    {
      if currentSet == 0 then set0 else set1
    }

    /** sets[(current_set + 1) % 2], the set every resampler writes. */
    function Other(): (s: SampleSet)
      reads this
      ensures s == set0 || s == set1
    {
      if currentSet == 0 then set1 else set0
    }

    /** pf_alloc: both sets hold max_samples samples at the origin with
        weight 1/max_samples, empty histograms and empty cluster tables;
        set 0 is current. */
    constructor(minSamples: int, maxSamples: nat, overHeadSamples: int, math: MathLib, tree: KdTreeModel)
      requires 0 <= overHeadSamples <= maxSamples
      ensures Valid() && fresh(set0) && fresh(set1) && fresh(set0.samples) && fresh(set1.samples)
      ensures this.minSamples == minSamples && this.maxSamples == maxSamples
      ensures this.overHeadSamples == overHeadSamples && this.math == math && this.tree == tree
      ensures currentSet == 0 && sumSquareWeights == 0.0
      ensures forall s :: s in {set0, set1} ==>
                && s.sampleCount == maxSamples && s.kdtree == [] && s.clusterCount == 0
                && Uniform(s.Live()) && (forall i :: 0 <= i < maxSamples ==> s.samples[i].pose == Origin)
                && s.clusters[..] == ZeroTable().slots
    {
      this.minSamples := minSamples;
      this.maxSamples := maxSamples;
      this.overHeadSamples := overHeadSamples;
      popErr := 0.01;
      popZ := 3.0;
      sumSquareWeights := 0.0;
      currentSet := 0;
      this.math := math;
      this.tree := tree;
      set0 := new SampleSet(maxSamples);
      set1 := new SampleSet(maxSamples);
    }

    /** The draw loop every resampler starts with: the other set is
        emptied, its histogram cleared, and it receives copies (weight 1.0)
        of the poses of the picked live samples of the current set until it
        holds cap samples or more than the KLD limit for its histogram's
        leaf count. total is the weight added. */
    method Draw(cap: int, pick: nat -> nat) returns (total: real)
      requires Valid() && cap <= maxSamples
      requires ValidPicks(Current().Live(), pick, cap)
      modifies Other()`sampleCount, Other()`kdtree, Other().samples
      ensures Valid()
      ensures Other().kdtree == Resampled(Params(), tree.key, Poses(Current().Live()), pick, cap)
      ensures Other().Live() == Fresh(Other().kdtree)
      ensures total == Other().sampleCount as real
    {
      total := Other().DrawFrom(Current(), Params(), tree.key, cap, pick);
    }

    /** The end of every resampler: the other set's live weights are
        divided by t, its cluster statistics recomputed, and it becomes the
        current set. Its histogram holds exactly its live poses. */
    method Adopt(t: real)
      requires Valid() && (Other().sampleCount == 0 || t != 0.0)
      requires Other().kdtree == Poses(Other().Live())
      modifies Other().samples, Other()`clusterCount, Other().clusters, this`currentSet
      ensures Valid() && currentSet == 1 - old(currentSet)
      ensures Current() == old(Other()) && Other() == old(Current())
      ensures Current().Live() == Divided(old(Other().Live()), t)
      ensures Current().clusters[..] == ClusterTable(tree, Current().kdtree, Current().Live(), math).slots
      ensures Current().clusterCount == ClusterTable(tree, Current().kdtree, Current().Live(), math).clusterCount
    {
      var b := Other();
      b.NormalizeBy(t);
      b.ClusterStats(tree, math);
      currentSet := (currentSet + 1) % 2;
    }

    /** The end of every resampler whose new samples all carry weight 1.0:
        normalising by their number leaves every weight at 1/sample_count. */
    method AdoptFresh(total: real)
      requires Valid() && Other().Live() == Fresh(Other().kdtree) && total == Other().sampleCount as real
      modifies Other().samples, Other()`clusterCount, Other().clusters, this`currentSet
      ensures Valid() && Current() == old(Other()) && Other() == old(Current())
      ensures Current().kdtree == old(Other().kdtree)
      ensures Current().Live() == Even(Current().kdtree)
      ensures Current().Clustered(tree, math)
    {
      FreshNormalizedIsEven(Other().kdtree);
      Adopt(total);
    }

    /** pf_update_resample: draw at most nMaxParticles samples, normalise
        by their number, recompute the cluster statistics and switch sets.
        The previously current set is left as it was. */
    method Resample(nMaxParticles: int, pick: nat -> nat)
      requires Valid() && nMaxParticles <= maxSamples
      requires ValidPicks(Current().Live(), pick, nMaxParticles)
      modifies Other()`sampleCount, Other()`kdtree, Other().samples, Other()`clusterCount, Other().clusters
      modifies this`currentSet
      ensures Valid() && Current() == old(Other()) && Other() == old(Current())
      ensures unchanged(Other(), Other().samples, Other().clusters)
      ensures Current().kdtree == Resampled(Params(), tree.key, old(Poses(Current().Live())), pick, nMaxParticles)
      ensures Current().Live() == Even(Current().kdtree)
      ensures Current().Clustered(tree, math)
    {
      var total := Draw(nMaxParticles, pick);
      AdoptFresh(total);
    }
  
    /** pf_update_resample_addParticle: draw at most max_samples -
        nPartToAdd samples, then add nPartToAdd poses from the map-wide
        rejection sampler, normalise by their number, recompute the cluster
        statistics and switch sets. */
    method ResampleAddParticle(nPartToAdd: int, m: GridMap, rng: Rng)
      requires Valid() && 0 <= nPartToAdd <= maxSamples
      requires ValidPicks(Current().Live(), rng.pick, maxSamples - nPartToAdd)
      requires AllFillable(m, rng, MapWide(false), nPartToAdd)
      modifies Other()`sampleCount, Other()`kdtree, Other().samples, Other()`clusterCount, Other().clusters
      modifies this`currentSet
      ensures Valid() && Current() == old(Other()) && Other() == old(Current())
      ensures Current().kdtree
              == Resampled(Params(), tree.key, old(Poses(Current().Live())), rng.pick, maxSamples - nPartToAdd)
                 + Sampled(m, rng, MapWide(false), nPartToAdd)
      ensures Current().Live() == Even(Current().kdtree)
      ensures Current().Clustered(tree, math)
    {
      ghost var src := Poses(Current().Live());
      ghost var want := Resampled(Params(), tree.key, src, rng.pick, maxSamples - nPartToAdd)
                        + Sampled(m, rng, MapWide(false), nPartToAdd);
      var total := Other().DrawThenMap(Current(), Params(), tree.key, maxSamples - nPartToAdd, m, rng, nPartToAdd);
      assert Other().kdtree == want;
      AdoptFresh(total);
    }

    /** pf_update_resample_map: draw at most max_samples - overhead
        samples; when fewer than min_samples + 10 were drawn, add up to 100
        poses from the map-wide rejection sampler without passing
        max_samples; then normalise, recompute the cluster statistics and
        switch sets. */
    method ResampleMap(m: GridMap, rng: Rng)
      requires Valid()
      requires ValidPicks(Current().Live(), rng.pick, maxSamples - overHeadSamples)
      requires AllFillable(m, rng, MapWide(false), BackfillCount(
                 |Resampled(Params(), tree.key, Poses(Current().Live()), rng.pick, maxSamples - overHeadSamples)|,
                 minSamples, maxSamples))
      modifies Other()`sampleCount, Other()`kdtree, Other().samples, Other()`clusterCount, Other().clusters
      modifies this`currentSet
      ensures Valid() && Current() == old(Other()) && Other() == old(Current())
      ensures Current().kdtree
              == MapResampled(Params(), tree.key, old(Poses(Current().Live())), m, rng, maxSamples - overHeadSamples,
                              minSamples, maxSamples)
      ensures Current().Live() == Even(Current().kdtree)
      ensures Current().Clustered(tree, math)
    {
      ghost var src := Poses(Current().Live());
      ghost var want := MapResampled(Params(), tree.key, src, m, rng, maxSamples - overHeadSamples,
                                     minSamples, maxSamples);
      var total := Other().DrawThenBackfill(Current(), Params(), tree.key, maxSamples - overHeadSamples, m, rng,
                                            minSamples, maxSamples);
      assert Other().kdtree == want;
      AdoptFresh(total);
    }

    /** pf_update_resample_hyps: draw at most max_samples - overhead
        samples, then give each hypothesis the same share of the room left
        (capped at nParticle) as tries, keeping the tries that land in free
        cells; normalise, recompute the cluster statistics and switch
        sets. */
    method ResampleHyps(m: GridMap, hyps: seq<Hyp>, nParticle: int, rng: Rng)
      requires Valid() && |hyps| >= 1
      requires ValidPicks(Current().Live(), rng.pick, maxSamples - overHeadSamples)
      modifies Other()`sampleCount, Other()`kdtree, Other().samples, Other()`clusterCount, Other().clusters
      modifies this`currentSet
      ensures Valid() && Current() == old(Other()) && Other() == old(Current())
      ensures Current().kdtree
              == HypsResampled(Params(), tree.key, old(Poses(Current().Live())), m, hyps, rng,
                               maxSamples - overHeadSamples, nParticle, maxSamples)
      ensures Current().Live() == Even(Current().kdtree)
      ensures Current().Clustered(tree, math)
    {
      ghost var src := Poses(Current().Live());
      ghost var want := HypsResampled(Params(), tree.key, src, m, hyps, rng, maxSamples - overHeadSamples,
                                      nParticle, maxSamples);
      var total := Other().DrawThenHyps(Current(), Params(), tree.key, maxSamples - overHeadSamples, m, hyps, rng,
                                        nParticle, maxSamples);
      assert Other().kdtree == want;
      AdoptFresh(total);
    }

    /** pf_update_resample_hyps_2: first the current set receives, for
        each hypothesis, the tries that land in free cells (the room left
        in it shared out evenly, no histogram update), and its weights are
        spread evenly; then at most max_samples - 1000 samples are drawn
        from it, normalised by their number, the cluster statistics
        recomputed and the sets switched. over_head is not used. */
    method ResampleHyps2(m: GridMap, hyps: seq<Hyp>, overHead: int, rng: Rng)
      requires Valid() && |hyps| >= 1
      requires PicksBelow(rng.pick, maxSamples - 1000, |Injected(Poses(Current().Live()), m, hyps, rng, maxSamples)|)
      modifies Current()`sampleCount, Current()`kdtree, Current().samples
      modifies Other()`sampleCount, Other()`kdtree, Other().samples, Other()`clusterCount, Other().clusters
      modifies this`currentSet
      ensures Valid() && Current() == old(Other()) && Other() == old(Current())
      ensures Other().Live() == Even(Injected(old(Poses(Current().Live())), m, hyps, rng, maxSamples))
      ensures Other().kdtree == old(Current().kdtree)
      ensures Current().kdtree
              == Resampled(Params(), tree.key, Injected(old(Poses(Current().Live())), m, hyps, rng, maxSamples),
                           rng.pick, maxSamples - 1000)
      ensures Current().Live() == Even(Current().kdtree)
      ensures Current().Clustered(tree, math)
    {
      var a := Current();
      ghost var ps := Injected(Poses(a.Live()), m, hyps, rng, maxSamples);
      Other().InjectThenDraw(a, Params(), tree.key, m, hyps, rng, maxSamples);
      assert Other().kdtree == Resampled(Params(), tree.key, ps, rng.pick, maxSamples - 1000);
      ghost var scratch, left := a.kdtree, a.Live();
      AdoptFresh(Other().sampleCount as real);
      assert a.kdtree == scratch && a.Live() == left;
    }

    /** pf_update_resample_hyps_3: draw at most nReqSamples samples (the
        current count, or max_samples - overhead when fewer than overhead
        slots are free); share the room left among the hypotheses; for each
        one grow a block in the current set, used as scratch, and carry it
        over with fresh headings; normalise by the number of samples,
        recompute the cluster statistics and switch sets. The scratch set
        is left holding the last block. */
    method ResampleHyps3(m: GridMap, hyps: seq<Hyp>, rng: Rng, fuel: nat)
      requires Valid() && |hyps| >= 1
      requires ValidPicks(Current().Live(), rng.pick, ReqSamples(maxSamples, overHeadSamples, Current().sampleCount))
      modifies Current()`sampleCount, Current()`kdtree, Current().samples
      modifies Other()`sampleCount, Other()`kdtree, Other().samples, Other()`clusterCount, Other().clusters
      modifies this`currentSet
      ensures Valid() && Current() == old(Other()) && Other() == old(Current())
      ensures Current().kdtree
              == BlockResampled(Params(), tree.key, old(Poses(Current().Live())), rng.pick, m, hyps, rng,
                                ReqSamples(maxSamples, overHeadSamples, old(Current().sampleCount)), maxSamples, fuel)
      ensures Other().kdtree
              == LastBlock(Params(), tree.key, m, hyps, rng,
                           ReqSamples(maxSamples, overHeadSamples, old(Current().sampleCount)), maxSamples, fuel)
      ensures Other().Live() == Fresh(Other().kdtree)
      ensures Current().Live() == Even(Current().kdtree)
      ensures Current().Clustered(tree, math)
    {
      var a := Current();
      var nReq := ReqSamples(maxSamples, overHeadSamples, a.sampleCount);
      Other().DrawThenBlocks(a, Params(), tree.key, m, hyps, rng, nReq, maxSamples, fuel);
      ghost var scratch, left := a.kdtree, a.Live();
      AdoptFresh(Other().sampleCount as real);
      assert a.kdtree == scratch && a.Live() == left;
    }

    /** pf_init: the current set receives max_samples poses from the
        Gaussian sampler (the i-th one is normal(i)), each of weight
        1/max_samples and inserted into the cleared histogram; then its
        cluster statistics are recomputed. */
    method InitGaussian(rng: Rng)
      requires Valid()
      modifies Current()`sampleCount, Current()`kdtree, Current().samples, Current()`clusterCount, Current().clusters
      ensures Valid() && Current().sampleCount == maxSamples
      ensures Current().kdtree == Series(rng.normal, maxSamples)
      ensures Current().Live() == Even(Current().kdtree)
      ensures Current().Clustered(tree, math)
    {
      var s := Current();
      s.FillSeries(rng.normal, maxSamples);
      s.ClusterStats(tree, math);
    }

    /** pf_init_map: the current set receives max_samples poses from the
        map-wide rejection sampler with heading 0, each in a free cell,
        of weight 1/max_samples and inserted into the cleared histogram;
        then its cluster statistics are recomputed. */
    method InitMap(m: GridMap, rng: Rng)
      requires Valid() && AllFillable(m, rng, MapWide(true), maxSamples)
      modifies Current()`sampleCount, Current()`kdtree, Current().samples, Current()`clusterCount, Current().clusters
      ensures Valid() && Current().sampleCount == maxSamples
      ensures Current().kdtree == Sampled(m, rng, MapWide(true), maxSamples)
      ensures AllFree(m, Current().kdtree)
      ensures Current().Live() == Even(Current().kdtree)
      ensures Current().Clustered(tree, math)
    {
      var s := Current();
      s.FillSampled(m, rng, MapWide(true), maxSamples);
      s.ClusterStats(tree, math);
    }

    /** pf_init_model: as pf_init, with the i-th pose returned by the
        caller's init function. */
    method InitModel(initFn: nat -> Pose)
      requires Valid()
      modifies Current()`sampleCount, Current()`kdtree, Current().samples, Current()`clusterCount, Current().clusters
      ensures Valid() && Current().sampleCount == maxSamples
      ensures Current().kdtree == Series(initFn, maxSamples)
      ensures Current().Live() == Even(Current().kdtree)
      ensures Current().Clustered(tree, math)
    {
      var s := Current();
      s.FillSeries(initFn, maxSamples);
      s.ClusterStats(tree, math);
    }

    /** pf_init_to_point: as pf_init_map, with candidates uniform in the
        square of side var around (x, y) with a uniform heading, kept when
        their cell is on the map whatever its occupancy. */
    method InitToPoint(m: GridMap, x: real, y: real, var_: real, rng: Rng)
      requires Valid() && AllFillable(m, rng, NearPoint(x, y, var_), maxSamples)
      modifies Current()`sampleCount, Current()`kdtree, Current().samples, Current()`clusterCount, Current().clusters
      ensures Valid() && Current().sampleCount == maxSamples
      ensures Current().kdtree == Sampled(m, rng, NearPoint(x, y, var_), maxSamples)
      ensures forall k :: 0 <= k < maxSamples ==> OnMap(m, Current().kdtree[k])
      ensures Current().Live() == Even(Current().kdtree)
      ensures Current().Clustered(tree, math)
    {
      var s := Current();
      s.FillSampled(m, rng, NearPoint(x, y, var_), maxSamples);
      s.ClusterStats(tree, math);
    }

    /** pf_update_action_update_cluster after the action model has moved
        the samples: the histogram is rebuilt from the live poses and the
        cluster statistics recomputed; the samples are left as they are. */
    method UpdateActionUpdateCluster()
      requires Valid()
      modifies Current()`kdtree, Current()`clusterCount, Current().clusters
      ensures Valid() && Current().Live() == old(Current().Live())
      ensures Current().kdtree == Poses(Current().Live())
      ensures Current().Clustered(tree, math)
    {
      var s := Current();
      s.RebuildTree();
      s.ClusterStats(tree, math);
    }

    /** pf_update_sensor, given the total weight the sensor model returned
        after reweighting the current set: a positive total normalises the
        weights, so that they sum to 1 when it is their sum; any other total
        resets them to 1/sample_count. The sum of the squared new weights
        is returned. */
    method UpdateSensor(total: real) returns (sq: real)
      requires Valid()
      modifies Current().samples
      ensures Valid()
      ensures total > 0.0 ==> Current().Live() == Divided(old(Current().Live()), total)
      ensures total > 0.0 && total == old(TotalWeight(Current().Live())) ==> TotalWeight(Current().Live()) == 1.0
      ensures total <= 0.0 ==> Current().Live() == Even(Poses(old(Current().Live())))
      ensures total <= 0.0 && Current().sampleCount > 0 ==>
                TotalWeight(Current().Live()) == 1.0 && sq == 1.0 / Current().sampleCount as real
      ensures sq == SquareSum(Current().Live())
    {
      var s := Current();
      ghost var before := s.Live();
      sq := s.NormalizeSensed(total);
      if total > 0.0 {
        if total == TotalWeight(before) {
          NormalizedSumsToOne(before, total);
        }
      } else if s.sampleCount > 0 {
        UniformSumsToOne(s.Live());
      }
    }

    /** pf_get_cep_stats: the weighted mean position of the current set
        (heading 0) and its variance, the weighted mean of x*x + y*y less
        the squared norm of the mean, which is the weighted mean squared
        distance of the samples from the mean. Nothing when the weights sum
        to 0. */
    method GetCepStats() returns (r: Option<CepStats>)
      requires Valid()
      ensures r.None? <==> TotalWeight(Current().Live()) == 0.0
      ensures r.Some? ==> r.value.mean == Centroid(Current().Live())
      ensures r.Some? ==> r.value.variance
                          == Spread(Current().Live(), Centroid(Current().Live()).x, Centroid(Current().Live()).y)
                             / TotalWeight(Current().Live())
    {
      var mn, mx, my, mrr := Current().Moments();
      if mn == 0.0 {
        return None;
      }
      var variance := mrr / mn - (mx * mx / (mn * mn) + my * my / (mn * mn));
      CepFromMoments(Current().Live(), mn, mx, my, mrr);
      r := Some(CepStats(Pose(mx / mn, my / mn, 0.0), variance));
    }

    /** pf_get_cluster_stats on the current set, with negative labels
        refused: a label is found exactly when it names one of the
        cluster_count slots of the table, whose weight, mean and covariance
        are handed back. */
    method GetClusterStats(clabel: int) returns (r: Lookup)
      requires Valid()
      ensures r == ClusterLookup(Current().clusters[..], Current().clusterCount, clabel)
      ensures r == NotFound <==> clabel < 0 || clabel >= Current().clusterCount
    {
      r := Current().GetClusterStatsSet(clabel);
    }
  }
}
