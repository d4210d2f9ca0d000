# Particle filter sample-set bookkeeping (pf/pf.c), in Dafny

This project models the particle filter of `pf/pf.c`, the adaptive
(KLD-sampling) Monte Carlo localisation core of an AMCL-style tracker, and
proves what its operations do to the filter's two sample sets.

A filter (`ParticleFilter.Filter`, the C `pf_t`) owns two sample sets
(`SampleSets.SampleSet`, `pf_sample_set_t`) used as a double buffer, and
`currentSet` says which one is live. A set is modelled as follows:

- a fixed array of `max_samples` samples (a pose and a weight), of which
  the first `sampleCount` are live;
- its kd-tree histogram, as the sequence of poses inserted since it was
  last cleared, with `leaf_count` the number of distinct cells they occupy;
- a cluster table of 100 slots, of which the first `clusterCount` are in use.

The operations are the initialisers (`pf_init`, `pf_init_map`,
`pf_init_model`, `pf_init_to_point`), the histogram refresh after a motion
update, the sensor normalisation, the six resamplers (plain, add-N, map
backfill, and hypotheses v1, v2 and v3), the KLD population limits, the
cluster statistics, the CEP statistics and the cluster queries.

Each resampler is proved against a specification function on pose
sequences.

- `Draws.Resampled` gives the KLD-bounded draw loop.
- `SampleSets.MapResampled`, `SampleSets.HypsResampled`,
  `SampleSets.Injected` and `SampleSets.BlockResampled` give what each
  variant appends.
- The lemmas beside those functions state what the C code promises:
  - the cap is never exceeded;
  - every drawn pose is a copy of a picked live pose;
  - the loop stops early only when the KLD test passes;
  - injected poses lie in free cells;
  - the room shared among hypotheses never overflows `max_samples`;
  - the final weights are all `1/sample_count` and sum to 1.

Collaborators the code calls but that are not part of this model are
parameters, given as records of functions:

- the math library (`sqrt`, `cos`, `sin`, `atan2`, `log`);
- the kd-tree's cell key and cluster labels;
- the occupancy map (`MAP_VALID`, `occ_state`);
- every random source, as oracles (`Types.Rng`): the discrete-PDF index of
  each draw, the uniform and Gaussian variates, and the bivariate offsets of
  each hypothesis try.

Every proved property holds whatever those collaborators return, within
the types the model gives them: the cluster labels of the kd-tree are
never negative (see "## Left out").

Where the code and its design notes differ, the model follows the code:

- `pf_update_resample_hyps_3` draws at most `set_a.sample_count` samples
  when at least `overHead_samples` slots are free, not
  `max_samples - set_a.sample_count` (pf/pf.c:1268-1272).
- It tries `min(nNewSample, 10)` seeds per hypothesis, not 10, and keeps
  only those in free cells (pf/pf.c:1328-1371).
- `pf_update_resample_hyps_2` ignores its `over_head` argument and draws
  at most `max_samples - 1000` (pf/pf.c:905).

## Model

| member | source | states |
|---|---|---|
| Types.Ceil | pf/pf.c:968 | the result is the least integer not below its argument: r <= n < r + 1 |
| Types.CDiv | pf/pf.c:751 | C's `/` on `int`, which truncates toward zero; what its quotient is, for either sign, is stated by Types.CDivBounds |
| Types.CDivBounds | pf/pf.c:751 | C integer division truncates toward zero: the quotient times the divisor lies within one divisor of the dividend, on the side of zero, for either sign |
| KldLimit.FoxBound | pf/pf.c:963-968 | the bound of Fox et al. for k >= 2 occupied cells: ceil((k - 1) / (2 err) * x^3) with b = 2 / (9 (k - 1)) and x = 1 - b + sqrt(b) z; the three limit functions share it, pf_resample_limit_2 with five times the error |
| KldLimit.ResampleLimitHyps | pf/pf.c:1004-1024 | min_samples when k <= 1; otherwise the Fox bound for the given z and error, raised to min_samples when below it, cut to max_samples when at or above it, so it lies in [min_samples, max_samples] when min <= max |
| KldLimit.ResampleLimit | pf/pf.c:956-976 | min_samples when k <= 1, and always within [min_samples, max_samples] when min <= max |
| KldLimit.ResampleLimitTwoAsWritten | pf/pf.c:980-1000 | the unclamped bound with ten times the error, and no defined result exactly when k <= 1 |
| KldLimit.ResampleLimitTwo | pf/pf.c:980-1000 | the same bound with the k <= 1 guard restored: min_samples for k <= 1, the value as written for every k >= 2 |
| KldLimit.LimitTwoIsUnclampedLimit | pf/pf.c:980-1024 | where it lies in [min_samples, max_samples), pf_resample_limit_2 equals pf_resample_limit_hyps with five times the error |
| KldLimit.EmptyHistogramLimitUndefined | pf/pf.c:1374-1378 | the expansion loop's call with leaf_count 0 or 1 has no defined result as written, and gives min_samples once guarded |
| Histogram.Bins | pf/pf.c:396-404 | every inserted pose's cell is an occupied cell of the histogram |
| Histogram.BinsOnlyInserted | pf/pf.c:396-404 | every occupied cell is the cell of some inserted pose; with Bins, the occupied cells are exactly the cells of the inserted poses |
| Histogram.LeafCount | pf/pf.c:403-404 | leaf_count is the number of occupied cells; its bounds and its growth per insertion are stated by Histogram.LeafCountBounds and Histogram.LeafCountInsert |
| Histogram.LeafCountBounds | pf/pf.c:396-404 | leaf_count is 0 exactly for an empty histogram and never exceeds the number of inserted poses |
| Histogram.LeafCountInsert | pf/pf.c:396-397 | an insertion adds a leaf exactly when the pose's cell was empty |
| Weights.ConstantWeightSums | pf/pf.c:413-417 | n samples of weight w total n * w, and their squares n * w * w |
| Weights.UniformSumsToOne | pf/pf.c:336-341 | weights all equal to 1/n sum to 1, and their squares to 1/n |
| Weights.Divided | pf/pf.c:325-328 | dividing by t keeps every pose and the number of samples, and each new weight times t is the old weight |
| Weights.DividedTotal | pf/pf.c:413-417 | dividing every weight by t divides the total weight by t |
| Weights.NormalizedSumsToOne | pf/pf.c:322-331 | normalising by the total weight leaves weights summing to 1 |
| Weights.Fresh | pf/pf.c:391-394 | appended samples sit at the given poses with weight 1.0 |
| Weights.Even | pf/pf.c:884-887 | samples at the given poses whose weights are all 1/n |
| Weights.FreshNormalizedIsEven | pf/pf.c:413-417 | n fresh samples weigh n in total, and dividing them by n leaves every weight at 1/n |
| Weights.SpreadExpansion | pf/pf.c:1127-1141 | the weighted squared distance from (a, b) expands into the one-pass moments mrr, mx, my and mn |
| Weights.Centroid | pf/pf.c:1137-1139 | the mean position times the total weight is the first moment in x and in y, and the heading is 0 |
| Weights.CepFromMoments | pf/pf.c:1137-1141 | the mean and variance computed from the moments are the centroid and the weighted mean squared distance from it |
| Weights.SquaredQuotient | pf/pf.c:1141 | mx*mx/(mn*mn) is the square of mx/mn |
| Clusters.ZeroTable | pf/pf.c:1036-1050 | 100 slots, all zero, and no clusters |
| Clusters.AddSample | pf/pf.c:1068-1081 | a sample adds one to the count, its weight to the weight, its weighted x, y, cos theta and sin theta to m, and its weighted products of x and y to c |
| Clusters.Accumulate | pf/pf.c:1059-1066 | a label at or above cluster_max_count leaves the table as it is; any other label adds the sample to its slot and raises cluster_count to the label plus one when below it |
| Clusters.Gather | pf/pf.c:1052-1082 | the accumulation loop keeps the table at 100 slots |
| Clusters.ClusterTable | pf/pf.c:1027-1111 | the table pf_cluster_stats leaves: zeroed, accumulated over the samples in order, then finalised; its bound, per-label sums and zero tail are stated by Clusters.ClusterTableFacts |
| Clusters.Finish | pf/pf.c:1085-1103 | count, weight and running sums are kept, and the mean position times the weight is the weighted sum of x and of y |
| Clusters.Finalize | pf/pf.c:1085-1108 | only the first cluster_count slots are finished, and cluster_count is kept |
| Clusters.GatherShape | pf/pf.c:1053-1064 | cluster_count is one more than the largest accepted label (0 when none), so at most 100; every accepted label is below it; every slot from it on is still zero |
| Clusters.GatherCounts | pf/pf.c:1066-1069 | each slot's count and weight are the number and summed weight of the samples carrying its label |
| Clusters.ClusterTableFacts | pf/pf.c:1027-1111 | the final table has at most 100 clusters, per-label counts and weights, and zero slots after the last cluster |
| Clusters.ClusterLookupAsWritten | pf/pf.c:1154-1162 | not found exactly when clabel >= cluster_count; a negative clabel reads outside the table; otherwise the slot's weight, mean and covariance |
| Clusters.ClusterLookup | pf/pf.c:1154-1162 | found exactly when 0 <= clabel < cluster_count, and then the slot's weight, mean and covariance unchanged; never out of bounds |
| Clusters.NegativeLabelOutOfBounds | pf/pf.c:1154-1156 | the two queries agree on non-negative labels; on a negative label the query as written reads out of bounds and the corrected one reports not found |
| Draws.Drawn | pf/pf.c:384-392 | draw k copies the pose of source sample pick(k) |
| Draws.DrawCount | pf/pf.c:381-406 | from n < cap draws, the loop ends with a count in (n, cap] |
| Draws.Enough | pf/pf.c:403-405 | the break test of the draw loop: after n draws, n exceeds pf_resample_limit of the leaf count of the histogram of those draws |
| Draws.DrawCountFirstPass | pf/pf.c:403-405 | the loop ends at the first count that passes the KLD test, and no earlier count passes it |
| Draws.DrawStep | pf/pf.c:384-405 | one draw appends the picked pose, and ends the loop exactly when the KLD test passes |
| Draws.DrawCountBelowMax | pf/pf.c:381-406 | with min_samples <= max_samples the KLD test stops the loop by max_samples + 1 draws |
| Draws.Resampled | pf/pf.c:381-406 | never more poses than the cap |
| Draws.ResampledBounds | pf/pf.c:381-406 | at most cap poses, at least one when cap > 0, each a copy of a picked live pose, and fewer than cap only when the count exceeds the KLD limit of its histogram |
| Draws.EvenPicks | pf/pf.c:884-909 | after the weight reset, every picked live sample has positive weight, as the draw loop asserts |
| Proposals.Heading | pf/pf.c:515 | a uniform variate u in [0, 1) mapped to the heading (u - 0.5) * 2 pi |
| Proposals.Candidate | pf/pf.c:510-515 | attempt a for slot i: over the whole map, (u - 0.5) times the map's extent in x and y, with heading 0 as in pf_init_map or uniform as in pf_update_resample_addParticle; near a point, (u - 0.5) * var plus x and y with a uniform heading, as in pf_init_to_point |
| Proposals.Accepts | pf/pf.c:517-520 | a map-wide candidate is accepted when its cell is on the map and free; a candidate near a point when its cell is on the map, whatever its occupancy |
| Proposals.FirstAcceptUpTo | pf/pf.c:155-168 | an accepted attempt has a first accepted attempt at or before it |
| Proposals.FirstAcceptUnique | pf/pf.c:155-168 | the first accepted attempt is unique |
| Proposals.FirstAttempt | pf/pf.c:155-168 | the attempt the do-while loop stops at is accepted and no earlier one is |
| Proposals.Proposed | pf/pf.c:164-168 | the pose put in a slot passes the acceptance test |
| Proposals.Sampled | pf/pf.c:148-176 | n poses, slot by slot, each passing the acceptance test: a free cell for map-wide candidates, a cell on the map near a point |
| Proposals.RejectionSample | pf/pf.c:510-523 | the loop returns the first accepted candidate, and every earlier attempt was rejected |
| Hypotheses.HypCandidate | pf/pf.c:764-770 | try t of hypothesis j: the bivariate Gaussian offset plus the hypothesis mean, with a uniform heading, or heading 0 as in pf_update_resample_hyps_3 |
| Hypotheses.HypRun | pf/pf.c:758-788 | at most max(n, 0) kept tries, all in free cells |
| Hypotheses.HypsRun | pf/pf.c:757-789 | J hypotheses of n tries keep at most J * max(n, 0) poses, all in free cells |
| Hypotheses.Expand | pf/pf.c:1374-1410 | the expansion keeps the seeds as a prefix, never grows past nNewSample once started below it, adds nothing when the seeds already reach it, and adds only free-cell poses |
| Hypotheses.ExpandStep | pf/pf.c:1374-1409 | above pf_resample_limit_2 the expansion stops; otherwise it makes the next try and keeps it when its cell is free |
| Hypotheses.SeedTries | pf/pf.c:1327-1331 | nMinPart, the number of seed tries per hypothesis: min(nNewSample, 10) |
| Hypotheses.Block | pf/pf.c:1336-1410 | the scratch set of hypothesis j: the kept seed tries, then the expansion; its bound and free cells are stated by Hypotheses.BlockBounds |
| Hypotheses.RejectedRun | pf/pf.c:1339-1371 | when every one of the first n tries falls outside a free cell, no try is kept |
| Hypotheses.RejectedSeedsReachUndefinedLimit | pf/pf.c:1336-1378 | with nNewSample > 0 and every seed try rejected, no seed is kept, the expansion loop is entered, and its first test asks pf_resample_limit_2 for leaf_count 0, which has no defined result as written and gives min_samples once guarded |
| Hypotheses.BlockBounds | pf/pf.c:1328-1410 | a hypothesis's block holds at most nNewSample poses, all in free cells |
| Hypotheses.Carry | pf/pf.c:1414-1424 | the carried block has the same length and positions, with new headings |
| Hypotheses.Blocks | pf/pf.c:1334-1425 | the blocks of the first J hypotheses, each carried over with new headings, in order; bounded and free by Hypotheses.BlocksBounds and Hypotheses.BlocksFree |
| Hypotheses.BlocksBounds | pf/pf.c:1334-1425 | the blocks of J hypotheses hold at most J * nNewSample poses |
| Hypotheses.BlocksFree | pf/pf.c:1334-1425 | every carried pose lies in a free cell |
| Hypotheses.CarryFree | pf/pf.c:1417-1419 | carrying changes only headings, so free-cell poses stay in free cells |
| Hypotheses.ReqSamples | pf/pf.c:1268-1272 | nReqSamples is min(count, max_samples - overhead), within [0, max_samples] for a count in range |
| Hypotheses.SharedRoom | pf/pf.c:1324 | nHyp shares of room / nHyp (truncating) never exceed the room, and the share is not negative for non-negative room |
| Hypotheses.HypShare | pf/pf.c:743-751 | the drawn count plus nHyp shares never exceeds max_samples, and the shares never exceed nParticle |
| SampleSets.BackfillCount | pf/pf.c:619-622 | at most 100 and never past max_samples; none when min_samples + 10 were drawn; otherwise 100, or up to max_samples exactly |
| SampleSets.Series | pf/pf.c:107-114 | n poses, the i-th being the source's i-th value |
| SampleSets.MapResampled | pf/pf.c:582-649 | what pf_update_resample_map leaves: at most cap draws, then BackfillCount accepted map-wide poses; SampleSets.SampleSet.DrawThenBackfill and ParticleFilter.Filter.ResampleMap are proved equal to it |
| SampleSets.HypsResampled | pf/pf.c:702-789 | what pf_update_resample_hyps leaves: at most cap draws, then every hypothesis's kept tries of the share HypShare, whose bound is proved there |
| SampleSets.Injected | pf/pf.c:843-887 | what pf_update_resample_hyps_2 puts into the current set: its live poses, then every hypothesis's kept tries of (max_samples - sample_count) / nHyp, truncating |
| SampleSets.BlockResampled | pf/pf.c:1286-1425 | what pf_update_resample_hyps_3 leaves: at most nReqSamples draws, then the carried blocks of all hypotheses, each with nNewSample = (max_samples - nReqSamples) / nHyp |
| SampleSets.LastBlock | pf/pf.c:1336-1410 | what pf_update_resample_hyps_3 leaves in its scratch set: the block of the last hypothesis |
| SampleSets.SampleSet.constructor | pf/pf.c:49-68 | max_samples samples at the origin of weight 1/max_samples, so the weights are uniform; empty histogram; 100 zeroed cluster slots and no clusters |
| SampleSets.SampleSet.Append | pf/pf.c:391-397 | one more live sample of weight 1.0, inserted into the histogram when asked; the slots past it keep their contents |
| SampleSets.SampleSet.DrawFrom | pf/pf.c:376-406 | the set is emptied and its histogram cleared; afterwards both hold exactly the draws of Resampled, every weight is 1.0, and the total is the count |
| SampleSets.SampleSet.DrawNext | pf/pf.c:384-405 | one draw appended; the stop flag is the KLD test and holds exactly when the loop's final count is reached |
| SampleSets.SampleSet.NormalizeBy | pf/pf.c:413-417 | every live weight is divided by the total; the samples past the count are unchanged |
| SampleSets.SampleSet.RebuildTree | pf/pf.c:235-246 | the histogram holds exactly the live poses, in order |
| SampleSets.SampleSet.ClusterStats | pf/pf.c:1027-1111 | given a histogram holding exactly the live poses, the table and cluster_count are those of ClusterTable for the live samples and the histogram |
| SampleSets.SampleSet.ZeroClusters | pf/pf.c:1036-1050 | every slot zero and no clusters |
| SampleSets.SampleSet.GatherClusters | pf/pf.c:1052-1082 | given a histogram holding exactly the live poses, the table equals Gather over the live samples |
| SampleSets.SampleSet.FinishClusters | pf/pf.c:1085-1108 | the first cluster_count slots are finished, the rest untouched |
| SampleSets.SampleSet.ClusterSet | pf/pf.c:254-285 | the histogram holds the live poses and the cluster table is recomputed from them |
| SampleSets.SampleSet.Moments | pf/pf.c:1122-1135 | the loop's sums are the total weight and the weighted sums of x, y and x*x + y*y of the live samples |
| SampleSets.SampleSet.GetClusterStatsSet | pf/pf.c:1166-1179 | not found exactly when the label is outside [0, cluster_count); otherwise the slot's statistics |
| SampleSets.SampleSet.AppendFromMap | pf/pf.c:502-531 | exactly n map-wide accepted poses appended with weight 1.0 and inserted; the total grows by n |
| SampleSets.SampleSet.BackfillFromMap | pf/pf.c:618-649 | exactly BackfillCount accepted poses appended and inserted, so never past max_samples; the total grows by their number |
| SampleSets.SampleSet.AppendTries | pf/pf.c:758-788 | exactly the free-cell tries of one hypothesis appended with weight 1.0, inserted only when tracked |
| SampleSets.SampleSet.AppendTry | pf/pf.c:759-787 | a try is appended exactly when its cell is free |
| SampleSets.SampleSet.AppendHypotheses | pf/pf.c:757-789 | the kept tries of every hypothesis appended in order, inserted only when tracked; the total grows by their number |
| SampleSets.SampleSet.GrowBlock | pf/pf.c:1336-1410 | the scratch set is emptied and ends holding exactly the hypothesis's block, every sample fresh, the histogram tracking it |
| SampleSets.SampleSet.CarryFrom | pf/pf.c:1414-1424 | the scratch set's live poses appended and inserted, in order, with new headings |
| SampleSets.SampleSet.SpreadEvenly | pf/pf.c:884-887 | same poses, every weight 1/sample_count |
| SampleSets.SampleSet.FillSeries | pf/pf.c:100-114 | the histogram is cleared; n samples at the source's poses with weight 1/n, all inserted |
| SampleSets.SampleSet.FillSampled | pf/pf.c:134-176 | the histogram is cleared; n accepted poses with weight 1/n, all inserted |
| SampleSets.SampleSet.NormalizeSensed | pf/pf.c:322-346 | a positive total divides the weights, any other resets them to 1/sample_count; the result is the sum of the new squared weights |
| SampleSets.SampleSet.DivideSquared | pf/pf.c:325-331 | weights divided by the total, and the sum of their squares returned |
| SampleSets.SampleSet.ResetSquared | pf/pf.c:336-341 | weights reset to 1/sample_count, and the sum of their squares returned |
| SampleSets.SampleSet.InjectHypotheses | pf/pf.c:843-887 | the live poses grow by the kept tries of an even share of the room left, without touching the histogram, and every weight becomes 1/sample_count |
| SampleSets.SampleSet.CarryBlocks | pf/pf.c:1334-1425 | all hypotheses' blocks carried over in order; the scratch set ends with the last block |
| SampleSets.SampleSet.CarryBlock | pf/pf.c:1335-1424 | one more block grown in the scratch set and carried over |
| SampleSets.SampleSet.DrawThenMap | pf/pf.c:459-531 | the draws capped at max_samples - nPartToAdd, then nPartToAdd accepted poses, all of weight 1.0, total = count |
| SampleSets.SampleSet.DrawThenBackfill | pf/pf.c:582-649 | the draws then the backfill, all of weight 1.0, total = count |
| SampleSets.SampleSet.DrawThenHyps | pf/pf.c:702-789 | the draws then every hypothesis's kept tries, all of weight 1.0, total = count |
| SampleSets.SampleSet.InjectThenDraw | pf/pf.c:843-927 | the source set receives the hypothesis tries and even weights, its histogram untouched; this set holds at most max_samples - 1000 draws from it |
| SampleSets.SampleSet.DrawThenBlocks | pf/pf.c:1286-1425 | at most nReqSamples draws, then every hypothesis's carried block; the scratch set ends holding the last block |
| SampleSets.SampleSet.CarryAfterDraw | pf/pf.c:1324-1425 | after the draws, the shared room gives nNewSample per hypothesis, and the blocks follow the draws |
| ParticleFilter.Filter.Params | pf/pf.c:956-976 | the KLD parameters carry the filter's min_samples and max_samples |
| ParticleFilter.Filter.Current | pf/pf.c:358 | the current set is one of the two sets |
| ParticleFilter.Filter.Other | pf/pf.c:359 | the set every resampler writes is one of the two sets |
| ParticleFilter.Filter.constructor | pf/pf.c:26-74 | both sets full of max_samples origin samples of uniform weight; empty histograms and cluster tables; error 0.01, z 3; set 0 current |
| ParticleFilter.Filter.Draw | pf/pf.c:376-406 | the other set holds exactly the draws from the current set's live poses |
| ParticleFilter.Filter.Adopt | pf/pf.c:413-423 | given a histogram holding exactly the other set's live poses, the other set's weights divided by the total, its clusters recomputed, and the sets swapped |
| ParticleFilter.Filter.AdoptFresh | pf/pf.c:413-423 | with weight-1.0 samples and total = count, the new current set has every weight at 1/sample_count |
| ParticleFilter.Filter.Resample | pf/pf.c:350-428 | the new current set holds exactly the draws of Resampled, capped at nMaxParticles, with uniform weights and fresh clusters; the old set is unchanged |
| ParticleFilter.Filter.ResampleAddParticle | pf/pf.c:430-552 | the new set holds the draws capped at max_samples - nPartToAdd, then nPartToAdd accepted poses; uniform weights; clusters recomputed |
| ParticleFilter.Filter.ResampleMap | pf/pf.c:555-671 | the new set holds the draws capped at max_samples - overhead, then BackfillCount accepted poses; uniform weights; clusters recomputed |
| ParticleFilter.Filter.ResampleHyps | pf/pf.c:673-813 | the new set holds the draws, then each hypothesis's kept tries of an even share of min(room, nParticle); uniform weights; clusters recomputed |
| ParticleFilter.Filter.ResampleHyps2 | pf/pf.c:815-952 | the old set gains the kept tries (histogram untouched) and even weights; the new set holds at most max_samples - 1000 draws from it; uniform weights; clusters recomputed |
| ParticleFilter.Filter.ResampleHyps3 | pf/pf.c:1240-1446 | the new set holds at most nReqSamples draws, then every hypothesis's carried block; uniform weights; clusters recomputed; the old set ends holding the last block |
| ParticleFilter.Filter.InitGaussian | pf/pf.c:91-122 | max_samples Gaussian poses of weight 1/max_samples, all in the histogram, and clusters recomputed |
| ParticleFilter.Filter.InitMap | pf/pf.c:126-184 | max_samples poses from the map-wide sampler, each in a free cell, of weight 1/max_samples, all in the histogram, clusters recomputed |
| ParticleFilter.Filter.InitModel | pf/pf.c:187-213 | max_samples poses from the init function, weight 1/max_samples, all in the histogram, clusters recomputed |
| ParticleFilter.Filter.InitToPoint | pf/pf.c:1181-1238 | max_samples poses near (x, y), each on the map whatever its occupancy, weight 1/max_samples, all in the histogram, clusters recomputed |
| ParticleFilter.Filter.UpdateActionUpdateCluster | pf/pf.c:228-252 | the samples are unchanged, the histogram holds exactly the live poses, and the clusters are recomputed |
| ParticleFilter.Filter.UpdateSensor | pf/pf.c:288-347 | a positive total divides the weights (summing to 1 when it is their total); any other total resets them to 1/sample_count (summing to 1, squares summing to 1/sample_count); the result is the sum of the new squared weights |
| ParticleFilter.Filter.GetCepStats | pf/pf.c:1114-1144 | the mean is the weighted centroid and the variance is the weighted mean squared distance from it; nothing exactly when the weights sum to 0 |
| ParticleFilter.Filter.GetClusterStats | pf/pf.c:1147-1163 | found exactly when 0 <= clabel < cluster_count, and then the slot's weight, mean and covariance |

## Left out

- Random number generation (`gsl_rng_*`, `gsl_ran_bivariate_gaussian`,
  `pf_pdf_discrete_sample`, `pf_pdf_gaussian_sample`) and its time-based
  seeding are oracles in `Types.Rng`. The draw oracle is required to pick
  live samples of positive weight, which the draw loops assert.
- The C math library, the kd-tree (`pf_kdtree_*`) and the map macros are
  function parameters. Their source is not part of this model.
- IEEE floating point: weights are `real`. The model has no rounding, NaN
  or infinity. Where C divides by a quantity that may be zero (a cluster of
  zero weight), `Types.Quot` gives 0.
- ParticleFilter.Filter.GetCepStats: returns nothing when the weights sum
  to 0, where the C code returns NaN or infinite values.
- Integer overflow: `int` is unbounded in the model, so the 32-bit
  arithmetic of the counts (including `3 * max_samples`) is assumed not to
  wrap.
- The do-while rejection loops can spin forever on a map with no
  acceptable cell. Each caller requires that every slot it fills has an
  accepted attempt.
- ParticleFilter.Filter.ResampleHyps3: the expansion loop of each
  hypothesis is bounded by a `fuel` count of tries. It has no progress
  guarantee in C, so the model says nothing about runs longer than the
  fuel.
- ParticleFilter.Filter.ResampleHyps3: uses `pf_resample_limit_2` with
  the k <= 1 guard restored; see Findings.
- `pf_update_action`: it only calls the motion callback. The callback,
  like the sensor callback of `pf_update_sensor`, is outside the model. The
  sensor update takes the callback's returned total as a parameter.
- `pf_free`, the allocations in `pf_alloc` and `pf_cluster_set`, and the
  `printf`/`fprintf` diagnostics. `pf_cluster_set`'s fresh kd-tree is
  modelled as a cleared one.
- `pf_kdtree_alloc(3 * max_samples)` capacity is not modelled; the
  histogram is unbounded.
- The hypotheses' covariance and `rho` only feed the bivariate sampler, so
  a hypothesis is modelled by its mean.
- `sumSquareWeights` is set by `pf_alloc` and never updated in C; the
  model keeps it as a field with that behaviour.
- `overHead_samples` is required to lie in [0, max_samples]
  (ParticleFilter.Filter.constructor); outside that range the C code
  writes past the sample arrays, which the model cannot represent:
  - below 0, the draw caps of `pf_update_resample_map` and
    `pf_update_resample_hyps`, `max_samples - overHead_samples`
    (pf/pf.c:586, pf/pf.c:707), exceed max_samples, and the clamped KLD
    limit stops the loop only at `max_samples + 1` draws, one past the
    array;
  - above max_samples, those caps are negative and nothing is drawn, but
    `pf_update_resample_hyps_3` sets `nReqSamples` to
    `max_samples - overHead_samples < 0` (pf/pf.c:1268-1270), so
    `nNewSample` becomes `overHead_samples / nHyp` (pf/pf.c:1324), which
    can exceed max_samples; its scratch loop (pf/pf.c:1336-1410) and carry
    loop (pf/pf.c:1414-1424) can then write past both sets.
- ParticleFilter.Filter.Resample: requires `nMaxParticles <= max_samples`.
  The C loop accepts any `nMaxParticles` (pf/pf.c:381); above max_samples
  it is stopped by the clamped KLD limit only at `max_samples + 1` draws,
  one past the sample array.
- The kd-tree's cluster labels are natural numbers. `pf_kdtree_get_cluster`
  returns -1 for a pose whose cell the tree does not hold, and
  `pf_cluster_stats` aborts on it with `assert(c >= 0)` (pf/pf.c:1059-1060).
  That abort is not modelled. SampleSets.SampleSet.ClusterStats,
  SampleSets.SampleSet.GatherClusters and ParticleFilter.Filter.Adopt require
  the histogram to hold exactly the live poses, which every caller meets, so
  no live pose lacks a cell in the tree.
- ParticleFilter.Filter.GetClusterStats and
  SampleSets.SampleSet.GetClusterStatsSet: refuse negative labels as well,
  where the C code refuses only `clabel >= cluster_count`
  (pf/pf.c:1154, pf/pf.c:1170); the code as written is
  Clusters.ClusterLookupAsWritten. See Findings.
- ParticleFilter.Filter.ResampleAddParticle, ParticleFilter.Filter.ResampleMap,
  ParticleFilter.Filter.ResampleHyps: that the previously current set is
  left untouched is stated by their `modifies` clauses, not by an `ensures`.

## Findings

| source | as written | input that shows it | evidently intended | confidence | as-written member | corrected member |
|---|---|---|---|---|---|---|
| pf/pf.c:1154-1156, pf/pf.c:1170-1172 | only `clabel >= cluster_count` is refused, so a negative label reads `clusters[clabel]` before the table | `clabel = -1`, with any `cluster_count`, 0 included | report "not found" for every label outside `[0, cluster_count)` | high, not executed | Clusters.ClusterLookupAsWritten (shown by Clusters.NegativeLabelOutOfBounds) | Clusters.ClusterLookup |
| pf/pf.c:984-992, pf/pf.c:1374-1378 | `pf_resample_limit_2` has its `k <= 1` guard commented out; the `_hyps_3` expansion loop calls it with the scratch histogram's leaf_count, which is 0 when every seed was rejected and 1 when all seeds share a cell; the square root of a negative number or a division by zero then gives NaN, whose conversion to `int` is undefined | a hypothesis whose `min(nNewSample, 10)` seeds all fall in occupied cells, with `nNewSample > 0` | the guard of `pf_resample_limit`: `min_samples` for `k <= 1` | medium, not executed | KldLimit.ResampleLimitTwoAsWritten (shown by KldLimit.EmptyHistogramLimitUndefined and Hypotheses.RejectedSeedsReachUndefinedLimit) | KldLimit.ResampleLimitTwo |
