/** The poses the hypothesis resamplers of pf/pf.c inject around external
    pose hypotheses (pf_update_resample_hyps, _hyps_2 and _hyps_3). Every
    try draws a bivariate Gaussian offset from the hypothesis mean; the try
    is kept when it lands in a free map cell, and dropped otherwise (there
    is no retry). */
module Hypotheses {
  import opened Types
  import opened Proposals
  import opened Histogram
  import opened KldLimit

  /** Try t for hypothesis j: its mean plus the t-th offset, with heading 0
      (pf_update_resample_hyps_3) or a uniform heading (the other two). */
  function HypCandidate(hyps: seq<Hyp>, rng: Rng, j: nat, t: nat, zeroHeading: bool): Pose
    requires j < |hyps|
  {
    var d := rng.bivariate(j, t);
    Pose(hyps[j].meanX + d.0, hyps[j].meanY + d.1, if zeroHeading then 0.0 else Heading(rng.spin(j, t)))
  }

  /** The poses kept among tries 0 .. n-1 for hypothesis j, in order. */
  function HypRun(m: GridMap, hyps: seq<Hyp>, rng: Rng, j: nat, n: int, zeroHeading: bool): (ps: seq<Pose>)
    requires j < |hyps|
    ensures |ps| <= Max0(n)
    ensures AllFree(m, ps)
    decreases n
  {
    if n <= 0 then []
    else
      var c := HypCandidate(hyps, rng, j, n - 1, zeroHeading);
      HypRun(m, hyps, rng, j, n - 1, zeroHeading) + (if FreeCell(m, c) then [c] else [])
  }

  /** The poses kept for hypotheses 0 .. J-1 with n tries each, hypothesis
      by hypothesis: what pf_update_resample_hyps and _hyps_2 append. */
  function HypsRun(m: GridMap, hyps: seq<Hyp>, rng: Rng, J: nat, n: int): (ps: seq<Pose>)
    requires J <= |hyps|
    ensures |ps| <= Times(J, Max0(n))
    ensures AllFree(m, ps)
  {
    if J == 0 then []
    else
      var prev := HypsRun(m, hyps, rng, J - 1, n);
      var run := HypRun(m, hyps, rng, J - 1, n, false);
      prev + run
  }

  /** The expansion loop of pf_update_resample_hyps_3 for hypothesis j,
      started with the kept seeds ps at try t: while fewer than target poses
      are kept and the count does not exceed pf_resample_limit_2 of their
      histogram, one more try. fuel bounds the number of tries. */
  function Expand(p: KldParams, key: Pose -> BinKey, m: GridMap, hyps: seq<Hyp>, rng: Rng, j: nat,
                  ps: seq<Pose>, t: nat, target: int, fuel: nat): (r: seq<Pose>)
    requires p.popErr != 0.0 && j < |hyps|
    ensures |r| >= |ps| && r[..|ps|] == ps
    ensures |ps| < target ==> |r| <= target
    ensures |ps| >= target ==> r == ps
    ensures AllFree(m, r[|ps|..])
    decreases fuel
  {
    if |ps| >= target || fuel == 0 then ps
    else if |ps| > ResampleLimitTwo(p, LeafCount(key, ps)) then ps
    else
      var c := HypCandidate(hyps, rng, j, t, true);
      var next := if FreeCell(m, c) then ps + [c] else ps;
      var r := Expand(p, key, m, hyps, rng, j, next, t + 1, target, fuel - 1);
      assert r[..|ps|] == r[..|next|][..|ps|];
      assert r[|ps|..] == r[|ps|..|next|] + r[|next|..];
      assert r[|ps|..|next|] == r[..|next|][|ps|..] == next[|ps|..];
      assert AllFree(m, next[|ps|..]);
      ConcatFree(m, next[|ps|..], r[|next|..]);
      r
  }

  /** One step of the expansion loop: below the target and within the
      limit, the next try is made and kept when its cell is free; above
      the limit, the loop stops. */
  lemma ExpandStep(p: KldParams, key: Pose -> BinKey, m: GridMap, hyps: seq<Hyp>, rng: Rng, j: nat,
                   ps: seq<Pose>, t: nat, target: int, fuel: nat)
    requires p.popErr != 0.0 && j < |hyps| && |ps| < target && fuel > 0
    ensures |ps| > ResampleLimitTwo(p, LeafCount(key, ps)) ==>
              Expand(p, key, m, hyps, rng, j, ps, t, target, fuel) == ps
    ensures var c := HypCandidate(hyps, rng, j, t, true);
            |ps| <= ResampleLimitTwo(p, LeafCount(key, ps)) ==>
              Expand(p, key, m, hyps, rng, j, ps, t, target, fuel)
              == Expand(p, key, m, hyps, rng, j, if FreeCell(m, c) then ps + [c] else ps, t + 1, target, fuel - 1)
  {
  }

  /** min(nNewSample, 10): the seeds tried per hypothesis. */
  function SeedTries(nNew: int): int {
    if nNew > 10 then 10 else nNew
  }

  /** The poses pf_update_resample_hyps_3 gathers for hypothesis j in its
      scratch set: the kept seeds, then the expansion. */
  function Block(p: KldParams, key: Pose -> BinKey, m: GridMap, hyps: seq<Hyp>, rng: Rng, j: nat,
                 nNew: int, fuel: nat): (r: seq<Pose>)
    requires p.popErr != 0.0 && j < |hyps|
  {
    var nMin := SeedTries(nNew);
    Expand(p, key, m, hyps, rng, j, HypRun(m, hyps, rng, j, nMin, true), Max0(nMin), nNew, fuel)
  }

  /** A block has at most nNewSample poses, all in free cells. */
  lemma BlockBounds(p: KldParams, key: Pose -> BinKey, m: GridMap, hyps: seq<Hyp>, rng: Rng, j: nat,
                    nNew: int, fuel: nat)
    requires p.popErr != 0.0 && j < |hyps|
    ensures |Block(p, key, m, hyps, rng, j, nNew, fuel)| <= Max0(nNew)
    ensures AllFree(m, Block(p, key, m, hyps, rng, j, nNew, fuel))
  {
    var seeds := HypRun(m, hyps, rng, j, SeedTries(nNew), true);
    var r := Block(p, key, m, hyps, rng, j, nNew, fuel);
    assert |seeds| <= Max0(nNew);
    assert r == seeds + r[|seeds|..];
    ConcatFree(m, seeds, r[|seeds|..]);
  }

  /** When every one of the first n tries is rejected, nothing is kept. */
  lemma {:induction false} RejectedRun(m: GridMap, hyps: seq<Hyp>, rng: Rng, j: nat, n: int, zeroHeading: bool)
    requires j < |hyps|
    requires forall t: nat :: t < n ==> !FreeCell(m, HypCandidate(hyps, rng, j, t, zeroHeading))
    ensures HypRun(m, hyps, rng, j, n, zeroHeading) == []
    decreases n
  {
    if n > 0 {
      RejectedRun(m, hyps, rng, j, n - 1, zeroHeading);
      assert !FreeCell(m, HypCandidate(hyps, rng, j, n - 1, zeroHeading));
    }
  }

  /** The input that reaches the undefined limit of pf_update_resample_hyps_3:
      a hypothesis with nNewSample > 0 whose seed tries all land outside free
      cells keeps no seed, so its histogram is empty, the expansion loop's
      guard (fewer than nNewSample kept) holds, and its first test calls
      pf_resample_limit_2 with leaf_count 0, which has no defined result as
      written. With the guard restored the loop goes on with min_samples. */
  lemma RejectedSeedsReachUndefinedLimit(p: KldParams, key: Pose -> BinKey, m: GridMap, hyps: seq<Hyp>,
                                         rng: Rng, j: nat, nNew: int)
    requires p.popErr != 0.0 && j < |hyps| && nNew > 0
    requires forall t: nat :: t < SeedTries(nNew) ==> !FreeCell(m, HypCandidate(hyps, rng, j, t, true))
    ensures var seeds := HypRun(m, hyps, rng, j, SeedTries(nNew), true);
            && seeds == [] && |seeds| < nNew
            && LeafCount(key, seeds) == 0
            && ResampleLimitTwoAsWritten(p, LeafCount(key, seeds)) == None
            && ResampleLimitTwo(p, LeafCount(key, seeds)) == p.minSamples
  {
    RejectedRun(m, hyps, rng, j, SeedTries(nNew), true);
    LeafCountBounds(key, []);
  }

  /** The block carried into the new set: the same positions, each with the
      i-th uniform heading. */
  function Carry(rng: Rng, j: nat, ps: seq<Pose>): (r: seq<Pose>)
    ensures |r| == |ps|
    ensures forall i :: 0 <= i < |ps| ==> r[i].x == ps[i].x && r[i].y == ps[i].y
  {
    seq(|ps|, i requires 0 <= i < |ps| => Pose(ps[i].x, ps[i].y, Heading(rng.spin(j, i))))
  }

  /** The poses pf_update_resample_hyps_3 appends for hypotheses 0 .. J-1. */
  function Blocks(p: KldParams, key: Pose -> BinKey, m: GridMap, hyps: seq<Hyp>, rng: Rng, J: nat,
                  nNew: int, fuel: nat): (r: seq<Pose>)
    requires p.popErr != 0.0 && J <= |hyps|
  {
    if J == 0 then []
    else Blocks(p, key, m, hyps, rng, J - 1, nNew, fuel) + Carry(rng, J - 1, Block(p, key, m, hyps, rng, J - 1, nNew, fuel))
  }

  /** J blocks hold at most J * nNewSample poses. */
  lemma {:induction false} BlocksBounds(p: KldParams, key: Pose -> BinKey, m: GridMap, hyps: seq<Hyp>, rng: Rng, J: nat,
                                        nNew: int, fuel: nat)
    requires p.popErr != 0.0 && J <= |hyps|
    ensures |Blocks(p, key, m, hyps, rng, J, nNew, fuel)| <= Times(J, Max0(nNew))
  {
    if J > 0 {
      BlocksBounds(p, key, m, hyps, rng, J - 1, nNew, fuel);
      BlockBounds(p, key, m, hyps, rng, J - 1, nNew, fuel);
    }
  }

  /** Every pose of the J blocks lies in a free cell. */
  lemma {:induction false} BlocksFree(p: KldParams, key: Pose -> BinKey, m: GridMap, hyps: seq<Hyp>, rng: Rng, J: nat,
                                      nNew: int, fuel: nat)
    requires p.popErr != 0.0 && J <= |hyps|
    ensures AllFree(m, Blocks(p, key, m, hyps, rng, J, nNew, fuel))
  {
    if J > 0 {
      BlocksFree(p, key, m, hyps, rng, J - 1, nNew, fuel);
      assert AllFree(m, Blocks(p, key, m, hyps, rng, J - 1, nNew, fuel));
      BlockBounds(p, key, m, hyps, rng, J - 1, nNew, fuel);
      assert AllFree(m, Block(p, key, m, hyps, rng, J - 1, nNew, fuel));
      CarryOnto(m, rng, J - 1, Blocks(p, key, m, hyps, rng, J - 1, nNew, fuel),
                Block(p, key, m, hyps, rng, J - 1, nNew, fuel));
    }
  }

  /** A block carried onto a run, both in free cells, leaves every pose in
      a free cell. */
  lemma CarryOnto(m: GridMap, rng: Rng, j: nat, ps: seq<Pose>, b: seq<Pose>)
    requires AllFree(m, ps) && AllFree(m, b)
    ensures AllFree(m, ps + Carry(rng, j, b))
  {
    CarryFree(m, rng, j, b);
    ConcatFree(m, ps, Carry(rng, j, b));
  }

  /** Two runs of poses in free cells make one. */
  lemma ConcatFree(m: GridMap, ps: seq<Pose>, qs: seq<Pose>)
    requires AllFree(m, ps) && AllFree(m, qs)
    ensures AllFree(m, ps + qs)
  {
    forall k | 0 <= k < |ps + qs|
      ensures FreeCell(m, (ps + qs)[k])
    {
      if k >= |ps| {
        assert (ps + qs)[k] == qs[k - |ps|];
      }
    }
  }

  /** Carrying a block keeps every pose in its cell. */
  lemma CarryFree(m: GridMap, rng: Rng, j: nat, ps: seq<Pose>)
    requires AllFree(m, ps)
    ensures AllFree(m, Carry(rng, j, ps))
  {
  }

  /** nReqSamples of pf_update_resample_hyps_3: max_samples - overhead when
      fewer than overhead slots are free, else the current count. */
  function ReqSamples(maxSamples: int, overHead: int, count: int): (r: int)
    ensures r == Min(count, maxSamples - overHead)
    ensures 0 <= overHead <= maxSamples && 0 <= count <= maxSamples ==> 0 <= r <= maxSamples
  {
    if maxSamples - count < overHead then maxSamples - overHead else count
  }

  /** nNewSample = room / nHyp (truncating) for nHyp hypotheses never
      overflows the room left: nHyp * nNewSample <= room. */
  lemma SharedRoom(room: int, nHyp: int)
    requires nHyp >= 1
    ensures Times(nHyp, Max0(CDiv(room, nHyp))) <= Max0(room)
    ensures room >= 0 ==> CDiv(room, nHyp) >= 0
  {
    var q := CDiv(room, nHyp);
    CDivBounds(room, nHyp);
    TimesIsProduct(nHyp, Max0(q));
    if room >= 0 {
      if q < 0 {
        NegativeMultiple(q, nHyp);
      }
      assert nHyp * Max0(q) == q * nHyp;
    } else if q > 0 {
      MulNonNegative(q - 1, nHyp);
      assert false;
    }
  }

  /** nNewSample of pf_update_resample_hyps: the room left after drawing,
      capped at nParticle and shared out among nHyp hypotheses. */
  function HypShare(drawn: int, maxSamples: int, nParticle: int, nHyp: int): (r: int)
    requires nHyp >= 1 && drawn <= maxSamples
    ensures drawn + Times(nHyp, Max0(r)) <= maxSamples
    ensures Times(nHyp, Max0(r)) <= Max0(nParticle)
  {
    var room := Min(maxSamples - drawn, nParticle);
    SharedRoom(room, nHyp);
    CDiv(room, nHyp)
  }
}
