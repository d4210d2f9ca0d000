/** The KLD population limits of pf/pf.c: how many samples a resampler
    needs once its histogram has k occupied bins (Fox et al.). The square
    root is the math library's, passed in; ceil() is exact. */
module KldLimit {
  import opened Types

  /** The population parameters a filter carries: the bounds on the
      number of samples, the quantile z and the error bound of the KLD
      test, and the square root of the math library. */
  datatype KldParams = KldParams(
    minSamples: int, maxSamples: int, popZ: real, popErr: real, sqrt: real -> real)

  /** The raw bound ceil((k - 1) / (2 err) * x^3) with
      x = 1 - 2/(9(k-1)) + sqrt(2/(9(k-1))) z, defined for k >= 2. */
  function FoxBound(sqrt: real -> real, k: int, popZ: real, popErr: real): int
    requires k >= 2 && popErr != 0.0
  {
    var b := 2.0 / (9.0 * (k - 1) as real);
    var x := 1.0 - b + sqrt(b) * popZ;
    Ceil((k - 1) as real / (2.0 * popErr) * x * x * x)
  }

  /** pf_resample_limit_hyps: the Fox bound for the given z and error,
      min_samples when k <= 1, and clamped to [min_samples, max_samples]. */
  function ResampleLimitHyps(p: KldParams, k: int, popZ: real, popErr: real): (r: int)
    requires popErr != 0.0
    ensures k <= 1 ==> r == p.minSamples
    ensures k >= 2 && p.minSamples <= p.maxSamples ==> p.minSamples <= r <= p.maxSamples
    ensures k >= 2 ==>
              var n := FoxBound(p.sqrt, k, popZ, popErr);
              && (n < p.minSamples ==> r == p.minSamples)
              && (p.minSamples <= n < p.maxSamples ==> r == n)
              && (p.minSamples <= n && p.maxSamples <= n ==> r == p.maxSamples)
  {
    if k <= 1 then p.minSamples
    else
      var n := FoxBound(p.sqrt, k, popZ, popErr);
      if n < p.minSamples then p.minSamples
      else if n >= p.maxSamples then p.maxSamples
      else n
  }

  /** pf_resample_limit: the same limit with the filter's own z and error. */
  function ResampleLimit(p: KldParams, k: int): (r: int)
    requires p.popErr != 0.0
    ensures k <= 1 ==> r == p.minSamples
    ensures p.minSamples <= p.maxSamples ==> p.minSamples <= r <= p.maxSamples
  {
    ResampleLimitHyps(p, k, p.popZ, p.popErr)
  }

  /** pf_resample_limit_2 as written: the unclamped bound with five times
      the error and no k <= 1 guard. For k <= 1 the C expression takes the
      square root of a negative number or divides by zero, and converts
      the resulting NaN to int, which is undefined; that case is None. */
  function ResampleLimitTwoAsWritten(p: KldParams, k: int): (r: Option<int>)
    requires p.popErr != 0.0
    ensures r.None? <==> k <= 1
    ensures r.Some? ==> r.value == FoxBound(p.sqrt, k, p.popZ, 5.0 * p.popErr)
  {
    if k <= 1 then None else Some(FoxBound(p.sqrt, k, p.popZ, 5.0 * p.popErr))
  }

  /** pf_resample_limit_2 with the k <= 1 guard of pf_resample_limit
      restored: min_samples when k <= 1, the unclamped bound otherwise. */
  function ResampleLimitTwo(p: KldParams, k: int): (r: int)
    requires p.popErr != 0.0
    ensures k <= 1 ==> r == p.minSamples
    ensures k >= 2 ==> Some(r) == ResampleLimitTwoAsWritten(p, k)
  {
    if k <= 1 then p.minSamples else FoxBound(p.sqrt, k, p.popZ, 5.0 * p.popErr)
  }

  /** pf_resample_limit_2 is pf_resample_limit_hyps with five times the
      error and the clamp taken away: where the bound already lies in
      [min_samples, max_samples) the two agree. */
  lemma LimitTwoIsUnclampedLimit(p: KldParams, k: int)
    requires p.popErr != 0.0 && k >= 2
    requires p.minSamples <= ResampleLimitTwo(p, k) < p.maxSamples
    ensures ResampleLimitHyps(p, k, p.popZ, 5.0 * p.popErr) == ResampleLimitTwo(p, k)
  {
  }

  /** The value the expansion loop of pf_update_resample_hyps_3 meets when
      every seed of a hypothesis was rejected: its histogram is empty, so
      leaf_count is 0 and pf_resample_limit_2 has no defined result. */
  lemma EmptyHistogramLimitUndefined(p: KldParams)
    requires p.popErr != 0.0
    ensures ResampleLimitTwoAsWritten(p, 0) == None
    ensures ResampleLimitTwoAsWritten(p, 1) == None
    ensures ResampleLimitTwo(p, 0) == p.minSamples
  {
  }
}
