/** The KLD-bounded draw loop shared by every resampler of pf/pf.c
    (pf_update_resample and its variants): sample k copies the pose of
    source sample pick(k), is inserted into the histogram, and the loop
    stops at the cap or as soon as the count exceeds the KLD limit for the
    histogram's leaf count. */
module Draws {
  import opened Types
  import opened Histogram
  import opened KldLimit
  import opened Weights

  /** The draw oracle only picks live source samples. */
  ghost predicate PicksBelow(pick: nat -> nat, n: int, count: int) {
    forall k: nat :: k < n ==> pick(k) < count
  }

  /** The draw oracle picks live samples of positive weight, as the draw
      loops assert. */
  ghost predicate ValidPicks(s: seq<Sample>, pick: nat -> nat, cap: int) {
    && PicksBelow(pick, cap, |s|)
    && forall k: nat :: k < cap && pick(k) < |s| ==> s[pick(k)].weight > 0.0
  }

  /** The poses of the first n draws. */
  function Drawn(src: seq<Pose>, pick: nat -> nat, n: nat): (ps: seq<Pose>)
    requires PicksBelow(pick, n, |src|)
    ensures |ps| == n
    ensures forall k :: 0 <= k < n ==> ps[k] == src[pick(k)]
  {
    seq(n, k requires 0 <= k < n => src[pick(k)])
  }

  /** The loop has drawn n samples and their histogram satisfies the KLD
      test: the break condition. */
  predicate Enough(p: KldParams, key: Pose -> BinKey, src: seq<Pose>, pick: nat -> nat, n: nat)
    requires p.popErr != 0.0 && PicksBelow(pick, n, |src|)
  {
    n > ResampleLimit(p, LeafCount(key, Drawn(src, pick, n)))
  }

  /** The number of samples the draw loop ends with, when it has drawn n
      so far without breaking. It is the first count after n at which the
      KLD test passes, or the cap if the test never passes before it. */
  function DrawCount(p: KldParams, key: Pose -> BinKey, src: seq<Pose>, pick: nat -> nat, cap: int, n: nat): (m: nat)
    requires p.popErr != 0.0 && PicksBelow(pick, cap, |src|)
    ensures n >= cap ==> m == n
    ensures n < cap ==> n < m <= cap
    decreases cap - n
  {
    if n >= cap then n
    else if Enough(p, key, src, pick, n + 1) then n + 1
    else DrawCount(p, key, src, pick, cap, n + 1)
  }

  /** The draw loop stops at the first count after n that passes the KLD
      test, and otherwise runs up to the cap. */
  lemma {:induction false} DrawCountFirstPass(p: KldParams, key: Pose -> BinKey, src: seq<Pose>, pick: nat -> nat,
                                              cap: int, n: nat)
    requires p.popErr != 0.0 && PicksBelow(pick, cap, |src|)
    ensures n < DrawCount(p, key, src, pick, cap, n) < cap ==>
              Enough(p, key, src, pick, DrawCount(p, key, src, pick, cap, n))
    ensures forall j: nat :: n < j < DrawCount(p, key, src, pick, cap, n) ==> !Enough(p, key, src, pick, j)
    decreases cap - n
  {
    if n < cap && !Enough(p, key, src, pick, n + 1) {
      DrawCountFirstPass(p, key, src, pick, cap, n + 1);
    }
  }

  /** One more draw: the drawn poses grow by the picked pose, and the
      final count is reached now if the KLD test passes, else later. */
  lemma DrawStep(p: KldParams, key: Pose -> BinKey, src: seq<Pose>, pick: nat -> nat, cap: int, n: nat)
    requires p.popErr != 0.0 && PicksBelow(pick, cap, |src|) && n < cap
    ensures Drawn(src, pick, n + 1) == Drawn(src, pick, n) + [src[pick(n)]]
    ensures Enough(p, key, src, pick, n + 1) ==> DrawCount(p, key, src, pick, cap, n) == n + 1
    ensures !Enough(p, key, src, pick, n + 1) ==>
              DrawCount(p, key, src, pick, cap, n) == DrawCount(p, key, src, pick, cap, n + 1)
  {
    assert Drawn(src, pick, n + 1) == Drawn(src, pick, n) + [src[pick(n)]];
  }

  /** With min_samples <= max_samples and a cap of at least max_samples,
      the loop stops by the KLD test at max_samples + 1 at the latest. */
  lemma DrawCountBelowMax(p: KldParams, key: Pose -> BinKey, src: seq<Pose>, pick: nat -> nat, cap: int)
    requires p.popErr != 0.0 && PicksBelow(pick, cap, |src|)
    requires p.minSamples <= p.maxSamples && 0 <= p.maxSamples
    ensures DrawCount(p, key, src, pick, cap, 0) <= p.maxSamples + 1
  {
    var m := DrawCount(p, key, src, pick, cap, 0);
    DrawCountFirstPass(p, key, src, pick, cap, 0);
    if m > p.maxSamples + 1 {
      var j: nat := p.maxSamples + 1;
      var lim := ResampleLimit(p, LeafCount(key, Drawn(src, pick, j)));
      assert lim <= p.maxSamples;
      assert Enough(p, key, src, pick, j);
      assert false;
    }
  }

  /** The poses a draw loop with the given cap leaves in the new set. */
  function Resampled(p: KldParams, key: Pose -> BinKey, src: seq<Pose>, pick: nat -> nat, cap: int): (ps: seq<Pose>)
    requires p.popErr != 0.0 && PicksBelow(pick, cap, |src|)
    ensures |ps| <= Max0(cap)
  {
    Drawn(src, pick, DrawCount(p, key, src, pick, cap, 0))
  }

  /** What the draw loop promises: at most cap samples, at least one when
      the cap is positive, each a copy of a picked live sample's pose, and
      fewer than the cap only when the KLD test passed. */
  lemma ResampledBounds(p: KldParams, key: Pose -> BinKey, src: seq<Pose>, pick: nat -> nat, cap: int)
    requires p.popErr != 0.0 && PicksBelow(pick, cap, |src|)
    ensures var ps := Resampled(p, key, src, pick, cap);
            && |ps| <= Max0(cap)
            && (cap > 0 ==> |ps| >= 1)
            && (forall k :: 0 <= k < |ps| ==> pick(k) < |src| && ps[k] == src[pick(k)])
            && (0 < |ps| < cap ==> |ps| > ResampleLimit(p, LeafCount(key, ps)))
  {
    DrawCountFirstPass(p, key, src, pick, cap, 0);
  }

  /** Picks of live samples are valid picks once the weights are spread
      evenly: every weight is then positive. */
  lemma EvenPicks(ps: seq<Pose>, pick: nat -> nat, cap: int)
    requires PicksBelow(pick, cap, |ps|)
    ensures ValidPicks(Even(ps), pick, cap)
  {
    forall k: nat | k < cap
      ensures pick(k) < |ps| && Even(ps)[pick(k)].weight > 0.0
    {
      assert pick(k) < |ps|;
    }
  }
}
