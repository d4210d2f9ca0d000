/** Sums over the live samples of a set, as the loops of the filter
    accumulate them (first sample first), and the facts about them that the
    normalisation steps and the CEP statistics rely on. */
module Weights {
  import opened Types

  /** The poses of a run of samples. */
  function Poses(s: seq<Sample>): (ps: seq<Pose>)
    ensures |ps| == |s|
    ensures forall i :: 0 <= i < |s| ==> ps[i] == s[i].pose
  {
    seq(|s|, i requires 0 <= i < |s| => s[i].pose)
  }

  /** The poses of two runs of samples are the poses of each. */
  lemma PosesConcat(s: seq<Sample>, t: seq<Sample>)
    ensures Poses(s + t) == Poses(s) + Poses(t)
  {
    assert Poses(s + t) == Poses(s) + Poses(t);
  }

  /** Every weight equals 1/n, n the number of samples: the state every
      resampler and initialiser leaves behind. */
  ghost predicate Uniform(s: seq<Sample>) {
    forall i :: 0 <= i < |s| ==> s[i].weight == 1.0 / |s| as real
  }

  /** Sum of the weights. */
  function TotalWeight(s: seq<Sample>): real {
    if s == [] then 0.0 else TotalWeight(s[..|s| - 1]) + s[|s| - 1].weight
  }

  /** Sum of the squared weights, the value pf_update_sensor returns. */
  function SquareSum(s: seq<Sample>): real {
    if s == [] then 0.0 else SquareSum(s[..|s| - 1]) + s[|s| - 1].weight * s[|s| - 1].weight
  }

  /** Weighted sum of x. */
  function MomentX(s: seq<Sample>): real {
    if s == [] then 0.0 else MomentX(s[..|s| - 1]) + s[|s| - 1].weight * s[|s| - 1].pose.x
  }

  /** Weighted sum of y. */
  function MomentY(s: seq<Sample>): real {
    if s == [] then 0.0 else MomentY(s[..|s| - 1]) + s[|s| - 1].weight * s[|s| - 1].pose.y
  }

  /** Weighted sum of x*x + y*y. */
  function MomentRR(s: seq<Sample>): real {
    if s == [] then 0.0
    else
      var last := s[|s| - 1];
      MomentRR(s[..|s| - 1]) + last.weight * last.pose.x * last.pose.x + last.weight * last.pose.y * last.pose.y
  }

  /** Weighted sum of the squared distances to the point (a, b): the
      reference definition of the spread the CEP variance measures. */
  function Spread(s: seq<Sample>, a: real, b: real): real {
    if s == [] then 0.0
    else
      Spread(s[..|s| - 1], a, b) + Deviation(s[|s| - 1], a, b)
  }

  /** A sample's weighted squared distance to (a, b). */
  function Deviation(smp: Sample, a: real, b: real): real {
    smp.weight * ((smp.pose.x - a) * (smp.pose.x - a) + (smp.pose.y - b) * (smp.pose.y - b))
  }

  /** Samples that all carry weight w sum to n*w, and their squares to n*w*w. */
  lemma {:induction false} ConstantWeightSums(s: seq<Sample>, w: real)
    requires forall i :: 0 <= i < |s| ==> s[i].weight == w
    ensures TotalWeight(s) == |s| as real * w
    ensures SquareSum(s) == |s| as real * (w * w)
  {
    if s != [] {
      var init := s[..|s| - 1];
      ConstantWeightSums(init, w);
      assert TotalWeight(s) == (|s| - 1) as real * w + w;
      assert SquareSum(s) == (|s| - 1) as real * (w * w) + w * w;
    }
  }

  /** Uniform weights sum to 1, and their squares to 1/n. */
  lemma UniformSumsToOne(s: seq<Sample>)
    requires Uniform(s) && |s| > 0
    ensures TotalWeight(s) == 1.0
    ensures SquareSum(s) == 1.0 / |s| as real
  {
    var n := |s| as real;
    ConstantWeightSums(s, 1.0 / n);
    assert n * (1.0 / n) == 1.0;
    assert n * ((1.0 / n) * (1.0 / n)) == 1.0 / n;
  }

  /** The live samples after a normalisation loop: every weight divided
      by t. */
  function Divided(s: seq<Sample>, t: real): (r: seq<Sample>)
    requires s == [] || t != 0.0
    ensures |r| == |s| && Poses(r) == Poses(s)
    ensures forall i :: 0 <= i < |s| ==> r[i].weight * t == s[i].weight
  {
    seq(|s|, i requires 0 <= i < |s| => Sample(s[i].pose, s[i].weight / t))
  }

  /** Fresh samples of weight 1.0 at the poses ps, as the resamplers and
      samplers append them before normalising. */
  function Fresh(ps: seq<Pose>): (s: seq<Sample>)
    ensures |s| == |ps| && Poses(s) == ps
    ensures forall i :: 0 <= i < |ps| ==> s[i].weight == 1.0
  {
    seq(|ps|, i requires 0 <= i < |ps| => Sample(ps[i], 1.0))
  }

  /** One more fresh sample. */
  lemma FreshAppend(ps: seq<Pose>, p: Pose)
    ensures Fresh(ps + [p]) == Fresh(ps) + [Sample(p, 1.0)]
  {
    assert Fresh(ps + [p]) == Fresh(ps) + [Sample(p, 1.0)];
  }

  /** Fresh samples of two runs of poses are the fresh samples of each. */
  lemma FreshConcat(ps: seq<Pose>, qs: seq<Pose>)
    ensures Fresh(ps + qs) == Fresh(ps) + Fresh(qs)
  {
    assert Fresh(ps + qs) == Fresh(ps) + Fresh(qs);
  }

  /** Samples at the poses ps sharing the weight evenly. */
  function Even(ps: seq<Pose>): (s: seq<Sample>)
    ensures |s| == |ps| && Poses(s) == ps && Uniform(s)
    ensures forall i :: 0 <= i < |ps| ==> s[i] == Sample(ps[i], 1.0 / |ps| as real)
  {
    seq(|ps|, i requires 0 <= i < |ps| => Sample(ps[i], 1.0 / |ps| as real))
  }

  /** Dividing every weight by t divides their sum by t. */
  lemma {:induction false} DividedTotal(s: seq<Sample>, t: real)
    requires t != 0.0
    ensures TotalWeight(Divided(s, t)) == TotalWeight(s) / t
  {
    if s != [] {
      var k := |s| - 1;
      DividedTotal(s[..k], t);
      var d := Divided(s, t);
      assert d[..k] == Divided(s[..k], t);
      calc {
        TotalWeight(d);
        TotalWeight(d[..k]) + d[k].weight;
        TotalWeight(s[..k]) / t + s[k].weight / t;
        (TotalWeight(s[..k]) + s[k].weight) / t;
      }
    }
  }

  /** Normalising by the total weight leaves weights that sum to 1. */
  lemma NormalizedSumsToOne(s: seq<Sample>, t: real)
    requires t == TotalWeight(s) && t != 0.0
    ensures TotalWeight(Divided(s, t)) == 1.0
  {
    DividedTotal(s, t);
  }

  /** Fresh samples divided by their number, which is also their total
      weight, share the weight evenly: the state every resampler leaves. */
  lemma FreshNormalizedIsEven(ps: seq<Pose>)
    ensures TotalWeight(Fresh(ps)) == |ps| as real
    ensures ps != [] ==> Divided(Fresh(ps), |ps| as real) == Even(ps)
  {
    ConstantWeightSums(Fresh(ps), 1.0);
  }

  /** Sum of a * w * x: the first moment in x, scaled by a term by term. */
  function CrossX(s: seq<Sample>, a: real): real {
    if s == [] then 0.0 else CrossX(s[..|s| - 1], a) + a * (s[|s| - 1].weight * s[|s| - 1].pose.x)
  }

  /** Sum of b * w * y. */
  function CrossY(s: seq<Sample>, b: real): real {
    if s == [] then 0.0 else CrossY(s[..|s| - 1], b) + b * (s[|s| - 1].weight * s[|s| - 1].pose.y)
  }

  /** Sum of c * w. */
  function Mass(s: seq<Sample>, c: real): real {
    if s == [] then 0.0 else Mass(s[..|s| - 1], c) + c * s[|s| - 1].weight
  }

  lemma {:induction false} CrossXScale(s: seq<Sample>, a: real)
    ensures CrossX(s, a) == a * MomentX(s)
  {
    if s != [] {
      CrossXScale(s[..|s| - 1], a);
      Distribute(a, MomentX(s[..|s| - 1]), s[|s| - 1].weight * s[|s| - 1].pose.x);
    }
  }

  lemma {:induction false} CrossYScale(s: seq<Sample>, b: real)
    ensures CrossY(s, b) == b * MomentY(s)
  {
    if s != [] {
      CrossYScale(s[..|s| - 1], b);
      Distribute(b, MomentY(s[..|s| - 1]), s[|s| - 1].weight * s[|s| - 1].pose.y);
    }
  }

  lemma {:induction false} MassScale(s: seq<Sample>, c: real)
    ensures Mass(s, c) == c * TotalWeight(s)
  {
    if s != [] {
      MassScale(s[..|s| - 1], c);
      Distribute(c, TotalWeight(s[..|s| - 1]), s[|s| - 1].weight);
    }
  }

  lemma Distribute(k: real, u: real, v: real)
    ensures k * (u + v) == k * u + k * v
  {
  }

  /** One sample's contribution to the spread, expanded. */
  lemma PointSpread(w: real, x: real, y: real, a: real, b: real)
    ensures w * ((x - a) * (x - a) + (y - b) * (y - b))
         == (w * x * x + w * y * y) - 2.0 * (a * (w * x)) - 2.0 * (b * (w * y)) + (a * a + b * b) * w
  {
  }

  /** The spread about (a, b) as a combination of sums that are linear in
      the samples' terms. */
  lemma {:induction false} SpreadLinear(s: seq<Sample>, a: real, b: real)
    ensures Spread(s, a, b) == MomentRR(s) - 2.0 * CrossX(s, a) - 2.0 * CrossY(s, b) + Mass(s, a * a + b * b)
  {
    if s != [] {
      SpreadLinear(s[..|s| - 1], a, b);
      PointSpread(s[|s| - 1].weight, s[|s| - 1].pose.x, s[|s| - 1].pose.y, a, b);
    }
  }

  /** The spread about (a, b) expanded into the moments: the identity
      behind the one-pass variance of pf_get_cep_stats. */
  lemma SpreadExpansion(s: seq<Sample>, a: real, b: real)
    ensures Spread(s, a, b)
         == MomentRR(s) - 2.0 * a * MomentX(s) - 2.0 * b * MomentY(s) + (a * a + b * b) * TotalWeight(s)
  {
    SpreadLinear(s, a, b);
    CrossXScale(s, a);
    CrossYScale(s, b);
    MassScale(s, a * a + b * b);
  }

  /** The weighted mean position, heading 0; the origin when the weights
      sum to 0. */
  function Centroid(s: seq<Sample>): (c: Pose)
    ensures TotalWeight(s) != 0.0 ==> c.x * TotalWeight(s) == MomentX(s) && c.y * TotalWeight(s) == MomentY(s)
    ensures c.theta == 0.0
  {
    Pose(Quot(MomentX(s), TotalWeight(s)), Quot(MomentY(s), TotalWeight(s)), 0.0)
  }

  /** The mean and variance pf_get_cep_stats computes from the moments
      of the samples are their centroid and their weighted mean squared
      distance from it. */
  lemma CepFromMoments(s: seq<Sample>, mn: real, mx: real, my: real, mrr: real)
    requires mn == TotalWeight(s) && mx == MomentX(s) && my == MomentY(s) && mrr == MomentRR(s)
    requires mn != 0.0
    ensures Pose(mx / mn, my / mn, 0.0) == Centroid(s)
    ensures mrr / mn - (mx * mx / (mn * mn) + my * my / (mn * mn)) == Spread(s, Centroid(s).x, Centroid(s).y) / mn
  {
    SquaredQuotient(mx, mn);
    SquaredQuotient(my, mn);
    CepVarianceIsSpread(s, mn, mx, my, mrr);
  }

  /** a*a / (w*w), as pf_get_cep_stats writes the squared mean, is the
      square of a / w. */
  lemma SquaredQuotient(a: real, w: real)
    requires w != 0.0
    ensures a * a / (w * w) == (a / w) * (a / w)
  {
    var q, ww := a / w, w * w;
    var v := 1.0 / w;
    assert v * w == 1.0;
    assert (v * v) * ww == (v * w) * (v * w);
    assert ww != 0.0;
    assert q * w == a;
    assert (q * q) * ww == (q * w) * (q * w);
    assert (q * q) * ww / ww == q * q;
  }

  lemma CepVarianceIsSpread(s: seq<Sample>, w: real, mx: real, my: real, rr: real)
    requires w == TotalWeight(s) && mx == MomentX(s) && my == MomentY(s) && rr == MomentRR(s)
    requires w != 0.0
    ensures rr / w - ((mx / w) * (mx / w) + (my / w) * (my / w)) == Spread(s, mx / w, my / w) / w
  {
    SpreadExpansion(s, mx / w, my / w);
    CentroidAlgebra(w, mx, my, rr, Spread(s, mx / w, my / w));
  }

  lemma CentroidAlgebra(w: real, mx: real, my: real, rr: real, sp: real)
    requires w != 0.0
    requires sp == rr - 2.0 * (mx / w) * mx - 2.0 * (my / w) * my + ((mx / w) * (mx / w) + (my / w) * (my / w)) * w
    ensures rr / w - ((mx / w) * (mx / w) + (my / w) * (my / w)) == sp / w
  {
    CenteredSpread(w, mx / w, my / w, mx, my, rr, sp);
  }

  lemma CenteredSpread(w: real, a: real, b: real, mx: real, my: real, rr: real, sp: real)
    requires w != 0.0 && a * w == mx && b * w == my
    requires sp == rr - 2.0 * a * mx - 2.0 * b * my + (a * a + b * b) * w
    ensures sp / w == rr / w - (a * a + b * b)
  {
    assert sp == rr - (a * a + b * b) * w;
  }
}
