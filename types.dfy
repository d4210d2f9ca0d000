/** Values handled by the particle filter (pf.h), and the collaborators the
    filter calls but that are not part of this model: the C math library,
    the kd-tree histogram, the occupancy map and the random number
    generators. Collaborators are records of functions, so that every
    operation of the model holds for whatever the collaborator does. */
module Types {

  /** A pose (x, y, theta), pf_vector_t. */
  datatype Pose = Pose(x: real, y: real, theta: real)

  const Origin: Pose := Pose(0.0, 0.0, 0.0)

  /** A weighted sample, pf_sample_t. */
  datatype Sample = Sample(pose: Pose, weight: real)

  /** The entries of a cluster covariance (pf_matrix_t) that the filter
      ever writes: the linear 2x2 block and the angular variance. The four
      linear-angular entries are always zero. */
  datatype Cov = Cov(xx: real, xy: real, yx: real, yy: real, tt: real)

  const ZeroCov: Cov := Cov(0.0, 0.0, 0.0, 0.0, 0.0)

  /** One row of a sample set's cluster table, pf_cluster_t: sample count,
      total weight, mean and covariance, the running sums m[0..3] (weighted
      x, y, cos theta, sin theta) and c[0..1][0..1] (weighted products of x
      and y). */
  datatype Cluster = Cluster(
    count: int, weight: real, mean: Pose, cov: Cov,
    m0: real, m1: real, m2: real, m3: real,
    c00: real, c01: real, c10: real, c11: real)

  /** The state a slot of the cluster table is reset to. */
  const EmptyCluster: Cluster :=
    Cluster(0, 0.0, Origin, ZeroCov, 0.0, 0.0, 0.0, 0.0, 0.0, 0.0, 0.0, 0.0)

  /** A pose hypothesis, hyp_t: only its mean enters this model; its
      covariance-like matrix goes to the bivariate Gaussian sampler, which
      is an oracle here. */
  datatype Hyp = Hyp(meanX: real, meanY: real)

  datatype Option<T> = None | Some(value: T)

  /** The transcendental functions of the C math library. */
  datatype MathLib = MathLib(
    sqrt: real -> real,
    cos: real -> real,
    sin: real -> real,
    atan2: (real, real) -> real,
    log: real -> real)

  /** The discretised key of the histogram cell a pose falls in. */
  datatype BinKey = BinKey(ix: int, iy: int, itheta: int)

  /** The kd-tree histogram: the cell key of a pose, and the cluster label
      pf_kdtree_get_cluster gives a pose once a tree holding the given poses
      has been clustered. Labels are never negative, which pf_cluster_stats
      asserts. */
  datatype KdTreeModel = KdTreeModel(
    key: Pose -> BinKey,
    clusterOf: (seq<Pose>, Pose) -> nat)

  /** The occupancy map: its size in cells and the cell size, and, seen
      through MAP_GXWX/MAP_GYWY, whether the cell under world point (x, y)
      is on the map (MAP_VALID) and its occ_state (-1 free, 0 unknown, +1
      occupied). */
  datatype GridMap = GridMap(
    sizeX: int, sizeY: int, scale: real,
    valid: (real, real) -> bool,
    occState: (real, real) -> int)

  /** Acceptance test of the map-based samplers and hypothesis samplers:
      the cell is on the map and free. */
  predicate FreeCell(m: GridMap, p: Pose) {
    m.valid(p.x, p.y) && m.occState(p.x, p.y) == -1
  }

  /** Every pose of a run lands in a free cell. */
  ghost predicate AllFree(m: GridMap, ps: seq<Pose>) {
    forall k :: 0 <= k < |ps| ==> FreeCell(m, ps[k])
  }

  /** Acceptance test of pf_init_to_point: the cell is on the map, whatever
      its occupancy. */
  predicate OnMap(m: GridMap, p: Pose) {
    m.valid(p.x, p.y)
  }

  /** The random sources, as oracles: every value they may return is
      allowed.
      - pick(k): the index pf_pdf_discrete_sample returns at the k-th draw
        of a resample;
      - uniform(i, a): the gsl uniform variates (in [0, 1)) of attempt a of
        the rejection sampler filling slot i;
      - normal(i): the i-th pose drawn from the Gaussian of pf_init;
      - bivariate(j, t): the t-th bivariate Gaussian offset drawn for
        hypothesis j;
      - spin(j, i): the i-th uniform variate drawn for a heading of a sample
        of hypothesis j. */
  datatype Rng = Rng(
    pick: nat -> nat,
    uniform: (nat, nat) -> (real, real, real),
    normal: nat -> Pose,
    bivariate: (nat, nat) -> (real, real),
    spin: (nat, nat) -> real)

  function Min(a: int, b: int): int {
    if a < b then a else b
  }

  function Max0(a: int): nat {
    if a < 0 then 0 else a
  }

  /** ceil() of the C math library on reals. */
  function Ceil(r: real): (n: int)
    ensures r <= n as real < r + 1.0
  {
    -((-r).Floor)
  }

  /** C's integer division, which truncates toward zero (Dafny's / is
      Euclidean). Only positive divisors occur in the filter. */
  function CDiv(a: int, b: int): int
    requires b > 0
  {
    if a >= 0 then a / b else -((-a) / b)
  }

  /** The quotient of CDiv times the divisor lies within one divisor of
      the dividend, on the side of zero. */
  lemma CDivBounds(a: int, b: int)
    requires b > 0
    ensures 0 <= a ==> 0 <= CDiv(a, b) * b <= a < (CDiv(a, b) + 1) * b
    ensures a < 0 ==> (CDiv(a, b) - 1) * b < a <= CDiv(a, b) * b <= 0
  {
    if a >= 0 {
      DivBounds(a, b);
    } else {
      DivBounds(-a, b);
    }
  }

  lemma DivBounds(a: int, b: int)
    requires 0 <= a && 0 < b
    ensures 0 <= (a / b) * b <= a < (a / b + 1) * b
  {
    var q, r := a / b, a % b;
    assert a == q * b + r && 0 <= r < b;
    if q < 0 {
      NegativeMultiple(q, b);
    }
    assert (q + 1) * b == q * b + b;
  }

  /** A negative multiple of a positive number is at most its negation. */
  lemma NegativeMultiple(q: int, b: int)
    requires q < 0 < b
    ensures q * b <= -b
  {
    var n := -q - 1;
    MulNonNegative(n, b);
    assert q * b == -(n * b) - b;
  }

  lemma MulNonNegative(x: int, y: int)
    requires 0 <= x && 0 <= y
    ensures 0 <= x * y
  {
  }

  /** j runs of n added up: the product j * n written without a product,
      so that the sizes of runs of runs stay linear facts for the
      verifier. */
  function Times(j: nat, n: nat): nat {
    if j == 0 then 0 else Times(j - 1, n) + n
  }

  /** Times is the product. */
  lemma {:induction false} TimesIsProduct(j: nat, n: nat)
    ensures Times(j, n) == j * n
  {
    if j > 0 {
      TimesIsProduct(j - 1, n);
      assert (j - 1) * n + n == j * n;
    }
  }

  /** After j < J runs of n, one more run still fits within J runs. */
  lemma {:induction false} TimesRoom(j: nat, J: nat, n: nat)
    requires j < J
    ensures Times(j, n) + n <= Times(J, n)
    decreases J
  {
    if j + 1 < J {
      TimesRoom(j, J - 1, n);
    }
  }

  /** a / b where the C code divides by a quantity that may be zero; IEEE
      arithmetic then gives an infinity or NaN, which this model does not
      represent, so the quotient is taken as 0. */
  function Quot(a: real, b: real): real {
    if b == 0.0 then 0.0 else a / b
  }
}
