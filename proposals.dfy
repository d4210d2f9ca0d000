/** The rejection samplers of pf/pf.c: the do-while loops that draw
    candidate poses until one lands in an acceptable map cell. Map-wide
    candidates (pf_init_map, pf_update_resample_addParticle,
    pf_update_resample_map) are uniform over the map's extent and must fall
    in a free cell; candidates near a point (pf_init_to_point) are uniform
    in a square around it and need only be on the map. */
module Proposals {
  import opened Types

  /** M_PI. */
  const Pi: real := 3.141592653589793

  /** A uniform heading in [-pi, pi) from a uniform variate in [0, 1). */
  function Heading(u: real): real {
    (u - 0.5) * 2.0 * Pi
  }

  /** Which sampler: over the whole map (heading 0 or uniform), or within
      spread/2 of (x, y). */
  datatype Proposal = MapWide(zeroHeading: bool) | NearPoint(x: real, y: real, spread: real)

  /** Attempt a of the sampler filling slot i. */
  function Candidate(m: GridMap, rng: Rng, prop: Proposal, i: nat, a: nat): Pose {
    var u := rng.uniform(i, a);
    match prop
    case MapWide(z) =>
      Pose((u.0 - 0.5) * m.sizeX as real * m.scale, (u.1 - 0.5) * m.sizeY as real * m.scale,
           if z then 0.0 else Heading(u.2))
    case NearPoint(x, y, spread) =>
      Pose((u.0 - 0.5) * spread + x, (u.1 - 0.5) * spread + y, Heading(u.2))
  }

  /** The loop condition: map-wide candidates need a free cell, candidates
      near a point only a cell on the map. */
  predicate Accepts(m: GridMap, prop: Proposal, p: Pose) {
    match prop
    case MapWide(_) => FreeCell(m, p)
    case NearPoint(_, _, _) => OnMap(m, p)
  }

  /** Some attempt for slot i is accepted: exactly when the do-while loop
      filling it terminates. */
  ghost predicate Fillable(m: GridMap, rng: Rng, prop: Proposal, i: nat) {
    exists a: nat :: Accepts(m, prop, Candidate(m, rng, prop, i, a))
  }

  /** Attempt a is the first accepted one. */
  ghost predicate FirstAccept(m: GridMap, rng: Rng, prop: Proposal, i: nat, a: nat) {
    && Accepts(m, prop, Candidate(m, rng, prop, i, a))
    && forall b: nat :: b < a ==> !Accepts(m, prop, Candidate(m, rng, prop, i, b))
  }

  /** An accepted attempt w has a first accepted attempt at or before it. */
  lemma {:induction false} FirstAcceptUpTo(m: GridMap, rng: Rng, prop: Proposal, i: nat, w: nat)
    requires Accepts(m, prop, Candidate(m, rng, prop, i, w))
    ensures exists a: nat :: a <= w && FirstAccept(m, rng, prop, i, a)
    decreases w
  {
    if forall b: nat :: b < w ==> !Accepts(m, prop, Candidate(m, rng, prop, i, b)) {
      assert FirstAccept(m, rng, prop, i, w);
    } else {
      var b: nat :| b < w && Accepts(m, prop, Candidate(m, rng, prop, i, b));
      FirstAcceptUpTo(m, rng, prop, i, b);
    }
  }

  /** There is only one first accepted attempt. */
  lemma FirstAcceptUnique(m: GridMap, rng: Rng, prop: Proposal, i: nat, a1: nat, a2: nat)
    requires FirstAccept(m, rng, prop, i, a1) && FirstAccept(m, rng, prop, i, a2)
    ensures a1 == a2
  {
  }

  /** The attempt at which the loop filling slot i stops. */
  ghost function FirstAttempt(m: GridMap, rng: Rng, prop: Proposal, i: nat): (a: nat)
    requires Fillable(m, rng, prop, i)
    ensures FirstAccept(m, rng, prop, i, a)
  {
    var w: nat :| Accepts(m, prop, Candidate(m, rng, prop, i, w));
    FirstAcceptUpTo(m, rng, prop, i, w);
    var a: nat :| a <= w && FirstAccept(m, rng, prop, i, a);
    a
  }

  /** The pose the sampler puts in slot i. */
  ghost function Proposed(m: GridMap, rng: Rng, prop: Proposal, i: nat): (p: Pose)
    requires Fillable(m, rng, prop, i)
    ensures Accepts(m, prop, p)
  {
    Candidate(m, rng, prop, i, FirstAttempt(m, rng, prop, i))
  }

  /** Every slot below n can be filled. */
  ghost predicate AllFillable(m: GridMap, rng: Rng, prop: Proposal, n: int) {
    forall i: nat :: i < n ==> Fillable(m, rng, prop, i)
  }

  /** The poses the sampler puts in slots 0 .. n-1; each passed the
      acceptance test. */
  ghost function Sampled(m: GridMap, rng: Rng, prop: Proposal, n: nat): (ps: seq<Pose>)
    requires AllFillable(m, rng, prop, n)
    ensures |ps| == n
    ensures forall i :: 0 <= i < n ==> ps[i] == Proposed(m, rng, prop, i) && Accepts(m, prop, ps[i])
  {
    seq(n, i requires 0 <= i < n => Proposed(m, rng, prop, i))
  }

  /** The do-while loop: draw candidates until one is accepted. It returns
      the first accepted candidate, so every earlier attempt was
      rejected. */
  method RejectionSample(m: GridMap, rng: Rng, prop: Proposal, i: nat) returns (p: Pose, tries: nat)
    requires Fillable(m, rng, prop, i)
    ensures p == Proposed(m, rng, prop, i) && tries == FirstAttempt(m, rng, prop, i)
    ensures Accepts(m, prop, p) && p == Candidate(m, rng, prop, i, tries)
    ensures forall b: nat :: b < tries ==> !Accepts(m, prop, Candidate(m, rng, prop, i, b))
  {
    ghost var w := FirstAttempt(m, rng, prop, i);
    tries := 0;
    p := Candidate(m, rng, prop, i, 0);
    while !Accepts(m, prop, p)
      invariant tries <= w && p == Candidate(m, rng, prop, i, tries)
      invariant forall b: nat :: b < tries ==> !Accepts(m, prop, Candidate(m, rng, prop, i, b))
      decreases w - tries
    {
      tries := tries + 1;
      p := Candidate(m, rng, prop, i, tries);
    }
    FirstAcceptUnique(m, rng, prop, i, tries, w);
  }
}
