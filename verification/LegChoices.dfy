/**
 Which point sequences are candidates for a leg (control/line_plan.cc: GenerateHypotheses), point by point,
 and where the legs of a course on offer start.
 */
module LegChoices {
  import opened Hypotheses
  import opened Planner
  import opened Optimizer
  import opened Search

  /** The leg's start and then the n points placed for a variant. */
  predicate Spelled(g: LegShape, variant: nat, n: nat, leg: Leg) {
    |leg| == n + 1 && leg[0] == g.start && forall k: nat :: k < n ==> leg[k + 1] == g.place(variant, n, k)
  }

  /** The straight variant always; the two tacking ones close to the wind, if there are points to place. */
  predicate Allowed(g: LegShape, variant: nat, n: nat) {
    variant == 0 || (g.upwind && n > 0 && variant <= 2)
  }

  lemma {:induction false} PathPoints(g: LegShape, variant: nat, n: nat, k: nat, i: nat)
    requires i < k
    ensures Path(g, variant, n, k)[i + 1] == g.place(variant, n, i)
    decreases k
  {
    if i < k - 1 {
      PathPoints(g, variant, n, k - 1, i);
    }
  }

  lemma SpelledIsPath(g: LegShape, variant: nat, n: nat, leg: Leg)
    ensures Spelled(g, variant, n, leg) <==> leg == Path(g, variant, n, n)
  {
    var path := Path(g, variant, n, n);
    PathStarts(g, variant, n, n);
    forall k: nat | k < n
      ensures path[k + 1] == g.place(variant, n, k)
    {
      PathPoints(g, variant, n, n, k);
    }
    hide Path;
    if Spelled(g, variant, n, leg) {
      forall i | 0 <= i < |leg|
        ensures leg[i] == path[i]
      {
        if i > 0 {
          var k: nat := i - 1;
          assert leg[k + 1] == g.place(variant, n, k) == path[k + 1];
        }
      }
      assert leg == path;
    }
  }

  ghost predicate SpelledOut(g: LegShape, n: nat, leg: Leg) {
    exists variant: nat :: Allowed(g, variant, n) && Spelled(g, variant, n, leg)
  }

  lemma CandidatesExactly(g: LegShape, n: nat, leg: Leg)
    ensures leg in Candidates(g, n) <==> SpelledOut(g, n, leg)
  {
    forall variant: nat
      ensures Spelled(g, variant, n, leg) <==> leg == Path(g, variant, n, n)
    {
      SpelledIsPath(g, variant, n, leg);
    }
    if n == 0 {
      assert Path(g, 0, 0, 0) == [g.start];
      assert Allowed(g, 0, 0);
    }
    hide Path, Spelled;
    if leg in Candidates(g, n) && n > 0 {
      assert leg == Path(g, 0, n, n) || (g.upwind && (leg == Path(g, 1, n, n) || leg == Path(g, 2, n, n)));
      assert Allowed(g, 0, n) && (g.upwind ==> Allowed(g, 1, n) && Allowed(g, 2, n));
    }
  }

  /** The candidates of a leg are exactly the sequences spelled out for fewer than `most` points. */
  lemma {:induction false} LegCandidatesExactly(g: LegShape, most: nat, leg: Leg)
    ensures leg in LegCandidates(g, most) <==> exists n: nat :: n < most && SpelledOut(g, n, leg)
    decreases most
  {
    if most != 0 {
      LegCandidatesExactly(g, most - 1, leg);
      CandidatesExactly(g, most - 1, leg);
      hide Candidates, SpelledOut;
      assert LegCandidates(g, most) == LegCandidates(g, most - 1) + Candidates(g, most - 1);
      if n: nat :| n < most && SpelledOut(g, n, leg) {
        assert n < most - 1 || n == most - 1;
      }
    }
  }

  // ---------------------------------------------------------------- courses on offer

  predicate Midpoint(p: Point, g: Gate) {
    p.x == (g.a.x + g.b.x) / 2.0 && p.y == (g.a.y + g.b.y) / 2.0
  }

  /** A course on offer has a leg for every gate. The first starts at the boat, every other in the middle of the
      gate before it, and each is a candidate towards the middle of its own gate. */
  lemma OfferedCourse(geo: Geometry, start: Point, gates: seq<Gate>, course: Course, i: nat)
    requires Offered(Shapes(geo, start, gates), course) && i < |gates|
    ensures |course| == |gates| && |course[i]| > 0
    ensures i == 0 ==> course[i][0] == start
    ensures i > 0 ==> Midpoint(course[i][0], gates[i - 1])
    ensures exists to, variant: nat, n: nat ::
              Midpoint(to, gates[i]) && TowardsPoint(geo, course[i], to, variant, n)
  {
    hide *;
    var shapes := Shapes(geo, start, gates);
    LegOnOffer(shapes, course, i);
    var most, leg := MaxPtsPerLeg(|shapes|), course[i];
    ShapeIs(geo, start, gates, i);
    LegCandidatesExactly(shapes[i], most, leg);
    var n: nat :| n < most && SpelledOut(shapes[i], n, leg);
    SpelledTowards(geo, start, gates, i, leg, n);
  }

  lemma LegOnOffer(shapes: seq<LegShape>, course: Course, i: nat)
    requires Offered(shapes, course) && i < |shapes|
    ensures |course| == |shapes| && course[i] in LegCandidates(shapes[i], MaxPtsPerLeg(|shapes|))
  {
    var legs := AllCandidates(shapes);
    var c: Choice :| Eligible(shapes, c) && course == Picked(legs, c);
    CandidatesAt(shapes, i);
    assert course[i] == legs[i][c[i]];
    hide AllCandidates, LegCandidates, MaxPtsPerLeg, Total;
  }

  /** The points after a leg's first are those placed between it and `to`. */
  predicate TowardsPoint(geo: Geometry, leg: Leg, to: Point, variant: nat, n: nat) {
    |leg| == n + 1 && forall k: nat :: k < n ==> leg[k + 1] == geo.place(leg[0], to, variant, n, k)
  }

  lemma ShapeIs(geo: Geometry, start: Point, gates: seq<Gate>, i: nat)
    requires i < |gates|
    ensures Shapes(geo, start, gates)[i] == ShapeOf(geo, start, gates, i)
  {
    hide ShapeOf;
  }

  lemma SpelledTowards(geo: Geometry, start: Point, gates: seq<Gate>, i: nat, leg: Leg, n: nat)
    requires i < |gates| && SpelledOut(ShapeOf(geo, start, gates, i), n, leg)
    ensures |leg| > 0 && (i == 0 ==> leg[0] == start) && (i > 0 ==> Midpoint(leg[0], gates[i - 1]))
    ensures exists to, variant: nat, n: nat :: Midpoint(to, gates[i]) && TowardsPoint(geo, leg, to, variant, n)
  {
    var g, to := ShapeOf(geo, start, gates, i), Along(gates[i], 0.5);
    var variant: nat :| Allowed(g, variant, n) && Spelled(g, variant, n, leg);
    Halfway(gates[i]);
    if i > 0 {
      Halfway(gates[i - 1]);
    }
    hide Along, Midpoint;
    forall k: nat | k < n
      ensures leg[k + 1] == geo.place(leg[0], to, variant, n, k)
    {
      assert leg[k + 1] == g.place(variant, n, k);
      assert g.place(variant, n, k) == geo.place(leg[0], to, variant, n, k);
    }
    assert TowardsPoint(geo, leg, to, variant, n);
  }

  lemma Halfway(g: Gate)
    ensures Midpoint(Along(g, 0.5), g)
  {
  }

  /** The optimizer starts from crossings in the middle of the gates. */
  lemma FirstCrossings(gates: seq<Gate>, i: nat)
    requires i < |gates|
    ensures Midpoint(Along(gates[i], Halves(|gates|)[i]), gates[i])
  {
    Halfway(gates[i]);
  }
}
