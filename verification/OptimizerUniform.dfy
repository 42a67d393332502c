/**
 The descent solved on a terrain where every crossing costs `line`, every point costs `pair`, and every
 point is pulled the same way: how far points travel in fifty iterations, and what the plan costs.
 */
module OptimizerUniform {
  import opened Hypotheses
  import opened Planner
  import opened Optimizer
  import opened OptimizerResult
  import opened OptimizerEquations
  import opened OptimizerSweep
  import opened Search

  /** The terrain: constant prices, and one gradient for all points. Headings and viability do not matter. */
  ghost predicate Uniform(tr: Terrain, line: real, pair: real, g: Point) {
    && (forall gate, p, alpha, h, q :: tr.line(gate, p, alpha, h, q).cost == line)
    && (forall a, b, p, h, k, w :: tr.pair(a, b, p, h, k, w).cost == pair && tr.pair(a, b, p, h, k, w).gradient == g)
  }

  /** `q` is `p` moved by `far` against the gradient. */
  predicate Travelled(p: Point, q: Point, far: real, g: Point) {
    q.x == p.x - far * g.x && q.y == p.y - far * g.y
  }

  /** All points of a course but the first of each leg have travelled. */
  predicate AllTravelled(tacks: Course, tacks': Course, far: real, g: Point) {
    && SameShape(tacks', tacks)
    && forall j, k :: 0 <= j < |tacks| && 0 < k < |tacks[j]| ==> Travelled(tacks[j][k], tacks'[j][k], far, g)
  }

  lemma {:induction false} UniformPrices(cd: Conditions, leg: Leg, r: Leg, top: nat, post: Point, out: real, k: nat, line: real, pair: real, g: Point)
    requires Uniform(cd.tr, line, pair, g) && k <= top < |leg| == |r|
    ensures Prices(cd, leg, r, top, post, out, k) == k as real * pair
    decreases k
  {
    if k != 0 {
      UniformPrices(cd, leg, r, top, post, out, k - 1, line, pair, g);
      OneMore(k - 1, pair);
    }
  }

  lemma OneMore(k: nat, pair: real)
    ensures k as real * pair + pair == (k + 1) as real * pair
  {
    assert (k + 1) as real == k as real + 1.0;
  }

  lemma UniformLeg(pb: Problem, step: real, p: Plan, r: Plan, j: nat, line: real, pair: real, g: Point)
    requires Uniform(pb.terrain, line, pair, g) && Fits(pb, p.tacks, p.alphas) && Fits(pb, r.tacks, r.alphas)
    requires j < |p.tacks| && |p.tacks[j]| == |r.tacks[j]| && LegOk(pb, step, p, r, j)
    ensures LegCost(pb, step, p, r, j) == line + (|p.tacks[j]| - 1) as real * pair
    ensures forall k :: 0 < k < |p.tacks[j]| ==> Travelled(p.tacks[j][k], r.tacks[j][k], step, g)
  {
    var cd, leg, cross := LegConditions(pb, step, r, j), LegBefore(p, r, j), Along(pb.gates[j], r.alphas[j]);
    var top := |leg| - 1;
    var out := cd.tr.heading(leg[top], cross);
    UniformPrices(cd, leg, r.tacks[j], top, cross, out, top, line, pair, g);
    forall k | 0 < k < |p.tacks[j]|
      ensures Travelled(p.tacks[j][k], r.tacks[j][k], step, g)
    {
      assert MovedAt(cd, leg, r.tacks[j], top, cross, out, k);
      assert leg[k] == p.tacks[j][k];
    }
    hide Along, OnGate, Clipped, Prices;
  }

  /** One iteration. */
  lemma UniformSweep(pb: Problem, step: real, p: Plan, line: real, pair: real, g: Point)
    requires Uniform(pb.terrain, line, pair, g) && Fits(pb, p.tacks, p.alphas)
    ensures var r := Sweep(pb, step, p, |pb.gates|);
      && AllTravelled(p.tacks, r.tacks, step, g)
      && r.cost == p.cost + PlanPrice(p.tacks, line, pair)
  {
    var r, n := Sweep(pb, step, p, |pb.gates|), |pb.gates|;
    SweepSolves(pb, step, p, n);
    hide Sweep, LegOk, LegCosts, LegCost;
    forall j | 0 <= j < n
      ensures LegCost(pb, step, p, r, j) == line + (|p.tacks[j]| - 1) as real * pair
      ensures forall k :: 0 < k < |p.tacks[j]| ==> Travelled(p.tacks[j][k], r.tacks[j][k], step, g)
    {
      assert LegOk(pb, step, p, r, j);
      UniformLeg(pb, step, p, r, j, line, pair, g);
    }
    hide Travelled;
    UniformCosts(pb, step, p, r, n, line, pair);
    assert p.tacks[..n] == p.tacks;
  }

  /** A course of n legs and m points costs n lines and m - n pairs. */
  function PlanPrice(tacks: Course, line: real, pair: real): real {
    |tacks| as real * line + (Points(tacks) - |tacks|) as real * pair
  }

  lemma {:induction false} UniformCosts(pb: Problem, step: real, p: Plan, r: Plan, n: nat, line: real, pair: real)
    requires Fits(pb, p.tacks, p.alphas) && Fits(pb, r.tacks, r.alphas) && SameShape(r.tacks, p.tacks)
    requires n <= |p.tacks|
    requires forall j :: 0 <= j < n ==> LegCost(pb, step, p, r, j) == line + (|p.tacks[j]| - 1) as real * pair
    ensures LegCosts(pb, step, p, r, n) == PlanPrice(p.tacks[..n], line, pair)
    decreases n
  {
    hide *;
    if n == 0 {
      NoCosts(pb, step, p, r, line, pair);
    } else {
      UniformCosts(pb, step, p, r, n - 1, line, pair);
      CostsForm(pb, step, p, r, n);
      PriceNext(p.tacks, n, line, pair);
    }
  }

  lemma NoCosts(pb: Problem, step: real, p: Plan, r: Plan, line: real, pair: real)
    requires Fits(pb, p.tacks, p.alphas) && Fits(pb, r.tacks, r.alphas) && SameShape(r.tacks, p.tacks)
    ensures LegCosts(pb, step, p, r, 0) == PlanPrice(p.tacks[..0], line, pair)
  {
    assert p.tacks[..0] == [];
  }

  lemma CostsForm(pb: Problem, step: real, p: Plan, r: Plan, n: nat)
    requires Fits(pb, p.tacks, p.alphas) && Fits(pb, r.tacks, r.alphas) && SameShape(r.tacks, p.tacks)
    requires 0 < n <= |p.tacks|
    ensures |p.tacks[n - 1]| == |r.tacks[n - 1]| > 0
    ensures LegCosts(pb, step, p, r, n) == LegCosts(pb, step, p, r, n - 1) + LegCost(pb, step, p, r, n - 1)
  {
    hide LegCost;
  }

  lemma PriceNext(tacks: Course, n: nat, line: real, pair: real)
    requires 0 < n <= |tacks|
    ensures PlanPrice(tacks[..n], line, pair)
         == PlanPrice(tacks[..n - 1], line, pair) + (line + (|tacks[n - 1]| - 1) as real * pair)
  {
    var c, d := tacks[..n], tacks[..n - 1];
    assert c[..n - 1] == d && c[n - 1] == tacks[n - 1];
    assert Points(c) == Points(d) + |tacks[n - 1]|;
    AddLeg(n - 1, Points(d), |tacks[n - 1]|, line, pair);
    hide Points;
  }

  lemma AddLeg(n: nat, m: nat, k: nat, line: real, pair: real)
    ensures n as real * line + (m - n) as real * pair + (line + (k - 1) as real * pair)
         == (n + 1) as real * line + (m + k - (n + 1)) as real * pair
  {
    assert (n + 1) as real == n as real + 1.0;
    assert (m + k - (n + 1)) as real == (m - n) as real + (k - 1) as real;
  }

  /** The sum of the first n step sizes. */
  function Travel(n: nat): real {
    if n == 0 then 0.0 else Travel(n - 1) + StepSize(n - 1)
  }

  lemma {:induction false} TravelIs(n: nat)
    ensures n <= 21 ==> Travel(n) == 0.01 * n as real
    ensures n > 21 ==> Travel(n) == 0.21 + 0.003 * (n - 21) as real
    decreases n
  {
    if n != 0 {
      TravelIs(n - 1);
    }
  }

  lemma Further(p: Point, q: Point, r: Point, far: real, step: real, g: Point)
    requires Travelled(p, q, far, g) && Travelled(q, r, step, g)
    ensures Travelled(p, r, far + step, g)
  {
    assert (far + step) * g.x == far * g.x + step * g.x && (far + step) * g.y == far * g.y + step * g.y;
  }

  lemma AllFurther(a: Course, b: Course, c: Course, far: real, step: real, g: Point)
    requires AllTravelled(a, b, far, g) && AllTravelled(b, c, step, g)
    ensures AllTravelled(a, c, far + step, g)
  {
    hide Travelled;
    forall j, k | 0 <= j < |a| && 0 < k < |a[j]|
      ensures Travelled(a[j][k], c[j][k], far + step, g)
    {
      Further(a[j][k], b[j][k], c[j][k], far, step, g);
    }
  }

  lemma NotTravelled(tacks: Course, g: Point)
    requires forall j :: 0 <= j < |tacks| ==> |tacks[j]| > 0
    ensures AllTravelled(tacks, tacks, 0.0, g)
  {
  }

  lemma {:induction false} UniformDescent(pb: Problem, p: Plan, n: nat, line: real, pair: real, g: Point)
    requires Uniform(pb.terrain, line, pair, g) && Fits(pb, p.tacks, p.alphas)
    ensures var r := Descent(pb, p, n);
      && AllTravelled(p.tacks, r.tacks, Travel(n), g)
      && (n > 0 ==> r.cost == PlanPrice(p.tacks, line, pair))
    decreases n
  {
    DescentForm(pb, p, n);
    if n == 0 {
      NotTravelled(p.tacks, g);
      hide Travelled;
    } else {
      UniformDescent(pb, p, n - 1, line, pair, g);
      var q := Descent(pb, p, n - 1);
      var q0 := Plan(q.tacks, q.alphas, 0.0, true);
      UniformSweep(pb, StepSize(n - 1), q0, line, pair, g);
      var r := Descent(pb, p, n);
      assert Travel(n) == Travel(n - 1) + StepSize(n - 1);
      hide Descent, Sweep, Uniform, Travel, StepSize, PlanPrice;
      AllFurther(p.tacks, q.tacks, r.tacks, Travel(n - 1), StepSize(n - 1), g);
      SamePlanPrice(p.tacks, q.tacks, line, pair);
    }
  }

  lemma SamePlanPrice(a: Course, b: Course, line: real, pair: real)
    requires SameShape(b, a)
    ensures PlanPrice(a, line, pair) == PlanPrice(b, line, pair)
  {
    SamePoints(a, b);
  }

  lemma {:induction false} SamePoints(a: Course, b: Course)
    requires SameShape(b, a)
    ensures Points(a) == Points(b)
    decreases |a|
  {
    if a != [] {
      SamePoints(a[..|a| - 1], b[..|b| - 1]);
    }
  }

  /** The fifty iterations, 21 of a hundredth and 29 of three thousandths, carry every point but the first of a
      leg 0.297 gradients down, and the plan costs a line for every leg and a pair for every other point. */
  lemma UniformResult(pb: Problem, tacks: Course, alphas: seq<real>, line: real, pair: real, g: Point)
    requires Uniform(pb.terrain, line, pair, g) && Fits(pb, tacks, alphas)
    ensures var r := Optimized(pb, tacks, alphas);
      && AllTravelled(tacks, r.tacks, 0.297, g)
      && r.cost == |tacks| as real * line + (Points(tacks) - |tacks|) as real * pair
  {
    hide *;
    OptimizedForm(pb, tacks, alphas);
    UniformDescent(pb, Plan(tacks, alphas, 0.0, true), 50, line, pair, g);
    TravelIs(50);
    PriceIs(tacks, line, pair);
  }

  lemma PriceIs(tacks: Course, line: real, pair: real)
    ensures PlanPrice(tacks, line, pair) == |tacks| as real * line + (Points(tacks) - |tacks|) as real * pair
  {
    hide Points;
  }

  /** So if points cost anything, of two courses the search prefers the one with fewer points. */
  lemma FewestPoints(pb: Problem, course: Course, other: Course, line: real, pair: real, g: Point)
    requires Uniform(pb.terrain, line, pair, g) && pair > 0.0
    requires Fits(pb, course, Halves(|pb.gates|)) && Fits(pb, other, Halves(|pb.gates|))
    ensures Tried(pb, course).cost <= Tried(pb, other).cost <==> Points(course) <= Points(other)
  {
    hide *;
    var extra := TriedPrice(pb, course, line, pair, g);
    var otherExtra := TriedPrice(pb, other, line, pair, g);
    Ordered(Points(course) - |pb.gates|, Points(other) - |pb.gates|, pair, extra, otherExtra);
  }

  lemma TriedPrice(pb: Problem, course: Course, line: real, pair: real, g: Point) returns (extra: real)
    requires Uniform(pb.terrain, line, pair, g) && Fits(pb, course, Halves(|pb.gates|))
    ensures extra == (Points(course) - |pb.gates|) as real * pair
    ensures Tried(pb, course).cost == |pb.gates| as real * line + extra
  {
    hide *;
    TriedForm(pb, course);
    extra := CostParts(pb, course, Halves(|pb.gates|), |pb.gates|, line, pair, g);
  }

  lemma TriedForm(pb: Problem, course: Course)
    requires Fits(pb, course, Halves(|pb.gates|))
    ensures |course| == |pb.gates| && Tried(pb, course) == Optimized(pb, course, Halves(|pb.gates|))
  {
    hide Optimized, Halves;
  }

  lemma CostParts(pb: Problem, tacks: Course, alphas: seq<real>, n: nat, line: real, pair: real, g: Point)
    returns (extra: real)
    requires Uniform(pb.terrain, line, pair, g) && Fits(pb, tacks, alphas) && |tacks| == n
    ensures extra == (Points(tacks) - n) as real * pair && Optimized(pb, tacks, alphas).cost == n as real * line + extra
  {
    hide *;
    UniformResult(pb, tacks, alphas, line, pair, g);
    extra := (Points(tacks) - n) as real * pair;
  }

  lemma Ordered(a: int, b: int, pair: real, x: real, y: real)
    requires pair > 0.0 && x == a as real * pair && y == b as real * pair
    ensures x <= y <==> a <= b
  {
    var d := b - a;
    assert y - x == d as real * pair;
    if d >= 0 {
      Sign(d as real, pair);
    } else {
      Sign(-(d as real), pair);
    }
  }

  lemma Sign(d: real, pair: real)
    requires d >= 0.0 && pair > 0.0
    ensures d * pair >= 0.0 && (d > 0.0 ==> d * pair > 0.0)
  {
  }
}
