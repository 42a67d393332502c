/**
 The planner's descent (control/line_plan.cc: OptimizeMultipleTacks, BackPass): fifty passes that move
 the points of every leg and the place where each gate is crossed. The costs, gradients and viability of
 lines are functions given from outside; what is shown is what every pass keeps, how the legs meet, and
 what becomes of the viability of the lines.
 */
module Optimizer {
  import opened Hypotheses

  datatype Gate = Gate(a: Point, b: Point)

  /** The point a given fraction of the way along a gate. */
  function Along(g: Gate, t: real): Point {
    Point(g.a.x + t * (g.b.x - g.a.x), g.a.y + t * (g.b.y - g.a.y))
  }

  /** What SingleLineCost and LinePairCost report. */
  datatype Price<T> = Price(cost: real, gradient: T, viable: bool)

  /** `heading` is the direction from one point to another. `line` prices the crossing of a gate: the point
      before it, the fraction, the heading into that point, the point after the gate. `pair` prices a point
      between two others: before, after, itself, the headings in and out, the weight of the first turn. */
  datatype Terrain = Terrain(
    heading: (Point, Point) -> real,
    line: (Gate, Point, real, real, Point) -> Price<real>,
    pair: (Point, Point, Point, real, real, real) -> Price<Point>)

  datatype Problem = Problem(terrain: Terrain, gates: seq<Gate>, next: Point, yaw: real)

  function Clip(x: real, lo: real, hi: real): real {
    if x < lo then lo else if x > hi then hi else x
  }

  predicate Crossing(alpha: real) {
    0.1 <= alpha <= 1.0
  }

  /** A fraction moved against the gradient and kept on the gate. */
  function Slid(alpha: real, step: real, gradient: real): (r: real)
    ensures Crossing(r)
  {
    Clip(alpha - step * gradient, 0.1, 1.0)
  }

  function Moved(p: Point, step: real, gradient: Point): Point {
    Point(p.x - step * gradient.x, p.y - step * gradient.y)
  }

  // ---------------------------------------------------------------- one leg

  /** A leg, the fraction at which it crosses its gate, its cost and whether all its lines are viable. */
  datatype Pass = Pass(leg: Leg, alpha: real, cost: real, viable: bool)

  /** Points `ii` down to 1 improved one after the other, given the point after and the heading to it. */
  function Improved(tr: Terrain, yaw: real, step: real, prescale: bool, p: Pass, ii: nat, post: Point, out: real): Pass
    requires ii < |p.leg|
    decreases ii
  {
    if ii == 0 then p
    else
      var pre, cur := p.leg[ii - 1], p.leg[ii];
      var enter := if ii == 1 then yaw else tr.heading(p.leg[ii - 2], pre);
      var q := tr.pair(pre, post, cur, enter, out, if ii == 1 && prescale then 200.0 else 1.0);
      var cur' := Moved(cur, step, q.gradient);
      Improved(tr, yaw, step, prescale, Pass(p.leg[ii := cur'], p.alpha, p.cost + q.cost, p.viable && q.viable),
               ii - 1, cur', tr.heading(cur', post))
  }

  /** One pass over a leg. */
  function Passed(tr: Terrain, gate: Gate, next: Point, yaw: real, step: real, prescale: bool, leg: Leg, alpha: real): Pass
    requires |leg| >= 1
  {
    var q := CrossingPrice(tr, gate, next, yaw, leg, alpha);
    FromCrossing(tr, gate, yaw, step, prescale, leg, Slid(alpha, step, q.gradient), q)
  }

  /** The gate's crossing, priced as it was before the pass. */
  function CrossingPrice(tr: Terrain, gate: Gate, next: Point, yaw: real, leg: Leg, alpha: real): Price<real>
    requires |leg| >= 1
  {
    var n := |leg|;
    tr.line(gate, leg[n - 1], alpha, if n > 1 then tr.heading(leg[n - 2], leg[n - 1]) else yaw, next)
  }

  /** The rest of the pass once the crossing has moved. */
  function FromCrossing(tr: Terrain, gate: Gate, yaw: real, step: real, prescale: bool, leg: Leg, alpha: real, q: Price<real>): Pass
    requires |leg| >= 1
  {
    var n, post := |leg|, Along(gate, alpha);
    Improved(tr, yaw, step, prescale, Pass(leg, alpha, q.cost, q.viable), n - 1, post, tr.heading(leg[n - 1], post))
  }

  /** LinePlan::BackPass. The first point stays, as does the number of points; the gate is crossed between a
      tenth of the way along it and its far end. */
  method BackPass(tr: Terrain, gate: Gate, next: Point, yaw: real, step: real, prescale: bool, leg0: Leg, alpha0: real)
    returns (leg: Leg, alpha: real, cost: real, viable: bool)
    requires |leg0| >= 1
    ensures Pass(leg, alpha, cost, viable) == Passed(tr, gate, next, yaw, step, prescale, leg0, alpha0)
    ensures |leg| == |leg0| && leg[0] == leg0[0] && Crossing(alpha)
  {
    leg := leg0;
    var n := |leg|;
    var enter := if n > 1 then tr.heading(leg[n - 2], leg[n - 1]) else yaw;
    var q := tr.line(gate, leg[n - 1], alpha0, enter, next);
    viable := q.viable;
    alpha := Slid(alpha0, step, q.gradient);
    cost := q.cost;
    var post := Along(gate, alpha);
    var out := tr.heading(leg[n - 1], post);
    ghost var goal := FromCrossing(tr, gate, yaw, step, prescale, leg0, alpha, q);
    assert goal == Passed(tr, gate, next, yaw, step, prescale, leg0, alpha0) by {
      hide FromCrossing, Slid, Along;
    }
    hide Slid, Along;
    var ii := n - 1;
    while ii >= 1
      invariant 0 <= ii < n == |leg| && leg[0] == leg0[0]
      invariant Improved(tr, yaw, step, prescale, Pass(leg, alpha, cost, viable), ii, post, out) == goal
    {
      var pre, cur := leg[ii - 1], leg[ii];
      var enter := if ii == 1 then yaw else tr.heading(leg[ii - 2], pre);
      var r := tr.pair(pre, post, cur, enter, out, if ii == 1 && prescale then 200.0 else 1.0);
      viable := viable && r.viable;
      cur := Moved(cur, step, r.gradient);
      leg := leg[ii := cur];
      cost := cost + r.cost;
      out := tr.heading(cur, post);
      post := cur;
      ii := ii - 1;
    }
  }

  lemma {:induction false} ImprovedKeeps(tr: Terrain, yaw: real, step: real, prescale: bool, p: Pass, ii: nat, post: Point, out: real)
    requires ii < |p.leg|
    ensures var r := Improved(tr, yaw, step, prescale, p, ii, post, out);
      && |r.leg| == |p.leg| && r.leg[0] == p.leg[0] && r.alpha == p.alpha && (r.viable ==> p.viable)
    decreases ii
  {
    if ii != 0 {
      var pre, cur := p.leg[ii - 1], p.leg[ii];
      var enter := if ii == 1 then yaw else tr.heading(p.leg[ii - 2], pre);
      var q := tr.pair(pre, post, cur, enter, out, if ii == 1 && prescale then 200.0 else 1.0);
      var cur' := Moved(cur, step, q.gradient);
      ImprovedKeeps(tr, yaw, step, prescale, Pass(p.leg[ii := cur'], p.alpha, p.cost + q.cost, p.viable && q.viable),
                    ii - 1, cur', tr.heading(cur', post));
    }
  }

  lemma PassedKeeps(tr: Terrain, gate: Gate, next: Point, yaw: real, step: real, prescale: bool, leg: Leg, alpha: real)
    requires |leg| >= 1
    ensures var r := Passed(tr, gate, next, yaw, step, prescale, leg, alpha);
      var q := CrossingPrice(tr, gate, next, yaw, leg, alpha);
      && |r.leg| == |leg| && r.leg[0] == leg[0] && Crossing(r.alpha)
      && r.alpha == Slid(alpha, step, q.gradient) && (r.viable ==> q.viable)
  {
    var q := CrossingPrice(tr, gate, next, yaw, leg, alpha);
    var alpha' := Slid(alpha, step, q.gradient);
    hide CrossingPrice, Slid, Crossing;
    FromCrossingKeeps(tr, gate, yaw, step, prescale, leg, alpha', q);
    hide FromCrossing;
  }

  lemma FromCrossingKeeps(tr: Terrain, gate: Gate, yaw: real, step: real, prescale: bool, leg: Leg, alpha: real, q: Price<real>)
    requires |leg| >= 1
    ensures var r := FromCrossing(tr, gate, yaw, step, prescale, leg, alpha, q);
      && |r.leg| == |leg| && r.leg[0] == leg[0] && r.alpha == alpha && (r.viable ==> q.viable)
  {
    hide Improved, Along;
    var n, post := |leg|, Along(gate, alpha);
    ImprovedKeeps(tr, yaw, step, prescale, Pass(leg, alpha, q.cost, q.viable), n - 1, post, tr.heading(leg[n - 1], post));
  }

  // ---------------------------------------------------------------- all legs

  datatype Plan = Plan(tacks: Course, alphas: seq<real>, cost: real, viable: bool)

  /** A course with a leg for every gate and at least a point for every leg, and a fraction for every gate. */
  predicate Fits(pb: Problem, tacks: Course, alphas: seq<real>) {
    |tacks| == |alphas| == |pb.gates| && forall j :: 0 <= j < |tacks| ==> |tacks[j]| > 0
  }

  /** Leg `jj` when its turn comes: its first point is put on its gate, at the previous gate's fraction. */
  function Positioned(pb: Problem, p: Plan, jj: nat): Leg
    requires Fits(pb, p.tacks, p.alphas) && jj < |pb.gates|
  {
    if jj > 0 then p.tacks[jj][0 := Along(pb.gates[jj], p.alphas[jj - 1])] else p.tacks[jj]
  }

  function LegPass(pb: Problem, step: real, p: Plan, jj: nat): Pass
    requires Fits(pb, p.tacks, p.alphas) && jj < |pb.gates|
  {
    var leg := Positioned(pb, p, jj);
    var next := if jj == |p.tacks| - 1 then pb.next else p.tacks[jj + 1][0];
    var yaw := if jj > 0 then pb.terrain.heading(p.tacks[jj - 1][|p.tacks[jj - 1]| - 1], leg[0]) else pb.yaw;
    Passed(pb.terrain, pb.gates[jj], next, yaw, step, jj == 0, leg, p.alphas[jj])
  }

  /** One turn of the leg loop. The plan's flag takes up the leg's viability for leg -1 only. */
  function LegStep(pb: Problem, step: real, p: Plan, jj: nat): Plan
    requires Fits(pb, p.tacks, p.alphas) && jj < |pb.gates|
  {
    var s := LegPass(pb, step, p, jj);
    Plan(p.tacks[jj := s.leg], p.alphas[jj := s.alpha], p.cost + s.cost,
         if jj == -1 then p.viable && s.viable else p.viable)
  }

  /** What a turn of the leg loop keeps: shape and start, fractions on their gates; the flag. */
  lemma LegStepKeeps(pb: Problem, step: real, p: Plan, jj: nat)
    requires Fits(pb, p.tacks, p.alphas) && jj < |pb.gates|
    ensures var r := LegStep(pb, step, p, jj);
      && Fits(pb, r.tacks, r.alphas) && r.viable == p.viable
      && (forall j :: 0 <= j < |r.tacks| ==> |r.tacks[j]| == |p.tacks[j]|)
      && (forall j :: 0 <= j < |r.tacks| && j != jj ==> r.tacks[j] == p.tacks[j] && r.alphas[j] == p.alphas[j])
      && Crossing(r.alphas[jj])
      && r.tacks[jj][0] == (if jj > 0 then Along(pb.gates[jj], p.alphas[jj - 1]) else p.tacks[0][0])
  {
    var leg := Positioned(pb, p, jj);
    var next := if jj == |p.tacks| - 1 then pb.next else p.tacks[jj + 1][0];
    var yaw := if jj > 0 then pb.terrain.heading(p.tacks[jj - 1][|p.tacks[jj - 1]| - 1], leg[0]) else pb.yaw;
    PassedKeeps(pb.terrain, pb.gates[jj], next, yaw, step, jj == 0, leg, p.alphas[jj]);
    hide Passed, Along, Slid;
  }

  /** The first `n` legs of an iteration. */
  function Sweep(pb: Problem, step: real, p: Plan, n: nat): (r: Plan)
    requires Fits(pb, p.tacks, p.alphas) && n <= |pb.gates|
    ensures Fits(pb, r.tacks, r.alphas)
    decreases n
  {
    if n == 0 then p
    else
      var q := Sweep(pb, step, p, n - 1);
      LegStepKeeps(pb, step, q, n - 1);
      LegStep(pb, step, q, n - 1)
  }

  function StepSize(ii: nat): real {
    if ii > 20 then 0.003 else 0.01
  }

  /** After `n` iterations. Each starts with cost and flag reset. */
  function Descent(pb: Problem, p: Plan, n: nat): (r: Plan)
    requires Fits(pb, p.tacks, p.alphas)
    ensures Fits(pb, r.tacks, r.alphas)
    decreases n
  {
    if n == 0 then p
    else
      var q := Descent(pb, p, n - 1);
      Sweep(pb, StepSize(n - 1), Plan(q.tacks, q.alphas, 0.0, true), |pb.gates|)
  }

  function Optimized(pb: Problem, tacks: Course, alphas: seq<real>): (r: Plan)
    requires Fits(pb, tacks, alphas)
    ensures Fits(pb, r.tacks, r.alphas)
  {
    Descent(pb, Plan(tacks, alphas, 0.0, true), 50)
  }

  /** One turn of the leg loop of OptimizeMultipleTacks. */
  method OptimizeLeg(pb: Problem, step: real, jj: nat, p: Plan) returns (r: Plan)
    requires Fits(pb, p.tacks, p.alphas) && jj < |pb.gates|
    ensures r == LegStep(pb, step, p, jj)
  {
    var tacks, alphas := p.tacks, p.alphas;
    var gate := pb.gates[jj];
    var next := if jj == |tacks| - 1 then pb.next else tacks[jj + 1][0];
    var yaw := pb.yaw;
    if jj > 0 {
      tacks := tacks[jj := tacks[jj][0 := Along(gate, alphas[jj - 1])]];
      yaw := pb.terrain.heading(tacks[jj - 1][|tacks[jj - 1]| - 1], tacks[jj][0]);
    }
    hide Passed, Along;
    var leg, alpha, segmentCost, segmentViable :=
      BackPass(pb.terrain, gate, next, yaw, step, jj == 0, tacks[jj], alphas[jj]);
    var viable := p.viable;
    if jj == -1 {
      viable := viable && segmentViable;
    }
    assert tacks[jj := leg] == p.tacks[jj := leg];
    r := Plan(tacks[jj := leg], alphas[jj := alpha], p.cost + segmentCost, viable);
  }

  /** LinePlan::OptimizeMultipleTacks. The checks at its head are the precondition. */
  method OptimizeMultipleTacks(pb: Problem, tacks0: Course, alphas0: seq<real>) returns (p: Plan)
    requires Fits(pb, tacks0, alphas0)
    ensures p == Optimized(pb, tacks0, alphas0)
  {
    hide *;
    ghost var p0 := Plan(tacks0, alphas0, 0.0, true);
    p := Plan(tacks0, alphas0, 0.0, true);
    var step := 0.01;
    DescentForm(pb, p0, 0);
    for ii := 0 to 50
      invariant Fits(pb, p.tacks, p.alphas) && p == Descent(pb, p0, ii)
      invariant ii > 0 ==> step == StepSize(ii - 1)
      invariant ii <= 20 ==> step == 0.01
    {
      if ii > 20 {
        step := 0.003;
      }
      StepSizeIs(ii);
      DescentForm(pb, p0, ii + 1);
      p := p.(cost := 0.0, viable := true);
      ghost var q := p;
      SweepForm(pb, step, q, 0);
      for jj := 0 to |pb.gates|
        invariant Fits(pb, p.tacks, p.alphas) && p == Sweep(pb, step, q, jj)
      {
        SweepForm(pb, step, q, jj + 1);
        p := OptimizeLeg(pb, step, jj, p);
      }
    }
    OptimizedForm(pb, tacks0, alphas0);
  }

  lemma StepSizeIs(ii: nat)
    ensures StepSize(ii) == if ii > 20 then 0.003 else 0.01
  {
  }

  lemma SweepForm(pb: Problem, step: real, p: Plan, n: nat)
    requires Fits(pb, p.tacks, p.alphas) && n <= |pb.gates|
    ensures n == 0 ==> Sweep(pb, step, p, n) == p
    ensures n > 0 ==> Sweep(pb, step, p, n) == LegStep(pb, step, Sweep(pb, step, p, n - 1), n - 1)
  {
    hide LegStep;
  }

  lemma DescentForm(pb: Problem, p: Plan, n: nat)
    requires Fits(pb, p.tacks, p.alphas)
    ensures n == 0 ==> Descent(pb, p, n) == p
    ensures n > 0 ==> var q := Descent(pb, p, n - 1);
      Descent(pb, p, n) == Sweep(pb, StepSize(n - 1), Plan(q.tacks, q.alphas, 0.0, true), |pb.gates|)
  {
    hide Sweep;
  }

  lemma OptimizedForm(pb: Problem, tacks: Course, alphas: seq<real>)
    requires Fits(pb, tacks, alphas)
    ensures Optimized(pb, tacks, alphas) == Descent(pb, Plan(tacks, alphas, 0.0, true), 50)
  {
    hide Descent;
  }
}
