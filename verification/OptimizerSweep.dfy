/**
 An iteration over all legs as equations between the plan before and the plan after it, and the whole
 descent on a terrain of constant prices and gradients.
 */
module OptimizerSweep {
  import opened Hypotheses
  import opened Optimizer
  import opened OptimizerResult
  import opened OptimizerEquations

  // ---------------------------------------------------------------- one leg of an iteration

  /** Leg `j` before its pass: the old leg, its first point where the new plan has it. */
  function LegBefore(p: Plan, r: Plan, j: nat): Leg
    requires j < |p.tacks| == |r.tacks| && |p.tacks[j]| > 0 && |r.tacks[j]| > 0
  {
    p.tacks[j][0 := r.tacks[j][0]]
  }

  /** It is entered from the new last point of the leg before it, the first leg on the boat's heading. */
  function LegConditions(pb: Problem, step: real, r: Plan, j: nat): Conditions
    requires Fits(pb, r.tacks, r.alphas) && j < |r.tacks|
  {
    Conditions(pb.terrain,
               if j == 0 then pb.yaw
               else pb.terrain.heading(r.tacks[j - 1][|r.tacks[j - 1]| - 1], r.tacks[j][0]),
               step, j == 0)
  }

  /** It leads on to the old first point of the leg after it. */
  function NextPoint(pb: Problem, p: Plan, j: nat): Point
    requires Fits(pb, p.tacks, p.alphas) && j < |p.tacks|
  {
    if j == |p.tacks| - 1 then pb.next else p.tacks[j + 1][0]
  }

  /** What leg `j` of the new plan costs. */
  function LegCost(pb: Problem, step: real, p: Plan, r: Plan, j: nat): real
    requires Fits(pb, p.tacks, p.alphas) && Fits(pb, r.tacks, r.alphas) && j < |p.tacks|
    requires |p.tacks[j]| == |r.tacks[j]|
  {
    var cd, leg, cross := LegConditions(pb, step, r, j), LegBefore(p, r, j), Along(pb.gates[j], r.alphas[j]);
    var top := |leg| - 1;
    LinePrice(cd, pb.gates[j], NextPoint(pb, p, j), leg, p.alphas[j]).cost
    + Prices(cd, leg, r.tacks[j], top, cross, cd.tr.heading(leg[top], cross), top)
  }

  /** Leg `j` of the new plan solves the equations of a pass, and starts on its gate at the new fraction of the
      gate before it, the first leg where it did. */
  predicate LegSolved(pb: Problem, step: real, p: Plan, r: Plan, j: nat, viable: bool)
    requires Fits(pb, p.tacks, p.alphas) && Fits(pb, r.tacks, r.alphas) && j < |p.tacks|
    requires |p.tacks[j]| == |r.tacks[j]|
  {
    && (if j == 0 then r.tacks[0][0] == p.tacks[0][0] else OnGate(r.tacks[j][0], pb.gates[j], r.alphas[j - 1]))
    && PassSolves(LegConditions(pb, step, r, j), pb.gates[j], NextPoint(pb, p, j), LegBefore(p, r, j), p.alphas[j],
                  Pass(r.tacks[j], r.alphas[j], LegCost(pb, step, p, r, j), viable), Along(pb.gates[j], r.alphas[j]))
  }

  lemma CostIs(cd: Conditions, gate: Gate, next: Point, leg: Leg, alpha: real, r: Pass, cross: Point)
    requires |leg| >= 1 && PassSolves(cd, gate, next, leg, alpha, r, cross)
    ensures var top := |leg| - 1;
      && |r.leg| == |leg| && r.leg[0] == leg[0]
      && r.cost == LinePrice(cd, gate, next, leg, alpha).cost
                   + Prices(cd, leg, r.leg, top, cross, cd.tr.heading(leg[top], cross), top)
  {
    hide Prices, MovedAt, ViableUpTo, LinePrice, Clipped, OnGate;
  }

  /** The pass over leg `jj` of plan q, whose legs from jj on are still those of p. */
  lemma LegPassSolves(pb: Problem, step: real, p: Plan, q: Plan, r: Plan, jj: nat)
    requires Fits(pb, p.tacks, p.alphas) && Fits(pb, q.tacks, q.alphas) && jj < |pb.gates|
    requires SameShape(q.tacks, p.tacks) && r == LegStep(pb, step, q, jj)
    requires forall j :: jj <= j < |q.tacks| ==> q.tacks[j] == p.tacks[j] && q.alphas[j] == p.alphas[j]
    requires jj == 0 ==> q == p
    ensures Fits(pb, r.tacks, r.alphas) && SameShape(r.tacks, p.tacks)
    ensures LegSolved(pb, step, p, r, jj, LegPass(pb, step, q, jj).viable)
    ensures r.cost == q.cost + LegCost(pb, step, p, r, jj)
  {
    LegStepKeeps(pb, step, q, jj);
    var leg := Positioned(pb, q, jj);
    var pass := LegPass(pb, step, q, jj);
    var cd := LegConditions(pb, step, r, jj);
    assert r.tacks[jj] == pass.leg && r.alphas[jj] == pass.alpha && r.cost == q.cost + pass.cost;
    if jj > 0 {
      AlongOnGate(pb.gates[jj], q.alphas[jj - 1]);
    }
    hide Passed, Along, OnGate, LegStep;
    assert leg == LegBefore(p, r, jj);
    assert pass == Passed(cd.tr, pb.gates[jj], NextPoint(pb, p, jj), cd.yaw, cd.step, cd.prescale, leg, p.alphas[jj]);
    hide LegPass, Positioned, LegConditions, LegBefore, NextPoint;
    PassedSolves(cd, pb.gates[jj], NextPoint(pb, p, jj), leg, p.alphas[jj]);
    CostIs(cd, pb.gates[jj], NextPoint(pb, p, jj), leg, p.alphas[jj], pass, Along(pb.gates[jj], pass.alpha));
    hide PassSolves, Prices, LinePrice;
  }

  // ---------------------------------------------------------------- an iteration

  function LegCosts(pb: Problem, step: real, p: Plan, r: Plan, n: nat): real
    requires Fits(pb, p.tacks, p.alphas) && Fits(pb, r.tacks, r.alphas) && SameShape(r.tacks, p.tacks)
    requires n <= |p.tacks|
    decreases n
  {
    if n == 0 then 0.0 else LegCosts(pb, step, p, r, n - 1) + LegCost(pb, step, p, r, n - 1)
  }

  predicate LegOk(pb: Problem, step: real, p: Plan, r: Plan, j: nat)
    requires Fits(pb, p.tacks, p.alphas) && Fits(pb, r.tacks, r.alphas) && j < |p.tacks|
    requires |p.tacks[j]| == |r.tacks[j]|
  {
    LegSolved(pb, step, p, r, j, true) || LegSolved(pb, step, p, r, j, false)
  }

  /** The first n legs of the new plan solve their equations, all at once, and its cost is the sum of theirs. */
  predicate SweepSolved(pb: Problem, step: real, p: Plan, r: Plan, n: nat)
    requires Fits(pb, p.tacks, p.alphas) && n <= |p.tacks|
  {
    && Fits(pb, r.tacks, r.alphas) && SameShape(r.tacks, p.tacks)
    && (forall j :: 0 <= j < n ==> LegOk(pb, step, p, r, j))
    && r.cost == p.cost + LegCosts(pb, step, p, r, n)
  }

  /** Two plans that agree up to leg `n`. */
  predicate AgreeUpTo(q: Plan, r: Plan, n: nat) {
    && |q.tacks| == |r.tacks| == |q.alphas| == |r.alphas| && n <= |q.tacks|
    && forall j :: 0 <= j < n ==> q.tacks[j] == r.tacks[j] && q.alphas[j] == r.alphas[j]
  }

  lemma SameLeg(pb: Problem, step: real, p: Plan, q: Plan, r: Plan, n: nat, j: nat)
    requires Fits(pb, p.tacks, p.alphas) && Fits(pb, q.tacks, q.alphas) && Fits(pb, r.tacks, r.alphas)
    requires j < n <= |p.tacks| && |p.tacks[j]| == |q.tacks[j]| && AgreeUpTo(q, r, n)
    ensures |p.tacks[j]| == |r.tacks[j]|
    ensures LegCost(pb, step, p, q, j) == LegCost(pb, step, p, r, j)
    ensures LegOk(pb, step, p, q, j) <==> LegOk(pb, step, p, r, j)
  {
    assert q.tacks[j] == r.tacks[j] && q.alphas[j] == r.alphas[j];
    if j > 0 {
      assert q.tacks[j - 1] == r.tacks[j - 1] && q.alphas[j - 1] == r.alphas[j - 1];
    }
    assert LegConditions(pb, step, q, j) == LegConditions(pb, step, r, j);
    assert LegBefore(p, q, j) == LegBefore(p, r, j);
    hide LegConditions, LegBefore, Prices, LinePrice, PassSolves, Along, OnGate, NextPoint;
  }

  lemma {:induction false} SameCosts(pb: Problem, step: real, p: Plan, q: Plan, r: Plan, n: nat)
    requires Fits(pb, p.tacks, p.alphas) && Fits(pb, q.tacks, q.alphas) && Fits(pb, r.tacks, r.alphas)
    requires SameShape(q.tacks, p.tacks) && SameShape(r.tacks, p.tacks) && n <= |p.tacks| && AgreeUpTo(q, r, n)
    ensures LegCosts(pb, step, p, q, n) == LegCosts(pb, step, p, r, n)
    decreases n
  {
    if n != 0 {
      SameCosts(pb, step, p, q, r, n - 1);
      SameLeg(pb, step, p, q, r, n, n - 1);
      hide LegCost;
    }
  }

  /** The loop over the legs solves the equations of an iteration. */
  lemma {:induction false} SweepSolves(pb: Problem, step: real, p: Plan, n: nat)
    requires Fits(pb, p.tacks, p.alphas) && n <= |pb.gates|
    ensures SweepSolved(pb, step, p, Sweep(pb, step, p, n), n)
    decreases n
  {
    hide *;
    SweepForm(pb, step, p, n);
    if n == 0 {
      NothingSolved(pb, step, p);
    } else {
      SweepSolves(pb, step, p, n - 1);
      LegsLeft(pb, step, p, n - 1);
      SolveLeg(pb, step, p, Sweep(pb, step, p, n - 1), n - 1);
    }
  }

  /** From leg n on, q is still p. */
  predicate LeftFrom(pb: Problem, p: Plan, q: Plan, n: nat) {
    && Fits(pb, q.tacks, q.alphas) && SameShape(q.tacks, p.tacks) && (n == 0 ==> q == p)
    && |q.alphas| == |p.alphas|
    && forall j :: n <= j < |q.tacks| ==> q.tacks[j] == p.tacks[j] && q.alphas[j] == p.alphas[j]
  }

  lemma SolveLeg(pb: Problem, step: real, p: Plan, q: Plan, n: nat)
    requires Fits(pb, p.tacks, p.alphas) && n < |pb.gates| && LeftFrom(pb, p, q, n)
    requires SweepSolved(pb, step, p, q, n)
    ensures Fits(pb, q.tacks, q.alphas) && SweepSolved(pb, step, p, LegStep(pb, step, q, n), n + 1)
  {
    var r := LegStep(pb, step, q, n);
    hide SweepSolved, LegStep, LegSolved, LegCost, LegPass, AgreeUpTo;
    StepAgrees(pb, step, q, n);
    LegPassSolves(pb, step, p, q, r, n);
    SolvedNext(pb, step, p, q, r, n + 1, LegPass(pb, step, q, n).viable);
  }

  lemma NothingSolved(pb: Problem, step: real, p: Plan)
    requires Fits(pb, p.tacks, p.alphas)
    ensures SweepSolved(pb, step, p, p, 0)
  {
    hide LegOk;
  }

  /** The legs an iteration has not come to are still the old ones. */
  lemma LegsLeft(pb: Problem, step: real, p: Plan, n: nat)
    requires Fits(pb, p.tacks, p.alphas) && n < |pb.gates|
    ensures LeftFrom(pb, p, Sweep(pb, step, p, n), n)
  {
    SweepKeeps(pb, step, p, n);
    SweepForm(pb, step, p, n);
    hide Sweep, LegStep, Starts, Crossings;
  }

  lemma StepAgrees(pb: Problem, step: real, q: Plan, n: nat)
    requires Fits(pb, q.tacks, q.alphas) && n < |pb.gates|
    ensures AgreeUpTo(q, LegStep(pb, step, q, n), n)
  {
    LegStepKeeps(pb, step, q, n);
    hide LegStep, Along, Crossing;
  }

  lemma SolvedNext(pb: Problem, step: real, p: Plan, q: Plan, r: Plan, n: nat, viable: bool)
    requires Fits(pb, p.tacks, p.alphas) && Fits(pb, r.tacks, r.alphas) && SameShape(r.tacks, p.tacks)
    requires 0 < n <= |p.tacks| && SweepSolved(pb, step, p, q, n - 1) && AgreeUpTo(q, r, n - 1)
    requires LegSolved(pb, step, p, r, n - 1, viable)
    requires r.cost == q.cost + LegCost(pb, step, p, r, n - 1)
    ensures SweepSolved(pb, step, p, r, n)
  {
    SameCosts(pb, step, p, q, r, n - 1);
    hide LegSolved, LegCost;
    forall j | 0 <= j < n
      ensures LegOk(pb, step, p, r, j)
    {
      if j < n - 1 {
        SameLeg(pb, step, p, q, r, n - 1, j);
      }
    }
  }
}
