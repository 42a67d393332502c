/**
 What OptimizeMultipleTacks returns, for every terrain, every list of gates and every course: its shape,
 where legs start, where gates are crossed, and what its viability flag says.
 */
module OptimizerResult {
  import opened Hypotheses
  import opened Optimizer

  predicate SameShape(tacks: Course, tacks0: Course) {
    |tacks| == |tacks0| && forall j :: 0 <= j < |tacks| ==> |tacks[j]| == |tacks0[j]| > 0
  }

  /** Legs 1 to n - 1 start on their own gate, at the fraction at which the previous gate is crossed. */
  predicate Starts(gates: seq<Gate>, tacks: Course, alphas: seq<real>, n: nat)
    requires n <= |tacks| == |gates| == |alphas| && forall j :: 0 <= j < |tacks| ==> |tacks[j]| > 0
  {
    forall j :: 1 <= j < n ==> tacks[j][0] == Along(gates[j], alphas[j - 1])
  }

  predicate Crossings(alphas: seq<real>, n: nat)
    requires n <= |alphas|
  {
    forall j :: 0 <= j < n ==> Crossing(alphas[j])
  }

  /** `r` is `p` with its first n legs done. */
  predicate Swept(pb: Problem, p: Plan, r: Plan, n: nat)
    requires Fits(pb, p.tacks, p.alphas) && n <= |pb.gates|
  {
    && Fits(pb, r.tacks, r.alphas) && SameShape(r.tacks, p.tacks) && r.viable == p.viable
    && Crossings(r.alphas, n) && Starts(pb.gates, r.tacks, r.alphas, n)
    && (forall j :: n <= j < |r.tacks| ==> r.tacks[j] == p.tacks[j] && r.alphas[j] == p.alphas[j])
    && (|r.tacks| > 0 ==> r.tacks[0][0] == p.tacks[0][0])
  }

  lemma {:induction false} SweepKeeps(pb: Problem, step: real, p: Plan, n: nat)
    requires Fits(pb, p.tacks, p.alphas) && n <= |pb.gates|
    ensures Swept(pb, p, Sweep(pb, step, p, n), n)
    decreases n
  {
    hide Sweep, LegStep, Along, Crossing;
    SweepForm(pb, step, p, n);
    if n != 0 {
      SweepKeeps(pb, step, p, n - 1);
      LegStepKeeps(pb, step, Sweep(pb, step, p, n - 1), n - 1);
    }
  }

  /** What n iterations make of a plan. */
  predicate Descended(pb: Problem, p: Plan, r: Plan, n: nat)
    requires Fits(pb, p.tacks, p.alphas)
  {
    && Fits(pb, r.tacks, r.alphas) && SameShape(r.tacks, p.tacks)
    && (|r.tacks| > 0 ==> r.tacks[0][0] == p.tacks[0][0])
    && (n > 0 ==> r.viable && Crossings(r.alphas, |r.alphas|) && Starts(pb.gates, r.tacks, r.alphas, |r.tacks|))
  }

  lemma {:induction false} DescentKeeps(pb: Problem, p: Plan, n: nat)
    requires Fits(pb, p.tacks, p.alphas)
    ensures Descended(pb, p, Descent(pb, p, n), n)
    decreases n
  {
    hide Descent, Sweep, Starts, Crossings;
    DescentForm(pb, p, n);
    if n != 0 {
      DescentKeeps(pb, p, n - 1);
      var q := Descent(pb, p, n - 1);
      SweepKeeps(pb, StepSize(n - 1), Plan(q.tacks, q.alphas, 0.0, true), |pb.gates|);
    }
  }

  /** For every input: the number of points of every leg and the first point of the course are kept, every
      gate is crossed between a tenth of the way along it and its far end, every later leg starts on its own
      gate at the fraction of the previous crossing, and the flag says viable. */
  lemma OptimizedKeeps(pb: Problem, tacks: Course, alphas: seq<real>)
    requires Fits(pb, tacks, alphas)
    ensures var r := Optimized(pb, tacks, alphas);
      && SameShape(r.tacks, tacks) && (|tacks| > 0 ==> r.tacks[0][0] == tacks[0][0])
      && Crossings(r.alphas, |r.alphas|) && Starts(pb.gates, r.tacks, r.alphas, |r.tacks|) && r.viable
  {
    OptimizedForm(pb, tacks, alphas);
    DescentKeeps(pb, Plan(tacks, alphas, 0.0, true), 50);
    hide Optimized, Descent, Crossings, Starts;
  }

  // ---------------------------------------------------------------- how legs meet

  /** Leg j of the result starts where leg j - 1 ends: on the gate between them, where that is crossed. */
  predicate Joined(pb: Problem, tacks: Course, alphas: seq<real>, j: nat)
    requires Fits(pb, tacks, alphas) && 0 < j < |tacks|
  {
    var r := Optimized(pb, tacks, alphas);
    r.tacks[j][0] == Along(pb.gates[j - 1], r.alphas[j - 1])
  }

  /** It does so exactly when the two gates have the same point at the fraction of the crossing. */
  lemma JoinedExactly(pb: Problem, tacks: Course, alphas: seq<real>, j: nat)
    requires Fits(pb, tacks, alphas) && 0 < j < |tacks|
    ensures var a := Optimized(pb, tacks, alphas).alphas[j - 1];
      Crossing(a) && (Joined(pb, tacks, alphas, j) <==> Along(pb.gates[j], a) == Along(pb.gates[j - 1], a))
  {
    OptimizedKeeps(pb, tacks, alphas);
    hide Optimized, Along, Crossing;
  }

  /** So on two gates one of which is the other moved aside, legs never meet, whatever the terrain. */
  lemma ParallelGatesNeverJoin(pb: Problem, tacks: Course, alphas: seq<real>, j: nat)
    requires Fits(pb, tacks, alphas) && 0 < j < |tacks|
    requires var g, h := pb.gates[j - 1], pb.gates[j];
      g != h && h.a.x - g.a.x == h.b.x - g.b.x && h.a.y - g.a.y == h.b.y - g.b.y
    ensures !Joined(pb, tacks, alphas, j)
  {
    hide Along, Joined, Optimized;
    JoinedExactly(pb, tacks, alphas, j);
    Apart(pb.gates[j - 1], pb.gates[j], Optimized(pb, tacks, alphas).alphas[j - 1]);
  }

  lemma Apart(g: Gate, h: Gate, t: real)
    requires g != h && h.a.x - g.a.x == h.b.x - g.b.x && h.a.y - g.a.y == h.b.y - g.b.y
    ensures Along(h, t) != Along(g, t)
  {
    assert h.b.x - h.a.x == g.b.x - g.a.x && h.b.y - h.a.y == g.b.y - g.a.y;
    assert t * (h.b.x - h.a.x) == t * (g.b.x - g.a.x) && t * (h.b.y - h.a.y) == t * (g.b.y - g.a.y);
  }

  /** A terrain that drives every crossing to one end of what the clip allows. */
  function Steep(gradient: real): Terrain {
    Terrain((p, q) => 0.0, (g, p, a, h, q) => Price(0.0, gradient, true),
            (p, q, r, h, k, w) => Price(0.0, Point(0.0, 0.0), true))
  }

  lemma SteepLeg(pb: Problem, p: Plan, jj: nat, gradient: real, goal: real)
    requires Fits(pb, p.tacks, p.alphas) && jj < |pb.gates| && pb.terrain == Steep(gradient)
    requires (gradient == 1000.0 && goal == 0.1) || (gradient == -1000.0 && goal == 1.0)
    requires Crossing(p.alphas[jj])
    ensures LegStep(pb, 0.003, p, jj).alphas[jj] == goal
  {
    var leg := Positioned(pb, p, jj);
    var next := if jj == |p.tacks| - 1 then pb.next else p.tacks[jj + 1][0];
    var yaw := if jj > 0 then pb.terrain.heading(p.tacks[jj - 1][|p.tacks[jj - 1]| - 1], leg[0]) else pb.yaw;
    var a := p.alphas[jj];
    PassedKeeps(pb.terrain, pb.gates[jj], next, yaw, 0.003, jj == 0, leg, a);
    assert CrossingPrice(pb.terrain, pb.gates[jj], next, yaw, leg, a).gradient == gradient;
    assert Slid(a, 0.003, gradient) == goal;
    hide Passed, Slid, CrossingPrice, Positioned, Crossing, Along;
  }

  lemma {:induction false} SteepSweep(pb: Problem, p: Plan, n: nat, gradient: real, goal: real)
    requires Fits(pb, p.tacks, p.alphas) && n <= |pb.gates| && pb.terrain == Steep(gradient)
    requires (gradient == 1000.0 && goal == 0.1) || (gradient == -1000.0 && goal == 1.0)
    requires Crossings(p.alphas, |p.alphas|)
    ensures var r := Sweep(pb, 0.003, p, n);
      && (forall j :: 0 <= j < n ==> r.alphas[j] == goal)
      && (forall j :: n <= j < |r.alphas| ==> r.alphas[j] == p.alphas[j])
    decreases n
  {
    hide Sweep, LegStep, Steep, Along, Crossing;
    SweepForm(pb, 0.003, p, n);
    if n != 0 {
      SteepSweep(pb, p, n - 1, gradient, goal);
      var q := Sweep(pb, 0.003, p, n - 1);
      assert q.alphas[n - 1] == p.alphas[n - 1];
      SteepLeg(pb, q, n - 1, gradient, goal);
      LegStepKeeps(pb, 0.003, q, n - 1);
    }
  }

  /** On a steep terrain every gate ends up crossed at the same end. */
  lemma SteepResult(pb: Problem, tacks: Course, alphas: seq<real>, gradient: real, goal: real, j: nat)
    requires Fits(pb, tacks, alphas) && j < |alphas| && pb.terrain == Steep(gradient)
    requires (gradient == 1000.0 && goal == 0.1) || (gradient == -1000.0 && goal == 1.0)
    ensures Optimized(pb, tacks, alphas).alphas[j] == goal
  {
    var p := Plan(tacks, alphas, 0.0, true);
    OptimizedForm(pb, tacks, alphas);
    DescentForm(pb, p, 50);
    DescentKeeps(pb, p, 49);
    assert StepSize(49) == 0.003;
    hide Optimized, Descent, Sweep, Steep, Starts;
    var q := Descent(pb, p, 49);
    SteepSweep(pb, Plan(q.tacks, q.alphas, 0.0, true), |pb.gates|, gradient, goal);
  }

  /** Leg j starts where leg j - 1 ends whatever the terrain. */
  ghost predicate AlwaysJoined(pb: Problem, tacks: Course, alphas: seq<real>, j: nat)
    requires Fits(pb, tacks, alphas) && 0 < j < |tacks|
  {
    forall tr: Terrain :: Joined(On(pb, tr), tacks, alphas, j)
  }

  function On(pb: Problem, tr: Terrain): Problem {
    Problem(tr, pb.gates, pb.next, pb.yaw)
  }

  /** That is guaranteed exactly when the two gates are the same. */
  lemma AlwaysJoinedExactly(pb: Problem, tacks: Course, alphas: seq<real>, j: nat)
    requires Fits(pb, tacks, alphas) && 0 < j < |tacks|
    ensures AlwaysJoined(pb, tacks, alphas, j) <==> pb.gates[j] == pb.gates[j - 1]
  {
    hide Optimized, Joined, Along, Steep;
    forall tr: Terrain
      ensures pb.gates[j] == pb.gates[j - 1] ==> Joined(On(pb, tr), tacks, alphas, j)
    {
      JoinedExactly(On(pb, tr), tacks, alphas, j);
    }
    if AlwaysJoined(pb, tacks, alphas, j) {
      var down, up := On(pb, Steep(1000.0)), On(pb, Steep(-1000.0));
      JoinedExactly(down, tacks, alphas, j);
      JoinedExactly(up, tacks, alphas, j);
      SteepResult(down, tacks, alphas, 1000.0, 0.1, j - 1);
      SteepResult(up, tacks, alphas, -1000.0, 1.0, j - 1);
      SameGate(pb.gates[j], pb.gates[j - 1]);
    }
  }

  lemma SameGate(g: Gate, h: Gate)
    requires Along(g, 0.1) == Along(h, 0.1) && Along(g, 1.0) == Along(h, 1.0)
    ensures g == h
  {
  }

  // ---------------------------------------------------------------- viability

  /** All lines of the first n legs of an iteration are viable, as their passes report. */
  predicate LegsViable(pb: Problem, step: real, p: Plan, n: nat)
    requires Fits(pb, p.tacks, p.alphas) && n <= |pb.gates|
  {
    forall j :: 0 <= j < n ==> LegPass(pb, step, Sweep(pb, step, p, j), j).viable
  }

  /** The course as it stood in the last iteration had only viable lines. */
  predicate LastPassViable(pb: Problem, tacks: Course, alphas: seq<real>)
    requires Fits(pb, tacks, alphas)
  {
    var q := Descent(pb, Plan(tacks, alphas, 0.0, true), 49);
    LegsViable(pb, StepSize(49), Plan(q.tacks, q.alphas, 0.0, true), |pb.gates|)
  }

  /** A terrain on which no line is viable. */
  function Unsailable(): Terrain {
    Terrain((p, q) => 0.0, (g, p, a, h, q) => Price(0.0, 0.0, false),
            (p, q, r, h, k, w) => Price(0.0, Point(0.0, 0.0), false))
  }

  /** The flag is meant to say whether the lines of the last iteration are viable. On a terrain where none
      ever is, every pass over every leg says so, and the flag still says viable. */
  lemma UnsailableAccepted(pb: Problem, tacks: Course, alphas: seq<real>)
    requires Fits(pb, tacks, alphas) && tacks != [] && pb.terrain == Unsailable()
    ensures !LastPassViable(pb, tacks, alphas) && Optimized(pb, tacks, alphas).viable
  {
    OptimizedKeeps(pb, tacks, alphas);
    var q := Descent(pb, Plan(tacks, alphas, 0.0, true), 49);
    var p := Plan(q.tacks, q.alphas, 0.0, true);
    hide Optimized, Descent, Sweep;
    NotViable(pb, StepSize(49), Sweep(pb, StepSize(49), p, 0), 0);
    hide LegPass;
  }

  lemma NotViable(pb: Problem, step: real, p: Plan, jj: nat)
    requires Fits(pb, p.tacks, p.alphas) && jj < |pb.gates| && pb.terrain == Unsailable()
    ensures !LegPass(pb, step, p, jj).viable
  {
    var leg := Positioned(pb, p, jj);
    var next := if jj == |p.tacks| - 1 then pb.next else p.tacks[jj + 1][0];
    var yaw := if jj > 0 then pb.terrain.heading(p.tacks[jj - 1][|p.tacks[jj - 1]| - 1], leg[0]) else pb.yaw;
    PassedKeeps(pb.terrain, pb.gates[jj], next, yaw, step, jj == 0, leg, p.alphas[jj]);
    assert !CrossingPrice(pb.terrain, pb.gates[jj], next, yaw, leg, p.alphas[jj]).viable;
    hide Passed, CrossingPrice, Positioned, Slid, Along;
  }

  predicate FlagRight(pb: Problem, tacks: Course, alphas: seq<real>)
    requires Fits(pb, tacks, alphas)
  {
    Optimized(pb, tacks, alphas).viable == LastPassViable(pb, tacks, alphas)
  }

  /** The flag can be relied on, whatever the terrain, if and only if there is nothing to sail. */
  lemma FlagRightExactly(pb: Problem, tacks: Course, alphas: seq<real>)
    requires Fits(pb, tacks, alphas)
    ensures (forall tr: Terrain :: FlagRight(On(pb, tr), tacks, alphas)) <==> pb.gates == []
  {
    if pb.gates == [] {
      forall tr: Terrain
        ensures FlagRight(On(pb, tr), tacks, alphas)
      {
        OptimizedKeeps(On(pb, tr), tacks, alphas);
      }
    } else {
      UnsailableAccepted(On(pb, Unsailable()), tacks, alphas);
      assert !FlagRight(On(pb, Unsailable()), tacks, alphas);
    }
    hide Optimized, Descent, Sweep, LegPass;
  }
}
