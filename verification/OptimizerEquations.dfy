/**
 What the optimizer computes, as equations between what goes in and what comes out: every point of the new
 course in terms of the old points before it and the new points after it, the cost as a sum of prices, and
 the viability of a leg as that of all its lines. On a terrain of constant prices and gradients the equations
 are solved outright.
 */
module OptimizerEquations {
  import opened Hypotheses
  import opened Optimizer

  // ---------------------------------------------------------------- one pass over a leg

  /** What stays the same during a pass. */
  datatype Conditions = Conditions(tr: Terrain, yaw: real, step: real, prescale: bool)

  /** The new point after point `k`, where `post` comes after point `top`. */
  function PostAt(r: Leg, top: nat, post: Point, k: nat): Point
    requires k <= top < |r|
  {
    if k == top then post else r[k + 1]
  }

  /** The price of point `k`: between the old point before it and the new point after it, entered on the old
      heading, or the boat's for the first, and left on the heading the next point is left on. Only the first
      turn of the course is weighted. */
  function PriceAt(cd: Conditions, leg: Leg, r: Leg, top: nat, post: Point, out: real, k: nat): Price<Point>
    requires 0 < k <= top < |leg| == |r|
  {
    cd.tr.pair(leg[k - 1], PostAt(r, top, post, k), leg[k],
               if k == 1 then cd.yaw else cd.tr.heading(leg[k - 2], leg[k - 1]),
               if k == top then out else cd.tr.heading(r[k + 1], PostAt(r, top, post, k + 1)),
               if k == 1 && cd.prescale then 200.0 else 1.0)
  }

  /** Point `k` has moved against its gradient. */
  predicate MovedAt(cd: Conditions, leg: Leg, r: Leg, top: nat, post: Point, out: real, k: nat)
    requires 0 < k <= top < |leg| == |r|
  {
    var g := PriceAt(cd, leg, r, top, post, out, k).gradient;
    r[k].x == leg[k].x - cd.step * g.x && r[k].y == leg[k].y - cd.step * g.y
  }

  /** The prices of points 1 to `k`. */
  function Prices(cd: Conditions, leg: Leg, r: Leg, top: nat, post: Point, out: real, k: nat): real
    requires k <= top < |leg| == |r|
    decreases k
  {
    if k == 0 then 0.0 else Prices(cd, leg, r, top, post, out, k - 1) + PriceAt(cd, leg, r, top, post, out, k).cost
  }

  predicate ViableUpTo(cd: Conditions, leg: Leg, r: Leg, top: nat, post: Point, out: real, k: nat)
    requires k <= top < |leg| == |r|
  {
    forall i :: 0 < i <= k ==> PriceAt(cd, leg, r, top, post, out, i).viable
  }

  function Run(cd: Conditions, p: Pass, ii: nat, post: Point, out: real): Pass
    requires ii < |p.leg|
  {
    Improved(cd.tr, cd.yaw, cd.step, cd.prescale, p, ii, post, out)
  }

  predicate Solves(cd: Conditions, p: Pass, r: Pass, ii: nat, post: Point, out: real) {
    && ii < |p.leg| == |r.leg| && r.leg[0] == p.leg[0] && r.alpha == p.alpha
    && (forall k :: ii < k < |p.leg| ==> r.leg[k] == p.leg[k])
    && (forall k :: 0 < k <= ii ==> MovedAt(cd, p.leg, r.leg, ii, post, out, k))
    && r.cost == p.cost + Prices(cd, p.leg, r.leg, ii, post, out, ii)
    && (r.viable <==> p.viable && ViableUpTo(cd, p.leg, r.leg, ii, post, out, ii))
  }

  /** One point down, seen from the point above: the same prices. */
  lemma SamePrice(cd: Conditions, leg: Leg, leg': Leg, r: Leg, ii: nat, post: Point, out: real, k: nat)
    requires 0 < k < ii < |leg| == |leg'| == |r| && leg' == leg[ii := r[ii]]
    ensures PriceAt(cd, leg', r, ii - 1, r[ii], cd.tr.heading(r[ii], post), k) == PriceAt(cd, leg, r, ii, post, out, k)
  {
  }

  lemma {:induction false} SamePrices(cd: Conditions, leg: Leg, leg': Leg, r: Leg, ii: nat, post: Point, out: real, k: nat)
    requires k < ii < |leg| == |leg'| == |r| && leg' == leg[ii := r[ii]]
    ensures Prices(cd, leg', r, ii - 1, r[ii], cd.tr.heading(r[ii], post), k) == Prices(cd, leg, r, ii, post, out, k)
    decreases k
  {
    if k != 0 {
      SamePrices(cd, leg, leg', r, ii, post, out, k - 1);
      SamePrice(cd, leg, leg', r, ii, post, out, k);
      hide PriceAt;
    }
  }

  lemma SolvesFrom(cd: Conditions, p: Pass, p': Pass, r: Pass, ii: nat, post: Point, out: real)
    requires 0 < ii < |p.leg| && |r.leg| == |p.leg| && |p'.leg| == |p.leg|
    requires Solves(cd, p', r, ii - 1, r.leg[ii], cd.tr.heading(r.leg[ii], post))
    requires var q := PriceAt(cd, p.leg, r.leg, ii, post, out, ii);
      p' == Pass(p.leg[ii := r.leg[ii]], p.alpha, p.cost + q.cost, p.viable && q.viable)
    requires MovedAt(cd, p.leg, r.leg, ii, post, out, ii)
    ensures Solves(cd, p, r, ii, post, out)
  {
    var cur := r.leg[ii];
    var out' := cd.tr.heading(cur, post);
    forall k | 0 < k < ii
      ensures PriceAt(cd, p'.leg, r.leg, ii - 1, cur, out', k) == PriceAt(cd, p.leg, r.leg, ii, post, out, k)
      ensures MovedAt(cd, p.leg, r.leg, ii, post, out, k)
    {
      SamePrice(cd, p.leg, p'.leg, r.leg, ii, post, out, k);
      assert MovedAt(cd, p'.leg, r.leg, ii - 1, cur, out', k);
    }
    SamePrices(cd, p.leg, p'.leg, r.leg, ii, post, out, ii - 1);
    assert Prices(cd, p.leg, r.leg, ii, post, out, ii)
        == Prices(cd, p.leg, r.leg, ii, post, out, ii - 1) + PriceAt(cd, p.leg, r.leg, ii, post, out, ii).cost;
    hide Prices, PriceAt;
    if p'.viable && ViableUpTo(cd, p'.leg, r.leg, ii - 1, cur, out', ii - 1) {
      forall i | 0 < i <= ii
        ensures PriceAt(cd, p.leg, r.leg, ii, post, out, i).viable
      {
        if i < ii {
          assert PriceAt(cd, p'.leg, r.leg, ii - 1, cur, out', i).viable;
        }
      }
    }
    if p.viable && ViableUpTo(cd, p.leg, r.leg, ii, post, out, ii) {
      var top := ii - 1;
      forall i | 0 < i <= top
        ensures PriceAt(cd, p'.leg, r.leg, top, cur, out', i).viable
      {
        assert PriceAt(cd, p.leg, r.leg, ii, post, out, i).viable;
      }
    }
  }

  lemma RunStep(cd: Conditions, p: Pass, ii: nat, post: Point, out: real) returns (p': Pass, cur: Point)
    requires 0 < ii < |p.leg|
    ensures |p'.leg| == |p.leg| && p'.leg[ii] == cur
    ensures Run(cd, p, ii, post, out) == Run(cd, p', ii - 1, cur, cd.tr.heading(cur, post))
    ensures forall r: Leg :: |r| == |p.leg| && r[ii] == cur ==>
              && MovedAt(cd, p.leg, r, ii, post, out, ii)
              && var q := PriceAt(cd, p.leg, r, ii, post, out, ii);
                 p' == Pass(p.leg[ii := r[ii]], p.alpha, p.cost + q.cost, p.viable && q.viable)
  {
    var pre := p.leg[ii - 1];
    var enter := if ii == 1 then cd.yaw else cd.tr.heading(p.leg[ii - 2], pre);
    var q := cd.tr.pair(pre, post, p.leg[ii], enter, out, if ii == 1 && cd.prescale then 200.0 else 1.0);
    cur := Moved(p.leg[ii], cd.step, q.gradient);
    p' := Pass(p.leg[ii := cur], p.alpha, p.cost + q.cost, p.viable && q.viable);
    forall r: Leg | |r| == |p.leg| && r[ii] == cur
      ensures PriceAt(cd, p.leg, r, ii, post, out, ii) == q && MovedAt(cd, p.leg, r, ii, post, out, ii)
    {
    }
  }

  /** The loop over the points of a leg solves the equations. */
  lemma {:induction false} ImprovedSolves(cd: Conditions, p: Pass, ii: nat, post: Point, out: real)
    requires ii < |p.leg|
    ensures Solves(cd, p, Run(cd, p, ii, post, out), ii, post, out)
    decreases ii
  {
    if ii != 0 {
      hide *;
      var p', cur := RunStep(cd, p, ii, post, out);
      ImprovedSolves(cd, p', ii - 1, cur, cd.tr.heading(cur, post));
      var r := Run(cd, p, ii, post, out);
      AboveStays(cd, p', r, ii - 1, cur, cd.tr.heading(cur, post));
      SolvesFrom(cd, p, p', r, ii, post, out);
    }
  }

  lemma AboveStays(cd: Conditions, p: Pass, r: Pass, ii: nat, post: Point, out: real)
    requires Solves(cd, p, r, ii, post, out)
    ensures |r.leg| == |p.leg| && forall k :: ii < k < |p.leg| ==> r.leg[k] == p.leg[k]
  {
    hide MovedAt, Prices, ViableUpTo;
  }

  // ---------------------------------------------------------------- a leg with its crossing

  /** The point at fraction `alpha` of a gate. */
  predicate OnGate(p: Point, g: Gate, alpha: real) {
    p.x == (1.0 - alpha) * g.a.x + alpha * g.b.x && p.y == (1.0 - alpha) * g.a.y + alpha * g.b.y
  }

  /** `x` kept between a tenth and one. */
  predicate Clipped(r: real, x: real) {
    (x < 0.1 ==> r == 0.1) && (x > 1.0 ==> r == 1.0) && (0.1 <= x <= 1.0 ==> r == x)
  }

  /** The price of the crossing, seen from the old last point on the heading into it. */
  function LinePrice(cd: Conditions, gate: Gate, next: Point, leg: Leg, alpha: real): Price<real>
    requires |leg| >= 1
  {
    var n := |leg|;
    cd.tr.line(gate, leg[n - 1], alpha, if n == 1 then cd.yaw else cd.tr.heading(leg[n - 2], leg[n - 1]), next)
  }

  /** `r` is what a pass makes of `leg` and `alpha`. `cross` is the new crossing. */
  predicate PassSolves(cd: Conditions, gate: Gate, next: Point, leg: Leg, alpha: real, r: Pass, cross: Point)
    requires |leg| >= 1
  {
    var q, top := LinePrice(cd, gate, next, leg, alpha), |leg| - 1;
    && Clipped(r.alpha, alpha - cd.step * q.gradient) && OnGate(cross, gate, r.alpha)
    && Solves(cd, Pass(leg, r.alpha, q.cost, q.viable), r, top, cross, cd.tr.heading(leg[top], cross))
  }

  lemma AlongOnGate(g: Gate, alpha: real)
    ensures OnGate(Along(g, alpha), g, alpha)
  {
    assert (1.0 - alpha) * g.a.x + alpha * g.b.x == g.a.x + alpha * (g.b.x - g.a.x);
    assert (1.0 - alpha) * g.a.y + alpha * g.b.y == g.a.y + alpha * (g.b.y - g.a.y);
  }

  lemma SlidIsClipped(alpha: real, step: real, gradient: real)
    ensures Clipped(Slid(alpha, step, gradient), alpha - step * gradient)
  {
  }

  /** LinePlan::BackPass solves the equations of a pass. */
  lemma PassedSolves(cd: Conditions, gate: Gate, next: Point, leg: Leg, alpha: real)
    requires |leg| >= 1
    ensures var r := Passed(cd.tr, gate, next, cd.yaw, cd.step, cd.prescale, leg, alpha);
            PassSolves(cd, gate, next, leg, alpha, r, Along(gate, r.alpha))
  {
    var q := CrossingPrice(cd.tr, gate, next, cd.yaw, leg, alpha);
    assert q == LinePrice(cd, gate, next, leg, alpha);
    var alpha', top := Slid(alpha, cd.step, q.gradient), |leg| - 1;
    var post := Along(gate, alpha');
    var r := Passed(cd.tr, gate, next, cd.yaw, cd.step, cd.prescale, leg, alpha);
    PassedIs(cd, gate, next, leg, alpha, q, alpha');
    SlidIsClipped(alpha, cd.step, q.gradient);
    AlongOnGate(gate, alpha');
    ImprovedSolves(cd, Pass(leg, alpha', q.cost, q.viable), top, post, cd.tr.heading(leg[top], post));
    AlphaStays(cd, Pass(leg, alpha', q.cost, q.viable), r, top, post, cd.tr.heading(leg[top], post));
    hide Passed, Slid, Along, Solves, Clipped, OnGate, LinePrice;
  }

  lemma PassedIs(cd: Conditions, gate: Gate, next: Point, leg: Leg, alpha: real, q: Price<real>, alpha': real)
    requires |leg| >= 1 && q == CrossingPrice(cd.tr, gate, next, cd.yaw, leg, alpha)
    requires alpha' == Slid(alpha, cd.step, q.gradient)
    ensures var top, post := |leg| - 1, Along(gate, alpha');
      Passed(cd.tr, gate, next, cd.yaw, cd.step, cd.prescale, leg, alpha)
      == Run(cd, Pass(leg, alpha', q.cost, q.viable), top, post, cd.tr.heading(leg[top], post))
  {
    hide CrossingPrice, Slid, Along, Improved;
  }

  lemma AlphaStays(cd: Conditions, p: Pass, r: Pass, ii: nat, post: Point, out: real)
    requires Solves(cd, p, r, ii, post, out)
    ensures r.alpha == p.alpha
  {
    hide MovedAt, Prices, ViableUpTo;
  }
}
