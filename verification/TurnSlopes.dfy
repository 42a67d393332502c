/**
 The two derivatives TurnCost reports (control/line_plan.cc) are the derivatives of the cost: moving a
 heading changes the cost by the reported slope times the change, up to a term in its square.
 */
module TurnSlopes {
  import opened TurnCost

  /** Two turns that see the zone the same way: no edge is crossed between them. */
  predicate SameCase(t: Turn, u: Turn) {
    && t.sign == u.sign && t.Misses() == u.Misses()
    && (!t.Misses() ==> t.ClipsStart() == u.ClipsStart() && t.ClipsEnd() == u.ClipsEnd())
  }

  /** The cost after the weighted angle has moved by `rate * d`: linear term and exact remainder. */
  lemma SquareStep(k: real, w: real, rate: real, d: real)
    ensures k * Square(w + rate * d) == k * Square(w) + (2.0 * k * rate * w) * d + k * Square(rate * d)
  {
    var r := rate * d;
    assert Square(w + r) == Square(w) + 2.0 * (w * r) + Square(r);
    assert k * (2.0 * (w * r)) == (2.0 * k * rate * w) * d;
  }

  /** Turning the final heading by d changes the cost by dend * d plus a term in d squared: dend is the
      derivative with respect to the final heading wherever no edge of the zone is crossed. */
  lemma EndDerivative(t: Turn, u: Turn, d: real, turnCost: real, tack: real)
    requires t.sign == 1.0 || t.sign == -1.0
    requires SameCase(t, u) && u.size == t.size + t.sign * d && u.near == t.near && u.far == t.far
    ensures turnCost * Square(Weighted(u, tack)) ==
      turnCost * Square(Weighted(t, tack)) + EndSlope(t, turnCost, tack) * d + turnCost * Square(EndRate(t, tack) * d)
  {
    hide Weighted, EndRate, EndSlope, Slope, SameCase;
    EndMoves(t, u, d, tack);
    SlopesAre(t, turnCost, tack);
    CostStep(turnCost, Weighted(t, tack), Weighted(u, tack), t.sign, EndRate(t, tack),
             EndSlope(t, turnCost, tack), d);
  }

  lemma CostStep(k: real, w: real, w': real, sign: real, rate: real, slope: real, d: real)
    requires (sign == 1.0 || sign == -1.0) && w' == w + sign * rate * d && slope == Slope(k, sign, rate, w)
    ensures k * Square(w') == k * Square(w) + slope * d + k * Square(rate * d)
  {
    SquareStep(k, w, sign * rate, d);
    SignOut(sign, rate, d, k, w);
  }

  lemma EndMoves(t: Turn, u: Turn, d: real, tack: real)
    requires t.sign == 1.0 || t.sign == -1.0
    requires SameCase(t, u) && u.size == t.size + t.sign * d && u.near == t.near && u.far == t.far
    ensures Weighted(u, tack) == Weighted(t, tack) + t.sign * EndRate(t, tack) * d
  {
    var e := t.sign * d;
    if !t.Misses() && t.ClipsEnd() {
      assert u.InZone() == t.InZone() + e;
      assert (tack - 1.0) * (t.InZone() + e) == (tack - 1.0) * t.InZone() + (tack - 1.0) * e;
    }
  }

  /** The same for the initial heading: the whole picture shifts by d. */
  lemma StartDerivative(t: Turn, u: Turn, d: real, turnCost: real, tack: real)
    requires t.sign == 1.0 || t.sign == -1.0
    requires SameCase(t, u) && u.size == t.size - t.sign * d
    requires u.near == t.near - t.sign * d && u.far == t.far - t.sign * d
    ensures turnCost * Square(Weighted(u, tack)) ==
      turnCost * Square(Weighted(t, tack)) + StartSlope(t, turnCost, tack) * d + turnCost * Square(StartRate(t, tack) * d)
  {
    hide Weighted, StartRate, StartSlope, Slope, SameCase;
    StartMoves(t, u, d, tack);
    SlopesAre(t, turnCost, tack);
    CostStep(turnCost, Weighted(t, tack), Weighted(u, tack), -t.sign, StartRate(t, tack),
             StartSlope(t, turnCost, tack), d);
  }

  lemma StartMoves(t: Turn, u: Turn, d: real, tack: real)
    requires t.sign == 1.0 || t.sign == -1.0
    requires SameCase(t, u) && u.size == t.size - t.sign * d
    requires u.near == t.near - t.sign * d && u.far == t.far - t.sign * d
    ensures Weighted(u, tack) == Weighted(t, tack) + -t.sign * StartRate(t, tack) * d
  {
    var e := t.sign * d;
    if !t.Misses() && t.ClipsStart() {
      assert u.InZone() == t.InZone() - e;
      assert (tack - 1.0) * (t.InZone() - e) == (tack - 1.0) * t.InZone() - (tack - 1.0) * e;
    }
  }

  lemma SignOut(sign: real, rate: real, d: real, k: real, w: real)
    requires sign == 1.0 || sign == -1.0
    ensures Square((sign * rate) * d) == Square(rate * d)
    ensures 2.0 * k * (sign * rate) * w == Slope(k, sign, rate, w)
  {
    assert (sign * rate) * d == sign * (rate * d);
  }

  /** A small change of an angle that does not reach the seam at pi changes the normalized angle alike. */
  lemma NormShift(a: real, d: real, pi: real)
    requires pi > 0.0 && -pi < NormAngle(a, pi) + d < pi
    ensures NormAngle(a + d, pi) == NormAngle(a, pi) + d
  {
    var k := WholeTurns(a, pi);
    var m := WholeTurns(a + d, pi);
    SubTurns(k, m, pi);
    hide *;
    SameTurn(NormAngle(a, pi) + d, NormAngle(a + d, pi), k - m, pi);
  }

  /** Moving the final heading moves the end of the turn and leaves the zone where it was. */
  lemma EndShift(start: real, end: real, wind: real, pi: real, d: real)
    requires pi > 0.0
    requires var t := Normalize(start, end, wind, pi); 0.0 < t.size && 0.0 < t.size + t.sign * d < pi
    ensures var t, u := Normalize(start, end, wind, pi), Normalize(start, end + d, wind, pi);
            u.sign == t.sign && u.size == t.size + t.sign * d && u.near == t.near && u.far == t.far
  {
    hide NormAngle;
    assert end - start + d == end + d - start;
    NormShift(end - start, d, pi);
  }

  /** Moving the initial heading shifts the end of the turn and both edges of the zone. */
  lemma StartShift(start: real, end: real, wind: real, pi: real, d: real)
    requires pi > 0.0
    requires var t := Normalize(start, end, wind, pi);
      && 0.0 < t.size && 0.0 < t.size - t.sign * d < pi
      && -pi < t.near - t.sign * d < pi && -pi < t.far - t.sign * d < pi
    ensures var t, u := Normalize(start, end, wind, pi), Normalize(start + d, end, wind, pi);
      && u.sign == t.sign && u.size == t.size - t.sign * d
      && u.near == t.near - t.sign * d && u.far == t.far - t.sign * d
  {
    hide NormAngle;
    var plusAbs := NormAngle(pi + wind + pi / 4.0, pi);
    var negAbs := NormAngle(pi + wind - pi / 4.0, pi);
    assert end - start + -d == end - (start + d);
    assert plusAbs - start + -d == plusAbs - (start + d) && negAbs - start + -d == negAbs - (start + d);
    NormShift(end - start, -d, pi);
    NormShift(plusAbs - start, -d, pi);
    NormShift(negAbs - start, -d, pi);
  }

  /** The cost of a turn as a function of its inputs. */
  function CostOf(start: real, end: real, wind: real, pi: real, turnCost: real, tack: real): real
    requires pi > 0.0
  {
    turnCost * Square(Weighted(Normalize(start, end, wind, pi), tack))
  }

  lemma CostOfIs(start: real, end: real, wind: real, pi: real, turnCost: real, tack: real)
    requires pi > 0.0
    ensures var t := Normalize(start, end, wind, pi);
      && CostOf(start, end, wind, pi, turnCost, tack) == turnCost * Square(Weighted(t, tack))
      && (t.sign == 1.0 || t.sign == -1.0)
  {
    hide NormAngle, Weighted, Square;
  }

  /** TurnCost's derivative with respect to the final heading is exact, remainder and all, as long as the
      turn stays on its side, short of half a circle, and crosses no edge of the zone. */
  lemma CostEndDerivative(start: real, end: real, wind: real, pi: real, d: real, turnCost: real, tack: real)
    requires pi > 0.0
    requires var t := Normalize(start, end, wind, pi); 0.0 < t.size && 0.0 < t.size + t.sign * d < pi
    requires SameCase(Normalize(start, end, wind, pi), Normalize(start, end + d, wind, pi))
    ensures var t := Normalize(start, end, wind, pi);
      CostOf(start, end + d, wind, pi, turnCost, tack) ==
      CostOf(start, end, wind, pi, turnCost, tack)
      + EndSlope(t, turnCost, tack) * d
      + turnCost * Square(EndRate(t, tack) * d)
  {
    hide Weighted, EndRate, EndSlope, SameCase, Normalize, CostOf;
    var t, u := Normalize(start, end, wind, pi), Normalize(start, end + d, wind, pi);
    CostOfIs(start, end, wind, pi, turnCost, tack);
    CostOfIs(start, end + d, wind, pi, turnCost, tack);
    EndShift(start, end, wind, pi, d);
    EndDerivative(t, u, d, turnCost, tack);
  }

  /** And with respect to the initial heading, as long as neither edge passes straight behind. */
  lemma CostStartDerivative(start: real, end: real, wind: real, pi: real, d: real, turnCost: real, tack: real)
    requires pi > 0.0
    requires var t := Normalize(start, end, wind, pi);
      && 0.0 < t.size && 0.0 < t.size - t.sign * d < pi
      && -pi < t.near - t.sign * d < pi && -pi < t.far - t.sign * d < pi
    requires SameCase(Normalize(start, end, wind, pi), Normalize(start + d, end, wind, pi))
    ensures var t := Normalize(start, end, wind, pi);
      CostOf(start + d, end, wind, pi, turnCost, tack) ==
      CostOf(start, end, wind, pi, turnCost, tack)
      + StartSlope(t, turnCost, tack) * d
      + turnCost * Square(StartRate(t, tack) * d)
  {
    hide Weighted, StartRate, StartSlope, SameCase, Normalize, CostOf;
    var t, u := Normalize(start, end, wind, pi), Normalize(start + d, end, wind, pi);
    CostOfIs(start, end, wind, pi, turnCost, tack);
    CostOfIs(start + d, end, wind, pi, turnCost, tack);
    StartShift(start, end, wind, pi, d);
    StartDerivative(t, u, d, turnCost, tack);
  }

  /** The case left over: no turn at all. The code reports slopes of zero, and rightly so: any change of less
      than half a circle costs no more than the square of that change, counted tackCost times at most. */
  lemma NoTurn(start: real, end: real, wind: real, pi: real, d: real, turnCost: real, tack: real)
    requires pi > 0.0 && turnCost >= 0.0 && Normalize(start, end, wind, pi).size == 0.0 && -pi < d < pi
    ensures var t := Normalize(start, end, wind, pi);
      && StartSlope(t, turnCost, tack) == EndSlope(t, turnCost, tack) == CostOf(start, end, wind, pi, turnCost, tack) == 0.0
    ensures 0.0 <= CostOf(start, end + d, wind, pi, turnCost, tack) <= turnCost * Larger(Square(d), Square(tack * d))
    ensures 0.0 <= CostOf(start + d, end, wind, pi, turnCost, tack) <= turnCost * Larger(Square(d), Square(tack * d))
  {
    hide NormAngle;
    assert NormAngle(end - start, pi) == 0.0;
    assert end - start + d == end + d - start && end - start + -d == end - (start + d);
    NormShift(end - start, d, pi);
    NormShift(end - start, -d, pi);
    StillTurn(start, end, wind, pi, turnCost, tack);
    SmallTurn(start, end + d, wind, pi, d, turnCost, tack);
    SmallTurn(start + d, end, wind, pi, d, turnCost, tack);
  }

  function Larger(a: real, b: real): real {
    if a < b then b else a
  }

  lemma StillTurn(start: real, end: real, wind: real, pi: real, turnCost: real, tack: real)
    requires pi > 0.0 && Normalize(start, end, wind, pi).size == 0.0
    ensures var t := Normalize(start, end, wind, pi);
      StartSlope(t, turnCost, tack) == EndSlope(t, turnCost, tack) == CostOf(start, end, wind, pi, turnCost, tack) == 0.0
  {
    var t := Normalize(start, end, wind, pi);
    ArcInTurn(start, end, wind, pi);
    hide Normalize;
    assert t.InZone() == 0.0;
    assert Weighted(t, tack) == 0.0;
    CostOfIs(start, end, wind, pi, turnCost, tack);
    hide Weighted, CostOf;
  }

  lemma SmallTurn(start: real, end: real, wind: real, pi: real, d: real, turnCost: real, tack: real)
    requires pi > 0.0 && turnCost >= 0.0
    requires Normalize(start, end, wind, pi).size == d || Normalize(start, end, wind, pi).size == -d
    ensures 0.0 <= CostOf(start, end, wind, pi, turnCost, tack) <= turnCost * Larger(Square(d), Square(tack * d))
  {
    hide *;
    var t := Normalize(start, end, wind, pi);
    ArcInTurn(start, end, wind, pi);
    CostOfIs(start, end, wind, pi, turnCost, tack);
    WeightedBetween(t, tack, d, tack * d);
    BoundCost(turnCost, Square(Weighted(t, tack)), Larger(Square(d), Square(tack * d)));
  }

  lemma WeightedBetween(t: Turn, tack: real, d: real, all: real)
    requires 0.0 <= t.InZone() <= t.size && (t.size == d || t.size == -d) && all == tack * d
    ensures 0.0 <= Square(Weighted(t, tack)) <= Larger(Square(d), Square(all))
  {
    var most := if t.size == d then all else -all;
    AllInZone(t, tack, most);
    hide *;
    MirrorSquare(t.size, d);
    MirrorSquare(most, all);
    SquareBetween(Weighted(t, tack), t.size, most);
  }

  /** The weighted angle lies between the turn and the turn counted tack times. */
  lemma AllInZone(t: Turn, tack: real, most: real)
    requires 0.0 <= t.InZone() <= t.size && most == tack * t.size
    ensures t.size <= Weighted(t, tack) <= most || most <= Weighted(t, tack) <= t.size
  {
    Scaled(tack - 1.0, t.InZone(), t.size);
    assert most == t.size + (tack - 1.0) * t.size;
  }

  lemma MirrorSquare(a: real, b: real)
    requires a == b || a == -b
    ensures Square(a) == Square(b)
  {
  }

  lemma Scaled(k: real, z: real, size: real)
    requires 0.0 <= z <= size
    ensures k >= 0.0 ==> 0.0 <= k * z <= k * size
    ensures k <= 0.0 ==> k * size <= k * z <= 0.0
  {
    if k >= 0.0 {
      MulUp(z, size, k);
    } else {
      MulUp(z, size, -k);
    }
  }

  lemma MulUp(a: real, b: real, k: real)
    requires 0.0 <= a <= b && k >= 0.0
    ensures 0.0 <= a * k <= b * k
  {
  }

  lemma SquareBetween(w: real, a: real, b: real)
    requires a <= w <= b || b <= w <= a
    ensures 0.0 <= Square(w) <= Larger(Square(a), Square(b))
  {
  }

  lemma BoundCost(k: real, a: real, b: real)
    requires k >= 0.0 && 0.0 <= a <= b
    ensures 0.0 <= k * a <= k * b
  {
    MulUp(a, b, k);
  }
}
