/**
 The cost of a turn (control/line_plan.cc: TurnCost, control/util.cc: norm_angle) over the reals, with
 pi any positive number. The branchy closed form is shown to measure exactly the part of the swept arc
 that lies within 45 degrees of straight upwind.
 */
module TurnCost {

  /** C++ conversion of a double to int: toward zero. */
  function Trunc(x: real): int {
    if x >= 0.0 then x.Floor else -((-x).Floor)
  }

  /** util::norm_angle. */
  function NormAngle(a: real, pi: real): real
    requires pi > 0.0
  {
    var tau := 2.0 * pi;
    if a > pi then a - Trunc(a / tau + 0.5) as real * tau
    else if a < -pi then a - Trunc(a / tau - 0.5) as real * tau
    else a
  }

  /** Two angles that differ by whole turns. */
  ghost predicate Congruent(a: real, b: real, pi: real) {
    exists k: int :: Turns(a, b, k, pi)
  }

  predicate Turns(a: real, b: real, k: int, pi: real) {
    a == b + k as real * (2.0 * pi)
  }

  lemma ScaleBounds(t: real, k: int, tau: real)
    requires tau > 0.0
    ensures -0.5 <= t - k as real <= 0.5 ==> -0.5 * tau <= t * tau - k as real * tau <= 0.5 * tau
  {
    var u := t - k as real;
    assert t * tau - k as real * tau == u * tau;
    if -0.5 <= u <= 0.5 {
      MulLe(-0.5, u, tau);
      MulLe(u, 0.5, tau);
    }
  }

  lemma MulLe(a: real, b: real, tau: real)
    requires a <= b && tau > 0.0
    ensures a * tau <= b * tau
  {
  }

  /** Normalizing an angle changes it by whole turns and lands between -pi and pi, both included. */
  lemma NormAngleExact(a: real, pi: real)
    requires pi > 0.0
    ensures -pi <= NormAngle(a, pi) <= pi
    ensures Congruent(a, NormAngle(a, pi), pi)
  {
    var k := WholeTurns(a, pi);
    assert Turns(a, NormAngle(a, pi), k, pi);
  }

  lemma WholeTurns(a: real, pi: real) returns (k: int)
    requires pi > 0.0
    ensures NormAngle(a, pi) == a - k as real * (2.0 * pi)
    ensures -pi <= NormAngle(a, pi) <= pi
  {
    k := 0;
    if a > pi {
      k := Above(a, pi);
    } else if a < -pi {
      k := Below(a, pi);
    }
  }

  lemma Above(a: real, pi: real) returns (k: int)
    requires pi > 0.0 && a > pi
    ensures NormAngle(a, pi) == a - k as real * (2.0 * pi) && -pi <= a - k as real * (2.0 * pi) <= pi
  {
    var t := a / (2.0 * pi);
    k := Trunc(t + 0.5);
    assert NormAngle(a, pi) == a - k as real * (2.0 * pi);
    Quotient(a, 2.0 * pi);
    hide *;
    PositiveQuotient(t, 2.0 * pi, pi);
    Reduced(a, t, k, pi);
  }

  lemma Below(a: real, pi: real) returns (k: int)
    requires pi > 0.0 && a < -pi
    ensures NormAngle(a, pi) == a - k as real * (2.0 * pi) && -pi <= a - k as real * (2.0 * pi) <= pi
  {
    var t := a / (2.0 * pi);
    k := Trunc(t - 0.5);
    assert NormAngle(a, pi) == a - k as real * (2.0 * pi);
    Quotient(a, 2.0 * pi);
    hide *;
    NegativeQuotient(t, 2.0 * pi, pi);
    Reduced(a, t, k, pi);
  }

  lemma Reduced(a: real, t: real, k: int, pi: real)
    requires pi > 0.0 && t * (2.0 * pi) == a && -0.5 <= t - k as real <= 0.5
    ensures -pi <= a - k as real * (2.0 * pi) <= pi
  {
    ScaleBounds(t, k, 2.0 * pi);
  }

  lemma Quotient(a: real, tau: real)
    requires tau > 0.0
    ensures (a / tau) * tau == a
  {
  }

  lemma PositiveQuotient(t: real, tau: real, pi: real)
    requires tau == 2.0 * pi > 0.0 && t * tau > pi
    ensures t > 0.5 && -0.5 <= t - Trunc(t + 0.5) as real <= 0.5
  {
    if t <= 0.5 {
      MulLe(t, 0.5, tau);
    }
  }

  lemma NegativeQuotient(t: real, tau: real, pi: real)
    requires tau == 2.0 * pi > 0.0 && t * tau < -pi
    ensures t < -0.5 && -0.5 <= t - Trunc(t - 0.5) as real <= 0.5
  {
    if t >= -0.5 {
      MulLe(-0.5, t, tau);
    }
  }

  // ---------------------------------------------------------------- the turn, normalized

  /** A turn of `size` radians to one side (`sign`), and the two edges of the no-go zone seen from the
      starting heading in the direction of the turn. */
  datatype Turn = Turn(sign: real, size: real, near: real, far: real)
  {
    predicate Misses() {
      (far < 0.0 && near < 0.0) || near > size
    }
    predicate ClipsStart() {
      near < 0.0
    }
    predicate ClipsEnd() {
      far > size || far < 0.0
    }
    /** Where, in radians turned, the zone is entered and left. */
    function Enters(): real {
      if ClipsStart() then 0.0 else near
    }
    function Leaves(): real {
      if ClipsEnd() then size else far
    }
    function InZone(): real {
      if Misses() then 0.0 else Leaves() - Enters()
    }
  }

  /** The opening of LinePlan::TurnCost: normalize and mirror. */
  function Normalize(start: real, end: real, wind: real, pi: real): Turn
    requires pi > 0.0
  {
    var plusAbs := NormAngle(pi + wind + pi / 4.0, pi);
    var negAbs := NormAngle(pi + wind - pi / 4.0, pi);
    var turn := NormAngle(end - start, pi);
    var plus := NormAngle(plusAbs - start, pi);
    var neg := NormAngle(negAbs - start, pi);
    if turn < 0.0 then Turn(-1.0, -turn, -plus, -neg) else Turn(1.0, turn, neg, plus)
  }

  /** The direction the boat must not sail: within 45 degrees of straight into the wind. */
  ghost predicate NoGo(heading: real, wind: real, pi: real) {
    exists k: int :: Within(heading, wind, k, pi)
  }

  predicate Within(heading: real, wind: real, k: int, pi: real) {
    -pi / 4.0 <= heading - (wind + pi) - k as real * (2.0 * pi) <= pi / 4.0
  }

  /** Both edges are where the zone says they are, up to whole turns, and 90 degrees apart. */
  ghost predicate Edges(t: Turn, start: real, wind: real, pi: real) {
    && -pi <= t.near <= pi && -pi <= t.far <= pi && 0.0 <= t.size <= pi
    && (t.sign == 1.0 || t.sign == -1.0)
    && (t.sign == 1.0 ==> Congruent(t.near + start, pi + wind - pi / 4.0, pi)
                          && Congruent(t.far + start, pi + wind + pi / 4.0, pi))
    && (t.sign == -1.0 ==> Congruent(-t.near + start, pi + wind + pi / 4.0, pi)
                           && Congruent(-t.far + start, pi + wind - pi / 4.0, pi))
  }

  lemma CongruentSum(a: real, b: real, c: real, d: real, pi: real)
    requires Congruent(a, b, pi) && Congruent(b - d, c, pi)
    ensures Congruent(c + d, a, pi)
  {
    var k: int :| Turns(a, b, k, pi);
    var m: int :| Turns(b - d, c, m, pi);
    AddTurns(-k, -m, pi);
    NegTurns(k, pi);
    NegTurns(m, pi);
    assert Turns(c + d, a, -k + -m, pi);
  }

  lemma AddTurns(k: int, m: int, pi: real)
    ensures (k + m) as real * (2.0 * pi) == k as real * (2.0 * pi) + m as real * (2.0 * pi)
  {
    assert (k + m) as real == k as real + m as real;
  }

  lemma SubTurns(k: int, m: int, pi: real)
    ensures (k - m) as real * (2.0 * pi) == k as real * (2.0 * pi) - m as real * (2.0 * pi)
  {
    assert (k - m) as real == k as real - m as real;
  }

  lemma NegTurns(k: int, pi: real)
    ensures (-k) as real * (2.0 * pi) == -(k as real * (2.0 * pi))
  {
    assert (-k) as real == -(k as real);
  }

  lemma NormalizeExact(start: real, end: real, wind: real, pi: real)
    requires pi > 0.0
    ensures Edges(Normalize(start, end, wind, pi), start, wind, pi)
    ensures var t := Normalize(start, end, wind, pi); Congruent(end, start + t.sign * t.size, pi)
  {
    EdgeExact(start, pi + wind + pi / 4.0, pi);
    EdgeExact(start, pi + wind - pi / 4.0, pi);
    EndExact(start, end, pi);
    hide NormAngle, Congruent;
  }

  lemma EdgeExact(start: real, edge: real, pi: real)
    requires pi > 0.0
    ensures var e := NormAngle(NormAngle(edge, pi) - start, pi);
            -pi <= e <= pi && Congruent(e + start, edge, pi)
  {
    NormAngleExact(edge, pi);
    NormAngleExact(NormAngle(edge, pi) - start, pi);
    hide *;
    CongruentSum(edge, NormAngle(edge, pi), NormAngle(NormAngle(edge, pi) - start, pi), start, pi);
  }

  lemma EndExact(start: real, end: real, pi: real)
    requires pi > 0.0
    ensures -pi <= NormAngle(end - start, pi) <= pi
    ensures Congruent(end, start + NormAngle(end - start, pi), pi)
  {
    NormAngleExact(end - start, pi);
    hide NormAngle;
    var k: int :| Turns(end - start, NormAngle(end - start, pi), k, pi);
    assert Turns(end, start + NormAngle(end - start, pi), k, pi);
  }

  // ---------------------------------------------------------------- the zone

  lemma ManyTurns(j: int, pi: real)
    requires pi > 0.0
    ensures j >= 1 ==> j as real * (2.0 * pi) >= 2.0 * pi
    ensures j <= -1 ==> j as real * (2.0 * pi) <= -2.0 * pi
    ensures j <= -2 ==> j as real * (2.0 * pi) <= -4.0 * pi
    ensures j == 0 ==> j as real * (2.0 * pi) == 0.0
    ensures j == -1 ==> j as real * (2.0 * pi) == -2.0 * pi
  {
    if j >= 1 {
      MulLe(1.0, j as real, 2.0 * pi);
    }
    if j <= -1 {
      MulLe(j as real, -1.0, 2.0 * pi);
    }
    if j <= -2 {
      MulLe(j as real, -2.0, 2.0 * pi);
    }
  }

  /** Seen from any heading, the far edge is 90 degrees beyond the near one or wrapped round behind it. */
  lemma EdgesApart(t: Turn, start: real, wind: real, pi: real)
    requires pi > 0.0 && Edges(t, start, wind, pi)
    ensures t.far == t.near + pi / 2.0 || t.far == t.near - 3.0 * pi / 2.0
  {
    var lo, hi := pi + wind - pi / 4.0, pi + wind + pi / 4.0;
    if t.sign == 1.0 {
      var k: int :| Turns(t.near + start, lo, k, pi);
      var m: int :| Turns(t.far + start, hi, m, pi);
      Apart(t.near, t.far, k, m, pi);
    } else {
      var k: int :| Turns(-t.near + start, hi, k, pi);
      var m: int :| Turns(-t.far + start, lo, m, pi);
      Apart(t.near, t.far, m, k, pi);
    }
  }

  lemma Apart(near: real, far: real, k: int, m: int, pi: real)
    requires pi > 0.0 && -pi <= near <= pi && -pi <= far <= pi
    requires far - near == pi / 2.0 + m as real * (2.0 * pi) - k as real * (2.0 * pi)
    ensures far == near + pi / 2.0 || far == near - 3.0 * pi / 2.0
  {
    SubTurns(m, k, pi);
    ManyTurns(m - k, pi);
    ApartBy(near, far, (m - k) as real * (2.0 * pi), m - k, pi);
  }

  lemma ApartBy(near: real, far: real, y: real, j: int, pi: real)
    requires pi > 0.0 && -pi <= near <= pi && -pi <= far <= pi && far - near == pi / 2.0 + y
    requires (j >= 1 ==> y >= 2.0 * pi) && (j <= -2 ==> y <= -4.0 * pi)
    requires (j == 0 ==> y == 0.0) && (j == -1 ==> y == -2.0 * pi)
    ensures far == near + pi / 2.0 || far == near - 3.0 * pi / 2.0
  {
  }

  /** A heading part-way through the turn is in the no-go zone exactly between the near edge and 90
      degrees past it: copies of the zone a whole turn away are out of reach. */
  lemma ZoneAhead(t: Turn, start: real, wind: real, pi: real, x: real)
    requires pi > 0.0 && Edges(t, start, wind, pi) && 0.0 < x < t.size
    ensures NoGo(start + t.sign * x, wind, pi) <==> t.near <= x <= t.near + pi / 2.0
  {
    var h := start + t.sign * x;
    if t.sign == 1.0 {
      var k: int :| Turns(t.near + start, pi + wind - pi / 4.0, k, pi);
      assert forall j: int {:trigger Within(h, wind, j, pi)} :: Within(h, wind, j, pi) <==>
        -pi / 4.0 <= x - t.near - pi / 4.0 + k as real * (2.0 * pi) - j as real * (2.0 * pi) <= pi / 4.0;
      if t.near <= x <= t.near + pi / 2.0 {
        assert Within(h, wind, k, pi);
      }
      if j: int :| Within(h, wind, j, pi) {
        Reach(x, t.near, j, k, pi);
      }
    } else {
      assert h == start - x;
      var k: int :| Turns(-t.near + start, pi + wind + pi / 4.0, k, pi);
      assert forall j: int {:trigger Within(h, wind, j, pi)} :: Within(h, wind, j, pi) <==>
        -pi / 4.0 <= t.near - x + pi / 4.0 + k as real * (2.0 * pi) - j as real * (2.0 * pi) <= pi / 4.0;
      if t.near <= x <= t.near + pi / 2.0 {
        assert Within(h, wind, k, pi);
      }
      if j: int :| Within(h, wind, j, pi) {
        Reach(x, t.near, k, j, pi);
      }
    }
  }

  lemma Reach(x: real, near: real, j: int, k: int, pi: real)
    requires pi > 0.0 && 0.0 < x < pi && -pi <= near <= pi
    requires near <= x - (j as real * (2.0 * pi) - k as real * (2.0 * pi)) <= near + pi / 2.0
    ensures j == k
  {
    SubTurns(j, k, pi);
    ManyTurns(j - k, pi);
    OutOfReach(x, near, (j - k) as real * (2.0 * pi), j - k, pi);
  }

  lemma OutOfReach(x: real, near: real, y: real, i: int, pi: real)
    requires pi > 0.0 && 0.0 < x < pi && -pi <= near <= pi && near <= x - y <= near + pi / 2.0
    requires (i >= 1 ==> y >= 2.0 * pi) && (i <= -1 ==> y <= -2.0 * pi)
    ensures i == 0
  {
  }

  /** The arc between Enters and Leaves is exactly the part of the turn inside the no-go zone. */
  lemma SweptZone(start: real, end: real, wind: real, pi: real, x: real)
    requires pi > 0.0
    requires 0.0 < x < Normalize(start, end, wind, pi).size
    ensures var t := Normalize(start, end, wind, pi);
            NoGo(start + t.sign * x, wind, pi) <==> !t.Misses() && t.Enters() <= x <= t.Leaves()
  {
    NormalizeExact(start, end, wind, pi);
    var t := Normalize(start, end, wind, pi);
    hide *;
    EdgesApart(t, start, wind, pi);
    ZoneAhead(t, start, wind, pi, x);
    ArcIs(t, start, wind, pi, x);
  }

  lemma ArcIs(t: Turn, start: real, wind: real, pi: real, x: real)
    requires pi > 0.0 && Edges(t, start, wind, pi) && 0.0 < x < t.size
    requires t.far == t.near + pi / 2.0 || t.far == t.near - 3.0 * pi / 2.0
    ensures t.near <= x <= t.near + pi / 2.0 <==> !t.Misses() && t.Enters() <= x <= t.Leaves()
  {
  }

  /** It is an arc of the turn: entered before it is left, and both within the turn. */
  lemma ArcInTurn(start: real, end: real, wind: real, pi: real)
    requires pi > 0.0
    ensures var t := Normalize(start, end, wind, pi);
      && 0.0 <= t.size <= pi && 0.0 <= t.InZone() <= t.size
      && (!t.Misses() ==> 0.0 <= t.Enters() <= t.Leaves() <= t.size)
  {
    NormalizeExact(start, end, wind, pi);
    var t := Normalize(start, end, wind, pi);
    EdgesApart(t, start, wind, pi);
    hide Normalize, NormAngle, Congruent;
  }

  // ---------------------------------------------------------------- the cost

  function Square(x: real): real {
    x * x
  }

  /** Radians turned, those in the no-go zone counted `tack` times. */
  function Weighted(t: Turn, tack: real): real {
    t.size + (tack - 1.0) * t.InZone()
  }

  /** How fast the weighted angle grows at the two ends of the turn. */
  function StartRate(t: Turn, tack: real): real {
    if !t.Misses() && t.ClipsStart() then tack else 1.0
  }

  function EndRate(t: Turn, tack: real): real {
    if !t.Misses() && t.ClipsEnd() then tack else 1.0
  }

  /** The slope of k * w^2 where w moves at the given rate to the given side. */
  function Slope(k: real, sign: real, rate: real, w: real): real {
    2.0 * k * sign * rate * w
  }

  /** The derivatives TurnCost reports. */
  function StartSlope(t: Turn, turnCost: real, tack: real): real {
    Slope(turnCost, -t.sign, StartRate(t, tack), Weighted(t, tack))
  }

  function EndSlope(t: Turn, turnCost: real, tack: real): real {
    Slope(turnCost, t.sign, EndRate(t, tack), Weighted(t, tack))
  }

  // ---------------------------------------------------------------- the cost, said of headings alone

  /** The turn from one heading to another by the shorter way; for exactly half a circle, the way
      norm_angle picks. */
  ghost predicate IsTurn(turn: real, start: real, end: real, pi: real)
    requires pi > 0.0
  {
    && Congruent(end, start + turn, pi) && -pi <= turn <= pi
    && (turn == pi || turn == -pi ==> turn == NormAngle(end - start, pi))
  }

  function Size(turn: real): real {
    if turn < 0.0 then -turn else turn
  }

  /** The heading `x` radians into the turn. */
  function HeadingAt(start: real, turn: real, x: real): real {
    if turn < 0.0 then start + -1.0 * x else start + 1.0 * x
  }

  /** The headings swept within 45 degrees of straight upwind are exactly those from lo to hi radians into
      the turn. */
  ghost predicate SweptArc(start: real, turn: real, wind: real, pi: real, lo: real, hi: real) {
    && 0.0 <= lo <= hi <= Size(turn)
    && forall x: real :: 0.0 < x < Size(turn) ==> ArcAt(start, turn, wind, pi, lo, hi, x)
  }

  ghost predicate ArcAt(start: real, turn: real, wind: real, pi: real, lo: real, hi: real, x: real) {
    NoGo(HeadingAt(start, turn, x), wind, pi) <==> lo <= x <= hi
  }

  /** The normalized turn is the turn. */
  lemma TurnIs(turn: real, start: real, end: real, wind: real, pi: real)
    requires pi > 0.0 && IsTurn(turn, start, end, pi)
    ensures var t := Normalize(start, end, wind, pi);
      t.size == Size(turn) && t.sign == if turn < 0.0 then -1.0 else 1.0
  {
    var n := NormAngle(end - start, pi);
    if -pi < turn < pi {
      EndExact(start, end, pi);
      SameResidue(turn, n, start, end, pi);
    }
    hide NormAngle, Congruent;
  }

  lemma SameResidue(turn: real, n: real, start: real, end: real, pi: real)
    requires pi > 0.0 && -pi < turn < pi && -pi <= n <= pi
    requires Congruent(end, start + turn, pi) && Congruent(end, start + n, pi)
    ensures n == turn
  {
    var k: int :| Turns(end, start + turn, k, pi);
    var m: int :| Turns(end, start + n, m, pi);
    SubTurns(k, m, pi);
    SameTurn(turn, n, k - m, pi);
  }

  lemma SameTurn(r: real, s: real, j: int, pi: real)
    requires pi > 0.0 && -pi < r < pi && -pi <= s <= pi && s == r + j as real * (2.0 * pi)
    ensures s == r
  {
    ManyTurns(j, pi);
  }

  /** Two arcs of a turn with the same inner points are equally long. */
  lemma SameLength(size: real, lo: real, hi: real, a: real, b: real)
    requires 0.0 <= lo <= hi <= size && 0.0 <= a <= b <= size
    requires forall x: real :: 0.0 < x < size ==> Alike(x, lo, hi, a, b)
    ensures hi - lo == b - a
  {
    if lo < hi {
      Contained(size, lo, hi, a, b);
    }
    if a < b {
      forall x: real | 0.0 < x < size
        ensures Alike(x, a, b, lo, hi)
      {
        assert Alike(x, lo, hi, a, b);
      }
      Contained(size, a, b, lo, hi);
    }
  }

  predicate Alike(x: real, lo: real, hi: real, a: real, b: real) {
    lo <= x <= hi <==> a <= x <= b
  }

  lemma Contained(size: real, lo: real, hi: real, a: real, b: real)
    requires 0.0 <= lo < hi <= size && 0.0 <= a <= b <= size
    requires forall x: real :: 0.0 < x < size ==> Alike(x, lo, hi, a, b)
    ensures a <= lo && hi <= b
  {
    if lo < a {
      var x := if a < hi then (lo + a) / 2.0 else (lo + hi) / 2.0;
      assert Alike(x, lo, hi, a, b);
    }
    if b < hi {
      var x := if lo < b then (b + hi) / 2.0 else (lo + hi) / 2.0;
      assert Alike(x, lo, hi, a, b);
    }
  }

  /** Where the code enters and leaves the zone, an empty arc if it misses it. */
  function Entry(t: Turn): real {
    if t.Misses() then 0.0 else t.Enters()
  }

  function Exit(t: Turn): real {
    if t.Misses() then 0.0 else t.Leaves()
  }

  lemma EntryExit(t: Turn, x: real)
    ensures Exit(t) - Entry(t) == t.InZone()
    ensures 0.0 < x ==> (Entry(t) <= x <= Exit(t) <==> !t.Misses() && t.Enters() <= x <= t.Leaves())
  {
  }

  /** For every turn there is such an arc: the one the code charges for. */
  lemma ArcExists(turn: real, start: real, end: real, wind: real, pi: real) returns (lo: real, hi: real)
    requires pi > 0.0 && IsTurn(turn, start, end, pi)
    ensures SweptArc(start, turn, wind, pi, lo, hi) && hi - lo == Normalize(start, end, wind, pi).InZone()
  {
    var t := Normalize(start, end, wind, pi);
    TurnIs(turn, start, end, wind, pi);
    ArcInTurn(start, end, wind, pi);
    EntryExit(t, 0.0);
    lo, hi := Entry(t), Exit(t);
    forall x: real | 0.0 < x < Size(turn)
      ensures ArcAt(start, turn, wind, pi, lo, hi, x)
    {
      SweptZone(start, end, wind, pi, x);
      EntryExit(t, x);
    }
    hide Normalize, NoGo, NormAngle, Congruent;
  }

  /** The length of that arc is what the code charges for. */
  lemma ArcLength(turn: real, start: real, end: real, wind: real, pi: real, lo: real, hi: real)
    requires pi > 0.0 && IsTurn(turn, start, end, pi) && SweptArc(start, turn, wind, pi, lo, hi)
    ensures var t := Normalize(start, end, wind, pi); t.size == Size(turn) && t.InZone() == hi - lo
  {
    hide IsTurn, Normalize, NoGo;
    TurnIs(turn, start, end, wind, pi);
    var a, b := ArcExists(turn, start, end, wind, pi);
    forall x: real | 0.0 < x < Size(turn)
      ensures Alike(x, lo, hi, a, b)
    {
      assert ArcAt(start, turn, wind, pi, lo, hi, x) && ArcAt(start, turn, wind, pi, a, b, x);
    }
    SameLength(Size(turn), lo, hi, a, b);
  }

  /** The price of turning `size` radians of which `arc` lie in the no-go zone. */
  function ArcPrice(turnCost: real, tackCost: real, size: real, arc: real): real {
    turnCost * Square(size + (tackCost - 1.0) * arc)
  }

  lemma PriceIsArc(turn: real, start: real, end: real, wind: real, pi: real, turnCost: real, tackCost: real, lo: real, hi: real)
    requires pi > 0.0 && IsTurn(turn, start, end, pi) && SweptArc(start, turn, wind, pi, lo, hi)
    ensures turnCost * Square(Weighted(Normalize(start, end, wind, pi), tackCost))
         == ArcPrice(turnCost, tackCost, Size(turn), hi - lo)
  {
    hide IsTurn, SweptArc, Normalize;
    ArcLength(turn, start, end, wind, pi, lo, hi);
  }

  /** LinePlan::TurnCost. Whatever the headings and the wind: if the headings swept by the shorter turn that
      lie within 45 degrees of upwind are those from lo to hi radians into it, the cost is the square of the
      turn with that arc counted tackCost times. */
  method TurnCost(start: real, end: real, wind: real, pi: real, turnCost: real, tackCost: real)
    returns (cost: real, dstart: real, dend: real)
    requires pi > 0.0
    ensures forall turn, lo, hi :: IsTurn(turn, start, end, pi) && SweptArc(start, turn, wind, pi, lo, hi) ==>
              cost == ArcPrice(turnCost, tackCost, Size(turn), hi - lo)
    ensures var t := Normalize(start, end, wind, pi);
      && cost == turnCost * Square(Weighted(t, tackCost))
      && dstart == StartSlope(t, turnCost, tackCost)
      && dend == EndSlope(t, turnCost, tackCost)
  {
    hide *;
    var nogosize := pi / 4.0;
    var plusAbs := NormAngle(pi + wind + nogosize, pi);
    var negAbs := NormAngle(pi + wind - nogosize, pi);
    var endNorm := NormAngle(end - start, pi);
    var plusNorm := NormAngle(plusAbs - start, pi);
    var negNorm := NormAngle(negAbs - start, pi);
    var sign := 1.0;
    if endNorm < 0.0 {
      endNorm := -endNorm;
      plusNorm := -plusNorm;
      negNorm := -negNorm;
      sign := -1.0;
      plusNorm, negNorm := negNorm, plusNorm;
    }
    NormalizeIs(start, end, wind, pi);
    cost, dstart, dend := PriceTurn(sign, endNorm, negNorm, plusNorm, turnCost, tackCost);
    forall turn, lo, hi | IsTurn(turn, start, end, pi) && SweptArc(start, turn, wind, pi, lo, hi)
      ensures cost == ArcPrice(turnCost, tackCost, Size(turn), hi - lo)
    {
      PriceIsArc(turn, start, end, wind, pi, turnCost, tackCost, lo, hi);
    }
  }

  /** The two branches of TurnCost: a turn that misses the zone, and one that crosses some of it. */
  method PriceTurn(sign: real, endNorm: real, negNorm: real, plusNorm: real, turnCost: real, tackCost: real)
    returns (cost: real, dstart: real, dend: real)
    ensures var t := Turn(sign, endNorm, negNorm, plusNorm);
      && cost == turnCost * Square(Weighted(t, tackCost))
      && dstart == StartSlope(t, turnCost, tackCost)
      && dend == EndSlope(t, turnCost, tackCost)
  {
    hide *;
    ghost var t := Turn(sign, endNorm, negNorm, plusNorm);
    if (plusNorm < 0.0 && negNorm < 0.0) || negNorm > endNorm {
      cost := turnCost * endNorm * endNorm;
      dstart := -2.0 * turnCost * sign * endNorm;
      dend := 2.0 * turnCost * sign * endNorm;
      MissCase(t, turnCost, tackCost);
    } else {
      var clipStart := negNorm < 0.0;
      var startNogo := if clipStart then 0.0 else negNorm;
      var clipEnd := plusNorm > endNorm || plusNorm < 0.0;
      var endNogo := if clipEnd then endNorm else plusNorm;
      var nogoDist := endNogo - startNogo;
      var costBase := endNorm + (tackCost - 1.0) * nogoDist;
      cost := turnCost * costBase * costBase;
      dstart := -2.0 * turnCost * sign * (if clipStart then tackCost else 1.0) * costBase;
      dend := 2.0 * turnCost * sign * (if clipEnd then tackCost else 1.0) * costBase;
      HitCase(t, turnCost, tackCost, nogoDist, costBase);
    }
  }

  lemma NormalizeIs(start: real, end: real, wind: real, pi: real)
    requires pi > 0.0
    ensures var turn := NormAngle(end - start, pi);
      var plus := NormAngle(NormAngle(pi + wind + pi / 4.0, pi) - start, pi);
      var neg := NormAngle(NormAngle(pi + wind - pi / 4.0, pi) - start, pi);
      Normalize(start, end, wind, pi) ==
      if turn < 0.0 then Turn(-1.0, -turn, -plus, -neg) else Turn(1.0, turn, neg, plus)
  {
    hide NormAngle;
  }

  lemma MissCase(t: Turn, k: real, tack: real)
    requires (t.far < 0.0 && t.near < 0.0) || t.near > t.size
    ensures k * t.size * t.size == k * Square(Weighted(t, tack))
    ensures -2.0 * k * t.sign * t.size == StartSlope(t, k, tack)
    ensures 2.0 * k * t.sign * t.size == EndSlope(t, k, tack)
  {
    assert Weighted(t, tack) == t.size && StartRate(t, tack) == 1.0 && EndRate(t, tack) == 1.0;
    SlopesAre(t, k, tack);
    hide Weighted, StartRate, EndRate, StartSlope, EndSlope;
    SlopeIs(k, t.sign, 1.0, t.size);
  }

  lemma HitCase(t: Turn, k: real, tack: real, dist: real, base: real)
    requires !((t.far < 0.0 && t.near < 0.0) || t.near > t.size)
    requires dist == (if t.far > t.size || t.far < 0.0 then t.size else t.far) - (if t.near < 0.0 then 0.0 else t.near)
    requires base == t.size + (tack - 1.0) * dist
    ensures k * base * base == k * Square(Weighted(t, tack))
    ensures -2.0 * k * t.sign * (if t.near < 0.0 then tack else 1.0) * base == StartSlope(t, k, tack)
    ensures 2.0 * k * t.sign * (if t.far > t.size || t.far < 0.0 then tack else 1.0) * base == EndSlope(t, k, tack)
  {
    assert t.InZone() == dist;
    assert StartRate(t, tack) == if t.near < 0.0 then tack else 1.0;
    assert EndRate(t, tack) == if t.far > t.size || t.far < 0.0 then tack else 1.0;
    SlopesAre(t, k, tack);
    assert Weighted(t, tack) == base;
    hide *;
    SlopeIs(k, t.sign, StartRate(t, tack), base);
    SlopeIs(k, t.sign, EndRate(t, tack), base);
  }

  lemma SlopesAre(t: Turn, k: real, tack: real)
    ensures StartSlope(t, k, tack) == Slope(k, -t.sign, StartRate(t, tack), Weighted(t, tack))
    ensures EndSlope(t, k, tack) == Slope(k, t.sign, EndRate(t, tack), Weighted(t, tack))
  {
    hide Slope, Weighted;
  }

  lemma SlopeIs(k: real, sign: real, rate: real, w: real)
    ensures Slope(k, sign, rate, w) == 2.0 * k * sign * rate * w
    ensures Slope(k, -sign, rate, w) == -2.0 * k * sign * rate * w
    ensures k * w * w == k * Square(w)
  {
  }
}
