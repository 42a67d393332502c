/**
 LinePlan::FindMultiplePath (control/line_plan.cc): every hypothesis is optimized, and the cheapest one
 whose flag says viable is kept. Put together with what the list contains and what the optimizer returns,
 that gives what the planner's answer is.
 */
module Search {
  import opened Options
  import opened Hypotheses
  import opened Planner
  import opened Optimizer
  import opened OptimizerResult

  function Halves(n: nat): seq<real> {
    seq(n, _ => 0.5)
  }

  predicate AllFit(pb: Problem, courses: seq<Course>) {
    forall k :: 0 <= k < |courses| ==> Fits(pb, courses[k], Halves(|pb.gates|))
  }

  /** What the optimizer makes of a course, starting from the middle of every gate. */
  function Tried(pb: Problem, course: Course): Plan
    requires Fits(pb, course, Halves(|pb.gates|))
  {
    Optimized(pb, course, Halves(|pb.gates|))
  }

  /** What the loop over the hypotheses has after the first n: the first of the cheapest viable plans, or
      what it started from if none was viable. `lowest` is None while the lowest cost is infinite. */
  predicate Kept(pb: Problem, courses: seq<Course>, n: nat, start: Plan, tacks: Course, alphas: seq<real>,
                 lowest: Option<real>, k: nat)
    requires n <= |courses| && AllFit(pb, courses)
  {
    match lowest
    case None => tacks == start.tacks && alphas == start.alphas && forall j :: 0 <= j < n ==> !Tried(pb, courses[j]).viable
    case Some(cost) =>
      && k < n && Tried(pb, courses[k]) == Plan(tacks, alphas, cost, true)
      && (forall j :: 0 <= j < n && Tried(pb, courses[j]).viable ==> cost <= Tried(pb, courses[j]).cost)
      && (forall j :: 0 <= j < k && Tried(pb, courses[j]).viable ==> cost < Tried(pb, courses[j]).cost)
  }

  /** The loop over the hypotheses. `alphas0` is what the caller's fractions hold before it. */
  method Cheapest(pb: Problem, courses: seq<Course>, alphas0: seq<real>)
    returns (tacks: Course, alphas: seq<real>, lowest: Option<real>, ghost k: nat)
    requires courses != [] && AllFit(pb, courses)
    ensures Kept(pb, courses, |courses|, Plan(courses[0], alphas0, 0.0, true), tacks, alphas, lowest, k)
  {
    hide *;
    tacks, alphas, lowest, k := courses[0], alphas0, None, 0;
    ghost var start := Plan(courses[0], alphas0, 0.0, true);
    KeptStart(pb, courses, start, k);
    for n := 0 to |courses|
      invariant Kept(pb, courses, n, start, tacks, alphas, lowest, k)
    {
      TriedIs(pb, courses, n);
      var o := OptimizeMultipleTacks(pb, courses[n], Halves(|pb.gates|));
      KeptNext(pb, courses, n, start, tacks, alphas, lowest, k, o);
      if o.viable && (lowest.None? || o.cost < lowest.value) {
        tacks, alphas, lowest, k := o.tacks, o.alphas, Some(o.cost), n;
      }
    }
  }

  lemma KeptStart(pb: Problem, courses: seq<Course>, start: Plan, k: nat)
    requires AllFit(pb, courses)
    ensures Kept(pb, courses, 0, start, start.tacks, start.alphas, None, k)
  {
  }

  lemma TriedIs(pb: Problem, courses: seq<Course>, n: nat)
    requires AllFit(pb, courses) && n < |courses|
    ensures Fits(pb, courses[n], Halves(|pb.gates|))
    ensures Tried(pb, courses[n]) == Optimized(pb, courses[n], Halves(|pb.gates|))
  {
    hide Fits, Optimized, Halves;
  }

  lemma KeptNext(pb: Problem, courses: seq<Course>, n: nat, start: Plan, tacks: Course, alphas: seq<real>,
                 lowest: Option<real>, k: nat, o: Plan)
    requires AllFit(pb, courses) && n < |courses| && Kept(pb, courses, n, start, tacks, alphas, lowest, k)
    requires o == Tried(pb, courses[n])
    ensures if o.viable && (lowest.None? || o.cost < lowest.value)
            then Kept(pb, courses, n + 1, start, o.tacks, o.alphas, Some(o.cost), n)
            else Kept(pb, courses, n + 1, start, tacks, alphas, lowest, k)
  {
    hide Tried, Fits, Halves;
  }

  // ---------------------------------------------------------------- the legs of a course

  /** Whether a leg is close to upwind, and where GenerateHypotheses places points between two others. */
  datatype Geometry = Geometry(upwind: (Point, Point) -> bool, place: (Point, Point, nat, nat, nat) -> Point)

  /** Leg i leads from the boat, or the middle of the previous gate, to the middle of its gate. */
  function ShapeOf(geo: Geometry, start: Point, gates: seq<Gate>, i: nat): LegShape
    requires i < |gates|
  {
    var from := if i == 0 then start else Along(gates[i - 1], 0.5);
    var to := Along(gates[i], 0.5);
    LegShape(from, geo.upwind(from, to), (variant: nat, n: nat, k: nat) => geo.place(from, to, variant, n, k))
  }

  function Shapes(geo: Geometry, start: Point, gates: seq<Gate>): (shapes: seq<LegShape>)
    ensures |shapes| == |gates|
  {
    seq(|gates|, i requires 0 <= i < |gates| => ShapeOf(geo, start, gates, i))
  }

  lemma OfferedFits(pb: Problem, shapes: seq<LegShape>, course: Course)
    requires Offered(shapes, course) && |shapes| == |pb.gates|
    ensures Fits(pb, course, Halves(|pb.gates|))
    ensures shapes != [] ==> course[0][0] == shapes[0].start
  {
    var legs := AllCandidates(shapes);
    var c: Choice :| Eligible(shapes, c) && course == Picked(legs, c);
    CandidatesShaped(shapes);
    forall i | 0 <= i < |shapes|
      ensures |course[i]| > 0 && course[i][0] == shapes[i].start
    {
      CandidatesAt(shapes, i);
      LegCandidatesStart(shapes[i], MaxPtsPerLeg(|shapes|));
      assert legs[i][c[i]] == course[i];
    }
    hide AllCandidates, Total, WellShaped, AllShaped, LegCandidates;
  }

  /** FindMultiplePath, for at least one gate. The answer is what the optimizer makes of a course on offer,
      no course on offer is made into a cheaper one, and it starts at the boat, crosses every gate, and
      has a leg for each. That no course is rejected is what the optimizer's flag amounts to. */
  method FindMultiplePath(pb: Problem, geo: Geometry, start: Point, alphas0: seq<real>)
    returns (tacks: Course, alphas: seq<real>, ghost course: Course)
    requires pb.gates != []
    ensures var shapes := Shapes(geo, start, pb.gates);
      && Offered(shapes, course) && Fits(pb, course, Halves(|pb.gates|)) && SameShape(tacks, course)
      && Tried(pb, course).tacks == tacks && Tried(pb, course).alphas == alphas
      && forall other :: Offered(shapes, other) && Fits(pb, other, Halves(|pb.gates|)) ==>
           Tried(pb, course).cost <= Tried(pb, other).cost
    ensures Fits(pb, tacks, alphas) && tacks[0][0] == start
    ensures Crossings(alphas, |alphas|) && Starts(pb.gates, tacks, alphas, |tacks|)
  {
    hide *;
    var shapes := Shapes(geo, start, pb.gates);
    var courses, lens, cs := BuildHypotheses(shapes);
    OnOfferFit(pb, shapes, courses);
    var lowest;
    ghost var k;
    tacks, alphas, lowest, k := Cheapest(pb, courses, alphas0);
    course := Answer(pb, courses, Plan(courses[0], alphas0, 0.0, true), tacks, alphas, lowest, k);
    FirstShape(geo, start, pb.gates);
    OfferedFits(pb, shapes, course);
    TriedKeeps(pb, course);
  }

  lemma FirstShape(geo: Geometry, start: Point, gates: seq<Gate>)
    requires gates != []
    ensures Shapes(geo, start, gates)[0].start == start
  {
    hide Along;
  }

  lemma OnOfferFit(pb: Problem, shapes: seq<LegShape>, courses: seq<Course>)
    requires |shapes| == |pb.gates| && forall course :: course in courses <==> Offered(shapes, course)
    ensures AllFit(pb, courses)
  {
    hide Offered, Halves, Fits;
    forall k | 0 <= k < |courses|
      ensures Fits(pb, courses[k], Halves(|pb.gates|))
    {
      assert courses[k] in courses;
      OfferedFits(pb, shapes, courses[k]);
    }
  }

  lemma TriedKeeps(pb: Problem, course: Course)
    requires Fits(pb, course, Halves(|pb.gates|))
    ensures var r := Tried(pb, course);
      && r.viable && Fits(pb, r.tacks, r.alphas) && SameShape(r.tacks, course)
      && (pb.gates != [] ==> r.tacks[0][0] == course[0][0])
      && Crossings(r.alphas, |r.alphas|) && Starts(pb.gates, r.tacks, r.alphas, |r.tacks|)
  {
    OptimizedKeeps(pb, course, Halves(|pb.gates|));
    hide Optimized, Crossings, Starts, Halves;
  }

  /** Every plan is viable, so one is kept, and it is the cheapest of all. */
  lemma Answer(pb: Problem, courses: seq<Course>, start: Plan, tacks: Course, alphas: seq<real>,
               lowest: Option<real>, k: nat) returns (course: Course)
    requires AllFit(pb, courses) && courses != []
    requires Kept(pb, courses, |courses|, start, tacks, alphas, lowest, k)
    ensures course in courses && Fits(pb, course, Halves(|pb.gates|))
    ensures Tried(pb, course).tacks == tacks && Tried(pb, course).alphas == alphas
    ensures forall other :: other in courses && Fits(pb, other, Halves(|pb.gates|)) ==>
              Tried(pb, course).cost <= Tried(pb, other).cost
  {
    hide Tried, Fits, Halves;
    forall j | 0 <= j < |courses|
      ensures Fits(pb, courses[j], Halves(|pb.gates|)) && Tried(pb, courses[j]).viable
    {
      TriedKeeps(pb, courses[j]);
    }
    assert Tried(pb, courses[0]).viable;
    assert lowest.Some?;
    course := courses[k];
  }
}
