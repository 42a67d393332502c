/**
 The hypotheses of LinePlan::FindMultiplePath (control/line_plan.cc) as the loops that make them:
 generating the candidates of each leg, and building the list of combinations in place. The geometry of
 the candidate points is a function given from outside.
 */
module Planner {
  import opened Hypotheses

  // ---------------------------------------------------------------- candidates of one leg

  /** What GenerateHypotheses computes from: the start, whether the leg is close to upwind, and the
      point it places for a variant (straight, first tack, other tack), count and index. */
  datatype LegShape = LegShape(start: Point, upwind: bool, place: (nat, nat, nat) -> Point)

  function Path(g: LegShape, variant: nat, n: nat, k: nat): (p: Leg)
    ensures |p| == k + 1
    decreases k
  {
    if k == 0 then [g.start] else Path(g, variant, n, k - 1) + [g.place(variant, n, k - 1)]
  }

  /** The candidates with `n` intermediate points. */
  function Candidates(g: LegShape, n: nat): seq<Leg> {
    if n == 0 then [[g.start]]
    else [Path(g, 0, n, n)] + if g.upwind then [Path(g, 1, n, n), Path(g, 2, n, n)] else []
  }

  /** LinePlan::GenerateHypotheses, without clearing the list first. */
  method GenerateHypotheses(g: LegShape, n: nat, paths: seq<Leg>) returns (paths': seq<Leg>)
    ensures paths' == paths + Candidates(g, n)
  {
    if n == 0 {
      return paths + [[g.start]];
    }
    var straight := [g.start];
    for ii := 0 to n
      invariant straight == Path(g, 0, n, ii)
    {
      straight := straight + [g.place(0, n, ii)];
    }
    paths' := paths + [straight];
    if g.upwind {
      var one, other := [g.start], [g.start];
      for ii := 0 to n
        invariant one == Path(g, 1, n, ii) && other == Path(g, 2, n, ii)
      {
        one := one + [g.place(1, n, ii)];
        other := other + [g.place(2, n, ii)];
      }
      paths' := paths' + [one, other];
    }
  }

  /** The candidates with fewer than `most` intermediate points. */
  function LegCandidates(g: LegShape, most: nat): seq<Leg> {
    if most == 0 then [] else LegCandidates(g, most - 1) + Candidates(g, most - 1)
  }

  lemma {:induction false} LegCandidatesShaped(g: LegShape, most: nat)
    requires most > 0
    ensures WellShaped(LegCandidates(g, most), most)
    decreases most
  {
    hide *;
    CandidatesShape(g, most - 1);
    LegCandidatesForm(g, most);
    if most > 1 {
      LegCandidatesShaped(g, most - 1);
      ShapesJoin(LegCandidates(g, most - 1), Candidates(g, most - 1), most);
    }
  }

  lemma LegCandidatesForm(g: LegShape, most: nat)
    requires most > 0
    ensures most == 1 ==> LegCandidates(g, most) == Candidates(g, most - 1)
    ensures LegCandidates(g, most) == LegCandidates(g, most - 1) + Candidates(g, most - 1)
  {
    if most == 1 {
      assert LegCandidates(g, 0) == [];
      assert [] + Candidates(g, 0) == Candidates(g, 0);
    }
    hide Candidates;
  }

  lemma CandidatesShape(g: LegShape, n: nat)
    ensures forall j :: 0 <= j < |Candidates(g, n)| ==> |Candidates(g, n)[j]| == n + 1
    ensures n == 0 ==> WellShaped(Candidates(g, n), 1)
  {
    hide Path;
  }

  lemma ShapesJoin(a: seq<Leg>, b: seq<Leg>, most: nat)
    requires most > 1 && WellShaped(a, most - 1) && forall j :: 0 <= j < |b| ==> |b[j]| == most
    ensures WellShaped(a + b, most)
  {
  }

  /** Every candidate starts where the leg does. */
  predicate AllStartAt(hypos: seq<Leg>, p: Point) {
    forall j :: 0 <= j < |hypos| ==> |hypos[j]| > 0 && hypos[j][0] == p
  }

  lemma {:induction false} PathStarts(g: LegShape, variant: nat, n: nat, k: nat)
    ensures Path(g, variant, n, k)[0] == g.start
    decreases k
  {
    if k != 0 {
      PathStarts(g, variant, n, k - 1);
    }
  }

  lemma CandidatesStart(g: LegShape, n: nat)
    ensures AllStartAt(Candidates(g, n), g.start)
  {
    PathStarts(g, 0, n, n);
    PathStarts(g, 1, n, n);
    PathStarts(g, 2, n, n);
    hide Path;
  }

  lemma {:induction false} LegCandidatesStart(g: LegShape, most: nat)
    ensures AllStartAt(LegCandidates(g, most), g.start)
    decreases most
  {
    if most != 0 {
      LegCandidatesStart(g, most - 1);
      CandidatesStart(g, most - 1);
      hide Candidates;
    }
  }

  method LegHypotheses(g: LegShape, most: nat) returns (hypos: seq<Leg>)
    ensures hypos == LegCandidates(g, most)
  {
    hypos := [];
    for jj := 0 to most
      invariant hypos == LegCandidates(g, jj)
    {
      hypos := GenerateHypotheses(g, jj, hypos);
    }
  }

  // ---------------------------------------------------------------- the list of hypotheses

  /** An entry of the list, and its recorded length, are what the choice `c` stands for. */
  predicate EntryOk(legs: seq<seq<Leg>>, course: Course, len: int, c: Choice) {
    ValidChoice(legs, c) && course == Picked(legs, c) && len == Total(legs, c)
  }

  predicate ListOk(legs: seq<seq<Leg>>, courses: seq<Course>, lens: seq<int>, cs: seq<Choice>) {
    |courses| == |lens| == |cs| && forall k :: 0 <= k < |cs| ==> EntryOk(legs, courses[k], lens[k], cs[k])
  }

  lemma EntryExtends(legs: seq<seq<Leg>>, course: Course, len: int, c: Choice, j: nat)
    requires EntryOk(legs, course, len, c) && |c| < |legs| && j < |legs[|c|]|
    ensures EntryOk(legs, course + [legs[|c|][j]], len + |legs[|c|][j]|, c + [j])
  {
    assert (c + [j])[..|c|] == c;
    assert course + [legs[|c|][j]] == Picked(legs, c + [j]);
  }

  /** Copying all but the last leg gives back the entry as it was before the leg was added. */
  lemma EntryShrinks(legs: seq<seq<Leg>>, course: Course, len: int, c: Choice, j: nat)
    requires EntryOk(legs, course, len, c + [j])
    ensures |course| > 0 && EntryOk(legs, course[..|course| - 1], Total(legs, c), c)
  {
    assert ValidChoice(legs, c) by {
      assert forall i :: 0 <= i < |c| ==> (c + [j])[i] == c[i];
    }
    assert course[..|course| - 1] == Picked(legs, c);
  }

  lemma ListAppend(legs: seq<seq<Leg>>, courses: seq<Course>, lens: seq<int>, cs: seq<Choice>,
                   course: Course, len: int, c: Choice)
    requires ListOk(legs, courses, lens, cs) && EntryOk(legs, course, len, c)
    ensures ListOk(legs, courses + [course], lens + [len], cs + [c])
  {
    hide EntryOk;
  }

  lemma ListUpdate(legs: seq<seq<Leg>>, courses: seq<Course>, lens: seq<int>, cs: seq<Choice>, k: nat,
                   course: Course, len: int, c: Choice)
    requires ListOk(legs, courses, lens, cs) && k < |cs| && EntryOk(legs, course, len, c)
    ensures ListOk(legs, courses[k := course], lens[k := len], cs[k := c])
  {
    hide EntryOk;
  }

  /** All entries of a level are affordable. */
  predicate AllAdmissible(legs: seq<seq<Leg>>, most: nat, i: nat, prev: seq<Choice>) {
    forall k :: 0 <= k < |prev| ==> Admissible(legs, most, i, prev[k])
  }

  /** Row 0 extends every entry. */
  lemma {:induction false} RowZero(legs: seq<seq<Leg>>, most: nat, prev: seq<Choice>, p: nat)
    requires AllShaped(legs, most) && Level(legs, prev) && p <= |prev|
    requires AllAdmissible(legs, most, LevelOf(legs, prev), prev) && |legs[LevelOf(legs, prev)]| > 0
    ensures |Row(legs, most, prev, 0, p)| == p
    ensures forall k :: 0 <= k < p ==> Row(legs, most, prev, 0, p)[k] == prev[k] + [0]
    decreases p
  {
    hide *;
    if p == 0 {
      RowNil(legs, most, prev, 0);
    } else {
      RowZero(legs, most, prev, p - 1);
      RowForm(legs, most, prev, 0, p);
      FirstFits(legs, most, prev, p - 1);
    }
  }

  lemma FirstFits(legs: seq<seq<Leg>>, most: nat, prev: seq<Choice>, k: nat)
    requires AllShaped(legs, most) && Level(legs, prev) && k < |prev|
    requires AllAdmissible(legs, most, LevelOf(legs, prev), prev)
    ensures ValidChoice(legs, prev[k] + [0]) && Affordable(legs, most, prev[k] + [0])
  {
    FirstAlwaysFits(legs, most, prev[k]);
  }

  /** What the list of a level stands for while candidate `j` is being added: for the first candidate the
      entries so far have been extended in place, for a later one copies have been appended. */
  function Partial(legs: seq<seq<Leg>>, most: nat, prev: seq<Choice>, j: nat, p: nat): seq<Choice>
    requires Level(legs, prev) && j < |legs[LevelOf(legs, prev)]| && p <= |prev|
  {
    if j == 0 then Row(legs, most, prev, 0, p) + prev[p..]
    else Rows(legs, most, prev, j) + Row(legs, most, prev, j, p)
  }

  /** A level of the build: what the lemmas below work under. */
  predicate Building(legs: seq<seq<Leg>>, most: nat, prev: seq<Choice>, i: nat) {
    && AllShaped(legs, most) && Level(legs, prev) && LevelOf(legs, prev) == i
    && AllAdmissible(legs, most, i, prev) && |legs[i]| > 0
  }

  lemma BuildingIs(legs: seq<seq<Leg>>, most: nat, prev: seq<Choice>, i: nat)
    requires Building(legs, most, prev, i)
    ensures Level(legs, prev) && LevelOf(legs, prev) == i < |legs| && |legs[i]| > 0 && |prev| > 0
  {
  }

  lemma PartialStart(legs: seq<seq<Leg>>, most: nat, prev: seq<Choice>, i: nat, j: nat)
    requires Building(legs, most, prev, i) && j < |legs[i]|
    ensures Partial(legs, most, prev, j, 0) == if j == 0 then prev else Rows(legs, most, prev, j)
  {
  }

  lemma PartialEnd(legs: seq<seq<Leg>>, most: nat, prev: seq<Choice>, i: nat, j: nat)
    requires Building(legs, most, prev, i) && j < |legs[i]|
    ensures Partial(legs, most, prev, j, |prev|) == Rows(legs, most, prev, j + 1)
  {
    RowsForm(legs, most, prev, j + 1);
  }

  /** Rows begin with row 0: entry k is the k-th old choice with the first candidate added. */
  lemma {:induction false} RowsBegin(legs: seq<seq<Leg>>, most: nat, prev: seq<Choice>, i: nat, j: nat, k: nat)
    requires Building(legs, most, prev, i) && 0 < j <= |legs[i]| && k < |prev|
    ensures k < |Rows(legs, most, prev, j)| && Rows(legs, most, prev, j)[k] == prev[k] + [0]
    decreases j
  {
    hide *;
    BuildingIs(legs, most, prev, i);
    RowsForm(legs, most, prev, j);
    if j == 1 {
      RowsNil(legs, most, prev);
      RowZeroOf(legs, most, prev, i);
    } else {
      RowsBegin(legs, most, prev, i, j - 1, k);
    }
  }

  lemma RowZeroOf(legs: seq<seq<Leg>>, most: nat, prev: seq<Choice>, i: nat)
    requires Building(legs, most, prev, i)
    ensures Level(legs, prev) && LevelOf(legs, prev) == i && |legs[i]| > 0
    ensures |Row(legs, most, prev, 0, |prev|)| == |prev|
    ensures forall k :: 0 <= k < |prev| ==> Row(legs, most, prev, 0, |prev|)[k] == prev[k] + [0]
  {
    RowZero(legs, most, prev, |prev|);
  }

  lemma FitsTest(legs: seq<seq<Leg>>, most: nat, prev: seq<Choice>, i: nat, j: nat, p: nat)
    requires Building(legs, most, prev, i) && j < |legs[i]| && p < |prev|
    ensures ValidChoice(legs, prev[p]) && |prev[p]| == i
    ensures ValidChoice(legs, prev[p] + [j])
    ensures Affordable(legs, most, prev[p] + [j]) <==> Total(legs, prev[p]) + |legs[i][j]| <= most + i
    ensures j == 0 ==> Affordable(legs, most, prev[p] + [j])
  {
    var c := prev[p];
    assert (c + [j])[..|c|] == c;
    if j == 0 {
      FirstAlwaysFits(legs, most, c);
    }
  }

  /** One step of the inner loop for the first candidate: the entry grows in place. */
  lemma StepInPlace(legs: seq<seq<Leg>>, most: nat, prev: seq<Choice>, i: nat, p: nat,
                    courses: seq<Course>, lens: seq<int>)
    requires Building(legs, most, prev, i) && p < |prev|
    requires ListOk(legs, courses, lens, Partial(legs, most, prev, 0, p))
    ensures p < |courses| == |lens| == |Partial(legs, most, prev, 0, p)|
    ensures EntryOk(legs, courses[p], lens[p], prev[p])
    ensures Partial(legs, most, prev, 0, p + 1) == Partial(legs, most, prev, 0, p)[p := prev[p] + [0]]
  {
    RowZero(legs, most, prev, p);
    RowForm(legs, most, prev, 0, p + 1);
    FitsTest(legs, most, prev, i, 0, p);
    var row := Row(legs, most, prev, 0, p);
    hide Row, EntryOk, AllAdmissible, AllShaped, Level, Affordable;
    assert (row + prev[p..])[p] == prev[p];
    assert (row + prev[p..])[p := prev[p] + [0]] == (row + [prev[p] + [0]]) + prev[p + 1..];
  }

  /** One step for a later candidate: a copy without the last leg is the old entry. */
  lemma StepByCopy(legs: seq<seq<Leg>>, most: nat, prev: seq<Choice>, i: nat, j: nat, p: nat,
                   courses: seq<Course>, lens: seq<int>)
    requires Building(legs, most, prev, i) && 0 < j < |legs[i]| && p < |prev|
    requires ListOk(legs, courses, lens, Partial(legs, most, prev, j, p))
    ensures p < |courses| == |lens| && |courses[p]| > 0 && ValidChoice(legs, prev[p])
    ensures EntryOk(legs, courses[p][..|courses[p]| - 1], Total(legs, prev[p]), prev[p])
    ensures ValidChoice(legs, prev[p] + [j])
    ensures Partial(legs, most, prev, j, p + 1) ==
            Partial(legs, most, prev, j, p) + (if Affordable(legs, most, prev[p] + [j]) then [prev[p] + [j]] else [])
  {
    RowsBegin(legs, most, prev, i, j, p);
    RowForm(legs, most, prev, j, p + 1);
    FitsTest(legs, most, prev, i, j, p);
    var cs := Partial(legs, most, prev, j, p);
    assert cs[p] == prev[p] + [0];
    hide *;
    ListEntry(legs, courses, lens, cs, p);
    EntryShrinks(legs, courses[p], lens[p], prev[p], 0);
    PartialForm(legs, most, prev, i, j, p);
  }

  lemma ListEntry(legs: seq<seq<Leg>>, courses: seq<Course>, lens: seq<int>, cs: seq<Choice>, k: nat)
    requires ListOk(legs, courses, lens, cs) && k < |cs|
    ensures |courses| == |lens| == |cs| && EntryOk(legs, courses[k], lens[k], cs[k])
  {
  }

  lemma PartialForm(legs: seq<seq<Leg>>, most: nat, prev: seq<Choice>, i: nat, j: nat, p: nat)
    requires Building(legs, most, prev, i) && 0 < j < |legs[i]| && p < |prev|
    ensures ValidChoice(legs, prev[p] + [j]) && |prev[p] + [j]| > 0
    ensures Partial(legs, most, prev, j, p + 1) ==
            Partial(legs, most, prev, j, p) + (if Affordable(legs, most, prev[p] + [j]) then [prev[p] + [j]] else [])
  {
    RowForm(legs, most, prev, j, p + 1);
    Assoc(Rows(legs, most, prev, j), Row(legs, most, prev, j, p),
          if Affordable(legs, most, prev[p] + [j]) then [prev[p] + [j]] else []);
  }

  lemma Assoc(a: seq<Choice>, b: seq<Choice>, c: seq<Choice>)
    ensures a + (b + c) == (a + b) + c
  {
  }

  /** The body of the leg loop of FindMultiplePath for every leg after the first. */
  method AddLeg(ghost legs: seq<seq<Leg>>, hypos: seq<Leg>, ii: nat, most: nat,
                courses0: seq<Course>, lens0: seq<int>, ghost prev: seq<Choice>)
    returns (courses: seq<Course>, lens: seq<int>)
    requires Building(legs, most, prev, ii) && ii < |legs| && hypos == legs[ii]
    requires ListOk(legs, courses0, lens0, prev)
    ensures ListOk(legs, courses, lens, Rows(legs, most, prev, |hypos|))
  {
    courses, lens := courses0, lens0;
    var nPrev, oldLens := |courses0|, lens0;
    hide *;
    BuildingIs(legs, most, prev, ii);
    OldLengths(legs, courses0, lens0, prev);
    for newhyp := 0 to |hypos|
      invariant ListOk(legs, courses, lens, if newhyp == 0 then prev else Rows(legs, most, prev, newhyp))
    {
      PartialStart(legs, most, prev, ii, newhyp);
      for prevhyp := 0 to nPrev
        invariant ListOk(legs, courses, lens, Partial(legs, most, prev, newhyp, prevhyp))
      {
        FitsTest(legs, most, prev, ii, newhyp, prevhyp);
        courses, lens := AddOne(legs, hypos, ii, most, courses, lens, oldLens, newhyp, prevhyp, prev);
      }
      PartialEnd(legs, most, prev, ii, newhyp);
    }
  }

  lemma OldLengths(legs: seq<seq<Leg>>, courses: seq<Course>, lens: seq<int>, prev: seq<Choice>)
    requires ListOk(legs, courses, lens, prev)
    ensures |courses| == |lens| == |prev|
    ensures forall k :: 0 <= k < |prev| ==> ValidChoice(legs, prev[k]) && lens[k] == Total(legs, prev[k])
  {
  }

  /** The body of the two inner loops: skip what does not fit, extend in place or extend a copy. */
  method AddOne(ghost legs: seq<seq<Leg>>, hypos: seq<Leg>, ii: nat, most: nat, courses0: seq<Course>,
                lens0: seq<int>, oldLens: seq<int>, newhyp: nat, prevhyp: nat, ghost prev: seq<Choice>)
    returns (courses: seq<Course>, lens: seq<int>)
    requires Building(legs, most, prev, ii) && ii < |legs| && hypos == legs[ii] && newhyp < |hypos|
    requires prevhyp < |prev| == |oldLens|
    requires ValidChoice(legs, prev[prevhyp]) && oldLens[prevhyp] == Total(legs, prev[prevhyp])
    requires ListOk(legs, courses0, lens0, Partial(legs, most, prev, newhyp, prevhyp))
    ensures ListOk(legs, courses, lens, Partial(legs, most, prev, newhyp, prevhyp + 1))
  {
    hide *;
    courses, lens := courses0, lens0;
    BuildingIs(legs, most, prev, ii);
    ghost var cs := Partial(legs, most, prev, newhyp, prevhyp);
    assert cs + [] == cs;
    FitsTest(legs, most, prev, ii, newhyp, prevhyp);
    if newhyp == 0 {
      StepInPlace(legs, most, prev, ii, prevhyp, courses, lens);
    } else {
      StepByCopy(legs, most, prev, ii, newhyp, prevhyp, courses, lens);
    }
    var hypothesisPts := |hypos[newhyp]|;
    if oldLens[prevhyp] + hypothesisPts > most + ii {
      return;
    }
    if newhyp > 0 {
      var copy := courses[prevhyp][..|courses[prevhyp]| - 1];
      EntryExtends(legs, copy, oldLens[prevhyp], prev[prevhyp], newhyp);
      ListAppend(legs, courses, lens, cs, copy + [hypos[newhyp]], oldLens[prevhyp] + hypothesisPts, prev[prevhyp] + [newhyp]);
      courses := courses + [copy + [hypos[newhyp]]];
      lens := lens + [oldLens[prevhyp] + hypothesisPts];
    } else {
      EntryExtends(legs, courses[prevhyp], lens[prevhyp], prev[prevhyp], 0);
      ListUpdate(legs, courses, lens, cs, prevhyp, courses[prevhyp] + [hypos[0]], lens[prevhyp] + hypothesisPts,
                 prev[prevhyp] + [0]);
      courses := courses[prevhyp := courses[prevhyp] + [hypos[0]]];
      lens := lens[prevhyp := lens[prevhyp] + hypothesisPts];
    }
  }

  // ---------------------------------------------------------------- all legs

  const MAX_TOTAL_PTS: int := 6

  function MaxPtsPerLeg(nLegs: nat): nat {
    if MAX_TOTAL_PTS + 1 - nLegs > 1 then MAX_TOTAL_PTS + 1 - nLegs else 1
  }

  /** The largest number of points of a whole course: six, or one for each leg if that is more. */
  function Budget(nLegs: nat): nat {
    if nLegs > 6 then nLegs else 6
  }

  /** The candidates of every leg. */
  function AllCandidates(shapes: seq<LegShape>): (legs: seq<seq<Leg>>)
    ensures |legs| == |shapes|
  {
    seq(|shapes|, i requires 0 <= i < |shapes| => LegCandidates(shapes[i], MaxPtsPerLeg(|shapes|)))
  }

  lemma CandidatesShaped(shapes: seq<LegShape>)
    ensures AllShaped(AllCandidates(shapes), MaxPtsPerLeg(|shapes|))
  {
    var most := MaxPtsPerLeg(|shapes|);
    forall i | 0 <= i < |shapes|
      ensures WellShaped(AllCandidates(shapes)[i], most)
    {
      LegCandidatesShaped(shapes[i], most);
    }
  }

  /** One candidate for each leg, within the budget. */
  predicate Eligible(shapes: seq<LegShape>, c: Choice) {
    |c| == |shapes| && ValidChoice(AllCandidates(shapes), c) && Total(AllCandidates(shapes), c) <= Budget(|shapes|)
  }

  /** The per-leg limit of the last leg is the budget of the course. */
  lemma EligibleIsAdmissible(shapes: seq<LegShape>, c: Choice)
    requires shapes != []
    ensures Eligible(shapes, c) <==> Admissible(AllCandidates(shapes), MaxPtsPerLeg(|shapes|), |shapes|, c)
  {
  }

  lemma LevelBuilds(legs: seq<seq<Leg>>, most: nat, i: nat, cs: seq<Choice>)
    requires AllShaped(legs, most) && 0 < i < |legs| && cs != [] && Complete(legs, most, i, cs)
    ensures Building(legs, most, cs, i)
  {
    LevelComplete(legs, most, i, cs);
    assert WellShaped(legs[i], most);
    assert forall k :: 0 <= k < |cs| ==> cs[k] in cs && Admissible(legs, most, i, cs[k]);
  }

  /** The first leg, which starts the list. */
  method StartList(ghost legs: seq<seq<Leg>>, hypos: seq<Leg>) returns (courses: seq<Course>, lens: seq<int>)
    requires legs != [] && hypos == legs[0]
    ensures ListOk(legs, courses, lens, Singles(|hypos|))
  {
    courses, lens := [], [];
    for newhyp := 0 to |hypos|
      invariant ListOk(legs, courses, lens, Singles(newhyp))
    {
      EntryExtends(legs, [], 0, [], newhyp);
      assert [] + [hypos[newhyp]] == [hypos[newhyp]] && [] + [newhyp] == [newhyp];
      ListAppend(legs, courses, lens, Singles(newhyp), [hypos[newhyp]], |hypos[newhyp]|, [newhyp]);
      assert Singles(newhyp) + [[newhyp]] == Singles(newhyp + 1);
      courses := courses + [[hypos[newhyp]]];
      lens := lens + [|hypos[newhyp]|];
    }
  }

  /** The leg loop: every eligible combination, once, with its true number of points. */
  method BuildHypotheses(shapes: seq<LegShape>) returns (courses: seq<Course>, lens: seq<int>, ghost cs: seq<Choice>)
    requires shapes != []
    ensures ListOk(AllCandidates(shapes), courses, lens, cs)
    ensures Distinct(cs) && forall c :: c in cs <==> Eligible(shapes, c)
    ensures courses != [] && forall course :: course in courses <==> Offered(shapes, course)
    ensures |courses| == |lens| && forall k :: 0 <= k < |lens| ==> lens[k] == Points(courses[k])
  {
    hide *;
    var nLegs := |shapes|;
    var most := MaxPtsPerLeg(nLegs);
    ghost var legs := AllCandidates(shapes);
    CandidatesShaped(shapes);
    CandidatesAt(shapes, 0);
    var hypos := LegHypotheses(shapes[0], most);
    FirstComplete(legs, most);
    cs := Singles(|hypos|);
    courses, lens := StartList(legs, hypos);
    for ii := 1 to nLegs
      invariant ListOk(legs, courses, lens, cs) && Complete(legs, most, ii, cs) && cs != []
    {
      CandidatesAt(shapes, ii);
      hypos := LegHypotheses(shapes[ii], most);
      LevelBuilds(legs, most, ii, cs);
      courses, lens := AddLeg(legs, hypos, ii, most, courses, lens, cs);
      LevelComplete(legs, most, ii, cs);
      cs := Rows(legs, most, cs, |hypos|);
    }
    AllEligible(shapes, cs);
    ListedExactly(shapes, courses, lens, cs);
    ListCourses(legs, courses, lens, cs);
  }

  lemma CandidatesAt(shapes: seq<LegShape>, i: nat)
    requires i < |shapes|
    ensures AllCandidates(shapes)[i] == LegCandidates(shapes[i], MaxPtsPerLeg(|shapes|))
  {
  }

  lemma AllEligible(shapes: seq<LegShape>, cs: seq<Choice>)
    requires shapes != [] && Complete(AllCandidates(shapes), MaxPtsPerLeg(|shapes|), |shapes|, cs)
    ensures Distinct(cs) && forall c :: c in cs <==> Eligible(shapes, c)
  {
    hide Eligible, Admissible, AllCandidates, MaxPtsPerLeg;
    forall c: Choice
      ensures c in cs <==> Eligible(shapes, c)
    {
      EligibleIsAdmissible(shapes, c);
    }
  }

  // ---------------------------------------------------------------- the list, without its choices

  /** The number of points of a course. */
  function Points(course: Course): nat {
    if course == [] then 0 else Points(course[..|course| - 1]) + |course[|course| - 1]|
  }

  lemma {:induction false} TotalIsPoints(legs: seq<seq<Leg>>, c: Choice)
    requires ValidChoice(legs, c)
    ensures Total(legs, c) == Points(Picked(legs, c))
    decreases |c|
  {
    if c != [] {
      var front := c[..|c| - 1];
      TotalIsPoints(legs, front);
      assert Picked(legs, c)[..|c| - 1] == Picked(legs, front);
    }
  }

  /** A course made of one candidate for each leg, within the budget. */
  ghost predicate Offered(shapes: seq<LegShape>, course: Course) {
    exists c: Choice :: Eligible(shapes, c) && course == Picked(AllCandidates(shapes), c)
  }

  lemma ListedExactly(shapes: seq<LegShape>, courses: seq<Course>, lens: seq<int>, cs: seq<Choice>)
    requires ListOk(AllCandidates(shapes), courses, lens, cs) && forall c :: c in cs <==> Eligible(shapes, c)
    ensures forall course :: course in courses <==> Offered(shapes, course)
    ensures |courses| == |lens| && forall k :: 0 <= k < |lens| ==> lens[k] == Points(courses[k])
  {
    ListCourses(AllCandidates(shapes), courses, lens, cs);
    hide ListOk, AllCandidates, Eligible, Picked, ValidChoice, Points, Total;
    forall course
      ensures course in courses <==> Offered(shapes, course)
    {
      if course in courses {
        var k :| 0 <= k < |courses| && courses[k] == course;
        assert cs[k] in cs;
      }
      if Offered(shapes, course) {
        var c: Choice :| Eligible(shapes, c) && course == Picked(AllCandidates(shapes), c);
        assert c in cs;
        var k :| 0 <= k < |cs| && cs[k] == c;
        assert courses[k] == course;
      }
    }
    forall k | 0 <= k < |lens|
      ensures lens[k] == Points(courses[k])
    {
      TotalIsPoints(AllCandidates(shapes), cs[k]);
    }
  }

  lemma ListCourses(legs: seq<seq<Leg>>, courses: seq<Course>, lens: seq<int>, cs: seq<Choice>)
    requires ListOk(legs, courses, lens, cs)
    ensures |courses| == |cs| == |lens|
    ensures forall k :: 0 <= k < |cs| ==>
              ValidChoice(legs, cs[k]) && courses[k] == Picked(legs, cs[k]) && lens[k] == Total(legs, cs[k])
  {
  }
}
