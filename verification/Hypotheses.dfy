/**
 The hypothesis builder of the line planner (control/line_plan.cc): for each leg of the course a list of
 candidate point sequences, and out of these every combination, one candidate a leg, whose total number
 of points stays within the budget. The planner builds the list leg by leg, extending entries in place
 for the first candidate and copying all but the last leg for the others.
 */
module Hypotheses {
  datatype Point = Point(x: real, y: real)

  /** The points of one leg, and of one leg after the other. */
  type Leg = seq<Point>
  type Course = seq<Leg>

  /** Which candidate is taken for each leg. */
  type Choice = seq<nat>

  /** Candidates for a leg: the first is a single point, the others have one to `most` points. */
  predicate WellShaped(hypos: seq<Leg>, most: nat) {
    && |hypos| > 0 && |hypos[0]| == 1
    && forall j :: 0 <= j < |hypos| ==> 1 <= |hypos[j]| <= most
  }

  predicate AllShaped(legs: seq<seq<Leg>>, most: nat) {
    forall i :: 0 <= i < |legs| ==> WellShaped(legs[i], most)
  }

  /** A choice for the first legs of a course. */
  predicate ValidChoice(legs: seq<seq<Leg>>, c: Choice) {
    |c| <= |legs| && forall i :: 0 <= i < |c| ==> c[i] < |legs[i]|
  }

  function Picked(legs: seq<seq<Leg>>, c: Choice): Course
    requires ValidChoice(legs, c)
  {
    seq(|c|, i requires 0 <= i < |c| => legs[i][c[i]])
  }

  /** The number of points of a choice. */
  function Total(legs: seq<seq<Leg>>, c: Choice): nat
    requires ValidChoice(legs, c)
  {
    if c == [] then 0
    else Total(legs, c[..|c| - 1]) + |legs[|c| - 1][c[|c| - 1]]|
  }

  /** Within the budget for the number of legs it covers. */
  predicate Affordable(legs: seq<seq<Leg>>, most: nat, c: Choice)
    requires ValidChoice(legs, c) && |c| > 0
  {
    Total(legs, c) <= most + |c| - 1
  }

  // ---------------------------------------------------------------- the specification, leg by leg

  /** All choices of `prev[..p]` extended by candidate `j`, those that stay affordable, in order. */
  function Row(legs: seq<seq<Leg>>, most: nat, prev: seq<Choice>, j: nat, p: nat): seq<Choice>
    requires p <= |prev| && Level(legs, prev) && j < |legs[LevelOf(legs, prev)]|
    decreases p
  {
    if p == 0 then []
    else
      var c := prev[p - 1] + [j];
      assert ValidChoice(legs, c);
      Row(legs, most, prev, j, p - 1) + if Affordable(legs, most, c) then [c] else []
  }

  /** `prev` lists choices that all cover the same, not yet all, legs. */
  predicate Level(legs: seq<seq<Leg>>, prev: seq<Choice>) {
    |prev| > 0 && |prev[0]| < |legs|
    && forall k :: 0 <= k < |prev| ==> |prev[k]| == |prev[0]| && ValidChoice(legs, prev[k])
  }

  function LevelOf(legs: seq<seq<Leg>>, prev: seq<Choice>): nat
    requires Level(legs, prev)
  {
    |prev[0]|
  }

  /** The rows of the first `n` candidates, one after the other. */
  function Rows(legs: seq<seq<Leg>>, most: nat, prev: seq<Choice>, n: nat): seq<Choice>
    requires Level(legs, prev) && n <= |legs[LevelOf(legs, prev)]|
    decreases n
  {
    if n == 0 then [] else Rows(legs, most, prev, n - 1) + Row(legs, most, prev, n - 1, |prev|)
  }

  /** `c` is one of `prevs` with candidate `j` added. */
  predicate Extends(c: Choice, prevs: seq<Choice>, j: nat) {
    |c| > 0 && c[|c| - 1] == j && c[..|c| - 1] in prevs
  }

  lemma ExtendsOne(c: Choice, prev: Choice, j: nat)
    ensures |c| > 0 && c[|c| - 1] == j && c[..|c| - 1] == prev <==> c == prev + [j]
  {
    if c != [] {
      assert c == c[..|c| - 1] + [c[|c| - 1]];
    }
    assert (prev + [j])[..|prev|] == prev;
  }

  lemma ExtendsStep(c: Choice, prev: seq<Choice>, j: nat, p: nat)
    requires 0 < p <= |prev|
    ensures Extends(c, prev[..p], j) <==> Extends(c, prev[..p - 1], j) || c == prev[p - 1] + [j]
  {
    ExtendsOne(c, prev[p - 1], j);
    InPrefix(prev, p);
  }

  lemma InPrefix(prev: seq<Choice>, p: nat)
    requires 0 < p <= |prev|
    ensures forall x :: x in prev[..p] <==> x in prev[..p - 1] || x == prev[p - 1]
  {
    assert prev[..p] == prev[..p - 1] + [prev[p - 1]];
  }

  lemma {:induction false} RowMembers(legs: seq<seq<Leg>>, most: nat, prev: seq<Choice>, j: nat, p: nat, c: Choice)
    requires p <= |prev| && Level(legs, prev) && j < |legs[LevelOf(legs, prev)]|
    ensures c in Row(legs, most, prev, j, p) <==>
            Extends(c, prev[..p], j) && ValidChoice(legs, c) && Affordable(legs, most, c)
    decreases p
  {
    if p != 0 {
      RowMembers(legs, most, prev, j, p - 1, c);
      RowForm(legs, most, prev, j, p);
      hide *;
      ExtendsStep(c, prev, j, p);
    }
  }

  lemma RowForm(legs: seq<seq<Leg>>, most: nat, prev: seq<Choice>, j: nat, p: nat)
    requires 0 < p <= |prev| && Level(legs, prev) && j < |legs[LevelOf(legs, prev)]|
    ensures var c := prev[p - 1] + [j];
      && ValidChoice(legs, c) && |c| > 0
      && Row(legs, most, prev, j, p) ==
         Row(legs, most, prev, j, p - 1) + if Affordable(legs, most, c) then [c] else []
  {
  }

  lemma {:induction false} RowsMembers(legs: seq<seq<Leg>>, most: nat, prev: seq<Choice>, n: nat, c: Choice)
    requires Level(legs, prev) && n <= |legs[LevelOf(legs, prev)]|
    ensures c in Rows(legs, most, prev, n) <==>
            |c| > 0 && c[|c| - 1] < n && c[..|c| - 1] in prev && ValidChoice(legs, c) && Affordable(legs, most, c)
    decreases n
  {
    hide *;
    if n == 0 {
      RowsNil(legs, most, prev);
    } else {
      RowsForm(legs, most, prev, n);
      RowsMembers(legs, most, prev, n - 1, c);
      RowMembers(legs, most, prev, n - 1, |prev|, c);
      ExtendsWhole(c, prev, n - 1);
    }
  }

  lemma ExtendsWhole(c: Choice, prev: seq<Choice>, j: nat)
    ensures Extends(c, prev[..|prev|], j) <==> |c| > 0 && c[|c| - 1] == j && c[..|c| - 1] in prev
  {
    assert prev[..|prev|] == prev;
  }

  predicate Distinct(cs: seq<Choice>) {
    forall a, b :: 0 <= a < b < |cs| ==> cs[a] != cs[b]
  }

  lemma {:induction false} RowDistinct(legs: seq<seq<Leg>>, most: nat, prev: seq<Choice>, j: nat, p: nat)
    requires p <= |prev| && Level(legs, prev) && j < |legs[LevelOf(legs, prev)]| && Distinct(prev)
    ensures Distinct(Row(legs, most, prev, j, p))
    decreases p
  {
    hide *;
    if p == 0 {
      RowNil(legs, most, prev, j);
    } else {
      RowForm(legs, most, prev, j, p);
      RowNew(legs, most, prev, j, p);
      RowDistinct(legs, most, prev, j, p - 1);
      DistinctAppend(Row(legs, most, prev, j, p - 1), prev[p - 1] + [j]);
    }
  }

  lemma RowNil(legs: seq<seq<Leg>>, most: nat, prev: seq<Choice>, j: nat)
    requires Level(legs, prev) && j < |legs[LevelOf(legs, prev)]|
    ensures Row(legs, most, prev, j, 0) == [] && Distinct([])
  {
  }

  lemma RowNew(legs: seq<seq<Leg>>, most: nat, prev: seq<Choice>, j: nat, p: nat)
    requires 0 < p <= |prev| && Level(legs, prev) && j < |legs[LevelOf(legs, prev)]| && Distinct(prev)
    ensures prev[p - 1] + [j] !in Row(legs, most, prev, j, p - 1)
  {
    var c := prev[p - 1] + [j];
    hide Row;
    RowMembers(legs, most, prev, j, p - 1, c);
    assert c[..|c| - 1] == prev[p - 1];
    assert prev[p - 1] !in prev[..p - 1];
  }

  lemma {:induction false} RowsDistinct(legs: seq<seq<Leg>>, most: nat, prev: seq<Choice>, n: nat)
    requires Level(legs, prev) && n <= |legs[LevelOf(legs, prev)]| && Distinct(prev)
    ensures Distinct(Rows(legs, most, prev, n))
    decreases n
  {
    hide *;
    if n == 0 {
      RowsNil(legs, most, prev);
    } else {
      RowsForm(legs, most, prev, n);
      RowsDistinct(legs, most, prev, n - 1);
      RowDistinct(legs, most, prev, n - 1, |prev|);
      AllApart(legs, most, prev, n - 1);
      DistinctConcat(Rows(legs, most, prev, n - 1), Row(legs, most, prev, n - 1, |prev|));
    }
  }

  lemma RowsNil(legs: seq<seq<Leg>>, most: nat, prev: seq<Choice>)
    requires Level(legs, prev)
    ensures Rows(legs, most, prev, 0) == [] && Distinct([])
  {
  }

  predicate Apart(a: seq<Choice>, b: seq<Choice>) {
    forall c :: c in a ==> c !in b
  }

  lemma AllApart(legs: seq<seq<Leg>>, most: nat, prev: seq<Choice>, n: nat)
    requires Level(legs, prev) && n < |legs[LevelOf(legs, prev)]|
    ensures Apart(Rows(legs, most, prev, n), Row(legs, most, prev, n, |prev|))
  {
    hide Rows, Row, Level;
    forall c | c in Rows(legs, most, prev, n)
      ensures c !in Row(legs, most, prev, n, |prev|)
    {
      RowsApart(legs, most, prev, n, c);
    }
  }

  lemma RowsApart(legs: seq<seq<Leg>>, most: nat, prev: seq<Choice>, n: nat, c: Choice)
    requires Level(legs, prev) && n < |legs[LevelOf(legs, prev)]| && c in Rows(legs, most, prev, n)
    ensures c !in Row(legs, most, prev, n, |prev|)
  {
    hide Rows, Row;
    RowsMembers(legs, most, prev, n, c);
    RowMembers(legs, most, prev, n, |prev|, c);
  }

  lemma DistinctAppend(a: seq<Choice>, c: Choice)
    requires Distinct(a) && c !in a
    ensures Distinct(a + [c]) && a + [] == a
  {
  }

  lemma DistinctConcat(a: seq<Choice>, b: seq<Choice>)
    requires Distinct(a) && Distinct(b) && Apart(a, b)
    ensures Distinct(a + b)
  {
    var s := a + b;
    forall i, j | 0 <= i < j < |s|
      ensures s[i] != s[j]
    {
      if i < |a| <= j {
        assert s[i] in a && s[j] in b;
      }
    }
  }

  lemma RowsForm(legs: seq<seq<Leg>>, most: nat, prev: seq<Choice>, n: nat)
    requires Level(legs, prev) && 0 < n <= |legs[LevelOf(legs, prev)]|
    ensures Rows(legs, most, prev, n) == Rows(legs, most, prev, n - 1) + Row(legs, most, prev, n - 1, |prev|)
  {
  }

  // ---------------------------------------------------------------- completeness

  /** `c` covers exactly the first `i` legs and is within the budget. */
  predicate Admissible(legs: seq<seq<Leg>>, most: nat, i: nat, c: Choice) {
    |c| == i > 0 && ValidChoice(legs, c) && Affordable(legs, most, c)
  }

  /** `cs` lists every admissible choice for the first `i` legs, once. */
  ghost predicate Complete(legs: seq<seq<Leg>>, most: nat, i: nat, cs: seq<Choice>) {
    Distinct(cs) && forall c :: c in cs <==> Admissible(legs, most, i, c)
  }

  /** Pruning by leg loses nothing: a choice within the final budget was within every earlier one. */
  lemma FrontAdmissible(legs: seq<seq<Leg>>, most: nat, c: Choice)
    requires AllShaped(legs, most) && |c| > 1 && Admissible(legs, most, |c|, c)
    ensures Admissible(legs, most, |c| - 1, c[..|c| - 1])
  {
    assert WellShaped(legs[|c| - 1], most);
  }

  /** The single-point candidate always fits, so every entry has just been extended when it is copied. */
  lemma FirstAlwaysFits(legs: seq<seq<Leg>>, most: nat, c: Choice)
    requires AllShaped(legs, most) && |c| < |legs| && Admissible(legs, most, |c|, c)
    ensures Admissible(legs, most, |c| + 1, c + [0])
  {
    assert (c + [0])[..|c|] == c;
    assert WellShaped(legs[|c|], most);
  }

  lemma LevelComplete(legs: seq<seq<Leg>>, most: nat, i: nat, prev: seq<Choice>)
    requires AllShaped(legs, most) && 0 < i < |legs| && prev != [] && Complete(legs, most, i, prev)
    ensures Level(legs, prev) && LevelOf(legs, prev) == i
    ensures Complete(legs, most, i + 1, Rows(legs, most, prev, |legs[i]|))
    ensures Rows(legs, most, prev, |legs[i]|) != []
  {
    assert forall k :: 0 <= k < |prev| ==> prev[k] in prev && Admissible(legs, most, i, prev[k]);
    var rows := Rows(legs, most, prev, |legs[i]|);
    RowsDistinct(legs, most, prev, |legs[i]|);
    forall c: Choice
      ensures c in rows <==> Admissible(legs, most, i + 1, c)
    {
      NextAdmissible(legs, most, i, prev, c);
    }
    FirstAlwaysFits(legs, most, prev[0]);
    assert prev[0] + [0] in rows;
  }

  lemma NextAdmissible(legs: seq<seq<Leg>>, most: nat, i: nat, prev: seq<Choice>, c: Choice)
    requires AllShaped(legs, most) && 0 < i < |legs| && Complete(legs, most, i, prev)
    requires Level(legs, prev) && LevelOf(legs, prev) == i
    ensures c in Rows(legs, most, prev, |legs[i]|) <==> Admissible(legs, most, i + 1, c)
  {
    RowsMembers(legs, most, prev, |legs[i]|, c);
    hide Rows, Total, Affordable;
    if Admissible(legs, most, i + 1, c) {
      FrontAdmissible(legs, most, c);
      assert c[..|c| - 1] in prev;
    }
  }

  /** The first leg: one choice for each candidate. */
  function Singles(n: nat): (cs: seq<Choice>)
    ensures |cs| == n && forall j :: 0 <= j < n ==> cs[j] == [j]
  {
    seq(n, j requires 0 <= j < n => [j])
  }

  lemma FirstComplete(legs: seq<seq<Leg>>, most: nat)
    requires legs != [] && AllShaped(legs, most)
    ensures Complete(legs, most, 1, Singles(|legs[0]|)) && Singles(|legs[0]|) != []
  {
    var cs := Singles(|legs[0]|);
    assert WellShaped(legs[0], most);
    forall c: Choice
      ensures c in cs <==> Admissible(legs, most, 1, c)
    {
      SingleAdmissible(legs, most, c);
      if |c| == 1 {
        assert c == [c[0]];
        if c[0] < |cs| {
          assert cs[c[0]] == c;
        }
      }
    }
  }

  lemma SingleAdmissible(legs: seq<seq<Leg>>, most: nat, c: Choice)
    requires legs != [] && AllShaped(legs, most)
    ensures Admissible(legs, most, 1, c) <==> |c| == 1 && c[0] < |legs[0]|
  {
    assert WellShaped(legs[0], most);
    if |c| == 1 && c[0] < |legs[0]| {
      assert c[..0] == [] && ValidChoice(legs, c);
      assert Total(legs, c) == |legs[0][c[0]]|;
    }
  }
}
