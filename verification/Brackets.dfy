/**
 What it takes for a piece of JSON text to be read as one value by counting: quotes pair up, brackets
 outside quotes pair up, and no comma stands bare. Positions are between characters: position i of a text
 has its first i characters before it.
 */
module Brackets {

  /** Inside a quoted string: an odd number of quotes comes before. */
  predicate Inside(v: string, i: nat)
    requires i <= |v|
  {
    multiset(v[..i])['"'] % 2 == 1
  }

  function Nesting(c: char): int {
    if c == '[' || c == '{' then 1 else if c == ']' || c == '}' then -1 else 0
  }

  /** Brackets opened minus brackets closed, outside quotes, before position i. */
  function Depth(v: string, i: nat): int
    requires i <= |v|
  {
    if i == 0 then 0 else Depth(v, i - 1) + if Inside(v, i - 1) then 0 else Nesting(v[i - 1])
  }

  predicate BareComma(v: string, i: nat)
    requires i < |v|
  {
    v[i] == ',' && !Inside(v, i) && Depth(v, i) == 0
  }

  /** No bracket is closed that was not opened. */
  predicate NeverBelow(v: string) {
    forall i :: 0 <= i <= |v| ==> Depth(v, i) >= 0
  }

  predicate NoBareComma(v: string) {
    forall i :: 0 <= i < |v| ==> !BareComma(v, i)
  }

  /** Quotes and brackets pair up. */
  predicate Closed(v: string) {
    !Inside(v, |v|) && Depth(v, |v|) == 0 && NeverBelow(v)
  }

  /** A value that can be followed by another member. */
  predicate Balanced(v: string) {
    Closed(v) && NoBareComma(v)
  }

  /** A value at the end of the text: its last quote may stay open, unless it then ends in a comma. */
  predicate BalancedLast(v: string) {
    Depth(v, |v|) == 0 && NeverBelow(v) && NoBareComma(v) && (v == "" || v[|v| - 1] != ',')
  }

  // ---------------------------------------------------------------- putting texts together

  lemma InsideStep(v: string, i: nat)
    requires i < |v|
    ensures Inside(v, i + 1) <==> Inside(v, i) != (v[i] == '"')
  {
    assert v[..i + 1] == v[..i] + [v[i]];
  }

  lemma NotInsideAtStart(v: string)
    ensures !Inside(v, 0) && Depth(v, 0) == 0
  {
  }

  lemma DepthStep(v: string, i: nat)
    requires i < |v|
    ensures Depth(v, i + 1) == Depth(v, i) + if Inside(v, i) then 0 else Nesting(v[i])
  {
  }

  /** What comes after a position does not matter. */
  lemma {:induction false} Prefix(a: string, b: string, i: nat)
    requires i <= |a|
    ensures Inside(a + b, i) == Inside(a, i) && Depth(a + b, i) == Depth(a, i)
    decreases i
  {
    assert (a + b)[..i] == a[..i];
    if i != 0 {
      Prefix(a, b, i - 1);
      DepthStep(a, i - 1);
      DepthStep(a + b, i - 1);
      assert (a + b)[i - 1] == a[i - 1];
      hide Inside, Depth;
    }
  }

  /** After a text with paired quotes one counts on from its depth. */
  lemma {:induction false} Suffix(a: string, b: string, i: nat)
    requires i <= |b| && !Inside(a, |a|)
    ensures Inside(a + b, |a| + i) == Inside(b, i) && Depth(a + b, |a| + i) == Depth(a, |a|) + Depth(b, i)
    decreases i
  {
    hide *;
    if i == 0 {
      Prefix(a, b, |a|);
      NotInsideAtStart(b);
    } else {
      Suffix(a, b, i - 1);
      InsideStep(b, i - 1);
      InsideStep(a + b, |a| + i - 1);
      DepthStep(b, i - 1);
      DepthStep(a + b, |a| + i - 1);
      assert (a + b)[|a| + i - 1] == b[i - 1];
    }
  }

  /** Text that pairs its quotes and leaves `out` brackets open, started at depth `low`, and never goes below
      zero. */
  predicate Spans(v: string, low: nat, out: int) {
    !Inside(v, |v|) && low + Depth(v, |v|) == out && forall i :: 0 <= i <= |v| ==> low + Depth(v, i) >= 0
  }

  lemma SpansConcat(a: string, b: string, low: nat, mid: nat, out: int)
    requires Spans(a, low, mid) && Spans(b, mid, out)
    ensures Spans(a + b, low, out)
  {
    hide *;
    var v := a + b;
    SpansMeans(a, low, mid);
    SpansMeans(b, mid, out);
    Suffix(a, b, |b|);
    forall i | 0 <= i <= |v|
      ensures low + Depth(v, i) >= 0
    {
      if i <= |a| {
        Prefix(a, b, i);
      } else {
        Suffix(a, b, i - |a|);
      }
    }
    MeansSpans(v, low, out);
  }

  lemma {:induction false} SpansMeans(v: string, low: nat, out: int)
    requires Spans(v, low, out)
    ensures !Inside(v, |v|) && low + Depth(v, |v|) == out
    ensures forall i {:induction false} :: 0 <= i <= |v| ==> low + Depth(v, i) >= 0
  {
  }

  lemma {:induction false} MeansSpans(v: string, low: nat, out: int)
    requires !Inside(v, |v|) && low + Depth(v, |v|) == out
    requires forall i {:induction false} :: 0 <= i <= |v| ==> low + Depth(v, i) >= 0
    ensures Spans(v, low, out)
  {
  }

  lemma ClosedSpans(v: string)
    ensures Closed(v) <==> Spans(v, 0, 0)
  {
    hide Inside, Depth;
  }

  lemma ClosedConcat(a: string, b: string)
    requires Closed(a) && Closed(b)
    ensures Closed(a + b)
  {
    hide *;
    ClosedSpans(a);
    ClosedSpans(b);
    ClosedSpans(a + b);
    SpansConcat(a, b, 0, 0, 0);
  }

  /** One character that is neither a quote nor a bracket. */
  lemma OneCharacter(c: char)
    requires c != '"' && Nesting(c) == 0
    ensures Closed([c])
  {
    hide *;
    NotInsideAtStart([c]);
    InsideStep([c], 0);
    DepthStep([c], 0);
    forall i | 0 <= i <= 1
      ensures Depth([c], i) >= 0
    {
      assert i == 0 || i == 1;
    }
    MeansClosed([c]);
  }

  lemma {:induction false} ClosedMeans(v: string)
    requires Closed(v)
    ensures !Inside(v, |v|) && Depth(v, |v|) == 0
    ensures forall i {:induction false} :: 0 <= i <= |v| ==> Depth(v, i) >= 0
  {
  }

  lemma {:induction false} MeansClosed(v: string)
    requires !Inside(v, |v|) && Depth(v, |v|) == 0
    requires forall i {:induction false} :: 0 <= i <= |v| ==> Depth(v, i) >= 0
    ensures Closed(v)
    ensures (forall i :: 0 <= i < |v| ==> !BareComma(v, i)) ==> Balanced(v)
  {
    hide Depth, Inside;
  }

  /** Text without quotes, brackets or commas: a number, true, false, null. */
  predicate Plain(v: string) {
    forall i :: 0 <= i < |v| ==> v[i] != '"' && v[i] != ',' && Nesting(v[i]) == 0
  }

  lemma {:induction false} PlainIsFlat(v: string, i: nat)
    requires Plain(v) && i <= |v|
    ensures !Inside(v, i) && Depth(v, i) == 0
    decreases i
  {
    if i == 0 {
      NotInsideAtStart(v);
    } else {
      PlainIsFlat(v, i - 1);
      InsideStep(v, i - 1);
      DepthStep(v, i - 1);
    }
    hide Inside, Depth;
  }

  lemma PlainBalanced(v: string)
    requires Plain(v)
    ensures Balanced(v)
  {
    forall i | 0 <= i <= |v|
      ensures !Inside(v, i) && Depth(v, i) == 0
    {
      PlainIsFlat(v, i);
    }
    hide Inside, Depth;
  }

  function Quoted(text: string): string {
    ['"'] + text + ['"']
  }

  /** From the opening quote on, a text with no other quote stays inside. */
  lemma {:induction false} StaysInside(text: string, i: nat)
    requires '"' !in text && 0 < i <= |text| + 1
    ensures Inside(Quoted(text), i) && Depth(Quoted(text), i) == 0
    decreases i
  {
    var v := Quoted(text);
    assert v[0] == '"' && forall j :: 0 < j <= |text| ==> v[j] == text[j - 1];
    hide *;
    InsideStep(v, i - 1);
    DepthStep(v, i - 1);
    if i == 1 {
      NotInsideAtStart(v);
      NestingOfQuote();
    } else {
      StaysInside(text, i - 1);
      assert v[i - 1] != '"';
    }
  }

  lemma NestingOfQuote()
    ensures Nesting('"') == 0
  {
  }

  /** A string without quotes in it, whatever brackets, commas and colons it holds, is balanced. */
  lemma QuotedBalanced(text: string)
    requires '"' !in text
    ensures Balanced(Quoted(text))
  {
    var v := Quoted(text);
    var n := |v|;
    assert n == |text| + 2 && v[n - 1] == '"' && v[0] == '"';
    hide *;
    NotInsideAtStart(v);
    StaysInside(text, n - 1);
    InsideStep(v, n - 1);
    DepthStep(v, n - 1);
    forall i | 0 <= i <= n
      ensures Depth(v, i) >= 0
    {
      if 0 < i < n {
        StaysInside(text, i);
      }
    }
    forall i | 0 <= i < n
      ensures !BareComma(v, i)
    {
      if i != 0 {
        StaysInside(text, i);
      }
      BareCommaIs(v, i);
    }
    MeansClosed(v);
  }

  lemma BareCommaIs(v: string, i: nat)
    requires i < |v|
    ensures BareComma(v, i) <==> v[i] == ',' && !Inside(v, i) && Depth(v, i) == 0
  {
  }

  /** Behind an opening bracket everything is one deeper. */
  lemma OneDeeper(open: char, body: string, close: char, i: nat)
    requires (open == '{' || open == '[') && i <= |body|
    ensures var v := [open] + body + [close];
            Inside(v, i + 1) == Inside(body, i) && Depth(v, i + 1) == 1 + Depth(body, i)
  {
    var v, inner := [open] + body + [close], body + [close];
    assert v == [open] + inner;
    hide *;
    Opened(open);
    Suffix([open], inner, i);
    Prefix(body, [close], i);
  }

  /** Brackets round closed text hide its commas. */
  lemma BracketedBalanced(open: char, body: string, close: char)
    requires (open == '{' && close == '}') || (open == '[' && close == ']')
    requires Closed(body)
    ensures Balanced([open] + body + [close])
  {
    hide *;
    var v, n := [open] + body + [close], |body|;
    ClosedMeans(body);
    NestingOf(open, close);
    NotInsideAtStart(v);
    OneDeeper(open, body, close, n);
    assert v[0] == open && v[n + 1] == close && |v| == n + 2;
    InsideStep(v, n + 1);
    DepthStep(v, n + 1);
    forall i | 0 <= i <= |v|
      ensures Depth(v, i) >= 0 && (0 < i <= n + 1 ==> Depth(v, i) >= 1)
    {
      if 0 < i <= n + 1 {
        OneDeeper(open, body, close, i - 1);
      }
    }
    forall i | 0 <= i < |v|
      ensures !BareComma(v, i)
    {
      BareCommaIs(v, i);
    }
    MeansClosed(v);
  }

  lemma NestingOf(open: char, close: char)
    requires (open == '{' && close == '}') || (open == '[' && close == ']')
    ensures Nesting(open) == 1 && Nesting(close) == -1
  {
  }

  lemma Opened(open: char)
    requires open == '{' || open == '['
    ensures !Inside([open], |[open]|) && Depth([open], |[open]|) == 1
  {
    NotInsideAtStart([open]);
    InsideStep([open], 0);
    DepthStep([open], 0);
  }

  /** A string with an odd number of quotes in it, escaped or not, is not balanced. */
  lemma OddQuotesUnbalanced(text: string)
    requires multiset(text)['"'] % 2 == 1
    ensures !Balanced(Quoted(text))
  {
    var v := Quoted(text);
    assert v[..|v|] == v;
    assert multiset(v) == multiset{'"'} + multiset(text) + multiset{'"'};
  }
}
