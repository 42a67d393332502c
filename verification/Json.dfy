/**
 JSON values and their text without white space, as the web-socket server expects it, and what the request
 splitter makes of them. Strings are kept free of quotes: the splitter does not know escapes.
 */
module Json {
  import opened Brackets
  import opened Splitter

  /** `Scalar` is a number or one of true, false and null, as text. */
  datatype Json =
    | Scalar(text: string)
    | Text(chars: string)
    | List(items: seq<Json>)
    | Object(fields: seq<Field>)

  datatype Field = Field(name: string, value: Json)

  /** Scalars have no quote, comma or bracket; strings and names have no quote. */
  predicate WellFormed(j: Json) {
    match j
    case Scalar(t) => Plain(t)
    case Text(t) => '"' !in t
    case List(items) => forall i :: 0 <= i < |items| ==> WellFormed(items[i])
    case Object(fields) => forall i :: 0 <= i < |fields| ==> '"' !in fields[i].name && WellFormed(fields[i].value)
  }

  function Print(j: Json): string {
    match j
    case Scalar(t) => t
    case Text(t) => Quoted(t)
    case List(items) => "[" + Commas(seq(|items|, i requires 0 <= i < |items| => Print(items[i]))) + "]"
    case Object(fields) => Render(seq(|fields|, i requires 0 <= i < |fields| => Member(fields[i].name, Print(fields[i].value))))
  }

  function Commas(vs: seq<string>): string {
    if vs == [] then "" else if |vs| == 1 then vs[0] else vs[0] + "," + Commas(vs[1..])
  }

  /** The members of an object, each with the text of its value. */
  function Members(fields: seq<Field>): (ps: seq<Member>)
    ensures |ps| == |fields|
  {
    seq(|fields|, i requires 0 <= i < |fields| => Member(fields[i].name, Print(fields[i].value)))
  }

  // ---------------------------------------------------------------- every value is balanced

  lemma {:induction false} CommasClosed(vs: seq<string>)
    requires forall i :: 0 <= i < |vs| ==> Balanced(vs[i])
    ensures Closed(Commas(vs))
    decreases |vs|
  {
    hide Closed, NoBareComma, Plain;
    if vs == [] {
      Empty();
    } else if |vs| > 1 {
      CommasClosed(vs[1..]);
      OneCharacter(',');
      ClosedConcat(vs[0], ",");
      ClosedConcat(vs[0] + ",", Commas(vs[1..]));
    }
  }

  lemma Empty()
    ensures Closed("")
  {
    PlainBalanced("");
  }

  predicate Nameable(p: Member) {
    '"' !in p.name && Balanced(p.value)
  }

  lemma ItemClosed(p: Member)
    requires Nameable(p)
    ensures Closed(Item(p))
  {
    assert Item(p) == Quoted(p.name) + [':'] + p.value;
    hide Closed, NoBareComma, Quoted, Item;
    QuotedBalanced(p.name);
    OneCharacter(':');
    ClosedConcat(Quoted(p.name), [':']);
    ClosedConcat(Quoted(p.name) + [':'], p.value);
  }

  lemma {:induction false} TailClosed(ps: seq<Member>)
    requires forall i :: 0 <= i < |ps| ==> Nameable(ps[i])
    ensures Closed(Tail(ps))
    decreases |ps|
  {
    hide Closed, Nameable, Item;
    if ps == [] {
      Empty();
    } else {
      TailClosed(ps[1..]);
      ItemClosed(ps[0]);
      OneCharacter(',');
      ClosedConcat(",", Item(ps[0]));
      ClosedConcat("," + Item(ps[0]), Tail(ps[1..]));
    }
  }

  lemma RenderBalanced(ps: seq<Member>)
    requires forall i :: 0 <= i < |ps| ==> Nameable(ps[i])
    ensures Balanced(Render(ps))
  {
    hide Closed, Nameable, Item, Tail, Balanced;
    if ps == [] {
      Empty();
    } else {
      ItemClosed(ps[0]);
      TailClosed(ps[1..]);
      ClosedConcat(Item(ps[0]), Tail(ps[1..]));
    }
    BracketedBalanced('{', Join(ps), '}');
  }

  /** The text of every value, however deeply nested, is balanced. */
  lemma {:induction false} PrintBalanced(j: Json)
    requires WellFormed(j)
    ensures Balanced(Print(j))
  {
    hide Balanced, Render, Quoted, Commas;
    match j
    case Scalar(t) => PlainBalanced(t);
    case Text(t) => QuotedBalanced(t);
    case List(items) =>
      forall i | 0 <= i < |items|
        ensures Balanced(Print(items[i]))
      {
        PrintBalanced(items[i]);
      }
      var vs := seq(|items|, i requires 0 <= i < |items| => Print(items[i]));
      CommasClosed(vs);
      BracketedBalanced('[', Commas(vs), ']');
    case Object(fields) =>
      forall i | 0 <= i < |fields|
        ensures Nameable(Members(fields)[i])
      {
        PrintBalanced(fields[i].value);
      }
      RenderBalanced(Members(fields));
  }

  // ---------------------------------------------------------------- splitting

  /** A comma at the end of closed text is bare. */
  lemma LastComma(v: string)
    requires Closed(v) && v != "" && v[|v| - 1] == ','
    ensures BareComma(v, |v| - 1)
  {
    InsideStep(v, |v| - 1);
    DepthStep(v, |v| - 1);
    hide Inside, Depth;
  }

  lemma BalancedAlsoLast(v: string)
    requires Balanced(v)
    ensures BalancedLast(v)
  {
    if v != "" && v[|v| - 1] == ',' {
      LastComma(v);
    }
    hide Inside, Depth, BareComma;
  }

  /** Splitting inverts rendering for every list of members with quote- and colon-free names and balanced
      values. */
  lemma SplitInvertsRender(ps: seq<Member>)
    requires forall i :: 0 <= i < |ps| ==> CleanName(ps[i].name) && Balanced(ps[i].value)
    ensures Split(Stripped(Render(ps))) == Parsed(ps, true)
  {
    hide Balanced, BalancedLast, Split, Stripped, Render;
    forall i | 0 <= i < |ps|
      ensures BalancedLast(ps[i].value)
    {
      BalancedAlsoLast(ps[i].value);
    }
    SplitExact(ps);
  }

  /** Every object is split into exactly its members: their names, and the texts of their values whatever
      numbers, strings, lists and objects those are. */
  lemma SplitObject(fields: seq<Field>)
    requires WellFormed(Object(fields))
    requires forall i :: 0 <= i < |fields| ==> ':' !in fields[i].name
    ensures Split(Stripped(Print(Object(fields)))) == Parsed(Members(fields), true)
  {
    hide Balanced, Split, Stripped, Render;
    forall i | 0 <= i < |fields|
      ensures Balanced(Print(fields[i].value))
    {
      PrintBalanced(fields[i].value);
    }
    assert Print(Object(fields)) == Render(Members(fields));
    SplitInvertsRender(Members(fields));
  }

  /** JSON's escaped quote is not understood. A string with one escaped quote in it, as the value of a member
      with another behind it, is never cut out whole, whatever surrounds the quote. */
  lemma EscapedQuote(before: string, after: string, t: string)
    requires '"' !in before && '"' !in after && |t| > 1 && t[0] == ','
    ensures var v := Quoted(before + ['\\', '"'] + after);
            !(TakeValue(v + t).Some? && TakeValue(v + t).value.0 == v)
  {
    var text := before + ['\\', '"'] + after;
    assert multiset(text) == multiset(before) + multiset{'\\', '"'} + multiset(after);
    assert multiset(before)['"'] == 0 && multiset(after)['"'] == 0;
    hide *;
    OddQuotesUnbalanced(text);
    MiddleValue(Quoted(text), t);
  }
}
