/**
 The request splitter of the web-socket server (ui/server.cc: ProcessSocket): cuts the text of a JSON
 object into the names and values of its members by counting brackets and toggling at quotes.
 */
module Splitter {
  import opened Options
  import opened Brackets

  datatype Member = Member(name: string, value: string)

  /** The members found, and whether the text was processed to its end. */
  datatype Parsed = Parsed(members: seq<Member>, complete: bool)

  // ---------------------------------------------------------------- finding characters

  /** string::find from a position; the length of the string stands for npos. */
  function Find(s: string, c: char, from: nat): (i: nat)
    requires from <= |s|
    ensures from <= i <= |s| && (i < |s| ==> s[i] == c) && c !in s[from..i]
    decreases |s| - from
  {
    if from == |s| || s[from] == c then from
    else
      var i := Find(s, c, from + 1);
      assert s[from..i] == [s[from]] + s[from + 1..i];
      i
  }

  lemma FindAt(s: string, c: char, from: nat, i: nat)
    requires from <= i < |s| && s[i] == c && c !in s[from..i]
    ensures Find(s, c, from) == i
  {
    assert c !in s[from..i] && c !in s[from..Find(s, c, from)];
  }

  // ---------------------------------------------------------------- the end of a value

  /** The scan of a value stops where a bracket closes that the value did not open, and at a bare comma. */
  predicate StopsAt(s: string, i: nat)
    requires i < |s|
  {
    Depth(s, i + 1) < 0 || BareComma(s, i)
  }

  /** The first such place from a position on; the length of the text if there is none. */
  function FirstStop(s: string, from: nat): (at: nat)
    requires from <= |s|
    ensures from <= at <= |s| && (at < |s| ==> StopsAt(s, at))
    ensures forall i :: from <= i < at ==> !StopsAt(s, i)
    decreases |s| - from
  {
    if from == |s| || StopsAt(s, from) then from else FirstStop(s, from + 1)
  }

  /** The value at the front of the text and what follows it; None when the text ends with brackets open. A
      comma at the very end of the text is not part of the value, not even inside an open quote. */
  function TakeValue(s: string): Option<(string, string)> {
    var at := FirstStop(s, 0);
    if at < |s| then Some((s[..at], s[at..]))
    else if Depth(s, |s|) > 0 then None
    else if s != "" && s[|s| - 1] == ',' then Some((s[..|s| - 1], s[|s| - 1..]))
    else Some((s, ""))
  }

  /** The name before the first colon, as the loop reads it, and the text after the colon. */
  function TakeName(s: string): string {
    var q := Find(s, '"', 0);
    var start := if q == |s| then 0 else q + 1;
    s[start..Find(s, '"', start)]
  }

  /** The member loop. It ends on every text, because each turn removes at least the colon. */
  function Split(s: string): Parsed
    decreases |s|
  {
    var colon := Find(s, ':', 0);
    if colon == |s| then Parsed([], true)
    else
      match TakeValue(s[colon + 1..])
      case None => Parsed([], false)
      case Some((value, rest)) =>
        assert |rest| < |s|;
        var more := Split(rest);
        Parsed([Member(TakeName(s), value)] + more.members, more.complete)
  }

  // ---------------------------------------------------------------- the loops

  /** The inner loop of ProcessSocket: the last place it looked at, and the brackets open behind it. It
      breaks off exactly at the first place where the scan stops. */
  method ScanValue(msg: string) returns (endVal: nat, open: int)
    ensures var at := FirstStop(msg, 0);
      && (at < |msg| ==> endVal == at && open == Depth(msg, at + 1) <= 0 && (open == 0 ==> msg[at] == ','))
      && (at == |msg| ==> endVal == (if msg == "" then 0 else |msg| - 1) && open == Depth(msg, |msg|) >= 0)
  {
    open, endVal := 0, 0;
    var quote := false;
    var i := 0;
    NotInsideAtStart(msg);
    while i < |msg|
      invariant i <= |msg| && endVal == (if i == 0 then 0 else i - 1)
      invariant quote == Inside(msg, i) && open == Depth(msg, i) >= 0
      invariant FirstStop(msg, 0) == FirstStop(msg, i)
    {
      var c := msg[i];
      endVal := i;
      ScanStep(msg, i);
      if c == '"' {
        quote := !quote;
      } else if !quote {
        if c == '[' || c == '{' {
          open := open + 1;
        } else if c == ']' || c == '}' {
          open := open - 1;
        }
        if open < 0 || (c == ',' && open == 0) {
          return;
        }
      }
      i := i + 1;
    }
  }

  lemma ScanStep(s: string, i: nat)
    requires i < |s| && Depth(s, i) >= 0
    ensures Inside(s, i + 1) <==> Inside(s, i) != (s[i] == '"')
    ensures Depth(s, i + 1) == Depth(s, i) + if Inside(s, i) then 0 else Nesting(s[i])
    ensures StopsAt(s, i) <==> !Inside(s, i) && (Depth(s, i + 1) < 0 || (s[i] == ',' && Depth(s, i + 1) == 0))
    ensures FirstStop(s, i) == if StopsAt(s, i) then i else FirstStop(s, i + 1)
  {
    InsideStep(s, i);
    DepthStep(s, i);
    hide Inside, Depth;
  }

  /** The member loop of ProcessSocket; false when it gives up on unbalanced brackets. */
  method ProcessMembers(text: string) returns (members: seq<Member>, complete: bool)
    ensures Parsed(members, complete) == Split(text)
  {
    hide *;
    members := [];
    var msg := text;
    assert Split(text) == Parsed([] + Split(text).members, Split(text).complete);
    var colon := Find(msg, ':', 0);
    while colon < |msg|
      invariant colon == Find(msg, ':', 0)
      invariant Split(text) == Parsed(members + Split(msg).members, Split(msg).complete)
      decreases |msg|
    {
      SplitForm(msg);
      var name := TakeName(msg);
      msg := msg[colon + 1..];
      TakeValueForm(msg);
      var endVal, open := ScanValue(msg);
      if open > 0 {
        assert members + [] == members;
        return members, false;
      } else if open == 0 && !(endVal < |msg| && msg[endVal] == ',') {
        endVal := endVal + 1;
      }
      var cut := if endVal <= |msg| then endVal else |msg|;
      var value := msg[..cut];
      msg := msg[cut..];
      ghost var more := Split(msg).members;
      assert members + ([Member(name, value)] + more) == (members + [Member(name, value)]) + more;
      members := members + [Member(name, value)];
      colon := Find(msg, ':', 0);
    }
    SplitForm(msg);
    assert members + [] == members;
    return members, true;
  }

  lemma SplitForm(s: string)
    ensures var colon := Find(s, ':', 0);
      && (colon == |s| ==> Split(s) == Parsed([], true))
      && (colon < |s| ==>
            match TakeValue(s[colon + 1..])
            case None => Split(s) == Parsed([], false)
            case Some((value, rest)) =>
              Split(s) == Parsed([Member(TakeName(s), value)] + Split(rest).members, Split(rest).complete))
  {
    hide Find, TakeName, TakeValue;
  }

  lemma TakeValueForm(s: string)
    ensures var at := FirstStop(s, 0);
      && (at < |s| ==> TakeValue(s) == Some((s[..at], s[at..])))
      && (at == |s| && Depth(s, |s|) > 0 ==> TakeValue(s) == None)
      && (at == |s| && Depth(s, |s|) <= 0 ==>
            var cut := if s != "" && s[|s| - 1] == ',' then |s| - 1 else |s|;
            TakeValue(s) == Some((s[..cut], s[cut..])))
  {
    assert s[..|s|] == s && s[|s|..] == "";
    hide FirstStop, Depth;
  }

  /** ProcessSocket from the text of the message on: strip the braces, then find the members. None stands
      for an empty text and a lone opening brace, where the code looks at a last character that is not there. */
  method Process(message: string) returns (found: Option<Parsed>)
    ensures found.None? <==> message == "" || message == "{"
    ensures found.Some? ==> found.value == Split(Stripped(message))
  {
    if message == "" {
      return None;
    }
    var msg := message;
    if msg[0] == '{' {
      msg := msg[1..];
    }
    if msg == "" {
      assert message == [message[0]];
      return None;
    }
    assert |message| > 1 || message[0] != '{';
    if msg[|msg| - 1] == '}' {
      msg := msg[..|msg| - 1];
    }
    assert msg == Stripped(message);
    hide *;
    var members, complete := ProcessMembers(msg);
    return Some(Parsed(members, complete));
  }

  function Stripped(message: string): string
    requires message != "" && message != "{"
  {
    var m := if message[0] == '{' then message[1..] else message;
    if m[|m| - 1] == '}' then m[..|m| - 1] else m
  }

  // ---------------------------------------------------------------- rendering and splitting back

  function Item(p: Member): string {
    ['"'] + p.name + ['"', ':'] + p.value
  }

  /** The members after the first, each behind a comma. */
  function Tail(ps: seq<Member>): string {
    if ps == [] then "" else "," + Item(ps[0]) + Tail(ps[1..])
  }

  function Join(ps: seq<Member>): string {
    if ps == [] then "" else Item(ps[0]) + Tail(ps[1..])
  }

  function Render(ps: seq<Member>): string {
    "{" + Join(ps) + "}"
  }

  predicate CleanName(n: string) {
    '"' !in n && ':' !in n
  }

  predicate CleanNames(ps: seq<Member>) {
    forall i :: 0 <= i < |ps| ==> CleanName(ps[i].name)
  }

  /** Every value is balanced; the last one only has to be balanced for its place. */
  predicate Separable(ps: seq<Member>) {
    forall i :: 0 <= i < |ps| ==> if i == |ps| - 1 then BalancedLast(ps[i].value) else Balanced(ps[i].value)
  }

  /** Stopping nowhere is never going below and having no bare comma. */
  lemma NoStop(v: string)
    ensures FirstStop(v, 0) == |v| <==> NeverBelow(v) && NoBareComma(v)
  {
    if FirstStop(v, 0) == |v| {
      forall i | 0 <= i <= |v|
        ensures Depth(v, i) >= 0
      {
        if i == 0 {
          NotInsideAtStart(v);
        } else {
          assert !StopsAt(v, i - 1);
        }
      }
      forall i | 0 <= i < |v|
        ensures !BareComma(v, i)
      {
        assert !StopsAt(v, i);
      }
    }
    hide Inside, Depth;
  }

  /** Within a value the scan does not look past its end. */
  lemma SameStops(v: string, t: string, i: nat)
    requires i < |v|
    ensures StopsAt(v + t, i) <==> StopsAt(v, i)
  {
    Prefix(v, t, i);
    Prefix(v, t, i + 1);
    hide Inside, Depth;
  }

  lemma StopInside(v: string, t: string)
    ensures var at := FirstStop(v, 0);
            if at < |v| then FirstStop(v + t, 0) == at else FirstStop(v + t, 0) >= |v|
  {
    var at, at' := FirstStop(v, 0), FirstStop(v + t, 0);
    if at < |v| {
      SameStops(v, t, at);
    }
    if at' < |v| {
      SameStops(v, t, at');
    }
    hide StopsAt;
  }

  /** The comma behind a value is a stop exactly when quotes and brackets are closed there. */
  lemma CommaBehind(v: string, t: string)
    requires t != "" && t[0] == ',' && NeverBelow(v)
    ensures StopsAt(v + t, |v|) <==> !Inside(v, |v|) && Depth(v, |v|) == 0
  {
    Prefix(v, t, |v|);
    DepthStep(v + t, |v|);
    assert (v + t)[|v|] == ',' && Nesting(',') == 0;
    hide Inside, Depth;
  }

  /** With another member behind it, a value is cut out whole exactly when it is balanced. */
  lemma MiddleValue(v: string, t: string)
    requires |t| > 1 && t[0] == ','
    ensures TakeValue(v + t).Some? && TakeValue(v + t).value.0 == v <==> Balanced(v)
    ensures Balanced(v) ==> TakeValue(v + t) == Some((v, t))
  {
    var s := v + t;
    assert s[..|v|] == v && s[|v|..] == t;
    MiddleStop(v, t);
    hide *;
    TakeValueForm(s);
  }

  lemma MiddleStop(v: string, t: string)
    requires |t| > 1 && t[0] == ','
    ensures FirstStop(v + t, 0) == |v| <==> Balanced(v)
  {
    hide *;
    NoStop(v);
    StopInside(v, t);
    BalancedIs(v);
    var at := FirstStop(v + t, 0);
    if NeverBelow(v) {
      CommaBehind(v, t);
    }
  }

  lemma BalancedIs(v: string)
    ensures Balanced(v) <==> !Inside(v, |v|) && Depth(v, |v|) == 0 && NeverBelow(v) && NoBareComma(v)
    ensures BalancedLast(v) <==>
            Depth(v, |v|) == 0 && NeverBelow(v) && NoBareComma(v) && (v == "" || v[|v| - 1] != ',')
    ensures NeverBelow(v) ==> Depth(v, |v|) >= 0
  {
    hide Inside, Depth, NoBareComma;
  }

  /** At the end of the text a value is cut out whole exactly when it is balanced there. */
  lemma LastValue(v: string)
    ensures TakeValue(v) == Some((v, "")) <==> BalancedLast(v)
    ensures TakeValue(v).Some? && TakeValue(v).value.0 == v <==> BalancedLast(v)
  {
    hide *;
    assert v[..|v|] == v && v[|v|..] == "";
    NoStop(v);
    BalancedIs(v);
    TakeValueForm(v);
  }

  /** A member at the front of the text, after at most a comma: its name is read, its colon is found. */
  lemma ItemAhead(lead: string, p: Member, t: string)
    requires (lead == "" || lead == ",") && CleanName(p.name)
    ensures var s := lead + Item(p) + t;
      var colon := Find(s, ':', 0);
      colon < |s| && TakeName(s) == p.name && s[colon + 1..] == p.value + t
  {
    var s := lead + Item(p) + t;
    var q := |lead|;
    var e := q + 1 + |p.name|;
    ItemLayout(lead, p.name, p.value, t, s);
    hide *;
    FindAt(s, '"', 0, q);
    FindAt(s, '"', q + 1, e);
    FindAt(s, ':', 0, e + 1);
    TakeNameForm(s);
  }

  lemma ItemLayout(lead: string, name: string, value: string, t: string, s: string)
    requires (lead == "" || lead == ",") && CleanName(name)
    requires s == lead + (['"'] + name + ['"', ':'] + value) + t
    ensures var q, e := |lead|, |lead| + 1 + |name|;
      && e + 1 < |s| && s[q] == '"' && s[e] == '"' && s[e + 1] == ':'
      && '"' !in s[0..q] && '"' !in s[q + 1..e] && ':' !in s[0..e + 1]
      && s[q + 1..e] == name && s[e + 2..] == value + t
  {
    var q, e := |lead|, |lead| + 1 + |name|;
    var head := lead + ['"'] + name + ['"'];
    Regroup(lead, name, value, t);
    assert s == head + ([':'] + (value + t));
    assert s[0..e + 1] == head && s[e + 2..] == value + t;
    assert s[q + 1..e] == name && s[0..q] == lead;
  }

  lemma Regroup(lead: string, name: string, value: string, t: string)
    ensures lead + (['"'] + name + ['"', ':'] + value) + t == (lead + ['"'] + name + ['"']) + ([':'] + (value + t))
  {
  }

  lemma TakeNameForm(s: string)
    ensures var q := Find(s, '"', 0);
            q < |s| ==> TakeName(s) == s[q + 1..Find(s, '"', q + 1)]
  {
  }

  lemma TailForm(ps: seq<Member>)
    requires ps != []
    ensures Tail(ps) == "," + Item(ps[0]) + Tail(ps[1..]) && |Tail(ps)| > 1 && Tail(ps)[0] == ','
  {
  }

  lemma SeparableForm(ps: seq<Member>)
    requires ps != []
    ensures |ps| == 1 ==> (Separable(ps) <==> BalancedLast(ps[0].value))
    ensures |ps| > 1 ==> (Separable(ps) <==> Balanced(ps[0].value) && Separable(ps[1..]))
  {
    hide Balanced, BalancedLast;
    var rest := ps[1..];
    assert forall i :: 0 <= i < |rest| ==> rest[i] == ps[i + 1];
    assert forall i :: 0 < i < |ps| ==> ps[i] == rest[i - 1];
  }

  lemma {:induction false} SplitMembers(lead: string, ps: seq<Member>)
    requires (lead == "" || lead == ",") && ps != [] && CleanNames(ps)
    ensures Split(lead + Item(ps[0]) + Tail(ps[1..])) == Parsed(ps, true) <==> Separable(ps)
    decreases |ps|
  {
    assert CleanName(ps[0].name);
    if |ps| > 1 {
      SplitMembers(",", ps[1..]);
      TailForm(ps[1..]);
      hide *;
      SeparableForm(ps);
      SplitFirst(lead, ps, Tail(ps[1..]));
    } else {
      assert Tail(ps[1..]) == "";
      hide *;
      SeparableForm(ps);
      SplitOnly(lead, ps);
    }
  }

  /** A member with others behind it. */
  lemma SplitFirst(lead: string, ps: seq<Member>, t: string)
    requires (lead == "" || lead == ",") && ps != [] && CleanName(ps[0].name) && |t| > 1 && t[0] == ','
    ensures Split(lead + Item(ps[0]) + t) == Parsed(ps, true) <==>
            Balanced(ps[0].value) && Split(t) == Parsed(ps[1..], true)
  {
    hide *;
    var p := ps[0];
    var s := lead + Item(p) + t;
    ItemAhead(lead, p, t);
    SplitForm(s);
    MiddleValue(p.value, t);
    var taken := TakeValue(p.value + t);
    if taken.Some? {
      FirstMember(ps, Split(taken.value.1).members);
      assert ps == [p] + ps[1..];
    }
  }

  /** A member with nothing behind it. */
  lemma SplitOnly(lead: string, ps: seq<Member>)
    requires (lead == "" || lead == ",") && |ps| == 1 && CleanName(ps[0].name)
    ensures Split(lead + Item(ps[0]) + "") == Parsed(ps, true) <==> BalancedLast(ps[0].value)
  {
    assert Split("") == Parsed([], true);
    hide *;
    var p, none := ps[0], "";
    var s := lead + Item(p) + none;
    ItemAhead(lead, p, none);
    assert p.value + none == p.value;
    SplitForm(s);
    LastValue(p.value);
    var taken := TakeValue(p.value);
    if taken.Some? {
      FirstMember(ps, Split(taken.value.1).members);
    }
  }

  lemma FirstMember(ps: seq<Member>, more: seq<Member>)
    requires ps != []
    ensures forall name, value :: [Member(name, value)] + more == ps ==>
              Member(name, value) == ps[0] && more == ps[1..]
  {
    forall name, value | [Member(name, value)] + more == ps
      ensures Member(name, value) == ps[0] && more == ps[1..]
    {
      assert ps[1..] == ([Member(name, value)] + more)[1..] == more;
    }
  }

  /** Splitting a rendered object gives back exactly its members, in order, if and only if every value is
      balanced where it stands. Names are free of quotes and colons. */
  lemma SplitExact(ps: seq<Member>)
    requires CleanNames(ps)
    ensures Split(Stripped(Render(ps))) == Parsed(ps, true) <==> Separable(ps)
  {
    hide *;
    StrippedRender(ps);
    if ps == [] {
      EmptyObject(ps);
    } else {
      var lead := "";
      SplitMembers(lead, ps);
      JoinForm(lead, ps);
    }
  }

  lemma StrippedRender(ps: seq<Member>)
    ensures Render(ps) != "" && Render(ps) != "{" && Stripped(Render(ps)) == Join(ps)
  {
    var body := Join(ps);
    hide Join;
    assert ("{" + body + "}")[1..] == body + "}";
    assert (body + "}")[..|body|] == body;
  }

  lemma EmptyObject(ps: seq<Member>)
    requires ps == []
    ensures Split(Join(ps)) == Parsed(ps, true) && Separable(ps)
  {
  }

  lemma JoinForm(lead: string, ps: seq<Member>)
    requires lead == "" && ps != []
    ensures Join(ps) == lead + Item(ps[0]) + Tail(ps[1..])
  {
    hide Item, Tail;
  }
}
