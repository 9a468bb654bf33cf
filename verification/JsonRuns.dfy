/** Any tree within the limits comes out as its text. */
module JsonRuns {
  import opened Basics
  import opened JsonText

  /** From `s` to `s'` one item has been written, with a comma if it is not the first; the stack
      below is as it was. */
  predicate Wrote(s: State, s': State, text: string) {
    && s.depth < |s.first| == |s'.first| && s'.depth == s.depth
    && s'.buf == s.buf + (if s.first[s.depth] then "" else ",") + text
    && s'.first[..s.depth] == s.first[..s.depth] && !s'.first[s.depth]
  }

  lemma {:induction false} RunBoth(s: State, a: seq<Call>, b: seq<Call>, quote: Quoting)
    requires Valid(s)
    ensures Run(s, a + b, quote) == Run(Run(s, a, quote), b, quote)
    decreases |a|
  {
    if a == [] {
      assert a + b == b;
    } else {
      assert (a + b)[1..] == a[1..] + b;
      RunBoth(Step(s, a[0], quote), a[1..], b, quote);
    }
  }

  lemma RunOne(s: State, c: Call, quote: Quoting)
    requires Valid(s)
    ensures Run(s, [c], quote) == Step(s, c, quote)
  {
  }

  /** The calls between an opening and its closing one. */
  lemma RunInside(s: State, open: Call, calls: seq<Call>, close: Call, quote: Quoting)
    requires Valid(s)
    ensures Run(s, [open] + calls + [close], quote) == Step(Run(Step(s, open, quote), calls, quote), close, quote)
  {
    RunBoth(s, [open] + calls, [close], quote);
    RunBoth(s, [open], calls, quote);
    RunOne(s, open, quote);
    RunOne(Run(Step(s, open, quote), calls, quote), close, quote);
  }

  /** A value without items. */
  lemma ScalarIsWritten(s: State, i: Item, quote: Quoting)
    requires Valid(s) && Good(i) && Bounded(quote) && !i.value.Object? && !i.value.Array?
    ensures Wrote(s, Run(s, Calls(i), quote), ItemText(i, quote))
  {
    var c := Calls(i)[0];
    assert Calls(i) == [c];
    RunOne(s, c, quote);
    Rearranged(s, i.key, Text(i.value, quote));
    ScalarStep(s, i, c, quote);
  }

  /** And exactly the good ones: of any other the text is cut or dropped. */
  lemma ScalarIsExact(s: State, i: Item, quote: Quoting)
    requires Valid(s) && Bounded(quote) && !i.value.Object? && !i.value.Array? && (i.value.Number? ==> i.value.text != "")
    ensures Wrote(s, Run(s, Calls(i), quote), ItemText(i, quote)) <==> Good(i)
  {
    if Good(i) {
      ScalarIsWritten(s, i, quote);
    } else {
      var c := Calls(i)[0];
      assert Calls(i) == [c];
      RunOne(s, c, quote);
      assert |Step(s, c, quote).buf| < |Comma(s).buf| + |ItemText(i, quote)|;
    }
  }

  /** The limits: a formatted piece has at most 4095 characters, a key that is copied 255 with its
      quotes and its colon. */
  lemma LimitsAre(s: State, text: string, key: string)
    ensures AppendPiece(s, text).buf == if |text| <= 4095 then s.buf + text else s.buf
    ensures KeyPart(key) == if |key| <= 252 then "\"" + key + "\":" else ("\"" + key + "\":")[..255]
  {
  }

  lemma ScalarStep(s: State, i: Item, c: Call, quote: Quoting)
    requires Valid(s) && Good(i) && Bounded(quote) && !i.value.Object? && !i.value.Array? && Calls(i) == [c]
    requires i.key != "" ==> Label(i.key) == Quoted(i.key)
    requires i.key == "" ==> Label(i.key) + Text(i.value, quote) == Text(i.value, quote)
    requires Append(Append(Comma(s), Label(i.key)), Text(i.value, quote)) == Append(Comma(s), ItemText(i, quote))
    ensures Step(s, c, quote) == Append(Comma(s), ItemText(i, quote))
  {
  }

  lemma Rearranged(s: State, key: string, text: string)
    requires Valid(s)
    ensures Wrote(s, Append(Comma(s), Label(key) + text), Label(key) + text)
    ensures key != "" ==> Label(key) == Quoted(key)
    ensures key == "" ==> Label(key) + text == text
    ensures Append(Append(Comma(s), Label(key)), text) == Append(Comma(s), Label(key) + text)
  {
    Regroup(Comma(s).buf, Label(key), text);
  }

  /** Opening a container, filling it and closing it. */
  lemma ContainerIsWritten(s: State, inside: State, name: string, open: string, close: string, text: string)
    requires Valid(s) && s.depth + 1 < |s.first|
    requires WroteAll(Push(Append(Comma(s), name + open)), inside, text)
    ensures Wrote(s, Pop(Append(inside, close)), name + (open + text + close))
  {
    var o := Push(Append(Comma(s), name + open));
    var s' := Pop(Append(inside, close));
    assert s'.first[s.depth] == o.first[..o.depth][s.depth];
    assert s'.first[..s.depth] == inside.first[..o.depth][..s.depth];
    assert o.first[..o.depth][..s.depth] == s.first[..s.depth];
  }

  /** From `s` to `s'` items have been written; only the flag of this depth and those above it
      may have changed. */
  predicate WroteAll(s: State, s': State, text: string) {
    && s.depth < |s.first| == |s'.first| && s'.depth == s.depth
    && s'.buf == s.buf + text && s'.first[..s.depth] == s.first[..s.depth]
  }

  lemma OneMore(s: State, s1: State, s2: State, text: string, rest: string)
    requires Wrote(s, s1, text) && WroteAll(s1, s2, rest)
    ensures WroteAll(s, s2, if s.first[s.depth] then text + rest else "," + text + rest)
  {
  }

  /** After an opening call every item list is written with its commas. */
  lemma {:induction false} ItemsAreWritten(s: State, items: seq<Item>, quote: Quoting)
    requires Valid(s) && AllGood(items) && Bounded(quote) && s.depth + MaxHeight(items) < |s.first|
    ensures WroteAll(s, Run(s, AllCalls(items), quote),
                     if s.first[s.depth] then ItemsText(items, quote) else Others(items, quote))
    decreases items, 0
  {
    if items == [] {
      assert s.buf + "" == s.buf;
    } else {
      var i, later := items[0], items[1..];
      var s1 := Run(s, Calls(i), quote);
      RunBoth(s, Calls(i), AllCalls(later), quote);
      ItemIsWritten(s, i, quote);
      ItemsAreWritten(s1, later, quote);
      OneMore(s, s1, Run(s1, AllCalls(later), quote), ItemText(i, quote), Others(later, quote));
    }
  }

  /** Any item is written as its text, and the stack below it stays as it was. */
  lemma {:induction false} ItemIsWritten(s: State, i: Item, quote: Quoting)
    requires Valid(s) && Good(i) && Bounded(quote) && s.depth + Height(i.value) < |s.first|
    ensures Wrote(s, Run(s, Calls(i), quote), ItemText(i, quote))
    decreases i, 1
  {
    if i.value.Object? || i.value.Array? {
      var items := i.value.items;
      var open := if i.value.Array? then OpenArray(i.key) else if i.key == "" then OpenObject else OpenKeyObject(i.key);
      var close := if i.value.Array? then CloseArray else CloseObject;
      var left, right := if i.value.Array? then "[" else "{", if i.value.Array? then "]" else "}";
      assert Calls(i) == [open] + AllCalls(items) + [close];
      RunInside(s, open, AllCalls(items), close, quote);
      var o := Step(s, open, quote);
      assert Label(i.key) + left == if i.key == "" then left else Quoted(i.key) + left;
      assert o == Push(Append(Comma(s), Label(i.key) + left));
      ItemsAreWritten(o, items, quote);
      ContainerIsWritten(s, Run(o, AllCalls(items), quote), Label(i.key), left, right, ItemsText(items, quote));
    } else {
      ScalarIsWritten(s, i, quote);
    }
  }

  /** A whole document. */
  lemma BuilderSerialises(j: Json, depths: nat, quote: Quoting)
    requires (j.Object? || j.Array?) && Good(Item("", j)) && Bounded(quote) && Height(j) < depths
    ensures Run(New(depths), Calls(Item("", j)), quote).buf == Text(j, quote)
  {
    ItemIsWritten(New(depths), Item("", j), quote);
  }

  /** With no level left, the flag of the parent is used for the children: the text is no JSON. */
  lemma TooDeepBreaks(quote: Quoting)
    ensures var j := Object([Item("a", Number("1"))]);
      Run(New(1), Calls(Item("", j)), quote).buf == "{,\"a\":1}" != Text(j, quote)
  {
    var items := [Item("a", Number("1"))];
    var calls := Calls(Item("", Object(items)));
    assert Label("a") == "\"a\":" && Others([], quote) == "";
    assert AllCalls([]) == [];
    assert calls == [OpenObject, AddNumber("a", "1"), CloseObject];
    var s1 := Step(New(1), OpenObject, quote);
    var s2 := Step(s1, AddNumber("a", "1"), quote);
    assert calls[1..] == [AddNumber("a", "1"), CloseObject] && calls[1..][1..] == [CloseObject];
    RunOne(s2, CloseObject, quote);
    assert s1.buf == "{" && s2.buf == "{,\"a\":1";
    assert Text(Object(items), quote)[1] == '"';
  }

  /** What the text looks like, with values of every kind. */
  lemma ArrayLooksLike(quote: Quoting)
    ensures Text(Array([Item("", Bool(true)), Item("", Bool(false)), Item("", Null)]), quote) == "[true,false,null]"
  {
    ThreeItems(Item("", Bool(true)), Item("", Bool(false)), Item("", Null), quote);
  }

  lemma ObjectLooksLike(text: string, value: string, quote: Quoting)
    ensures Text(Object([Item("a", Number(text)), Item("b", Str(value))]), quote) ==
      "{" + ("\"a\":" + text + "," + ("\"b\":" + quote(value))) + "}"
  {
    TwoItems(Item("a", Number(text)), Item("b", Str(value)), quote);
    assert Label("a") == "\"a\":" && Label("b") == "\"b\":";
    assert ItemText(Item("a", Number(text)), quote) == "\"a\":" + text;
    assert ItemText(Item("b", Str(value)), quote) == "\"b\":" + quote(value);
    assert "\"a\":" + text + "," + ("\"b\":" + quote(value)) == "\"a\":" + text + "," + ItemText(Item("b", Str(value)), quote);
  }

  lemma EmptiesLookLike(text: string, quote: Quoting)
    ensures Text(Object([]), quote) == "{}" && Text(Array([]), quote) == "[]" && Text(Raw(text), quote) == text
  {
    assert ItemsText([], quote) == "";
  }

  lemma TwoItems(a: Item, b: Item, quote: Quoting)
    ensures ItemsText([a, b], quote) == ItemText(a, quote) + "," + ItemText(b, quote)
  {
    assert [a, b][1..] == [b] && [b][1..] == [];
    assert Others([b], quote) == "," + ItemText(b, quote) + "";
  }

  lemma ThreeItems(a: Item, b: Item, c: Item, quote: Quoting)
    ensures ItemsText([a, b, c], quote) == ItemText(a, quote) + "," + ItemText(b, quote) + "," + ItemText(c, quote)
  {
    assert [a, b, c][1..] == [b, c] && [b, c][1..] == [c] && [c][1..] == [];
    assert Others([c], quote) == "," + ItemText(c, quote) + "";
    assert Others([b, c], quote) == "," + ItemText(b, quote) + Others([c], quote);
  }
}
