/** Exactly which trees the builder writes correctly, whatever their depth. */
module JsonDepth {
  import opened Basics
  import opened JsonText
  import opened JsonRuns
  import opened JsonCalls

  /** What becomes of an item that is written at depth `d`: how many commas too many, and the depth
      afterwards.  A container that finds no level left is written on the level of its parent, and
      its closing call goes down one level too far. */
  datatype Fate = Fate(extra: nat, depth: nat)

  function Down(d: nat): nat {
    if d > 0 then d - 1 else 0
  }

  function FateOf(j: Json, d: nat, depths: nat): (r: Fate)
    requires d < depths
    ensures r.depth <= d
    decreases j, 1
  {
    if !j.Object? && !j.Array? then Fate(0, d)
    else if d + 1 < depths then
      var f := FateOfAll(j.items, d + 1, depths);
      Fate(f.extra, Down(f.depth))
    else
      var f := FateOfAll(j.items, d, depths);
      Fate(f.extra + if j.items == [] then 0 else 1, Down(f.depth))
  }

  function FateOfAll(items: seq<Item>, d: nat, depths: nat): (r: Fate)
    requires d < depths
    ensures r.depth <= d
    decreases items, 0
  {
    if items == [] then Fate(0, d)
    else
      var f := FateOf(items[0].value, d, depths);
      var g := FateOfAll(items[1..], f.depth, depths);
      Fate(f.extra + g.extra, g.depth)
  }

  // ---------- the builder meets that fate ----------

  /** Every flag below depth `d` says that something has been written there. */
  predicate Clear(s: State, d: nat) {
    d <= |s.first| && forall k :: 0 <= k < d ==> !s.first[k]
  }

  /** From `s` to `s'` text has been written as planned, or with that many commas too many. */
  predicate Grew(s: State, s': State, text: string, extra: nat) {
    |s'.buf| == |s.buf| + |text| + extra && (extra == 0 ==> s'.buf == s.buf + text)
  }

  /** An item with this text has been written and met this fate. */
  predicate Meets(s: State, s': State, text: string, f: Fate)
    requires Valid(s)
  {
    |s'.first| == |s.first| && s'.depth == f.depth && Grew(s, s', Before(s, text), f.extra) && Clear(s', s'.depth + 1)
  }

  function Before(s: State, text: string): string
    requires Valid(s)
  {
    if s.first[s.depth] then text else "," + text
  }

  lemma GrewTwice(s: State, s1: State, s2: State, a: string, b: string, m: nat, n: nat)
    requires Grew(s, s1, a, m) && Grew(s1, s2, b, n)
    ensures Grew(s, s2, a + b, m + n)
  {
    if m + n == 0 {
      assert s.buf + a + b == s.buf + (a + b);
    }
  }

  /** The rest of a list when its first item is written. */
  lemma ListText(first: bool, items: seq<Item>, quote: Quoting)
    requires items != []
    ensures var text, rest := ItemText(items[0], quote), Others(items[1..], quote);
      && (first ==> ItemsText(items, quote) == text + rest)
      && (!first ==> Others(items, quote) == "," + text + rest)
  {
  }

  lemma {:induction false} ItemsMeet(s: State, items: seq<Item>, quote: Quoting)
    requires Valid(s) && AllGood(items) && Bounded(quote) && Clear(s, s.depth)
    ensures var s', f := Run(s, AllCalls(items), quote), FateOfAll(items, s.depth, |s.first|);
      && |s'.first| == |s.first| && s'.depth == f.depth
      && Grew(s, s', if s.first[s.depth] then ItemsText(items, quote) else Others(items, quote), f.extra)
      && (if items == [] then s' == s else Clear(s', s'.depth + 1))
    decreases items, 0
  {
    if items == [] {
      assert s.buf + "" == s.buf;
    } else {
      var i, later := items[0], items[1..];
      var s1 := Run(s, Calls(i), quote);
      RunBoth(s, Calls(i), AllCalls(later), quote);
      ItemMeets(s, i, quote);
      ItemsMeet(s1, later, quote);
      ListText(s.first[s.depth], items, quote);
      GrewTwice(s, s1, Run(s1, AllCalls(later), quote), Before(s, ItemText(i, quote)), Others(later, quote),
                FateOf(i.value, s.depth, |s.first|).extra, FateOfAll(later, s1.depth, |s.first|).extra);
    }
  }

  lemma {:induction false} ItemMeets(s: State, i: Item, quote: Quoting)
    requires Valid(s) && Good(i) && Bounded(quote) && Clear(s, s.depth)
    ensures Meets(s, Run(s, Calls(i), quote), ItemText(i, quote), FateOf(i.value, s.depth, |s.first|))
    decreases i, 1
  {
    if i.value.Object? || i.value.Array? {
      var items, o := i.value.items, Step(s, Calls(i)[0], quote);
      OpenIs(s, i, Calls(i)[0], quote);
      ItemsMeet(o, items, quote);
      FilledMeets(s, i, o, Run(o, AllCalls(items), quote), FateOfAll(items, o.depth, |o.first|), quote);
      ContainerRuns(s, i, quote);
      FateOfContainer(i.value, s.depth, o.depth, |s.first|);
    } else {
      ScalarIsWritten(s, i, quote);
      ScalarMeets(s, Run(s, Calls(i), quote), ItemText(i, quote));
    }
  }

  /** A container, once its items have been written: `t` is the state then, and `inside` their fate. */
  lemma FilledMeets(s: State, i: Item, o: State, t: State, inside: Fate, quote: Quoting)
    requires Valid(s) && Clear(s, s.depth) && (i.value.Object? || i.value.Array?)
    requires o == Push(Append(Comma(s), Label(i.key) + Left(i.value))) && inside.depth == t.depth
    requires var items := i.value.items;
      && |t.first| == |o.first| && Grew(o, t, if o.first[o.depth] then ItemsText(items, quote) else Others(items, quote), inside.extra)
      && (if items == [] then t == o else Clear(t, t.depth + 1))
    ensures Meets(s, Pop(Append(t, Right(i.value))), ItemText(i, quote),
                  Fate(inside.extra + if o.depth == s.depth && i.value.items != [] then 1 else 0, Down(t.depth)))
  {
    var items := i.value.items;
    OthersAndText(items, quote);
    ContainerMeets(s, o, t, Label(i.key) + Left(i.value), Right(i.value), ItemsText(items, quote), Others(items, quote),
                   items == [], inside.extra);
    ContainerText(i, quote);
  }

  lemma FateOfContainer(j: Json, d: nat, inner: nat, depths: nat)
    requires d < depths && (j.Object? || j.Array?) && inner == if d + 1 < depths then d + 1 else d
    ensures var inside := FateOfAll(j.items, inner, depths);
      FateOf(j, d, depths) == Fate(inside.extra + if inner == d && j.items != [] then 1 else 0, Down(inside.depth))
  {
  }

  lemma ScalarMeets(s: State, s': State, text: string)
    requires Valid(s) && Wrote(s, s', text) && Clear(s, s.depth)
    ensures Meets(s, s', text, Fate(0, s.depth))
  {
    assert forall k :: 0 <= k < s.depth ==> s'.first[k] == s'.first[..s.depth][k] == s.first[..s.depth][k];
    assert s.buf + "," + text == s.buf + ("," + text) && s.buf + "" + text == s.buf + text;
  }

  function Left(j: Json): string {
    if j.Array? then "[" else "{"
  }

  function Right(j: Json): string {
    if j.Array? then "]" else "}"
  }

  lemma ContainerText(i: Item, quote: Quoting)
    requires i.value.Object? || i.value.Array?
    ensures Label(i.key) + Left(i.value) + ItemsText(i.value.items, quote) + Right(i.value) == ItemText(i, quote)
  {
  }

  lemma ContainerRuns(s: State, i: Item, quote: Quoting)
    requires Valid(s) && (i.value.Object? || i.value.Array?)
    ensures var o := Step(s, Calls(i)[0], quote);
      Run(s, Calls(i), quote) == Pop(Append(Run(o, AllCalls(i.value.items), quote), Right(i.value)))
  {
    var open, close := Calls(i)[0], if i.value.Array? then CloseArray else CloseObject;
    assert Calls(i) == [open] + AllCalls(i.value.items) + [close];
    RunInside(s, open, AllCalls(i.value.items), close, quote);
  }

  lemma OpenIs(s: State, i: Item, open: Call, quote: Quoting)
    requires Valid(s) && Good(i) && (i.value.Object? || i.value.Array?) && open == Calls(i)[0]
    ensures Step(s, open, quote) == Push(Append(Comma(s), Label(i.key) + Left(i.value)))
  {
    assert Label(i.key) + Left(i.value) == if i.key == "" then Left(i.value) else Quoted(i.key) + Left(i.value);
  }

  /** What is written inside a container is `text` or, on a level that is not its own, `text` after a
      comma. */
  lemma InsideGrew(s: State, o: State, t: State, s': State, head: string, text: string, right: string, comma: bool, extra: nat)
    requires Valid(s) && o.buf == s.buf + Before(s, head) && |right| == 1 && s'.buf == t.buf + right
    requires Grew(o, t, if comma then "," + text else text, extra)
    ensures Grew(s, s', Before(s, head + text + right), extra + if comma then 1 else 0)
  {
    assert Before(s, head) + text + right == Before(s, head + text + right);
    if !comma && extra == 0 {
      assert s'.buf == s.buf + Before(s, head) + text + right;
      Regroup(s.buf, Before(s, head), text);
      Regroup(s.buf, Before(s, head) + text, right);
    }
  }

  /** On a level of its own the container is as planned; on its parent's, its first item has a
      comma.  `text` is that of the items, and `others` the same after a comma, if there are any. */
  lemma ContainerMeets(s: State, o: State, t: State, head: string, right: string, text: string, others: string, empty: bool, extra: nat)
    requires Valid(s) && Clear(s, s.depth) && o == Push(Append(Comma(s), head)) && |right| == 1
    requires others == if empty then text else "," + text
    requires |t.first| == |o.first| && Grew(o, t, if o.first[o.depth] then text else others, extra)
    requires if empty then t == o else Clear(t, t.depth + 1)
    ensures Meets(s, Pop(Append(t, right)), head + text + right,
                  Fate(extra + if o.depth == s.depth && !empty then 1 else 0, Down(t.depth)))
  {
    OpenGrew(s, head);
    InsideGrew(s, o, t, Pop(Append(t, right)), head, text, right, !o.first[o.depth] && !empty, extra);
  }

  lemma OpenGrew(s: State, head: string)
    requires Valid(s)
    ensures var o := Push(Append(Comma(s), head));
      && o.buf == s.buf + Before(s, head) && Valid(o) && |o.first| == |s.first|
      && (o.depth == s.depth <==> !o.first[o.depth])
  {
    assert s.buf + "," + head == s.buf + ("," + head);
  }

  lemma OthersAndText(items: seq<Item>, quote: Quoting)
    ensures items == [] ==> Others(items, quote) == ItemsText(items, quote) == ""
    ensures items != [] ==> Others(items, quote) == "," + ItemsText(items, quote)
  {
    if items != [] {
      assert "," + ItemText(items[0], quote) + Others(items[1..], quote) == "," + (ItemText(items[0], quote) + Others(items[1..], quote));
    }
  }

  // ---------- the theorem ----------

  /** Whether no container with items finds all `depths` levels in use. */
  predicate Survives(j: Json, depths: nat) {
    depths > 0 && FateOf(j, 0, depths).extra == 0
  }

  /** For every tree within the piece limits, however deep: the text is right if and only if the tree
      survives. */
  lemma BuilderIsExact(j: Json, depths: nat, quote: Quoting)
    requires (j.Object? || j.Array?) && Good(Item("", j)) && Bounded(quote) && depths > 0
    ensures Run(New(depths), Calls(Item("", j)), quote).buf == Text(j, quote) <==> Survives(j, depths)
  {
    var s := New(depths);
    ItemMeets(s, Item("", j), quote);
    assert Before(s, ItemText(Item("", j), quote)) == Text(j, quote);
    assert s.buf + Text(j, quote) == Text(j, quote);
  }

  /** The same for well-nested sequences of calls. */
  lemma CallsAreExact(calls: seq<Call>, depths: nat, quote: Quoting)
    requires ReadItem(calls).Some? && ReadItem(calls).value.1 == [] && Bounded(quote) && depths > 0
    requires var i := ReadItem(calls).value.0; i.key == "" && (i.value.Object? || i.value.Array?) && Good(i)
    ensures var j := ReadItem(calls).value.0.value; Run(New(depths), calls, quote).buf == Text(j, quote) <==> Survives(j, depths)
  {
    ItemWasCalled(calls);
    assert calls == Calls(ReadItem(calls).value.0);
    BuilderIsExact(ReadItem(calls).value.0.value, depths, quote);
  }

  // ---------- in terms of height ----------

  /** No container is empty. */
  predicate Filled(j: Json) {
    (j.Object? || j.Array?) ==> j.items != [] && AllFilled(j.items)
  }

  predicate AllFilled(items: seq<Item>) {
    items == [] || (Filled(items[0].value) && AllFilled(items[1..]))
  }

  lemma {:induction false} LowIsRight(j: Json, d: nat, depths: nat)
    requires d + Height(j) < depths
    ensures FateOf(j, d, depths) == Fate(0, d)
    decreases j, 1
  {
    if j.Object? || j.Array? {
      AllLowAreRight(j.items, d + 1, depths);
    }
  }

  lemma {:induction false} AllLowAreRight(items: seq<Item>, d: nat, depths: nat)
    requires d < depths && d + MaxHeight(items) < depths
    ensures FateOfAll(items, d, depths) == Fate(0, d)
    decreases items, 0
  {
    if items != [] {
      LowIsRight(items[0].value, d, depths);
      AllLowAreRight(items[1..], d, depths);
    }
  }

  lemma {:induction false} HighIsWrong(j: Json, d: nat, depths: nat)
    requires d < depths && Filled(j) && d + Height(j) >= depths
    ensures FateOf(j, d, depths).extra > 0
    decreases j, 1
  {
    if (j.Object? || j.Array?) && d + 1 < depths {
      SomeHighIsWrong(j.items, d + 1, depths);
    }
  }

  lemma {:induction false} SomeHighIsWrong(items: seq<Item>, d: nat, depths: nat)
    requires d < depths && AllFilled(items) && d + MaxHeight(items) >= depths
    ensures FateOfAll(items, d, depths).extra > 0
    decreases items, 0
  {
    if d + Height(items[0].value) >= depths {
      HighIsWrong(items[0].value, d, depths);
    } else {
      LowIsRight(items[0].value, d, depths);
      SomeHighIsWrong(items[1..], d, depths);
    }
  }

  /** Any tree lower than the number of levels survives; and of the trees without empty containers
      only those do. */
  lemma HeightDecides(j: Json, depths: nat)
    requires depths > 0
    ensures Height(j) < depths ==> Survives(j, depths)
    ensures Filled(j) ==> (Survives(j, depths) <==> Height(j) < depths)
  {
    if Height(j) < depths {
      LowIsRight(j, 0, depths);
    } else if Filled(j) {
      HighIsWrong(j, 0, depths);
    }
  }

  /** An empty container needs no level of its own. */
  lemma EmptySurvives()
    ensures Height(Object([])) == 1 && Survives(Object([]), 1)
  {
  }
}
