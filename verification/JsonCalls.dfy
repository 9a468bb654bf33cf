/** Which sequences of builder calls are well nested, and the tree each of them builds. */
module JsonCalls {
  import opened Basics
  import opened JsonText
  import opened JsonRuns

  /** The item that a call adds by itself.  The call must have a key exactly if it is one for
      members, and a keyed call with an empty key would write an empty name. */
  function Single(c: Call): Option<Item> {
    match c
    case AddStr(key, value) => if key == "" then None else Some(Item(key, Str(value)))
    case AddNumber(key, text) => if key == "" then None else Some(Item(key, Number(text)))
    case AddBool(key, b) => if key == "" then None else Some(Item(key, Bool(b)))
    case AddNull(key) => if key == "" then None else Some(Item(key, Null))
    case AddRaw(key, text) => Some(Item(key, Raw(text)))
    case AddElementStr(value) => Some(Item("", Str(value)))
    case AddElementNumber(text) => Some(Item("", Number(text)))
    case AddElementBool(b) => Some(Item("", Bool(b)))
    case _ => None
  }

  predicate Opens(c: Call) {
    c.OpenObject? || (c.OpenKeyObject? && c.key != "") || c.OpenArray?
  }

  function KeyOf(c: Call): string {
    if c.OpenObject? then "" else if c.OpenKeyObject? || c.OpenArray? then c.key else ""
  }

  /** The first item of the sequence and the calls after it, if it is nested properly. */
  function ReadItem(calls: seq<Call>): (r: Option<(Item, seq<Call>)>)
    ensures r.Some? ==> |r.value.1| < |calls|
    decreases |calls|, 0
  {
    if calls == [] then None
    else if Opens(calls[0]) then
      var (items, rest) := ReadItems(calls[1..]);
      var isArray := calls[0].OpenArray?;
      if rest == [] || rest[0] != (if isArray then CloseArray else CloseObject) then None
      else Some((Item(KeyOf(calls[0]), if isArray then Array(items) else Object(items)), rest[1..]))
    else if Single(calls[0]).Some? then Some((Single(calls[0]).value, calls[1..]))
    else None
  }

  /** As many items as there are, and the calls after them. */
  function ReadItems(calls: seq<Call>): (r: (seq<Item>, seq<Call>))
    ensures |r.1| <= |calls|
    decreases |calls|, 1
  {
    var first := ReadItem(calls);
    if first.None? then ([], calls)
    else
      var (later, rest) := ReadItems(first.value.1);
      ([first.value.0] + later, rest)
  }

  /** What is read is what was called. */
  lemma {:induction false} ItemWasCalled(calls: seq<Call>)
    requires ReadItem(calls).Some?
    ensures var (i, rest) := ReadItem(calls).value; calls == Calls(i) + rest
    decreases |calls|, 0
  {
    var c := calls[0];
    assert calls == [c] + calls[1..];
    if Opens(c) {
      var (items, rest) := ReadItems(calls[1..]);
      ItemsWereCalled(calls[1..]);
      assert rest == [rest[0]] + rest[1..];
      assert [c] + (AllCalls(items) + ([rest[0]] + rest[1..])) == [c] + AllCalls(items) + [rest[0]] + rest[1..];
    }
  }

  lemma {:induction false} ItemsWereCalled(calls: seq<Call>)
    ensures var (items, rest) := ReadItems(calls); calls == AllCalls(items) + rest
    decreases |calls|, 1
  {
    var first := ReadItem(calls);
    if first.None? {
      assert calls == [] + calls;
    } else {
      var (i, rest) := first.value;
      ItemWasCalled(calls);
      ItemsWereCalled(rest);
      var (later, rest') := ReadItems(rest);
      assert ([i] + later)[1..] == later;
      Regroup(Calls(i), AllCalls(later), rest');
    }
  }

  /** Any well-nested sequence of calls within the limits writes the text of the tree it builds. */
  lemma CallsSerialise(calls: seq<Call>, depths: nat, quote: Quoting)
    requires ReadItem(calls).Some? && ReadItem(calls).value.1 == []
    requires var i := ReadItem(calls).value.0;
      i.key == "" && (i.value.Object? || i.value.Array?) && Good(i) && Height(i.value) < depths
    requires Bounded(quote)
    ensures Run(New(depths), calls, quote).buf == Text(ReadItem(calls).value.0.value, quote)
  {
    var i := ReadItem(calls).value.0;
    ItemWasCalled(calls);
    assert calls == Calls(i);
    BuilderSerialises(i.value, depths, quote);
  }

  /** The only trees that are read back differently are those with null in an array, which is
      written as raw text. */
  predicate Distinguished(i: Item) {
    match i.value
    case Object(items) => AllDistinguished(items)
    case Array(items) => AllDistinguished(items)
    case Null => i.key != ""
    case _ => true
  }

  predicate AllDistinguished(items: seq<Item>) {
    items == [] || (Distinguished(items[0]) && AllDistinguished(items[1..]))
  }

  lemma {:induction false} CallsAreRead(i: Item, rest: seq<Call>)
    requires Distinguished(i)
    ensures ReadItem(Calls(i) + rest) == Some((i, rest))
    decreases i, 0
  {
    var calls := Calls(i) + rest;
    if i.value.Object? || i.value.Array? {
      var items, open, close := i.value.items, Calls(i)[0], if i.value.Array? then CloseArray else CloseObject;
      assert calls == [open] + (AllCalls(items) + ([close] + rest));
      assert calls[1..] == AllCalls(items) + ([close] + rest);
      AllCallsAreRead(items, [close] + rest);
      assert ([close] + rest)[1..] == rest;
    } else {
      assert calls[1..] == rest;
    }
  }

  lemma {:induction false} AllCallsAreRead(items: seq<Item>, rest: seq<Call>)
    requires AllDistinguished(items) && rest != [] && (rest[0].CloseObject? || rest[0].CloseArray?)
    ensures ReadItems(AllCalls(items) + rest) == (items, rest)
    decreases items, 1
  {
    if items == [] {
      assert [] + rest == rest;
    } else {
      assert Calls(items[0]) + AllCalls(items[1..]) + rest == Calls(items[0]) + (AllCalls(items[1..]) + rest);
      CallsAreRead(items[0], AllCalls(items[1..]) + rest);
      AllCallsAreRead(items[1..], rest);
      assert [items[0]] + items[1..] == items;
    }
  }
}
