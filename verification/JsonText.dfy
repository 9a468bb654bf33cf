/** What json_builder.c writes: the calls as steps on a buffer and a stack of first-child flags,
    and the text they should add up to (sections 4 and 5 of RFC 8259, without white space). */
module JsonText {
  /** A piece that vsnprintf formats is dropped unless it is shorter than this. */
  const PieceSize := 4096
  const KeySize := 256

  /** Numbers and raw values carry the text that printf or the caller gives. */
  datatype Json =
    | Object(items: seq<Item>)
    | Array(items: seq<Item>)
    | Str(value: string)
    | Number(text: string)
    | Bool(b: bool)
    | Null
    | Raw(text: string)

  /** A member of an object, or an element of an array, which has no key. */
  datatype Item = Item(key: string, value: Json)

  /** How a string value is quoted and escaped. */
  type Quoting = string -> string

  ghost predicate Bounded(quote: Quoting) {
    forall s :: 2 <= |quote(s)| <= 6 * |s| + 2
  }

  // ---------- the text ----------

  function Label(key: string): string {
    if key == "" then "" else "\"" + key + "\":"
  }

  function Text(j: Json, quote: Quoting): string {
    match j
    case Object(items) => "{" + ItemsText(items, quote) + "}"
    case Array(items) => "[" + ItemsText(items, quote) + "]"
    case Str(value) => quote(value)
    case Number(text) => text
    case Bool(b) => if b then "true" else "false"
    case Null => "null"
    case Raw(text) => text
  }

  function ItemsText(items: seq<Item>, quote: Quoting): string {
    if items == [] then ""
    else ItemText(items[0], quote) + Others(items[1..], quote)
  }

  /** The items after the first, each with a comma before it. */
  function Others(items: seq<Item>, quote: Quoting): string {
    if items == [] then "" else "," + ItemText(items[0], quote) + Others(items[1..], quote)
  }

  function ItemText(i: Item, quote: Quoting): string {
    Label(i.key) + Text(i.value, quote)
  }

  // ---------- the calls ----------

  /** An empty key stands for NULL as well.  OpenObject is json_obj_open and json_arr_obj_open,
      which do the same. */
  datatype Call =
    | OpenObject
    | OpenKeyObject(key: string)
    | OpenArray(key: string)
    | CloseObject
    | CloseArray
    | AddStr(key: string, value: string)
    | AddNumber(key: string, text: string)
    | AddBool(key: string, b: bool)
    | AddNull(key: string)
    | AddRaw(key: string, text: string)
    | AddElementStr(value: string)
    | AddElementNumber(text: string)
    | AddElementBool(b: bool)

  function Calls(i: Item): seq<Call> {
    var key := i.key;
    match i.value
    case Object(items) => [if key == "" then OpenObject else OpenKeyObject(key)] + AllCalls(items) + [CloseObject]
    case Array(items) => [OpenArray(key)] + AllCalls(items) + [CloseArray]
    case Str(value) => [if key == "" then AddElementStr(value) else AddStr(key, value)]
    case Number(text) => [if key == "" then AddElementNumber(text) else AddNumber(key, text)]
    case Bool(b) => [if key == "" then AddElementBool(b) else AddBool(key, b)]
    case Null => [if key == "" then AddRaw("", "null") else AddNull(key)]
    case Raw(text) => [AddRaw(key, text)]
  }

  function AllCalls(items: seq<Item>): seq<Call> {
    if items == [] then [] else Calls(items[0]) + AllCalls(items[1..])
  }

  // ---------- the builder ----------

  datatype State = State(buf: string, first: seq<bool>, depth: nat)

  predicate Valid(s: State) {
    s.depth < |s.first|
  }

  function Comma(s: State): State
    requires Valid(s)
  {
    s.(buf := if s.first[s.depth] then s.buf else s.buf + ",", first := s.first[s.depth := false])
  }

  function Append(s: State, text: string): State {
    s.(buf := s.buf + text)
  }

  /** json_appendf. */
  function AppendPiece(s: State, text: string): State {
    if 0 < |text| < PieceSize then Append(s, text) else s
  }

  function Push(s: State): State
    requires Valid(s)
  {
    if s.depth < |s.first| - 1 then s.(depth := s.depth + 1, first := s.first[s.depth + 1 := true]) else s
  }

  function Pop(s: State): State {
    if s.depth > 0 then s.(depth := s.depth - 1) else s
  }

  function Quoted(key: string): string {
    "\"" + key + "\":"
  }

  /** snprintf into the key buffer of json_add_raw. */
  function KeyPart(key: string): string {
    if |Quoted(key)| < KeySize then Quoted(key) else Quoted(key)[..KeySize - 1]
  }

  function WriteRaw(s: State, key: string, text: string): State {
    if key == "" then Append(s, text)
    else if |key| + |text| + 8 <= PieceSize then AppendPiece(s, Quoted(key) + text)
    else Append(Append(s, KeyPart(key)), text)
  }

  function Step(s: State, c: Call, quote: Quoting): (s': State)
    requires Valid(s)
    ensures Valid(s')
  {
    var t := Comma(s);
    match c
    case OpenObject => Push(Append(t, "{"))
    case OpenKeyObject(key) => Push(AppendPiece(t, Quoted(key) + "{"))
    case OpenArray(key) => Push(if key == "" then Append(t, "[") else AppendPiece(t, Quoted(key) + "["))
    case CloseObject => Pop(Append(s, "}"))
    case CloseArray => Pop(Append(s, "]"))
    case AddStr(key, value) => Append(t, Quoted(key) + quote(value))
    case AddNumber(key, text) => AppendPiece(t, Quoted(key) + text)
    case AddBool(key, b) => AppendPiece(t, Quoted(key) + if b then "true" else "false")
    case AddNull(key) => AppendPiece(t, Quoted(key) + "null")
    case AddRaw(key, text) => WriteRaw(t, key, text)
    case AddElementStr(value) => Append(t, quote(value))
    case AddElementNumber(text) => AppendPiece(t, text)
    case AddElementBool(b) => Append(t, if b then "true" else "false")
  }

  function Run(s: State, calls: seq<Call>, quote: Quoting): (s': State)
    requires Valid(s)
    ensures Valid(s')
    decreases |calls|
  {
    if calls == [] then s else Run(Step(s, calls[0], quote), calls[1..], quote)
  }

  function New(depths: nat): State {
    State("", seq(depths, _ => true), 0)
  }

  // ---------- what fits ----------

  function Height(j: Json): nat {
    match j
    case Object(items) => 1 + MaxHeight(items)
    case Array(items) => 1 + MaxHeight(items)
    case _ => 0
  }

  function MaxHeight(items: seq<Item>): nat {
    if items == [] then 0
    else
      var h, rest := Height(items[0].value), MaxHeight(items[1..]);
      if h < rest then rest else h
  }

  /** The piece that is printed for a key and `n` characters more is not too long. */
  predicate Prints(key: string, n: nat) {
    key == "" || |Quoted(key)| + n < PieceSize
  }

  /** Members have keys, elements have none, and no piece is too long to be formatted. */
  predicate Good(i: Item) {
    match i.value
    case Object(items) => Prints(i.key, 1) && AllGood(items) && forall k :: 0 <= k < |items| ==> items[k].key != ""
    case Array(items) => Prints(i.key, 1) && AllGood(items) && forall k :: 0 <= k < |items| ==> items[k].key == ""
    case Number(text) => text != "" && if i.key == "" then |text| < PieceSize else Prints(i.key, |text|)
    case Raw(text) => i.key == "" || |i.key| + |text| + 8 <= PieceSize || |Quoted(i.key)| < KeySize
    case Bool(b) => Prints(i.key, if b then 4 else 5)
    case Null => Prints(i.key, 4)
    case Str(_) => true
  }

  predicate AllGood(items: seq<Item>) {
    items == [] || (Good(items[0]) && AllGood(items[1..]))
  }
}
