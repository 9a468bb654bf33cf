/** The rows that sms_get_list asks SQLite for, and what it reads out of them. */
module SmsText {
  import opened Basics
  import opened CStrings
  import Url = UrlText

  const FieldCount := 5

  datatype Message = Message(id: int, sender: string, content: string, timestamp: int, isRead: int)

  // ---------- printing ----------

  function Digits(n: nat): (r: string)
    ensures r != "" && forall i :: 0 <= i < |r| ==> '0' <= r[i] <= '9'
  {
    (if n < 10 then "" else Digits(n / 10)) + [(n % 10 + '0' as int) as char]
  }

  function Decimal(n: int): (r: string)
    ensures r != "" && forall i :: 0 <= i < |r| ==> '0' <= r[i] <= '9' || r[i] == '-'
  {
    if n < 0 then "-" + Digits(-n) else Digits(n)
  }

  /** hex() of SQLite. */
  function Hex(s: string): string
    requires Url.Bytes(s)
  {
    if s == "" then "" else [Url.HexDigit(s[0] as int / 16), Url.HexDigit(s[0] as int % 16)] + Hex(s[1..])
  }

  function Line(m: Message): string
    requires Url.Bytes(m.content)
  {
    JoinFields([Decimal(m.id), m.sender, Hex(m.content), Decimal(m.timestamp), Decimal(m.isRead)])
  }

  /** With a separator between any two. */
  function JoinFields(fields: seq<string>): string {
    if fields == [] then "" else fields[0] + (if |fields| == 1 then "" else "|" + JoinFields(fields[1..]))
  }

  predicate Sendable(m: Message) {
    Url.Bytes(m.content) && '|' !in m.sender && '\n' !in m.sender && NoNul(m.sender)
  }

  predicate AllSendable(rows: seq<Message>) {
    forall i :: 0 <= i < |rows| ==> Sendable(rows[i])
  }

  function Lines(rows: seq<Message>): (r: seq<string>)
    requires AllSendable(rows)
    ensures |r| == |rows| && forall i :: 0 <= i < |r| ==> r[i] == Line(rows[i])
  {
    seq(|rows|, i requires 0 <= i < |rows| => Line(rows[i]))
  }

  /** One row a line; the newline after the last one is already gone. */
  function Join(lines: seq<string>): string {
    if lines == [] then "" else lines[0] + (if |lines| == 1 then "" else "\n" + Join(lines[1..]))
  }

  function Output(rows: seq<Message>): string
    requires AllSendable(rows)
  {
    Join(Lines(rows))
  }

  // ---------- reading ----------

  /** The first `c` in `s`, or the length. */
  function Find(s: string, c: char): (n: nat)
    ensures n <= |s| && (n < |s| ==> s[n] == c)
  {
    if s == "" || s[0] == c then 0 else 1 + Find(s[1..], c)
  }

  /** The first `limit` fields. */
  function Fields(s: string, limit: nat): (r: seq<string>)
    ensures |r| <= limit
  {
    var n := Find(s, '|');
    if limit == 0 then [] else if n == |s| then [s] else [s[..n]] + Fields(s[n + 1..], limit - 1)
  }

  function DigitsValue(n: int, s: string): int
    decreases |s|
  {
    if s == "" || !('0' <= s[0] <= '9') then n else DigitsValue(10 * n + (s[0] as int - '0' as int), s[1..])
  }

  /** atoi and atol. */
  function Value(s: string): int {
    if s == "" then 0
    else if s[0] == ' ' then Value(s[1..])
    else if s[0] == '-' then -DigitsValue(0, s[1..])
    else if s[0] == '+' then DigitsValue(0, s[1..])
    else DigitsValue(0, s)
  }

  function Nibble(c: char): Option<int> {
    if '0' <= c <= '9' then Some(c as int - '0' as int)
    else if 'A' <= c <= 'F' then Some(c as int - 'A' as int + 10)
    else if 'a' <= c <= 'f' then Some(c as int - 'a' as int + 10)
    else None
  }

  /** sscanf of "%2x". */
  function HexByte(s: string): (r: Option<int>)
    ensures r.Some? ==> 0 <= r.value < 256
  {
    if s == "" || Nibble(s[0]).None? then None
    else if |s| == 1 || Nibble(s[1]).None? then Nibble(s[0])
    else Some(16 * Nibble(s[0]).value + Nibble(s[1]).value)
  }

  /** hex_decode into `room` characters and a terminator. */
  function HexDecode(s: string, room: nat): (r: string)
    ensures |r| <= room
    decreases |s|
  {
    if s == "" || room == 0 || HexByte(s).None? then ""
    else [HexByte(s).value as char] + HexDecode(if |s| < 2 then "" else s[2..], room - 1)
  }

  /** The sizes of the buffers of SmsMessage. */
  datatype Sizes = Sizes(sender: nat, content: nat)

  function ReadFields(f: seq<string>, sizes: Sizes): Message
    requires |f| == FieldCount && sizes.sender > 0 && sizes.content > 0
  {
    Message(Value(f[0]), Cut(f[1], sizes.sender), HexDecode(f[2], sizes.content - 1), Value(f[3]), Value(f[4]))
  }

  /** Empty lines and lines with fewer than five fields give nothing. */
  function ReadLine(line: string, sizes: Sizes): seq<Message>
    requires sizes.sender > 0 && sizes.content > 0
  {
    var f := Fields(line, FieldCount);
    if line != "" && |f| == FieldCount then [ReadFields(f, sizes)] else []
  }

  function AfterLine(s: string): (r: string)
    ensures s != "" ==> |r| < |s|
  {
    var n := Find(s, '\n');
    if n == |s| then "" else s[n + 1..]
  }

  /** What a line gives: a message or nothing. */
  type Reader = string -> seq<Message>

  function ReadLines(s: string, max: nat, read: Reader): seq<Message>
    decreases |s|
  {
    if s == "" || max == 0 then []
    else
      var m := read(s[..Find(s, '\n')]);
      m + ReadLines(AfterLine(s), if max < |m| then 0 else max - |m|, read)
  }

  function ReadAll(s: string, max: nat, sizes: Sizes): seq<Message>
    requires sizes.sender > 0 && sizes.content > 0
  {
    ReadLines(s, max, line => ReadLine(line, sizes))
  }

  // ---------- the round trip ----------

  lemma {:induction false} FindIn(x: string, c: char, s: string)
    requires c !in x && (s == "" || s[0] == c)
    ensures Find(x + s, c) == |x|
  {
    if x == "" {
      assert x + s == s;
    } else {
      assert (x + s)[1..] == x[1..] + s;
      FindIn(x[1..], c, s);
    }
  }

  lemma FieldsOf(x: string, s: string, limit: nat)
    requires '|' !in x && limit > 0
    ensures Fields(x + ("|" + s), limit) == [x] + Fields(s, limit - 1)
  {
    var all := x + ("|" + s);
    FindIn(x, '|', "|" + s);
    assert all[..|x|] == x && all[|x| + 1..] == s;
  }

  lemma LastField(x: string, limit: nat)
    requires '|' !in x && limit > 0
    ensures Fields(x, limit) == [x]
  {
    FindIn(x, '|', "");
    assert x + "" == x;
  }

  lemma FieldsThen(x: string, s: string, limit: nat, later: seq<string>)
    requires '|' !in x && limit > 0 && Fields(s, limit - 1) == later
    ensures Fields(x + ("|" + s), limit) == [x] + later
  {
    FieldsOf(x, s, limit);
  }

  lemma {:induction false} FieldsOfJoin(fields: seq<string>, limit: nat)
    requires 0 < |fields| <= limit && forall i :: 0 <= i < |fields| ==> '|' !in fields[i]
    ensures Fields(JoinFields(fields), limit) == fields
  {
    var x, later := fields[0], fields[1..];
    if later == [] {
      LastField(x, limit);
      assert x + "" == x;
    } else {
      FieldsOfJoin(later, limit - 1);
      FieldsThen(x, JoinFields(later), limit, later);
      assert JoinFields(fields) == x + ("|" + JoinFields(later));
    }
  }

  lemma {:induction false} JoinLacks(fields: seq<string>, c: char)
    requires c != '|' && forall i :: 0 <= i < |fields| ==> c !in fields[i]
    ensures c !in JoinFields(fields)
  {
    if fields != [] {
      JoinLacks(fields[1..], c);
    }
  }

  lemma {:induction false} DigitsValueSnoc(n: int, s: string, d: char)
    requires '0' <= d <= '9' && forall i :: 0 <= i < |s| ==> '0' <= s[i] <= '9'
    ensures DigitsValue(n, s + [d]) == 10 * DigitsValue(n, s) + (d as int - '0' as int)
    decreases |s|
  {
    if s == "" {
      assert s + [d] == [d];
    } else {
      assert (s + [d])[1..] == s[1..] + [d];
      DigitsValueSnoc(10 * n + (s[0] as int - '0' as int), s[1..], d);
    }
  }

  lemma {:induction false} DigitsAreRead(n: nat)
    ensures DigitsValue(0, Digits(n)) == n
  {
    var d := (n % 10 + '0' as int) as char;
    if n < 10 {
      DigitsValueSnoc(0, "", d);
    } else {
      DigitsAreRead(n / 10);
      DigitsValueSnoc(0, Digits(n / 10), d);
    }
  }

  lemma DecimalIsRead(n: int)
    ensures Value(Decimal(n)) == n
  {
    if n < 0 {
      DigitsAreRead(-n);
      assert Decimal(n)[1..] == Digits(-n);
    } else {
      DigitsAreRead(n);
    }
  }

  /** A number prints with a sign exactly if it is negative, and without leading zeros. */
  lemma DecimalLooks(n: int)
    ensures Decimal(n)[0] == '-' <==> n < 0
    ensures n > 0 ==> Decimal(n)[0] != '0'
    ensures Decimal(0) == "0"
  {
    if n > 0 {
      FirstDigit(n);
    }
  }

  lemma {:induction false} FirstDigit(n: nat)
    requires n > 0
    ensures Digits(n)[0] != '0'
  {
    if n >= 10 {
      FirstDigit(n / 10);
    }
  }

  /** Blanks before a number and a sign are read as atoi does. */
  lemma SignedIsRead(n: int, s: string)
    requires n >= 0
    ensures Value("+" + Digits(n)) == n && Value("-" + Digits(n)) == -n && Value(Digits(n)) == n
    ensures Value(" " + s) == Value(s)
  {
    DigitsAreRead(n);
    assert ("+" + Digits(n))[1..] == Digits(n) && ("-" + Digits(n))[1..] == Digits(n) && (" " + s)[1..] == s;
  }

  /** A digit of a byte is read in both cases, and nothing else is. */
  lemma NibbleIs(c: char)
    ensures Nibble(c) ==
      if c in "0123456789" then Some(c as int - 48) else if c in "ABCDEF" then Some(c as int - 55)
      else if c in "abcdef" then Some(c as int - 87) else None
  {
    OneOf("0123456789", '0', '9', c);
    OneOf("ABCDEF", 'A', 'F', c);
    OneOf("abcdef", 'a', 'f', c);
  }

  lemma OneOf(s: string, first: char, last: char, c: char)
    requires |s| == last as int - first as int + 1 && forall i :: 0 <= i < |s| ==> s[i] as int == first as int + i
    ensures c in s <==> first <= c <= last
  {
    if first <= c <= last {
      assert s[c as int - first as int] == c;
    }
  }

  lemma ByteIsRead(c: char, later: string)
    requires Url.Byte(c)
    ensures var h := [Url.HexDigit(c as int / 16), Url.HexDigit(c as int % 16)] + later;
      HexByte(h) == Some(c as int) && h[2..] == later
  {
    var h := [Url.HexDigit(c as int / 16), Url.HexDigit(c as int % 16)] + later;
    assert Nibble(h[0]) == Some(c as int / 16) && Nibble(h[1]) == Some(c as int % 16);
  }

  lemma HexStep(c: char, later: string, room: nat)
    requires Url.Byte(c) && room > 0
    ensures HexDecode([Url.HexDigit(c as int / 16), Url.HexDigit(c as int % 16)] + later, room) == [c] + HexDecode(later, room - 1)
  {
    ByteIsRead(c, later);
  }

  lemma CutStep(s: string, size: nat)
    requires s != "" && size > 0
    ensures [s[0]] + Cut(s[1..], size) == Cut(s, size + 1)
  {
  }

  lemma {:induction false} HexIsRead(s: string, room: nat)
    requires Url.Bytes(s)
    ensures HexDecode(Hex(s), room) == Cut(s, room + 1)
  {
    if s != "" && room > 0 {
      HexTurn(s, room);
      HexIsRead(s[1..], room - 1);
      CutStep(s, room);
    }
  }

  lemma HexTurn(s: string, room: nat)
    requires Url.Bytes(s) && s != "" && room > 0
    ensures HexDecode(Hex(s), room) == [s[0]] + HexDecode(Hex(s[1..]), room - 1)
  {
    HexStep(s[0], Hex(s[1..]), room);
  }

  lemma {:induction false} HexLacks(s: string, c: char)
    requires Url.Bytes(s) && Nibble(c).None?
    ensures c !in Hex(s)
  {
    if s != "" {
      HexLacks(s[1..], c);
      assert Nibble(Url.HexDigit(s[0] as int / 16)).Some? && Nibble(Url.HexDigit(s[0] as int % 16)).Some?;
    }
  }

  /** What the caller gets of a row. */
  function Received(m: Message, sizes: Sizes): Message
    requires sizes.sender > 0 && sizes.content > 0
  {
    m.(sender := Cut(m.sender, sizes.sender), content := Cut(m.content, sizes.content))
  }

  function Printed(m: Message): (r: seq<string>)
    requires Url.Bytes(m.content)
    ensures |r| == FieldCount && Line(m) == JoinFields(r)
  {
    [Decimal(m.id), m.sender, Hex(m.content), Decimal(m.timestamp), Decimal(m.isRead)]
  }

  lemma PrintedLacks(m: Message, c: char)
    requires Url.Bytes(m.content) && Nibble(c).None? && c != '-' && c !in m.sender
    ensures forall i :: 0 <= i < FieldCount ==> c !in Printed(m)[i]
  {
    HexLacks(m.content, c);
  }

  lemma ReadLineIs(line: string, fields: seq<string>, sizes: Sizes)
    requires line != "" && Fields(line, FieldCount) == fields && |fields| == FieldCount
    requires sizes.sender > 0 && sizes.content > 0
    ensures ReadLine(line, sizes) == [ReadFields(fields, sizes)]
  {
  }

  lemma PrintedIsRead(m: Message, sizes: Sizes)
    requires Url.Bytes(m.content) && sizes.sender > 0 && sizes.content > 0
    ensures ReadFields(Printed(m), sizes) == Received(m, sizes)
  {
    DecimalIsRead(m.id);
    DecimalIsRead(m.timestamp);
    DecimalIsRead(m.isRead);
    HexIsRead(m.content, sizes.content - 1);
  }

  lemma LineIsRead(m: Message, sizes: Sizes)
    requires Url.Bytes(m.content) && '|' !in m.sender && sizes.sender > 0 && sizes.content > 0
    ensures ReadLine(Line(m), sizes) == [Received(m, sizes)]
  {
    PrintedLacks(m, '|');
    FieldsOfJoin(Printed(m), FieldCount);
    LineHasText(m);
    ReadLineIs(Line(m), Printed(m), sizes);
    PrintedIsRead(m, sizes);
  }

  lemma LineHasText(m: Message)
    requires Url.Bytes(m.content)
    ensures Line(m) != ""
  {
    assert JoinFields(Printed(m)) == Printed(m)[0] + ("|" + JoinFields(Printed(m)[1..]));
  }

  lemma LineHasNoEnd(m: Message)
    requires Sendable(m)
    ensures Line(m) != "" && '\n' !in Line(m) && NoNul(Line(m))
  {
    PrintedLacks(m, '\n');
    JoinLacks(Printed(m), '\n');
    PrintedLacks(m, '\0');
    JoinLacks(Printed(m), '\0');
  }

  function AllReceived(rows: seq<Message>, sizes: Sizes): (r: seq<Message>)
    requires sizes.sender > 0 && sizes.content > 0
    ensures |r| == |rows| && forall i :: 0 <= i < |r| ==> r[i] == Received(rows[i], sizes)
  {
    seq(|rows|, i requires 0 <= i < |rows| => Received(rows[i], sizes))
  }

  /** The first of the lines, and the rest. */
  lemma JoinStep(lines: seq<string>)
    requires lines != [] && lines[0] != "" && '\n' !in lines[0]
    ensures var s := Join(lines); s != "" && s[..Find(s, '\n')] == lines[0] && AfterLine(s) == Join(lines[1..])
  {
    if |lines| == 1 {
      FirstLine(lines[0], "");
    } else {
      FirstLine(lines[0], "\n" + Join(lines[1..]));
      assert ("\n" + Join(lines[1..]))[1..] == Join(lines[1..]);
    }
  }

  predicate Readable(lines: seq<string>, messages: seq<Message>, read: Reader) {
    && |lines| == |messages|
    && forall i :: 0 <= i < |lines| ==> lines[i] != "" && '\n' !in lines[i] && read(lines[i]) == [messages[i]]
  }

  lemma ReadStep(lines: seq<string>, messages: seq<Message>, max: nat, read: Reader)
    requires Readable(lines, messages, read) && lines != [] && max > 0
    ensures Readable(lines[1..], messages[1..], read)
    ensures ReadLines(Join(lines), max, read) == [messages[0]] + ReadLines(Join(lines[1..]), max - 1, read)
  {
    JoinStep(lines);
  }

  lemma {:induction false} LinesAreRead(lines: seq<string>, messages: seq<Message>, max: nat, read: Reader)
    requires Readable(lines, messages, read)
    ensures ReadLines(Join(lines), max, read) == First(messages, max)
  {
    if lines != [] && max > 0 {
      ReadStep(lines, messages, max, read);
      LinesAreRead(lines[1..], messages[1..], max - 1, read);
      FirstStep(messages, max);
    }
  }

  lemma FirstStep(messages: seq<Message>, max: nat)
    requires messages != [] && max > 0
    ensures First(messages, max) == [messages[0]] + First(messages[1..], max - 1)
  {
  }

  /** Whatever bytes the messages hold, separators and newlines among them, the rows come back in
      order, cut to the buffers of SmsMessage, up to the number the caller has room for. */
  lemma RowsAreRead(rows: seq<Message>, max: nat, sizes: Sizes)
    requires AllSendable(rows) && sizes.sender > 0 && sizes.content > 0
    ensures ReadAll(Output(rows), max, sizes) == First(AllReceived(rows, sizes), max)
  {
    var read: Reader := line => ReadLine(line, sizes);
    var lines := Lines(rows);
    forall i | 0 <= i < |rows|
      ensures lines[i] != "" && '\n' !in lines[i] && read(lines[i]) == [Received(rows[i], sizes)]
    {
      LineIsRead(rows[i], sizes);
      LineHasNoEnd(rows[i]);
    }
    LinesAreRead(lines, AllReceived(rows, sizes), max, read);
  }

  lemma FirstLine(x: string, s: string)
    requires '\n' !in x && (s == "" || s[0] == '\n')
    ensures (x + s)[..Find(x + s, '\n')] == x
    ensures AfterLine(x + s) == if s == "" then "" else s[1..]
  {
    FindIn(x, '\n', s);
    assert s != "" ==> (x + s)[|x| + 1..] == s[1..];
  }

  /** A message whose sender fits its buffer comes back in its line if and only if the sender has no
      separator. */
  lemma SenderDecides(m: Message, sizes: Sizes)
    requires Url.Bytes(m.content) && |m.sender| < sizes.sender && sizes.content > 0
    ensures ReadLine(Line(m), sizes) == [Received(m, sizes)] <==> '|' !in m.sender
  {
    if '|' in m.sender {
      var n := Find(m.sender, '|');
      FindHits(m.sender, '|');
      SenderShifts(m, m.sender[..n], m.sender[n + 1..]);
      assert m.sender == m.sender[..n] + ("|" + m.sender[n + 1..]);
      ReadsSecond(m, sizes, m.sender[..n]);
      assert Received(m, sizes).sender == m.sender;
    } else {
      LineIsRead(m, sizes);
    }
  }

  lemma ReadsSecond(m: Message, sizes: Sizes, second: string)
    requires Url.Bytes(m.content) && |second| < sizes.sender && sizes.content > 0
    requires var f := Fields(Line(m), FieldCount); |f| >= 2 && f[1] == second
    ensures ReadLine(Line(m), sizes) == [] || ReadLine(Line(m), sizes)[0].sender == second
  {
  }

  lemma {:induction false} FindHits(s: string, c: char)
    requires c in s
    ensures Find(s, c) < |s| && c !in s[..Find(s, c)]
  {
    if s[0] != c {
      FindHits(s[1..], c);
      assert s[..Find(s, c)] == [s[0]] + s[1..][..Find(s[1..], c)];
    }
  }

  /** A separator in the sender shifts the fields: the second is what comes before it. */
  lemma SenderShifts(m: Message, a: string, b: string)
    requires Url.Bytes(m.content) && m.sender == a + ("|" + b) && '|' !in a
    ensures var f := Fields(Line(m), FieldCount); |f| >= 2 && f[1] == a
  {
    var later := JoinFields(Printed(m)[2..]);
    JoinTwo(Printed(m));
    SenderSplits(a, b, later);
    SecondField(Decimal(m.id), a, b + ("|" + later), FieldCount);
  }

  lemma SecondField(x: string, y: string, s: string, limit: nat)
    requires '|' !in x && '|' !in y && limit >= 2
    ensures var f := Fields(x + ("|" + (y + ("|" + s))), limit); |f| >= 2 && f[1] == y
  {
    FieldsOf(x, y + ("|" + s), limit);
    FieldsOf(y, s, limit - 1);
  }

  lemma JoinTwo(fields: seq<string>)
    requires |fields| > 2
    ensures JoinFields(fields) == fields[0] + ("|" + (fields[1] + ("|" + JoinFields(fields[2..]))))
  {
    assert fields[1..][1..] == fields[2..];
  }

  lemma SenderSplits(a: string, b: string, rest: string)
    ensures a + ("|" + b) + ("|" + rest) == a + ("|" + (b + ("|" + rest)))
  {
  }
}
