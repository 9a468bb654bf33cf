/** The loop of sms_get_list: it splits its buffer into lines and fields in place. */
module SmsParser {
  import opened Basics
  import opened CStrings
  import opened SmsText

  /** The C string at a position. */
  method StringFrom(a: array<char>, start: nat, ghost text: string) returns (r: string)
    requires StringAt(a, start, text)
    ensures r == text
  {
    var i := start;
    while a[i] != '\0'
      invariant start <= i <= start + |text|
      decreases start + |text| - i
    {
      i := i + 1;
    }
    r := a[start..i];
  }

  /** hex_decode. */
  method HexDecodeInto(hex: string, out: array<char>) returns (j: nat)
    requires out.Length > 0
    modifies out
    ensures j < out.Length && out[..j] == HexDecode(hex, out.Length - 1) && out[j] == '\0'
  {
    var i := 0;
    j := 0;
    assert hex[0..] == hex;
    while i < |hex| && j < out.Length - 1
      invariant j < out.Length
      invariant HexDecode(hex, out.Length - 1)
             == out[..j] + HexDecode(if i < |hex| then hex[i..] else "", out.Length - 1 - j)
      decreases |hex| - i
    {
      var byte := HexByte(hex[i..]);
      if byte.None? {
        break;
      }
      HexStep(hex, i, out.Length - 1 - j);
      Regroup(out[..j], [byte.value as char], HexDecode(if i + 2 < |hex| then hex[i + 2..] else "", out.Length - 2 - j));
      out[j] := byte.value as char;
      j := j + 1;
      assert out[..j] == out[..j - 1] + [byte.value as char];
      i := i + 2;
    }
    out[j] := '\0';
  }

  lemma HexStep(hex: string, i: nat, room: nat)
    requires i < |hex| && room > 0 && HexByte(hex[i..]).Some?
    ensures HexDecode(hex[i..], room)
         == [HexByte(hex[i..]).value as char] + HexDecode(if i + 2 < |hex| then hex[i + 2..] else "", room - 1)
  {
    assert |hex[i..]| >= 2 ==> hex[i..][2..] == hex[i + 2..];
    assert i + 2 == |hex| ==> hex[i + 2..] == "";
  }

  // ---------- one line ----------

  lemma {:induction false} FindIs(s: string, n: nat, c: char)
    requires n <= |s| && (n < |s| ==> s[n] == c) && forall k :: 0 <= k < n ==> s[k] != c
    ensures Find(s, c) == n
  {
    if n > 0 {
      FindIs(s[1..], n - 1, c);
    }
  }

  /** The next field, and what is left. */
  lemma FieldStep(s: string, n: nat, limit: nat, all: seq<string>, done: seq<string>)
    requires n == Find(s, '|') && limit > 0 && all == done + Fields(s, limit)
    ensures n == |s| ==> all == done + [s]
    ensures n < |s| ==> all == done + [s[..n]] + Fields(s[n + 1..], limit - 1)
  {
  }

  /** The fields found so far stand in the buffer before position `end`. */
  predicate FieldsBefore(a: array<char>, starts: seq<nat>, fields: seq<string>, end: nat)
    reads a
  {
    && |starts| == |fields|
    && forall k :: 0 <= k < |starts| ==> starts[k] + |fields[k]| < end && StringAt(a, starts[k], fields[k])
  }

  /** The text from `from` to `to` stands in the buffer. */
  predicate Stands(a: array<char>, from: nat, text: string)
    reads a
  {
    from + |text| < a.Length && forall k :: from <= k < from + |text| ==> a[k] == text[k - from] && a[k] != '\0'
  }

  method EndField(a: array<char>, from: nat, ghost field: string, end: nat, ghost starts: seq<nat>, ghost fields: seq<string>)
    requires FieldsBefore(a, starts, fields, from) && Stands(a, from, field) && end == from + |field|
    modifies a
    ensures a[end] == '\0' && forall k :: 0 <= k < a.Length && k != end ==> a[k] == old(a[k])
    ensures FieldsBefore(a, starts + [from], fields + [field], end + 1)
  {
    a[end] := '\0';
  }

  /** The part of the loop that ends a field at a separator. */
  method TakeField(a: array<char>, from: nat, end: nat, ghost rest: string, ghost left: nat, ghost all: seq<string>,
                   starts: seq<nat>, ghost fields: seq<string>)
    returns (starts': seq<nat>, ghost fields': seq<string>, ghost rest': string, ghost tail: seq<string>)
    requires StringAt(a, from, rest) && from <= end < from + |rest| && rest[end - from] == '|' && left > 0
    requires forall k :: 0 <= k < end - from ==> rest[k] != '|'
    requires all == fields + Fields(rest, left) && FieldsBefore(a, starts, fields, from)
    modifies a
    ensures forall k :: 0 <= k < a.Length && k != end ==> a[k] == old(a[k])
    ensures |rest'| == from + |rest| - end - 1 && StringAt(a, end + 1, rest')
    ensures |fields'| == |fields| + 1 && all == fields' + tail && tail == Fields(rest', left - 1)
    ensures FieldsBefore(a, starts', fields', end + 1)
  {
    ghost var n := end - from;
    FindIs(rest, n, '|');
    FieldStep(rest, n, left, all, fields);
    starts', fields' := starts + [from], fields + [rest[..n]];
    rest', tail := rest[n + 1..], Fields(rest[n + 1..], left - 1);
    EndField(a, from, rest[..n], end, starts, fields);
  }

  /** The fields end at the separators, where terminators are put; `end` is where the line ends. */
  method SplitFields(a: array<char>, line: nat, ghost text: string, ghost end: nat)
    returns (starts: seq<nat>, ghost fields: seq<string>)
    requires StringAt(a, line, text) && end == line + |text|
    modifies a
    ensures fields == Fields(text, FieldCount)
    ensures FieldsBefore(a, starts, fields, end + 1)
    ensures forall k :: end <= k < a.Length ==> a[k] == old(a[k])
  {
    ghost var all := Fields(text, FieldCount);
    ghost var rest, left, tail := text, FieldCount as nat, all;
    starts, fields := [], [];
    var p: nat, fieldStart: nat := line, line;
    while a[p] != '\0' && |starts| < FieldCount
      invariant fieldStart <= p <= end && fieldStart + |rest| == end
      invariant |fields| + left == FieldCount
      invariant all == fields + tail && tail == Fields(rest, left)
      invariant forall k :: 0 <= k < p - fieldStart ==> rest[k] != '|'
      invariant StringAt(a, fieldStart, rest) && FieldsBefore(a, starts, fields, fieldStart)
      invariant forall k :: end <= k < a.Length ==> a[k] == old(a[k])
      decreases end - p
    {
      if a[p] == '|' {
        starts, fields, rest, tail := TakeField(a, fieldStart, p, rest, left, all, starts, fields);
        fieldStart, left := p + 1, left - 1;
      }
      p := p + 1;
    }
    starts, fields := TakeLast(a, fieldStart, rest, left, tail, starts, fields);
  }

  /** What is left of the line is a field, if there is room for one. */
  method TakeLast(a: array<char>, from: nat, ghost rest: string, ghost left: nat, ghost tail: seq<string>, starts: seq<nat>,
                  ghost fields: seq<string>)
    returns (starts': seq<nat>, ghost fields': seq<string>)
    requires StringAt(a, from, rest) && FieldsBefore(a, starts, fields, from) && |fields| + left == FieldCount
    requires tail == Fields(rest, left) && (left > 0 ==> forall k :: 0 <= k < |rest| ==> rest[k] != '|')
    ensures fields' == fields + tail && FieldsBefore(a, starts', fields', from + |rest| + 1)
  {
    starts', fields' := starts, fields;
    if |starts| < FieldCount {
      LastField(rest, left, tail, a, from, starts, fields);
      starts', fields' := starts + [from], fields + [rest];
    }
  }

  lemma LastField(rest: string, left: nat, tail: seq<string>, a: array<char>, from: nat, starts: seq<nat>, fields: seq<string>)
    requires left > 0 && tail == Fields(rest, left) && forall k :: 0 <= k < |rest| ==> rest[k] != '|'
    requires StringAt(a, from, rest) && FieldsBefore(a, starts, fields, from)
    ensures tail == [rest] && FieldsBefore(a, starts + [from], fields + [rest], from + |rest| + 1)
  {
    FindIs(rest, |rest|, '|');
  }

  /** Turn the fields of a line into a message. */
  method ReadMessage(a: array<char>, starts: seq<nat>, ghost fields: seq<string>, sizes: Sizes, ghost end: nat) returns (m: Message)
    requires FieldsBefore(a, starts, fields, end) && |starts| == FieldCount && sizes.sender > 0 && sizes.content > 0
    ensures m == ReadFields(fields, sizes)
  {
    var id := StringFrom(a, starts[0], fields[0]);
    var sender := StringFrom(a, starts[1], fields[1]);
    var hex := StringFrom(a, starts[2], fields[2]);
    var time := StringFrom(a, starts[3], fields[3]);
    var read := StringFrom(a, starts[4], fields[4]);
    var out := new char[sizes.content];
    var j := HexDecodeInto(hex, out);
    m := Message(Value(id), Cut(sender, sizes.sender), out[..j], Value(time), Value(read));
  }

  /** Terminate the line. */
  method EndLine(a: array<char>, line: nat, ghost s: string)
    returns (more: bool, next: nat, ghost text: string, ghost rest: string)
    requires StringAt(a, line, s)
    modifies a
    ensures text == s[..Find(s, '\n')] && rest == AfterLine(s)
    ensures StringAt(a, line, text)
    ensures more ==> line + |text| < next && StringAt(a, next, rest)
    ensures !more ==> rest == ""
  {
    var end := line;
    while a[end] != '\0' && a[end] != '\n'
      invariant line <= end <= line + |s| && forall k :: 0 <= k < end - line ==> s[k] != '\n'
      decreases line + |s| - end
    {
      end := end + 1;
    }
    FindIs(s, end - line, '\n');
    text, rest, more, next := s[..end - line], AfterLine(s), a[end] == '\n', end + 1;
    if more {
      a[end] := '\0';
    }
  }

  /** One turn of the loop: a line that is not empty may give a message. */
  method ReadOne(a: array<char>, line: nat, ghost s: string, sizes: Sizes)
    returns (messages: seq<Message>, more: bool, next: nat, ghost rest: string)
    requires StringAt(a, line, s) && sizes.sender > 0 && sizes.content > 0
    modifies a
    ensures messages == ReadLine(s[..Find(s, '\n')], sizes) && rest == AfterLine(s)
    ensures more ==> StringAt(a, next, rest)
    ensures !more ==> rest == ""
  {
    ghost var text;
    more, next, text, rest := EndLine(a, line, s);
    messages := [];
    if a[line] != '\0' {
      var starts;
      ghost var fields;
      starts, fields := SplitFields(a, line, text, line + |text|);
      if |starts| == FieldCount {
        var m := ReadMessage(a, starts, fields, sizes, line + |text| + 1);
        messages := [m];
      }
    }
  }

  /** The loop over the lines. */
  method ReadMessages(a: array<char>, ghost s: string, max: nat, sizes: Sizes, ghost read: Reader)
    returns (messages: seq<Message>)
    requires StringAt(a, 0, s) && sizes.sender > 0 && sizes.content > 0
    requires forall line :: read(line) == ReadLine(line, sizes)
    modifies a
    ensures messages == ReadLines(s, max, read)
  {
    messages := [];
    ghost var all := ReadLines(s, max, read);
    ghost var rest, left := s, all;
    var line: nat, more := 0, true;
    while more && a[line] != '\0' && |messages| < max
      invariant |messages| <= max
      invariant more ==> StringAt(a, line, rest)
      invariant !more ==> rest == ""
      invariant all == messages + left && left == ReadLines(rest, max - |messages|, read)
      decreases |rest|
    {
      messages, more, line, rest, left := TakeLine(a, line, rest, max, sizes, read, all, messages, left);
    }
    assert left == [];
  }

  /** One turn: what is read joins the messages. */
  method TakeLine(a: array<char>, line: nat, ghost s: string, ghost max: nat, sizes: Sizes, ghost read: Reader,
                  ghost all: seq<Message>, messages: seq<Message>, ghost left: seq<Message>)
    returns (messages': seq<Message>, more: bool, next: nat, ghost rest: string, ghost left': seq<Message>)
    requires StringAt(a, line, s) && s != "" && |messages| < max && sizes.sender > 0 && sizes.content > 0
    requires forall line :: read(line) == ReadLine(line, sizes)
    requires all == messages + left && left == ReadLines(s, max - |messages|, read)
    modifies a
    ensures |messages'| <= max && |rest| < |s|
    ensures more ==> StringAt(a, next, rest)
    ensures !more ==> rest == ""
    ensures all == messages' + left' && left' == ReadLines(rest, max - |messages'|, read)
  {
    var found;
    found, more, next, rest := ReadOne(a, line, s, sizes);
    left' := ReadLinesStep(s, max - |messages|, read, all, messages, left, found, rest);
    messages' := messages + found;
  }

  lemma ReadLinesStep(s: string, max: nat, read: Reader, all: seq<Message>, done: seq<Message>, left: seq<Message>,
                      found: seq<Message>, rest: string)
    returns (left': seq<Message>)
    requires s != "" && max > 0 && found == read(s[..Find(s, '\n')]) && |found| <= 1 && rest == AfterLine(s)
    requires all == done + left && left == ReadLines(s, max, read)
    ensures all == done + found + left' && left' == ReadLines(rest, max - |found|, read) && |rest| < |s|
  {
    left' := ReadLines(rest, max - |found|, read);
  }

  /** sms_get_list once it has the rows of the query. */
  method GetList(a: array<char>, ghost s: string, max: int, sizes: Sizes) returns (count: int, messages: seq<Message>)
    requires StringAt(a, 0, s) && sizes.sender > 0 && sizes.content > 0
    modifies a
    ensures if max <= 0 then count == -1 else count == |messages| && messages == ReadAll(s, max, sizes)
  {
    if max <= 0 {
      return -1, [];
    }
    messages := ReadMessages(a, s, max, sizes, line => ReadLine(line, sizes));
    count := |messages|;
  }
}
