/** parse_cell_to_vec with its buffers: it cleans a copy of the reply in place and fills
    `data[row][col]` with moving indices.

    The verifier checks every index it uses.  The methods are the loops of the source, each proved
    against a function of CellText. */
module CellParser {
  import opened Basics
  import opened CStrings
  import opened CellText

  /** The contents of the table the caller passes in. */
  function Grid(data: array2<string>): (g: seq<seq<string>>)
    reads data
    ensures |g| == data.Length0
    ensures forall r :: 0 <= r < |g| ==> |g[r]| == data.Length1
    ensures forall r, c :: 0 <= r < data.Length0 && 0 <= c < data.Length1 ==> g[r][c] == data[r, c]
  {
    seq(data.Length0, r requires 0 <= r < data.Length0 reads data =>
      seq(data.Length1, c requires 0 <= c < data.Length1 reads data => data[r, c]))
  }

  /** The first cells of `under` replaced by `row`. */
  function OverlayRow(under: seq<string>, row: seq<string>): seq<string> {
    seq(|under|, c requires 0 <= c < |under| => if c < |row| then row[c] else under[c])
  }

  function Overlay(under: seq<seq<string>>, rows: seq<seq<string>>): seq<seq<string>> {
    seq(|under|, r requires 0 <= r < |under| => if r < |rows| then OverlayRow(under[r], rows[r]) else under[r])
  }

  lemma OverlaySnoc(under: seq<seq<string>>, parts: seq<string>, text: string)
    requires |parts| < |under|
    ensures Overlay(under, Rows(parts + [text]))
         == Overlay(under, Rows(parts))[|parts| := OverlayRow(under[|parts|], Row(text))]
  {
    assert Rows(parts + [text]) == Rows(parts) + [Row(text)];
  }

  // ---------- cleaning ----------

  method CopyInput(input: string) returns (cleaned: array<char>)
    requires '\0' !in input
    ensures fresh(cleaned) && cleaned.Length == BufferSize && HoldsFrom(cleaned, 0, Cut(input, BufferSize))
  {
    cleaned := new char[BufferSize](_ => '\0');
    var i := 0;
    while i < |input| && i < BufferSize - 1
      invariant 0 <= i <= |input| && i <= BufferSize - 1
      invariant forall k :: 0 <= k < i ==> cleaned[k] == input[k]
    {
      cleaned[i] := input[i];
      i := i + 1;
    }
    cleaned[i] := '\0';
  }

  method CutAtOk(cleaned: array<char>, ghost s: string)
    requires HoldsFrom(cleaned, 0, s)
    modifies cleaned
    ensures HoldsFrom(cleaned, 0, s[..OkAt(s)])
  {
    var i := 0;
    while cleaned[i] != '\0' && !(cleaned[i] == 'O' && cleaned[i + 1] == 'K')
      invariant 0 <= i <= |s| && OkAt(s) == i + OkAt(s[i..])
      decreases |s| - i
    {
      assert s[i..][1..] == s[i + 1..];
      i := i + 1;
    }
    cleaned[i] := '\0';
  }

  lemma WithoutLineEndsSnoc(s: string, c: char)
    ensures WithoutLineEnds(s + [c]) == WithoutLineEnds(s) + (if c == '\r' || c == '\n' then "" else [c])
  {
    if s == "" {
      assert s + [c] == [c];
    } else {
      assert (s + [c])[1..] == s[1..] + [c];
    }
  }

  method DropLineEnds(cleaned: array<char>, ghost s: string)
    requires HoldsFrom(cleaned, 0, s)
    modifies cleaned
    ensures HoldsFrom(cleaned, 0, WithoutLineEnds(s))
  {
    var p, dst := 0, 0;
    while cleaned[p] != '\0'
      invariant 0 <= dst <= p && HoldsFrom(cleaned, p, s)
      invariant |WithoutLineEnds(s[..p])| == dst
      invariant forall k :: 0 <= k < dst ==> cleaned[k] == WithoutLineEnds(s[..p])[k] && cleaned[k] != '\0'
      decreases |s| - p
    {
      assert s[..p + 1] == s[..p] + [s[p]];
      WithoutLineEndsSnoc(s[..p], s[p]);
      if cleaned[p] != '\r' && cleaned[p] != '\n' {
        cleaned[dst] := cleaned[p];
        dst := dst + 1;
      }
      p := p + 1;
    }
    assert p == |s| && s[..p] == s;
    cleaned[dst] := '\0';
  }

  // ---------- one row ----------

  /** strtok: skip separators, find the end of the token, and put a terminator there. */
  method NextToken(part: array<char>, from: nat, ghost s: string) returns (found: bool, start: nat, next: nat, ghost token: string)
    requires HoldsFrom(part, from, s)
    modifies part
    ensures found == (Tokens(s[from..]) != [])
    ensures HoldsFrom(part, next, s)
    ensures found ==> Tokens(s[from..]) == [token] + Tokens(s[next..]) && StringAt(part, start, token)
  {
    start := SkipSeparators(part, from, s);
    found, next, token := part[start] != '\0', start, "";
    if found {
      var end := TokenEnd(part, start, s);
      token := s[start..end];
      TokenAt(s, start, end);
      next := Terminate(part, start, end, s);
    }
  }

  method Terminate(part: array<char>, start: nat, end: nat, ghost s: string) returns (next: nat)
    requires HoldsFrom(part, start, s) && start < end <= |s| && (end < |s| ==> s[end] == ',')
    modifies part
    ensures HoldsFrom(part, next, s) && Tokens(s[next..]) == Tokens(s[end..])
    ensures StringAt(part, start, s[start..end])
  {
    next := end;
    if part[end] == ',' {
      SeparatorSkipped(s, end);
      part[end] := '\0';
      next := end + 1;
    }
  }

  lemma TokenAt(s: string, start: nat, end: nat)
    requires start < end <= |s| && s[start] != ',' && end == start + TokenLength(s[start..])
    ensures Tokens(s[start..]) == [s[start..end]] + Tokens(s[end..])
    ensures end < |s| ==> s[end] == ','
  {
    assert s[start..][..end - start] == s[start..end] && s[start..][end - start..] == s[end..];
  }

  method SkipSeparators(part: array<char>, from: nat, ghost s: string) returns (start: nat)
    requires HoldsFrom(part, from, s)
    ensures from <= start <= |s| && (start < |s| ==> s[start] != ',')
    ensures Tokens(s[from..]) == Tokens(s[start..])
  {
    start := from;
    while part[start] == ','
      invariant from <= start <= |s| && Tokens(s[from..]) == Tokens(s[start..])
      decreases |s| - start
    {
      SeparatorSkipped(s, start);
      start := start + 1;
    }
  }

  lemma SeparatorSkipped(s: string, i: nat)
    requires i < |s| && s[i] == ','
    ensures Tokens(s[i..]) == Tokens(s[i + 1..])
  {
    assert s[i..][1..] == s[i + 1..];
  }

  method TokenEnd(part: array<char>, start: nat, ghost s: string) returns (end: nat)
    requires HoldsFrom(part, start, s)
    ensures end <= |s| && end == start + TokenLength(s[start..])
  {
    end := start;
    while part[end] != '\0' && part[end] != ','
      invariant start <= end <= |s| && TokenLength(s[start..]) == end - start + TokenLength(s[end..])
      decreases |s| - end
    {
      assert s[end..][1..] == s[end + 1..];
      end := end + 1;
    }
  }

  /** Skip leading spaces and copy at most 31 characters. */
  method CopyCell(part: array<char>, start: nat, ghost token: string) returns (cell: string)
    requires StringAt(part, start, token)
    ensures cell == Cell(token)
  {
    ghost var end := start + |token|;
    var i := start;
    while part[i] == ' '
      invariant start <= i <= end && SkipSpaces(token) == SkipSpaces(token[i - start..])
      decreases end - i
    {
      assert token[i - start..][1..] == token[i + 1 - start..];
      i := i + 1;
    }
    ghost var rest := token[i - start..];
    assert SkipSpaces(rest) == rest;
    cell := "";
    var k := 0;
    while k < CellSize - 1 && part[i + k] != '\0'
      invariant 0 <= k <= |rest| && k <= CellSize - 1 && cell == rest[..k]
    {
      cell := cell + [part[i + k]];
      k := k + 1;
    }
  }

  method StoreCell(data: array2<string>, row: nat, col: nat, cell: string)
    requires row < data.Length0 && col < data.Length1
    modifies data
    ensures Grid(data) == old(Grid(data))[row := old(Grid(data))[row][col := cell]]
  {
    ghost var was := Grid(data);
    data[row, col] := cell;
    forall r | 0 <= r < data.Length0 ensures Grid(data)[r] == was[row := was[row][col := cell]][r] {
    }
  }

  lemma OverlayCell(under: seq<string>, cells: seq<string>, col: nat)
    requires col < |cells| && col < |under|
    ensures OverlayRow(under, cells[..col + 1]) == OverlayRow(under, cells[..col])[col := cells[col]]
  {
  }

  /** Split the row at its commas and store its cells. */
  method FlushPart(part: array<char>, partLen: nat, data: array2<string>, row: nat, ghost text: string)
    requires partLen < part.Length && part[..partLen] == text && '\0' !in text
    requires row < data.Length0 && data.Length1 == MaxCols
    modifies part, data
    ensures Grid(data) == old(Grid(data))[row := OverlayRow(old(Grid(data))[row], Row(text))]
  {
    part[partLen] := '\0';
    ghost var was, tokens := Grid(data), Tokens(text);
    ghost var cells := Cells(tokens);
    assert text[0..] == text;
    assert OverlayRow(was[row], []) == was[row];
    var col := 0;
    var found, start, next, token := NextToken(part, 0, text);
    while found && col < MaxCols
      invariant 0 <= col <= MaxCols && HoldsFrom(part, next, text)
      invariant found ==> StringAt(part, start, token)
      invariant col <= |tokens|
      invariant tokens[col..] == if found then [token] + Tokens(text[next..]) else []
      invariant Grid(data) == was[row := OverlayRow(was[row], cells[..col])]
      decreases MaxCols - col
    {
      TokenTaken(tokens, col, token, Tokens(text[next..]));
      OverlayCell(was[row], cells, col);
      var cell := CopyCell(part, start, token);
      StoreCell(data, row, col, cell);
      col := col + 1;
      found, start, next, token := NextToken(part, next, text);
    }
    RowIs(text, col, found);
  }

  /** The loop ends at the last cell of a row. */
  lemma RowIs(text: string, col: nat, more: bool)
    requires col <= |Tokens(text)| && col <= MaxCols && (more ==> col == MaxCols) && (!more ==> col == |Tokens(text)|)
    ensures Cells(Tokens(text))[..col] == Row(text)
  {
  }

  lemma TokenTaken(tokens: seq<string>, col: nat, token: string, rest: seq<string>)
    requires col <= |tokens| && tokens[col..] == [token] + rest
    ensures col < |tokens| && tokens[col] == token && tokens[col + 1..] == rest
  {
    assert tokens[col..][0] == token && tokens[col..][1..] == rest;
  }

  // ---------- the parser ----------

  /** One turn of the loop: `left` is what the rest of the text gives, and `left'` what remains. */
  lemma PartsStep(s: string, p: nat, prev: char, part: string, done: seq<string>, left: seq<string>) returns (left': seq<string>)
    requires p < |s| && left == Parts(s[p..], prev, part)
    ensures s[p] != '-' || prev == ',' ==> left' == left == Parts(s[p + 1..], s[p], part + [s[p]])
    ensures s[p] == '-' && prev != ',' && p + 1 < |s| && s[p + 1] == '-' ==>
      left' == Parts(s[p + 2..], '-', "-") && done + left == done + Flush(part) + left'
    ensures s[p] == '-' && prev != ',' && (p + 1 == |s| || s[p + 1] != '-') ==>
      left' == Parts(s[p + 1..], '-', "") && done + left == done + Flush(part) + left'
  {
    left' :=
      if s[p] != '-' || prev == ',' then left
      else if p + 1 < |s| && s[p + 1] == '-' then Parts(s[p + 2..], '-', "-")
      else Parts(s[p + 1..], '-', "");
    assert s[p..][1..] == s[p + 1..];
    assert p + 1 < |s| ==> s[p..][2..] == s[p + 2..];
  }

  /** Clean the reply. */
  method CleanInput(input: string) returns (cleaned: array<char>)
    requires '\0' !in input
    ensures fresh(cleaned) && HoldsFrom(cleaned, 0, Clean(input))
  {
    cleaned := CopyInput(input);
    var s := Cut(input, BufferSize);
    CutAtOk(cleaned, s);
    DropLineEnds(cleaned, s[..OkAt(s)]);
  }

  /** End the current row, unless it is empty. */
  method EndRow(part: array<char>, partLen: nat, data: array2<string>, row: nat, ghost was: seq<seq<string>>,
                ghost done: seq<string>, ghost text: string)
    returns (row': nat)
    requires partLen < part.Length && part[..partLen] == text && '\0' !in text
    requires row == |done| < data.Length0 && data.Length1 == MaxCols
    requires |was| == data.Length0 && Grid(data) == Overlay(was, Rows(done))
    modifies part, data
    ensures row' == |done + Flush(text)|
    ensures Grid(data) == Overlay(was, Rows(done + Flush(text)))
  {
    row' := row;
    if partLen > 0 {
      OverlaySnoc(was, done, text);
      FlushPart(part, partLen, data, row, text);
      row' := row + 1;
    } else {
      assert done + Flush(text) == done;
    }
  }

  method AddChar(part: array<char>, partLen: nat, c: char, ghost text: string) returns (partLen': nat)
    requires partLen < part.Length && part[..partLen] == text
    modifies part
    ensures partLen' == partLen + 1 && part[..partLen'] == text + [c]
  {
    part[partLen] := c;
    partLen' := partLen + 1;
  }

  /** A dash ends the row, and the second of two is the sign of the next. */
  method TakeDash(part: array<char>, partLen: nat, data: array2<string>, row: nat, two: bool, ghost was: seq<seq<string>>,
                  ghost done: seq<string>, ghost text: string)
    returns (row': nat, partLen': nat, ghost done': seq<string>, ghost text': string)
    requires partLen < part.Length && part[..partLen] == text && '\0' !in text
    requires row == |done| < data.Length0 && data.Length1 == MaxCols
    requires |was| == data.Length0 && Grid(data) == Overlay(was, Rows(done))
    modifies part, data
    ensures row' == |done'| <= row + 1 && done' == done + Flush(text)
    ensures Grid(data) == Overlay(was, Rows(done'))
    ensures text' == if two then "-" else ""
    ensures partLen' == |text'| && part[..partLen'] == text'
  {
    done', text' := done + Flush(text), if two then "-" else "";
    row' := EndRow(part, partLen, data, row, was, done, text);
    partLen' := 0;
    if two {
      part[0] := '-';
      partLen' := 1;
    }
  }

  lemma FirstIs(done: seq<string>, left: seq<string>)
    ensures |done + left| <= MaxRows ==> First(done + left, MaxRows) == done + left
    ensures |done| == MaxRows ==> First(done + left, MaxRows) == done
  {
  }

  /** The parsed cells go to the front of the rows of `data`; every other cell stays as it was. */
  method ParseCells(input: string, data: array2<string>) returns (row: nat)
    requires '\0' !in input && data.Length0 == MaxRows && data.Length1 == MaxCols
    modifies data
    ensures row == |Parse(input)|
    ensures Grid(data) == Overlay(old(Grid(data)), Parse(input))
  {
    var cleaned := CleanInput(input);
    ghost var s, was := Clean(input), Grid(data);
    ghost var all := Parts(s, '\0', "");
    ghost var done, left, text := [], all, "";
    var part := new char[BufferSize](_ => '\0');
    var partLen: nat, prev, p: nat := 0, '\0', 0;
    row := 0;
    assert s[0..] == s && Overlay(was, []) == was;
    while cleaned[p] != '\0' && row < MaxRows
      invariant row == |done| <= MaxRows && p <= |s| && HoldsFrom(cleaned, 0, s)
      invariant partLen <= p && partLen < BufferSize && part[..partLen] == text && '\0' !in text
      invariant all == done + left && left == Parts(s[p..], prev, text)
      invariant Grid(data) == Overlay(was, Rows(done))
      decreases |s| - p
    {
      left := PartsStep(s, p, prev, text, done, left);
      var c := cleaned[p];
      if c != '-' || prev == ',' {
        partLen := AddChar(part, partLen, c, text);
        text := text + [c];
      } else {
        var two := cleaned[p + 1] == '-';
        row, partLen, done, text := TakeDash(part, partLen, data, row, two, was, done, text);
        p := if two then p + 1 else p;
      }
      prev := c;
      p := p + 1;
    }
    assert row < MaxRows ==> s[p..] == "";
    row := LastRow(part, partLen, data, row, was, done, left, text);
  }

  /** What is left when the loop ends is a row, if there is room for one. */
  method LastRow(part: array<char>, partLen: nat, data: array2<string>, row: nat, ghost was: seq<seq<string>>,
                 ghost done: seq<string>, ghost left: seq<string>, ghost text: string)
    returns (row': nat)
    requires partLen < part.Length && part[..partLen] == text && '\0' !in text && (row < MaxRows ==> left == Flush(text))
    requires row == |done| <= data.Length0 == MaxRows && data.Length1 == MaxCols
    requires |was| == data.Length0 && Grid(data) == Overlay(was, Rows(done))
    modifies part, data
    ensures row' == |First(done + left, MaxRows)|
    ensures Grid(data) == Overlay(was, Rows(First(done + left, MaxRows)))
  {
    FirstIs(done, left);
    row' := row;
    if row < MaxRows {
      row' := EndRow(part, partLen, data, row, was, done, text);
    }
  }
}
