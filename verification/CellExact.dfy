/** The exact condition under which a printed table is read back, and that nothing is invented. */
module CellExact {
  import opened Basics
  import opened CStrings
  import opened CellText
  import opened CellRoundTrip

  // ---------- counting a character ----------

  function Count(c: char, s: string): nat {
    if s == "" then 0 else (if s[0] == c then 1 else 0) + Count(c, s[1..])
  }

  function Counts(c: char, parts: seq<string>): nat {
    if parts == [] then 0 else Count(c, parts[0]) + Counts(c, parts[1..])
  }

  function TableCount(c: char, t: seq<seq<string>>): nat {
    if t == [] then 0 else Counts(c, t[0]) + TableCount(c, t[1..])
  }

  lemma {:induction false} CountOfBoth(c: char, x: string, y: string)
    ensures Count(c, x + y) == Count(c, x) + Count(c, y)
  {
    if x == "" {
      assert x + y == y;
    } else {
      assert (x + y)[0] == x[0] && (x + y)[1..] == x[1..] + y;
      CountOfBoth(c, x[1..], y);
    }
  }

  lemma CountOfFlush(c: char, part: string, rest: seq<string>)
    ensures Counts(c, Flush(part) + rest) == Count(c, part) + Counts(c, rest)
  {
    if part == "" {
      assert Flush(part) + rest == rest;
    } else {
      assert (Flush(part) + rest)[1..] == rest;
    }
  }

  /** Splitting into rows adds no character and takes away only dashes. */
  lemma {:induction false} PartsCount(c: char, s: string, prev: char, part: string)
    ensures Counts(c, Parts(s, prev, part)) <= Count(c, part) + Count(c, s)
    ensures c != '-' ==> Counts(c, Parts(s, prev, part)) == Count(c, part) + Count(c, s)
    decreases |s|
  {
    if s == "" {
      CountOfFlush(c, part, []);
      assert Flush(part) + [] == Flush(part);
    } else if s[0] != '-' || prev == ',' {
      PartsCount(c, s[1..], s[0], part + [s[0]]);
      CountOfBoth(c, part, [s[0]]);
      assert Count(c, [s[0]]) == if s[0] == c then 1 else 0;
    } else if |s| > 1 && s[1] == '-' {
      PartsCount(c, s[2..], '-', "-");
      CountOfFlush(c, part, Parts(s[2..], '-', "-"));
      assert s[1..][1..] == s[2..];
      assert Count(c, "-") == if c == '-' then 1 else 0;
    } else {
      PartsCount(c, s[1..], '-', "");
      CountOfFlush(c, part, Parts(s[1..], '-', ""));
    }
  }

  /** Splitting into cells takes away only commas. */
  lemma {:induction false} TokensCount(c: char, s: string)
    ensures Counts(c, Tokens(s)) <= Count(c, s) && (c != ',' ==> Counts(c, Tokens(s)) == Count(c, s))
  {
    if s != "" {
      if s[0] == ',' {
        TokensCount(c, s[1..]);
      } else {
        var n := TokenLength(s);
        TokensCount(c, s[n..]);
        CountOfBoth(c, s[..n], s[n..]);
        assert s == s[..n] + s[n..];
        assert ([s[..n]] + Tokens(s[n..]))[1..] == Tokens(s[n..]);
      }
    }
  }

  lemma {:induction false} SpacesCount(c: char, s: string)
    ensures Count(c, SkipSpaces(s)) <= Count(c, s)
  {
    if s != "" && s[0] == ' ' {
      SpacesCount(c, s[1..]);
    }
  }

  lemma CellCounts(c: char, token: string)
    ensures Count(c, Cell(token)) <= Count(c, token)
  {
    SpacesCount(c, token);
    var s := SkipSpaces(token);
    if |s| >= CellSize {
      CutCounts(c, s, CellSize - 1);
    }
  }

  lemma {:induction false} CellsCount(c: char, tokens: seq<string>)
    ensures Counts(c, Cells(tokens)) <= Counts(c, tokens)
  {
    if tokens != [] {
      CellCounts(c, tokens[0]);
      CellsCount(c, tokens[1..]);
      assert Cells(tokens)[1..] == Cells(tokens[1..]);
    }
  }

  lemma {:induction false} FirstCounts(c: char, parts: seq<string>, n: nat)
    ensures Counts(c, First(parts, n)) <= Counts(c, parts)
  {
    if |parts| > n && n > 0 {
      FirstCounts(c, parts[1..], n - 1);
      assert First(parts, n)[1..] == First(parts[1..], n - 1);
    }
  }

  lemma {:induction false} RowsCount(c: char, parts: seq<string>)
    ensures TableCount(c, Rows(parts)) <= Counts(c, parts)
  {
    if parts != [] {
      TokensCount(c, parts[0]);
      CellsCount(c, Tokens(parts[0]));
      FirstCounts(c, Cells(Tokens(parts[0])), MaxCols);
      RowsCount(c, parts[1..]);
      assert Rows(parts)[1..] == Rows(parts[1..]);
    }
  }

  lemma ParsedCounts(c: char, s: string)
    ensures TableCount(c, Rows(First(Parts(s, '\0', ""), MaxRows))) <= Count(c, s)
  {
    PartsCount(c, s, '\0', "");
    FirstCounts(c, Parts(s, '\0', ""), MaxRows);
    RowsCount(c, First(Parts(s, '\0', ""), MaxRows));
  }

  lemma {:induction false} RowCounts(c: char, row: seq<string>)
    requires row != [] && c != ','
    ensures Count(c, PrintRow(row)) == Counts(c, row)
  {
    if |row| == 1 {
      assert Counts(c, row[1..]) == 0;
    } else {
      RowCounts(c, row[1..]);
      CountOfBoth(c, row[0] + ",", PrintRow(row[1..]));
      CountOfBoth(c, row[0], ",");
    }
  }

  lemma {:induction false} RestCounts(c: char, t: seq<seq<string>>)
    requires Rectangular(t) && c != ',' && c != '-'
    ensures Count(c, PrintRest(t)) == TableCount(c, t)
  {
    if t != [] {
      RowCounts(c, t[0]);
      RestCounts(c, t[1..]);
      CountOfBoth(c, "-" + PrintRow(t[0]), PrintRest(t[1..]));
      CountOfBoth(c, "-", PrintRow(t[0]));
    }
  }

  lemma PrintCounts(c: char, t: seq<seq<string>>)
    requires Rectangular(t) && c != ',' && c != '-'
    ensures Count(c, Print(t)) == TableCount(c, t)
  {
    if t != [] {
      RowCounts(c, t[0]);
      RestCounts(c, t[1..]);
      CountOfBoth(c, PrintRow(t[0]), PrintRest(t[1..]));
    }
  }

  // ---------- a printed table that the buffer cuts short ----------

  lemma {:induction false} RestEndsPlain(t: seq<seq<string>>)
    requires Table(t) && t != []
    ensures var p := PrintRest(t); p != "" && Plain(p[|p| - 1])
  {
    RowIsInert(t[0]);
    if |t| > 1 {
      RestEndsPlain(t[1..]);
    } else {
      assert PrintRest(t[1..]) == "";
    }
  }

  lemma PrintEndsPlain(t: seq<seq<string>>)
    requires Table(t) && t != []
    ensures var p := Print(t); p != "" && Plain(p[|p| - 1])
  {
    RowIsInert(t[0]);
    if |t| > 1 {
      RestEndsPlain(t[1..]);
    } else {
      assert PrintRest(t[1..]) == "";
    }
  }

  lemma ShorterCountsLess(p: string, k: nat)
    requires k < |p|
    ensures Count(p[|p| - 1], p[..k]) < Count(p[|p| - 1], p)
  {
    var c, end := p[|p| - 1], p[k..|p| - 1];
    assert p == p[..k] + end + [c];
    CountOfBoth(c, p[..k] + end, [c]);
    CountOfBoth(c, p[..k], end);
    assert Count(c, [c]) == 1;
  }

  lemma CutTableIsLost(t: seq<seq<string>>, tail: string)
    requires Table(t) && Lacks(t, 'O') && |Print(t)| >= BufferSize
    ensures Parse(Print(t) + "\r\nOK" + tail) != t
  {
    var p := Print(t);
    CleanTable(t, tail);
    PrintEndsPlain(t);
    ShorterCountsLess(p, 4095);
    ParsedCounts(p[|p| - 1], p[..4095]);
    PrintCounts(p[|p| - 1], t);
  }

  lemma CleanTable(t: seq<seq<string>>, tail: string)
    requires Table(t) && Lacks(t, 'O')
    ensures var p := Print(t);
      Clean(p + "\r\nOK" + tail) == if |p| >= 4095 then p[..4095] else if |p| == 4092 then p + "O" else p
  {
    TableLacks(t);
    PrintLacks(t, 'O');
    PrintLacks(t, '\r');
    PrintLacks(t, '\n');
    CleanReply(Print(t), tail);
  }

  // ---------- a sign at the very start ----------

  lemma {:induction false} PartIsKept(s: string, prev: char, part: string)
    requires part != ""
    ensures var parts := Parts(s, prev, part); parts != [] && parts[0] != "" && parts[0][0] == part[0]
  {
    if s != "" && (s[0] != '-' || prev == ',') {
      PartIsKept(s[1..], s[0], part + [s[0]]);
    }
  }

  lemma RowStart(part: string)
    requires part != "" && Plain(part[0])
    ensures Row(part) != [] && Row(part)[0] != "" && Row(part)[0][0] == part[0]
  {
    assert Tokens(part)[0][0] == part[0];
  }

  /** The dash goes into no row: the first cell is read without its sign. */
  lemma SignIsLost(s: string)
    requires |s| > 1 && s[0] == '-' && Plain(s[1])
    ensures var t := Rows(First(Parts(s, '\0', ""), MaxRows));
      t != [] && t[0] != [] && t[0][0] != "" && t[0][0][0] != '-'
  {
    assert Parts(s, '\0', "") == Flush("") + Parts(s[1..], '-', "");
    assert Parts(s[1..], '-', "") == Parts(s[1..][1..], s[1], "" + [s[1]]);
    PartIsKept(s[1..][1..], s[1], "" + [s[1]]);
    RowStart(Parts(s, '\0', "")[0]);
  }

  lemma SignedTableIsLost(t: seq<seq<string>>, tail: string)
    requires Table(t) && Lacks(t, 'O') && StartsWithSign(t)
    ensures Parse(Print(t) + "\r\nOK" + tail) != t
  {
    CleanTable(t, tail);
    RowIsInert(t[0]);
    SignIsLost(Clean(Print(t) + "\r\nOK" + tail));
  }

  // ---------- a stray "O" ----------

  function Last<T>(s: seq<T>): T
    requires s != []
  {
    s[|s| - 1]
  }

  function Extended(t: seq<seq<string>>): seq<seq<string>>
    requires Rectangular(t) && t != []
  {
    t[|t| - 1 := ExtendedRow(Last(t))]
  }

  function ExtendedRow(row: seq<string>): seq<string>
    requires row != []
  {
    row[|row| - 1 := Last(row) + "O"]
  }

  lemma {:induction false} PrintExtendedRow(row: seq<string>)
    requires row != []
    ensures PrintRow(ExtendedRow(row)) == PrintRow(row) + "O"
  {
    if |row| > 1 {
      PrintExtendedRow(row[1..]);
      assert ExtendedRow(row)[1..] == ExtendedRow(row[1..]);
    }
  }

  lemma {:induction false} PrintExtendedRest(t: seq<seq<string>>)
    requires Rectangular(t) && t != []
    ensures PrintRest(Extended(t)) == PrintRest(t) + "O"
  {
    if |t| > 1 {
      PrintExtendedRest(t[1..]);
      assert Extended(t)[1..] == Extended(t[1..]);
    } else {
      PrintExtendedRow(t[0]);
      assert Extended(t)[1..] == [] && t[1..] == [];
      assert PrintRest([]) == "";
    }
  }

  lemma PrintExtended(t: seq<seq<string>>)
    requires Rectangular(t) && t != []
    ensures Print(Extended(t)) == Print(t) + "O"
  {
    if |t| > 1 {
      PrintExtendedRest(t[1..]);
      assert Extended(t)[1..] == Extended(t[1..]);
    } else {
      PrintExtendedRow(t[0]);
      assert Extended(t)[1..] == [] && t[1..] == [];
      assert PrintRest([]) == "";
    }
  }

  lemma ExtendedNumber(x: string)
    requires Number(x)
    ensures Number(x + "O") && (x + "O")[0] == x[0]
  {
    NoComma(x);
    assert Digits(x + "O") == Digits(x) + "O";
  }

  lemma ExtendedRowIs(row: seq<string>)
    requires Numbers(row)
    ensures Numbers(ExtendedRow(row)) && ExtendedRow(row)[0][0] == row[0][0]
  {
    ExtendedNumber(Last(row));
  }

  lemma ExtendedIsTable(t: seq<seq<string>>)
    requires Table(t) && t != []
    ensures Table(Extended(t)) && StartsWithSign(Extended(t)) == StartsWithSign(t)
  {
    ExtendedRowIs(Last(t));
  }

  lemma StrayO(t: seq<seq<string>>)
    requires Table(t) && Fits(t) && t != [] && !StartsWithSign(t)
    ensures Rows(First(Parts(Print(t) + "O", '\0', ""), MaxRows)) == t <==> |Last(Last(t))| == CellSize - 1
  {
    var t' := Extended(t);
    ExtendedIsTable(t);
    PrintExtended(t);
    PrintIsParted(t');
    StrayOInRows(t);
  }

  lemma StrayOInRows(t: seq<seq<string>>)
    requires Table(t) && Fits(t) && t != [] && Table(Extended(t))
    ensures Rows(Printed(Extended(t))) == t <==> |Last(Last(t))| == CellSize - 1
  {
    var t' := Extended(t);
    var rows := Rows(Printed(t'));
    PrintedRows(t');
    forall i | 0 <= i < |t| - 1 ensures rows[i] == t[i] {
      RowFits(t[i]);
    }
    ExtendedRowIs(Last(t));
    StrayOInRow(Last(t));
    assert rows[|t| - 1] == First(Cells(ExtendedRow(Last(t))), MaxCols);
  }

  lemma StrayOInRow(row: seq<string>)
    requires Numbers(row) && |row| <= MaxCols && forall j :: 0 <= j < |row| ==> |row[j]| < CellSize
    requires Numbers(ExtendedRow(row))
    ensures First(Cells(ExtendedRow(row)), MaxCols) == row <==> |Last(row)| == CellSize - 1
  {
    var row' := ExtendedRow(row);
    forall j | 0 <= j < |row| ensures Cell(row'[j]) == Cut(row'[j], CellSize) {
      CellSurvives(row'[j]);
    }
    var x := Last(row);
    assert (x + "O")[..|x|] == x;
    assert |row| > 0 && Cells(row')[|row| - 1] == Cut(x + "O", CellSize);
  }

  // ---------- whether it fits ----------

  /** Whether the reply fits in the buffer with nothing of it left that is not the table.  At
      4092 characters the buffer ends after the "O" of "OK", and that "O" joins the last cell
      unless the cell is full. */
  predicate ReplyFits(t: seq<seq<string>>)
    requires Rectangular(t)
  {
    && |Print(t)| < BufferSize
    && (|Print(t)| == 4092 ==> t != [] && t[|t| - 1] != [] && |Last(Last(t))| == CellSize - 1)
  }

  // ---------- nothing is invented ----------

  lemma {:induction false} CleanCounts(c: char, s: string)
    ensures Count(c, WithoutLineEnds(s)) <= Count(c, s)
  {
    if s != "" {
      CleanCounts(c, s[1..]);
      var head := if s[0] == '\r' || s[0] == '\n' then "" else [s[0]];
      CountOfBoth(c, head, WithoutLineEnds(s[1..]));
      assert Count(c, [s[0]]) == if s[0] == c then 1 else 0;
    }
  }

  lemma CutCounts(c: char, s: string, n: nat)
    requires n <= |s|
    ensures Count(c, s[..n]) <= Count(c, s)
  {
    assert s == s[..n] + s[n..];
    CountOfBoth(c, s[..n], s[n..]);
  }

  /** Whatever the modem sends, the cells hold no character more often than it does. */
  lemma NothingIsInvented(c: char, input: string)
    ensures TableCount(c, Parse(input)) <= Count(c, input)
  {
    var s := Cut(input, BufferSize);
    ParsedCounts(c, Clean(input));
    CleanCounts(c, s[..OkAt(s)]);
    CutCounts(c, s, OkAt(s));
    if |input| >= BufferSize {
      CutCounts(c, input, BufferSize - 1);
    }
  }

  // ---------- what a cell looks like ----------

  /** How many spaces a text starts with. */
  function Spaces(s: string): (k: nat)
    ensures k <= |s| && (forall i :: 0 <= i < k ==> s[i] == ' ') && (k < |s| ==> s[k] != ' ')
  {
    if s != "" && s[0] == ' ' then 1 + Spaces(s[1..]) else 0
  }

  /** Exactly they are taken away. */
  lemma {:induction false} SpacesAreSkipped(s: string)
    ensures SkipSpaces(s) == s[Spaces(s)..]
  {
    if s != "" && s[0] == ' ' {
      SpacesAreSkipped(s[1..]);
    }
  }

  lemma {:induction false} TokensHaveNoComma(s: string, j: nat)
    requires j < |Tokens(s)|
    ensures ',' !in Tokens(s)[j]
  {
    if s[0] == ',' {
      TokensHaveNoComma(s[1..], j);
    } else if j > 0 {
      TokensHaveNoComma(s[TokenLength(s)..], j - 1);
    }
  }

  lemma {:induction false} CountIsZero(c: char, s: string)
    ensures Count(c, s) == 0 <==> c !in s
  {
    if s != "" {
      CountIsZero(c, s[1..]);
    }
  }

  lemma {:induction false} NoLineEndIsLeft(c: char, s: string)
    requires c == '\r' || c == '\n'
    ensures c !in WithoutLineEnds(s)
  {
    if s != "" {
      NoLineEndIsLeft(c, s[1..]);
    }
  }

  lemma {:induction false} CellIsCounted(c: char, row: seq<string>, j: nat)
    requires j < |row|
    ensures Count(c, row[j]) <= Counts(c, row)
  {
    if j > 0 {
      CellIsCounted(c, row[1..], j - 1);
    }
  }

  lemma {:induction false} RowIsCounted(c: char, t: seq<seq<string>>, i: nat)
    requires i < |t|
    ensures Counts(c, t[i]) <= TableCount(c, t)
  {
    if i > 0 {
      RowIsCounted(c, t[1..], i - 1);
    }
  }

  lemma LineEndsAreGone(c: char, input: string, i: nat, j: nat)
    requires (c == '\r' || c == '\n') && i < |Parse(input)| && j < |Parse(input)[i]|
    ensures c !in Parse(input)[i][j]
  {
    var s := Cut(input, BufferSize);
    NoLineEndIsLeft(c, s[..OkAt(s)]);
    CountIsZero(c, Clean(input));
    ParsedCounts(c, Clean(input));
    RowIsCounted(c, Parse(input), i);
    CellIsCounted(c, Parse(input)[i], j);
    CountIsZero(c, Parse(input)[i][j]);
  }

  /** Whatever the modem sends: at most 64 rows of at most 16 cells; no cell has 32 characters or more,
      starts with a space, or has a comma or a line end in it. */
  lemma CellsAreTrimmed(input: string, i: nat, j: nat)
    requires i < |Parse(input)| && j < |Parse(input)[i]|
    ensures |Parse(input)| <= 64 && |Parse(input)[i]| <= 16
    ensures var cell := Parse(input)[i][j];
      |cell| < 32 && (cell == "" || cell[0] != ' ') && ',' !in cell && '\r' !in cell && '\n' !in cell
  {
    LineEndsAreGone('\r', input, i, j);
    LineEndsAreGone('\n', input, i, j);
    RowIsTrimmed(First(Parts(Clean(input), '\0', ""), MaxRows)[i], j);
  }

  lemma RowIsTrimmed(part: string, j: nat)
    requires j < |Row(part)|
    ensures Row(part)[j] == Cut(Tokens(part)[j][Spaces(Tokens(part)[j])..], 32)
    ensures |Row(part)[j]| < 32 && (Row(part)[j] == "" || Row(part)[j][0] != ' ') && ',' !in Row(part)[j]
  {
    TokensHaveNoComma(part, j);
    SpacesAreSkipped(Tokens(part)[j]);
  }

  // ---------- the theorem ----------

  /** At most 64 rows of at most 16 cells, each shorter than 32 characters. */
  lemma FitsIs(t: seq<seq<string>>)
    ensures Fits(t) <==>
      |t| <= 64 && forall i :: 0 <= i < |t| ==> |t[i]| <= 16 && forall j :: 0 <= j < |t[i]| ==> |t[i][j]| < 32
  {
  }

  lemma ParsedFits(input: string)
    ensures Fits(Parse(input))
  {
    forall i, j | 0 <= i < |Parse(input)| && 0 <= j < |Parse(input)[i]| ensures |Parse(input)[i][j]| < 32 {
      CellsAreTrimmed(input, i, j);
    }
  }

  /** A table is read back from its print if and only if it is within the limits, its very first cell
      has no sign, and the reply fits. */
  lemma RoundTrip(t: seq<seq<string>>, tail: string)
    requires Table(t) && Lacks(t, 'O')
    ensures Parse(Print(t) + "\r\nOK" + tail) == t <==> Fits(t) && !StartsWithSign(t) && ReplyFits(t)
  {
    if !Fits(t) {
      ParsedFits(Print(t) + "\r\nOK" + tail);
    } else if StartsWithSign(t) {
      SignedTableIsLost(t, tail);
    } else if |Print(t)| >= BufferSize {
      CutTableIsLost(t, tail);
    } else {
      CleanTable(t, tail);
      if |Print(t)| == 4092 {
        StrayO(t);
      } else {
        PrintIsParted(t);
        FittingRows(t);
        assert Print(t)[..|Print(t)|] == Print(t);
      }
    }
  }
}
