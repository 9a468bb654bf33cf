/** A printed table is parsed into its cells again.

    The proof goes by the two separators: a comma ends a cell, a dash before a number ends a row,
    and a dash after a comma is a sign.  Cleaning the reply leaves the print as it is. */
module CellRoundTrip {
  import opened Basics
  import opened CStrings
  import opened CellText

  // ---------- one row ----------

  lemma {:induction false} TokenLengthOf(x: string, s: string)
    requires ',' !in x && (s == "" || s[0] == ',')
    ensures TokenLength(x + s) == |x|
  {
    if x != "" {
      assert (x + s)[0] == x[0] && (x + s)[1..] == x[1..] + s;
      TokenLengthOf(x[1..], s);
    } else {
      assert x + s == s;
    }
  }

  lemma TokensOf(x: string, s: string)
    requires x != "" && ',' !in x && (s == "" || s[0] == ',')
    ensures Tokens(x + s) == [x] + Tokens(s)
  {
    TokenLengthOf(x, s);
    assert (x + s)[0] == x[0];
    assert x[0] in x;
    assert (x + s)[..|x|] == x && (x + s)[|x|..] == s;
  }

  lemma TokensOfTwo(x: string, y: string)
    requires x != "" && ',' !in x
    ensures Tokens(x + "," + y) == [x] + Tokens(y)
  {
    var rest := "," + y;
    TokensOf(x, rest);
    assert rest[1..] == y;
    assert x + "," + y == x + rest;
  }

  lemma {:induction false} RowSurvives(row: seq<string>)
    requires Numbers(row)
    ensures PrintRow(row) != "" && Tokens(PrintRow(row)) == row
  {
    var x := row[0];
    NoComma(x);
    if |row| == 1 {
      TokensOf(x, "");
      assert x + "" == x;
    } else {
      RowSurvives(row[1..]);
      TokensOfTwo(x, PrintRow(row[1..]));
    }
  }

  lemma NoComma(x: string)
    requires Number(x)
    ensures x != "" && ',' !in x && x[0] != ' '
    ensures forall i :: 0 < i < |x| ==> Plain(x[i])
    ensures Plain(x[0]) || (x[0] == '-' && |x| > 1)
  {
    var digits := Digits(x);
    forall i | 0 <= i < |x| ensures Plain(x[i]) || (i == 0 && x[i] == '-') {
      if x[0] == '-' && i > 0 {
        assert x[i] == digits[i - 1];
      } else {
        assert i > 0 ==> x[i] == digits[i];
      }
    }
    if x[0] == '-' {
      forall i | 0 < i < |x| ensures Plain(x[i]) {
        assert x[i] == digits[i - 1];
      }
    }
  }

  // ---------- rows ----------

  /** Every dash is a sign, with `prev` before the text. */
  predicate Inert(x: string, prev: char) {
    && (x != "" && x[0] == '-' ==> prev == ',')
    && forall i :: 0 < i < |x| && x[i] == '-' ==> x[i - 1] == ','
  }

  lemma {:induction false} InertGoesToPart(x: string, s: string, prev: char, part: string)
    requires Inert(x, prev)
    ensures Parts(x + s, prev, part) == Parts(s, if x == "" then prev else x[|x| - 1], part + x)
    decreases |x|
  {
    if x == "" {
      assert x + s == s && part + x == part;
    } else {
      assert (x + s)[0] == x[0] && (x + s)[1..] == x[1..] + s;
      assert part + [x[0]] + x[1..] == part + x;
      assert |x| > 1 ==> x[1..][|x| - 2] == x[|x| - 1];
      assert forall i :: 0 <= i < |x[1..]| ==> x[1..][i] == x[i + 1];
      InertGoesToPart(x[1..], s, x[0], part + [x[0]]);
    }
  }

  lemma {:induction false} RowIsInert(row: seq<string>)
    requires Numbers(row)
    ensures var r := PrintRow(row);
      && r != "" && r[0] == row[0][0] && Plain(r[|r| - 1]) && Inert(r, ',')
      && (r[0] == '-' ==> |r| > 1 && Plain(r[1]))
  {
    NoComma(row[0]);
    if |row| > 1 {
      RowIsInert(row[1..]);
      JoinIsInert(row[0], PrintRow(row[1..]));
    }
  }

  /** A number and more of a row. */
  lemma JoinIsInert(x: string, rest: string)
    requires x != "" && (forall i :: 0 < i < |x| ==> Plain(x[i])) && (Plain(x[0]) || (x[0] == '-' && |x| > 1))
    requires rest != "" && Plain(rest[|rest| - 1]) && Inert(rest, ',')
    ensures var r := x + "," + rest;
      && r[0] == x[0] && Plain(r[|r| - 1]) && Inert(r, ',') && (r[0] == '-' ==> |r| > 1 && Plain(r[1]))
  {
    var r := x + "," + rest;
    assert r[|r| - 1] == rest[|rest| - 1];
    assert r[0] == x[0] && (|x| > 1 ==> r[1] == x[1]);
    assert forall i :: 0 < i < |x| ==> r[i] == x[i];
    forall i | 0 < i < |r| && r[i] == '-' ensures r[i - 1] == ',' {
      if i > |x| {
        var j := i - |x| - 1;
        assert r[i] == rest[j];
        assert j > 0 ==> r[i - 1] == rest[j - 1];
      }
    }
  }

  lemma InertFromHere(r: string, prev: char)
    requires Inert(r, ',') && r != ""
    ensures r[0] != '-' ==> Inert(r, prev)
    ensures |r| > 1 && r[1] != '-' ==> Inert(r[1..], prev)
  {
    assert forall i :: 0 <= i < |r[1..]| ==> r[1..][i] == r[i + 1];
  }

  function Printed(t: seq<seq<string>>): (r: seq<string>)
    requires Rectangular(t)
    ensures |r| == |t|
    ensures forall i :: 0 <= i < |r| ==> r[i] == PrintRow(t[i])
  {
    seq(|t|, i requires 0 <= i < |t| => PrintRow(t[i]))
  }

  /** A dash ends a row, and the row after it may start with a sign. */
  lemma DashEndsRow(r: string, rest: string, prev: char, part: string)
    requires r != "" && Inert(r, ',') && (r[0] == '-' ==> |r| > 1 && r[1] != '-')
    requires part != "" && prev != ','
    ensures Parts("-" + r + rest, prev, part) == [part] + Parts(rest, r[|r| - 1], r)
  {
    var s := "-" + r + rest;
    assert s[0] == '-' && s[1] == r[0] && s[1..] == r + rest;
    InertFromHere(r, '-');
    if r[0] == '-' {
      assert s[2..] == r[1..] + rest;
      InertGoesToPart(r[1..], rest, '-', "-");
      assert "-" + r[1..] == r && r[1..][|r| - 2] == r[|r| - 1];
    } else {
      InertGoesToPart(r, rest, '-', "");
      assert "" + r == r;
    }
  }

  lemma {:induction false} RestIsParted(t: seq<seq<string>>, prev: char, part: string)
    requires Table(t) && part != "" && prev != ','
    ensures Parts(PrintRest(t), prev, part) == [part] + Printed(t)
    decreases |t|
  {
    if t == [] {
      assert Printed(t) == [];
    } else {
      var r := PrintRow(t[0]);
      RowIsInert(t[0]);
      DashEndsRow(r, PrintRest(t[1..]), prev, part);
      RestIsParted(t[1..], r[|r| - 1], r);
      assert Printed(t) == [r] + Printed(t[1..]);
    }
  }

  predicate StartsWithSign(t: seq<seq<string>>) {
    t != [] && t[0] != [] && t[0][0] != "" && t[0][0][0] == '-'
  }

  lemma PrintIsParted(t: seq<seq<string>>)
    requires Table(t) && !StartsWithSign(t)
    ensures Parts(Print(t), '\0', "") == Printed(t)
  {
    if t != [] {
      var r := PrintRow(t[0]);
      RowIsInert(t[0]);
      NoComma(t[0][0]);
      InertFromHere(r, '\0');
      InertGoesToPart(r, PrintRest(t[1..]), '\0', "");
      assert "" + r == r;
      RestIsParted(t[1..], r[|r| - 1], r);
      assert Printed(t) == [r] + Printed(t[1..]);
    }
  }

  /** Each row comes back, cut to what a row and a cell can hold. */
  lemma PrintedRows(t: seq<seq<string>>)
    requires Table(t)
    ensures |Rows(Printed(t))| == |t|
    ensures forall i :: 0 <= i < |t| ==> Rows(Printed(t))[i] == First(Cells(t[i]), MaxCols)
  {
    forall i | 0 <= i < |t| ensures Row(PrintRow(t[i])) == First(Cells(t[i]), MaxCols) {
      RowSurvives(t[i]);
    }
  }

  lemma CellSurvives(x: string)
    requires Number(x)
    ensures Cell(x) == Cut(x, CellSize)
  {
    NoComma(x);
  }

  lemma RowFits(row: seq<string>)
    requires Numbers(row) && |row| <= MaxCols && forall j :: 0 <= j < |row| ==> |row[j]| < CellSize
    ensures First(Cells(row), MaxCols) == row
  {
    forall j | 0 <= j < |row| ensures Cell(row[j]) == row[j] {
      CellSurvives(row[j]);
    }
  }

  lemma FittingRows(t: seq<seq<string>>)
    requires Table(t) && Fits(t)
    ensures Rows(First(Printed(t), MaxRows)) == t
  {
    PrintedRows(t);
    forall i | 0 <= i < |t| ensures First(Cells(t[i]), MaxCols) == t[i] {
      RowFits(t[i]);
    }
  }

  // ---------- cleaning ----------

  lemma {:induction false} RowLacks(row: seq<string>, c: char)
    requires row != [] && c != ',' && forall j :: 0 <= j < |row| ==> c !in row[j]
    ensures c !in PrintRow(row)
  {
    if |row| > 1 {
      RowLacks(row[1..], c);
    }
  }

  lemma {:induction false} RestLacks(t: seq<seq<string>>, c: char)
    requires Rectangular(t) && c != ',' && c != '-' && Lacks(t, c)
    ensures c !in PrintRest(t)
  {
    if t != [] {
      RowLacks(t[0], c);
      RestLacks(t[1..], c);
    }
  }

  lemma PrintLacks(t: seq<seq<string>>, c: char)
    requires Rectangular(t) && c != ',' && c != '-' && Lacks(t, c)
    ensures c !in Print(t)
  {
    if t != [] {
      RowLacks(t[0], c);
      RestLacks(t[1..], c);
    }
  }

  lemma TableLacks(t: seq<seq<string>>)
    requires Table(t)
    ensures Lacks(t, '\r') && Lacks(t, '\n')
  {
    forall i, j | 0 <= i < |t| && 0 <= j < |t[i]| ensures '\r' !in t[i][j] && '\n' !in t[i][j] {
      NoComma(t[i][j]);
    }
  }

  lemma {:induction false} OkAfter(x: string, s: string)
    requires 'O' !in x
    ensures OkAt(x + s) == |x| + OkAt(s)
  {
    if x == "" {
      assert x + s == s;
    } else {
      assert (x + s)[0] == x[0] && (x + s)[1..] == x[1..] + s;
      OkAfter(x[1..], s);
      if |x + s| < 2 {
        assert s == "";
      }
    }
  }

  lemma {:induction false} NoLineEnds(x: string, s: string)
    requires '\r' !in x && '\n' !in x
    ensures WithoutLineEnds(x + s) == x + WithoutLineEnds(s)
  {
    if x == "" {
      assert x + s == s;
    } else {
      assert (x + s)[0] == x[0] && (x + s)[1..] == x[1..] + s;
      NoLineEnds(x[1..], s);
    }
  }

  lemma CutReply(p: string, tail: string)
    ensures var r := Cut(p + "\r\nOK" + tail, BufferSize);
      if |p| >= 4095 then r == p[..4095]
      else if |p| == 4094 then r == p + "\r"
      else if |p| == 4093 then r == p + "\r\n"
      else if |p| == 4092 then r == p + "\r\nO"
      else exists rest :: r == p + ("\r\nOK" + rest)
  {
    var all := p + "\r\nOK" + tail;
    var r := Cut(all, BufferSize);
    if |p| <= 4091 {
      var n := |r|;
      assert n >= |p| + 4 && r == all[..n];
      assert all == p + ("\r\nOK" + tail);
      assert r == p + ("\r\nOK" + tail)[..n - |p|];
      assert ("\r\nOK" + tail)[..n - |p|] == "\r\nOK" + tail[..n - |p| - 4];
    }
  }

  lemma CleanCut(p: string, end: string)
    requires 'O' !in p && '\r' !in p && '\n' !in p
    requires end in ["", "\r", "\r\n", "\r\nO"] || exists rest :: end == "\r\nOK" + rest
    ensures var s := p + end;
      WithoutLineEnds(s[..OkAt(s)]) == if end == "\r\nO" then p + "O" else p
  {
    var s := p + end;
    OkAfter(p, end);
    if rest :| end == "\r\nOK" + rest {
      OkAfter("\r\n", "OK" + rest);
      assert "\r\n" + ("OK" + rest) == end;
      assert s[..OkAt(s)] == p + "\r\n";
      NoLineEnds(p, "\r\n");
    } else {
      NoOk(end);
      assert s[..OkAt(s)] == p + end;
      NoLineEnds(p, end);
    }
  }

  lemma NoOk(end: string)
    requires end in ["", "\r", "\r\n", "\r\nO"]
    ensures OkAt(end) == |end|
    ensures WithoutLineEnds(end) == if end == "\r\nO" then "O" else ""
  {
    if end == "\r\nO" {
      assert end[1..] == "\nO" && end[1..][1..] == "O";
    }
  }

  /** The reply around a printed table goes away, unless the buffer ends inside "OK" or before. */
  lemma CleanReply(p: string, tail: string)
    requires 'O' !in p && '\r' !in p && '\n' !in p
    ensures Clean(p + "\r\nOK" + tail)
         == if |p| >= 4095 then p[..4095] else if |p| == 4092 then p + "O" else p
  {
    var all := p + "\r\nOK" + tail;
    var r := Cut(all, BufferSize);
    CutReply(p, tail);
    if |p| >= 4095 {
      CleanCut(p[..4095], "");
      assert p[..4095] + "" == r;
    } else {
      assert r[|p|..] == "\r" || r[|p|..] == "\r\n" || r[|p|..] == "\r\nO" || exists rest :: r[|p|..] == "\r\nOK" + rest;
      assert r == p + r[|p|..];
      CleanCut(p, r[|p|..]);
    }
  }
}
