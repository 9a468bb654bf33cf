/** What parse_cell_to_vec of handlers.c reads out of the reply to an AT command: rows of cells,
    where a comma separates cells, and a dash separates rows unless it is the sign of a number. */
module CellText {
  import opened Basics
  import opened CStrings

  const BufferSize := 4096
  const MaxRows := 64
  const MaxCols := 16
  const CellSize := 32

  // ---------- cleaning ----------

  /** Where "OK" starts, or the length. */
  function OkAt(s: string): (n: nat)
    ensures n <= |s|
  {
    if |s| < 2 then |s|
    else if s[0] == 'O' && s[1] == 'K' then 0
    else 1 + OkAt(s[1..])
  }

  function WithoutLineEnds(s: string): (r: string)
    ensures |r| <= |s|
  {
    if s == "" then ""
    else (if s[0] == '\r' || s[0] == '\n' then "" else [s[0]]) + WithoutLineEnds(s[1..])
  }

  function Clean(input: string): (r: string)
    ensures |r| < BufferSize
  {
    var s := Cut(input, BufferSize);
    WithoutLineEnds(s[..OkAt(s)])
  }

  // ---------- rows ----------

  function Flush(part: string): seq<string> {
    if part == "" then [] else [part]
  }

  /** The rows of `s`, `part` being what the current row has so far and `prev` the character
      before `s`. */
  function Parts(s: string, prev: char, part: string): seq<string> {
    if s == "" then Flush(part)
    else if s[0] != '-' || prev == ',' then Parts(s[1..], s[0], part + [s[0]])
    else if |s| > 1 && s[1] == '-' then Flush(part) + Parts(s[2..], '-', "-")
    else Flush(part) + Parts(s[1..], '-', "")
  }

  // ---------- cells ----------

  function TokenLength(s: string): (n: nat)
    ensures n <= |s|
    ensures ',' !in s[..n]
    ensures n < |s| ==> s[n] == ','
  {
    if s == "" || s[0] == ',' then 0 else 1 + TokenLength(s[1..])
  }

  /** What strtok finds: the nonempty pieces between commas. */
  function Tokens(s: string): (r: seq<string>)
    ensures |r| <= |s|
  {
    if s == "" then []
    else if s[0] == ',' then Tokens(s[1..])
    else [s[..TokenLength(s)]] + Tokens(s[TokenLength(s)..])
  }

  function SkipSpaces(s: string): string {
    if s != "" && s[0] == ' ' then SkipSpaces(s[1..]) else s
  }

  function Cell(token: string): string {
    Cut(SkipSpaces(token), CellSize)
  }

  function Cells(tokens: seq<string>): (r: seq<string>)
    ensures |r| == |tokens|
    ensures forall i :: 0 <= i < |r| ==> r[i] == Cell(tokens[i])
  {
    seq(|tokens|, i requires 0 <= i < |tokens| => Cell(tokens[i]))
  }

  function Row(part: string): (r: seq<string>)
    ensures |r| <= MaxCols
  {
    First(Cells(Tokens(part)), MaxCols)
  }

  function Rows(parts: seq<string>): (r: seq<seq<string>>)
    ensures |r| == |parts|
    ensures forall i :: 0 <= i < |r| ==> r[i] == Row(parts[i])
  {
    seq(|parts|, i requires 0 <= i < |parts| => Row(parts[i]))
  }

  function Parse(input: string): (r: seq<seq<string>>)
    ensures |r| <= MaxRows
  {
    Rows(First(Parts(Clean(input), '\0', ""), MaxRows))
  }

  // ---------- printing ----------

  function PrintRow(row: seq<string>): string
    requires row != []
  {
    if |row| == 1 then row[0] else row[0] + "," + PrintRow(row[1..])
  }

  predicate Rectangular(t: seq<seq<string>>) {
    forall i :: 0 <= i < |t| ==> t[i] != []
  }

  function PrintRest(t: seq<seq<string>>): string
    requires Rectangular(t)
  {
    if t == [] then "" else "-" + PrintRow(t[0]) + PrintRest(t[1..])
  }

  function Print(t: seq<seq<string>>): string
    requires Rectangular(t)
  {
    if t == [] then "" else PrintRow(t[0]) + PrintRest(t[1..])
  }

  /** A character of a cell other than a leading sign. */
  predicate Plain(c: char) {
    c != ',' && c != '-' && c != ' ' && c != '\r' && c != '\n'
  }

  /** What follows an optional sign. */
  function Digits(s: string): string {
    if s != "" && s[0] == '-' then s[1..] else s
  }

  predicate Number(s: string) {
    Digits(s) != "" && forall i :: 0 <= i < |Digits(s)| ==> Plain(Digits(s)[i])
  }

  predicate Numbers(row: seq<string>) {
    row != [] && forall i :: 0 <= i < |row| ==> Number(row[i])
  }

  predicate Table(t: seq<seq<string>>) {
    forall i :: 0 <= i < |t| ==> Numbers(t[i])
  }

  predicate Fits(t: seq<seq<string>>) {
    |t| <= MaxRows
    && forall i :: 0 <= i < |t| ==> |t[i]| <= MaxCols && forall j :: 0 <= j < |t[i]| ==> |t[i][j]| < CellSize
  }

  predicate Lacks(t: seq<seq<string>>, c: char) {
    forall i, j :: 0 <= i < |t| && 0 <= j < |t[i]| ==> c !in t[i][j]
  }
}
