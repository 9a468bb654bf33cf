/** How a statement gets from database.c to SQLite, and what is left of a literal on the way. */
module SqlStatements {
  import opened Basics
  import opened CStrings
  import opened SqlText

  // ---------- the shell ----------

  /** What a backslash protects between double quotes. */
  predicate Special(c: char) {
    c == '$' || c == '`' || c == '"' || c == '\\' || c == '\n'
  }

  /** What a dollar sign needs after it to stand for something. */
  predicate Expands(c: char) {
    || 'a' <= c <= 'z' || 'A' <= c <= 'Z' || '0' <= c <= '9' || c == '_' || c == '{' || c == '('
    || c == '@' || c == '*' || c == '#' || c == '?' || c == '-' || c == '$' || c == '!'
  }

  /** A backslash before a newline joins the lines. */
  function Joined(s: string): (r: string)
    ensures |r| <= |s| && (|r| == |s| ==> r == s)
  {
    if |s| > 1 && s[0] == '\\' && s[1] == '\n' then Joined(s[2..]) else s
  }

  /** What the shell makes of a text between double quotes; None where it would expand something or
      where the text ends the quotes itself.  There are no arguments, so $1 to $9 are empty. */
  function Shell(s: string): Option<string>
    decreases |s|
  {
    if s == "" then Some("")
    else if s[0] == '`' || s[0] == '"' then None
    else if s[0] == '$' then
      var t := Joined(s[1..]);
      if t != "" && '1' <= t[0] <= '9' then Shell(t[1..])
      else if t != "" && Expands(t[0]) then None
      else Prepend('$', Shell(t))
    else if s[0] == '\\' && |s| > 1 && Special(s[1]) then
      if s[1] == '\n' then Shell(s[2..]) else Prepend(s[1], Shell(s[2..]))
    else Prepend(s[0], Shell(s[1..]))
  }

  // What follows a dollar sign decides.

  /** An argument is empty. */
  lemma ArgumentIsEmpty(c: char, s: string)
    requires '1' <= c <= '9'
    ensures Shell(['$', c] + s) == Shell(s)
  {
    assert (['$', c] + s)[1..] == [c] + s && ([c] + s)[1..] == s;
  }

  /** A name, a brace, a parenthesis or a special parameter is expanded. */
  lemma NameIsExpanded(c: char, s: string)
    requires 'a' <= c <= 'z' || 'A' <= c <= 'Z' || c in "0_{(@*#?-$!"
    ensures Shell(['$', c] + s) == None
  {
    assert (['$', c] + s)[1..] == [c] + s;
  }

  /** Lines are joined first. */
  lemma LinesAreJoined(s: string)
    ensures Shell(['$', '\\', '\n'] + s) == Shell(['$'] + s)
  {
    assert (['$', '\\', '\n'] + s)[1..] == ['\\', '\n'] + s && (['\\', '\n'] + s)[2..] == s && (['$'] + s)[1..] == s;
  }

  /** Before anything else it stays. */
  lemma DollarStays(c: char, s: string)
    requires c in " .,:;/%&='|)}]+~^<>"
    ensures Shell(['$', c] + s) == Prepend('$', Shell([c] + s))
  {
    assert (['$', c] + s)[1..] == [c] + s;
  }

  /** The shell leaves this character alone. */
  predicate CleanAt(s: string, i: nat)
    requires i < |s|
  {
    && s[i] != '`' && s[i] != '"'
    && (s[i] == '$' && i + 1 < |s| ==> !Expands(s[i + 1]))
    && (s[i] == '\\' && i + 1 < |s| ==> !Special(s[i + 1]))
  }

  predicate Clean(s: string) {
    forall i :: 0 <= i < |s| ==> CleanAt(s, i)
  }

  lemma CleanRest(s: string)
    requires s != ""
    ensures Clean(s) <==> CleanAt(s, 0) && Clean(s[1..])
  {
    assert forall i :: 0 <= i < |s| - 1 ==> CleanAt(s[1..], i) == CleanAt(s, i + 1);
    if CleanAt(s, 0) && Clean(s[1..]) {
      forall i | 0 <= i < |s| ensures CleanAt(s, i) {
        assert i > 0 ==> CleanAt(s[1..], i - 1);
      }
    }
  }

  /** The shell never adds anything, and what it takes away is what is not clean. */
  lemma {:induction false} ShellShrinks(s: string)
    ensures Clean(s) ==> Shell(s) == Some(s)
    ensures Shell(s).Some? ==> |Shell(s).value| <= |s| && (|Shell(s).value| == |s| ==> Clean(s))
    decreases |s|
  {
    if s != "" {
      CleanRest(s);
      assert [s[0]] + s[1..] == s;
      ShellShrinks(s[1..]);
      if s[0] == '$' {
        DollarShrinks(s);
      } else if |s| > 1 {
        ShellShrinks(s[2..]);
      }
    }
  }

  lemma {:induction false} DollarShrinks(s: string)
    requires s != "" && s[0] == '$'
    ensures var t := Joined(s[1..]);
      (Clean(s) ==> t == s[1..] && (t == "" || !Expands(t[0])))
      && (Shell(s).Some? ==> |Shell(s).value| <= |s| && (|Shell(s).value| == |s| ==> t == s[1..] && (t == "" || !Expands(t[0]))))
    decreases |s|, 0
  {
    var t := Joined(s[1..]);
    CleanRest(s);
    if |s| > 2 && s[1] == '\\' && s[2] == '\n' {
      assert !CleanAt(s, 1);
    }
    ShellShrinks(t);
    if t != "" {
      ShellShrinks(t[1..]);
    }
  }

  lemma CleanBoth(x: string, y: string)
    requires x != "" && y != "" && x[|x| - 1] == '\\' ==> !Special(y[0])
    requires x != "" && y != "" && x[|x| - 1] == '$' ==> !Expands(y[0])
    ensures Clean(x + y) <==> Clean(x) && Clean(y)
  {
    var s := x + y;
    assert forall i :: 0 <= i < |y| ==> CleanAt(s, |x| + i) == CleanAt(y, i);
    assert forall i :: 0 <= i < |x| ==> CleanAt(s, i) == CleanAt(x, i);
    if Clean(x) && Clean(y) {
      forall i | 0 <= i < |s| ensures CleanAt(s, i) {
        assert i >= |x| ==> CleanAt(y, i - |x|);
      }
    }
    if Clean(s) {
      forall i | 0 <= i < |y| ensures CleanAt(y, i) {
        assert CleanAt(s, |x| + i);
      }
    }
  }

  // ---------- the file ----------

  /** What sqlite3 reads from a file: a line may end with a carriage return and a newline. */
  function FileRead(s: string): string {
    if s == "" then ""
    else if s[0] == '\r' && |s| > 1 && s[1] == '\n' then FileRead(s[1..])
    else [s[0]] + FileRead(s[1..])
  }

  predicate IntactAt(s: string, i: nat)
    requires i < |s|
  {
    s[i] == '\r' && i + 1 < |s| ==> s[i + 1] != '\n'
  }

  predicate Intact(s: string) {
    forall i :: 0 <= i < |s| ==> IntactAt(s, i)
  }

  lemma IntactRest(s: string)
    requires s != ""
    ensures Intact(s) <==> IntactAt(s, 0) && Intact(s[1..])
  {
    assert forall i :: 0 <= i < |s| - 1 ==> IntactAt(s[1..], i) == IntactAt(s, i + 1);
    if IntactAt(s, 0) && Intact(s[1..]) {
      forall i | 0 <= i < |s| ensures IntactAt(s, i) {
        assert i > 0 ==> IntactAt(s[1..], i - 1);
      }
    }
  }

  lemma {:induction false} FileShrinks(s: string)
    ensures Intact(s) ==> FileRead(s) == s
    ensures |FileRead(s)| <= |s| && (|FileRead(s)| == |s| ==> Intact(s))
  {
    if s != "" {
      IntactRest(s);
      FileShrinks(s[1..]);
      assert [s[0]] + s[1..] == s;
    }
  }

  lemma IntactBoth(x: string, y: string)
    requires y == "" || x == "" || y[0] != '\n' || x[|x| - 1] != '\r'
    ensures Intact(x + y) <==> Intact(x) && Intact(y)
  {
    var s := x + y;
    assert forall i :: 0 <= i < |y| ==> IntactAt(s, |x| + i) == IntactAt(y, i);
    assert forall i :: 0 <= i < |x| ==> IntactAt(s, i) == IntactAt(x, i);
    if Intact(x) && Intact(y) {
      forall i | 0 <= i < |s| ensures IntactAt(s, i) {
        assert i >= |x| ==> IntactAt(y, i - |x|);
      }
    }
    if Intact(s) {
      forall i | 0 <= i < |y| ensures IntactAt(y, i) {
        assert IntactAt(s, |x| + i);
      }
    }
  }

  // ---------- a literal in a statement ----------

  /** The text of a statement before a literal, up to its opening quote, and after its closing one. */
  datatype Frame = Frame(head: string, tail: string)

  /** Nothing that the shell, db_execute or the reading of a file looks at. */
  predicate Ordinary(s: string) {
    forall i :: 0 <= i < |s| ==> !Special(s[i]) && s[i] != '\r'
  }

  predicate Plain(f: Frame) {
    Ordinary(f.head) && Ordinary(f.tail) && f.tail != "" && f.tail[0] != '\''
  }

  lemma OrdinaryBoth(x: string, y: string)
    requires Ordinary(x) && Ordinary(y)
    ensures Ordinary(x + y)
  {
  }

  lemma OrdinaryIsClean(s: string)
    requires Ordinary(s)
    ensures Clean(s) && Intact(s)
  {
    assert forall i :: 0 <= i < |s| ==> CleanAt(s, i) && IntactAt(s, i);
  }

  /** The words the statements are made of. */
  lemma PieceIsOrdinary(s: string)
    requires s in ["SELECT COUNT(*) FROM ", "auth_tokens ", "WHERE token='", " AND expire_time > ", "DELETE FROM "]
          || s in ["INSERT INTO sms ", "(sender, content, ", "timestamp, is_read) ", "VALUES ('", "', '", ", 0);"]
    ensures Ordinary(s)
  {
    if s in ["SELECT COUNT(*) FROM ", "auth_tokens ", "WHERE token='", " AND expire_time > ", "DELETE FROM "] {
      TokenPiece(s);
    } else {
      MessagePiece(s);
    }
  }

  lemma TokenPiece(s: string)
    requires s == "SELECT COUNT(*) FROM " || s == "auth_tokens " || s == "WHERE token='" || s == " AND expire_time > " || s == "DELETE FROM "
    ensures Ordinary(s)
  {
  }

  lemma MessagePiece(s: string)
    requires s == "INSERT INTO sms " || s == "(sender, content, " || s == "timestamp, is_read) " || s == "VALUES ('" || s == "', '" || s == ", 0);"
    ensures Ordinary(s)
  {
  }

  function Statement(f: Frame, inserted: string): string {
    f.head + (inserted + "'" + f.tail)
  }

  /** The value of the literal, if the text that arrives is the statement with some literal. */
  function Compared(f: Frame, arrived: Option<string>): Option<string> {
    if arrived.None? || !Prefix(f.head, arrived.value) then None
    else
      var r := ReadLiteral(arrived.value[|f.head|..]);
      if r.Some? && r.value.1 == f.tail then Some(r.value.0) else None
  }

  /** A literal can only have been written in one way. */
  lemma {:induction false} LiteralIsDoubled(s: string)
    requires ReadLiteral(s).Some?
    ensures var (value, rest) := ReadLiteral(s).value; s == Escape(value, QuoteChar) + ("'" + rest)
  {
    var (value, rest) := ReadLiteral(s).value;
    if s[0] != '\'' {
      LiteralIsDoubled(s[1..]);
      DoubledStep(s[0], ReadLiteral(s[1..]).value.0, rest);
      assert s == [s[0]] + s[1..];
    } else if |s| > 1 && s[1] == '\'' {
      LiteralIsDoubled(s[2..]);
      DoubledStep('\'', ReadLiteral(s[2..]).value.0, rest);
      assert s == "''" + s[2..];
    } else {
      assert s == "'" + rest && Escape("", QuoteChar) + ("'" + rest) == "'" + rest;
    }
  }

  lemma DoubledStep(c: char, value: string, rest: string)
    ensures Escape([c] + value, QuoteChar) + ("'" + rest) == QuoteChar(c) + (Escape(value, QuoteChar) + ("'" + rest))
  {
    assert ([c] + value)[1..] == value;
    Regroup(QuoteChar(c), Escape(value, QuoteChar), "'" + rest);
  }

  lemma {:induction false} QuotedLonger(s: string)
    ensures |Escape(s, QuoteChar)| >= |s|
    ensures Escape(s, QuoteChar) == s <==> '\'' !in s
    ensures |Escape(s, QuoteChar)| == |s| ==> '\'' !in s
  {
    if s != "" {
      QuotedLonger(s[1..]);
      assert s == [s[0]] + s[1..];
      assert QuoteChar(s[0]) + Escape(s[1..], QuoteChar) == Escape(s, QuoteChar);
    }
  }

  lemma ReadsBack(value: string, tail: string)
    requires tail != "" && tail[0] != '\''
    ensures ReadLiteral(Escape(value, QuoteChar) + "'" + tail) == Some((value, tail))
  {
    BothAreSafe();
    LiteralEnds(value, tail, QuoteChar);
    QuotesAreUndone(value);
  }

  /** A text is read back from between quotes as it is if and only if it has no quote. */
  lemma QuoteFreeIsReadBack(s: string, tail: string)
    requires tail != "" && tail[0] != '\''
    ensures ReadLiteral(s + "'" + tail) == Some((s, tail)) <==> '\'' !in s
  {
    QuotedLonger(s);
    ReadsBack(s, tail);
    if ReadLiteral(s + "'" + tail) == Some((s, tail)) {
      LiteralIsDoubled(s + "'" + tail);
      assert |s + "'" + tail| == |Escape(s, QuoteChar) + ("'" + tail)|;
    }
  }

  /** What arrives has the length that its literal says. */
  lemma ArrivedLength(f: Frame, d: string, value: string)
    requires Compared(f, Some(d)) == Some(value)
    ensures |d| == |f.head| + |Escape(value, QuoteChar)| + 1 + |f.tail|
    ensures d == f.head + (Escape(value, QuoteChar) + "'" + f.tail)
  {
    LiteralIsDoubled(d[|f.head|..]);
    assert d == f.head + d[|f.head|..];
    Regroup(Escape(value, QuoteChar), "'", f.tail);
  }

  lemma ArrivesWhole(f: Frame, value: string)
    requires f.tail != "" && f.tail[0] != '\''
    ensures Compared(f, Some(Statement(f, Escape(value, QuoteChar)))) == Some(value)
  {
    var d := Statement(f, Escape(value, QuoteChar));
    assert d[|f.head|..] == Escape(value, QuoteChar) + "'" + f.tail;
    ReadsBack(value, f.tail);
  }

  lemma SameInside(f: Frame, a: string, b: string)
    requires Statement(f, a) == Statement(f, b)
    ensures a == b
  {
    var s := Statement(f, a);
    assert |a| == |b|;
    assert s[|f.head|..|f.head| + |a|] == a && s[|f.head|..|f.head| + |b|] == b;
  }

  /** By any way that adds nothing and leaves alone what is `whole`: the value arrives if and only if
      it was escaped and the statement is whole. */
  lemma RoutedLiteral(f: Frame, inserted: string, value: string, arrived: Option<string>, whole: bool)
    requires Plain(f) && |inserted| <= |Escape(value, QuoteChar)|
    requires whole ==> arrived == Some(Statement(f, inserted))
    requires arrived.Some? ==> |arrived.value| <= |Statement(f, inserted)|
    requires arrived.Some? && |arrived.value| == |Statement(f, inserted)| ==> whole
    ensures Compared(f, arrived) == Some(value) <==> whole && inserted == Escape(value, QuoteChar)
  {
    ArrivesWhole(f, value);
    if Compared(f, arrived) == Some(value) {
      ArrivedLength(f, arrived.value, value);
      SameInside(f, inserted, Escape(value, QuoteChar));
    }
  }

  lemma StatementIsClean(f: Frame, inserted: string)
    requires Plain(f)
    ensures Clean(Statement(f, inserted)) <==> Clean(inserted)
    ensures Intact(Statement(f, inserted)) <==> Intact(inserted)
  {
    OrdinaryIsClean(f.head);
    OrdinaryIsClean("'" + f.tail);
    CleanBoth(inserted, "'" + f.tail);
    IntactBoth(inserted, "'" + f.tail);
    Regroup(inserted, "'", f.tail);
    HeadIsClean(f.head, inserted + "'" + f.tail);
  }

  lemma HeadIsClean(head: string, rest: string)
    requires Ordinary(head)
    ensures Clean(head + rest) <==> Clean(rest)
    ensures Intact(head + rest) <==> Intact(rest)
  {
    OrdinaryIsClean(head);
    assert head != "" ==> !Special(head[|head| - 1]);
    CleanBoth(head, rest);
    IntactBoth(head, rest);
  }

  // ---------- the two ways into SQLite ----------

  /** db_execute writes a statement to a file when it is long or has a double quote or a newline, and
      otherwise passes it through the shell. */
  predicate Filed(sql: string) {
    |sql| > 1000 || '"' in sql || '\n' in sql
  }

  function Executed(sql: string): Option<string> {
    if Filed(sql) then Some(FileRead(sql)) else Shell(sql)
  }

  /** A statement of more than 1000 characters, or with a double quote or a newline, goes through the
      file, any other one through the shell. */
  lemma RouteIs(sql: string)
    ensures Executed(sql) == if |sql| <= 1000 && '"' !in sql && '\n' !in sql then Shell(sql) else Some(FileRead(sql))
  {
  }

  /** The way to SQLite leaves the text alone. */
  predicate Undisturbed(sql: string, text: string) {
    if Filed(sql) then Intact(text) else Clean(text)
  }

  /** What is cut off is never added again. */
  lemma NothingComesBack(f: Frame, sql: string, size: nat, value: string)
    requires size > 0 && |f.head| + |Escape(value, QuoteChar)| + 1 + |f.tail| >= size
    ensures Compared(f, Shell(Cut(sql, size))) != Some(value) && Compared(f, Executed(Cut(sql, size))) != Some(value)
  {
    var cut := Cut(sql, size);
    ShellShrinks(cut);
    FileShrinks(cut);
    if Compared(f, Shell(cut)) == Some(value) {
      ArrivedLength(f, Shell(cut).value, value);
    }
    if Compared(f, Some(FileRead(cut))) == Some(value) {
      ArrivedLength(f, FileRead(cut), value);
    }
  }

  lemma ExecutedLiteral(f: Frame, inserted: string, value: string)
    requires Plain(f) && |inserted| <= |Escape(value, QuoteChar)|
    ensures var sql := Statement(f, inserted);
      Compared(f, Executed(sql)) == Some(value) <==> Undisturbed(sql, inserted) && inserted == Escape(value, QuoteChar)
  {
    var sql := Statement(f, inserted);
    StatementIsClean(f, inserted);
    ShellShrinks(sql);
    FileShrinks(sql);
    RoutedLiteral(f, inserted, value, Executed(sql), Undisturbed(sql, inserted));
  }

  lemma ShelledLiteral(f: Frame, inserted: string, value: string)
    requires Plain(f) && |inserted| <= |Escape(value, QuoteChar)|
    ensures Compared(f, Shell(Statement(f, inserted))) == Some(value) <==> Clean(inserted) && inserted == Escape(value, QuoteChar)
  {
    StatementIsClean(f, inserted);
    ShellShrinks(Statement(f, inserted));
    RoutedLiteral(f, inserted, value, Shell(Statement(f, inserted)), Clean(inserted));
  }

  /** A text that is inserted as it is, by way of db_query_int and a buffer: it is compared with
      itself if and only if it has no quote, is clean and fits. */
  lemma QueriedAsIs(f: Frame, text: string, size: nat)
    requires Plain(f) && size > 0
    ensures Compared(f, Shell(Cut(Statement(f, text), size))) == Some(text) <==>
      '\'' !in text && Clean(text) && |Statement(f, text)| < size
  {
    QuotedLonger(text);
    if |Statement(f, text)| < size {
      ShelledLiteral(f, text, text);
    } else {
      NothingComesBack(f, Statement(f, text), size, text);
    }
  }

  /** And by way of db_execute, where a statement that goes to the file need not be clean. */
  lemma ExecutedAsIs(f: Frame, text: string, size: nat)
    requires Plain(f) && size > 0
    ensures Compared(f, Executed(Cut(Statement(f, text), size))) == Some(text) <==>
      '\'' !in text && Undisturbed(Statement(f, text), text) && |Statement(f, text)| < size
  {
    QuotedLonger(text);
    if |Statement(f, text)| < size {
      ExecutedLiteral(f, text, text);
    } else {
      NothingComesBack(f, Statement(f, text), size, text);
    }
  }

  /** A text whose quotes are doubled, by way of db_execute. */
  lemma ExecutedDoubled(f: Frame, text: string, size: nat)
    requires Plain(f) && size > 0
    ensures var sql := Statement(f, Escape(text, QuoteChar));
      Compared(f, Executed(Cut(sql, size))) == Some(text) <==> Undisturbed(sql, text) && |sql| < size
  {
    var sql := Statement(f, Escape(text, QuoteChar));
    CleanDoubled(text);
    if |sql| < size {
      ExecutedLiteral(f, Escape(text, QuoteChar), text);
    } else {
      NothingComesBack(f, sql, size, text);
    }
  }

  lemma {:induction false} CleanDoubled(s: string)
    ensures Clean(Escape(s, QuoteChar)) <==> Clean(s)
    ensures Intact(Escape(s, QuoteChar)) <==> Intact(s)
  {
    if s != "" {
      var later := Escape(s[1..], QuoteChar);
      CleanDoubled(s[1..]);
      CleanRest(s);
      IntactRest(s);
      FirstOfDoubled(s[1..]);
      if s[0] == '\'' {
        QuotesBefore(later);
        assert Escape(s, QuoteChar) == "''" + later;
      } else {
        var e := [s[0]] + later;
        assert Escape(s, QuoteChar) == e && e[1..] == later;
        CleanRest(e);
        IntactRest(e);
      }
    }
  }

  lemma QuotesBefore(later: string)
    ensures Clean("''" + later) <==> Clean(later)
    ensures Intact("''" + later) <==> Intact(later)
  {
    HeadIsClean("''", later);
  }

  lemma FirstOfDoubled(s: string)
    ensures s == "" <==> Escape(s, QuoteChar) == ""
    ensures s != "" ==> Escape(s, QuoteChar)[0] == s[0]
  {
    if s != "" {
      assert Escape(s, QuoteChar) == QuoteChar(s[0]) + Escape(s[1..], QuoteChar);
    }
  }

  // ---------- what a statement with quotes in the wrong place says ----------

  /** How SQLite reads what arrives: as the comparison with one value; as that or, besides, the
      comparison of two literals; as text with a literal that never ends, of which it executes
      nothing; or as something that the model leaves open. */
  datatype Reading =
    | Compares(value: string)
    | Either(value: string, left: string, right: string)
    | Unfinished
    | Open

  predicate WordChar(c: char) {
    'a' <= c <= 'z' || 'A' <= c <= 'Z' || '0' <= c <= '9' || c == ' ' || c == '_'
  }

  /** Where the first quote is, or the length. */
  function QuoteAt(s: string): (n: nat)
    ensures n <= |s| && '\'' !in s[..n] && (n < |s| ==> s[n] == '\'')
  {
    if s == "" || s[0] == '\'' then 0
    else
      var n := 1 + QuoteAt(s[1..]);
      assert s[..n] == [s[0]] + s[1..][..n - 1];
      n
  }

  /** Words, and then a literal that never ends. */
  predicate Dangles(s: string) {
    var n := QuoteAt(s);
    n < |s| && (forall i :: 0 <= i < n ==> WordChar(s[i])) && ReadLiteral(s[n + 1..]).None?
  }

  function ReadEither(value: string, rest: string, tail: string): Option<Reading> {
    if !Prefix(" OR '", rest) || ReadLiteral(rest[5..]).None? then None
    else
      var (left, after) := ReadLiteral(rest[5..]).value;
      if !Prefix("='", after) || ReadLiteral(after[2..]).None? then None
      else
        var (right, end) := ReadLiteral(after[2..]).value;
        if end == tail then Some(Either(value, left, right)) else None
  }

  function ReadStatement(f: Frame, arrived: Option<string>): Reading {
    if arrived.None? || !Prefix(f.head, arrived.value) then Open
    else match ReadLiteral(arrived.value[|f.head|..])
      case None => Unfinished
      case Some((value, rest)) =>
        if rest == f.tail then Compares(value)
        else if ReadEither(value, rest, f.tail).Some? then ReadEither(value, rest, f.tail).value
        else if Dangles(rest) then Unfinished
        else Open
  }

  lemma ReadCompares(f: Frame, arrived: Option<string>, value: string)
    ensures Compared(f, arrived) == Some(value) <==> ReadStatement(f, arrived) == Compares(value)
  {
  }

  /** The text between the quotes of a statement that compares two more literals. */
  function EitherText(value: string, left: string, right: string): string {
    Escape(value, QuoteChar) + "' OR '" + Escape(left, QuoteChar) + "'='" + Escape(right, QuoteChar)
  }

  lemma EitherIsRead(f: Frame, value: string, left: string, right: string)
    requires Plain(f)
    ensures ReadStatement(f, Some(Statement(f, EitherText(value, left, right)))) == Either(value, left, right)
  {
    var l, r := Escape(left, QuoteChar), Escape(right, QuoteChar);
    var third := r + "'" + f.tail;
    var second := l + "'" + ("='" + third);
    var rest := " OR '" + second;
    var d := Statement(f, EitherText(value, left, right));
    EitherSplits(Escape(value, QuoteChar), l, r, f.tail);
    assert d[|f.head|..] == Escape(value, QuoteChar) + "'" + rest;
    ReadsBack(value, rest);
    assert rest[5..] == second && rest[..5] == " OR '";
    ReadsBack(left, "='" + third);
    assert ("='" + third)[2..] == third && ("='" + third)[..2] == "='";
    ReadsBack(right, f.tail);
    QuotedLonger(left);
    QuotedLonger(right);
  }

  lemma EitherSplits(v: string, l: string, r: string, tail: string)
    ensures (v + "' OR '" + l + "'='" + r) + "'" + tail == v + "'" + (" OR '" + (l + "'" + ("='" + (r + "'" + tail))))
  {
  }
}
