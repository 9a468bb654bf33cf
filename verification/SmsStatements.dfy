/** The statement of save_sms_to_db, and what of a message gets into the table. */
module SmsStatements {
  import opened Basics
  import opened CStrings
  import opened SqlText
  import opened SqlStatements
  import SmsText

  const InsertHead := "INSERT INTO sms " + "(sender, content, " + "timestamp, is_read) " + "VALUES ('"

  function InsertFrame(sender: string, timestamp: int): Frame {
    Frame(InsertHead + sender + "', '", ", " + SmsText.Decimal(timestamp) + ", 0);")
  }

  /** The content as it is escaped into its buffer of 1024 characters. */
  function KeptContent(content: string): string {
    content[..Kept(content, 1022, QuoteChar)]
  }

  function InsertStatement(sender: string, content: string, timestamp: int): string {
    Statement(InsertFrame(sender, timestamp), Escape(KeptContent(content), QuoteChar))
  }

  /** The statement as it is printed. */
  lemma StatementIs(sender: string, content: string, timestamp: int)
    ensures InsertStatement(sender, content, timestamp) ==
      ("INSERT INTO sms " + "(sender, content, " + "timestamp, is_read) " + "VALUES ('" + sender + "', '")
      + Escape(KeptContent(content), QuoteChar) + ("'" + (", " + SmsText.Decimal(timestamp) + ", 0);"))
  {
  }

  /** The content that SQLite stores; None if another statement arrives. */
  function StoredContent(sender: string, content: string, timestamp: int): Option<string> {
    Compared(InsertFrame(sender, timestamp), Executed(Cut(InsertStatement(sender, content, timestamp), 2048)))
  }

  lemma InsertFrameIsPlain(sender: string, timestamp: int)
    requires Ordinary(sender)
    ensures Plain(InsertFrame(sender, timestamp))
  {
    var a, b, c, d := "INSERT INTO sms ", "(sender, content, ", "timestamp, is_read) ", "VALUES ('";
    PieceIsOrdinary(a);
    PieceIsOrdinary(b);
    PieceIsOrdinary(c);
    PieceIsOrdinary(d);
    PieceIsOrdinary("', '");
    PieceIsOrdinary(", 0);");
    OrdinaryBoth(a, b);
    OrdinaryBoth(a + b, c);
    OrdinaryBoth(a + b + c, d);
    OrdinaryBoth(InsertHead, sender);
    OrdinaryBoth(InsertHead + sender, "', '");
    OrdinaryBoth(", ", SmsText.Decimal(timestamp));
    OrdinaryBoth(", " + SmsText.Decimal(timestamp), ", 0);");
  }

  /** For a sender without quotes and characters that the shell looks at: the content is stored as
      it is if and only if its escape fits, the statement fits, and the way of the statement, by the
      shell or by a file, leaves the content alone. */
  lemma MessageArrives(sender: string, content: string, timestamp: int)
    requires Ordinary(sender) && '\'' !in sender
    ensures var sql := InsertStatement(sender, content, timestamp);
      StoredContent(sender, content, timestamp) == Some(content) <==>
        Fits(content, 1022, QuoteChar) && |sql| < 2048 && Undisturbed(sql, content)
  {
    var f, kept := InsertFrame(sender, timestamp), KeptContent(content);
    InsertFrameIsPlain(sender, timestamp);
    BothAreSafe();
    KeptFits(content, 1022, QuoteChar);
    if kept == content {
      assert Kept(content, 1022, QuoteChar) == |content|;
      ExecutedDoubled(f, content, 2048);
    } else {
      assert Kept(content, 1022, QuoteChar) < |content|;
      KeptIsShorter(content, Kept(content, 1022, QuoteChar));
      ExecutedShorter(f, kept, content, 2048);
    }
  }

  lemma KeptIsShorter(content: string, n: nat)
    requires n < |content|
    ensures |Escape(content[..n], QuoteChar)| < |Escape(content, QuoteChar)|
  {
    assert content == content[..n] + content[n..];
    EscapeOfBoth(content[..n], content[n..], QuoteChar);
    QuotedLonger(content[n..]);
  }

  /** What was cut off does not arrive. */
  lemma ExecutedShorter(f: Frame, kept: string, content: string, size: nat)
    requires Plain(f) && size > 0 && |Escape(kept, QuoteChar)| < |Escape(content, QuoteChar)|
    ensures Compared(f, Executed(Cut(Statement(f, Escape(kept, QuoteChar)), size))) != Some(content)
  {
    var sql := Statement(f, Escape(kept, QuoteChar));
    if |sql| < size {
      ExecutedLiteral(f, Escape(kept, QuoteChar), content);
    } else {
      NothingComesBack(f, sql, size, content);
    }
  }

  /** The content of a message without quotes that ends with a dollar sign and a digit loses them on
      its way through the shell. */
  lemma AmountIsLost(sender: string, words: string, digit: char, timestamp: int)
    requires Ordinary(sender) && '\'' !in sender && Ordinary(words) && '\'' !in words && '1' <= digit <= '9'
    requires |sender| + 2 * |words| + 4 + |SmsText.Decimal(timestamp)| <= 900
    ensures StoredContent(sender, words + ['$', digit], timestamp) == Some(words)
  {
    var content, f := words + ['$', digit], InsertFrame(sender, timestamp);
    InsertFrameIsPlain(sender, timestamp);
    ShortIsNotFiled(sender, content, timestamp);
    ShortIsKept(content);
    QuotedLonger(content);
    ShellLoses(f, words, digit);
    assert |InsertStatement(sender, content, timestamp)| < 2048;
  }

  lemma ShellLoses(f: Frame, words: string, digit: char)
    requires Plain(f) && Ordinary(words) && '\'' !in words && '1' <= digit <= '9'
    ensures Compared(f, Shell(Statement(f, words + ['$', digit]))) == Some(words)
  {
    var rest := "'" + f.tail;
    OrdinaryBoth(f.head, words);
    OrdinaryBoth("'", f.tail);
    OrdinaryIsClean(rest);
    ShellShrinks(rest);
    DigitIsEmpty(digit, rest);
    ShellBefore(f.head + words, ['$', digit] + rest);
    Around(f, words, ['$', digit]);
    Around(f, words, "");
    QuotedLonger(words);
    ArrivesWhole(f, words);
    assert "" + rest == rest && words + "" == words;
  }

  lemma Around(f: Frame, words: string, more: string)
    ensures Statement(f, words + more) == (f.head + words) + (more + ("'" + f.tail))
  {
  }

  lemma DigitIsEmpty(digit: char, rest: string)
    requires '1' <= digit <= '9'
    ensures Shell(['$', digit] + rest) == Shell(rest)
  {
    var s := ['$', digit] + rest;
    assert s[1..] == [digit] + rest && s[1..][0] == digit && s[1..][1..] == rest;
  }

  lemma {:induction false} ShellBefore(x: string, y: string)
    requires Ordinary(x) && Shell(y).Some?
    ensures Shell(x + y) == Some(x + Shell(y).value)
  {
    if x == "" {
      assert x + y == y && x + Shell(y).value == Shell(y).value;
    } else {
      assert (x + y)[0] == x[0] && (x + y)[1..] == x[1..] + y;
      ShellBefore(x[1..], y);
      assert [x[0]] + (x[1..] + Shell(y).value) == x + Shell(y).value;
    }
  }

  lemma ShortIsKept(content: string)
    requires 2 * |content| <= 1022
    ensures KeptContent(content) == content
  {
    BothAreSafe();
    KeptFits(content, 1022, QuoteChar);
    if content != "" {
      DoubledHolds(content[..|content| - 1]);
    }
    assert content[..|content|] == content;
  }

  /** With an input: a message about a price. */
  lemma PriceIsLost(timestamp: int)
    requires |SmsText.Decimal(timestamp)| <= 20
    ensures StoredContent("10086", "costs " + ['$', '5'], timestamp) == Some("costs ")
  {
    AmountIsLost("10086", "costs ", '5', timestamp);
  }

  lemma ShortIsNotFiled(sender: string, content: string, timestamp: int)
    requires Ordinary(sender) && |sender| + 2 * |content| + |SmsText.Decimal(timestamp)| <= 900
    requires '"' !in content && '\n' !in content
    ensures !Filed(InsertStatement(sender, content, timestamp))
  {
    var f, kept := InsertFrame(sender, timestamp), KeptContent(content);
    InsertFrameIsPlain(sender, timestamp);
    DoubledHolds(kept);
    NotFiled(f, Escape(kept, QuoteChar));
  }

  lemma NotFiled(f: Frame, inserted: string)
    requires Plain(f) && '"' !in inserted && '\n' !in inserted && |Statement(f, inserted)| <= 1000
    ensures !Filed(Statement(f, inserted))
  {
    assert '"' !in f.head && '\n' !in f.head && '"' !in f.tail && '\n' !in f.tail;
  }

  lemma {:induction false} DoubledHolds(s: string)
    ensures |Escape(s, QuoteChar)| <= 2 * |s|
    ensures forall c :: c in Escape(s, QuoteChar) ==> c in s
  {
    if s != "" {
      DoubledHolds(s[1..]);
    }
  }
}
