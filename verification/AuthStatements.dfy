/** The statements of auth.c that hold a token, which is put between quotes as it is. */
module AuthStatements {
  import opened Basics
  import opened CStrings
  import opened SqlText
  import opened SqlStatements
  import SmsText
  import Sha256Spec

  /** The longest token that the callers pass on. */
  const TokenLength := 64

  const CountHead := "SELECT COUNT(*) FROM " + "auth_tokens " + "WHERE token='"
  const CountTail := " AND expire_time > "
  const DeleteHead := "DELETE FROM " + "auth_tokens " + "WHERE token='"

  function CountFrame(now: int): Frame {
    Frame(CountHead, CountTail + SmsText.Decimal(now) + ";")
  }

  function DeleteFrame(): Frame {
    Frame(DeleteHead, ";")
  }

  /** What SQLite makes of the statement of auth_verify_token. */
  function CountReading(token: string, now: int): Reading {
    ReadStatement(CountFrame(now), Shell(Cut(Statement(CountFrame(now), token), 512)))
  }

  /** And of that of auth_logout. */
  function DeleteReading(token: string): Reading {
    ReadStatement(DeleteFrame(), Executed(Cut(Statement(DeleteFrame(), token), 256)))
  }

  /** The clock prints in a long long. */
  predicate Printable(now: int) {
    |SmsText.Decimal(now)| <= 20
  }

  // ---------- the fixed text ----------

  lemma CountFrameIsPlain(now: int)
    ensures Plain(CountFrame(now))
  {
    PieceIsOrdinary("SELECT COUNT(*) FROM ");
    PieceIsOrdinary("auth_tokens ");
    PieceIsOrdinary("WHERE token='");
    PieceIsOrdinary(" AND expire_time > ");
    OrdinaryBoth("SELECT COUNT(*) FROM ", "auth_tokens ");
    OrdinaryBoth("SELECT COUNT(*) FROM " + "auth_tokens ", "WHERE token='");
    OrdinaryBoth(CountTail, SmsText.Decimal(now));
    OrdinaryBoth(CountTail + SmsText.Decimal(now), ";");
  }

  lemma DeleteFrameIsPlain()
    ensures Plain(DeleteFrame())
  {
    PieceIsOrdinary("DELETE FROM ");
    PieceIsOrdinary("auth_tokens ");
    PieceIsOrdinary("WHERE token='");
    OrdinaryBoth("DELETE FROM ", "auth_tokens ");
    OrdinaryBoth("DELETE FROM " + "auth_tokens ", "WHERE token='");
  }

  /** The two statements as they are printed. */
  lemma StatementsAre(token: string, now: int)
    ensures Statement(CountFrame(now), token) ==
      "SELECT COUNT(*) FROM " + "auth_tokens " + "WHERE token='" + token + ("'" + (" AND expire_time > " + SmsText.Decimal(now) + ";"))
    ensures Statement(DeleteFrame(), token) == "DELETE FROM " + "auth_tokens " + "WHERE token='" + token + ("'" + ";")
  {
  }

  // ---------- exactly which tokens mean themselves ----------

  /** No quote, nothing the shell would change, and not too long for the buffer. */
  predicate Queryable(token: string, now: int) {
    '\'' !in token && Clean(token) && |Statement(CountFrame(now), token)| < 512
  }

  /** A double quote or a newline sends the statement to a file, past the shell. */
  predicate Deletable(token: string) {
    && '\'' !in token && |Statement(DeleteFrame(), token)| < 256
    && if '"' in token || '\n' in token then Intact(token) else Clean(token)
  }

  lemma CountedIff(token: string, now: int)
    ensures CountReading(token, now) == Compares(token) <==> Queryable(token, now)
  {
    CountFrameIsPlain(now);
    QueriedAsIs(CountFrame(now), token, 512);
    ReadCompares(CountFrame(now), Shell(Cut(Statement(CountFrame(now), token), 512)), token);
  }

  lemma DeletedIff(token: string)
    ensures DeleteReading(token) == Compares(token) <==> Deletable(token)
  {
    DeleteFrameIsPlain();
    ExecutedAsIs(DeleteFrame(), token, 256);
    ReadCompares(DeleteFrame(), Executed(Cut(Statement(DeleteFrame(), token), 256)), token);
    FiledByToken(token);
  }

  lemma FiledByToken(token: string)
    ensures |Statement(DeleteFrame(), token)| < 256 ==>
      (Filed(Statement(DeleteFrame(), token)) <==> '"' in token || '\n' in token)
  {
    DeleteFrameIsPlain();
    var f, sql := DeleteFrame(), Statement(DeleteFrame(), token);
    assert forall i :: 0 <= i < |f.head| ==> sql[i] == f.head[i];
    assert forall i :: 0 <= i < |token| ==> sql[|f.head| + i] == token[i];
    assert sql[|f.head| + |token|] == '\'' && sql[|f.head| + |token| + 1] == ';';
    assert |sql| == |f.head| + |token| + 2;
    forall c | c == '"' || c == '\n' ensures c in sql <==> c in token {
      if c in sql {
        var i :| 0 <= i < |sql| && sql[i] == c;
        assert i >= |f.head|;
        assert token[i - |f.head|] == c;
      }
    }
  }

  /** The tokens that generate_token prints. */
  predicate Generated(token: string) {
    |token| == TokenLength && forall i :: 0 <= i < |token| ==> '0' <= token[i] <= '9' || 'a' <= token[i] <= 'f'
  }

  /** What generate_token makes of its 32 random bytes, whatever they are. */
  lemma PrintedIsGenerated(bytes: seq<Sha256Spec.Byte>)
    requires |bytes| == 32
    ensures Generated(Sha256Spec.HexOf(bytes))
  {
    var token := Sha256Spec.HexOf(bytes);
    forall i | 0 <= i < |token| ensures '0' <= token[i] <= '9' || 'a' <= token[i] <= 'f' {
      Sha256Spec.HexIsLower(bytes, i / 2);
      assert i == 2 * (i / 2) || i == 2 * (i / 2) + 1;
    }
  }

  lemma GeneratedMeansItself(token: string, now: int)
    requires Generated(token)
    ensures Deletable(token) && DeleteReading(token) == Compares(token)
    ensures Printable(now) ==> Queryable(token, now) && CountReading(token, now) == Compares(token)
  {
    assert Ordinary(token);
    OrdinaryIsClean(token);
    CountedIff(token, now);
    DeletedIff(token);
  }

  // ---------- tokens with a quote ----------

  /** A quote ends the literal: the rows are compared with what comes before it, and what comes after
      it is read as part of the statement. */
  lemma QuoteEndsLiteral(a: string, b: string, tail: string)
    requires '\'' !in a && b != "" && b[0] != '\''
    ensures ReadLiteral(a + ("'" + b) + "'" + tail) == Some((a, b + "'" + tail))
  {
    var rest := b + "'" + tail;
    assert rest[0] == b[0];
    QuoteFreeIsReadBack(a, rest);
    assert a + ("'" + b) + "'" + tail == a + "'" + rest;
  }

  /** What arrives of a statement with an ordinary token that fits. */
  lemma OrdinaryArrives(f: Frame, token: string, size: nat)
    requires Plain(f) && Ordinary(token) && |Statement(f, token)| < size <= 1000
    ensures Shell(Cut(Statement(f, token), size)) == Some(Statement(f, token))
    ensures Executed(Cut(Statement(f, token), size)) == Some(Statement(f, token))
  {
    OrdinaryIsClean(token);
    StatementIsClean(f, token);
    ShellShrinks(Statement(f, token));
    FileShrinks(Statement(f, token));
  }

  lemma {:induction false} NeverEnds(s: string)
    requires '\'' !in s
    ensures ReadLiteral(s).None?
  {
    if s != "" {
      NeverEnds(s[1..]);
    }
  }

  lemma {:induction false} QuoteAfter(b: string, s: string)
    requires '\'' !in b
    ensures QuoteAt(b + ("'" + s)) == |b|
  {
    if b != "" {
      assert (b + ("'" + s))[1..] == b[1..] + ("'" + s);
      QuoteAfter(b[1..], s);
    } else {
      assert b + ("'" + s) == "'" + s;
    }
  }

  /** Only words after the quote: the literal that opens behind them never ends, so that SQLite
      executes nothing. */
  lemma WordsAreUnfinished(f: Frame, a: string, b: string)
    requires Plain(f) && '\'' !in f.tail && '\'' !in a && b != "" && forall i :: 0 <= i < |b| ==> WordChar(b[i])
    ensures ReadStatement(f, Some(Statement(f, a + ("'" + b)))) == Unfinished
  {
    var d, rest := Statement(f, a + ("'" + b)), b + "'" + f.tail;
    assert d[|f.head|..] == a + ("'" + b) + "'" + f.tail;
    QuoteEndsLiteral(a, b, f.tail);
    assert rest == b + ("'" + f.tail);
    QuoteAfter(b, f.tail);
    assert rest[|b| + 1..] == f.tail;
    NeverEnds(f.tail);
    assert |rest| > |f.tail|;
    NoQuoteAmongWords(f.tail, b, rest);
  }

  lemma NoQuoteAmongWords(tail: string, b: string, rest: string)
    requires b != "" && rest == b + "'" + tail && '\'' !in tail && forall i :: 0 <= i < |b| ==> WordChar(b[i])
    ensures ReadEither("", rest, tail).None? && Dangles(rest)
    ensures forall value :: ReadEither(value, rest, tail).None?
  {
    assert rest == b + ("'" + tail);
    QuoteAfter(b, tail);
    assert rest[|b| + 1..] == tail;
    assert forall i :: 0 <= i < |b| ==> rest[i] == b[i];
    NeverEnds(tail);
    if Prefix(" OR '", rest) {
      assert rest[..5][4] == '\'';
      assert rest[4] == '\'';
      assert |b| == 4;
      assert rest[5..] == tail;
    }
  }

  /** Both statements with such a token are refused. */
  lemma WordsAreRefused(a: string, b: string, now: int)
    requires Printable(now) && Ordinary(a + ("'" + b)) && |a + ("'" + b)| <= TokenLength
    requires '\'' !in a && b != "" && forall i :: 0 <= i < |b| ==> WordChar(b[i])
    ensures CountReading(a + ("'" + b), now) == Unfinished && DeleteReading(a + ("'" + b)) == Unfinished
  {
    CountFrameIsPlain(now);
    DeleteFrameIsPlain();
    CountTailHasNoQuote(now);
    OrdinaryArrives(CountFrame(now), a + ("'" + b), 512);
    OrdinaryArrives(DeleteFrame(), a + ("'" + b), 256);
    WordsAreUnfinished(CountFrame(now), a, b);
    WordsAreUnfinished(DeleteFrame(), a, b);
  }

  /** With an input. */
  lemma TokenWithQuote(now: int)
    requires Printable(now)
    ensures CountReading("o" + ("'" + "clock"), now) == Unfinished && DeleteReading("o" + ("'" + "clock")) == Unfinished
  {
    WordsAreRefused("o", "clock", now);
  }

  lemma CountTailHasNoQuote(now: int)
    ensures '\'' !in CountFrame(now).tail
  {
    LacksBoth(CountTail, SmsText.Decimal(now), '\'');
    LacksBoth(CountTail + SmsText.Decimal(now), ";", '\'');
  }

  lemma LacksBoth(s: string, t: string, c: char)
    requires c !in s && c !in t
    ensures c !in s + t
  {
  }

  /** A token whose quotes make a second comparison of it. */
  lemma EitherToken(value: string, left: string, right: string, now: int)
    requires Ordinary(value) && Ordinary(left) && Ordinary(right) && Printable(now)
    requires |EitherText(value, left, right)| <= TokenLength
    ensures var token := EitherText(value, left, right);
      CountReading(token, now) == Either(value, left, right) && DeleteReading(token) == Either(value, left, right)
  {
    var token := EitherText(value, left, right);
    CountFrameIsPlain(now);
    DeleteFrameIsPlain();
    EitherIsOrdinary(value, left, right);
    OrdinaryArrives(CountFrame(now), token, 512);
    OrdinaryArrives(DeleteFrame(), token, 256);
    EitherIsRead(CountFrame(now), value, left, right);
    EitherIsRead(DeleteFrame(), value, left, right);
  }

  lemma EitherIsOrdinary(value: string, left: string, right: string)
    requires Ordinary(value) && Ordinary(left) && Ordinary(right)
    ensures Ordinary(EitherText(value, left, right))
  {
    DoubledIsOrdinary(value);
    DoubledIsOrdinary(left);
    DoubledIsOrdinary(right);
    var a, b, c := Escape(value, QuoteChar), Escape(left, QuoteChar), Escape(right, QuoteChar);
    OrdinaryBoth(a, "' OR '");
    OrdinaryBoth(a + "' OR '", b);
    OrdinaryBoth(a + "' OR '" + b, "'='");
    OrdinaryBoth(a + "' OR '" + b + "'='", c);
  }

  lemma {:induction false} DoubledIsOrdinary(s: string)
    requires Ordinary(s)
    ensures Ordinary(Escape(s, QuoteChar))
  {
    if s != "" {
      DoubledIsOrdinary(s[1..]);
      OrdinaryBoth(QuoteChar(s[0]), Escape(s[1..], QuoteChar));
    }
  }

  /** The value such a statement compares with is shorter than the token. */
  lemma EitherIsShort(f: Frame, token: string, arrived: Option<string>, value: string, left: string, right: string)
    requires ReadStatement(f, arrived) == Either(value, left, right)
    requires |arrived.value| <= |Statement(f, token)|
    ensures |value| < |token|
  {
    var d := arrived.value;
    var (v, rest) := ReadLiteral(d[|f.head|..]).value;
    LiteralIsDoubled(d[|f.head|..]);
    LiteralIsDoubled(rest[5..]);
    var (l, after) := ReadLiteral(rest[5..]).value;
    LiteralIsDoubled(after[2..]);
    QuotedLonger(v);
  }

  lemma CountEitherIsShort(token: string, now: int, value: string, left: string, right: string)
    requires CountReading(token, now) == Either(value, left, right)
    ensures |value| < |token|
  {
    var cut := Cut(Statement(CountFrame(now), token), 512);
    ShellShrinks(cut);
    EitherIsShort(CountFrame(now), token, Shell(cut), value, left, right);
  }

  lemma DeleteEitherIsShort(token: string, value: string, left: string, right: string)
    requires DeleteReading(token) == Either(value, left, right)
    ensures |value| < |token|
  {
    var cut := Cut(Statement(DeleteFrame(), token), 256);
    ShellShrinks(cut);
    FileShrinks(cut);
    EitherIsShort(DeleteFrame(), token, Executed(cut), value, left, right);
  }
}
