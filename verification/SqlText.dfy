/** The text between the quotes of an SQL literal: how it is escaped, and the way back. */
module SqlText {
  import opened Basics
  import opened CStrings

  // ---------- escaping ----------

  /** What is written for one character. */
  type Escaping = char -> string

  /** Quotes are doubled, and nothing else is written as a quote or as more than two characters. */
  ghost predicate Safe(f: Escaping) {
    forall c :: if c == '\'' then f(c) == "''" else 1 <= |f(c)| <= 2 && '\'' !in f(c)
  }

  /** db_escape_string. */
  function EscapeChar(c: char): string {
    match c
    case '\'' => "''"
    case '\n' => "\\n"
    case '\r' => "\\r"
    case '\\' => "\\\\"
    case _ => [c]
  }

  /** save_sms_to_db, which knows only the quote. */
  function QuoteChar(c: char): string {
    if c == '\'' then "''" else [c]
  }

  lemma BothAreSafe()
    ensures Safe(EscapeChar) && Safe(QuoteChar)
  {
  }

  function Escape(s: string, f: Escaping): string {
    if s == "" then "" else f(s[0]) + Escape(s[1..], f)
  }

  /** How much of `s` is escaped when the loop goes on as long as fewer than `room` characters
      are written. */
  function Kept(s: string, room: int, f: Escaping): (n: nat)
    ensures n <= |s|
  {
    if s == "" || room <= 0 then 0 else 1 + Kept(s[1..], room - |f(s[0])|, f)
  }

  // ---------- the way back ----------

  /** Read a literal whose opening quote has been read: its value and what follows it. */
  function ReadLiteral(s: string): Option<(string, string)> {
    if s == "" then None
    else if s[0] != '\'' then LongerValue(s[0], ReadLiteral(s[1..]))
    else if |s| > 1 && s[1] == '\'' then LongerValue('\'', ReadLiteral(s[2..]))
    else Some(("", s[1..]))
  }

  function LongerValue(c: char, r: Option<(string, string)>): Option<(string, string)> {
    if r.None? then None else Some(([c] + r.value.0, r.value.1))
  }

  function Unescape(s: string): (r: string)
    ensures |r| <= |s|
  {
    if s == "" then ""
    else if s[0] == '\\' && |s| > 1 then [UnescapeChar(s[1])] + Unescape(s[2..])
    else [s[0]] + Unescape(s[1..])
  }

  function UnescapeChar(c: char): char {
    match c
    case 'n' => '\n'
    case 'r' => '\r'
    case _ => c
  }

  // ---------- the round trip ----------

  /** The value of the literal: everything is escaped but the quotes. */
  function Stored(s: string, f: Escaping): string {
    if s == "" then "" else (if s[0] == '\'' then "'" else f(s[0])) + Stored(s[1..], f)
  }

  /** The quote that closes the literal is the one written after the escaped text: no text can
      end the literal early or run past its end. */
  lemma {:induction false} LiteralEnds(s: string, rest: string, f: Escaping)
    requires Safe(f) && (rest == "" || rest[0] != '\'')
    ensures ReadLiteral(Escape(s, f) + "'" + rest) == Some((Stored(s, f), rest))
  {
    if s == "" {
      var tail := "'" + rest;
      assert "" + "'" + rest == tail && tail[1..] == rest;
    } else {
      LiteralEnds(s[1..], rest, f);
      var e, later := f(s[0]), Escape(s[1..], f) + "'" + rest;
      assert Escape(s, f) + "'" + rest == e + later;
      if s[0] == '\'' {
        ReadQuote(later, Stored(s[1..], f), rest);
      } else {
        ReadPlain(e, later, Stored(s[1..], f), rest);
      }
    }
  }

  lemma ReadQuote(later: string, value: string, rest: string)
    requires ReadLiteral(later) == Some((value, rest))
    ensures ReadLiteral("''" + later) == Some(("'" + value, rest))
  {
    var s := "''" + later;
    assert s[0] == '\'' && s[1] == '\'' && s[2..] == later;
    assert ['\''] + value == "'" + value;
  }

  lemma {:induction false} ReadPlain(e: string, later: string, value: string, rest: string)
    requires '\'' !in e && ReadLiteral(later) == Some((value, rest))
    ensures ReadLiteral(e + later) == Some((e + value, rest))
  {
    if e == "" {
      assert e + later == later && e + value == value;
    } else {
      ReadPlain(e[1..], later, value, rest);
      assert (e + later)[1..] == e[1..] + later;
      assert [e[0]] + (e[1..] + value) == e + value;
    }
  }

  lemma UnescapeEscaped(c: char, later: string)
    ensures Unescape(['\\', c] + later) == [UnescapeChar(c)] + Unescape(later)
  {
    assert (['\\', c] + later)[2..] == later;
  }

  lemma UnescapePlain(c: char, later: string)
    requires c != '\\'
    ensures Unescape([c] + later) == [c] + Unescape(later)
  {
    assert ([c] + later)[1..] == later;
  }

  lemma {:induction false} UnescapeUndoes(s: string)
    ensures Unescape(Stored(s, EscapeChar)) == s
  {
    if s != "" {
      UnescapeUndoes(s[1..]);
      var later := Stored(s[1..], EscapeChar);
      if s[0] in "\n\r\\" {
        var e := EscapeChar(s[0]);
        assert e == ['\\', e[1]];
        UnescapeEscaped(e[1], later);
      } else {
        assert Stored(s, EscapeChar) == [s[0]] + later;
        UnescapePlain(s[0], later);
      }
    }
  }

  lemma {:induction false} QuotesAreUndone(s: string)
    ensures Stored(s, QuoteChar) == s
  {
    if s != "" {
      QuotesAreUndone(s[1..]);
      assert "'" == ['\''];
      assert [s[0]] + s[1..] == s;
    }
  }

  // ---------- truncation ----------

  lemma {:induction false} EscapeOfBoth(x: string, y: string, f: Escaping)
    ensures Escape(x + y, f) == Escape(x, f) + Escape(y, f)
  {
    if x == "" {
      assert x + y == y;
    } else {
      EscapeOfBoth(x[1..], y, f);
      assert (x + y)[1..] == x[1..] + y;
      Regroup(f(x[0]), Escape(x[1..], f), Escape(y, f));
    }
  }

  lemma EscapeSnoc(s: string, i: nat, f: Escaping)
    requires i < |s|
    ensures Escape(s[..i + 1], f) == Escape(s[..i], f) + f(s[i])
  {
    assert s[..i + 1] == s[..i] + [s[i]];
    EscapeOfBoth(s[..i], [s[i]], f);
    assert Escape([s[i]], f) == f(s[i]) + Escape("", f);
  }

  /** Every prefix that is kept, but the last, leaves room; what is kept is all, or fills the room. */
  lemma {:induction false} KeptExactly(s: string, room: int, i: nat, f: Escaping)
    requires Safe(f) && i <= |s|
    ensures i <= Kept(s, room, f) <==> i == 0 || |Escape(s[..i - 1], f)| < room
  {
    if s != "" && i > 1 {
      KeptExactly(s[1..], room - |f(s[0])|, i - 1, f);
      assert s[..i - 1][1..] == s[1..][..i - 2];
    }
  }

  /** All of the text but its last character leaves room. */
  predicate Fits(s: string, room: int, f: Escaping) {
    s == "" || |Escape(s[..|s| - 1], f)| < room
  }

  lemma KeptFits(s: string, room: int, f: Escaping)
    requires Safe(f) && room >= 0
    ensures |Escape(s[..Kept(s, room, f)], f)| < room + 2
    ensures Kept(s, room, f) == |s| <==> Fits(s, room, f)
  {
    var n := Kept(s, room, f);
    KeptExactly(s, room, n, f);
    KeptExactly(s, room, |s|, f);
    if n > 0 {
      EscapeSnoc(s, n - 1, f);
    }
  }

  /** For any buffer of at least 4 characters: what reaches the database as a literal, read back
      and unescaped, is a prefix of the text, and all of it if and only if it fits. */
  lemma RoundTrip(s: string, size: int, rest: string)
    requires size >= 4 && (rest == "" || rest[0] != '\'')
    ensures var kept := s[..Kept(s, size - 4, EscapeChar)];
      && |Escape(kept, EscapeChar)| < size
      && ReadLiteral(Escape(kept, EscapeChar) + "'" + rest) == Some((Stored(kept, EscapeChar), rest))
      && Unescape(Stored(kept, EscapeChar)) == kept
      && (kept == s <==> Fits(s, size - 4, EscapeChar))
  {
    var kept := s[..Kept(s, size - 4, EscapeChar)];
    BothAreSafe();
    LiteralEnds(kept, rest, EscapeChar);
    UnescapeUndoes(kept);
    KeptFits(s, size - 4, EscapeChar);
    assert |kept| == |s| ==> kept == s;
  }

  /** A message that save_sms_to_db escapes is stored as it is, up to what fits. */
  lemma MessageIsStored(s: string, size: int, rest: string)
    requires size >= 2 && (rest == "" || rest[0] != '\'')
    ensures var kept := s[..Kept(s, size - 2, QuoteChar)];
      && |Escape(kept, QuoteChar)| < size
      && ReadLiteral(Escape(kept, QuoteChar) + "'" + rest) == Some((kept, rest))
      && (kept == s <==> Fits(s, size - 2, QuoteChar))
  {
    var kept := s[..Kept(s, size - 2, QuoteChar)];
    BothAreSafe();
    LiteralEnds(kept, rest, QuoteChar);
    QuotesAreUndone(kept);
    KeptFits(s, size - 2, QuoteChar);
    assert |kept| == |s| ==> kept == s;
  }

  // ---------- the buffers ----------

  lemma KeptStep(s: string, room: int, i: nat, f: Escaping)
    requires Safe(f) && i < |s| && (i == 0 || i <= Kept(s, room, f))
    ensures |Escape(s[..i], f)| < room <==> i < Kept(s, room, f)
    ensures Escape(s[..i + 1], f) == Escape(s[..i], f) + f(s[i])
  {
    KeptExactly(s, room, i + 1, f);
    EscapeSnoc(s, i, f);
  }

  /** db_escape_string. */
  method EscapeInto(src: string, dst: array<char>)
    requires NoNul(src) && dst.Length >= 4
    modifies dst
    ensures Holds(dst, Escape(src[..Kept(src, dst.Length - 4, EscapeChar)], EscapeChar))
  {
    var i, j := 0, 0;
    ghost var room := dst.Length - 4;
    BothAreSafe();
    while i < |src| && j < dst.Length - 4
      invariant i <= Kept(src, room, EscapeChar) && j < dst.Length - 2
      invariant j == |Escape(src[..i], EscapeChar)|
      invariant forall k :: 0 <= k < j ==> dst[k] == Escape(src[..i], EscapeChar)[k] && dst[k] != '\0'
    {
      KeptStep(src, room, i, EscapeChar);
      match src[i] {
        case '\'' => dst[j], dst[j + 1], j := '\'', '\'', j + 2;
        case '\n' => dst[j], dst[j + 1], j := '\\', 'n', j + 2;
        case '\r' => dst[j], dst[j + 1], j := '\\', 'r', j + 2;
        case '\\' => dst[j], dst[j + 1], j := '\\', '\\', j + 2;
        case _ => dst[j], j := src[i], j + 1;
      }
      i := i + 1;
    }
    if i < |src| {
      KeptStep(src, room, i, EscapeChar);
    }
    dst[j] := '\0';
  }

  /** The loop of save_sms_to_db that escapes the content. */
  method QuoteInto(content: string, escaped: array<char>)
    requires NoNul(content) && escaped.Length >= 2
    modifies escaped
    ensures Holds(escaped, Escape(content[..Kept(content, escaped.Length - 2, QuoteChar)], QuoteChar))
  {
    var i, j := 0, 0;
    ghost var room := escaped.Length - 2;
    BothAreSafe();
    while i < |content| && j < escaped.Length - 2
      invariant i <= Kept(content, room, QuoteChar) && j < escaped.Length
      invariant j == |Escape(content[..i], QuoteChar)|
      invariant forall k :: 0 <= k < j ==> escaped[k] == Escape(content[..i], QuoteChar)[k] && escaped[k] != '\0'
    {
      KeptStep(content, room, i, QuoteChar);
      if content[i] == '\'' {
        escaped[j], escaped[j + 1], j := '\'', '\'', j + 2;
      } else {
        escaped[j], j := content[i], j + 1;
      }
      i := i + 1;
    }
    if i < |content| {
      KeptStep(content, room, i, QuoteChar);
    }
    escaped[j] := '\0';
  }

  lemma UnescapeStep(s: string, p: nat)
    requires p < |s|
    ensures s[p] == '\\' && p + 1 < |s| ==> Unescape(s[p..]) == [UnescapeChar(s[p + 1])] + Unescape(s[p + 2..])
    ensures !(s[p] == '\\' && p + 1 < |s|) ==> Unescape(s[p..]) == [s[p]] + Unescape(s[p + 1..])
  {
    assert s[p..][1..] == s[p + 1..];
    assert p + 1 < |s| ==> s[p..][2..] == s[p + 2..];
  }

  /** db_unescape_string: the write position never passes the read position. */
  method UnescapeInPlace(str: array<char>, ghost s: string)
    requires Holds(str, s)
    modifies str
    ensures Holds(str, Unescape(s))
  {
    var src, dst := 0, 0;
    ghost var done := "";
    assert s[0..] == s;
    while str[src] != '\0'
      invariant dst <= src && HoldsFrom(str, src, s)
      invariant |done| == dst && Unescape(s) == done + Unescape(s[src..])
      invariant forall k :: 0 <= k < dst ==> str[k] == done[k] && str[k] != '\0'
      decreases |s| - src
    {
      UnescapeStep(s, src);
      if str[src] == '\\' && str[src + 1] != '\0' {
        src := src + 1;
        var c := Unescaped(str[src]);
        str[dst] := c;
        Regroup(done, [UnescapeChar(s[src])], Unescape(s[src + 1..]));
        done := done + [UnescapeChar(s[src])];
      } else {
        str[dst] := str[src];
        Regroup(done, [s[src]], Unescape(s[src + 1..]));
        done := done + [s[src]];
      }
      dst, src := dst + 1, src + 1;
    }
    assert Unescape(s) == done;
    str[dst] := '\0';
  }

  method Unescaped(c: char) returns (r: char)
    ensures r == UnescapeChar(c)
  {
    match c {
      case 'n' => r := '\n';
      case 'r' => r := '\r';
      case _ => r := c;
    }
  }
}
