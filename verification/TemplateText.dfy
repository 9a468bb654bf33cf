/** The message templates of notification_rules.c: #{name} stands for a field of the event. */
module TemplateText {
  import opened Basics
  import opened CStrings

  const TokenSize := 32

  /** `id` is the name of the event's type and `time` the local time that strftime prints. */
  datatype Event = Event(id: string, title: string, message: string, sender: string, content: string, time: string)

  function Value(token: string, e: Event): Option<string> {
    if token == "event" then Some(e.id)
    else if token == "title" then Some(e.title)
    else if token == "message" then Some(e.message)
    else if token == "sender" then Some(e.sender)
    else if token == "content" then Some(e.content)
    else if token == "time" then Some(e.time)
    else None
  }

  /** What a token stands for, if anything. */
  type Fields = string -> Option<string>

  // ---------- one pass over the text ----------

  predicate OpensAt(t: string, n: nat) {
    n + 2 <= |t| && t[n] == '#' && t[n + 1] == '{'
  }

  /** The first "#{" from position `c` on, or the length. */
  function OpenFrom(t: string, c: nat): (n: nat)
    requires c <= |t|
    ensures c <= n <= |t| && (n < |t| ==> OpensAt(t, n))
    decreases |t| - c
  {
    if c == |t| || OpensAt(t, c) then c else OpenFrom(t, c + 1)
  }

  function CloseFrom(t: string, c: nat): (n: nat)
    requires c <= |t|
    ensures c <= n <= |t| && (n < |t| ==> t[n] == '}')
    decreases |t| - c
  {
    if c == |t| || t[c] == '}' then c else CloseFrom(t, c + 1)
  }

  function Replacement(token: string, v: Fields): string {
    match v(token)
    case Some(value) => value
    case None => "#{" + token + "}"
  }

  /** The token that opens at `n` is never closed, or has 32 characters or more. */
  predicate Unreadable(t: string, n: nat)
    requires n + 2 <= |t|
  {
    var m := CloseFrom(t, n + 2);
    m == |t| || m - n - 2 >= TokenSize
  }

  /** The expansion of what follows position `c`. */
  function Expand(t: string, c: nat, v: Fields): string
    requires c <= |t|
    decreases |t| - c
  {
    var n := OpenFrom(t, c);
    if n == |t| then t[c..n] else t[c..n] + ExpandToken(t, n, v)
  }

  function ExpandToken(t: string, n: nat, v: Fields): string
    requires n + 2 <= |t|
    decreases |t| - n - 1
  {
    if Unreadable(t, n) then t[n..]
    else
      var m := CloseFrom(t, n + 2);
      Replacement(t[n + 2..m], v) + Expand(t, m + 1, v)
  }

  // ---------- what a template means ----------

  datatype Piece = Text(text: string) | Token(name: string)

  function Show(pieces: seq<Piece>): string {
    if pieces == [] then "" else ShowPiece(pieces[0]) + Show(pieces[1..])
  }

  function ShowPiece(p: Piece): string {
    match p
    case Text(text) => text
    case Token(name) => "#{" + name + "}"
  }

  function Render(pieces: seq<Piece>, v: Fields): string {
    if pieces == [] then "" else RenderPiece(pieces[0], v) + Render(pieces[1..], v)
  }

  function RenderPiece(p: Piece, v: Fields): string {
    match p
    case Text(text) => text
    case Token(name) => Replacement(name, v)
  }

  /** No text opens a token, alone or with what follows it, and every name can be read. */
  predicate Readable(pieces: seq<Piece>, tail: string) {
    pieces == [] || (Readable(pieces[1..], tail) && ReadablePiece(pieces[0], Show(pieces[1..]) + tail))
  }

  predicate ReadablePiece(p: Piece, next: string) {
    match p
    case Text(text) => forall i :: 0 <= i < |text| ==> !OpensAt(text + next, i)
    case Token(name) => '}' !in name && |name| < TokenSize
  }

  /** Text that stays as it is to the end: it opens no token, or starts with one that cannot be
      read. */
  predicate Inert(tail: string) {
    OpenFrom(tail, 0) == |tail| || (OpenFrom(tail, 0) == 0 && Unreadable(tail, 0))
  }

  lemma {:induction false} OpenFromSkips(t: string, c: nat, d: nat)
    requires c <= d <= |t| && forall i :: c <= i < d ==> !OpensAt(t, i)
    ensures OpenFrom(t, c) == OpenFrom(t, d)
    decreases d - c
  {
    if c < d {
      OpenFromSkips(t, c + 1, d);
    }
  }

  lemma {:induction false} CloseFromSkips(t: string, c: nat, d: nat)
    requires c <= d <= |t| && forall i :: c <= i < d ==> t[i] != '}'
    ensures CloseFrom(t, c) == CloseFrom(t, d)
    decreases d - c
  {
    if c < d {
      CloseFromSkips(t, c + 1, d);
    }
  }

  lemma {:induction false} NotBeforeOpen(t: string, c: nat)
    requires c <= |t|
    ensures forall i :: c <= i < OpenFrom(t, c) ==> !OpensAt(t, i)
    decreases |t| - c
  {
    if c < |t| && !OpensAt(t, c) {
      NotBeforeOpen(t, c + 1);
    }
  }

  lemma {:induction false} NotBeforeClose(t: string, c: nat)
    requires c <= |t|
    ensures forall i :: c <= i < CloseFrom(t, c) ==> t[i] != '}'
    decreases |t| - c
  {
    if c < |t| && t[c] != '}' {
      NotBeforeClose(t, c + 1);
    }
  }

  // What follows a position does not depend on what comes before it.

  lemma {:induction false} OpenShift(x: string, y: string, c: nat)
    requires c <= |y|
    ensures OpenFrom(x + y, |x| + c) == |x| + OpenFrom(y, c)
    decreases |y| - c
  {
    if c < |y| {
      OpenShift(x, y, c + 1);
    }
  }

  lemma {:induction false} CloseShift(x: string, y: string, c: nat)
    requires c <= |y|
    ensures CloseFrom(x + y, |x| + c) == |x| + CloseFrom(y, c)
    decreases |y| - c
  {
    if c < |y| {
      CloseShift(x, y, c + 1);
    }
  }

  lemma SliceShift(x: string, y: string, from: nat, to: nat)
    requires from <= to <= |y|
    ensures (x + y)[|x| + from..|x| + to] == y[from..to]
  {
  }

  lemma RestShift(x: string, y: string, n: nat)
    requires n <= |y|
    ensures (x + y)[|x| + n..] == y[n..]
  {
  }

  lemma {:induction false} ExpandShift(x: string, y: string, c: nat, v: Fields)
    requires c <= |y|
    ensures Expand(x + y, |x| + c, v) == Expand(y, c, v)
    decreases |y| - c
  {
    var n := OpenFrom(y, c);
    OpenShift(x, y, c);
    SliceShift(x, y, c, n);
    if n < |y| {
      ExpandTokenShift(x, y, n, v);
    }
  }

  lemma {:induction false} ExpandTokenShift(x: string, y: string, n: nat, v: Fields)
    requires n + 2 <= |y|
    ensures ExpandToken(x + y, |x| + n, v) == ExpandToken(y, n, v)
    decreases |y| - n - 1
  {
    if Unreadable(y, n) {
      UnreadableShift(x, y, n, v);
    } else {
      CloseShift(x, y, n + 2);
      var m := CloseFrom(y, n + 2);
      ExpandShift(x, y, m + 1, v);
      ReadableShift(x, y, n, m, v);
    }
  }

  lemma UnreadableShift(x: string, y: string, n: nat, v: Fields)
    requires n + 2 <= |y| && Unreadable(y, n)
    ensures ExpandToken(x + y, |x| + n, v) == ExpandToken(y, n, v)
  {
    CloseShift(x, y, n + 2);
    RestShift(x, y, n);
  }

  lemma ReadableShift(x: string, y: string, n: nat, m: nat, v: Fields)
    requires n + 2 <= m < |y| && m == CloseFrom(y, n + 2) && !Unreadable(y, n)
    requires |x| + m == CloseFrom(x + y, |x| + n + 2)
    requires Expand(x + y, |x| + m + 1, v) == Expand(y, m + 1, v)
    ensures ExpandToken(x + y, |x| + n, v) == ExpandToken(y, n, v)
  {
    var token, rest := y[n + 2..m], Expand(y, m + 1, v);
    SliceShift(x, y, n + 2, m);
    TokenSplits(y, n, m, token, rest, v);
    ShiftedSplits(x + y, |x|, n, m, token, rest, v);
  }

  lemma ShiftedSplits(t: string, shift: nat, n: nat, m: nat, token: string, rest: string, v: Fields)
    requires n + 2 <= m && shift + m < |t| && shift + m == CloseFrom(t, shift + n + 2) && m - n - 2 < TokenSize
    requires token == t[shift + (n + 2)..shift + m] && rest == Expand(t, shift + m + 1, v)
    ensures ExpandToken(t, shift + n, v) == Replacement(token, v) + rest
  {
    TokenSplitsAt(t, shift + n, shift + m, m - n, token, rest, v);
  }

  lemma TokenSplitsAt(t: string, n: nat, m: nat, size: int, token: string, rest: string, v: Fields)
    requires n + 2 <= m < |t| && m == CloseFrom(t, n + 2) && size == m - n && size - 2 < TokenSize
    requires token == t[n + 2..m] && rest == Expand(t, m + 1, v)
    ensures ExpandToken(t, n, v) == Replacement(token, v) + rest
  {
    TokenSplits(t, n, m, token, rest, v);
  }

  lemma TokenSplits(t: string, n: nat, m: nat, token: string, rest: string, v: Fields)
    requires n + 2 <= m < |t| && m == CloseFrom(t, n + 2) && !Unreadable(t, n)
    requires token == t[n + 2..m] && rest == Expand(t, m + 1, v)
    ensures ExpandToken(t, n, v) == Replacement(token, v) + rest
  {
  }

  lemma TextStays(text: string, next: string, v: Fields)
    requires ReadablePiece(Text(text), next)
    ensures Expand(text + next, 0, v) == text + Expand(next, 0, v)
  {
    var t, n := text + next, OpenFrom(next, 0);
    OpenFromSkips(t, 0, |text|);
    OpenShift(text, next, 0);
    TextBefore(text, next, n);
    if n < |next| {
      ExpandTokenShift(text, next, n, v);
      TextAndToken(t, text, next, n, v);
    }
  }

  lemma TextBefore(text: string, next: string, n: nat)
    requires n <= |next|
    ensures (text + next)[0..|text| + n] == text + next[0..n]
  {
  }

  lemma TextAndToken(t: string, text: string, next: string, n: nat, v: Fields)
    requires n == OpenFrom(next, 0) < |next| && |text| + n == OpenFrom(t, 0) < |t| && t[0..|text| + n] == text + next[0..n]
    requires ExpandToken(t, |text| + n, v) == ExpandToken(next, n, v)
    ensures Expand(t, 0, v) == text + Expand(next, 0, v)
  {
    Regroup(text, next[0..n], ExpandToken(next, n, v));
  }

  lemma TokenIsReplaced(name: string, next: string, v: Fields)
    requires ReadablePiece(Token(name), next)
    ensures Expand(ShowPiece(Token(name)) + next, 0, v) == Replacement(name, v) + Expand(next, 0, v)
  {
    var shown := ShowPiece(Token(name));
    var t := shown + next;
    assert t[0] == '#' && t[1] == '{' && t[2 + |name|] == '}';
    assert t[2..2 + |name|] == name;
    assert forall i :: 2 <= i < 2 + |name| ==> t[i] == name[i - 2];
    CloseFromSkips(t, 2, 2 + |name|);
    ExpandShift(shown, next, 0, v);
    assert t[0..0] + ExpandToken(t, 0, v) == ExpandToken(t, 0, v);
  }

  lemma InertStays(tail: string, v: Fields)
    requires Inert(tail)
    ensures Expand(tail, 0, v) == tail
  {
    assert tail[0..] == tail && tail[0..|tail|] == tail && tail[0..0] + tail == tail;
  }

  /** Expanding a template renders its pieces: each known token gives its value as it is, even if
      the value itself looks like a token; an unknown token stays. */
  lemma {:induction false} ExpandRenders(pieces: seq<Piece>, tail: string, v: Fields)
    requires Readable(pieces, tail) && Inert(tail)
    ensures Expand(Show(pieces) + tail, 0, v) == Render(pieces, v) + tail
  {
    if pieces == [] {
      InertStays(tail, v);
      assert "" + tail == tail;
    } else {
      var p, later := pieces[0], pieces[1..];
      ExpandRenders(later, tail, v);
      match p {
        case Text(text) => TextStays(text, Show(later) + tail, v);
        case Token(name) => TokenIsReplaced(name, Show(later) + tail, v);
      }
      Regroup(ShowPiece(p), Show(later), tail);
      Regroup(RenderPiece(p, v), Render(later, v), tail);
    }
  }

  /** A template that is one token. */
  lemma OneToken(name: string, v: Fields)
    requires '}' !in name && |name| < 32
    ensures Expand("#{" + name + "}", 0, v) == match v(name) case Some(value) => value case None => "#{" + name + "}"
  {
    assert "#{" + name + "}" + "" == "#{" + name + "}";
    TokenIsReplaced(name, "", v);
    assert Replacement(name, v) + "" == Replacement(name, v);
  }

  /** What a template says that is one token. */
  function OneTokenOf(name: string, e: Event): string {
    Expand("#{" + name + "}", 0, token => Value(token, e))
  }

  /** The six names stand for the fields of the event. */
  lemma TokensStandForFields(e: Event)
    ensures OneTokenOf("event", e) == e.id && OneTokenOf("title", e) == e.title && OneTokenOf("message", e) == e.message
    ensures OneTokenOf("sender", e) == e.sender && OneTokenOf("content", e) == e.content && OneTokenOf("time", e) == e.time
  {
    TokenStandsFor("event", e, e.id);
    TokenStandsFor("title", e, e.title);
    TokenStandsFor("message", e, e.message);
    TokenStandsFor("sender", e, e.sender);
    TokenStandsFor("content", e, e.content);
    TokenStandsFor("time", e, e.time);
  }

  lemma TokenStandsFor(name: string, e: Event, value: string)
    requires '}' !in name && |name| < 32 && Value(name, e) == Some(value)
    ensures OneTokenOf(name, e) == value
  {
    OneToken(name, token => Value(token, e));
  }

  /** No other name stands for anything. */
  lemma OtherTokensStay(name: string, e: Event)
    requires '}' !in name && |name| < 32 && name !in ["event", "title", "message", "sender", "content", "time"]
    ensures OneTokenOf(name, e) == "#{" + name + "}"
  {
    OneToken(name, token => Value(token, e));
  }

  /** A name of 32 characters or more, or one that is never closed, stops the expansion: all the rest
      stays as it is. */
  lemma LongTokenStops(name: string, rest: string, v: Fields)
    requires '}' !in name && (|name| >= 32 || '}' !in rest)
    ensures Expand("#{" + name + rest, 0, v) == "#{" + name + rest
  {
    var t := "#{" + name + rest;
    CloseFromSkips(t, 2, 2 + |name|);
    if |name| < 32 {
      CloseFromSkips(t, 2, |t|);
    }
    assert t[0..0] + t[0..] == t;
  }

  /** Every template is made of such pieces, so the lemma above says what each one expands to. */
  lemma {:induction false} EveryTemplateIsReadable(t: string) returns (pieces: seq<Piece>, tail: string)
    ensures Readable(pieces, tail) && Inert(tail) && t == Show(pieces) + tail
    decreases |t|, 1
  {
    var n := OpenFrom(t, 0);
    if n == |t| {
      pieces, tail := [], t;
      assert "" + t == t;
    } else {
      NotBeforeOpen(t, 0);
      pieces, tail := EveryOpenIsReadable(t[n..]);
      assert t == t[..n] + t[n..];
      PieceBefore(Text(t[..n]), pieces, tail);
      pieces := [Text(t[..n])] + pieces;
    }
  }

  lemma {:induction false} EveryOpenIsReadable(s: string) returns (pieces: seq<Piece>, tail: string)
    requires OpensAt(s, 0)
    ensures Readable(pieces, tail) && Inert(tail) && s == Show(pieces) + tail
    decreases |s|, 0
  {
    if Unreadable(s, 0) {
      pieces, tail := [], s;
      assert "" + s == s;
    } else {
      var m := CloseFrom(s, 2);
      NotBeforeClose(s, 2);
      pieces, tail := EveryTemplateIsReadable(s[m + 1..]);
      TokenParts(s, m);
      PieceBefore(Token(s[2..m]), pieces, tail);
      pieces := [Token(s[2..m])] + pieces;
    }
  }

  lemma PieceBefore(p: Piece, pieces: seq<Piece>, tail: string)
    requires Readable(pieces, tail) && ReadablePiece(p, Show(pieces) + tail)
    ensures Readable([p] + pieces, tail)
    ensures Show([p] + pieces) + tail == ShowPiece(p) + (Show(pieces) + tail)
  {
    assert ([p] + pieces)[1..] == pieces;
  }

  lemma TokenText(t: string, n: nat, m: nat)
    requires OpensAt(t, n) && m == CloseFrom(t, n + 2) < |t|
    ensures t[n..m + 1] == "#{" + t[n + 2..m] + "}"
  {
  }

  lemma TokenParts(s: string, m: nat)
    requires OpensAt(s, 0) && m == CloseFrom(s, 2) < |s|
    ensures s == "#{" + s[2..m] + "}" + s[m + 1..]
  {
    TokenText(s, 0, m);
    assert s == s[0..m + 1] + s[m + 1..];
  }

  // ---------- the buffer ----------

  /** append_text: all of the value or nothing. */
  method AppendText(output: array<char>, used: nat, value: string, ghost done: string) returns (ok: bool, used': nat)
    requires used == |done| && Holds(output, done) && NoNul(value)
    modifies output
    ensures ok == (|done + value| < output.Length)
    ensures if ok then used' == |done + value| && Holds(output, done + value) else used' == used && Holds(output, done)
  {
    if |value| > output.Length - 1 - used {
      return false, used;
    }
    var i := 0;
    while i < |value|
      invariant 0 <= i <= |value|
      invariant forall k :: 0 <= k < used + i ==> output[k] == (done + value)[k] && output[k] != '\0'
    {
      output[used + i] := value[i];
      i := i + 1;
    }
    output[used + |value|] := '\0';
    return true, used + |value|;
  }

  ghost predicate NoNuls(v: Fields) {
    forall token :: v(token).Some? ==> NoNul(v(token).value)
  }

  predicate NoNulFields(e: Event) {
    NoNul(e.id) && NoNul(e.title) && NoNul(e.message) && NoNul(e.sender) && NoNul(e.content) && NoNul(e.time)
  }

  ghost function TokenPiece(t: string, n: nat, v: Fields): string
    requires n + 2 <= |t|
  {
    if Unreadable(t, n) then t[n..] else Replacement(t[n + 2..CloseFrom(t, n + 2)], v)
  }

  /** Where the loop goes on after the token at `n`. */
  function TokenEnd(t: string, n: nat): (m: nat)
    requires n + 2 <= |t|
    ensures n < m <= |t|
  {
    if Unreadable(t, n) then |t| else CloseFrom(t, n + 2) + 1
  }

  /** `all` is what is done, the text before the next token, and what is left after that. */
  lemma PlainTurn(t: string, c: nat, v: Fields, all: string, done: string, n: nat)
    requires c <= |t| && all == done + Expand(t, c, v) && n == OpenFrom(t, c)
    ensures if n == |t| then all == done + t[c..n] else all == done + t[c..n] + ExpandToken(t, n, v)
  {
    if n < |t| {
      Regroup(done, t[c..n], ExpandToken(t, n, v));
    }
  }

  lemma TokenTurn(t: string, n: nat, v: Fields, all: string, done: string)
    requires n + 2 <= |t| && all == done + ExpandToken(t, n, v)
    ensures all == done + TokenPiece(t, n, v) + Expand(t, TokenEnd(t, n), v)
  {
    if Unreadable(t, n) {
      assert t[|t|..|t|] == "";
    } else {
      Regroup(done, TokenPiece(t, n, v), Expand(t, TokenEnd(t, n), v));
    }
  }

  lemma Parted(all: string, done: string, rest: string)
    requires all == done + rest
    ensures all[..|done|] == done && |all| == |done| + |rest|
    ensures rest == "" ==> all == done
  {
  }

  /** The part of the loop that deals with a token. */
  method AppendToken(t: string, start: nat, v: Fields, output: array<char>, used: nat, ghost done: string)
    returns (ok: bool, used': nat, cursor: nat)
    requires NoNul(t) && NoNuls(v) && OpensAt(t, start)
    requires used == |done| && Holds(output, done)
    modifies output
    ensures cursor == TokenEnd(t, start)
    ensures ok == (|done + TokenPiece(t, start, v)| < output.Length)
    ensures ok ==> used' == |done + TokenPiece(t, start, v)| && Holds(output, done + TokenPiece(t, start, v))
    ensures !ok ==> Holds(output, done)
  {
    var end := CloseFrom(t, start + 2);
    if end == |t| || end - start - 2 >= TokenSize {
      cursor := |t|;
      ok, used' := AppendText(output, used, t[start..], done);
    } else {
      cursor := end + 1;
      var value := v(t[start + 2..end]);
      if value.None? {
        TokenText(t, start, end);
        ok, used' := AppendText(output, used, t[start..end + 1], done);
      } else {
        ok, used' := AppendText(output, used, value.value, done);
      }
    }
  }

  /** notification_expand_template: 0 exactly when the whole expansion fits, and otherwise a
      prefix of it is left. */
  method ExpandTemplate(t: string, e: Event, output: array<char>) returns (result: int)
    requires NoNul(t) && NoNulFields(e)
    modifies output
    ensures var all := Expand(t, 0, token => Value(token, e));
      && (result == 0 <==> |all| < output.Length)
      && (result == 0 ==> Holds(output, all))
      && (result != 0 && output.Length > 0 ==> exists n :: 0 <= n <= |all| && Holds(output, all[..n]))
  {
    result := ExpandWith(t, token => Value(token, e), output);
  }

  method ExpandWith(t: string, v: Fields, output: array<char>) returns (result: int)
    requires NoNul(t) && NoNuls(v)
    modifies output
    ensures result == 0 <==> |Expand(t, 0, v)| < output.Length
    ensures result == 0 ==> Holds(output, Expand(t, 0, v))
    ensures result != 0 && output.Length > 0 ==> exists n :: 0 <= n <= |Expand(t, 0, v)| && Holds(output, Expand(t, 0, v)[..n])
  {
    if output.Length == 0 {
      return -1;
    }
    output[0] := '\0';
    ghost var all, done := Expand(t, 0, v), "";
    var used, cursor := 0, 0;
    while cursor < |t|
      invariant cursor <= |t| && used == |done| && Holds(output, done)
      invariant all == done + Expand(t, cursor, v)
      decreases |t| - cursor
    {
      Parted(all, done, Expand(t, cursor, v));
      var start := OpenFrom(t, cursor);
      PlainTurn(t, cursor, v, all, done, start);
      ghost var done1 := done + t[cursor..start];
      var plain, used1 := AppendText(output, used, t[cursor..start], done);
      if !plain {
        return -1;
      }
      if start == |t| {
        return 0;
      }
      Parted(all, done1, ExpandToken(t, start, v));
      TokenTurn(t, start, v, all, done1);
      ghost var piece := TokenPiece(t, start, v);
      Parted(all, done1 + piece, Expand(t, TokenEnd(t, start), v));
      var token, used2, next := AppendToken(t, start, v, output, used1, done1);
      if !token {
        return -1;
      }
      used, cursor, done := used2, next, done1 + piece;
    }
    assert t[|t|..|t|] == "";
    Parted(all, done, Expand(t, |t|, v));
    return 0;
  }
}
