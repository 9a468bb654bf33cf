/** The percent-encoding of goform_client.c and the query that carries the WiFi settings.

    A string is a sequence of bytes without the terminator. */
module UrlText {
  import opened Basics
  import opened CStrings

  // ---------- percent-encoding, sections 2.1 and 2.3 of RFC 3986 ----------

  predicate Byte(c: char) {
    0 < c as int < 256
  }

  predicate Bytes(s: string) {
    forall i :: 0 <= i < |s| ==> Byte(s[i])
  }

  predicate Unreserved(c: char) {
    ('A' <= c <= 'Z') || ('a' <= c <= 'z') || ('0' <= c <= '9') || c == '-' || c == '_' || c == '.' || c == '~'
  }

  /** An upper-case digit. */
  function HexDigit(n: int): (c: char)
    requires 0 <= n < 16
    ensures HexValue(c) == Some(n) && Unreserved(c)
  {
    "0123456789ABCDEF"[n]
  }

  function HexValue(c: char): Option<int> {
    if '0' <= c <= '9' then Some(c as int - '0' as int)
    else if 'A' <= c <= 'F' then Some(c as int - 'A' as int + 10)
    else None
  }

  function EncodeChar(c: char): (r: string)
    requires Byte(c)
    ensures |r| == if Unreserved(c) then 1 else 3
  {
    if Unreserved(c) then [c] else ['%', HexDigit(c as int / 16), HexDigit(c as int % 16)]
  }

  function Encode(s: string): (r: string)
    requires Bytes(s)
    ensures |r| >= |s|
  {
    if s == "" then "" else EncodeChar(s[0]) + Encode(s[1..])
  }

  /** None if a percent sign is not followed by two digits. */
  function Decode(s: string): Option<string> {
    if s == "" then Some("")
    else if s[0] != '%' then Prepend(s[0], Decode(s[1..]))
    else if |s| < 3 || HexValue(s[1]).None? || HexValue(s[2]).None? then None
    else Prepend((16 * HexValue(s[1]).value + HexValue(s[2]).value) as char, Decode(s[3..]))
  }

  lemma CharDecodes(c: char, later: string)
    requires Byte(c)
    ensures Decode(EncodeChar(c) + later) == Prepend(c, Decode(later))
  {
    var e := EncodeChar(c);
    assert (e + later)[|e|..] == later && (e + later)[0] == e[0];
    if !Unreserved(c) {
      assert (e + later)[1] == e[1] && (e + later)[2] == e[2];
      assert (16 * (c as int / 16) + c as int % 16) as char == c;
    }
  }

  lemma {:induction false} EncodeDecodes(s: string)
    requires Bytes(s)
    ensures Decode(Encode(s)) == Some(s)
  {
    if s != "" {
      EncodeDecodes(s[1..]);
      CharDecodes(s[0], Encode(s[1..]));
      assert [s[0]] + s[1..] == s;
    }
  }

  /** Nothing but unreserved characters and percent signs with two upper-case digits. */
  predicate Encoded(s: string) {
    s == "" || if s[0] == '%' then |s| >= 3 && HexValue(s[1]).Some? && HexValue(s[2]).Some? && Encoded(s[3..])
               else Unreserved(s[0]) && Encoded(s[1..])
  }

  lemma {:induction false} EncodeIsEncoded(s: string)
    requires Bytes(s)
    ensures Encoded(Encode(s))
  {
    if s != "" {
      EncodeIsEncoded(s[1..]);
      var e, later := EncodeChar(s[0]), Encode(s[1..]);
      assert (e + later)[|e|..] == later && (e + later)[0] == e[0];
      if !Unreserved(s[0]) {
        assert (e + later)[1] == e[1] && (e + later)[2] == e[2];
      }
    }
  }

  lemma {:induction false} EncodedLacks(s: string, c: char)
    requires Encoded(s) && !Unreserved(c) && c != '%'
    ensures c !in s
  {
    if s != "" {
      if s[0] == '%' {
        EncodedLacks(s[3..], c);
        assert s == [s[0], s[1], s[2]] + s[3..];
      } else {
        EncodedLacks(s[1..], c);
      }
    }
  }

  // ---------- the query ----------

  // The format string, in pieces: goformId=setapinfo&ap_ssid=%s&ap_ssidpwd=%s&admin=admin&pwd=admin
  const Goal := "goformId" + "=" + "setapinfo" + "&" + "ap_ssid" + "="
  const Password := "&" + "ap_ssidpwd" + "="
  const End := "&" + "admin" + "=" + "admin" + "&" + "pwd" + "=" + "admin"

  function Query(ssid: string, password: string): string
    requires Bytes(ssid) && Bytes(password)
  {
    Goal + Encode(ssid) + Password + Encode(password) + End
  }

  /** The pieces between separators. */
  function Split(s: string, c: char): (r: seq<string>)
    ensures r != []
  {
    if s == "" then [""]
    else
      var later := Split(s[1..], c);
      if s[0] == c then [""] + later else [[s[0]] + later[0]] + later[1..]
  }

  /** name=value, the value decoded. */
  function Field(s: string): Option<(string, string)> {
    var parts := Split(s, '=');
    if |parts| == 2 && Decode(parts[1]).Some? then Some((parts[0], Decode(parts[1]).value)) else None
  }

  function Fields(parts: seq<string>): (r: seq<Option<(string, string)>>)
    ensures |r| == |parts| && forall i :: 0 <= i < |r| ==> r[i] == Field(parts[i])
  {
    seq(|parts|, i requires 0 <= i < |parts| => Field(parts[i]))
  }

  lemma {:induction false} SplitPlain(x: string, c: char)
    requires c !in x
    ensures Split(x, c) == [x]
  {
    if x != "" {
      SplitPlain(x[1..], c);
      assert [x[0]] + x[1..] == x;
    }
  }

  lemma {:induction false} SplitFirst(x: string, c: char, rest: string)
    requires c !in x
    ensures Split(x + [c] + rest, c) == [x] + Split(rest, c)
  {
    var s := x + [c] + rest;
    if x == "" {
      assert s[1..] == rest;
    } else {
      assert s[0] == x[0] && s[1..] == x[1..] + [c] + rest;
      SplitFirst(x[1..], c, rest);
      assert ([x[1..]] + Split(rest, c))[1..] == Split(rest, c);
      assert [x[0]] + x[1..] == x;
    }
  }

  predicate Name(s: string) {
    '&' !in s && '=' !in s
  }

  /** A field as it stands in the query. */
  function Shown(name: string, value: string): string
    requires Bytes(value)
  {
    name + "=" + Encode(value)
  }

  lemma ShownIsField(name: string, value: string)
    requires Name(name) && Bytes(value)
    ensures '&' !in Shown(name, value) && Field(Shown(name, value)) == Some((name, value))
  {
    EncodeIsEncoded(value);
    EncodedLacks(Encode(value), '=');
    EncodedLacks(Encode(value), '&');
    EncodeDecodes(value);
    SplitFirst(name, '=', Encode(value));
    SplitPlain(Encode(value), '=');
  }

  function Join(shown: seq<string>): string {
    if shown == [] then "" else if |shown| == 1 then shown[0] else shown[0] + "&" + Join(shown[1..])
  }

  lemma {:induction false} JoinSplits(shown: seq<string>)
    requires shown != [] && forall i :: 0 <= i < |shown| ==> '&' !in shown[i]
    ensures Split(Join(shown), '&') == shown
  {
    if |shown| == 1 {
      SplitPlain(shown[0], '&');
    } else {
      JoinSplits(shown[1..]);
      SplitFirst(shown[0], '&', Join(shown[1..]));
    }
  }

  function ShownAll(names: seq<string>, values: seq<string>): (r: seq<string>)
    requires |names| == |values| && forall i :: 0 <= i < |values| ==> Bytes(values[i])
    ensures |r| == |names| && forall i :: 0 <= i < |r| ==> r[i] == Shown(names[i], values[i])
  {
    seq(|names|, i requires 0 <= i < |names| => Shown(names[i], values[i]))
  }

  lemma FieldsAreCarried(names: seq<string>, values: seq<string>)
    requires |names| == |values| > 0
    requires forall i :: 0 <= i < |names| ==> Name(names[i]) && Bytes(values[i])
    ensures var fields := Fields(Split(Join(ShownAll(names, values)), '&'));
      |fields| == |names| && forall i :: 0 <= i < |names| ==> fields[i] == Some((names[i], values[i]))
  {
    forall i | 0 <= i < |names|
      ensures '&' !in Shown(names[i], values[i]) && Field(Shown(names[i], values[i])) == Some((names[i], values[i]))
    {
      ShownIsField(names[i], values[i]);
    }
    JoinSplits(ShownAll(names, values));
  }

  // ---------- the query is such a list of fields ----------

  lemma {:induction false} PlainEncode(s: string)
    requires forall i :: 0 <= i < |s| ==> Unreserved(s[i])
    ensures Bytes(s) && Encode(s) == s
  {
    if s != "" {
      PlainEncode(s[1..]);
    }
  }

  function Names(): seq<string> {
    ["goformId", "ap_ssid", "ap_ssidpwd", "admin", "pwd"]
  }

  function Values(ssid: string, password: string): seq<string> {
    ["setapinfo", ssid, password, "admin", "admin"]
  }

  lemma PlainShown(name: string, value: string)
    requires forall i :: 0 <= i < |value| ==> Unreserved(value[i])
    ensures Bytes(value) && Shown(name, value) == name + "=" + value
  {
    PlainEncode(value);
  }

  lemma Associate3(a: string, name: string, value: string, b: string, next: string, last: string)
    ensures a + name + "=" + value + b + next + "=" + last == a + (name + "=" + value) + b + (next + "=" + last)
  {
  }

  lemma SetapinfoIsPlain(s: string)
    requires s == "setapinfo"
    ensures forall i :: 0 <= i < |s| ==> Unreserved(s[i])
  {
    assert s[0] == 's' && s[1] == 'e' && s[2] == 't' && s[3] == 'a' && s[4] == 'p';
    assert s[5] == 'i' && s[6] == 'n' && s[7] == 'f' && s[8] == 'o';
  }

  lemma GoalShown()
    ensures Bytes("setapinfo") && Goal == Shown("goformId", "setapinfo") + "&" + "ap_ssid" + "="
  {
    SetapinfoIsPlain("setapinfo");
    PlainShown("goformId", "setapinfo");
  }

  lemma EndShown()
    ensures Bytes("admin") && End == "&" + Shown("admin", "admin") + "&" + Shown("pwd", "admin")
  {
    PlainShown("admin", "admin");
    PlainShown("pwd", "admin");
    Associate3("&", "admin", "admin", "&", "pwd", "admin");
  }

  lemma PasswordShown()
    ensures Password == "&" + "ap_ssidpwd" + "="
  {
  }

  lemma Nest(f1: string, n2: string, e2: string, n3: string, e3: string, f4: string, f5: string)
    ensures (f1 + "&" + n2 + "=") + e2 + ("&" + n3 + "=") + e3 + ("&" + f4 + "&" + f5)
         == f1 + "&" + ((n2 + "=" + e2) + "&" + ((n3 + "=" + e3) + "&" + (f4 + "&" + f5)))
  {
  }

  lemma JoinFive(f: seq<string>)
    requires |f| == 5
    ensures Join(f) == f[0] + "&" + (f[1] + "&" + (f[2] + "&" + (f[3] + "&" + f[4])))
  {
    assert Join(f[1..][1..][1..]) == f[3] + "&" + f[4];
    assert Join(f[1..][1..]) == f[2] + "&" + Join(f[1..][1..][1..]);
  }

  lemma NamesAreNames()
    ensures forall i :: 0 <= i < |Names()| ==> Name(Names()[i])
  {
  }

  lemma QueryIsJoin(ssid: string, password: string, names: seq<string>, values: seq<string>)
    requires Bytes(ssid) && Bytes(password) && names == Names() && values == Values(ssid, password)
    ensures forall i :: 0 <= i < |values| ==> Bytes(values[i])
    ensures Query(ssid, password) == Join(ShownAll(names, values))
  {
    GoalShown();
    PasswordShown();
    EndShown();
    Nest(Shown("goformId", "setapinfo"), "ap_ssid", Encode(ssid), "ap_ssidpwd", Encode(password),
         Shown("admin", "admin"), Shown("pwd", "admin"));
    JoinFive(ShownAll(names, values));
  }

  /** Whoever splits the query at '&' and '=' and decodes the values gets exactly the settings,
      whatever the SSID and the password are. */
  lemma QueryCarries(ssid: string, password: string)
    requires Bytes(ssid) && Bytes(password)
    ensures var fields := Fields(Split(Query(ssid, password), '&'));
      && |fields| == |Names()|
      && forall i :: 0 <= i < |Names()| ==> fields[i] == Some((Names()[i], Values(ssid, password)[i]))
  {
    NamesAreNames();
    QueryIsJoin(ssid, password, Names(), Values(ssid, password));
    FieldsAreCarried(Names(), Values(ssid, password));
  }

  // ---------- the buffers ----------

  lemma {:induction false} EncodeOfBoth(x: string, y: string)
    requires Bytes(x) && Bytes(y)
    ensures Bytes(x + y) && Encode(x + y) == Encode(x) + Encode(y)
  {
    if x == "" {
      assert x + y == y;
    } else {
      EncodeOfBoth(x[1..], y);
      EncodeHead(x[0], x[1..]);
      EncodeHead(x[0], x[1..] + y);
      HeadTail(x, y);
      Regroup(EncodeChar(x[0]), Encode(x[1..]), Encode(y));
    }
  }

  lemma HeadTail(x: string, y: string)
    requires x != ""
    ensures x + y == [x[0]] + (x[1..] + y) && x == [x[0]] + x[1..]
  {
  }

  lemma EncodeHead(c: char, rest: string)
    requires Byte(c) && Bytes(rest)
    ensures Bytes([c] + rest) && Encode([c] + rest) == EncodeChar(c) + Encode(rest)
  {
    assert ([c] + rest)[1..] == rest;
  }

  lemma EncodeStep(s: string, i: nat)
    requires Bytes(s) && i < |s|
    ensures Encode(s[..i + 1]) == Encode(s[..i]) + EncodeChar(s[i])
    ensures |Encode(s)| >= |Encode(s[..i + 1])|
  {
    EncodeOne(s[i]);
    assert s[..i + 1] == s[..i] + [s[i]];
    EncodeOfBoth(s[..i], [s[i]]);
    assert s == s[..i + 1] + s[i + 1..];
    EncodeOfBoth(s[..i + 1], s[i + 1..]);
  }

  lemma EncodeOne(c: char)
    requires Byte(c)
    ensures Encode([c]) == EncodeChar(c)
  {
    assert Encode([c]) == EncodeChar(c) + Encode("");
  }

  lemma {:induction false} EncodeNoNul(s: string)
    requires Bytes(s)
    ensures NoNul(Encode(s))
  {
    EncodeIsEncoded(s);
    EncodedLacks(Encode(s), '\0');
  }

  /** One character, if it and the terminator fit. */
  method PutChar(c: char, out: array<char>, used: nat, ghost done: string) returns (ok: bool, used': nat)
    requires Byte(c) && used == |done| < out.Length && forall k :: 0 <= k < used ==> out[k] == done[k]
    modifies out
    ensures ok == (|done + EncodeChar(c)| < out.Length)
    ensures ok ==> used' == |done + EncodeChar(c)|
    ensures ok ==> forall k :: 0 <= k < used' ==> out[k] == (done + EncodeChar(c))[k]
  {
    var need := if Unreserved(c) then 1 else 3;
    if used + need >= out.Length {
      return false, used;
    }
    if Unreserved(c) {
      out[used] := c;
    } else {
      out[used], out[used + 1], out[used + 2] := '%', HexDigit(c as int / 16), HexDigit(c as int % 16);
    }
    return true, used + need;
  }

  /** url_encode: succeeds exactly when the result and its terminator fit. */
  method UrlEncode(value: string, out: array<char>) returns (result: int)
    requires Bytes(value)
    modifies out
    ensures result == 0 <==> |Encode(value)| < out.Length
    ensures result == 0 ==> Holds(out, Encode(value))
  {
    if out.Length == 0 {
      return -1;
    }
    var used, p := 0, 0;
    ghost var done := "";
    while p < |value|
      invariant p <= |value| && used == |done| < out.Length && done == Encode(value[..p])
      invariant forall k :: 0 <= k < used ==> out[k] == done[k]
    {
      EncodeStep(value, p);
      var ok, used' := PutChar(value[p], out, used, done);
      if !ok {
        return -1;
      }
      done := Encode(value[..p + 1]);
      p, used := p + 1, used';
    }
    assert value[..p] == value;
    EncodeNoNul(value);
    out[used] := '\0';
    return 0;
  }

  /** snprintf of a text that is already put together: what it writes and what it returns. */
  method Print(text: string, out: array<char>) returns (written: int)
    requires NoNul(text) && out.Length > 0
    modifies out
    ensures written == |text| && Holds(out, Cut(text, out.Length))
  {
    var i := 0;
    while i < |text| && i < out.Length - 1
      invariant 0 <= i <= |text| && i < out.Length
      invariant forall k :: 0 <= k < i ==> out[k] == text[k]
    {
      out[i] := text[i];
      i := i + 1;
    }
    out[i] := '\0';
    return |text|;
  }

  /** goform_build_wifi_query: 0 exactly when both settings are present and everything fits. */
  method BuildWifiQuery(ssid: string, password: string, query: array<char>) returns (result: int)
    requires Bytes(ssid) && Bytes(password)
    modifies query
    ensures result == 0 <==>
      ssid != "" && password != "" && |Encode(ssid)| < 256 && |Encode(password)| < 384 && |Query(ssid, password)| < query.Length
    ensures result == 0 ==> Holds(query, Query(ssid, password))
  {
    if ssid == "" || password == "" || query.Length == 0 {
      return -1;
    }
    var encodedSsid, encodedPassword := new char[256], new char[384];
    result := UrlEncode(ssid, encodedSsid);
    if result != 0 {
      return -1;
    }
    result := UrlEncode(password, encodedPassword);
    if result != 0 {
      return -1;
    }
    QueryNoNul(ssid, password);
    var ssidText := ReadString(encodedSsid, Encode(ssid));
    var passwordText := ReadString(encodedPassword, Encode(password));
    var written := Print(Goal + ssidText + Password + passwordText + End, query);
    return if written < query.Length then 0 else -1;
  }

  /** What %s reads. */
  method ReadString(a: array<char>, ghost s: string) returns (r: string)
    requires Holds(a, s)
    ensures r == s
  {
    var i := 0;
    while a[i] != '\0'
      invariant 0 <= i <= |s|
      decreases |s| - i
    {
      i := i + 1;
    }
    r := a[..i];
  }

  lemma QueryNoNul(ssid: string, password: string)
    requires Bytes(ssid) && Bytes(password)
    ensures NoNul(Query(ssid, password))
  {
    EncodeNoNul(ssid);
    EncodeNoNul(password);
  }
}
