/** Over any run a token is accepted exactly when the history says that it should be. */
module AuthRuns {
  import opened Basics
  import SqlText
  import opened AuthStatements
  import opened SqlStatements
  import opened AuthTokens

  /** What happened to the sessions, from the outside. */
  datatype Event =
    | Issued(token: string, expire: int)
    | LoggedOut(token: string)
    | Evicted(tokens: set<string>)
    | Cleared

  /** When the session ends by itself, if it was issued and nothing else has ended it. */
  function Session(log: seq<Event>, token: string): Option<int> {
    if log == [] then None else After(Session(log[..|log| - 1], token), log[|log| - 1], token)
  }

  function After(session: Option<int>, e: Event, token: string): Option<int> {
    match e
    case Issued(t, expire) => if t == token then Some(expire) else session
    case LoggedOut(t) => if t == token then None else session
    case Evicted(tokens) => if token in tokens then None else session
    case Cleared => None
  }

  predicate Accepted(log: seq<Event>, token: string, now: int) {
    Session(log, token).Some? && Session(log, token).value > now
  }

  function Tokens(rows: set<Row>): set<string> {
    set r | r in rows :: r.token
  }

  /** `clock` is the last time that was read and `issued` the tokens given out. */
  datatype State = State(rows: set<Row>, passwordHash: string, log: seq<Event>, clock: int, issued: set<string>)

  datatype Op =
    | OpLogin(password: string, generated: Option<string>, now: int, later: int, kept: set<Row>)
    | OpVerify(token: string, at: int, other: Other)
    | OpLogout(out: string, other: Other)
    | OpChange(before: string, after: string)
    | OpCleanup(when: int)

  /** The clock does not go back, and the tokens of the generator are fresh. */
  predicate Environment(s: State, op: Op) {
    match op
    case OpLogin(_, generated, now, later, _) =>
      s.clock <= now <= later && (generated.Some? ==> Generated(generated.value) && generated.value !in s.issued)
    case OpVerify(_, at, _) => s.clock <= at && Printable(at)
    case OpCleanup(when) => s.clock <= when
    case _ => true
  }

  /** What MakeRoom does: `kept` is a table that its loop can leave. */
  predicate RoomMade(s: State, op: Op) {
    op.OpLogin? ==> Trimmed(Unexpired(s.rows, op.now), op.kept)
  }

  /** The exact condition, in which the sessions that are under way count: a check does no harm if
      what its statement does is settled, and a logout if it ends no session but its own. */
  ghost predicate Harmless(s: State, op: Op) {
    match op
    case OpVerify(token, at, _) => token == "" || !CountReading(token, at).Open?
    case OpLogout(out, _) => out == "" || EndsNoOther(s, out)
    case _ => true
  }

  ghost predicate EndsNoOther(s: State, out: string) {
    match DeleteReading(out)
    case Compares(value) => value == out || !Accepted(s.log, value, s.clock)
    case Either(value, left, right) =>
      if left == right then forall t :: !Accepted(s.log, t, s.clock) else !Accepted(s.log, value, s.clock)
    case Unfinished => true
    case Open => false
  }

  function Apply(s: State, op: Op, hash: string -> string): State {
    match op
    case OpLogin(password, generated, now, later, kept) =>
      if hash(password) != s.passwordHash then s else Logged(s, generated, now, later, kept)
    case OpVerify(token, at, other) =>
      var rows := RowsQueried(s.rows, token, at, other);
      if token == "" then s else if Counted(s.rows, token, at, other) then s.(rows := rows, clock := at)
      else s.(rows := Unexpired(rows, at), clock := at)
    case OpLogout(out, other) =>
      if out == "" || DeleteReading(out).Unfinished? then s
      else s.(rows := RowsDeleted(s.rows, out, other), log := s.log + [LoggedOut(out)])
    case OpChange(before, after) =>
      if after == "" || hash(before) != s.passwordHash then s
      else s.(rows := {}, passwordHash := hash(after), log := s.log + [Cleared])
    case OpCleanup(when) => s.(rows := Unexpired(s.rows, when), clock := when)
  }

  function Logged(s: State, generated: Option<string>, now: int, later: int, kept: set<Row>): State {
    Issue(Evict(s, now, later, kept), generated, later)
  }

  function Evict(s: State, now: int, later: int, kept: set<Row>): State {
    s.(rows := kept, log := s.log + [Evicted(Tokens(Unexpired(s.rows, now) - kept))], clock := later)
  }

  function Issue(s: State, generated: Option<string>, later: int): State {
    match generated
    case None => s
    case Some(token) => IssueNew(s, token, later)
  }

  function IssueNew(s: State, token: string, later: int): State {
    s.(rows := s.rows + {Row(token, later + Lifetime, later)}, log := s.log + [Issued(token, later + Lifetime)],
       issued := s.issued + {token})
  }

  // ---------- the invariant ----------

  /** Every row is a session of the history, one for a token. */
  predicate Backed(rows: set<Row>, log: seq<Event>) {
    && (forall r :: r in rows ==> Session(log, r.token) == Some(r.expire))
    && forall a, b :: a in rows && b in rows && a.token == b.token ==> a == b
  }

  /** Every session that has not expired has its row. */
  ghost predicate Complete(rows: set<Row>, log: seq<Event>, clock: int) {
    forall t :: Accepted(log, t, clock) ==> exists r :: r in rows && r.token == t && r.expire == Session(log, t).value
  }

  predicate Dated(rows: set<Row>, clock: int) {
    forall r :: r in rows ==> r.created <= clock && r.expire == r.created + Lifetime
  }

  ghost predicate Known(log: seq<Event>, issued: set<string>) {
    forall t :: Session(log, t).Some? ==> t in issued
  }

  ghost predicate Inv(s: State) {
    Backed(s.rows, s.log) && Complete(s.rows, s.log, s.clock) && Dated(s.rows, s.clock) && Known(s.log, s.issued)
    && |s.rows| <= MaxTokens && AllGenerated(s.issued)
  }

  predicate AllGenerated(issued: set<string>) {
    forall t :: t in issued ==> Generated(t)
  }

  lemma SessionAfter(log: seq<Event>, e: Event, token: string)
    ensures Session(log + [e], token) == After(Session(log, token), e, token)
  {
    assert (log + [e])[..|log|] == log;
  }

  lemma SubsetSize<T>(a: set<T>, b: set<T>)
    requires a <= b
    ensures |a| <= |b|
  {
    assert b == a + (b - a);
  }

  lemma CleanupKeeps(s: State, now: int)
    requires Inv(s) && s.clock <= now
    ensures Inv(s.(rows := Unexpired(s.rows, now), clock := now))
  {
    SubsetSize(Unexpired(s.rows, now), s.rows);
  }

  /** A logout that takes away rows, all of its own token's and no other session's. */
  lemma LogoutKeeps(s: State, rows: set<Row>, token: string)
    requires Inv(s) && rows <= s.rows
    requires forall r :: r in rows ==> r.token != token
    requires forall r :: r in s.rows - rows ==> r.token == token || !Accepted(s.log, r.token, s.clock)
    ensures Inv(s.(rows := rows, log := s.log + [LoggedOut(token)]))
  {
    var log := s.log + [LoggedOut(token)];
    SubsetSize(rows, s.rows);
    forall t ensures Session(log, t) == if t == token then None else Session(s.log, t) {
      SessionAfter(s.log, LoggedOut(token), t);
    }
    forall t | Accepted(log, t, s.clock) ensures exists r :: r in rows && r.token == t && r.expire == Session(log, t).value {
      assert Accepted(s.log, t, s.clock);
      var r :| r in s.rows && r.token == t && r.expire == Session(s.log, t).value;
      assert r in rows;
    }
  }

  lemma ClearKeeps(s: State, passwordHash: string)
    requires Inv(s)
    ensures Inv(s.(rows := {}, passwordHash := passwordHash, log := s.log + [Cleared]))
  {
    forall t ensures Session(s.log + [Cleared], t) == None {
      SessionAfter(s.log, Cleared, t);
    }
  }

  lemma EvictKeeps(s: State, now: int, later: int, kept: set<Row>)
    requires Inv(s) && s.clock <= now <= later && Trimmed(Unexpired(s.rows, now), kept)
    ensures Inv(Evict(s, now, later, kept)) && |kept| < MaxTokens
  {
    var gone := Tokens(Unexpired(s.rows, now) - kept);
    forall t ensures Session(s.log + [Evicted(gone)], t) == if t in gone then None else Session(s.log, t) {
      SessionAfter(s.log, Evicted(gone), t);
    }
  }

  lemma {:induction false} IssueKeeps(s: State, generated: Option<string>, later: int)
    requires Inv(s) && |s.rows| < MaxTokens && s.clock == later
    requires generated.Some? ==> Generated(generated.value) && generated.value !in s.issued
    ensures Inv(Issue(s, generated, later))
  {
    if generated.Some? {
      NewKeeps(s, generated.value, later);
    }
  }

  lemma {:induction false} NewKeeps(s: State, token: string, later: int)
    requires Inv(s) && |s.rows| < MaxTokens && s.clock == later && Generated(token) && token !in s.issued
    ensures Inv(IssueNew(s, token, later))
  {
    var s' := IssueNew(s, token, later);
    SessionsIssued(s.log, token, later + Lifetime);
    RowsAreOlder(s, token);
    NewIsBacked(s, token, later, s'.log);
    NewIsComplete(s, token, later, s'.log);
  }

  lemma SessionsIssued(log: seq<Event>, token: string, expire: int)
    ensures forall t :: Session(log + [Issued(token, expire)], t) == if t == token then Some(expire) else Session(log, t)
  {
    forall t ensures Session(log + [Issued(token, expire)], t) == if t == token then Some(expire) else Session(log, t) {
      SessionAfter(log, Issued(token, expire), t);
    }
  }

  lemma NewIsBacked(s: State, token: string, later: int, log: seq<Event>)
    requires Backed(s.rows, s.log) && Dated(s.rows, later) && Known(s.log, s.issued) && AllGenerated(s.issued) && Generated(token)
    requires forall t :: Session(log, t) == if t == token then Some(later + Lifetime) else Session(s.log, t)
    requires |s.rows| < MaxTokens && forall r :: r in s.rows ==> r.token != token
    ensures var rows := s.rows + {Row(token, later + Lifetime, later)};
      && Backed(rows, log) && Dated(rows, later) && |rows| <= MaxTokens
      && Known(log, s.issued + {token}) && AllGenerated(s.issued + {token})
  {
  }

  lemma RowsAreOlder(s: State, token: string)
    requires Inv(s) && token !in s.issued
    ensures forall r :: r in s.rows ==> r.token != token
  {
    forall r | r in s.rows ensures r.token != token {
      assert Session(s.log, r.token).Some?;
    }
  }

  lemma NewIsComplete(s: State, token: string, later: int, log: seq<Event>)
    requires Complete(s.rows, s.log, later)
    requires forall t :: Session(log, t) == if t == token then Some(later + Lifetime) else Session(s.log, t)
    ensures Complete(s.rows + {Row(token, later + Lifetime, later)}, log, later)
  {
    var rows := s.rows + {Row(token, later + Lifetime, later)};
    forall t | Accepted(log, t, later) ensures exists r :: r in rows && r.token == t && r.expire == Session(log, t).value {
      if t == token {
        assert Row(token, later + Lifetime, later) in rows;
      } else {
        assert Accepted(s.log, t, later);
        var r :| r in s.rows && r.token == t && r.expire == Session(s.log, t).value;
        assert r in rows;
      }
    }
  }

  lemma RowsAreIssued(s: State, r: Row)
    requires Inv(s) && r in s.rows
    ensures Generated(r.token) && Session(s.log, r.token) == Some(r.expire)
  {
  }

  lemma HarmlessLogoutKeeps(s: State, out: string, other: Other, hash: string -> string)
    requires Inv(s) && out != "" && EndsNoOther(s, out)
    ensures Inv(Apply(s, OpLogout(out, other), hash))
  {
    var rows := RowsDeleted(s.rows, out, other);
    if !DeleteReading(out).Unfinished? {
      forall r | r in rows ensures r.token != out {
        RowsAreIssued(s, r);
        GeneratedMeansItself(r.token, 0);
      }
      forall r | r in s.rows - rows ensures r.token == out || !Accepted(s.log, r.token, s.clock) {
      }
      LogoutKeeps(s, rows, out);
    }
  }

  /** Every harmless operation keeps rows and history in step. */
  lemma OpKeeps(s: State, op: Op, hash: string -> string)
    requires Inv(s) && Environment(s, op) && RoomMade(s, op) && Harmless(s, op)
    ensures Inv(Apply(s, op, hash))
  {
    match op
    case OpLogin(password, generated, now, later, kept) =>
      EvictKeeps(s, now, later, kept);
      IssueKeeps(Evict(s, now, later, kept), generated, later);
    case OpVerify(token, at, other) => CleanupKeeps(s, at);
    case OpLogout(out, other) =>
      if out != "" {
        HarmlessLogoutKeeps(s, out, other, hash);
      }
    case OpChange(before, after) => ClearKeeps(s, hash(after));
    case OpCleanup(when) => CleanupKeeps(s, when);
  }

  /** A row that no run has. */
  function Stranger(): set<Row> {
    {Row("", 0, 0)}
  }

  /** And no other does, whatever it is: a check keeps them in step, whatever an open statement may
      do, if and only if it is harmless. */
  lemma VerifyKeepsIff(s: State, token: string, at: int, hash: string -> string)
    requires Inv(s) && s.clock <= at
    ensures (forall other :: Inv(Apply(s, OpVerify(token, at, other), hash))) <==> Harmless(s, OpVerify(token, at, Other(true, {})))
  {
    if token == "" || !CountReading(token, at).Open? {
      CleanupKeeps(s, at);
    } else {
      var s' := Apply(s, OpVerify(token, at, Other(true, Stranger())), hash);
      assert Row("", 0, 0) in s'.rows && !Dated(s'.rows, s'.clock);
    }
  }

  /** And so does a logout. */
  lemma LogoutKeepsIff(s: State, out: string, hash: string -> string)
    requires Inv(s)
    ensures (forall other :: Inv(Apply(s, OpLogout(out, other), hash))) <==> Harmless(s, OpLogout(out, Other(true, {})))
  {
    if out == "" || EndsNoOther(s, out) {
      forall other ensures Inv(Apply(s, OpLogout(out, other), hash)) {
        if out != "" {
          HarmlessLogoutKeeps(s, out, other, hash);
        }
      }
    } else {
      LogoutBreaks(s, out, hash);
    }
  }

  lemma LogoutBreaks(s: State, out: string, hash: string -> string)
    requires Inv(s) && out != "" && !EndsNoOther(s, out)
    ensures exists other :: !Inv(Apply(s, OpLogout(out, other), hash))
  {
    match DeleteReading(out)
    case Compares(value) => SessionIsLost(s, out, value, hash);
    case Either(value, left, right) =>
      var t :| Accepted(s.log, t, s.clock) && (left == right || t == value);
      if t == out {
        GeneratedMeansItself(out, 0);
      }
      SessionIsLost(s, out, t, hash);
    case Open =>
      var s' := Apply(s, OpLogout(out, Other(true, Stranger())), hash);
      assert Row("", 0, 0) in s'.rows && !Dated(s'.rows, s'.clock);
  }

  /** The row of a session that goes on by the history is gone. */
  lemma SessionIsLost(s: State, out: string, t: string, hash: string -> string)
    requires out != "" && !DeleteReading(out).Open? && !DeleteReading(out).Unfinished?
    requires Accepted(s.log, t, s.clock) && t != out && !Held(RowsDeleted(s.rows, out, Other(true, {})), t)
    ensures !Inv(Apply(s, OpLogout(out, Other(true, {})), hash))
  {
    var s' := Apply(s, OpLogout(out, Other(true, {})), hash);
    SessionAfter(s.log, LoggedOut(out), t);
    assert Accepted(s'.log, t, s'.clock) && !Held(s'.rows, t);
  }

  /** A login of the store is a login of the run. */
  lemma LoginIsStep(s: State, password: string, generated: Option<string>, now: int, later: int, rows': set<Row>, hash: string -> string)
    requires hash(password) == s.passwordHash
    requires exists kept :: LoggedIn(s.rows, kept, rows', generated, now, later)
    ensures exists kept ::
      var op := OpLogin(password, generated, now, later, kept); RoomMade(s, op) && Apply(s, op, hash).rows == rows'
  {
    var kept :| LoggedIn(s.rows, kept, rows', generated, now, later);
    var op := OpLogin(password, generated, now, later, kept);
    assert RoomMade(s, op) && Apply(s, op, hash).rows == rows';
  }

  /** A run of harmless operations. */
  ghost predicate Run(states: seq<State>, ops: seq<Op>, hash: string -> string) {
    && |states| == |ops| + 1 && states[0].rows == {} && states[0].log == [] && states[0].issued == {}
    && forall i :: 0 <= i < |ops| ==>
      Environment(states[i], ops[i]) && RoomMade(states[i], ops[i]) && Harmless(states[i], ops[i])
      && states[i + 1] == Apply(states[i], ops[i], hash)
  }

  lemma {:induction false} RunKeeps(states: seq<State>, ops: seq<Op>, hash: string -> string, n: nat)
    requires Run(states, ops, hash) && n < |states|
    ensures Inv(states[n])
  {
    if n > 0 {
      RunKeeps(states, ops, hash, n - 1);
      OpKeeps(states[n - 1], ops[n - 1], hash);
    }
  }

  // ---------- what it says ----------

  /** At any time after any run: a token has an unexpired row exactly when it was issued, has not
      expired, and has not been logged out, evicted or cleared since; and there are never more
      than 5 rows. */
  lemma RowsAreExact(states: seq<State>, ops: seq<Op>, hash: string -> string, token: string, now: int)
    requires Run(states, ops, hash) && states[|ops|].clock <= now
    ensures Found(states[|ops|].rows, token, now) <==> Accepted(states[|ops|].log, token, now)
    ensures |states[|ops|].rows| <= 5
  {
    RunKeeps(states, ops, hash, |ops|);
    var s := states[|ops|];
    if Accepted(s.log, token, now) {
      assert Accepted(s.log, token, s.clock);
    }
  }

  /** An operation whose token means itself is harmless. */
  lemma MeaningItselfIsHarmless(s: State, op: Op)
    requires op.OpVerify? ==> op.token == "" || Queryable(op.token, op.at)
    requires op.OpLogout? ==> op.out == "" || Deletable(op.out)
    ensures Harmless(s, op)
  {
    match op
    case OpVerify(token, at, _) => CountedIff(token, at);
    case OpLogout(out, _) => DeletedIff(out);
    case _ =>
  }

  /** When the answer for a token is right, by what SQLite makes of the statement. */
  ghost predicate AnsweredRight(s: State, token: string, now: int) {
    match CountReading(token, now)
    case Compares(value) => value == token || !Accepted(s.log, value, now)
    case Either(value, left, right) => !Held(s.rows, value) && (left == right ==> forall t :: !Accepted(s.log, t, now))
    case Unfinished => true
    case Open => false
  }

  /** After any run the check of any token but the empty one, which is refused, answers right,
      whatever an open statement may do, if and only if the statement compares with the token
      itself, or counts nothing. */
  lemma VerifyIsExact(states: seq<State>, ops: seq<Op>, hash: string -> string, token: string, now: int)
    requires Run(states, ops, hash) && states[|ops|].clock <= now && token != "" && Printable(now)
    ensures var s := states[|ops|];
      (forall other :: Counted(s.rows, token, now, other) <==> Accepted(s.log, token, now)) <==> AnsweredRight(s, token, now)
  {
    var s := states[|ops|];
    RunKeeps(states, ops, hash, |ops|);
    if CountReading(token, now) != Compares(token) {
      NotIssued(s, token, now);
    }
    match CountReading(token, now)
    case Compares(value) =>
      RowsAreExact(states, ops, hash, value, now);
      assert Counted(s.rows, token, now, Other(false, {})) <==> Accepted(s.log, value, now);
    case Either(value, left, right) =>
      UnexpiredAreExact(states, ops, hash, now);
      assert Counted(s.rows, token, now, Other(false, {})) <==> !AnsweredRight(s, token, now);
    case Unfinished =>
    case Open => assert Counted(s.rows, token, now, Other(true, {}));
  }

  lemma NotIssued(s: State, token: string, now: int)
    requires Inv(s) && CountReading(token, now) != Compares(token) && Printable(now)
    ensures token !in s.issued && !Accepted(s.log, token, now)
  {
    if Generated(token) {
      GeneratedMeansItself(token, now);
    }
  }

  lemma UnexpiredAreExact(states: seq<State>, ops: seq<Op>, hash: string -> string, now: int)
    requires Run(states, ops, hash) && states[|ops|].clock <= now
    ensures Unexpired(states[|ops|].rows, now) == {} <==> forall t :: !Accepted(states[|ops|].log, t, now)
  {
    var s := states[|ops|];
    if r :| r in Unexpired(s.rows, now) {
      RowsAreExact(states, ops, hash, r.token, now);
      assert Found(s.rows, r.token, now);
    }
    if t :| Accepted(s.log, t, now) {
      RowsAreExact(states, ops, hash, t, now);
      assert Found(s.rows, t, now);
      var r :| r in s.rows && r.token == t && r.expire > now;
      assert r in Unexpired(s.rows, now);
    }
  }

  /** So it answers right for every token without a quote and without anything that the shell would
      change. */
  lemma QueryableIsExact(states: seq<State>, ops: seq<Op>, hash: string -> string, token: string, now: int, other: Other)
    requires Run(states, ops, hash) && states[|ops|].clock <= now && Queryable(token, now)
    ensures Counted(states[|ops|].rows, token, now, other) <==> Accepted(states[|ops|].log, token, now)
  {
    CountedIff(token, now);
    RowsAreExact(states, ops, hash, token, now);
  }

  /** Only generated tokens are ever accepted; they mean themselves in both statements. */
  lemma IssuedAreGenerated(states: seq<State>, ops: seq<Op>, hash: string -> string, token: string, now: int)
    requires Run(states, ops, hash) && Session(states[|ops|].log, token).Some? && Printable(now)
    ensures Generated(token) && Queryable(token, now) && Deletable(token)
  {
    RunKeeps(states, ops, hash, |ops|);
    GeneratedMeansItself(token, now);
    CountedIff(token, now);
  }

  /** And it answers wrong, with an input, after any run that leaves a session under way: a token
      that was never issued counts as one, and a logout with it ends every session. */
  lemma QuotesDecide(states: seq<State>, ops: seq<Op>, hash: string -> string, session: string, now: int, other: Other)
    requires Run(states, ops, hash) && states[|ops|].clock <= now && Printable(now) && Accepted(states[|ops|].log, session, now)
    ensures var s, token := states[|ops|], EitherText("x", "1", "1");
      && token !in s.issued && !Accepted(s.log, token, now)
      && Counted(s.rows, token, now, other) && RowsDeleted(s.rows, token, other) == {}
  {
    var s, token := states[|ops|], EitherText("x", "1", "1");
    RunKeeps(states, ops, hash, |ops|);
    EitherFits();
    EitherToken("x", "1", "1", now);
    NotIssued(s, token, now);
    UnexpiredAreExact(states, ops, hash, now);
  }

  lemma EitherFits()
    ensures |EitherText("x", "1", "1")| <= TokenLength && Ordinary("x") && Ordinary("1")
  {
    DoubledFits("x");
    DoubledFits("1");
  }

  lemma DoubledFits(s: string)
    requires |s| == 1 && s[0] != '\''
    ensures |SqlText.Escape(s, SqlText.QuoteChar)| == 1
  {
    assert SqlText.Escape(s[1..], SqlText.QuoteChar) == "";
  }

  /** With the right password a login issues its token, which is accepted for exactly a day unless
      something else ends it; with a wrong one nothing happens. */
  lemma LoginIssues(s: State, op: Op, hash: string -> string, token: string, t: int)
    requires op.OpLogin? && op.generated == Some(token)
    ensures var s' := Apply(s, op, hash);
      if hash(op.password) == s.passwordHash
      then Session(s'.log, token) == Some(op.later + 86400) && (Accepted(s'.log, token, t) <==> t < op.later + 86400)
           && Row(token, op.later + 86400, op.later) in s'.rows && token in s'.issued
      else s' == s
  {
    var s1 := Evict(s, op.now, op.later, op.kept);
    SessionAfter(s1.log, Issued(token, op.later + Lifetime), token);
  }

  /** Login, check and logout change no session but those they are about. */
  lemma OthersStay(s: State, op: Op, hash: string -> string, t: string)
    requires op.OpLogin? ==> op.generated != Some(t) && forall r :: r in Unexpired(s.rows, op.now) - op.kept ==> r.token != t
    requires op.OpLogout? ==> op.out != t
    requires op.OpChange? ==> op.after == "" || hash(op.before) != s.passwordHash
    ensures Session(Apply(s, op, hash).log, t) == Session(s.log, t)
  {
    match op
    case OpLogin(password, generated, now, later, kept) =>
      var evicted := Evicted(Tokens(Unexpired(s.rows, now) - kept));
      SessionAfter(s.log, evicted, t);
      if generated.Some? {
        SessionAfter(s.log + [evicted], Issued(generated.value, later + Lifetime), t);
      }
    case OpLogout(out, _) => SessionAfter(s.log, LoggedOut(out), t);
    case _ =>
  }

  /** A change with an empty new password or a wrong old one changes nothing. */
  lemma ChangeRefused(s: State, before: string, after: string, hash: string -> string)
    ensures after == "" || hash(before) != s.passwordHash ==> Apply(s, OpChange(before, after), hash) == s
  {
  }

  /** A logout that is read as meant ends exactly the sessions of its token. */
  lemma LogoutEnds(s: State, out: string, other: Other, hash: string -> string)
    requires out != "" && Deletable(out)
    ensures var s' := Apply(s, OpLogout(out, other), hash);
      Session(s'.log, out) == None && (forall r :: r in s'.rows <==> r in s.rows && r.token != out) && DeleteSucceeds(out, other)
  {
    DeletedIff(out);
    SessionAfter(s.log, LoggedOut(out), out);
  }

  /** Cleaning up never changes what a later check says. */
  lemma CleanupIsInvisible(rows: set<Row>, token: string, now: int, later: int)
    requires now <= later
    ensures Found(Unexpired(rows, now), token, later) <==> Found(rows, token, later)
  {
    if r :| r in rows && r.token == token && r.expire > later {
      assert r in Unexpired(rows, now);
    }
  }

  /** A login evicts a session only if the table is full of unexpired ones, and then exactly one,
      and none that stays ends earlier. */
  lemma EvictionIsMinimal(states: seq<State>, ops: seq<Op>, hash: string -> string, n: nat)
    requires Run(states, ops, hash) && n < |ops| && ops[n].OpLogin?
    ensures var live := Unexpired(states[n].rows, ops[n].now);
      var gone := live - ops[n].kept;
      && (gone == {} <==> |live| < 5)
      && (gone != {} ==> |live| == 5 && |gone| == 1)
      && forall x, y :: x in gone && y in ops[n].kept ==>
        Session(states[n].log, x.token) == Some(x.expire) && Session(states[n].log, y.token) == Some(y.expire) && x.expire <= y.expire
  {
    RunKeeps(states, ops, hash, n);
    var live := Unexpired(states[n].rows, ops[n].now);
    SubsetSize(live, states[n].rows);
    assert live == ops[n].kept + (live - ops[n].kept);
  }

  /** After a change of password every device has to log in again, with the new password. */
  lemma ChangeLocksOut(states: seq<State>, ops: seq<Op>, hash: string -> string, token: string, now: int)
    requires Run(states, ops, hash) && ops != [] && ops[|ops| - 1].OpChange?
    requires var op := ops[|ops| - 1]; op.after != "" && hash(op.before) == states[|ops| - 1].passwordHash
    ensures !Found(states[|ops|].rows, token, now) && !Accepted(states[|ops|].log, token, now)
    ensures states[|ops|].passwordHash == hash(ops[|ops| - 1].after)
  {
    var s, op := states[|ops| - 1], ops[|ops| - 1];
    ChangeClears(s, op, hash, token, now);
    assert states[|ops| - 1 + 1] == Apply(s, op, hash);
  }

  lemma ChangeClears(s: State, op: Op, hash: string -> string, token: string, now: int)
    requires op.OpChange? && op.after != "" && hash(op.before) == s.passwordHash
    ensures var s' := Apply(s, op, hash);
      !Found(s'.rows, token, now) && !Accepted(s'.log, token, now) && s'.passwordHash == hash(op.after)
  {
    SessionAfter(s.log, Cleared, token);
  }
}
