/** The session tokens of auth.c.  The table auth_tokens is a set of rows; times are seconds. */
module AuthTokens {
  import opened Basics
  import opened AuthStatements
  import opened SqlStatements

  const MaxTokens := 5
  const Lifetime := 86400

  datatype Row = Row(token: string, expire: int, created: int)

  // ---------- the statements on the table ----------

  function Unexpired(rows: set<Row>, now: int): set<Row> {
    set r | r in rows && r.expire > now
  }

  predicate Found(rows: set<Row>, token: string, now: int) {
    exists r :: r in rows && r.token == token && r.expire > now
  }

  function Without(rows: set<Row>, token: string): set<Row> {
    set r | r in rows && r.token != token
  }

  /** Any row of the token, expired or not. */
  predicate Held(rows: set<Row>, token: string) {
    exists r :: r in rows && r.token == token
  }

  /** What happens if a token makes a statement of which the model leaves open whether it succeeds
      and what it leaves of the table. */
  datatype Other = Other(succeeds: bool, rows: set<Row>)

  /** Whether the statement of a check counts a row.  AND binds more tightly than OR. */
  predicate Counted(rows: set<Row>, token: string, now: int, other: Other) {
    match CountReading(token, now)
    case Compares(value) => Found(rows, value, now)
    case Either(value, left, right) => Held(rows, value) || (left == right && Unexpired(rows, now) != {})
    case Unfinished => false
    case Open => other.succeeds
  }

  function RowsQueried(rows: set<Row>, token: string, now: int, other: Other): set<Row> {
    if CountReading(token, now).Open? then other.rows else rows
  }

  /** What the statement of a logout leaves. */
  function RowsDeleted(rows: set<Row>, token: string, other: Other): set<Row> {
    match DeleteReading(token)
    case Compares(value) => Without(rows, value)
    case Either(value, left, right) => if left == right then {} else Without(rows, value)
    case Unfinished => rows
    case Open => other.rows
  }

  predicate DeleteSucceeds(token: string, other: Other) {
    match DeleteReading(token)
    case Unfinished => false
    case Open => other.succeeds
    case _ => true
  }

  /** A check answers for the token it is given, in every table, if and only if the token has no
      quote, nothing that the shell would change, and fits. */
  lemma VerifyIff(token: string, now: int)
    ensures (forall rows, other :: Counted(rows, token, now, other) <==> Found(rows, token, now)) <==> Queryable(token, now)
  {
    CountedIff(token, now);
    if !Queryable(token, now) {
      VerifyFails(token, now);
    }
  }

  lemma VerifyFails(token: string, now: int)
    requires CountReading(token, now) != Compares(token)
    ensures exists rows, other :: !(Counted(rows, token, now, other) <==> Found(rows, token, now))
  {
    var own, foreign := Row(token, now + 1, now), Row(token + "x", now + 1, now);
    assert own in {own} && foreign in {foreign};
    assert Found({own}, token, now) && !Found({foreign}, token, now);
    match CountReading(token, now)
    case Compares(value) => assert !Counted({own}, token, now, Other(false, {}));
    case Either(value, left, right) =>
      CountEitherIsShort(token, now, value, left, right);
      assert foreign in Unexpired({foreign}, now);
      if left == right {
        assert Counted({foreign}, token, now, Other(false, {}));
      } else {
        assert !Counted({own}, token, now, Other(false, {}));
      }
    case Unfinished => assert !Counted({own}, token, now, Other(false, {}));
    case Open => assert !Counted({own}, token, now, Other(false, {}));
  }

  /** And a logout deletes exactly the rows of that token if and only if the token has no quote,
      fits, and goes through the shell or the file unchanged. */
  lemma LogoutIff(token: string)
    ensures (forall rows, other :: RowsDeleted(rows, token, other) == Without(rows, token)) <==> Deletable(token)
  {
    DeletedIff(token);
    if !Deletable(token) {
      LogoutFails(token);
    }
  }

  lemma LogoutFails(token: string)
    requires DeleteReading(token) != Compares(token)
    ensures exists rows, other :: RowsDeleted(rows, token, other) != Without(rows, token)
  {
    var own, foreign := Row(token, 1, 0), Row(token + "x", 1, 0);
    assert own !in Without({own}, token) && foreign in Without({foreign}, token);
    match DeleteReading(token)
    case Compares(value) => assert own in RowsDeleted({own}, token, Other(true, {}));
    case Either(value, left, right) =>
      DeleteEitherIsShort(token, value, left, right);
      if left == right {
        assert foreign !in RowsDeleted({foreign}, token, Other(true, {}));
      } else {
        assert own in RowsDeleted({own}, token, Other(true, {}));
      }
    case Unfinished => assert own in RowsDeleted({own}, token, Other(true, {}));
    case Open => assert own in RowsDeleted({own}, token, Other(true, {own}));
  }

  predicate Oldest(rows: set<Row>, r: Row) {
    r in rows && forall x :: x in rows ==> r.created <= x.created
  }

  /** Rows are dropped, the oldest first, until fewer than 5 are left.  Which of several oldest
      rows goes is up to SQLite. */
  predicate Trimmed(rows: set<Row>, kept: set<Row>) {
    && kept <= rows && |kept| == (if |rows| < MaxTokens then |rows| else MaxTokens - 1)
    && forall x, y :: x in rows - kept && y in kept ==> x.created <= y.created
  }

  lemma OldestExists(rows: set<Row>)
    requires rows != {}
    ensures exists r :: Oldest(rows, r)
  {
    var r :| r in rows;
    if rows != {r} {
      OldestExists(rows - {r});
      var m :| Oldest(rows - {r}, m);
      assert Oldest(rows, if m.created <= r.created then m else r);
    } else {
      assert Oldest(rows, r);
    }
  }

  /** auth.c itself; `hash` is the hex form of SHA-256. */
  class Store {
    var table: set<Row>
    var passwordHash: string
    const hash: string -> string

    constructor (hash: string -> string, password: string)
      ensures table == {} && passwordHash == hash(password) && this.hash == hash
    {
      this.hash, table, passwordHash := hash, {}, hash(password);
    }

    method CleanupExpired(now: int)
      modifies this`table
      ensures table == Unexpired(old(table), now)
    {
      table := set r | r in table && r.expire > now;
    }

    /** DELETE of the row with the smallest creation time. */
    method DeleteOldest() returns (ghost r: Row)
      requires table != {}
      modifies this`table
      ensures Oldest(old(table), r) && table == old(table) - {r}
    {
      OldestExists(table);
      var victim :| victim in table && Oldest(table, victim);
      r := victim;
      table := table - {victim};
    }

    /** The loop that makes room for a new row. */
    method MakeRoom()
      modifies this`table
      ensures Trimmed(old(table), table)
    {
      var count := |table|;
      while count >= MaxTokens && count > 0
        invariant count == |table| && table <= old(table)
        invariant count >= MaxTokens - 1 || table == old(table)
        invariant forall x, y :: x in old(table) - table && y in table ==> x.created <= y.created
        decreases count
      {
        ghost var before := table;
        ghost var r := DeleteOldest();
        assert before == table + {r};
        count := count - 1;
      }
    }

    /** `now` is the time of the clean-up and `later` that of the insertion; no token comes back
        from the generator if there are no random bytes. */
    method Login(password: string, generated: Option<string>, now: int, later: int) returns (result: int)
      modifies this`table
      ensures result == -1 <==> hash(password) != passwordHash
      ensures result == -1 ==> table == old(table)
      ensures result != -1 ==> (result == 0 <==> generated.Some?)
      ensures result != -1 ==> exists kept :: LoggedIn(old(table), kept, table, generated, now, later)
    {
      if hash(password) != passwordHash {
        return -1;
      }
      CleanupExpired(now);
      MakeRoom();
      ghost var kept := table;
      if generated.None? {
        assert LoggedIn(old(table), kept, table, generated, now, later);
        return -2;
      }
      table := table + {Row(generated.value, later + Lifetime, later)};
      assert LoggedIn(old(table), kept, table, generated, now, later);
      return 0;
    }

    /** 0 exactly when the statement counts a row; otherwise the expired rows go. */
    method VerifyToken(token: string, now: int, other: Other) returns (result: int)
      modifies this`table
      ensures result == 0 <==> token != "" && Counted(old(table), token, now, other)
      ensures token == "" ==> table == old(table)
      ensures token != "" ==> table == if result == 0 then RowsQueried(old(table), token, now, other)
                                       else Unexpired(RowsQueried(old(table), token, now, other), now)
    {
      if token == "" {
        return -1;
      }
      var count := ExecuteCount(token, now, other);
      if count {
        return 0;
      }
      CleanupExpired(now);
      return -1;
    }

    /** db_query_int with the statement: whether it gives more than 0.  An error gives 0. */
    method ExecuteCount(token: string, now: int, other: Other) returns (count: bool)
      modifies this`table
      ensures count == Counted(old(table), token, now, other)
      ensures table == RowsQueried(old(table), token, now, other)
    {
      match CountReading(token, now) {
        case Compares(value) => count := exists r :: r in table && r.token == value && r.expire > now;
        case Either(value, left, right) =>
          count := (exists r :: r in table && r.token == value) || (left == right && exists r :: r in table && r.expire > now);
          assert (exists r :: r in table && r.expire > now) <==> Unexpired(table, now) != {} by {
            if r :| r in Unexpired(table, now) {
              assert r in table && r.expire > now;
            }
            if r :| r in table && r.expire > now {
              assert r in Unexpired(table, now);
            }
          }
        case Unfinished => count := false;
        case Open =>
          count := other.succeeds;
          table := other.rows;
      }
    }

    method Logout(token: string, other: Other) returns (result: int)
      modifies this`table
      ensures result == 0 <==> token != "" && DeleteSucceeds(token, other)
      ensures token != "" && Deletable(token) ==> result == 0 && table == set r | r in old(table) && r.token != token
      ensures DeleteReading(token).Unfinished? ==> result == -1 && table == old(table)
      ensures table == if token == "" then old(table) else RowsDeleted(old(table), token, other)
    {
      if token == "" {
        return -1;
      }
      DeletedIff(token);
      match DeleteReading(token) {
        case Compares(value) => table := set r | r in table && r.token != value;
        case Either(value, left, right) => table := if left == right then {} else set r | r in table && r.token != value;
        case Unfinished => return -1;
        case Open =>
          table := other.rows;
          return if other.succeeds then 0 else -1;
      }
      return 0;
    }

    method ChangePassword(before: string, after: string) returns (result: int)
      modifies this
      ensures result == if after == "" then -2 else if hash(before) != old(passwordHash) then -1 else 0
      ensures passwordHash == if result == 0 then hash(after) else old(passwordHash)
      ensures table == if result == 0 then {} else old(table)
    {
      if after == "" {
        return -2;
      }
      if hash(before) != passwordHash {
        return -1;
      }
      passwordHash := hash(after);
      table := {};
      return 0;
    }

    /** auth_get_status: is anybody logged in? */
    method Status(now: int) returns (loggedIn: bool)
      modifies this`table
      ensures table == Unexpired(old(table), now)
      ensures loggedIn <==> Unexpired(old(table), now) != {}
    {
      CleanupExpired(now);
      return |table| > 0;
    }
  }

  /** A successful login leaves the rows that are kept and the new one. */
  predicate LoggedIn(rows: set<Row>, kept: set<Row>, rows': set<Row>, generated: Option<string>, now: int, later: int) {
    Trimmed(Unexpired(rows, now), kept) && rows' == kept + NewRow(generated, later)
  }

  function NewRow(generated: Option<string>, created: int): set<Row> {
    match generated
    case None => {}
    case Some(token) => {Row(token, created + Lifetime, created)}
  }
}
