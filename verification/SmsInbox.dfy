/** The inbox table: a save inserts a row under a new id and then trims the table to the newest. */
module SmsInbox {
  import opened SmsText

  /** AUTOINCREMENT: later rows have higher ids, and no id is used twice. */
  predicate Ascending(rows: seq<Message>, nextId: int) {
    && (forall i, j :: 0 <= i < j < |rows| ==> rows[i].id < rows[j].id)
    && forall i :: 0 <= i < |rows| ==> rows[i].id < nextId
  }

  /** The rows that SELECT … ORDER BY id DESC LIMIT n names, in the order of the table. */
  function Newest(rows: seq<Message>, n: nat): (r: seq<Message>)
    ensures |r| == if |rows| < n then |rows| else n
  {
    if |rows| <= n then rows else rows[|rows| - n..]
  }

  /** They are the rows with the highest ids. */
  lemma NewestAreHighest(rows: seq<Message>, n: nat, nextId: int)
    requires Ascending(rows, nextId)
    ensures var k := |rows| - |Newest(rows, n)|;
      Newest(rows, n) == rows[k..] && forall i, j :: 0 <= i < k <= j < |rows| ==> rows[i].id < rows[j].id
  {
  }

  lemma NewestAscend(rows: seq<Message>, n: nat, nextId: int)
    requires Ascending(rows, nextId)
    ensures Ascending(Newest(rows, n), nextId)
  {
    var newest, k := Newest(rows, n), |rows| - |Newest(rows, n)|;
    forall i, j | 0 <= i < j < |newest| ensures newest[i].id < newest[j].id {
      assert newest[i] == rows[k + i] && newest[j] == rows[k + j];
    }
    forall i | 0 <= i < |newest| ensures newest[i].id < nextId {
      assert newest[i] == rows[k + i];
    }
  }

  /** Sent, and received under an id. */
  datatype Incoming = Incoming(sender: string, content: string, timestamp: int)

  function Row(x: Incoming, id: int): Message {
    Message(id, x.sender, x.content, x.timestamp, 0)
  }

  lemma Inserted(rows: seq<Message>, nextId: int, m: Message)
    requires Ascending(rows, nextId) && m.id == nextId
    ensures Ascending(rows + [m], nextId + 1)
  {
    var rows' := rows + [m];
    assert forall i :: 0 <= i < |rows| ==> rows'[i] == rows[i];
  }

  class Inbox {
    var rows: seq<Message>
    var nextId: int
    var max: nat

    predicate Valid()
      reads this
    {
      Ascending(rows, nextId)
    }

    constructor (max: nat)
      ensures Valid() && rows == [] && this.max == max
    {
      rows, nextId, this.max := [], 1, max;
    }

    /** save_sms_to_db; the two outcomes are those of the two statements. */
    method Save(x: Incoming, inserted: bool, trimmed: bool) returns (result: int)
      requires Valid()
      modifies this`rows, this`nextId
      ensures Valid() && (result == 0 <==> inserted)
      ensures rows == if !inserted then old(rows)
                      else if !trimmed then old(rows) + [Row(x, old(nextId))]
                      else Newest(old(rows) + [Row(x, old(nextId))], max)
      ensures nextId == if inserted then old(nextId) + 1 else old(nextId)
      ensures inserted && (max > 0 || !trimmed) ==> rows != [] && var m := rows[|rows| - 1];
        && m.id == old(nextId) && m.sender == x.sender && m.content == x.content
        && m.timestamp == x.timestamp && m.isRead == 0
    {
      if !inserted {
        return -1;
      }
      Inserted(rows, nextId, Row(x, nextId));
      rows := rows + [Row(x, nextId)];
      nextId := nextId + 1;
      if trimmed {
        NewestAscend(rows, max, nextId);
        rows := Newest(rows, max);
      }
      return 0;
    }

    /** The rows sms_get_list selects: the newest, highest id first. */
    method Select(count: nat) returns (r: seq<Message>)
      requires Valid()
      ensures |r| == |Newest(rows, count)| && forall i :: 0 <= i < |r| ==> r[i] == rows[|rows| - 1 - i]
    {
      var all, n := rows, |Newest(rows, count)|;
      r := seq(n, i requires 0 <= i < n => all[|all| - 1 - i]);
    }
  }

  // ---------- many saves ----------

  function Numbered(xs: seq<Incoming>, from: int): (r: seq<Message>)
    ensures |r| == |xs| && forall i :: 0 <= i < |r| ==> r[i] == Row(xs[i], from + i)
  {
    seq(|xs|, i requires 0 <= i < |xs| => Row(xs[i], from + i))
  }

  function SaveAll(rows: seq<Message>, nextId: int, max: nat, xs: seq<Incoming>): seq<Message>
    decreases |xs|
  {
    if xs == [] then rows else SaveAll(Newest(rows + [Row(xs[0], nextId)], max), nextId + 1, max, xs[1..])
  }

  /** However many messages come in, the inbox is what trimming the whole history once would give. */
  lemma {:induction false} InboxIsNewest(rows: seq<Message>, nextId: int, max: nat, xs: seq<Incoming>)
    requires |rows| <= max
    ensures SaveAll(rows, nextId, max, xs) == Newest(rows + Numbered(xs, nextId), max)
    decreases |xs|
  {
    if xs == [] {
      assert rows + Numbered(xs, nextId) == rows;
    } else {
      var rows' := rows + [Row(xs[0], nextId)];
      InboxIsNewest(Newest(rows', max), nextId + 1, max, xs[1..]);
      NumberedStep(rows, xs, nextId);
      NewestTwice(rows', Numbered(xs[1..], nextId + 1), max);
    }
  }

  lemma NumberedStep(rows: seq<Message>, xs: seq<Incoming>, from: int)
    requires xs != []
    ensures rows + Numbered(xs, from) == rows + [Row(xs[0], from)] + Numbered(xs[1..], from + 1)
  {
    assert Numbered(xs, from) == [Row(xs[0], from)] + Numbered(xs[1..], from + 1);
  }

  lemma NewestTwice(a: seq<Message>, b: seq<Message>, max: nat)
    ensures Newest(Newest(a, max) + b, max) == Newest(a + b, max)
  {
  }
}
