/** The send log of ipv6_proxy.c: a ring of the newest records, refining an unbounded history. */
module Ipv6SendLog {
  import opened CStrings

  const Slots := 30

  datatype Record = Record(id: int, address: string, content: string, response: string, result: int, time: int)

  /** The record with number `n`, counting from 0. */
  function Stored(n: nat, address: string, content: string, response: string, result: int, time: int): Record {
    Record(n + 1, Cut(address, 64), Cut(content, 1024), Cut(response, 1024), result, time)
  }

  function Min(a: int, b: int): int {
    if a < b then a else b
  }

  /** How many records a read of `k` gives: anything out of range asks for all the slots. */
  function Reading(k: int, appended: nat): (n: nat)
    ensures n <= Slots && n <= appended
    ensures 0 < k <= Slots ==> n == Min(k, appended)
    ensures k <= 0 || k > Slots ==> n == Min(Slots, appended)
  {
    Min(if k <= 0 || k > Slots then Slots else k, Min(appended, Slots))
  }

  /** The last `n` records, newest first. */
  function Newest(history: seq<Record>, n: nat): (r: seq<Record>)
    requires n <= |history|
    ensures |r| == n
  {
    seq(n, i requires 0 <= i < n => history[|history| - 1 - i])
  }

  lemma ModStep(a: int, b: int)
    requires 0 < b - a < Slots
    ensures a % Slots != b % Slots
  {
    assert b - a == Slots * (b / Slots - a / Slots) + (b % Slots - a % Slots);
  }

  class Log {
    const logs: array<Record>
    var count: int
    var id: int
    ghost var history: seq<Record>

    ghost predicate Valid()
      reads this, logs
    {
      && logs.Length == Slots
      && id == |history| && count == Min(|history|, Slots)
      && (forall n :: 0 <= n < |history| ==> history[n].id == n + 1)
      && forall n :: 0 <= n < |history| && |history| - Slots <= n ==> logs[n % Slots] == history[n]
    }

    constructor ()
      ensures Valid() && history == [] && fresh(logs)
    {
      logs := new Record[Slots](_ => Record(0, "", "", "", 0, 0));
      count, id, history := 0, 0, [];
    }

    method Append(address: string, content: string, response: string, result: int, time: int)
      requires Valid()
      modifies this, logs
      ensures Valid()
      ensures history == old(history) + [Stored(|old(history)|, address, content, response, result, time)]
      ensures var r := history[|history| - 1];
        && r.id == |history| && r.address == Cut(address, 64) && r.content == Cut(content, 1024)
        && r.response == Cut(response, 1024) && r.result == result && r.time == time
    {
      var idx := id % Slots;
      id := id + 1;
      logs[idx] := Record(id, Cut(address, 64), Cut(content, 1024), Cut(response, 1024), result, time);
      if count < Slots {
        count := count + 1;
      }
      forall n | 0 <= n < |history| && |history| - Slots < n ensures n % Slots != idx {
        ModStep(n, |history|);
      }
      history := history + [logs[idx]];
    }

    /** `%` is the remainder of C, which takes the sign of the dividend. */
    method Read(k: int) returns (records: seq<Record>)
      requires Valid()
      ensures records == Newest(history, Reading(k, |history|))
      ensures forall i :: 0 <= i < |records| ==> records[i].id == |history| - i
      ensures |records| == Min(if k <= 0 || k > 30 then 30 else k, |history|)
    {
      var max := if k <= 0 || k > Slots then Slots else k;
      if max > count {
        max := count;
      }
      records := [];
      var i := 0;
      while i < max
        invariant 0 <= i <= max
        invariant |records| == i && forall j :: 0 <= j < i ==> records[j] == history[|history| - 1 - j]
      {
        var idx := Remainder(id - 1 - i, Slots);
        if idx < 0 {
          idx := idx + Slots;
        }
        records := records + [logs[idx]];
        i := i + 1;
      }
    }
  }

  /** The remainder of a division that truncates. */
  function Remainder(a: int, b: int): int
    requires b > 0
  {
    if a >= 0 then a % b else -((-a) % b)
  }
}
