/**
 The keyset-paginated scan over enabled channels: batches are fetched in id order after the last id
 seen, until one comes back short.
 */
module ChannelScan {

  datatype Row = Row(id: int, enabled: bool)

  /** The table in primary-key order. */
  ghost predicate ById(rows: seq<Row>) {
    forall i, j :: 0 <= i < j < |rows| ==> rows[i].id < rows[j].id
  }

  /** The ids of the enabled rows above `v`, in id order. */
  function EnabledAbove(rows: seq<Row>, v: int): (r: seq<int>)
    ensures forall i :: 0 <= i < |r| ==> r[i] > v
  {
    if rows == [] then []
    else
      var row := rows[|rows| - 1];
      var r := EnabledAbove(rows[..|rows| - 1], v);
      if row.enabled && row.id > v then r + [row.id] else r
  }

  /** The ids of all enabled rows, in id order. */
  function EnabledIds(rows: seq<Row>): (r: seq<int>) {
    if rows == [] then []
    else
      var row := rows[|rows| - 1];
      var r := EnabledIds(rows[..|rows| - 1]);
      if row.enabled then r + [row.id] else r
  }

  /** findEnabledChannelsAfterID: the id filter is only added for a positive last id. */
  function FindAfter(rows: seq<Row>, lastId: int, limit: nat): seq<int> {
    var ids := if lastId > 0 then EnabledAbove(rows, lastId) else EnabledIds(rows);
    if |ids| <= limit then ids else ids[..limit]
  }

  lemma {:induction false} Ascending(rows: seq<Row>)
    requires ById(rows)
    ensures forall i, j :: 0 <= i < j < |EnabledIds(rows)| ==> EnabledIds(rows)[i] < EnabledIds(rows)[j]
    ensures forall i :: 0 <= i < |EnabledIds(rows)| ==> EnabledIds(rows)[i] <= rows[|rows| - 1].id
    decreases |rows|
  {
    if rows != [] {
      Ascending(rows[..|rows| - 1]);
    }
  }

  lemma {:induction false} NothingAbove(rows: seq<Row>, v: int)
    requires ById(rows) && (rows != [] ==> rows[|rows| - 1].id <= v)
    ensures EnabledAbove(rows, v) == []
    decreases |rows|
  {
    if rows != [] {
      NothingAbove(rows[..|rows| - 1], v);
    }
  }

  /** The enabled ids above a value are the tail of the enabled ids that starts after it. */
  lemma {:induction false} AboveIsTail(rows: seq<Row>, v: int) returns (k: nat)
    requires ById(rows)
    ensures k <= |EnabledIds(rows)| && EnabledAbove(rows, v) == EnabledIds(rows)[k..]
    ensures forall i :: 0 <= i < k ==> EnabledIds(rows)[i] <= v
    decreases |rows|
  {
    if rows == [] {
      k := 0;
    } else {
      var init, row := rows[..|rows| - 1], rows[|rows| - 1];
      k := AboveIsTail(init, v);
      Ascending(init);
      if row.enabled && row.id <= v {
        NothingAbove(init, v);
        k := k + 1;
      }
    }
  }

  /** The batch fetched after the first `n` enabled ids were visited is the next stretch of them. */
  lemma NextBatch(rows: seq<Row>, n: nat, lastId: int, limit: nat)
    requires ById(rows) && n <= |EnabledIds(rows)|
    requires if n == 0 then lastId == 0 else lastId > 0 && lastId == EnabledIds(rows)[n - 1]
    ensures var s := EnabledIds(rows);
            FindAfter(rows, lastId, limit) == s[n..if n + limit < |s| then n + limit else |s|]
  {
    if n > 0 {
      AfterPosition(rows, n, limit);
    }
  }

  lemma NotAboveItself(rows: seq<Row>, v: int)
    ensures v !in EnabledAbove(rows, v)
  {
  }

  lemma TailHolds(s: seq<int>, k: nat, i: nat)
    requires k <= |s| && i < |s|
    ensures k <= i ==> s[i] in s[k..]
  {
    if k <= i {
      assert s[k..][i - k] == s[i];
    }
  }

  /** Where an ascending list is cut when the part before the cut is at most, and the part after it never,
      the value at `n - 1`. */
  lemma CutPlace(s: seq<int>, k: nat, n: nat)
    requires forall i, j :: 0 <= i < j < |s| ==> s[i] < s[j]
    requires k <= |s| && 0 < n <= |s| && s[n - 1] !in s[k..]
    requires forall i :: 0 <= i < k ==> s[i] <= s[n - 1]
    ensures k == n
  {
    TailHolds(s, k, n - 1);
    assert k > n - 1;
    assert s[k - 1] <= s[n - 1];
  }

  lemma AfterPosition(rows: seq<Row>, n: nat, limit: nat)
    requires ById(rows) && 0 < n <= |EnabledIds(rows)| && EnabledIds(rows)[n - 1] > 0
    ensures var s := EnabledIds(rows);
            FindAfter(rows, s[n - 1], limit) == s[n..if n + limit < |s| then n + limit else |s|]
  {
    var s := EnabledIds(rows);
    Ascending(rows);
    var k := AboveIsTail(rows, s[n - 1]);
    NotAboveItself(rows, s[n - 1]);
    CutPlace(s, k, n);
  }

  /** The enabled rows with a non-positive id. */
  function NonPositive(rows: seq<Row>): (n: nat)
    ensures n <= |EnabledIds(rows)|
  {
    if rows == [] then 0
    else
      var row := rows[|rows| - 1];
      NonPositive(rows[..|rows| - 1]) + if row.enabled && row.id <= 0 then 1 else 0
  }

  lemma {:induction false} AllNonPositive(rows: seq<Row>)
    requires ById(rows) && (rows != [] ==> rows[|rows| - 1].id <= 0)
    ensures NonPositive(rows) == |EnabledIds(rows)|
    decreases |rows|
  {
    if rows != [] {
      AllNonPositive(rows[..|rows| - 1]);
    }
  }

  lemma {:induction false} NonPositiveFirst(rows: seq<Row>)
    requires ById(rows)
    ensures forall i :: 0 <= i < |EnabledIds(rows)| ==> (EnabledIds(rows)[i] <= 0 <==> i < NonPositive(rows))
    decreases |rows|
  {
    if rows != [] {
      var init, row := rows[..|rows| - 1], rows[|rows| - 1];
      NonPositiveFirst(init);
      Ascending(init);
      if row.id <= 0 {
        AllNonPositive(init);
      }
    }
  }

  lemma PositiveAt(rows: seq<Row>, i: nat)
    requires ById(rows) && NonPositive(rows) <= i < |EnabledIds(rows)|
    ensures EnabledIds(rows)[i] > 0
  {
    NonPositiveFirst(rows);
  }

  /** The query of a scan that has visited the first `n` enabled ids. */
  method Fetch(rows: seq<Row>, lastId: int, limit: nat, ghost n: nat) returns (channels: seq<int>)
    requires ById(rows) && n <= |EnabledIds(rows)|
    requires if n == 0 then lastId == 0 else lastId > 0 && lastId == EnabledIds(rows)[n - 1]
    ensures |channels| <= limit && n + |channels| <= |EnabledIds(rows)|
    ensures channels == EnabledIds(rows)[n..n + |channels|]
    ensures |channels| < limit ==> n + |channels| == |EnabledIds(rows)|
  {
    NextBatch(rows, n, lastId, limit);
    channels := FindAfter(rows, lastId, limit);
  }

  /** One full pass. It visits every enabled channel exactly once in id order, however the number of
      channels relates to the batch size, provided fewer than a whole batch of enabled ids are
      non-positive. */
  method ScanEnabled(rows: seq<Row>, batchSize: nat) returns (visited: seq<int>)
    requires ById(rows) && batchSize > 0
    requires NonPositive(rows) < batchSize
    ensures visited == EnabledIds(rows)
  {
    ghost var s := EnabledIds(rows);
    visited := [];
    var lastId := 0;
    while true
      invariant |visited| <= |s| && visited == s[..|visited|]
      invariant if visited == [] then lastId == 0 else lastId > 0 && lastId == s[|visited| - 1]
      decreases |s| - |visited|
    {
      var channels := Fetch(rows, lastId, batchSize, |visited|);
      if |channels| == 0 {
        break;
      }
      lastId := channels[|channels| - 1];
      ghost var n, m := |visited|, |visited| + |channels|;
      assert s[..n] + s[n..m] == s[..m];
      visited := visited + channels;
      if |channels| < batchSize {
        break;
      }
      PositiveAt(rows, m - 1);
    }
  }

  /** The condition is exact: with a whole batch of non-positive enabled ids the query after the first
      batch returns that same full batch again, so the scan never ends. */
  lemma ScanStuck(rows: seq<Row>, batchSize: nat)
    requires ById(rows) && batchSize > 0 && NonPositive(rows) >= batchSize
    ensures var b := FindAfter(rows, 0, batchSize);
            |b| == batchSize && FindAfter(rows, b[|b| - 1], batchSize) == b
  {
    NonPositiveFirst(rows);
  }
}
