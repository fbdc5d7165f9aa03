/**
 * controllers/resultsController.js: the same reads as models/Result.js
 * (except that its unfinalized lookup returns the whole row), and an
 * UPDATE with `LIMIT 1` that finalizes at most one row per call. SQL does
 * not say which row `LIMIT 1` without `ORDER BY` picks, so the method
 * picks any unfinalized row of the slot.
 */
module ResultsController {
  import opened Options
  import opened Query
  import opened Results

  /** `SELECT * FROM results ORDER BY date DESC, time DESC`. */
  function GetAll(table: seq<Row>): (r: seq<Row>)
    ensures NewestFirst(r)
    ensures multiset(r) == multiset(table)
  {
    Results.GetAll(table)
  }

  /** `SELECT * FROM results WHERE lottery_time_id = ? AND is_final = 0 LIMIT 1`. */
  function GetUnfinalizedResultByLotteryTime(table: seq<Row>, lotteryTimeId: int): (r: Option<Row>)
    ensures r.None? <==> !HasPending(table, lotteryTimeId)
    ensures r.Some? ==> r.value in table && IsPending(r.value, lotteryTimeId)
  {
    var found := FindFirst(table, (row: Row) => IsPending(row, lotteryTimeId));
    assert found.None? ==> !HasPending(table, lotteryTimeId) by {
      if found.None? {
        forall i | 0 <= i < |table| ensures !IsPending(table[i], lotteryTimeId) {
          assert table[i] in table;
        }
      }
    }
    found
  }

  /** `SELECT * FROM results WHERE lottery_time_id = ? ORDER BY date DESC, time DESC`. */
  function GetResultsByLotteryTime(table: seq<Row>, lotteryTimeId: int): (r: seq<Row>)
    ensures r == Results.GetResultsByLotteryTime(table, lotteryTimeId)
    ensures NewestFirst(r)
    ensures forall row :: multiset(r)[row] == if row.lotteryTimeId == lotteryTimeId then multiset(table)[row] else 0
    ensures forall row :: row in r <==> row in table && row.lotteryTimeId == lotteryTimeId
  {
    var r := Results.GetResultsByLotteryTime(table, lotteryTimeId);
    assert forall row :: row in r <==> row in multiset(r);
    r
  }

  /**
   * `UPDATE results SET is_final = 1 WHERE lottery_time_id = ? AND is_final = 0 LIMIT 1`:
   * flips one unfinalized row of the slot, if there is one, and reports
   * whether a row changed.
   */
  method FinalizeResultByLotteryTime(a: array<Row>, lotteryTimeId: int) returns (changed: bool)
    modifies a
    ensures changed <==> HasPending(old(a[..]), lotteryTimeId)
    ensures !changed ==> a[..] == old(a[..])
    ensures changed ==>
      exists k :: 0 <= k < a.Length && IsPending(old(a[k]), lotteryTimeId) && a[..] == Flip(old(a[..]), k)
    ensures PendingCount(a[..], lotteryTimeId) == if changed then PendingCount(old(a[..]), lotteryTimeId) - 1 else 0
  {
    if k :| 0 <= k < a.Length && IsPending(a[k], lotteryTimeId) {
      ghost var before := a[..];
      a[k] := a[k].(isFinal := true);
      assert a[..] == Flip(before, k);
      FinalizeOneDecrements(before, k, lotteryTimeId);
      changed := true;
    } else {
      PendingCountZero(a[..], lotteryTimeId);
      changed := false;
    }
  }

  /** The table with the row at `k` marked final. */
  function Flip(table: seq<Row>, k: nat): seq<Row>
    requires k < |table|
  {
    table[k := table[k].(isFinal := true)]
  }

  /** Flipping one unfinalized row of the slot lowers the slot's count of unfinalized rows by exactly one. */
  lemma {:induction false} FinalizeOneDecrements(table: seq<Row>, k: nat, lotteryTimeId: int)
    requires k < |table| && IsPending(table[k], lotteryTimeId)
    ensures PendingCount(Flip(table, k), lotteryTimeId) == PendingCount(table, lotteryTimeId) - 1
  {
    var after := Flip(table, k);
    if k == 0 {
      assert after[1..] == table[1..];
    } else {
      assert after[1..] == Flip(table[1..], k - 1);
      FinalizeOneDecrements(table[1..], k - 1, lotteryTimeId);
    }
  }

  /** `ks` are the rows successive calls flip: each is an unfinalized row of the slot when its call comes. */
  ghost predicate SuccessiveCalls(table: seq<Row>, ks: seq<nat>, lotteryTimeId: int)
    decreases |ks|
  {
    |ks| == 0 ||
    (ks[0] < |table| && IsPending(table[ks[0]], lotteryTimeId) &&
     SuccessiveCalls(Flip(table, ks[0]), ks[1..], lotteryTimeId))
  }

  /** The table after those calls. */
  ghost function AfterCalls(table: seq<Row>, ks: seq<nat>, lotteryTimeId: int): seq<Row>
    requires SuccessiveCalls(table, ks, lotteryTimeId)
    decreases |ks|
  {
    if |ks| == 0 then table else AfterCalls(Flip(table, ks[0]), ks[1..], lotteryTimeId)
  }

  /**
   * Repeated calls finalize one row each: after `n` calls that changed a row
   * the slot has `n` fewer unfinalized rows, every row is either untouched
   * or was unfinalized and is now final, and once the count reaches zero
   * the table is exactly what the model's UPDATE of all rows produces.
   */
  lemma {:induction false} RepeatedCallsFinalizeOneEach(table: seq<Row>, ks: seq<nat>, lotteryTimeId: int)
    requires SuccessiveCalls(table, ks, lotteryTimeId)
    ensures PendingCount(AfterCalls(table, ks, lotteryTimeId), lotteryTimeId) == PendingCount(table, lotteryTimeId) - |ks|
    ensures |AfterCalls(table, ks, lotteryTimeId)| == |table|
    ensures forall i :: 0 <= i < |table| ==>
      AfterCalls(table, ks, lotteryTimeId)[i] == table[i] ||
      (IsPending(table[i], lotteryTimeId) && AfterCalls(table, ks, lotteryTimeId)[i] == table[i].(isFinal := true))
    ensures |ks| == PendingCount(table, lotteryTimeId) ==> AfterCalls(table, ks, lotteryTimeId) == FinalizeAll(table, lotteryTimeId)
    decreases |ks|
  {
    var after := AfterCalls(table, ks, lotteryTimeId);
    if |ks| > 0 {
      var next := Flip(table, ks[0]);
      FinalizeOneDecrements(table, ks[0], lotteryTimeId);
      RepeatedCallsFinalizeOneEach(next, ks[1..], lotteryTimeId);
      assert after == AfterCalls(next, ks[1..], lotteryTimeId);
      forall i | 0 <= i < |table|
        ensures after[i] == table[i] || (IsPending(table[i], lotteryTimeId) && after[i] == table[i].(isFinal := true))
      {
        if i == ks[0] {
          assert next[i] == table[i].(isFinal := true);
          assert !IsPending(next[i], lotteryTimeId);
        }
      }
    }
    if |ks| == PendingCount(table, lotteryTimeId) {
      PendingCountZero(after, lotteryTimeId);
      forall i | 0 <= i < |table| ensures after[i] == FinalizeAll(table, lotteryTimeId)[i] {
        assert !IsPending(after[i], lotteryTimeId);
      }
    }
  }
}
