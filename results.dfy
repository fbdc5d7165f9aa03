/**
 * The result store of models/Result.js: the `results` table as a sequence
 * of rows, its three reads, and the UPDATE that marks every unfinalized
 * row of a slot final.
 */
module Results {
  import opened Options
  import opened Clock
  import opened Query

  /**
   * A row of `results`. Prices are in hundredths; a NULL or non-numeric
   * cell is None. `date` is a day number. `isFinal` is the 0/1 column.
   */
  datatype Row = Row(
    id: int,
    lotteryTimeId: int,
    date: int,
    time: Time,
    setValue: Option<int>,
    tradeValue: Option<int>,
    result2d: Option<string>,
    isFinal: bool)

  /** The four columns `getUnfinalizedResultByLotteryTime` selects. */
  datatype UnfinalizedView = UnfinalizedView(setValue: Option<int>, tradeValue: Option<int>, result2d: Option<string>, time: Time)

  function View(r: Row): UnfinalizedView {
    UnfinalizedView(r.setValue, r.tradeValue, r.result2d, r.time)
  }

  /** `lottery_time_id = ? AND is_final = 0`. */
  predicate IsPending(r: Row, lotteryTimeId: int) {
    r.lotteryTimeId == lotteryTimeId && !r.isFinal
  }

  predicate HasPending(table: seq<Row>, lotteryTimeId: int) {
    exists i :: 0 <= i < |table| && IsPending(table[i], lotteryTimeId)
  }

  /** The number of unfinalized rows of a slot. */
  function PendingCount(table: seq<Row>, lotteryTimeId: int): nat {
    if |table| == 0 then 0
    else (if IsPending(table[0], lotteryTimeId) then 1 else 0) + PendingCount(table[1..], lotteryTimeId)
  }

  lemma {:induction false} PendingCountZero(table: seq<Row>, lotteryTimeId: int)
    ensures PendingCount(table, lotteryTimeId) == 0 <==> !HasPending(table, lotteryTimeId)
  {
    if |table| > 0 {
      PendingCountZero(table[1..], lotteryTimeId);
      if HasPending(table[1..], lotteryTimeId) {
        var i :| 0 <= i < |table[1..]| && IsPending(table[1..][i], lotteryTimeId);
        assert IsPending(table[i + 1], lotteryTimeId);
      }
      if HasPending(table, lotteryTimeId) && !IsPending(table[0], lotteryTimeId) {
        var i :| 0 <= i < |table| && IsPending(table[i], lotteryTimeId);
        assert IsPending(table[1..][i - 1], lotteryTimeId);
      }
    }
  }

  /** `ORDER BY date DESC, time DESC` as one ascending integer key. */
  function NewestFirstKey(r: Row): int {
    -(r.date * SecondsPerDay + Seconds(r.time))
  }

  /** Later dates first, and on the same date later times first. */
  ghost predicate NewestFirst(rows: seq<Row>) {
    forall i, j :: 0 <= i < j < |rows| ==>
      rows[i].date > rows[j].date ||
      (rows[i].date == rows[j].date && Seconds(rows[i].time) >= Seconds(rows[j].time))
  }

  lemma KeyOrderIsNewestFirst(rows: seq<Row>)
    requires SortedBy(rows, NewestFirstKey)
    ensures NewestFirst(rows)
  {
    forall i, j | 0 <= i < j < |rows|
      ensures rows[i].date > rows[j].date ||
        (rows[i].date == rows[j].date && Seconds(rows[i].time) >= Seconds(rows[j].time))
    {
      assert NewestFirstKey(rows[i]) <= NewestFirstKey(rows[j]);
    }
  }

  /** `SELECT * FROM results ORDER BY date DESC, time DESC`. */
  function GetAll(table: seq<Row>): (r: seq<Row>)
    ensures NewestFirst(r)
    ensures multiset(r) == multiset(table)
  {
    var sorted := SortBy(table, NewestFirstKey);
    KeyOrderIsNewestFirst(sorted);
    sorted
  }

  /** `SELECT set_value, trade_value, result_2d, time ... WHERE is_final = 0 AND lottery_time_id = ? LIMIT 1`. */
  function GetUnfinalizedResultByLotteryTime(table: seq<Row>, lotteryTimeId: int): (r: Option<UnfinalizedView>)
    ensures r.None? <==> !HasPending(table, lotteryTimeId)
    ensures r.Some? ==> exists row :: row in table && IsPending(row, lotteryTimeId) && r.value == View(row)
  {
    var found := FindFirst(table, (row: Row) => IsPending(row, lotteryTimeId));
    assert found.None? ==> !HasPending(table, lotteryTimeId) by {
      if found.None? {
        forall i | 0 <= i < |table| ensures !IsPending(table[i], lotteryTimeId) {
          assert table[i] in table;
        }
      }
    }
    match found
    case None => None
    case Some(row) => Some(View(row))
  }

  /** `SELECT * FROM results WHERE lottery_time_id = ? ORDER BY date DESC, time DESC`. */
  function GetResultsByLotteryTime(table: seq<Row>, lotteryTimeId: int): (r: seq<Row>)
    ensures NewestFirst(r)
    ensures forall row :: multiset(r)[row] == if row.lotteryTimeId == lotteryTimeId then multiset(table)[row] else 0
  {
    var sorted := SortBy(Filter(table, (row: Row) => row.lotteryTimeId == lotteryTimeId), NewestFirstKey);
    KeyOrderIsNewestFirst(sorted);
    sorted
  }

  /** The row after `SET is_final = 1 WHERE lottery_time_id = ?`. */
  function MarkFinal(r: Row, lotteryTimeId: int): Row {
    if r.lotteryTimeId == lotteryTimeId then r.(isFinal := true) else r
  }

  /**
   * The table after the UPDATE for a slot. With or without the extra
   * `is_final = 0` condition the new table is the same: rows already final
   * keep `is_final = 1`.
   */
  function FinalizeAll(table: seq<Row>, lotteryTimeId: int): seq<Row> {
    seq(|table|, i requires 0 <= i < |table| => MarkFinal(table[i], lotteryTimeId))
  }

  /** `finalizeResultByLotteryTime`: flips every unfinalized row of the slot, in place, and reports whether any row changed. */
  method FinalizeResultByLotteryTime(a: array<Row>, lotteryTimeId: int) returns (changed: bool)
    modifies a
    ensures a[..] == FinalizeAll(old(a[..]), lotteryTimeId)
    ensures changed <==> HasPending(old(a[..]), lotteryTimeId)
  {
    changed := false;
    for i := 0 to a.Length
      invariant forall k :: 0 <= k < i ==> a[k] == MarkFinal(old(a[k]), lotteryTimeId)
      invariant forall k :: i <= k < a.Length ==> a[k] == old(a[k])
      invariant changed <==> exists k :: 0 <= k < i && IsPending(old(a[k]), lotteryTimeId)
    {
      if IsPending(a[i], lotteryTimeId) {
        a[i] := a[i].(isFinal := true);
        changed := true;
      }
    }
  }

  /** After the UPDATE no row of the slot is unfinalized. */
  lemma FinalizeAllClearsSlot(table: seq<Row>, lotteryTimeId: int)
    ensures !HasPending(FinalizeAll(table, lotteryTimeId), lotteryTimeId)
    ensures PendingCount(FinalizeAll(table, lotteryTimeId), lotteryTimeId) == 0
  {
    PendingCountZero(FinalizeAll(table, lotteryTimeId), lotteryTimeId);
  }

  /**
   * The UPDATE changes only unfinalized rows of the slot, and of those only
   * the flag: rows of other slots and rows already final are untouched.
   */
  lemma FinalizeAllFrame(table: seq<Row>, lotteryTimeId: int)
    ensures |FinalizeAll(table, lotteryTimeId)| == |table|
    ensures forall i :: 0 <= i < |table| && !IsPending(table[i], lotteryTimeId) ==>
      FinalizeAll(table, lotteryTimeId)[i] == table[i]
    ensures forall i :: 0 <= i < |table| && IsPending(table[i], lotteryTimeId) ==>
      FinalizeAll(table, lotteryTimeId)[i] == table[i].(isFinal := true)
  {
  }

  /** The table changes exactly when some row of the slot was unfinalized: the return value. */
  lemma FinalizeAllChangesIffPending(table: seq<Row>, lotteryTimeId: int)
    ensures FinalizeAll(table, lotteryTimeId) != table <==> HasPending(table, lotteryTimeId)
  {
    if HasPending(table, lotteryTimeId) {
      var i :| 0 <= i < |table| && IsPending(table[i], lotteryTimeId);
      assert FinalizeAll(table, lotteryTimeId)[i] != table[i];
    } else {
      assert FinalizeAll(table, lotteryTimeId) == table;
    }
  }

  /** A second call for the same slot reports no change and leaves the table as it is. */
  lemma FinalizeAllIdempotent(table: seq<Row>, lotteryTimeId: int)
    ensures var once := FinalizeAll(table, lotteryTimeId);
      FinalizeAll(once, lotteryTimeId) == once && !HasPending(once, lotteryTimeId)
  {
    FinalizeAllClearsSlot(table, lotteryTimeId);
  }
}
