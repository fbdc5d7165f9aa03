/**
 * The slot catalog of models/LotteryTime.js: the `lottery_times` table as a
 * sequence of slots, the list of active slots in time order, and the choice
 * of the next slot to run, with its wrap to the next day.
 */
module LotteryTimes {
  import opened Options
  import opened Clock
  import opened Query

  /** A row of `lottery_times`: `status = 1` marks an active slot. */
  datatype Slot = Slot(id: int, time: Time, status: int)

  predicate IsActive(s: Slot) {
    s.status == 1
  }

  function TimeKey(s: Slot): int {
    Seconds(s.time)
  }

  /** `lottery_time > now`, the strict comparison of the first query. */
  predicate IsLater(s: Slot, now: Time) {
    Seconds(s.time) > Seconds(now)
  }

  /**
   * The query compares the stored time with the current time printed as
   * `HH:MM:SS` text; on such text the comparison is the time-of-day order.
   */
  lemma LaterIsTextComparison(s: Slot, now: Time)
    ensures IsLater(s, now) <==> LexLess(Format(now), Format(s.time))
  {
    LexOrderAgrees(now, s.time);
  }

  /** `SELECT * FROM lottery_times WHERE status = 1 ORDER BY lottery_time ASC`. */
  function GetActiveLotteryTimes(table: seq<Slot>): (r: seq<Slot>)
    ensures SortedBy(r, TimeKey)
    ensures forall s :: multiset(r)[s] == if IsActive(s) then multiset(table)[s] else 0
  {
    SortBy(Filter(table, IsActive), TimeKey)
  }

  /** Reloading the list runs the same query again: the active slots, each as often as stored, by time. */
  function ReloadLotteryTimes(table: seq<Slot>): (r: seq<Slot>)
    ensures r == GetActiveLotteryTimes(table)
    ensures SortedBy(r, TimeKey)
    ensures forall s :: multiset(r)[s] == if IsActive(s) then multiset(table)[s] else 0
    ensures forall s :: s in r <==> s in table && IsActive(s)
  {
    GetActiveLotteryTimes(table)
  }

  /**
   * The next slot: the earliest active slot strictly later than `now`, or,
   * when none is left today, the earliest active slot of all (tomorrow's
   * first); None only when no slot is active.
   */
  function GetNextLotteryTime(table: seq<Slot>, now: Time): (r: Option<Slot>)
    ensures r.None? <==> forall s :: s in table ==> !IsActive(s)
    ensures r.Some? ==> r.value in table && IsActive(r.value)
    ensures r.Some? && (exists s :: s in table && IsActive(s) && IsLater(s, now)) ==>
      IsLater(r.value, now) &&
      forall s :: s in table && IsActive(s) && IsLater(s, now) ==> TimeKey(r.value) <= TimeKey(s)
    ensures r.Some? && (forall s :: s in table && IsActive(s) ==> !IsLater(s, now)) ==>
      forall s :: s in table && IsActive(s) ==> TimeKey(r.value) <= TimeKey(s)
  {
    var upcoming := SortBy(Filter(table, s => IsActive(s) && IsLater(s, now)), TimeKey);
    if |upcoming| > 0 then
      assert upcoming[0] in multiset(upcoming);
      assert forall s :: s in table && IsActive(s) && IsLater(s, now) ==> TimeKey(upcoming[0]) <= TimeKey(s) by {
        forall s | s in table && IsActive(s) && IsLater(s, now)
          ensures TimeKey(upcoming[0]) <= TimeKey(s)
        {
          assert s in multiset(upcoming);
          HeadIsLeast(upcoming, TimeKey, s);
        }
      }
      Some(upcoming[0])
    else
      assert forall s :: s in table && IsActive(s) ==> !IsLater(s, now) by {
        forall s | s in table && IsActive(s) ensures !IsLater(s, now) {
          assert multiset(upcoming)[s] == 0;
          assert s in multiset(table);
        }
      }
      var active := GetActiveLotteryTimes(table);
      if |active| > 0 then
        assert active[0] in multiset(active);
        assert forall s :: s in table && IsActive(s) ==> TimeKey(active[0]) <= TimeKey(s) by {
          forall s | s in table && IsActive(s) ensures TimeKey(active[0]) <= TimeKey(s) {
            assert s in multiset(active);
            HeadIsLeast(active, TimeKey, s);
          }
        }
        Some(active[0])
      else
        assert forall s :: s in table ==> !IsActive(s) by {
          forall s | s in table ensures !IsActive(s) {
            assert multiset(active)[s] == 0;
            assert s in multiset(table);
          }
        }
        None
  }

  /**
   * A slot at exactly the current time is not "upcoming": it is chosen only
   * by the wrap, when no active slot is later than now.
   */
  lemma SlotAtNowOnlyByWrap(table: seq<Slot>, now: Time)
    requires GetNextLotteryTime(table, now).Some?
    requires Seconds(GetNextLotteryTime(table, now).value.time) == Seconds(now)
    ensures forall s :: s in table && IsActive(s) ==> !IsLater(s, now)
    ensures forall s :: s in table && IsActive(s) ==> Seconds(now) <= Seconds(s.time)
  {
  }

  /** The next slot is determined by its time: any two answers the rules allow have the same time. */
  lemma NextSlotTimeIsDetermined(table: seq<Slot>, now: Time, other: Slot)
    requires other in table && IsActive(other)
    requires (exists s :: s in table && IsActive(s) && IsLater(s, now)) ==>
      IsLater(other, now) && forall s :: s in table && IsActive(s) && IsLater(s, now) ==> TimeKey(other) <= TimeKey(s)
    requires (forall s :: s in table && IsActive(s) ==> !IsLater(s, now)) ==>
      forall s :: s in table && IsActive(s) ==> TimeKey(other) <= TimeKey(s)
    ensures GetNextLotteryTime(table, now).Some?
    ensures TimeKey(GetNextLotteryTime(table, now).value) == TimeKey(other)
  {
    var r := GetNextLotteryTime(table, now);
    if exists s :: s in table && IsActive(s) && IsLater(s, now) {
      assert TimeKey(r.value) <= TimeKey(other);
      assert TimeKey(other) <= TimeKey(r.value);
    } else {
      assert TimeKey(r.value) <= TimeKey(other);
      assert TimeKey(other) <= TimeKey(r.value);
    }
  }

  /** Active slots at 09:00 and 14:00: at 10:00 the next slot is the 14:00 one. */
  lemma NextSlotExampleSameDay(nine: Slot, two: Slot)
    requires nine == Slot(1, TimeOfDay(9, 0, 0), 1) && two == Slot(2, TimeOfDay(14, 0, 0), 1)
    ensures GetNextLotteryTime([nine, two], TimeOfDay(10, 0, 0)) == Some(two)
  {
    var r := GetNextLotteryTime([nine, two], TimeOfDay(10, 0, 0));
    assert two in [nine, two] && IsLater(two, TimeOfDay(10, 0, 0));
    assert r.Some? && r.value in [nine, two];
  }

  /** Active slots at 09:00 and 14:00: at 15:00 the next slot wraps to the 09:00 one. */
  lemma NextSlotExampleWrap(nine: Slot, two: Slot)
    requires nine == Slot(1, TimeOfDay(9, 0, 0), 1) && two == Slot(2, TimeOfDay(14, 0, 0), 1)
    ensures GetNextLotteryTime([nine, two], TimeOfDay(15, 0, 0)) == Some(nine)
  {
    var r := GetNextLotteryTime([nine, two], TimeOfDay(15, 0, 0));
    assert nine in [nine, two];
    assert r.Some? && r.value in [nine, two];
  }
}
