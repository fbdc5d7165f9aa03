/**
 * The round coordinator of server.js. Its module-level variables
 * (`simulationData`, `isFinalized`, `simulationInterval`) are the fields of
 * class Coordinator, together with the state the coordinator shares with
 * its collaborators: the two tables, the registered cron jobs and the log
 * of Socket.IO broadcasts, and the calls of `finalizeResult` that are
 * suspended at an `await`. Every continuation (the code that runs when a
 * query answers or a timer fires, up to the next `await`) that reads or
 * writes shared state is one method call, except that SelectNextSlot,
 * Poll and FireCron each merge several continuations, where no other step
 * could observe the gaps between them; a query's answer is read from the tables when its
 * continuation runs; so any interleaving of answers, firings and ticks is
 * a sequence of calls, and method Run replays such a sequence.
 */
module Server {
  import opened Options
  import opened Clock
  import opened Query
  import opened LotteryTimes
  import opened Results
  import opened Simulation

  /** `simulationData`: `{}` until the first round is seeded, then four fields. */
  datatype SimulationData =
    | Empty
    | Data(setValue: Option<int>, tradeValue: Option<int>, result2d: Option<string>, time: string)

  /** `{ set_value: 0, trade_value: 0, result_2d: '--', time: '--' }`. */
  const Placeholder := Data(Some(0), Some(0), Some("--"), "--")

  /** A broadcast `io.emit(name, payload)`. */
  datatype Event =
    | SimulationStart(data: SimulationData, lotteryTimeId: int)
    | SimulateValues(setValue: int, tradeValue: int, result2d: string, lotteryTimeId: int)
    | FinalResult(data: SimulationData, lotteryTimeId: int)

  /** A live interval: the slot and the two bases its closure captured. */
  datatype Ticker = Ticker(lotteryTimeId: int, setBase: int, tradeBase: int)

  /** A `cron.schedule` registration; registrations are never cancelled. */
  datatype CronJob = CronJob(expression: string, lotteryTimeId: int)

  /**
   * Where `startClosestTimeSimulation` stands: choosing a slot, about to
   * seed it, back from the seeding query (an `await` other code may run
   * during), waiting for its finalization, or ended because choosing a
   * slot threw.
   */
  datatype Stage = Selecting | Seeding(slot: Slot) | Seeded(slot: Slot) | Waiting(slot: Slot) | Stopped

  /**
   * A call of `finalizeResult` suspended at one of its two `await`s: for
   * the SELECT of today's unfinalized row, or for the UPDATE that marks the
   * slot final.
   */
  datatype Continuation = AwaitSelect(lotteryTimeId: int) | AwaitUpdate(lotteryTimeId: int)

  /** The part of the coordinator's state that a finalization reads and writes. */
  datatype Snapshot = Snapshot(simulationData: SimulationData, isFinalized: bool, events: seq<Event>,
                               results: seq<Row>, pending: seq<Continuation>)

  /** `lottery_time_id = ? AND date = CURDATE() AND is_final = 0`. */
  predicate IsPendingToday(r: Row, lotteryTimeId: int, today: int) {
    IsPending(r, lotteryTimeId) && r.date == today
  }

  predicate HasPendingToday(table: seq<Row>, lotteryTimeId: int, today: int) {
    exists r :: r in table && IsPendingToday(r, lotteryTimeId, today)
  }

  /** `fetchUnfinalizedData`'s query: of today's unfinalized rows of the slot, the one with the largest id. */
  function LatestUnfinalized(table: seq<Row>, lotteryTimeId: int, today: int): (r: Option<Row>)
    ensures r.None? <==> !HasPendingToday(table, lotteryTimeId, today)
    ensures r.Some? ==> r.value in table && IsPendingToday(r.value, lotteryTimeId, today)
    ensures r.Some? ==> forall row :: row in table && IsPendingToday(row, lotteryTimeId, today) ==> row.id <= r.value.id
  {
    var candidates := SortBy(Filter(table, (row: Row) => IsPendingToday(row, lotteryTimeId, today)), (row: Row) => -row.id);
    if |candidates| == 0 then
      assert forall row :: row in table && IsPendingToday(row, lotteryTimeId, today) ==> row in multiset(candidates);
      None
    else
      assert candidates[0] in multiset(candidates);
      assert forall row :: row in table && IsPendingToday(row, lotteryTimeId, today) ==> row.id <= candidates[0].id by {
        forall row | row in table && IsPendingToday(row, lotteryTimeId, today) ensures row.id <= candidates[0].id {
          assert row in multiset(candidates);
          HeadIsLeast(candidates, (row: Row) => -row.id, row);
        }
      }
      Some(candidates[0])
  }

  /** `result_2d || '--'`: a missing or empty code becomes `--`. */
  function CodeOrDashes(code: Option<string>): string {
    if code.None? || code.value == "" then "--" else code.value
  }

  /** What `fetchUnfinalizedData` stores when its query answers: the row's values made numeric, or the placeholder. */
  function SeedData(found: Option<Row>, slotTime: string): SimulationData {
    match found
    case None => Placeholder
    case Some(r) => Data(Some(r.setValue.GetOr(0)), Some(r.tradeValue.GetOr(0)), Some(CodeOrDashes(r.result2d)), slotTime)
  }

  /**
   * The seed is the placeholder when today has no unfinalized row of the
   * slot; otherwise it carries the values of the newest such row, with
   * missing prices read as 0 and a missing code as `--`, and the slot time.
   */
  lemma SeedOfLatest(table: seq<Row>, lotteryTimeId: int, today: int, slotTime: string)
    ensures !HasPendingToday(table, lotteryTimeId, today) ==>
      SeedData(LatestUnfinalized(table, lotteryTimeId, today), slotTime) == Placeholder
    ensures HasPendingToday(table, lotteryTimeId, today) ==>
      exists r :: r in table && IsPendingToday(r, lotteryTimeId, today) &&
        (forall row :: row in table && IsPendingToday(row, lotteryTimeId, today) ==> row.id <= r.id) &&
        SeedData(LatestUnfinalized(table, lotteryTimeId, today), slotTime) ==
          Data(Some(r.setValue.GetOr(0)), Some(r.tradeValue.GetOr(0)), Some(CodeOrDashes(r.result2d)), slotTime)
  {
    var found := LatestUnfinalized(table, lotteryTimeId, today);
    if found.Some? {
      assert found.value in table && IsPendingToday(found.value, lotteryTimeId, today);
    }
  }

  /** `value || fallback`: a missing or zero value falls back. */
  function BaseOf(value: Option<int>, fallback: int): int {
    if value.Some? && value.value != 0 then value.value else fallback
  }

  function SetBase(d: SimulationData): int {
    if d.Data? then BaseOf(d.setValue, DefaultSetBase) else DefaultSetBase
  }

  function TradeBase(d: SimulationData): int {
    if d.Data? then BaseOf(d.tradeValue, DefaultTradeBase) else DefaultTradeBase
  }

  /** The cron expression `MM HH * * *`: every day at the minute and hour of `t`. */
  function DailyAt(t: Time): string {
    Pad2(t.minute) + " " + Pad2(t.hour) + " * * *"
  }

  /** The snapshot `finalizeResult` publishes: the row's stored values as they are, and the time `Finalized`. */
  function FinalData(r: Row): SimulationData {
    Data(r.setValue, r.tradeValue, r.result2d, "Finalized")
  }

  /** The number of `final_result` broadcasts in a log. */
  function FinalCount(events: seq<Event>): nat {
    if |events| == 0 then 0 else (if events[0].FinalResult? then 1 else 0) + FinalCount(events[1..])
  }

  lemma {:induction false} FinalCountAppend(a: seq<Event>, b: seq<Event>)
    ensures FinalCount(a + b) == FinalCount(a) + FinalCount(b)
  {
    if |a| == 0 {
      assert a + b == b;
    } else {
      assert (a + b)[1..] == a[1..] + b;
      FinalCountAppend(a[1..], b);
    }
  }

  /** The number of suspended calls still waiting for their SELECT. */
  function AwaitingSelects(pending: seq<Continuation>): nat {
    if |pending| == 0 then 0 else (if pending[0].AwaitSelect? then 1 else 0) + AwaitingSelects(pending[1..])
  }

  lemma {:induction false} AwaitingSelectsAppend(a: seq<Continuation>, b: seq<Continuation>)
    ensures AwaitingSelects(a + b) == AwaitingSelects(a) + AwaitingSelects(b)
  {
    if |a| == 0 {
      assert a + b == b;
    } else {
      assert (a + b)[1..] == a[1..] + b;
      AwaitingSelectsAppend(a[1..], b);
    }
  }

  /** The suspended calls once the `i`-th has resumed: the others, in order, one fewer waiting for a SELECT if it was. */
  function Resumed(pending: seq<Continuation>, i: nat): (r: seq<Continuation>)
    requires i < |pending|
    ensures |r| == |pending| - 1
    ensures forall j :: 0 <= j < i ==> r[j] == pending[j]
    ensures forall j :: i <= j < |r| ==> r[j] == pending[j + 1]
    ensures AwaitingSelects(r) == AwaitingSelects(pending) - (if pending[i].AwaitSelect? then 1 else 0)
  {
    var r := pending[..i] + pending[i + 1..];
    assert pending == pending[..i] + ([pending[i]] + pending[i + 1..]);
    AwaitingSelectsAppend(pending[..i], [pending[i]] + pending[i + 1..]);
    AwaitingSelectsAppend([pending[i]], pending[i + 1..]);
    AwaitingSelectsAppend(pending[..i], pending[i + 1..]);
    r
  }

  /**
   * `finalizeResult(lotteryTimeId)` up to its first `await`. Nothing when
   * the round is already finalized; otherwise the flag is set and the call
   * suspends on its SELECT.
   */
  function BeginFinalize(s: Snapshot, lotteryTimeId: int): Snapshot {
    if s.isFinalized then s else s.(isFinalized := true, pending := s.pending + [AwaitSelect(lotteryTimeId)])
  }

  /**
   * The guard passes at most once while the flag is set: afterwards the
   * flag is set, nothing is broadcast or written, and one more call waits
   * for its SELECT exactly when the flag was clear.
   */
  lemma BeginPassesOnce(s: Snapshot, lotteryTimeId: int)
    ensures BeginFinalize(s, lotteryTimeId).isFinalized
    ensures BeginFinalize(s, lotteryTimeId).events == s.events
    ensures BeginFinalize(s, lotteryTimeId).results == s.results
    ensures BeginFinalize(s, lotteryTimeId).simulationData == s.simulationData
    ensures AwaitingSelects(BeginFinalize(s, lotteryTimeId).pending) == AwaitingSelects(s.pending) + (if s.isFinalized then 0 else 1)
  {
    if !s.isFinalized {
      AwaitingSelectsAppend(s.pending, [AwaitSelect(lotteryTimeId)]);
    }
  }

  /** A second call before the loop resets the flag, for any slot, changes nothing. */
  lemma SecondBeginIsNoop(s: Snapshot, id1: int, id2: int)
    ensures BeginFinalize(BeginFinalize(s, id1), id2) == BeginFinalize(s, id1)
  {
  }

  /**
   * The SELECT of the `i`-th suspended call answers (or throws). On an
   * answer with some unfinalized row of today, that row becomes the
   * snapshot, one `final_result` is broadcast and the call suspends on its
   * UPDATE; otherwise the call ends. The flag is not consulted again.
   */
  ghost predicate SelectAnswered(s: Snapshot, t: Snapshot, i: nat, today: int, selectFails: bool)
    requires i < |s.pending| && s.pending[i].AwaitSelect?
  {
    var id := s.pending[i].lotteryTimeId;
    if selectFails || !HasPendingToday(s.results, id, today) then t == s.(pending := Resumed(s.pending, i))
    else
      exists r :: r in s.results && IsPendingToday(r, id, today) &&
        t == s.(simulationData := FinalData(r), events := s.events + [FinalResult(FinalData(r), id)],
                pending := Resumed(s.pending, i) + [AwaitUpdate(id)])
  }

  /**
   * An answered SELECT broadcasts at most one `final_result`, and only by
   * using up a call that was waiting for its SELECT; it leaves the flag as
   * it is, so the broadcast can land after the loop has reset it.
   */
  lemma SelectAnsweredBroadcastsOnce(s: Snapshot, t: Snapshot, i: nat, today: int, selectFails: bool)
    requires i < |s.pending| && s.pending[i].AwaitSelect?
    requires SelectAnswered(s, t, i, today, selectFails)
    ensures t.isFinalized == s.isFinalized && t.results == s.results
    ensures FinalCount(t.events) + AwaitingSelects(t.pending) <= FinalCount(s.events) + AwaitingSelects(s.pending)
    ensures selectFails || !HasPendingToday(s.results, s.pending[i].lotteryTimeId, today) ==>
      t == s.(pending := Resumed(s.pending, i))
    ensures !selectFails && HasPendingToday(s.results, s.pending[i].lotteryTimeId, today) ==>
      t.events == s.events + [FinalResult(t.simulationData, s.pending[i].lotteryTimeId)] &&
      t.pending == Resumed(s.pending, i) + [AwaitUpdate(s.pending[i].lotteryTimeId)] &&
      exists r :: r in s.results && IsPendingToday(r, s.pending[i].lotteryTimeId, today) && t.simulationData == FinalData(r)
  {
    var id := s.pending[i].lotteryTimeId;
    if !selectFails && HasPendingToday(s.results, id, today) {
      var r :| r in s.results && IsPendingToday(r, id, today) &&
        t == s.(simulationData := FinalData(r), events := s.events + [FinalResult(FinalData(r), id)],
                pending := Resumed(s.pending, i) + [AwaitUpdate(id)]);
      FinalCountAppend(s.events, [FinalResult(FinalData(r), id)]);
      AwaitingSelectsAppend(Resumed(s.pending, i), [AwaitUpdate(id)]);
    }
  }

  /** The UPDATE of the `i`-th suspended call answers (or throws), and the call ends. */
  function UpdateAnswered(s: Snapshot, i: nat, updateFails: bool): Snapshot
    requires i < |s.pending| && s.pending[i].AwaitUpdate?
  {
    s.(results := if updateFails then s.results else FinalizeAll(s.results, s.pending[i].lotteryTimeId),
       pending := Resumed(s.pending, i))
  }

  /**
   * A successful UPDATE leaves no unfinalized row of the slot, of any
   * date; a failed one leaves the table as it was. Neither broadcasts or
   * touches the flag, and no call waiting for its SELECT is lost.
   */
  lemma UpdateAnsweredPersists(s: Snapshot, i: nat, updateFails: bool)
    requires i < |s.pending| && s.pending[i].AwaitUpdate?
    ensures !updateFails ==> !HasPending(UpdateAnswered(s, i, updateFails).results, s.pending[i].lotteryTimeId)
    ensures updateFails ==> UpdateAnswered(s, i, updateFails).results == s.results
    ensures UpdateAnswered(s, i, updateFails).events == s.events
    ensures UpdateAnswered(s, i, updateFails).isFinalized == s.isFinalized
    ensures AwaitingSelects(UpdateAnswered(s, i, updateFails).pending) == AwaitingSelects(s.pending)
  {
    FinalizeAllClearsSlot(s.results, s.pending[i].lotteryTimeId);
  }

  /**
   * A finalization that nothing interrupts: with the flag clear and an
   * unfinalized row of today, the guard passes, the SELECT publishes the
   * values of such a row in one `final_result`, and the UPDATE leaves no
   * unfinalized row of the slot.
   */
  lemma UninterruptedFinalization(s: Snapshot, t: Snapshot, lotteryTimeId: int, today: int)
    requires !s.isFinalized && HasPendingToday(s.results, lotteryTimeId, today)
    requires SelectAnswered(BeginFinalize(s, lotteryTimeId), t, |s.pending|, today, false)
    ensures t.isFinalized
    ensures exists r :: (r in s.results && IsPendingToday(r, lotteryTimeId, today) &&
                         t.simulationData == FinalData(r) && t.events == s.events + [FinalResult(FinalData(r), lotteryTimeId)])
    ensures t.pending == s.pending + [AwaitUpdate(lotteryTimeId)]
    ensures !HasPending(UpdateAnswered(t, |s.pending|, false).results, lotteryTimeId)
    ensures UpdateAnswered(t, |s.pending|, false).pending == s.pending
  {
    var b := BeginFinalize(s, lotteryTimeId);
    assert Resumed(b.pending, |s.pending|) == s.pending;
    SelectAnsweredBroadcastsOnce(b, t, |s.pending|, today, false);
    assert t.pending[|s.pending|] == AwaitUpdate(lotteryTimeId);
    UpdateAnsweredPersists(t, |s.pending|, false);
    assert Resumed(t.pending, |s.pending|) == s.pending;
  }

  class Coordinator {
    /** The `lottery_times` table. */
    var slots: seq<Slot>
    /** The `results` table. */
    var results: seq<Row>
    var simulationData: SimulationData
    var isFinalized: bool
    /** `simulationInterval`: at most one interval is live at a time. */
    var simulationInterval: Option<Ticker>
    var crons: seq<CronJob>
    /** Everything broadcast with `io.emit`, in order. */
    var events: seq<Event>
    var stage: Stage
    /** The calls of `finalizeResult` suspended at an `await`, in the order they suspended. */
    var pending: seq<Continuation>
    /** Rounds begun: one at start-up, one more each time the loop resets the flag. */
    ghost var rounds: nat
    /** How often the guard of `finalizeResult` has passed. */
    ghost var passes: nat
    /** Where the current round began in `events`. */
    ghost var roundStart: nat

    /**
     * The guard passes at most once per round (and not yet in the current
     * one while the flag is clear), and each pass broadcasts at most one
     * `final_result`, now or when its SELECT answers.
     */
    ghost predicate Valid()
      reads this
    {
      passes + (if isFinalized then 0 else 1) <= rounds &&
      FinalCount(events) + AwaitingSelects(pending) <= passes &&
      roundStart <= |events|
    }

    function Snap(): Snapshot
      reads this
    {
      Snapshot(simulationData, isFinalized, events, results, pending)
    }

    /** The process at start-up: `simulationData = {}`, the flag clear, no interval, nothing scheduled, sent or in flight. */
    constructor (slots: seq<Slot>, results: seq<Row>)
      ensures Valid()
      ensures this.slots == slots && this.results == results
      ensures simulationData == Empty && !isFinalized && simulationInterval == None
      ensures crons == [] && events == [] && stage == Selecting && pending == []
      ensures rounds == 1 && passes == 0 && roundStart == 0
    {
      this.slots := slots;
      this.results := results;
      simulationData := Empty;
      isFinalized := false;
      simulationInterval := None;
      crons := [];
      events := [];
      stage := Selecting;
      pending := [];
      rounds := 1;
      passes := 0;
      roundStart := 0;
    }

    /** The external process that records an outcome adds a row. */
    method RecordOutcome(r: Row)
      requires Valid()
      modifies this`results
      ensures Valid()
      ensures results == old(results) + [r]
    {
      results := results + [r];
    }

    /**
     * The head of the loop: ask for the next slot. With none, stay to retry
     * (no seeding, no simulation); when the query throws, the error ends
     * the loop.
     */
    method SelectNextSlot(now: Time, queryFails: bool) returns (next: Option<Slot>)
      requires Valid() && stage == Selecting
      modifies this`stage
      ensures Valid()
      ensures queryFails ==> next == None && stage == Stopped
      ensures !queryFails ==> next == GetNextLotteryTime(slots, now)
      ensures !queryFails ==> stage == if next.None? then Selecting else Seeding(next.value)
    {
      if queryFails {
        next := None;
        stage := Stopped;
        return;
      }
      next := GetNextLotteryTime(slots, now);
      if next.Some? {
        stage := Seeding(next.value);
      }
    }

    /**
     * `fetchUnfinalizedData`: on an answer, the newest unfinalized row of
     * today made numeric, or the placeholder; on a query error the snapshot
     * is left as it was.
     */
    method FetchUnfinalizedData(lotteryTimeId: int, slotTime: string, today: int, queryFails: bool)
      requires Valid()
      modifies this`simulationData
      ensures Valid()
      ensures queryFails ==> simulationData == old(simulationData)
      ensures !queryFails ==> simulationData == SeedData(LatestUnfinalized(results, lotteryTimeId, today), slotTime)
    {
      if !queryFails {
        simulationData := SeedData(LatestUnfinalized(results, lotteryTimeId, today), slotTime);
      }
    }

    /**
     * `startSimulation`: broadcast `simulation_start`, cancel any live
     * interval and start one whose bases are the seed's values, or 10000
     * and 20000 where those are missing or zero.
     */
    method StartSimulation(lotteryTimeId: int)
      requires Valid()
      modifies this`events, this`simulationInterval
      ensures Valid()
      ensures events == old(events) + [SimulationStart(simulationData, lotteryTimeId)]
      ensures simulationInterval == Some(Ticker(lotteryTimeId, SetBase(simulationData), TradeBase(simulationData)))
    {
      FinalCountAppend(events, [SimulationStart(simulationData, lotteryTimeId)]);
      events := events + [SimulationStart(simulationData, lotteryTimeId)];
      simulationInterval := Some(Ticker(lotteryTimeId, SetBase(simulationData), TradeBase(simulationData)));
    }

    /**
     * The registration half of `waitForFinalization(lottery_time, id)`: the
     * slot's stored time, printed `HH:MM:SS`, becomes a daily cron at its
     * minute and hour.
     */
    method ScheduleFinalization(slot: Slot)
      requires Valid()
      modifies this`crons
      ensures Valid()
      ensures crons == old(crons) + [CronJob(DailyAt(slot.time), slot.id)]
    {
      CronOfSlotTime(slot.time);
      crons := crons + [CronJob(CronExpression(Format(slot.time)), slot.id)];
    }

    /** `await fetchUnfinalizedData(next.id)` for the slot the loop chose. */
    method Seed(today: int, queryFails: bool)
      requires Valid() && stage.Seeding?
      modifies this`simulationData, this`stage
      ensures Valid()
      ensures stage == Seeded(old(stage).slot)
      ensures queryFails ==> simulationData == old(simulationData)
      ensures !queryFails ==> simulationData == SeedData(LatestUnfinalized(results, stage.slot.id, today), Format(stage.slot.time))
    {
      var slot := stage.slot;
      FetchUnfinalizedData(slot.id, Format(slot.time), today, queryFails);
      stage := Seeded(slot);
    }

    /**
     * The rest of the loop body up to its wait: start the simulation only
     * if no cron finalized the round meanwhile, then register the slot's
     * cron and begin waiting.
     */
    method StartAndSchedule()
      requires Valid() && stage.Seeded?
      modifies this`events, this`simulationInterval, this`crons, this`stage
      ensures Valid()
      ensures stage == Waiting(old(stage).slot)
      ensures !isFinalized ==>
        events == old(events) + [SimulationStart(simulationData, stage.slot.id)] &&
        simulationInterval == Some(Ticker(stage.slot.id, SetBase(simulationData), TradeBase(simulationData)))
      ensures isFinalized ==> events == old(events) && simulationInterval == old(simulationInterval)
      ensures crons == old(crons) + [CronJob(DailyAt(stage.slot.time), stage.slot.id)]
    {
      var slot := stage.slot;
      if !isFinalized {
        StartSimulation(slot.id);
      }
      ScheduleFinalization(slot);
      stage := Waiting(slot);
    }

    /**
     * One turn of `while (!isFinalized)`. When the flag is set the wait
     * ends and the loop resets the round: flag cleared, placeholder
     * snapshot, back to selecting. Neither the live interval nor a
     * `finalizeResult` still awaiting a query is cancelled.
     */
    method Poll() returns (done: bool)
      requires Valid() && stage.Waiting?
      modifies this`isFinalized, this`simulationData, this`stage, this`rounds, this`roundStart
      ensures Valid()
      ensures done == old(isFinalized)
      ensures done ==> !isFinalized && simulationData == Placeholder && stage == Selecting && rounds == old(rounds) + 1
      ensures done ==> roundStart == |events|
      ensures !done ==> simulationData == old(simulationData) && stage == old(stage) && rounds == old(rounds)
      ensures !done ==> roundStart == old(roundStart)
      ensures !done ==> isFinalized == old(isFinalized)
    {
      done := isFinalized;
      if done {
        rounds := rounds + 1;
        roundStart := |events|;
        isFinalized := false;
        simulationData := Placeholder;
        stage := Selecting;
      }
    }

    /** `isResultAvailable`: whether today has an unfinalized row of the slot; false when the query throws. */
    method IsResultAvailable(lotteryTimeId: int, today: int, queryFails: bool) returns (available: bool)
      ensures available <==> !queryFails && HasPendingToday(results, lotteryTimeId, today)
    {
      if queryFails {
        available := false;
      } else {
        var found := FindFirst(results, (r: Row) => IsPendingToday(r, lotteryTimeId, today));
        available := found.Some?;
      }
    }

    /** `finalizeResult` up to its SELECT: the idempotency guard, set before any query. */
    method FinalizeResult(lotteryTimeId: int)
      requires Valid()
      modifies this`isFinalized, this`pending, this`passes
      ensures Valid()
      ensures Snap() == BeginFinalize(old(Snap()), lotteryTimeId)
      ensures passes == old(passes) + (if old(isFinalized) then 0 else 1)
    {
      if isFinalized {
        return;
      }
      AwaitingSelectsAppend(pending, [AwaitSelect(lotteryTimeId)]);
      isFinalized := true;
      pending := pending + [AwaitSelect(lotteryTimeId)];
      passes := passes + 1;
    }

    /**
     * The SELECT of the `i`-th suspended `finalizeResult` answers, or
     * throws. The answer is read from the table as it is now.
     */
    method ResumeFinalize(i: nat, today: int, selectFails: bool)
      requires Valid() && i < |pending| && pending[i].AwaitSelect?
      modifies this`simulationData, this`events, this`pending
      ensures Valid()
      ensures SelectAnswered(old(Snap()), Snap(), i, today, selectFails)
    {
      var id := pending[i].lotteryTimeId;
      var rest := Resumed(pending, i);
      if selectFails {
        pending := rest;
        return;
      }
      if r :| r in results && IsPendingToday(r, id, today) {
        FinalCountAppend(events, [FinalResult(FinalData(r), id)]);
        AwaitingSelectsAppend(rest, [AwaitUpdate(id)]);
        simulationData := FinalData(r);
        events := events + [FinalResult(FinalData(r), id)];
        pending := rest + [AwaitUpdate(id)];
      } else {
        pending := rest;
      }
    }

    /** The UPDATE of the `i`-th suspended `finalizeResult` answers, or throws, and the call ends. */
    method ResumePersist(i: nat, updateFails: bool)
      requires Valid() && i < |pending| && pending[i].AwaitUpdate?
      modifies this`results, this`pending
      ensures Valid()
      ensures Snap() == UpdateAnswered(old(Snap()), i, updateFails)
    {
      if !updateFails {
        results := FinalizeAll(results, pending[i].lotteryTimeId);
      }
      pending := Resumed(pending, i);
    }

    /**
     * A registered cron firing, for whichever slot it was registered: once
     * `isResultAvailable` answers that today's result of that slot is
     * there, `finalizeResult` runs up to its SELECT. Nothing ties the job
     * to the slot of the current round.
     */
    method FireCron(k: nat, today: int, availabilityFails: bool)
      requires Valid() && k < |crons|
      modifies this`isFinalized, this`pending, this`passes
      ensures Valid()
      ensures !availabilityFails && HasPendingToday(results, crons[k].lotteryTimeId, today) ==>
        Snap() == BeginFinalize(old(Snap()), crons[k].lotteryTimeId)
      ensures availabilityFails || !HasPendingToday(results, crons[k].lotteryTimeId, today) ==>
        Snap() == old(Snap())
    {
      var available := IsResultAvailable(crons[k].lotteryTimeId, today, availabilityFails);
      if available {
        FinalizeResult(crons[k].lotteryTimeId);
      }
    }

    /**
     * One firing of the live interval. With the flag set it cancels itself
     * and broadcasts nothing; otherwise it broadcasts two jittered values
     * and their code.
     */
    method Tick(setFactor: int, tradeFactor: int)
      requires Valid() && simulationInterval.Some?
      requires MinFactor <= setFactor <= MaxFactor && MinFactor <= tradeFactor <= MaxFactor
      modifies this`events, this`simulationInterval
      ensures Valid()
      ensures old(isFinalized) ==> simulationInterval == None && events == old(events)
      ensures !old(isFinalized) ==> simulationInterval == old(simulationInterval)
      ensures !old(isFinalized) ==>
        var t := old(simulationInterval).value;
        var s, d := Simulated(t.setBase, setFactor), Simulated(t.tradeBase, tradeFactor);
        events == old(events) + [SimulateValues(s, d, TickCode(s, d), t.lotteryTimeId)]
    {
      if isFinalized {
        simulationInterval := None;
        return;
      }
      var t := simulationInterval.value;
      var s, d := Simulated(t.setBase, setFactor), Simulated(t.tradeBase, tradeFactor);
      FinalCountAppend(events, [SimulateValues(s, d, TickCode(s, d), t.lotteryTimeId)]);
      events := events + [SimulateValues(s, d, TickCode(s, d), t.lotteryTimeId)];
    }

    /** A new connection is sent the current snapshot, unless it is still `{}`. */
    method Connect() returns (greeting: Option<SimulationData>)
      ensures greeting.None? <==> simulationData == Empty
      ensures greeting.Some? ==> greeting.value == simulationData
    {
      greeting := if simulationData == Empty then None else Some(simulationData);
    }
  }

  /**
   * One thing that can happen next: a step of the loop, a cron firing, an
   * answer to a suspended `finalizeResult`, an interval tick, an outcome
   * recorded, or a client connecting.
   */
  datatype Step =
    | SelectSlot(now: Time, queryFails: bool)
    | SeedSlot(today: int, queryFails: bool)
    | StartSlot
    | PollFlag
    | FireJob(k: nat, today: int, availabilityFails: bool)
    | AnswerSelect(i: nat, today: int, selectFails: bool)
    | AnswerUpdate(i: nat, updateFails: bool)
    | TickInterval(setFactor: int, tradeFactor: int)
    | Record(row: Row)
    | ClientConnects

  /**
   * Replays any interleaving; a step that cannot happen in the current
   * state (a loop step out of turn, a job, call or interval that does not
   * exist) is skipped. Whatever the interleaving, the guard passes at most
   * once per round and each pass broadcasts at most one `final_result`, so
   * the log never holds more of them than rounds begun.
   */
  method Run(c: Coordinator, script: seq<Step>)
    requires c.Valid()
    modifies c
    ensures c.Valid()
    ensures c.passes <= c.rounds
    ensures FinalCount(c.events) <= c.rounds
    ensures c.rounds >= old(c.rounds)
  {
    for n := 0 to |script|
      invariant c.Valid()
      invariant c.rounds >= old(c.rounds)
    {
      match script[n]
      case SelectSlot(now, queryFails) =>
        if c.stage == Selecting {
          var _ := c.SelectNextSlot(now, queryFails);
        }
      case SeedSlot(today, queryFails) =>
        if c.stage.Seeding? {
          c.Seed(today, queryFails);
        }
      case StartSlot =>
        if c.stage.Seeded? {
          c.StartAndSchedule();
        }
      case PollFlag =>
        if c.stage.Waiting? {
          var _ := c.Poll();
        }
      case FireJob(k, today, availabilityFails) =>
        if k < |c.crons| {
          c.FireCron(k, today, availabilityFails);
        }
      case AnswerSelect(i, today, selectFails) =>
        if i < |c.pending| && c.pending[i].AwaitSelect? {
          c.ResumeFinalize(i, today, selectFails);
        }
      case AnswerUpdate(i, updateFails) =>
        if i < |c.pending| && c.pending[i].AwaitUpdate? {
          c.ResumePersist(i, updateFails);
        }
      case TickInterval(setFactor, tradeFactor) =>
        if c.simulationInterval.Some? && MinFactor <= setFactor <= MaxFactor && MinFactor <= tradeFactor <= MaxFactor {
          c.Tick(setFactor, tradeFactor);
        }
      case Record(row) =>
        c.RecordOutcome(row);
      case ClientConnects =>
        var _ := c.Connect();
    }
  }

  /** A fresh coordinator over one active slot and one unfinalized row of it for today, with its slot chosen. */
  method ChooseOnlySlot(slot: Slot, row: Row, today: int) returns (c: Coordinator)
    requires slot.status == 1
    requires row.lotteryTimeId == slot.id && row.date == today && !row.isFinal
    ensures fresh(c) && c.Valid()
    ensures c.stage == Seeding(slot) && !c.isFinalized
    ensures c.results == [row] && c.crons == [] && c.events == [] && c.pending == []
  {
    c := new Coordinator([slot], [row]);
    var next := c.SelectNextSlot(slot.time, false);
    assert next == Some(slot) by {
      assert next.value in [slot];
    }
  }

  /** Seeding that slot finds the row; the round opens with the row's stored values. */
  method OpenRound(c: Coordinator, slot: Slot, row: Row, today: int)
    requires c.Valid() && c.stage == Seeding(slot) && !c.isFinalized
    requires c.results == [row] && c.crons == [] && c.events == [] && c.pending == []
    requires row.lotteryTimeId == slot.id && row.date == today && !row.isFinal
    modifies c
    ensures c.Valid() && c.stage == Waiting(slot) && !c.isFinalized && c.pending == []
    ensures c.results == [row] && c.crons == [CronJob(DailyAt(slot.time), slot.id)]
    ensures c.events == [SimulationStart(SeedData(Some(row), Format(slot.time)), slot.id)]
  {
    assert LatestUnfinalized(c.results, slot.id, today) == Some(row) by {
      assert row in c.results && IsPendingToday(row, slot.id, today);
      assert LatestUnfinalized(c.results, slot.id, today).value in [row];
    }
    c.Seed(today, false);
    c.StartAndSchedule();
  }

  /**
   * Two firings for the slot before the first SELECT answers. A daily job
   * fires once a day, so the second firing stands for a second
   * registration of the slot (from another day it was chosen) firing in
   * the same minute; job 0 plays both. The round opens with the stored
   * values of today's unfinalized row, broadcasts `final_result` once,
   * with the row's values, and the row ends final.
   */
  method DoubleFiring(slot: Slot, row: Row, today: int) returns (events: seq<Event>, results: seq<Row>)
    requires slot.status == 1
    requires row.lotteryTimeId == slot.id && row.date == today && !row.isFinal
    ensures |events| == 2
    ensures events[0] == SimulationStart(SeedData(Some(row), Format(slot.time)), slot.id)
    ensures events[1] == FinalResult(FinalData(row), slot.id)
    ensures results == [row.(isFinal := true)]
  {
    var c := ChooseOnlySlot(slot, row, today);
    OpenRound(c, slot, row, today);
    assert row in c.results && IsPendingToday(row, slot.id, today);
    c.FireCron(0, today, false);
    c.FireCron(0, today, false);
    assert c.pending == [AwaitSelect(slot.id)];
    ghost var before := c.Snap();
    c.ResumeFinalize(0, today, false);
    SelectAnsweredBroadcastsOnce(before, c.Snap(), 0, today, false);
    assert c.simulationData == FinalData(row) by {
      var r :| r in before.results && IsPendingToday(r, slot.id, today) && c.simulationData == FinalData(r);
      assert r == row;
    }
    assert c.pending == [AwaitUpdate(slot.id)];
    c.ResumePersist(0, false);
    events, results := c.events, c.results;
    assert FinalizeAll([row], slot.id) == [row.(isFinal := true)];
  }

  /**
   * A job is not tied to the round that registered it: a job of slot `a`,
   * firing while the loop waits for slot `b`, ends the round before any
   * result of `b`; `a`'s SELECT is still in flight as the loop moves on.
   */
  method StaleJobEndsOtherRound(c: Coordinator, k: nat, today: int)
    requires c.Valid() && c.stage.Waiting? && !c.isFinalized
    requires k < |c.crons| && c.crons[k].lotteryTimeId != c.stage.slot.id
    requires HasPendingToday(c.results, c.crons[k].lotteryTimeId, today)
    modifies c
    ensures c.Valid()
    ensures c.stage == Selecting && !c.isFinalized && c.rounds == old(c.rounds) + 1
    ensures c.events == old(c.events)
    ensures c.pending == old(c.pending) + [AwaitSelect(old(c.crons[k].lotteryTimeId))]
  {
    c.FireCron(k, today, false);
    var done := c.Poll();
  }

  /**
   * The flag guards only the start of `finalizeResult`: a job passes the
   * guard, the loop sees the flag and resets the round before the SELECT
   * answers, and the `final_result` lands in the new round with its flag
   * clear. The row stays unfinalized until the UPDATE answers.
   */
  method LateFinalAfterReset(c: Coordinator, k: nat, today: int)
    requires c.Valid() && c.stage.Waiting? && !c.isFinalized
    requires k < |c.crons| && HasPendingToday(c.results, c.crons[k].lotteryTimeId, today)
    modifies c
    ensures c.Valid() && c.stage == Selecting && !c.isFinalized && c.rounds == old(c.rounds) + 1
    ensures c.crons == old(c.crons) && c.results == old(c.results)
    ensures c.events == old(c.events) + [FinalResult(c.simulationData, old(c.crons[k].lotteryTimeId))]
    ensures c.roundStart == |old(c.events)|
  {
    var id := c.crons[k].lotteryTimeId;
    c.FireCron(k, today, false);
    var done := c.Poll();
    ghost var s := c.Snap();
    var last := |c.pending| - 1;
    assert c.pending[last] == AwaitSelect(id);
    c.ResumeFinalize(last, today, false);
    SelectAnsweredBroadcastsOnce(s, c.Snap(), last, today, false);
  }

  /**
   * With the flag clear and the slot's row still unfinalized, a job of the
   * slot passes the guard and its SELECT broadcasts a `final_result`, all
   * within the current round.
   */
  method FinalWithinRound(c: Coordinator, j: nat, today: int)
    requires c.Valid() && !c.isFinalized
    requires j < |c.crons| && HasPendingToday(c.results, c.crons[j].lotteryTimeId, today)
    modifies c
    ensures c.Valid() && c.stage == old(c.stage) && c.rounds == old(c.rounds) && c.isFinalized
    ensures c.crons == old(c.crons) && c.results == old(c.results)
    ensures c.events == old(c.events) + [FinalResult(c.simulationData, old(c.crons[j].lotteryTimeId))]
    ensures c.roundStart == old(c.roundStart)
  {
    var id := c.crons[j].lotteryTimeId;
    c.FireCron(j, today, false);
    ghost var s := c.Snap();
    var last := |c.pending| - 1;
    assert c.pending[last] == AwaitSelect(id);
    c.ResumeFinalize(last, today, false);
    SelectAnsweredBroadcastsOnce(s, c.Snap(), last, today, false);
  }

  /**
   * So one round can hold two `final_result`s for the same slot: the late
   * one of the previous round's job, and one of a second job of the slot
   * (registered on an earlier day) firing before the UPDATE answers.
   */
  method TwoFinalsInOneRound(c: Coordinator, k: nat, j: nat, today: int)
    requires c.Valid() && c.stage.Waiting? && !c.isFinalized
    requires k < |c.crons| && j < |c.crons| && j != k && c.crons[j].lotteryTimeId == c.crons[k].lotteryTimeId
    requires HasPendingToday(c.results, c.crons[k].lotteryTimeId, today)
    modifies c
    ensures c.Valid() && c.stage == Selecting && c.rounds == old(c.rounds) + 1
    ensures |c.events| == |old(c.events)| + 2
    ensures c.events[|c.events| - 2].FinalResult? && c.events[|c.events| - 2].lotteryTimeId == old(c.crons[k].lotteryTimeId)
    ensures c.events[|c.events| - 1].FinalResult? && c.events[|c.events| - 1].lotteryTimeId == old(c.crons[k].lotteryTimeId)
    ensures FinalCount(c.events[c.roundStart..]) == 2
  {
    LateFinalAfterReset(c, k, today);
    ghost var start := c.roundStart;
    FinalWithinRound(c, j, today);
    ghost var tail := c.events[start..];
    assert tail == [c.events[|c.events| - 2], c.events[|c.events| - 1]];
    FinalCountAppend([tail[0]], [tail[1]]);
  }

  /**
   * `Poll` does not clear the interval: if the loop resets the flag before
   * the interval's next firing, that firing finds the flag clear and
   * broadcasts simulated values of the finalized slot in the new round.
   */
  method StaleIntervalTicksAfterReset(c: Coordinator, setFactor: int, tradeFactor: int)
    requires c.Valid() && c.stage.Waiting? && c.isFinalized && c.simulationInterval.Some?
    requires MinFactor <= setFactor <= MaxFactor && MinFactor <= tradeFactor <= MaxFactor
    modifies c
    ensures c.Valid() && c.stage == Selecting
    ensures c.simulationInterval == old(c.simulationInterval)
    ensures |c.events| == |old(c.events)| + 1
    ensures c.events[|c.events| - 1].SimulateValues?
    ensures c.events[|c.events| - 1].lotteryTimeId == old(c.simulationInterval).value.lotteryTimeId
  {
    var done := c.Poll();
    c.Tick(setFactor, tradeFactor);
  }
}
