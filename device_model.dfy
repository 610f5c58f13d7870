/**
 * The device record and the drink-limit state machine as values: one function per
 * handler, each with a contract, and the arithmetic facts the penalty bound needs.
 * The lemmas relating the handlers are in DeviceProperties. Times are whole seconds.
 */
module DeviceModel {
  import opened Wrappers
  import opened ConsumptionLog

  type Positive = n: int | n > 0 witness 1

  /** The phrase the dashboard must send with a settings change or a reset. */
  const ConfirmationPhrase: string := "I am not lying"
  const PhraseError: string := "Confirmation phrase is incorrect."

  const DefaultConsumptionLimit := 2
  /** Used as seconds by every handler, although the column calls it minutes. */
  const DefaultCycleDuration := 24 * 60
  /** The default penalty multiplier 1.5, as a ratio. */
  const DefaultPenaltyNum := 3
  const DefaultPenaltyDen: Positive := 2

  /** The single device record. `lockoutEndTime` is nullable. The penalty multiplier
      is the ratio `penaltyNum / penaltyDen`. */
  datatype Status = Status(
    addedCount: int,
    consumptionCount: int,
    inventoryCount: int,
    lockStatus: bool,
    lidStatus: bool,
    lockoutRemaining: nat,
    consumptionLimit: int,
    lockoutEndTime: Option<int>,
    cycleStartTime: int,
    cycleEndTime: int,
    cycleDuration: int,
    penaltyNum: int,
    penaltyDen: Positive,
    currentStreak: nat,
    highestStreak: nat)

  /** What the hardware reports: cumulative counters and the two sensors. */
  datatype Report = Report(
    totalAddCount: int,
    totalRemCount: int,
    drinkCount: int,
    lockState: bool,
    lidClosed: bool)

  /** A hardware message either carries a status report or lacks its removed count. */
  datatype Message = StatusReport(report: Report) | OtherMessage

  /** The answer sent back to the hardware. */
  datatype Action = Lock | Unlock | Reset | NoAction

  /** The answer to a dashboard command. */
  datatype Reply = Success | Failure(message: string)

  /** The whole server state: the record, the ledger and the pending-reset flag. */
  datatype State = State(device: Status, log: Log, resetPending: bool)

  /** A record with a positive lockout countdown has an end time to count towards. */
  predicate LockoutConsistent(d: Status) {
    d.lockoutRemaining >= 1 ==> d.lockoutEndTime.Some?
  }

  /** The countdown the recorded lockout end gives at `now`. */
  function DerivedRemaining(d: Status, now: int): nat {
    match d.lockoutEndTime
    case Some(e) => Max(0, e - now)
    case None => 0
  }

  /** What every handler preserves. */
  predicate Inv(st: State) {
    st.device.currentStreak <= st.device.highestStreak &&
    LockoutConsistent(st.device) &&
    KeysUnique(st.log)
  }

  /** The record created on first access, with a cycle starting at `now`. */
  function NewStatus(now: int): Status {
    Status(0, 0, 0, false, false, 0, DefaultConsumptionLimit, None,
           now, now + DefaultCycleDuration, DefaultCycleDuration,
           DefaultPenaltyNum, DefaultPenaltyDen, 0, 0)
  }

  function NewState(now: int): (st: State)
    ensures Inv(st) && !st.resetPending && st.log == []
    ensures st.device.cycleStartTime == now && st.device.cycleEndTime == now + DefaultCycleDuration
    ensures st.device.cycleDuration == DefaultCycleDuration
    ensures st.device.consumptionLimit == DefaultConsumptionLimit
    ensures st.device.penaltyNum == DefaultPenaltyNum && st.device.penaltyDen == DefaultPenaltyDen
    ensures st.device.addedCount == 0 && st.device.consumptionCount == 0 && st.device.inventoryCount == 0
    ensures !st.device.lockStatus && !st.device.lidStatus
    ensures st.device.lockoutEndTime == None && st.device.lockoutRemaining == 0
    ensures st.device.currentStreak == 0 && st.device.highestStreak == 0
  {
    State(NewStatus(now), [], false)
  }

  // ---------------------------------------------------------------- streak

  /** A cycle that exceeded the limit breaks the streak; one that did not extends it
      and may raise the record. Nothing else in the record changes. */
  function UpdateStreak(d: Status, exceeded: bool): (r: Status)
    ensures exceeded ==> r.currentStreak == 0 && r.highestStreak == d.highestStreak
    ensures !exceeded ==>
              r.currentStreak == d.currentStreak + 1 &&
              r.highestStreak == Max(d.highestStreak, d.currentStreak + 1)
    ensures d.currentStreak <= d.highestStreak ==> r.currentStreak <= r.highestStreak
    ensures r.highestStreak >= d.highestStreak
    ensures r == d.(currentStreak := r.currentStreak, highestStreak := r.highestStreak)
  {
    if exceeded then d.(currentStreak := 0)
    else
      var c := d.currentStreak + 1;
      d.(currentStreak := c, highestStreak := if c > d.highestStreak then c else d.highestStreak)
  }

  // ---------------------------------------------------------------- rollover

  /** True when the current cycle has ended at `now`. */
  predicate CycleExpired(d: Status, now: int) {
    d.cycleEndTime <= now
  }

  /** The new cycle begun at `now`: counters, lock and lockout cleared. */
  function StartNewCycle(d: Status, now: int): Status {
    d.(cycleStartTime := now,
       cycleEndTime := now + d.cycleDuration,
       consumptionCount := 0,
       addedCount := 0,
       lockStatus := false,
       lockoutEndTime := None,
       lockoutRemaining := 0)
  }

  /**
   * Closes an expired cycle: updates the streak, finalizes the cycle's ledger entry,
   * clears counters and lockout, starts a new cycle at `now` and raises the
   * pending-reset flag. Before the end of the cycle nothing changes.
   */
  function CheckAndResetCycle(st: State, now: int): (r: State)
    ensures Inv(st) ==> Inv(r)
    ensures st.device.cycleDuration > 0 ==> !CycleExpired(r.device, now)
    ensures !CycleExpired(st.device, now) ==> r == st
    ensures CycleExpired(st.device, now) ==>
              r.device.cycleStartTime == now && r.device.consumptionCount == 0 &&
              r.device.lockoutEndTime == None && r.device.lockoutRemaining == 0
    ensures r.resetPending == (st.resetPending || CycleExpired(st.device, now))
  {
    var d := st.device;
    if CycleExpired(d, now) then
      var exceeded := d.consumptionCount > d.consumptionLimit;
      var d1 := UpdateStreak(d, exceeded);
      var log1 := FinalizeEntry(st.log, d.cycleStartTime, d.cycleEndTime, d.consumptionCount, exceeded);
      State(StartNewCycle(d1, now), log1, true)
    else
      st
  }

  // ---------------------------------------------------------------- report ingestion

  /** The hardware is authoritative for its counters and sensors. */
  function CopyReport(d: Status, rep: Report): (r: Status)
    ensures r.addedCount == rep.totalAddCount && r.consumptionCount == rep.totalRemCount &&
            r.inventoryCount == rep.drinkCount && r.lockStatus == rep.lockState &&
            r.lidStatus == rep.lidClosed
    ensures r.(addedCount := d.addedCount, consumptionCount := d.consumptionCount,
               inventoryCount := d.inventoryCount, lockStatus := d.lockStatus,
               lidStatus := d.lidStatus) == d
  {
    d.(addedCount := rep.totalAddCount,
       consumptionCount := rep.totalRemCount,
       inventoryCount := rep.drinkCount,
       lockStatus := rep.lockState,
       lidStatus := rep.lidClosed)
  }

  /** Counts an active lockout down to `now`, clearing its end time once it reaches
      zero; without an active countdown both are cleared. */
  function DecayLockout(d: Status, now: int): (r: Status)
    requires LockoutConsistent(d)
    ensures LockoutConsistent(r) && r.lockoutRemaining == DerivedRemaining(r, now)
    ensures r.lockoutRemaining == 0 <==> r.lockoutEndTime == None
    ensures r.lockoutEndTime.Some? ==> r.lockoutEndTime == d.lockoutEndTime
    ensures r == d.(lockoutRemaining := r.lockoutRemaining, lockoutEndTime := r.lockoutEndTime)
  {
    if d.lockoutRemaining >= 1 then
      var remaining := Max(0, d.lockoutEndTime.value - now);
      d.(lockoutRemaining := remaining,
         lockoutEndTime := if remaining == 0 then None else d.lockoutEndTime)
    else
      d.(lockoutRemaining := 0, lockoutEndTime := None)
  }

  /** The end of the punitive lockout for an exceeded limit: the cycle start plus the
      cycle duration times the penalty multiplier, in whole seconds. */
  function PenaltyLockoutEnd(d: Status): (e: int)
    ensures d.cycleDuration >= 0 && d.penaltyNum >= d.penaltyDen ==>
              e >= d.cycleStartTime + d.cycleDuration
    ensures d.cycleDuration >= 0 && 0 <= d.penaltyNum ==> e >= d.cycleStartTime
    ensures (d.cycleDuration >= 0 && d.penaltyNum >= d.penaltyDen &&
             d.cycleEndTime <= d.cycleStartTime + d.cycleDuration) ==>
              e >= d.cycleEndTime
  {
    PenaltyBounds(d.cycleDuration, d.penaltyNum, d.penaltyDen);
    d.cycleStartTime + (d.cycleDuration * d.penaltyNum) / d.penaltyDen
  }

  /** Scaling a non-negative duration by a ratio of at least one does not shorten it. */
  lemma PenaltyBounds(duration: int, num: int, den: Positive)
    ensures duration >= 0 && num >= den ==> (duration * num) / den >= duration
    ensures duration >= 0 && num >= 0 ==> (duration * num) / den >= 0
  {
    if duration >= 0 && num >= 0 {
      MulMonotone(duration, 0, num);
      DivLowerBound(duration * num, 0, den);
      if num >= den {
        MulMonotone(duration, den, num);
        DivLowerBound(duration * num, duration, den);
      }
    }
  }

  lemma MulMonotone(c: int, x: int, y: int)
    requires c >= 0 && x <= y
    ensures c * x <= c * y
  {
    assert c * y - c * x == c * (y - x);
  }

  /** Integer division by a positive divisor keeps a lower bound it was given as a multiple. */
  lemma DivLowerBound(x: int, q: int, den: Positive)
    requires x >= q * den
    ensures x / den >= q
  {
    var k := x / den;
    assert x == den * k + x % den;
    if k < q {
      assert den * (q - 1) + den == q * den;
      MulMonotone(den, k, q - 1);
    }
  }

  /**
   * The lock decision. A closed lid with the limit reached locks, starting a lockout
   * when none is recorded: anchored at the penalty end when the limit is exceeded, at
   * the cycle end when it is only reached. Otherwise a running countdown still locks.
   */
  function LockPolicy(d: Status, now: int): (r: (Status, Action))
    ensures r.1 == Lock || r.1 == Unlock
    ensures LockoutConsistent(d) && d.lockoutRemaining == DerivedRemaining(d, now) ==>
              LockoutConsistent(r.0) && r.0.lockoutRemaining == DerivedRemaining(r.0, now)
    ensures d.lockoutEndTime.Some? ==> r.0.lockoutEndTime == d.lockoutEndTime
    ensures !d.lidStatus ==> r.0 == d
    ensures r.1 == Unlock ==> r.0 == d && d.lockoutRemaining == 0
  {
    if d.lidStatus && d.consumptionCount >= d.consumptionLimit then
      var penalty := Max(0, d.consumptionCount - d.consumptionLimit);
      var endTime :=
        if d.lockoutEndTime.Some? then d.lockoutEndTime.value
        else if penalty >= 1 then PenaltyLockoutEnd(d)
        else d.cycleEndTime;
      (d.(lockoutEndTime := Some(endTime), lockoutRemaining := Max(0, endTime - now)), Lock)
    else if d.lockoutRemaining >= 1 then
      (d, Lock)
    else
      (d, Unlock)
  }

  /**
   * Ingests a hardware report: copies its counters and sensors, decays the lockout,
   * merges any increase of the removed count into the current cycle's ledger entry,
   * then applies the lock policy. The pending-reset flag is not touched.
   */
  function IngestReport(st: State, now: int, rep: Report): (r: (State, Action))
    requires LockoutConsistent(st.device)
    ensures Inv(st) ==> Inv(r.0)
    ensures LockoutConsistent(r.0.device) && r.0.device.lockoutRemaining == DerivedRemaining(r.0.device, now)
    ensures r.1 == Lock || r.1 == Unlock
    ensures r.0.resetPending == st.resetPending
    ensures rep.totalRemCount <= st.device.consumptionCount ==> r.0.log == st.log
  {
    var prev := st.device.consumptionCount;
    var d1 := CopyReport(st.device, rep);
    var d2 := DecayLockout(d1, now);
    var log1 :=
      if d2.consumptionCount > prev then
        MergeConsumption(st.log, d2.cycleStartTime, d2.cycleEndTime,
                         d2.consumptionCount - prev, d2.consumptionCount, d2.consumptionLimit)
      else st.log;
    var (d3, action) := LockPolicy(d2, now);
    (State(d3, log1, st.resetPending), action)
  }

  // ---------------------------------------------------------------- dashboard commands

  function ApplySettings(d: Status, limit: int, duration: int): Status {
    d.(consumptionLimit := limit, cycleDuration := duration, cycleEndTime := d.cycleStartTime + duration)
  }

  function ClearForReset(d: Status, now: int): Status {
    d.(consumptionCount := 0, lockStatus := false, lockoutRemaining := 0, lockoutEndTime := None,
       cycleStartTime := now)
  }

  /** Sets the limit and the cycle duration and recomputes the cycle end from the
      current start, when the phrase matches. */
  function UpdateSettings(st: State, phrase: string, limit: int, duration: int): (r: (State, Reply))
    ensures Inv(st) ==> Inv(r.0)
    ensures r.1 == Success <==> phrase == ConfirmationPhrase
    ensures r.1 != Success ==> r == (st, Failure(PhraseError))
    ensures r.1 == Success ==>
              r.0.device.consumptionLimit == limit && r.0.device.cycleDuration == duration &&
              r.0.device.cycleEndTime == r.0.device.cycleStartTime + duration
  {
    if phrase == ConfirmationPhrase then
      (st.(device := ApplySettings(st.device, limit, duration)), Success)
    else
      (st, Failure(PhraseError))
  }

  /** Zeroes the consumption count, clears lock and lockout, restarts the cycle at
      `now` and raises the pending-reset flag, when the phrase matches. The cycle end
      is left as it was. */
  function ResetDevice(st: State, phrase: string, now: int): (r: (State, Reply))
    ensures Inv(st) ==> Inv(r.0)
    ensures r.1 == Success <==> phrase == ConfirmationPhrase
    ensures r.1 != Success ==> r == (st, Failure(PhraseError))
    ensures r.1 == Success ==>
              r.0.resetPending && r.0.device.consumptionCount == 0 &&
              r.0.device.lockoutEndTime == None && r.0.device.cycleStartTime == now
  {
    if phrase == ConfirmationPhrase then
      (State(ClearForReset(st.device, now), st.log, true), Success)
    else
      (st, Failure(PhraseError))
  }

  // ---------------------------------------------------------------- dispatch

  /** The handling of one hardware message: rollover first, then a pending reset is
      delivered instead of anything else, then a status report is ingested. */
  function Dispatch(st: State, now: int, msg: Message): (r: (State, Action))
    requires LockoutConsistent(st.device)
    ensures Inv(st) ==> Inv(r.0)
    ensures !r.0.resetPending
    ensures r.1 == Reset <==> st.resetPending || CycleExpired(st.device, now)
    ensures r.1 == NoAction <==> !st.resetPending && !CycleExpired(st.device, now) && msg.OtherMessage?
  {
    var st1 := CheckAndResetCycle(st, now);
    if st1.resetPending then
      (st1.(resetPending := false), Reset)
    else if msg.StatusReport? then
      IngestReport(st1, now, msg.report)
    else
      (st1, NoAction)
  }

  // ---------------------------------------------------------------- history

  /** What the history query answers: the newest ledger entries and the streaks and
      limit of the record. */
  datatype HistoryReply = HistoryReply(
    history: Log, currentStreak: nat, highestStreak: nat, currentConsumptionLimit: int)

  function ConsumptionHistory(st: State): (h: HistoryReply)
    ensures |h.history| == Min(HistoryLimit, |st.log|) && NewestFirst(h.history)
    ensures multiset(h.history) <= multiset(st.log)
    ensures forall e, k :: e in multiset(st.log) - multiset(h.history) && 0 <= k < |h.history| ==>
              e.cycleStart <= h.history[k].cycleStart
    ensures h.currentStreak == st.device.currentStreak && h.highestStreak == st.device.highestStreak
    ensures h.currentConsumptionLimit == st.device.consumptionLimit
  {
    HistoryReply(History(st.log), st.device.currentStreak, st.device.highestStreak,
                 st.device.consumptionLimit)
  }
}
