/** What the handlers of the device record promise, stated over their value model. */
module DeviceProperties {
  import opened Wrappers
  import opened ConsumptionLog
  import opened DeviceModel

  /** The settings the handlers never touch except through the settings command. */
  predicate SameSettings(a: Status, b: Status) {
    a.consumptionLimit == b.consumptionLimit && a.cycleDuration == b.cycleDuration &&
    a.penaltyNum == b.penaltyNum && a.penaltyDen == b.penaltyDen
  }

  // ---------------------------------------------------------------- rollover

  /** Before the end of the cycle rollover changes nothing; at or after it, the cycle
      is closed and a new one started at `now`. */
  lemma RolloverEffect(st: State, now: int)
    ensures !CycleExpired(st.device, now) ==> CheckAndResetCycle(st, now) == st
    ensures CycleExpired(st.device, now) ==>
      var r := CheckAndResetCycle(st, now).device;
      var d := st.device;
      r.cycleStartTime == now && r.cycleEndTime == now + d.cycleDuration &&
      r.consumptionCount == 0 && r.addedCount == 0 && !r.lockStatus &&
      r.lockoutEndTime == None && r.lockoutRemaining == 0 &&
      r.inventoryCount == d.inventoryCount && r.lidStatus == d.lidStatus &&
      SameSettings(r, d) &&
      CheckAndResetCycle(st, now).resetPending
  {
  }

  /** At rollover the streak is updated with the closed cycle's outcome. */
  lemma RolloverUpdatesStreak(st: State, now: int)
    requires CycleExpired(st.device, now)
    ensures var d := st.device;
            var r := CheckAndResetCycle(st, now).device;
            if d.consumptionCount > d.consumptionLimit then
              r.currentStreak == 0 && r.highestStreak == d.highestStreak
            else
              r.currentStreak == d.currentStreak + 1 &&
              r.highestStreak == Max(d.highestStreak, d.currentStreak + 1)
  {
  }

  /** At rollover the entry keyed by the closed cycle's start holds that cycle's final
      count and outcome; it is the only entry for that key, and no other entry changes. */
  lemma RolloverFinalizesLog(st: State, now: int)
    requires Inv(st) && CycleExpired(st.device, now)
    ensures var d := st.device;
            var log := CheckAndResetCycle(st, now).log;
            KeysUnique(log) &&
            Lookup(log, d.cycleStartTime).Some? &&
            Lookup(log, d.cycleStartTime).value.count == d.consumptionCount &&
            Lookup(log, d.cycleStartTime).value.limitExceeded == (d.consumptionCount > d.consumptionLimit) &&
            (forall k :: 0 <= k < |st.log| && st.log[k].cycleStart != d.cycleStartTime ==> log[k] == st.log[k]) &&
            |log| == if HasKey(st.log, d.cycleStartTime) then |st.log| else |st.log| + 1
  {
  }

  /** With a positive cycle duration, a second rollover at the same time does nothing. */
  lemma RolloverIdempotent(st: State, now: int)
    requires st.device.cycleDuration > 0
    ensures CheckAndResetCycle(CheckAndResetCycle(st, now), now) == CheckAndResetCycle(st, now)
  {
  }

  lemma RolloverKeepsInv(st: State, now: int)
    requires Inv(st)
    ensures Inv(CheckAndResetCycle(st, now))
  {
  }

  // ---------------------------------------------------------------- ingestion

  /** The counters and sensors of the report are copied verbatim; streaks, cycle
      times, settings and the pending-reset flag are untouched. */
  lemma IngestCopiesReport(st: State, now: int, rep: Report)
    requires LockoutConsistent(st.device)
    ensures var r := IngestReport(st, now, rep).0;
            var d := r.device;
            d.addedCount == rep.totalAddCount && d.consumptionCount == rep.totalRemCount &&
            d.inventoryCount == rep.drinkCount && d.lockStatus == rep.lockState &&
            d.lidStatus == rep.lidClosed &&
            d.currentStreak == st.device.currentStreak && d.highestStreak == st.device.highestStreak &&
            d.cycleStartTime == st.device.cycleStartTime && d.cycleEndTime == st.device.cycleEndTime &&
            SameSettings(d, st.device) && r.resetPending == st.resetPending
  {
  }

  /** A running countdown becomes the time left until the recorded end, clearing the
      end once it reaches zero; without a running countdown, both are cleared. */
  lemma DecayEffect(d: Status, now: int)
    requires LockoutConsistent(d)
    ensures var r := DecayLockout(d, now);
            LockoutConsistent(r) &&
            r.lockoutRemaining == DerivedRemaining(r, now) &&
            (d.lockoutRemaining >= 1 ==> r.lockoutRemaining == Max(0, d.lockoutEndTime.value - now)) &&
            (r.lockoutRemaining == 0 <==> r.lockoutEndTime == None) &&
            (d.lockoutRemaining == 0 ==> r.lockoutEndTime == None)
  {
  }

  /** Successive decays at later times never raise the countdown, and it reaches zero,
      with no end left, once the end time has passed. */
  lemma DecayMonotone(d: Status, t1: int, t2: int)
    requires LockoutConsistent(d) && t1 <= t2
    ensures LockoutConsistent(DecayLockout(d, t1))
    ensures DecayLockout(DecayLockout(d, t1), t2).lockoutRemaining <= DecayLockout(d, t1).lockoutRemaining
    ensures d.lockoutEndTime.Some? && d.lockoutEndTime.value <= t1 ==>
              DecayLockout(d, t1).lockoutRemaining == 0 && DecayLockout(d, t1).lockoutEndTime == None
  {
  }

  /** Right after a report, the countdown is exactly what the recorded end gives at
      `now`, and the record stays consistent. */
  lemma IngestDerivesRemaining(st: State, now: int, rep: Report)
    requires LockoutConsistent(st.device)
    ensures var d := IngestReport(st, now, rep).0.device;
            LockoutConsistent(d) && d.lockoutRemaining == DerivedRemaining(d, now)
  {
  }

  /** The ledger changes only when the removed count grew, and then the current cycle's
      entry grows by exactly the increase, keeping one entry per cycle. */
  lemma IngestMergesLog(st: State, now: int, rep: Report)
    requires Inv(st)
    ensures var r := IngestReport(st, now, rep).0;
            var key := st.device.cycleStartTime;
            var delta := rep.totalRemCount - st.device.consumptionCount;
            KeysUnique(r.log) &&
            (delta <= 0 ==> r.log == st.log) &&
            (delta > 0 ==>
               CountOf(r.log, key) == CountOf(st.log, key) + delta &&
               Lookup(r.log, key).value.consumptionLimit == Some(st.device.consumptionLimit) &&
               (HasKey(st.log, key) ==>
                  |r.log| == |st.log| &&
                  Lookup(r.log, key).value.limitExceeded == (CountOf(r.log, key) > st.device.consumptionLimit)) &&
               (!HasKey(st.log, key) ==>
                  r.log == st.log + [LogEntry(key, st.device.cycleEndTime, delta,
                                              rep.totalRemCount > st.device.consumptionLimit,
                                              Some(st.device.consumptionLimit))]))
  {
  }

  /** The lock decision: a closed lid at or over the limit locks, keeping a recorded
      lockout end and otherwise anchoring a new one; else only a running countdown locks. */
  lemma IngestLockPolicy(st: State, now: int, rep: Report)
    requires LockoutConsistent(st.device)
    ensures var (r, action) := IngestReport(st, now, rep);
            var decayed := DecayLockout(st.device.(consumptionCount := rep.totalRemCount), now);
            var d := r.device;
            (rep.lidClosed && rep.totalRemCount >= d.consumptionLimit ==>
               action == Lock &&
               d.lockoutEndTime == Some(
                 if decayed.lockoutEndTime.Some? then decayed.lockoutEndTime.value
                 else if rep.totalRemCount > d.consumptionLimit then PenaltyLockoutEnd(d)
                 else d.cycleEndTime) &&
               d.lockoutRemaining == Max(0, d.lockoutEndTime.value - now)) &&
            (!(rep.lidClosed && rep.totalRemCount >= d.consumptionLimit) ==>
               d.lockoutEndTime == decayed.lockoutEndTime &&
               d.lockoutRemaining == decayed.lockoutRemaining &&
               (action == Lock <==> d.lockoutRemaining >= 1) &&
               (action == Lock || action == Unlock))
  {
  }

  /** A report with the lid open never starts a lockout. */
  lemma LidOpenNeverStartsLockout(st: State, now: int, rep: Report)
    requires LockoutConsistent(st.device) && !rep.lidClosed
    ensures IngestReport(st, now, rep).0.device.lockoutEndTime.Some? ==>
              st.device.lockoutEndTime == IngestReport(st, now, rep).0.device.lockoutEndTime
  {
  }

  /** Answering unlock leaves no lockout recorded. */
  lemma UnlockClearsLockout(st: State, now: int, rep: Report)
    requires LockoutConsistent(st.device)
    requires IngestReport(st, now, rep).1 == Unlock
    ensures IngestReport(st, now, rep).0.device.lockoutEndTime == None
    ensures IngestReport(st, now, rep).0.device.lockoutRemaining == 0
  {
  }

  /** A lockout still in the future is never re-targeted by a later report, however
      far over the limit it is. */
  lemma LockoutEndStable(st: State, now: int, rep: Report)
    requires LockoutConsistent(st.device)
    requires st.device.lockoutRemaining >= 1 && st.device.lockoutEndTime.value > now
    ensures IngestReport(st, now, rep).0.device.lockoutEndTime == st.device.lockoutEndTime
  {
  }

  lemma IngestKeepsInv(st: State, now: int, rep: Report)
    requires Inv(st)
    ensures Inv(IngestReport(st, now, rep).0)
  {
  }

  /** A cycle of 3600 seconds with multiplier 1.5, exceeded by one drink with the lid
      closed, is locked until 5400 seconds after the cycle start; a later report in the
      same cycle, further over the limit, keeps that end. */
  lemma PenaltyExample(st: State, t: int, now1: int, now2: int, rep1: Report, rep2: Report)
    requires LockoutConsistent(st.device)
    requires st.device.cycleDuration == 3600 && st.device.penaltyNum == 3 && st.device.penaltyDen == 2
    requires st.device.cycleStartTime == t && st.device.lockoutEndTime == None
    requires rep1.lidClosed && rep1.totalRemCount == st.device.consumptionLimit + 1
    requires t <= now1 <= now2 < t + 5400
    ensures IngestReport(st, now1, rep1).1 == Lock
    ensures IngestReport(st, now1, rep1).0.device.lockoutEndTime == Some(t + 5400)
    ensures IngestReport(IngestReport(st, now1, rep1).0, now2, rep2).0.device.lockoutEndTime == Some(t + 5400)
  {
  }

  /** Consumption that only reaches the limit, with the lid closed, locks until the
      natural end of the cycle. */
  lemma AtLimitLocksUntilCycleEnd(st: State, now: int, rep: Report)
    requires LockoutConsistent(st.device) && st.device.lockoutRemaining == 0
    requires rep.lidClosed && rep.totalRemCount == st.device.consumptionLimit
    ensures IngestReport(st, now, rep).1 == Lock
    ensures IngestReport(st, now, rep).0.device.lockoutEndTime == Some(st.device.cycleEndTime)
  {
  }

  /** Two reports in one cycle consuming one drink and then two more leave one entry
      for the cycle, counting three. */
  lemma MergeExample(st: State, now1: int, now2: int, rep1: Report, rep2: Report)
    requires Inv(st) && !HasKey(st.log, st.device.cycleStartTime)
    requires rep1.totalRemCount == st.device.consumptionCount + 1
    requires rep2.totalRemCount == rep1.totalRemCount + 2
    ensures var st2 := IngestReport(IngestReport(st, now1, rep1).0, now2, rep2).0;
            |st2.log| == |st.log| + 1 &&
            CountOf(st2.log, st.device.cycleStartTime) == 3 &&
            Lookup(st2.log, st.device.cycleStartTime).value.limitExceeded == (3 > st.device.consumptionLimit)
  {

  }

  // ---------------------------------------------------------------- dashboard commands

  /** A wrong phrase changes nothing; the right one sets the limit and the duration and
      the cycle end from the current start, and nothing else. */
  lemma SettingsGate(st: State, phrase: string, limit: int, duration: int)
    ensures var (r, reply) := UpdateSettings(st, phrase, limit, duration);
            (phrase != ConfirmationPhrase ==> r == st && reply == Failure(PhraseError)) &&
            (phrase == ConfirmationPhrase ==>
               reply == Success &&
               r.device == st.device.(consumptionLimit := limit, cycleDuration := duration,
                                      cycleEndTime := st.device.cycleStartTime + duration) &&
               r.log == st.log && r.resetPending == st.resetPending)
  {
  }

  /** A wrong phrase changes nothing; the right one zeroes the consumption count, clears
      lock and lockout, moves the cycle start to `now` and raises the pending-reset flag.
      Streaks, added count, cycle end, settings and the ledger are untouched. */
  lemma ResetGate(st: State, phrase: string, now: int)
    ensures var (r, reply) := ResetDevice(st, phrase, now);
            (phrase != ConfirmationPhrase ==> r == st && reply == Failure(PhraseError)) &&
            (phrase == ConfirmationPhrase ==>
               var d := r.device;
               reply == Success && r.resetPending &&
               d.consumptionCount == 0 && !d.lockStatus &&
               d.lockoutRemaining == 0 && d.lockoutEndTime == None && d.cycleStartTime == now &&
               d.currentStreak == st.device.currentStreak && d.highestStreak == st.device.highestStreak &&
               d.addedCount == st.device.addedCount && d.cycleEndTime == st.device.cycleEndTime &&
               d.inventoryCount == st.device.inventoryCount && d.lidStatus == st.device.lidStatus &&
               SameSettings(d, st.device) && r.log == st.log)
  {
  }

  lemma CommandsKeepInv(st: State, phrase: string, limit: int, duration: int, now: int)
    requires Inv(st)
    ensures Inv(UpdateSettings(st, phrase, limit, duration).0)
    ensures Inv(ResetDevice(st, phrase, now).0)
  {
  }

  // ---------------------------------------------------------------- dispatch

  /** A message is answered with reset exactly when a reset was pending or the cycle
      just rolled over; the report is then not ingested. After any message no reset is
      pending any more. */
  lemma DispatchDeliversResetOnce(st: State, now: int, msg: Message)
    requires LockoutConsistent(st.device)
    ensures var (r, action) := Dispatch(st, now, msg);
            !r.resetPending &&
            (action == Reset <==> st.resetPending || CycleExpired(st.device, now)) &&
            (action == Reset ==> r == CheckAndResetCycle(st, now).(resetPending := false))
  {

  }

  /** Without a pending reset and before the cycle end, a report is ingested and
      answered lock or unlock, and any other message is answered none with no change. */
  lemma DispatchNormal(st: State, now: int, msg: Message)
    requires LockoutConsistent(st.device)
    requires !st.resetPending && !CycleExpired(st.device, now)
    ensures msg.StatusReport? ==> Dispatch(st, now, msg) == IngestReport(st, now, msg.report)
    ensures msg.StatusReport? ==> Dispatch(st, now, msg).1 in {Lock, Unlock}
    ensures msg.OtherMessage? ==> Dispatch(st, now, msg) == (st, NoAction)
  {

  }

  lemma DispatchKeepsInv(st: State, now: int, msg: Message)
    requires Inv(st)
    ensures Inv(Dispatch(st, now, msg).0)
  {

  }

  /** A reset command followed by two reports before the cycle end: the first is
      answered reset, the second lock or unlock. */
  lemma ResetThenReports(st: State, phrase: string, t0: int, t1: int, t2: int, rep1: Report, rep2: Report)
    requires Inv(st) && phrase == ConfirmationPhrase
    requires t1 <= t2 < st.device.cycleEndTime
    ensures var s0 := ResetDevice(st, phrase, t0).0;
            var (s1, a1) := Dispatch(s0, t1, StatusReport(rep1));
            a1 == Reset && Dispatch(s1, t2, StatusReport(rep2)).1 in {Lock, Unlock}
  {

  }

  // ---------------------------------------------------------------- history

  /** The history answer holds at most 30 entries, newest first, all from the ledger,
      none older than an entry it leaves out, with the record's streaks and limit. */
  lemma HistoryAnswer(st: State)
    ensures var h := ConsumptionHistory(st);
            |h.history| == Min(HistoryLimit, |st.log|) && NewestFirst(h.history) &&
            multiset(h.history) <= multiset(st.log) &&
            (forall e, k :: e in multiset(st.log) - multiset(h.history) && 0 <= k < |h.history| ==>
               e.cycleStart <= h.history[k].cycleStart) &&
            h.currentStreak == st.device.currentStreak && h.highestStreak == st.device.highestStreak &&
            h.currentConsumptionLimit == st.device.consumptionLimit
  {
  }
}
