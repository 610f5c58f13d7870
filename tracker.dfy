/**
 * The server as it runs: the device record is an object whose fields the handlers
 * assign one by one, the ledger a sequence the handlers update, and the pending-reset
 * flag a field beside them. Each handler is proved to do what its function in
 * DeviceModel describes, so the lemmas of DeviceProperties apply to it.
 */
module Tracker {
  import opened Wrappers
  import opened ConsumptionLog
  import DeviceModel
  import DeviceProperties

  /** The device record. */
  class DeviceStatus {
    var addedCount: int
    var consumptionCount: int
    var inventoryCount: int
    var lockStatus: bool
    var lidStatus: bool
    var lockoutRemaining: nat
    var consumptionLimit: int
    var lockoutEndTime: Option<int>
    var cycleStartTime: int
    var cycleEndTime: int
    var cycleDuration: int
    var penaltyNum: int
    var penaltyDen: DeviceModel.Positive
    var currentStreak: nat
    var highestStreak: nat

    /** The record's fields as a value. */
    function Model(): DeviceModel.Status
      reads this
    {
      DeviceModel.Status(addedCount, consumptionCount, inventoryCount, lockStatus, lidStatus,
                         lockoutRemaining, consumptionLimit, lockoutEndTime, cycleStartTime,
                         cycleEndTime, cycleDuration, penaltyNum, penaltyDen, currentStreak,
                         highestStreak)
    }

    /** A fresh record with the column defaults and a cycle starting at `now`. */
    constructor (now: int)
      ensures Model() == DeviceModel.NewStatus(now)
    {
      addedCount, consumptionCount, inventoryCount := 0, 0, 0;
      lockStatus, lidStatus := false, false;
      lockoutRemaining := 0;
      consumptionLimit := DeviceModel.DefaultConsumptionLimit;
      cycleDuration := DeviceModel.DefaultCycleDuration;
      penaltyNum, penaltyDen := DeviceModel.DefaultPenaltyNum, DeviceModel.DefaultPenaltyDen;
      currentStreak, highestStreak := 0, 0;
      cycleStartTime := now;
      lockoutEndTime := None;
      new;
      cycleEndTime := cycleStartTime + cycleDuration;
    }

    /** Records the outcome of a closed cycle in the streak counters. */
    method UpdateStreak(exceeded: bool)
      modifies this
      ensures Model() == DeviceModel.UpdateStreak(old(Model()), exceeded)
    {
      if exceeded {
        currentStreak := 0;
      } else {
        currentStreak := currentStreak + 1;
        if currentStreak > highestStreak {
          highestStreak := currentStreak;
        }
      }
    }

    /** Starts the next cycle at `now`, clearing counters, lock and lockout. */
    method StartNewCycle(now: int)
      modifies this
      ensures Model() == DeviceModel.StartNewCycle(old(Model()), now)
    {
      cycleStartTime := now;
      cycleEndTime := cycleStartTime + cycleDuration;
      consumptionCount := 0;
      addedCount := 0;
      lockStatus := false;
      lockoutEndTime := None;
      lockoutRemaining := 0;
    }

    /** Takes the hardware's counters and sensors. */
    method CopyReport(rep: DeviceModel.Report)
      modifies this
      ensures Model() == DeviceModel.CopyReport(old(Model()), rep)
    {
      addedCount := rep.totalAddCount;
      consumptionCount := rep.totalRemCount;
      inventoryCount := rep.drinkCount;
      lockStatus := rep.lockState;
      lidStatus := rep.lidClosed;
    }

    /** Counts the lockout down to `now`. */
    method DecayLockout(now: int)
      requires DeviceModel.LockoutConsistent(Model())
      modifies this
      ensures Model() == DeviceModel.DecayLockout(old(Model()), now)
    {
      if lockoutRemaining >= 1 {
        lockoutRemaining := Max(0, lockoutEndTime.value - now);
        if lockoutRemaining == 0 {
          lockoutEndTime := None;
        }
      } else {
        lockoutRemaining := 0;
        lockoutEndTime := None;
      }
    }

    /** Decides lock or unlock, starting a lockout when the limit is reached with the
        lid closed and none is recorded. */
    method ApplyLockPolicy(now: int) returns (action: DeviceModel.Action)
      modifies this
      ensures (Model(), action) == DeviceModel.LockPolicy(old(Model()), now)
    {
      if lidStatus && consumptionCount >= consumptionLimit {
        var penalty := Max(0, consumptionCount - consumptionLimit);
        if lockoutEndTime.None? {
          if penalty >= 1 {
            lockoutEndTime := Some(cycleStartTime + (cycleDuration * penaltyNum) / penaltyDen);
          } else {
            lockoutEndTime := Some(cycleEndTime);
          }
        }
        lockoutRemaining := Max(0, lockoutEndTime.value - now);
        return DeviceModel.Lock;
      }
      if lockoutRemaining >= 1 {
        return DeviceModel.Lock;
      }
      return DeviceModel.Unlock;
    }

    method ApplySettings(limit: int, duration: int)
      modifies this
      ensures Model() == DeviceModel.ApplySettings(old(Model()), limit, duration)
    {
      consumptionLimit := limit;
      cycleDuration := duration;
      cycleEndTime := cycleStartTime + cycleDuration;
    }

    method ClearForReset(now: int)
      modifies this
      ensures Model() == DeviceModel.ClearForReset(old(Model()), now)
    {
      consumptionCount := 0;
      lockStatus := false;
      lockoutRemaining := 0;
      lockoutEndTime := None;
      cycleStartTime := now;
    }
  }

  /** The record, the ledger and the pending-reset flag. */
  class DrinkTracker {
    var status: DeviceStatus
    var log: Log
    var resetPending: bool

    function Model(): DeviceModel.State
      reads this, status
    {
      DeviceModel.State(status.Model(), log, resetPending)
    }

    ghost predicate Valid()
      reads this, status
    {
      DeviceModel.Inv(Model())
    }

    /** The record is created with the tracker, with an empty ledger and no reset pending. */
    constructor (now: int)
      ensures Valid() && fresh(status)
      ensures Model() == DeviceModel.NewState(now)
    {
      status := new DeviceStatus(now);
      log := [];
      resetPending := false;
    }

    /** Closes the cycle when it has ended at `now` and starts the next one. */
    method CheckAndResetCycle(now: int)
      requires Valid()
      modifies this, status
      ensures status == old(status) && Valid()
      ensures Model() == DeviceModel.CheckAndResetCycle(old(Model()), now)
    {
      DeviceProperties.RolloverKeepsInv(Model(), now);
      if status.cycleEndTime <= now {
        var exceeded := status.consumptionCount > status.consumptionLimit;
        status.UpdateStreak(exceeded);
        match FindEntry(log, status.cycleStartTime) {
          case Some(i) =>
            log := log[i := log[i].(count := status.consumptionCount, limitExceeded := exceeded)];
          case None =>
            log := log + [LogEntry(status.cycleStartTime, status.cycleEndTime,
                                   status.consumptionCount, exceeded, None)];
        }
        status.StartNewCycle(now);
        resetPending := true;
      }
    }

    /** Adds a consumption increase to the current cycle's ledger entry, creating it
        when missing. */
    method MergeIncrease(difference: int)
      modifies this
      ensures status == old(status) && resetPending == old(resetPending)
      ensures log == MergeConsumption(old(log), status.cycleStartTime, status.cycleEndTime,
                                      difference, status.consumptionCount, status.consumptionLimit)
    {
      match FindEntry(log, status.cycleStartTime) {
        case Some(i) =>
          var c := log[i].count + difference;
          log := log[i := log[i].(count := c,
                                  limitExceeded := c > status.consumptionLimit,
                                  consumptionLimit := Some(status.consumptionLimit))];
        case None =>
          log := log + [LogEntry(status.cycleStartTime, status.cycleEndTime, difference,
                                 status.consumptionCount > status.consumptionLimit,
                                 Some(status.consumptionLimit))];
      }
    }

    /** Ingests a hardware report and answers lock or unlock. */
    method HandleStatusUpdate(now: int, rep: DeviceModel.Report) returns (action: DeviceModel.Action)
      requires Valid()
      modifies status, this
      ensures status == old(status) && Valid()
      ensures (Model(), action) == DeviceModel.IngestReport(old(Model()), now, rep)
    {
      ghost var st0 := Model();
      ghost var expected := DeviceModel.IngestReport(st0, now, rep);
      var prev := status.consumptionCount;
      status.CopyReport(rep);
      status.DecayLockout(now);
      ghost var d2 := status.Model();
      assert d2 == DeviceModel.DecayLockout(DeviceModel.CopyReport(st0.device, rep), now);
      if status.consumptionCount > prev {
        MergeIncrease(status.consumptionCount - prev);
      }
      ghost var log1 := log;
      assert log1 == expected.0.log;
      action := status.ApplyLockPolicy(now);
      assert status.Model() == expected.0.device && action == expected.1;
      assert Model() == expected.0;
    }

    /** The dashboard's settings command. */
    method UpdateSettings(phrase: string, limit: int, duration: int) returns (reply: DeviceModel.Reply)
      requires Valid()
      modifies status
      ensures Valid()
      ensures (Model(), reply) == DeviceModel.UpdateSettings(old(Model()), phrase, limit, duration)
    {
      DeviceProperties.CommandsKeepInv(Model(), phrase, limit, duration, 0);
      if phrase == DeviceModel.ConfirmationPhrase {
        status.ApplySettings(limit, duration);
        return DeviceModel.Success;
      }
      return DeviceModel.Failure(DeviceModel.PhraseError);
    }

    /** The dashboard's reset command. */
    method ResetDevice(phrase: string, now: int) returns (reply: DeviceModel.Reply)
      requires Valid()
      modifies this, status
      ensures status == old(status) && Valid()
      ensures (Model(), reply) == DeviceModel.ResetDevice(old(Model()), phrase, now)
    {
      DeviceProperties.CommandsKeepInv(Model(), phrase, 0, 0, now);
      if phrase == DeviceModel.ConfirmationPhrase {
        resetPending := true;
        status.ClearForReset(now);
        return DeviceModel.Success;
      }
      return DeviceModel.Failure(DeviceModel.PhraseError);
    }

    /** Handles one hardware message and gives the answer to send back. */
    method Step(now: int, msg: DeviceModel.Message) returns (action: DeviceModel.Action)
      requires Valid()
      modifies this, status
      ensures status == old(status) && Valid()
      ensures (Model(), action) == DeviceModel.Dispatch(old(Model()), now, msg)
    {
      action := DeviceModel.NoAction;
      CheckAndResetCycle(now);
      if resetPending {
        action := DeviceModel.Reset;
        resetPending := false;
      } else if msg.StatusReport? {
        action := HandleStatusUpdate(now, msg.report);
      }
    }
  }
}
