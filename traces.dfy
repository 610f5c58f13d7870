/**
 * Runs of the server: hardware messages and dashboard commands in the order the
 * server handles them. The invariant holds in every reachable state, and the
 * pending-reset signal is consumed exactly once: the next hardware message after an
 * accepted reset command is answered reset, and a message is answered reset only
 * when a reset is owed to it or its own rollover raises one.
 */
module Traces {
  import opened Wrappers
  import opened DeviceModel
  import DeviceProperties

  datatype Event =
    | HardwareMessage(now: int, msg: Message)
    | SettingsCommand(phrase: string, limit: int, duration: int)
    | ResetCommand(phrase: string, at: int)

  /** Handles one event; hardware messages get an answer, commands do not. */
  function Apply(st: State, e: Event): (r: (State, Option<Action>))
    requires Inv(st)
    ensures Inv(r.0)
    ensures r.1.Some? <==> e.HardwareMessage?
  {
    match e
    case HardwareMessage(now, msg) =>
      DeviceProperties.DispatchKeepsInv(st, now, msg);
      (Dispatch(st, now, msg).0, Some(Dispatch(st, now, msg).1))
    case SettingsCommand(phrase, limit, duration) =>
      DeviceProperties.CommandsKeepInv(st, phrase, limit, duration, 0);
      (UpdateSettings(st, phrase, limit, duration).0, None)
    case ResetCommand(phrase, at) =>
      DeviceProperties.CommandsKeepInv(st, phrase, 0, 0, at);
      (ResetDevice(st, phrase, at).0, None)
  }

  /** The state after the events, and the answer to each of them. */
  function Run(st: State, es: seq<Event>): (r: (State, seq<Option<Action>>))
    requires Inv(st)
    ensures Inv(r.0) && |r.1| == |es|
  {
    if es == [] then (st, [])
    else
      var before := Run(st, es[..|es| - 1]);
      var after := Apply(before.0, es[|es| - 1]);
      (after.0, before.1 + [after.1])
  }

  predicate AcceptedReset(e: Event) {
    e.ResetCommand? && e.phrase == ConfirmationPhrase
  }

  /** A reset is owed after these events: an accepted reset command comes after the
      last hardware message, or one was already owed and no hardware message came. */
  ghost predicate ResetOwed(pendingBefore: bool, es: seq<Event>) {
    (pendingBefore && forall j :: 0 <= j < |es| ==> !es[j].HardwareMessage?) ||
    exists i :: 0 <= i < |es| && AcceptedReset(es[i]) &&
                forall j :: i < j < |es| ==> !es[j].HardwareMessage?
  }

  /** The answers to a prefix of the events do not depend on what comes after. */
  lemma {:induction false} RunPrefix(st: State, es: seq<Event>, k: nat)
    requires Inv(st) && k <= |es|
    ensures Run(st, es).1[..k] == Run(st, es[..k]).1
    ensures k < |es| ==> Run(st, es).1[k] == Apply(Run(st, es[..k]).0, es[k]).1
    decreases |es|
  {
    if k < |es| {
      var p := es[..|es| - 1];
      if k < |p| {
        RunPrefix(st, p, k);
        assert p[..k] == es[..k];
        assert Run(st, es).1[..|p|] == Run(st, p).1;
      } else {
        assert p == es[..k];
      }
    } else {
      assert es[..k] == es;
    }
  }

  /** A hardware message settles what was owed. */
  lemma OwedAfterMessage(pendingBefore: bool, p: seq<Event>, e: Event)
    requires e.HardwareMessage?
    ensures !ResetOwed(pendingBefore, p + [e])
  {
    assert (p + [e])[|p|] == e;
  }

  /** An accepted reset command leaves a reset owed. */
  lemma OwedAfterReset(pendingBefore: bool, p: seq<Event>, e: Event)
    requires AcceptedReset(e)
    ensures ResetOwed(pendingBefore, p + [e])
  {
    assert (p + [e])[|p|] == e;
  }

  /** Any other event leaves what is owed as it was. */
  lemma OwedUnchanged(pendingBefore: bool, p: seq<Event>, e: Event)
    requires !e.HardwareMessage? && !AcceptedReset(e)
    ensures ResetOwed(pendingBefore, p + [e]) <==> ResetOwed(pendingBefore, p)
  {
    var es := p + [e];
    var n := |es|;
    assert forall j :: 0 <= j < n - 1 ==> es[j] == p[j];
    assert es[n - 1] == e;
    if ResetOwed(pendingBefore, es) && !(pendingBefore && forall j :: 0 <= j < n ==> !es[j].HardwareMessage?) {
      var i :| 0 <= i < n && AcceptedReset(es[i]) && forall j :: i < j < n ==> !es[j].HardwareMessage?;
      assert i < n - 1;
      assert AcceptedReset(p[i]) && forall j :: i < j < n - 1 ==> !p[j].HardwareMessage?;
    }
    if ResetOwed(pendingBefore, p) && !(pendingBefore && forall j :: 0 <= j < n - 1 ==> !p[j].HardwareMessage?) {
      var i :| 0 <= i < n - 1 && AcceptedReset(p[i]) && forall j :: i < j < n - 1 ==> !p[j].HardwareMessage?;
      assert AcceptedReset(es[i]) && forall j :: i < j < n ==> !es[j].HardwareMessage?;
    }
  }

  /** The pending-reset flag after a run is set exactly when a reset is owed. */
  lemma {:induction false} PendingIffOwed(st: State, es: seq<Event>)
    requires Inv(st)
    ensures Run(st, es).0.resetPending <==> ResetOwed(st.resetPending, es)
  {
    if es != [] {
      var p := es[..|es| - 1];
      var e := es[|es| - 1];
      assert es == p + [e];
      PendingIffOwed(st, p);
      var s := Run(st, p).0;
      if e.HardwareMessage? {
        DeviceProperties.DispatchDeliversResetOnce(s, e.now, e.msg);
        OwedAfterMessage(st.resetPending, p, e);
      } else if AcceptedReset(e) {
        OwedAfterReset(st.resetPending, p, e);
      } else {
        OwedUnchanged(st.resetPending, p, e);
      }
    }
  }

  /** Each hardware message is answered reset exactly when a reset is owed to it or
      its own rollover closes the cycle; commands get no answer. */
  lemma ResetAnswers(st: State, es: seq<Event>, k: nat)
    requires Inv(st) && k < |es|
    ensures Run(st, es).1[k].Some? <==> es[k].HardwareMessage?
    ensures es[k].HardwareMessage? ==>
              (Run(st, es).1[k] == Some(Reset) <==>
                 ResetOwed(st.resetPending, es[..k]) ||
                 CycleExpired(Run(st, es[..k]).0.device, es[k].now))
  {
    RunPrefix(st, es, k);
    PendingIffOwed(st, es[..k]);
    if es[k].HardwareMessage? {
      DeviceProperties.DispatchDeliversResetOnce(Run(st, es[..k]).0, es[k].now, es[k].msg);
    }
  }

  /** Never lost: the first hardware message after an accepted reset command is
      answered reset. */
  lemma ResetDeliveredToNextMessage(st: State, es: seq<Event>, i: nat, k: nat)
    requires Inv(st) && i < k < |es|
    requires AcceptedReset(es[i]) && es[k].HardwareMessage?
    requires forall j :: i < j < k ==> !es[j].HardwareMessage?
    ensures Run(st, es).1[k] == Some(Reset)
  {
    ResetAnswers(st, es, k);
    assert es[..k][i] == es[i];
    assert forall j :: i < j < k ==> es[..k][j] == es[j];
  }

  /** Never twice: between two hardware messages with no accepted reset command in
      between, the second is answered reset only if its own rollover closes the cycle. */
  lemma ResetNotRepeated(st: State, es: seq<Event>, k1: nat, k2: nat)
    requires Inv(st) && k1 < k2 < |es|
    requires es[k1].HardwareMessage? && es[k2].HardwareMessage?
    requires forall j :: k1 < j < k2 ==> !es[j].HardwareMessage? && !AcceptedReset(es[j])
    ensures Run(st, es).1[k2] == Some(Reset) ==> CycleExpired(Run(st, es[..k2]).0.device, es[k2].now)
  {
    ResetAnswers(st, es, k2);
    assert es[..k2][k1].HardwareMessage?;
  }
}
