/**
 The functions of drivers/scsi/scsi_transport_srp.c that change a port.  Each performs the steps of SrpPort that
 its name stands for, here with nothing in between: the callback's result is a parameter.
 */
module SrpRport {
  import opened SrpPort

  class SrpRport {
    var state: State
    var blocked: bool
    var owner: Owner
    var reconnectDelay: int
    var fastIoFailTmo: int
    var devLossTmo: int
    var failedReconnects: nat
    var fastIoFailWork: Work
    var devLossWork: Work
    var reconnectWork: Work
    var stop: nat
    var now: int
    var armedAt: int
    var deadline: int

    ghost function Abs(): Port
      reads this
    {
      Port(state, blocked, owner, reconnectDelay, fastIoFailTmo, devLossTmo, failedReconnects,
           fastIoFailWork, devLossWork, reconnectWork, stop, now, armedAt, deadline)
    }

    constructor (delay: int, fast: int, loss: int)
      requires TmoValid(delay, fast, loss)
      ensures Initial(Abs())
    {
      state, blocked, owner, failedReconnects := Running, false, Free, 0;
      reconnectDelay, fastIoFailTmo, devLossTmo := delay, fast, loss;
      fastIoFailWork, devLossWork, reconnectWork := IDLE, IDLE, IDLE;
      stop, now, armedAt, deadline := 0, 0, 0, 0;
    }

    /** srp_rport_set_state */
    method SetState(newState: State) returns (ok: bool)
      modifies `state
      ensures ok <==> MayBecome(old(state), newState)
      ensures state == if ok then newState else old(state)
    {
      match newState {
        case Running => if state == Lost { return false; }
        case Blocked => if state != Running { return false; }
        case FailFast => if state == Lost { return false; }
        case Lost =>
      }
      state := newState;
      return true;
    }

    /** __rport_fail_io_fast */
    method FailIoFast()
      modifies `state, `blocked
      ensures Abs() == SrpPort.FailIoFast(old(Abs()))
    {
      var ok := SetState(FailFast);
      if ok {
        // blocked to wait for commands that are being queued, and unblocked again
        blocked := true;
        blocked := false;
      }
    }

    /** rport_fast_io_fail_timedout */
    method FastIoFailTimedOut()
      requires Enabled(Abs(), FailFastNow)
      modifies `state, `blocked, `fastIoFailWork
      ensures Abs() == Do(old(Abs()), FailFastNow)
    {
      if state == Blocked {
        FailIoFast();
      }
      fastIoFailWork := fastIoFailWork.(run := Asleep);
    }

    /** rport_dev_loss_timedout, up to the callback; the change of state never fails. */
    method DevLossTimedOut() returns (ok: bool)
      requires Enabled(Abs(), LoseDevice)
      modifies `state, `blocked, `devLossWork
      ensures ok && Abs() == Do(old(Abs()), LoseDevice)
    {
      ok := SetState(Lost);
      blocked := false;
      devLossWork := devLossWork.(run := Leaving(false));
    }

    /** __srp_start_tl_fail_timers, and the mutex is released. */
    method StartTlFailTimers()
      modifies `state, `blocked, `owner, `reconnectWork, `fastIoFailWork, `devLossWork, `armedAt, `deadline
      ensures Abs() == FinishTimers(Do(old(Abs()), StartFailTimers)) == Started(old(Abs()))
    {
      StartedIs(Abs());
      owner := Free;
      if state != Lost {
        if reconnectDelay > 0 {
          reconnectWork := Queue(reconnectWork, now + reconnectDelay);
        }
        Arm();
      }
    }

    // the part that blocks the target and starts the failure timers
    method Arm()
      modifies `state, `blocked, `fastIoFailWork, `devLossWork, `armedAt, `deadline
      ensures Abs() == Armed(old(Abs()))
    {
      if fastIoFailTmo >= 0 || devLossTmo >= 0 {
        var ok := SetState(Blocked);
        if ok {
          blocked, armedAt := true, now;
          deadline := now + if fastIoFailTmo >= 0 then fastIoFailTmo else devLossTmo;
          if fastIoFailTmo >= 0 {
            fastIoFailWork := Queue(fastIoFailWork, now + fastIoFailTmo);
          }
          if devLossTmo >= 0 {
            devLossWork := Queue(devLossWork, now + devLossTmo);
          }
        }
      }
    }

    /** srp_reconnect_rport, called by the port's own work or by somebody else. */
    method ReconnectRport(byWork: bool, reconnected: bool) returns (ok: bool)
      requires Enabled(Abs(), EnterReconnect(byWork)) && Inv(Abs())
      modifies this
      ensures ok <==> reconnected && old(state) != Lost
      ensures Abs() == Reconnected(old(Abs()), byWork, reconnected)
      ensures Inv(Abs()) && Abs().owner == Free && (blocked <==> state == Blocked)
    {
      ghost var before := Abs();
      ReconnectKeeps(before, byWork, reconnected);
      ReconnectIs(before, byWork, reconnected);
      ok := Attempt(byWork, reconnected);
    }

    method Attempt(byWork: bool, reconnected: bool) returns (ok: bool)
      requires owner == Free
      modifies this
      ensures ok <==> reconnected && old(state) != Lost
      ensures Abs() == Outcome(old(Abs()), byWork, ok)
    {
      blocked := true;
      if byWork {
        reconnectWork := reconnectWork.(run := Inside);
      }
      ok := reconnected && state != Lost;
      if ok {
        Succeed();
      } else {
        Fail();
      }
      if byWork {
        reconnectWork := reconnectWork.(run := Leaving(!ok));
      }
    }

    // the branch of srp_reconnect_rport after a successful reconnect()
    method Succeed()
      requires state != Lost
      modifies `state, `blocked, `failedReconnects, `fastIoFailWork, `devLossWork
      ensures Abs() == Success(old(Abs()))
    {
      fastIoFailWork := Cancel(fastIoFailWork);
      devLossWork := Cancel(devLossWork);
      failedReconnects := 0;
      var done := SetState(Running);
      blocked := false;
    }

    // the other two
    method Fail()
      modifies `state, `blocked, `owner, `reconnectWork, `fastIoFailWork, `devLossWork, `armedAt, `deadline
      ensures Abs() == Failure(old(Abs()))
    {
      if state == Running {
        FailIoFast();
        blocked := false;
        StartTlFailTimers();
      } else {
        if state != Blocked {
          blocked := false;
        }
        owner := Free;
      }
    }

    /** srp_stop_rport_timers, up to the first cancel_delayed_work_sync. */
    method MarkStopped()
      requires Enabled(Abs(), StopMark)
      modifies `state, `blocked, `stop
      ensures Abs() == Do(old(Abs()), StopMark)
    {
      if state == Blocked {
        FailIoFast();
      }
      var ok := SetState(Lost);
      stop := 1;
    }
  }

  /** The steps of __srp_start_tl_fail_timers, one after the other. */
  function FinishTimers(p: Port): Port {
    if p.owner.LoadedDelay? then
      var q := Do(Do(p, ReadFastTmo), ReadLossTmo);
      if q.owner.Arming? then Do(q, FinishArming) else q
    else p
  }

  /** What they come to. */
  ghost function Started(p: Port): Port {
    if p.state == Lost then p.(owner := Free)
    else Armed(if p.delay > 0 then p.(owner := Free, reconnect := Queue(p.reconnect, p.now + p.delay)) else p.(owner := Free))
  }

  ghost function Armed(p: Port): Port {
    if (p.fastTmo >= 0 || p.lossTmo >= 0) && MayBecome(p.state, Blocked) then
      p.(state := Blocked, blocked := true, armedAt := p.now,
         deadline := p.now + (if p.fastTmo >= 0 then p.fastTmo else p.lossTmo),
         fast := if p.fastTmo >= 0 then Queue(p.fast, p.now + p.fastTmo) else p.fast,
         loss := if p.lossTmo >= 0 then Queue(p.loss, p.now + p.lossTmo) else p.loss)
    else p
  }

  lemma StartedIs(p: Port)
    ensures FinishTimers(Do(p, StartFailTimers)) == Started(p)
  {
  }

  /** The steps of srp_reconnect_rport, one after the other. */
  function Reconnected(p: Port, byWork: bool, reconnected: bool): Port {
    var q := Do(Do(p, EnterReconnect(byWork)), Reconnect(reconnected));
    if reconnected && p.state != Lost then Do(q, FinishSuccess) else FinishTimers(q)
  }

  ghost function Entered(p: Port, byWork: bool): Port {
    p.(blocked := true, reconnect := if byWork then p.reconnect.(run := Inside) else p.reconnect)
  }

  /** What they come to. */
  ghost function Outcome(p: Port, byWork: bool, ok: bool): Port {
    var e := Entered(p, byWork);
    var q := if ok then Success(e) else Failure(e);
    q.(reconnect := Returns(q.reconnect, byWork, !ok))
  }

  ghost function Success(p: Port): Port {
    p.(state := Running, blocked := false, failed := 0, fast := Cancel(p.fast), loss := Cancel(p.loss))
  }

  ghost function Failure(p: Port): Port {
    if p.state == Running then Started(SrpPort.FailIoFast(p))
    else if p.state != Blocked then p.(blocked := false, owner := Free)
    else p.(owner := Free)
  }

  lemma ReconnectIs(p: Port, byWork: bool, reconnected: bool)
    requires p.owner == Free
    ensures Reconnected(p, byWork, reconnected) == Outcome(p, byWork, reconnected && p.state != Lost)
  {
    if !reconnected || p.state == Lost {
      if p.state == Running {
        FailureOfRunning(Entered(p, byWork), byWork);
      } else {
        FailureOfOthers(Entered(p, byWork), byWork);
      }
    }
  }

  lemma FailureOfRunning(e: Port, byWork: bool)
    requires e.state == Running
    ensures FinishTimers(ReconnectFails(e.(owner := Reconnecting(byWork)), byWork)) == Returned(Failure(e), byWork)
  {
  }

  lemma FailureOfOthers(e: Port, byWork: bool)
    requires e.state != Running
    ensures FinishTimers(ReconnectFails(e.(owner := Reconnecting(byWork)), byWork)) == Returned(Failure(e), byWork)
  {
  }

  ghost function Returned(p: Port, byWork: bool): Port {
    p.(reconnect := Returns(p.reconnect, byWork, true))
  }

  /** All of srp_reconnect_rport keeps the invariant. */
  lemma ReconnectKeeps(p: Port, byWork: bool, reconnected: bool)
    requires Inv(p) && Enabled(p, EnterReconnect(byWork))
    ensures var r := Reconnected(p, byWork, reconnected);
      Inv(r) && r.owner == Free && (r.blocked <==> r.state == Blocked)
  {
    var e := Do(p, EnterReconnect(byWork));
    StepKeeps(p, EnterReconnect(byWork));
    StepKeeps(e, Reconnect(reconnected));
    if reconnected && p.state != Lost {
      StepKeeps(Do(e, Reconnect(reconnected)), FinishSuccess);
    } else {
      TimersFinished(Do(e, Reconnect(reconnected)));
    }
  }

  lemma TimersFinished(p: Port)
    requires Inv(p) && (p.owner == Free || p.owner.LoadedDelay?)
    ensures Inv(FinishTimers(p)) && FinishTimers(p).owner == Free
  {
    if p.owner.LoadedDelay? {
      var q := Do(p, ReadFastTmo);
      StepKeeps(p, ReadFastTmo);
      StepKeeps(q, ReadLossTmo);
      var r := Do(q, ReadLossTmo);
      if r.owner.Arming? {
        StepKeeps(r, FinishArming);
      }
    }
  }
}
