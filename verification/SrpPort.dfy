/**
 Recovery of an SRP target port (drivers/scsi/scsi_transport_srp.c), as a system of steps: the two failure timers
 and the reconnect work expire whenever they like, and what a function does under the port's mutex is cut into
 steps wherever a timer matters to it.
 */
module SrpPort {
  // enum srp_rport_state
  datatype State = Running | Blocked | FailFast | Lost

  const BLOCK_MAX: int := 600 // SCSI_DEVICE_BLOCK_MAX_TIMEOUT, in seconds
  const LONG_MAX: int := 0x7FFF_FFFF_FFFF_FFFF
  const HZ: int := 1000 // ticks a second

  // a delayed work: queued with a time or not, ...
  datatype Queued = NotQueued | Due(at: int)
  // ... and what its handler does: it waits for the mutex, has it, or has released it
  datatype Handler = Asleep | Waiting | Inside | Leaving(failed: bool)
  datatype Work = Work(queued: Queued, run: Handler, cancelling: bool)

  // who holds the mutex, between two of its steps
  datatype Owner =
    | Free
    | Reconnecting(byWork: bool) // the target is blocked, i->f->reconnect() is running
    | Succeeding(byWork: bool) // reconnected, the fast fail timer is cancelled
    // the timeouts are read one after the other, and attributes may be written in between
    | LoadedDelay(delay: int, caller: Caller)
    | LoadedFast(delay: int, fast: int, caller: Caller)
    | Arming(fast: int, loss: int, caller: Caller) // the target is blocked, the device loss timer not yet started

  // who called __srp_start_tl_fail_timers: srp_start_tl_fail_timers, or a failed attempt to reconnect
  datatype Caller = Nobody | Attempt(byWork: bool)

  datatype Port = Port(
    state: State,
    blocked: bool, // the SCSI target is blocked
    owner: Owner,
    delay: int, // reconnect_delay
    fastTmo: int, // fast_io_fail_tmo
    lossTmo: int, // dev_loss_tmo
    failed: nat, // failed_reconnects
    fast: Work,
    loss: Work,
    reconnect: Work,
    stop: nat, // how far srp_stop_rport_timers has come
    now: int, // seconds
    armedAt: int, // when the timer was started that ends the blocked state
    deadline: int) // and when it expires

  // the last stage of srp_stop_rport_timers
  const STOPPED: nat := 7

  // ---- functions of the source ----

  /** srp_tmo_valid */
  predicate TmoValid(delay: int, fast: int, loss: int) {
    && !(delay < 0 && fast < 0 && loss < 0)
    && delay != 0
    && !(fast > BLOCK_MAX)
    && !(fast < 0 && loss > BLOCK_MAX)
    && !(loss >= LONG_MAX / HZ)
    && !(fast >= 0 && loss >= 0 && fast >= loss)
    && !(fast > 0 && delay > 0 && fast >= delay)
    && !(fast < 0 && delay > 0)
  }

  predicate ParamsValid(p: Port) {
    TmoValid(p.delay, p.fastTmo, p.lossTmo)
  }

  /** srp_rport_set_state: whether the change is allowed. */
  predicate MayBecome(from: State, to: State) {
    match to
    case Running => from != Lost
    case Blocked => from == Running
    case FailFast => from != Lost
    case Lost => true
  }

  /** queue_delayed_work leaves a work alone that is queued, or being cancelled. */
  function Queue(w: Work, at: int): Work {
    if w.queued.Due? || w.cancelling then w else w.(queued := Due(at))
  }

  /** cancel_delayed_work takes a work from the queue; a handler that has started goes on. */
  function Cancel(w: Work): Work {
    w.(queued := NotQueued)
  }

  /** __rport_fail_io_fast */
  function FailIoFast(p: Port): Port {
    if MayBecome(p.state, FailFast) then p.(state := FailFast, blocked := false) else p
  }

  /** The mutex is released; the work that called srp_reconnect_rport goes on. */
  function Release(p: Port, caller: Caller): Port {
    p.(owner := Free, reconnect := if caller.Attempt? then Returns(p.reconnect, caller.byWork, true) else p.reconnect)
  }

  /** What srp_reconnect_rport leaves behind when it returns. */
  function Returns(w: Work, byWork: bool, failed: bool): Work {
    if byWork then w.(run := Leaving(failed)) else w
  }

  /** __srp_start_tl_fail_timers once it has read the timeouts, up to the fast fail timer. */
  function StartTimers(p: Port, delay: int, fast: int, loss: int, caller: Caller): Port {
    if p.state == Lost then Release(p, caller)
    else
      var q := if delay > 0 then p.(reconnect := Queue(p.reconnect, p.now + delay)) else p;
      if (fast >= 0 || loss >= 0) && MayBecome(p.state, Blocked) then
        q.(state := Blocked, blocked := true, owner := Arming(fast, loss, caller), armedAt := p.now, deadline := p.now + fast,
           fast := if fast >= 0 then Queue(p.fast, p.now + fast) else p.fast)
      else
        Release(q, caller)
  }

  /** ... and the device loss timer. */
  function StartLossTimer(p: Port, fast: int, loss: int, caller: Caller): Port {
    var q := if loss >= 0 then p.(loss := Queue(p.loss, p.now + loss)) else p;
    Release(if fast >= 0 then q else q.(armedAt := p.now, deadline := p.now + loss), caller)
  }

  /** int arithmetic that wraps. */
  function WrapInt(x: int): int {
    (x + 0x8000_0000) % 0x1_0000_0000 - 0x8000_0000
  }

  /** The delay of srp_reconnect_work before the next attempt. */
  function NextDelay(delay: int, failed: nat): int {
    var factor := if failed - 10 > 1 then failed - 10 else 1;
    WrapInt(delay * if factor < 100 then factor else 100)
  }

  // ---- steps ----

  datatype Step =
    | Tick(seconds: nat)
    | StoreDelay(value: int)
    | StoreFastTmo(value: int)
    | StoreLossTmo(value: int)
    | ExpireFast
    | ExpireLoss
    | ExpireReconnect
    | FailFastNow // rport_fast_io_fail_timedout under the mutex
    | LoseDevice // rport_dev_loss_timedout under the mutex
    | LossDone // and after i->f->rport_delete()
    | StartFailTimers // srp_start_tl_fail_timers
    | ReadFastTmo
    | ReadLossTmo // and all up to the fast fail timer
    | FinishArming
    | EnterReconnect(byWork: bool) // srp_reconnect_rport
    | Interrupted // its mutex_lock_interruptible() fails
    | Reconnect(ok: bool) // i->f->reconnect() returns
    | FinishSuccess
    | WorkDone // the rest of srp_reconnect_work
    | StopMark // srp_stop_rport_timers under the mutex
    | StopCancel // the beginning of a cancel_delayed_work_sync()
    | StopWait // and its end

  predicate CanExpire(w: Work, now: int) {
    w.queued.Due? && w.queued.at <= now && w.run == Asleep
  }

  predicate Enabled(p: Port, s: Step) {
    match s
    case Tick(_) => true
    // the attributes are removed before the timers are stopped
    case StoreDelay(v) => p.stop == 0 && TmoValid(v, p.fastTmo, p.lossTmo)
    case StoreFastTmo(v) => p.stop == 0 && TmoValid(p.delay, v, p.lossTmo)
    case StoreLossTmo(v) => p.stop == 0 && TmoValid(p.delay, p.fastTmo, v)
    case ExpireFast => CanExpire(p.fast, p.now)
    case ExpireLoss => CanExpire(p.loss, p.now)
    case ExpireReconnect => CanExpire(p.reconnect, p.now)
    case FailFastNow => p.owner == Free && p.fast.run == Waiting
    case LoseDevice => p.owner == Free && p.loss.run == Waiting
    case LossDone => p.loss.run.Leaving?
    case StartFailTimers => p.owner == Free
    case ReadFastTmo => p.owner.LoadedDelay?
    case ReadLossTmo => p.owner.LoadedFast?
    case FinishArming => p.owner.Arming?
    case EnterReconnect(byWork) => p.owner == Free && (byWork ==> p.reconnect.run == Waiting)
    case Interrupted => p.reconnect.run == Waiting
    case Reconnect(_) => p.owner.Reconnecting?
    case FinishSuccess => p.owner.Succeeding?
    case WorkDone => p.reconnect.run.Leaving?
    case StopMark => p.owner == Free && p.stop == 0
    case StopCancel => p.stop == 1 || p.stop == 3 || p.stop == 5
    case StopWait => (p.stop == 2 && p.reconnect.run == Asleep) || (p.stop == 4 && p.fast.run == Asleep)
                     || (p.stop == 6 && p.loss.run == Asleep)
  }

  function Expire(w: Work): Work {
    w.(queued := NotQueued, run := Waiting)
  }

  function ReconnectFails(p: Port, byWork: bool): Port {
    if p.state == Running then FailIoFast(p).(blocked := false, owner := LoadedDelay(p.delay, Attempt(byWork)))
    else Release(if p.state != Blocked then p.(blocked := false) else p, Attempt(byWork))
  }

  function Do(p: Port, s: Step): Port {
    match s
    case Tick(d) => p.(now := p.now + d)
    case StoreDelay(v) =>
      if p.delay <= 0 && v > 0 && p.state != Running then
        p.(delay := v, reconnect := Queue(p.reconnect, p.now + v))
      else if v <= 0 then p.(delay := v, reconnect := Cancel(p.reconnect))
      else p.(delay := v)
    case StoreFastTmo(v) => p.(fastTmo := v)
    case StoreLossTmo(v) => p.(lossTmo := v)
    case ExpireFast => p.(fast := Expire(p.fast))
    case ExpireLoss => p.(loss := Expire(p.loss))
    case ExpireReconnect => p.(reconnect := Expire(p.reconnect))
    case FailFastNow => (if p.state == Blocked then FailIoFast(p) else p).(fast := p.fast.(run := Asleep))
    case LoseDevice => p.(state := Lost, blocked := false, loss := p.loss.(run := Leaving(false)))
    case LossDone => p.(loss := p.loss.(run := Asleep))
    case StartFailTimers => p.(owner := LoadedDelay(p.delay, Nobody))
    case ReadFastTmo =>
      (match p.owner
       case LoadedDelay(delay, caller) => p.(owner := LoadedFast(delay, p.fastTmo, caller))
       case _ => p)
    case ReadLossTmo =>
      (match p.owner
       case LoadedFast(delay, fast, caller) => StartTimers(p, delay, fast, p.lossTmo, caller)
       case _ => p)
    case FinishArming =>
      (match p.owner
       case Arming(fast, loss, caller) => StartLossTimer(p, fast, loss, caller)
       case _ => p)
    case EnterReconnect(byWork) =>
      p.(blocked := true, owner := Reconnecting(byWork),
         reconnect := if byWork then p.reconnect.(run := Inside) else p.reconnect)
    case Interrupted => p.(reconnect := p.reconnect.(run := Leaving(true)))
    case Reconnect(ok) =>
      var byWork := p.owner.Reconnecting? && p.owner.byWork;
      if ok && p.state != Lost then p.(fast := Cancel(p.fast), owner := Succeeding(byWork))
      else ReconnectFails(p, byWork)
    case FinishSuccess =>
      p.(state := if MayBecome(p.state, Running) then Running else p.state, blocked := false, failed := 0,
         loss := Cancel(p.loss), owner := Free,
         reconnect := Returns(p.reconnect, p.owner.Succeeding? && p.owner.byWork, false))
    case WorkDone =>
      if p.reconnect.run == Leaving(true) then
        var d := NextDelay(p.delay, p.failed + 1);
        var w := if d > 0 then Queue(p.reconnect, p.now + d) else p.reconnect;
        p.(failed := p.failed + 1, reconnect := w.(run := Asleep))
      else p.(reconnect := p.reconnect.(run := Asleep))
    case StopMark => (if p.state == Blocked then FailIoFast(p) else p).(state := Lost, stop := 1)
    case StopCancel =>
      var q := p.(stop := p.stop + 1);
      if p.stop == 1 then q.(reconnect := Cancel(p.reconnect).(cancelling := true))
      else if p.stop == 3 then q.(fast := Cancel(p.fast).(cancelling := true))
      else q.(loss := Cancel(p.loss).(cancelling := true))
    case StopWait =>
      var q := p.(stop := p.stop + 1);
      if p.stop == 2 then q.(reconnect := p.reconnect.(cancelling := false))
      else if p.stop == 4 then q.(fast := p.fast.(cancelling := false))
      else q.(loss := p.loss.(cancelling := false))
  }

  const IDLE: Work := Work(NotQueued, Asleep, false)

  /** srp_rport_add, with parameters that were checked. */
  ghost predicate Initial(p: Port) {
    && p.state == Running && !p.blocked && p.owner == Free && p.failed == 0 && p.stop == 0
    && p.fast == IDLE && p.loss == IDLE && p.reconnect == IDLE && ParamsValid(p)
  }

  // ---- the invariant ----

  /** The work will take the port out of the blocked state: it is started by the deadline, or its handler waits
      for nothing but the mutex. */
  predicate Releases(w: Work, deadline: int) {
    (w.queued.Due? && w.queued.at <= deadline) || w.run == Waiting
  }

  predicate Released(p: Port) {
    Releases(p.fast, p.deadline) || Releases(p.loss, p.deadline)
  }

  ghost predicate MutexInv(p: Port) {
    match p.owner
    case Free => p.blocked <==> p.state == Blocked
    case Reconnecting(_) => p.blocked
    case Succeeding(_) => p.state != Lost && p.fast.queued == NotQueued
    case LoadedDelay(_, caller) => (p.blocked <==> p.state == Blocked) && (caller.Attempt? ==> p.state == FailFast)
    case LoadedFast(_, fast, caller) =>
      (p.blocked <==> p.state == Blocked) && (caller.Attempt? ==> p.state == FailFast) && fast <= BLOCK_MAX
    case Arming(fast, loss, caller) =>
      && p.state == Blocked && p.blocked && p.loss.queued == NotQueued && caller == Nobody
      && fast <= BLOCK_MAX && (fast >= 0 || loss >= 0)
      && (fast >= 0 ==> Releases(p.fast, p.deadline) && p.deadline == p.armedAt + fast)
  }

  ghost predicate TimerInv(p: Port) {
    && (p.state == Running ==> p.fast.queued == NotQueued && p.loss.queued == NotQueued)
    && (p.state == Blocked && !p.owner.Arming? && !p.owner.Succeeding? ==> Released(p))
  }

  ghost predicate HandlerInv(p: Port) {
    && (p.loss.run.Leaving? ==> p.state == Lost) && p.loss.run != Inside
    && (p.fast.run == Asleep || p.fast.run == Waiting)
  }

  // srp_reconnect_work has the mutex
  predicate OfWork(o: Owner) {
    match o
    case Free => false
    case Reconnecting(byWork) => byWork
    case Succeeding(byWork) => byWork
    case LoadedDelay(_, caller) => caller == Attempt(true)
    case LoadedFast(_, _, caller) => caller == Attempt(true)
    case Arming(_, _, caller) => caller == Attempt(true)
  }

  ghost predicate WorkInv(p: Port) {
    p.reconnect.run == Inside <==> OfWork(p.owner)
  }

  ghost predicate CancelInv(p: Port) {
    && (p.reconnect.cancelling <==> p.stop == 2) && (p.fast.cancelling <==> p.stop == 4)
    && (p.loss.cancelling <==> p.stop == 6)
  }

  ghost predicate StopInv(p: Port) {
    && p.stop <= STOPPED
    && (p.stop > 0 ==> p.state == Lost && !p.owner.Arming? && !p.owner.Succeeding?)
    && (p.stop >= 2 ==> p.reconnect.queued == NotQueued) && (p.stop >= 3 ==> p.reconnect.run == Asleep)
    && (p.stop >= 4 ==> p.fast.queued == NotQueued) && (p.stop >= 5 ==> p.fast.run == Asleep)
    && (p.stop >= 6 ==> p.loss.queued == NotQueued) && (p.stop >= 7 ==> p.loss.run == Asleep)
  }

  ghost predicate Inv(p: Port) {
    MutexInv(p) && TimerInv(p) && HandlerInv(p) && WorkInv(p) && CancelInv(p) && StopInv(p) && ParamsValid(p)
  }

  lemma InitialInv(p: Port)
    requires Initial(p)
    ensures Inv(p)
  {
  }

  lemma MutexKept(p: Port, s: Step)
    requires Inv(p) && Enabled(p, s)
    ensures MutexInv(Do(p, s))
  {
  }

  lemma TimersKept(p: Port, s: Step)
    requires Inv(p) && Enabled(p, s)
    ensures TimerInv(Do(p, s))
  {
  }

  lemma HandlersKept(p: Port, s: Step)
    requires Inv(p) && Enabled(p, s)
    ensures HandlerInv(Do(p, s))
  {
  }

  lemma WorkKept(p: Port, s: Step)
    requires Inv(p) && Enabled(p, s)
    ensures WorkInv(Do(p, s))
  {
  }

  lemma ParamsKept(p: Port, s: Step)
    requires Inv(p) && Enabled(p, s)
    ensures ParamsValid(Do(p, s))
  {
  }

  lemma CancelsKept(p: Port, s: Step)
    requires Inv(p) && Enabled(p, s)
    ensures CancelInv(Do(p, s))
  {
  }

  lemma StopKept(p: Port, s: Step)
    requires Inv(p) && Enabled(p, s)
    ensures StopInv(Do(p, s))
  {
  }

  // ---- over all runs ----

  /** The ports along a run, by the steps taken. */
  ghost predicate Run(p: Port, steps: seq<Step>, q: Port)
    decreases |steps|
  {
    if steps == [] then q == p
    else Enabled(p, steps[0]) && Run(Do(p, steps[0]), steps[1..], q)
  }

  lemma {:induction false} Always(p: Port, steps: seq<Step>, q: Port)
    requires Inv(p) && Run(p, steps, q)
    ensures Inv(q)
    ensures p.state == Lost ==> q.state == Lost
    decreases |steps|
  {
    if steps != [] {
      StepKeeps(p, steps[0]);
      Always(Do(p, steps[0]), steps[1..], q);
    }
  }

  lemma StepKeeps(p: Port, s: Step)
    requires Inv(p) && Enabled(p, s)
    ensures Inv(Do(p, s))
    ensures p.state == Lost ==> Do(p, s).state == Lost
  {
    MutexKept(p, s);
    TimersKept(p, s);
    HandlersKept(p, s);
    WorkKept(p, s);
    ParamsKept(p, s);
    CancelsKept(p, s);
    StopKept(p, s);
  }

  /**
   Whatever the timers, reconnect attempts, attribute writes and the stop have done: while the mutex is free the
   target is blocked exactly in the state BLOCKED, and a timer that will end that state is queued, to be started
   by the deadline, or already waits for the mutex.
   */
  lemma BlockedIsReleased(start: Port, steps: seq<Step>, p: Port)
    requires Initial(start) && Run(start, steps, p) && p.owner == Free
    ensures p.blocked <==> p.state == Blocked
    ensures p.state == Blocked ==> Released(p)
  {
    Always(start, steps, p);
  }

  /** LOST is final. */
  lemma LostForever(start: Port, before: seq<Step>, p: Port, after: seq<Step>, q: Port)
    requires Initial(start) && Run(start, before, p) && Run(p, after, q) && p.state == Lost
    ensures q.state == Lost && (q.owner == Free ==> !q.blocked)
  {
    Always(start, before, p);
    Always(p, after, q);
  }

  /** After the deadline two steps are enough to end the blocked state, and nobody has to reconnect for it. */
  lemma WayOut(start: Port, before: seq<Step>, p: Port) returns (steps: seq<Step>, q: Port)
    requires Initial(start) && Run(start, before, p)
    requires p.owner == Free && p.state == Blocked && p.now >= p.deadline
    ensures Run(p, steps, q) && |steps| <= 2 && q.state != Blocked && !q.blocked && q.owner == Free
  {
    Always(start, before, p);
    if p.fast.run == Waiting {
      steps, q := [FailFastNow], Do(p, FailFastNow);
      OneStep(p, FailFastNow);
    } else if p.loss.run == Waiting {
      steps, q := [LoseDevice], Do(p, LoseDevice);
      OneStep(p, LoseDevice);
    } else if Releases(p.fast, p.deadline) {
      steps, q := [ExpireFast, FailFastNow], Do(Do(p, ExpireFast), FailFastNow);
      TwoSteps(p, ExpireFast, FailFastNow);
    } else {
      steps, q := [ExpireLoss, LoseDevice], Do(Do(p, ExpireLoss), LoseDevice);
      TwoSteps(p, ExpireLoss, LoseDevice);
    }
  }

  lemma OneStep(p: Port, s: Step)
    requires Enabled(p, s)
    ensures Run(p, [s], Do(p, s))
  {
    assert Run(Do(p, s), [], Do(p, s));
  }

  lemma TwoSteps(p: Port, s: Step, t: Step)
    requires Enabled(p, s) && Enabled(Do(p, s), t)
    ensures Run(p, [s, t], Do(Do(p, s), t))
  {
    OneStep(Do(p, s), t);
    assert [s, t][1..] == [t];
  }

  // ---- stopping ----

  ghost predicate Quiet(p: Port) {
    p.stop == STOPPED && p.state == Lost && p.fast == IDLE && p.loss == IDLE && p.reconnect == IDLE
  }

  /** Once srp_stop_rport_timers has returned, no timer is queued or running, and none ever will be. */
  lemma StoppedIsQuiet(start: Port, before: seq<Step>, p: Port, after: seq<Step>, q: Port)
    requires Initial(start) && Run(start, before, p) && Run(p, after, q) && p.stop == STOPPED
    ensures Quiet(p) && Quiet(q)
  {
    Always(start, before, p);
    Always(p, after, q);
    StaysStopped(p, after, q);
  }

  lemma {:induction false} StaysStopped(p: Port, steps: seq<Step>, q: Port)
    requires Inv(p) && Run(p, steps, q) && p.stop == STOPPED
    ensures q.stop == STOPPED
    decreases |steps|
  {
    if steps != [] {
      StepKeeps(p, steps[0]);
      StaysStopped(Do(p, steps[0]), steps[1..], q);
    }
  }

  lemma {:induction false} Extend(p: Port, steps: seq<Step>, q: Port, s: Step)
    requires Run(p, steps, q) && Enabled(q, s)
    ensures Run(p, steps + [s], Do(q, s))
    decreases |steps|
  {
    if steps == [] {
      OneStep(p, s);
    } else {
      Extend(Do(p, steps[0]), steps[1..], q, s);
      assert (steps + [s])[1..] == steps[1..] + [s];
    }
  }

  // ---- how long a port stays blocked ----

  // Nobody writes an attribute between the reading of the first and of the last timeout.
  predicate Disturbs(p: Port, s: Step) {
    (p.owner.LoadedDelay? || p.owner.LoadedFast?) && (s.StoreDelay? || s.StoreFastTmo? || s.StoreLossTmo?)
  }

  ghost predicate Undisturbed(p: Port, steps: seq<Step>)
    decreases |steps|
  {
    steps == [] || (!Disturbs(p, steps[0]) && Undisturbed(Do(p, steps[0]), steps[1..]))
  }

  ghost predicate InTime(p: Port) {
    && (p.state == Blocked && !p.owner.Arming? ==> p.deadline <= p.armedAt + BLOCK_MAX)
    && match p.owner
       case LoadedFast(_, fast, _) => fast == p.fastTmo
       case Arming(fast, loss, _) => fast >= 0 || loss <= BLOCK_MAX
       case _ => true
  }

  lemma InTimeKept(p: Port, s: Step)
    requires Inv(p) && InTime(p) && Enabled(p, s) && !Disturbs(p, s)
    ensures InTime(Do(p, s))
  {
  }

  lemma {:induction false} InTimeFrom(p: Port, steps: seq<Step>, q: Port)
    requires Inv(p) && InTime(p) && Run(p, steps, q) && Undisturbed(p, steps)
    ensures InTime(q)
    decreases |steps|
  {
    if steps != [] {
      StepKeeps(p, steps[0]);
      InTimeKept(p, steps[0]);
      InTimeFrom(Do(p, steps[0]), steps[1..], q);
    }
  }

  /** What srp_tmo_valid is for: the deadline is at most SCSI_DEVICE_BLOCK_MAX_TIMEOUT seconds after the timer was
      started ... */
  lemma BlockedInTime(start: Port, steps: seq<Step>, p: Port)
    requires Initial(start) && Run(start, steps, p) && Undisturbed(start, steps)
    requires p.owner == Free && p.state == Blocked
    ensures p.deadline <= p.armedAt + BLOCK_MAX
  {
    InTimeFrom(start, steps, p);
  }

  /** ... unless the values that were read do not belong together, exactly. */
  lemma TornDeadline(p: Port)
    requires Inv(p) && p.owner.Arming?
    ensures var q := Do(p, FinishArming);
      q.deadline <= q.armedAt + BLOCK_MAX <==> !(p.owner.fast < 0 && p.owner.loss > BLOCK_MAX)
  {
  }

  // a port that runs, with these parameters
  ghost function Fresh(delay: int, fast: int, loss: int): Port {
    Port(Running, false, Free, delay, fast, loss, 0, IDLE, IDLE, IDLE, 0, 0, 0, 0)
  }

  lemma OneMore(start: Port, steps: seq<Step>, p: Port, s: Step, q: Port) returns (steps': seq<Step>)
    requires Run(start, steps, p) && Enabled(p, s) && q == Do(p, s)
    ensures Run(start, steps', q) && steps' == steps + [s]
  {
    Extend(start, steps, p, s);
    steps' := steps + [s];
  }

  /** It happens: the fast fail timeout is read before, and the device loss timeout after both are changed from
      one good combination to another. The port stays blocked for 10000 seconds. */
  lemma TornRead() returns (start: Port, steps: seq<Step>, p: Port)
    ensures Initial(start) && Run(start, steps, p) && p.owner == Free && p.state == Blocked
    ensures p.deadline == p.armedAt + 10000 && p.fast == IDLE && p.reconnect == IDLE
  {
    start := Fresh(-1, -1, 60);
    var p1 := start.(owner := LoadedDelay(-1, Nobody));
    var p2 := p1.(owner := LoadedFast(-1, -1, Nobody));
    var p3 := p2.(fastTmo := 15, lossTmo := 10000);
    steps := OneMore(start, [], start, StartFailTimers, p1);
    steps := OneMore(start, steps, p1, ReadFastTmo, p2);
    steps := OneMore(start, steps, p2, StoreFastTmo(15), p2.(fastTmo := 15));
    steps := OneMore(start, steps, p2.(fastTmo := 15), StoreLossTmo(10000), p3);
    steps, p := BlockedAfter(start, steps, p3, 10000);
  }

  // the rest of a read that has found no fast fail timeout
  lemma BlockedAfter(start: Port, steps: seq<Step>, p: Port, loss: int) returns (steps': seq<Step>, q: Port)
    requires Run(start, steps, p) && p.state == Running && p.owner == LoadedFast(-1, -1, Nobody) && p.lossTmo == loss >= 0
    requires p.loss == IDLE
    ensures Run(start, steps', q)
    ensures q == p.(state := Blocked, blocked := true, owner := Free, armedAt := p.now, deadline := p.now + loss,
                    loss := Work(Due(p.now + loss), Asleep, false))
  {
    var p1 := Do(p, ReadLossTmo);
    steps' := OneMore(start, steps, p, ReadLossTmo, p1);
    q := Do(p1, FinishArming);
    steps' := OneMore(start, steps', p1, FinishArming, q);
  }

  // ---- reconnecting ----

  /** A port that runs is lost in one step, other than by being stopped, exactly when the handler of an earlier
      device loss timer still waits: rport_dev_loss_timedout does not look at the state. */
  lemma RunningIsLost(p: Port, s: Step)
    requires Inv(p) && Enabled(p, s) && p.state == Running && s != StopMark
    ensures Do(p, s).state == Lost <==> s == LoseDevice
    ensures p.owner == Free && p.loss.run == Waiting ==> Enabled(p, LoseDevice)
    ensures Do(p, s).state == Running && p.loss.run != Waiting ==> Do(p, s).loss.run != Waiting
  {
  }

  /** A port whose device loss timer, alone, is due. */
  lemma LossIsDue() returns (start: Port, steps: seq<Step>, p: Port)
    ensures Initial(start) && start == Fresh(-1, -1, 60) && Run(start, steps, p)
    ensures p == start.(state := Blocked, blocked := true, now := 60, deadline := 60, loss := Work(Due(60), Asleep, false))
  {
    start := Fresh(-1, -1, 60);
    var p1 := start.(owner := LoadedDelay(-1, Nobody));
    var p2 := start.(owner := LoadedFast(-1, -1, Nobody));
    steps := OneMore(start, [], start, StartFailTimers, p1);
    steps := OneMore(start, steps, p1, ReadFastTmo, p2);
    var p3;
    steps, p3 := BlockedAfter(start, steps, p2, 60);
    p := p3.(now := 60);
    steps := OneMore(start, steps, p3, Tick(60), p);
  }

  /** The same port, when a reconnect attempt has the mutex and the handler of the timer waits for it. */
  lemma LossWaits() returns (start: Port, steps: seq<Step>, p: Port)
    ensures Initial(start) && start == Fresh(-1, -1, 60) && Run(start, steps, p)
    ensures p == start.(state := Blocked, blocked := true, now := 60, deadline := 60, owner := Reconnecting(false),
                        loss := Work(NotQueued, Waiting, false))
  {
    var p1;
    start, steps, p1 := LossIsDue();
    var p2 := p1.(owner := Reconnecting(false));
    steps := OneMore(start, steps, p1, EnterReconnect(false), p2);
    p := p2.(loss := Work(NotQueued, Waiting, false));
    steps := OneMore(start, steps, p2, ExpireLoss, p);
  }

  /** So a successful reconnect does not always save the port: the timer expires while i->f->reconnect() runs. */
  lemma ReconnectedYetLost() returns (start: Port, steps: seq<Step>, won: Port, q: Port)
    ensures Initial(start) && Run(start, steps, won) && won.state == Running && won.owner == Free && won.stop == 0
    ensures Run(won, [LoseDevice], q) && q.state == Lost
  {
    var p;
    start, steps, p := LossWaits();
    var p1 := p.(owner := Succeeding(false));
    steps := OneMore(start, steps, p, Reconnect(true), p1);
    won := Do(p1, FinishSuccess);
    steps := OneMore(start, steps, p1, FinishSuccess, won);
    q := Do(won, LoseDevice);
    OneStep(won, LoseDevice);
  }

  // ---- retrying ----

  /** Another attempt to reconnect is on its way. */
  predicate Retries(w: Work) {
    w.queued.Due? || w.run == Waiting || w.run == Inside || w.run == Leaving(true)
  }

  predicate WantsRetry(p: Port) {
    p.delay > 0 && (p.state == Blocked || p.state == FailFast)
  }

  /** As long as reconnecting is enabled, a port that has failed is tried again ... */
  ghost predicate RetryInv(p: Port) {
    match p.owner
    case LoadedDelay(delay, caller) => delay == p.delay && (caller == Nobody && WantsRetry(p) ==> Retries(p.reconnect))
    case LoadedFast(delay, _, caller) => delay == p.delay && (caller == Nobody && WantsRetry(p) ==> Retries(p.reconnect))
    case _ => WantsRetry(p) ==> Retries(p.reconnect)
  }

  // a retry is due, nobody has queued it, and srp_reconnect_work does not either
  predicate LosesRetry(p: Port, s: Step) {
    && s == WorkDone && WantsRetry(p) && p.reconnect.queued == NotQueued && NextDelay(p.delay, p.failed + 1) <= 0
    && !((p.owner.LoadedDelay? || p.owner.LoadedFast?) && p.owner.caller.Attempt?)
  }

  /** ... with one exception: a failed attempt after which the next delay wraps to something that is not positive,
      exactly. Attributes must not be written while the timeouts are read. */
  lemma RetriesUnlessWrapped(p: Port, s: Step)
    requires Inv(p) && RetryInv(p) && Enabled(p, s) && !Disturbs(p, s)
    ensures RetryInv(Do(p, s)) <==> !LosesRetry(p, s)
  {
  }

  // the longest delay that can be multiplied by 100
  const MAX_DELAY: int := 21474836

  lemma NextDelayPositive(delay: int, failed: nat)
    requires 0 < delay <= MAX_DELAY
    ensures NextDelay(delay, failed) > 0
  {
    var factor := if failed - 10 > 1 then failed - 10 else 1;
    var f := if factor < 100 then factor else 100;
    Scaled(delay, f);
    WrapSmall(delay * f);
  }

  lemma Scaled(delay: int, f: int)
    requires 0 < delay <= MAX_DELAY && 1 <= f <= 100
    ensures 0 < delay * f < 0x8000_0000
  {
    assert (100 - f) * delay >= 0;
  }

  lemma WrapSmall(x: int)
    requires -0x8000_0000 <= x < 0x8000_0000
    ensures WrapInt(x) == x
  {
  }

  ghost predicate DelaysFit(steps: seq<Step>) {
    forall i :: 0 <= i < |steps| && steps[i].StoreDelay? ==> steps[i].value <= MAX_DELAY
  }

  lemma RetryKept(p: Port, s: Step)
    requires Inv(p) && RetryInv(p) && p.delay <= MAX_DELAY && Enabled(p, s) && !Disturbs(p, s)
    requires s.StoreDelay? ==> s.value <= MAX_DELAY
    ensures RetryInv(Do(p, s)) && Do(p, s).delay <= MAX_DELAY
  {
    RetriesUnlessWrapped(p, s);
    if p.delay > 0 {
      NextDelayPositive(p.delay, p.failed + 1);
    }
  }

  lemma {:induction false} RetriesFrom(p: Port, steps: seq<Step>, q: Port)
    requires Inv(p) && RetryInv(p) && p.delay <= MAX_DELAY && Run(p, steps, q) && DelaysFit(steps) && Undisturbed(p, steps)
    ensures RetryInv(q)
    decreases |steps|
  {
    if steps != [] {
      StepKeeps(p, steps[0]);
      RetryKept(p, steps[0]);
      RetriesFrom(Do(p, steps[0]), steps[1..], q);
    }
  }

  /** A port that is blocked or fails its I/O fast, with reconnecting enabled, is always going to be tried again,
      provided that no delay exceeds MAX_DELAY. */
  lemma AlwaysRetries(start: Port, steps: seq<Step>, p: Port)
    requires Initial(start) && start.delay <= MAX_DELAY && Run(start, steps, p) && DelaysFit(steps)
    requires Undisturbed(start, steps)
    ensures p.owner == Free && WantsRetry(p) ==> Retries(p.reconnect)
  {
    InitialInv(start);
    RetriesFrom(start, steps, p);
  }

  /** Why the timeouts have to be read without a write in between: reconnecting is enabled too late for
      __srp_start_tl_fail_timers and too early for store_reconnect_delay, and nobody queues an attempt. */
  lemma RetryMissed() returns (start: Port, steps: seq<Step>, p: Port)
    ensures Initial(start) && Run(start, steps, p) && p.owner == Free && DelaysFit(steps)
    ensures WantsRetry(p) && p.reconnect == IDLE
  {
    start, steps, p := DelayMissed();
    var p1 := p.(state := Blocked, blocked := true, owner := Arming(15, -1, Nobody), deadline := 15,
                 fast := Work(Due(15), Asleep, false));
    assert p1 == StartTimers(p, -1, 15, -1, Nobody);
    FitMore(steps, ReadLossTmo);
    steps := OneMore(start, steps, p, ReadLossTmo, p1);
    p := p1.(owner := Free);
    FitMore(steps, FinishArming);
    steps := OneMore(start, steps, p1, FinishArming, p);
  }

  lemma FitMore(steps: seq<Step>, s: Step)
    requires DelaysFit(steps) && (s.StoreDelay? ==> s.value <= MAX_DELAY)
    ensures DelaysFit(steps + [s])
  {
  }

  lemma DelayMissed() returns (start: Port, steps: seq<Step>, p: Port)
    ensures Initial(start) && start == Fresh(-1, 15, -1) && Run(start, steps, p) && DelaysFit(steps)
    ensures p == start.(delay := 20, owner := LoadedFast(-1, 15, Nobody))
  {
    start := Fresh(-1, 15, -1);
    var p1 := start.(owner := LoadedDelay(-1, Nobody));
    steps := OneMore(start, [], start, StartFailTimers, p1);
    var p2 := p1.(delay := 20);
    steps := OneMore(start, steps, p1, StoreDelay(20), p2);
    p := p2.(owner := LoadedFast(-1, 15, Nobody));
    steps := OneMore(start, steps, p2, ReadFastTmo, p);
  }

  // ---- and when retrying ends ----

  // no attribute is written at a bad moment, nor a delay that is too long
  ghost predicate Calm(start: Port, steps: seq<Step>) { Undisturbed(start, steps) && DelaysFit(steps) }

  // what an attribute can hold
  const INT_MAX: int := 0x7FFF_FFFF

  /** A port after `k` failed attempts, waiting for the next. */
  ghost predicate Failing(p: Port, delay: int, k: nat) {
    && p.state == FailFast && !p.blocked && p.owner == Free && p.stop == 0
    && p.delay == delay && p.fastTmo == 15 && p.lossTmo == 60 && p.failed == k
    && p.fast == IDLE && p.loss == IDLE && p.reconnect.queued.Due? && p.reconnect.run == Asleep && !p.reconnect.cancelling
    && p.now <= p.reconnect.queued.at
  }

  // ... and after one more, before srp_reconnect_work decides when to try again
  lemma FailsOnce(start: Port, steps: seq<Step>, p: Port, delay: int, k: nat) returns (steps': seq<Step>, q: Port)
    requires Run(start, steps, p) && Calm(start, steps) && Failing(p, delay, k)
    ensures Run(start, steps', q) && Calm(start, steps')
    ensures q == p.(now := p.reconnect.queued.at, reconnect := Work(NotQueued, Leaving(true), false))
  {
    var p1 := p.(now := p.reconnect.queued.at);
    steps' := Quietly(start, steps, p, Tick(p.reconnect.queued.at - p.now), p1);
    var p2 := p1.(reconnect := Work(NotQueued, Waiting, false));
    steps' := Quietly(start, steps', p1, ExpireReconnect, p2);
    var p3 := p2.(blocked := true, owner := Reconnecting(true), reconnect := Work(NotQueued, Inside, false));
    steps' := Quietly(start, steps', p2, EnterReconnect(true), p3);
    q := Do(p3, Reconnect(false));
    steps' := Quietly(start, steps', p3, Reconnect(false), q);
  }

  lemma Quietly(start: Port, steps: seq<Step>, p: Port, s: Step, q: Port) returns (steps': seq<Step>)
    requires Run(start, steps, p) && Calm(start, steps) && Enabled(p, s) && q == Do(p, s) && !Disturbs(p, s)
    requires !s.StoreDelay?
    ensures Run(start, steps', q) && Calm(start, steps') && steps' == steps + [s]
  {
    steps' := OneMore(start, steps, p, s, q);
    QuietExtend(start, steps, p, s);
    FitMore(steps, s);
  }

  lemma {:induction false} QuietExtend(p: Port, steps: seq<Step>, q: Port, s: Step)
    requires Run(p, steps, q) && Undisturbed(p, steps) && Enabled(q, s) && !Disturbs(q, s)
    ensures Undisturbed(p, steps + [s])
    decreases |steps|
  {
    if steps == [] {
      assert Undisturbed(Do(p, s), []);
      assert ([] + [s])[1..] == [];
    } else {
      QuietExtend(Do(p, steps[0]), steps[1..], q, s);
      assert (steps + [s])[1..] == steps[1..] + [s];
    }
  }

  /** The first failure of an attempt that somebody else makes. */
  lemma FailsFirst(delay: int) returns (start: Port, steps: seq<Step>, p: Port)
    requires 15 < delay
    ensures Initial(start) && start == Fresh(delay, 15, 60) && Run(start, steps, p) && Calm(start, steps)
    ensures Failing(p, delay, 0)
  {
    start := Fresh(delay, 15, 60);
    var p1 := start.(blocked := true, owner := Reconnecting(false));
    steps := Quietly(start, [], start, EnterReconnect(false), p1);
    var p2 := start.(state := FailFast, owner := LoadedDelay(delay, Attempt(false)));
    steps := Quietly(start, steps, p1, Reconnect(false), p2);
    var p3 := p2.(owner := LoadedFast(delay, 15, Attempt(false)));
    steps := Quietly(start, steps, p2, ReadFastTmo, p3);
    p := Do(p3, ReadLossTmo);
    steps := Quietly(start, steps, p3, ReadLossTmo, p);
  }

  lemma {:induction false} FailsOften(delay: int, k: nat) returns (start: Port, steps: seq<Step>, p: Port)
    requires 15 < delay && forall j :: 1 <= j <= k ==> NextDelay(delay, j) > 0
    ensures Initial(start) && start == Fresh(delay, 15, 60) && Run(start, steps, p) && Calm(start, steps)
    ensures Failing(p, delay, k)
  {
    if k == 0 {
      start, steps, p := FailsFirst(delay);
    } else {
      start, steps, p := FailsOften(delay, k - 1);
      var q;
      steps, q := FailsOnce(start, steps, p, delay, k - 1);
      p := Do(q, WorkDone);
      steps := Quietly(start, steps, q, WorkDone, p);
    }
  }

  // the least factor that takes the delay out of the range of an int
  lemma WrappingFactor(delay: int) returns (f: int)
    requires MAX_DELAY < delay <= INT_MAX
    ensures 2 <= f <= 100 && INT_MAX < delay * f && delay * (f - 1) <= INT_MAX
  {
    f := 2;
    while delay * f <= INT_MAX
      invariant 2 <= f <= 100 && delay * (f - 1) <= INT_MAX
      decreases 100 - f
    {
      f := f + 1;
    }
  }

  lemma BelowFactor(delay: int, f: int, g: int)
    requires 0 < delay && 1 <= g <= f && delay * f <= INT_MAX
    ensures 0 < delay * g <= INT_MAX
  {
    assert (f - g) * delay >= 0;
  }

  /** With any longer delay the retries can end: after so many failures the port stays failed. */
  lemma RetriesCanEnd(delay: int) returns (start: Port, steps: seq<Step>, p: Port)
    requires MAX_DELAY < delay <= INT_MAX
    ensures Initial(start) && start.delay == delay && Run(start, steps, p) && Calm(start, steps)
    ensures p.stop == 0 && p.owner == Free && p.delay == delay && WantsRetry(p) && p.reconnect == IDLE
  {
    var f := WrappingFactor(delay);
    var k := f + 9;
    forall j | 1 <= j <= k
      ensures NextDelay(delay, j) > 0
    {
      var g := if j - 10 > 1 then j - 10 else 1;
      BelowFactor(delay, f - 1, g);
      WrapSmall(delay * g);
    }
    start, steps, p := FailsOften(delay, k);
    var q;
    steps, q := FailsOnce(start, steps, p, delay, k);
    assert NextDelay(delay, k + 1) == WrapInt(delay * f) == delay * f - 0x1_0000_0000 < 0;
    p := Do(q, WorkDone);
    steps := Quietly(start, steps, q, WorkDone, p);
  }

  /** The longest delay that is safe: with it a port that has failed is always going to be tried again, and with
      any longer one not. */
  lemma SafeDelay(delay: int)
    requires 0 < delay <= INT_MAX
    ensures delay <= MAX_DELAY <==> (forall start, steps, p :: RetryingRun(delay, start, steps, p) ==> Retries(p.reconnect))
  {
    if delay <= MAX_DELAY {
      forall start, steps, p | RetryingRun(delay, start, steps, p)
        ensures Retries(p.reconnect)
      {
        AlwaysRetries(start, steps, p);
      }
    } else {
      var start, steps, p := RetriesCanEnd(delay);
      assert RetryingRun(delay, start, steps, p) && !Retries(p.reconnect);
    }
  }

  // a run to a state in which a retry is due
  ghost predicate RetryingRun(delay: int, start: Port, steps: seq<Step>, p: Port) {
    Initial(start) && start.delay == delay && Run(start, steps, p) && Calm(start, steps) && p.owner == Free && WantsRetry(p)
  }
}
