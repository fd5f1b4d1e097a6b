/**
 When the timers of an SRP target port are due, over whole runs: a clock writes down when a timer is started and with
 which of the values that were read, and every timer that is queued is due exactly then.
 */
module SrpTiming {
  import opened SrpPort

  datatype Clock = Clock(
    delay: int, // reconnect_delay and fast_io_fail_tmo, as they were read last
    fast: int,
    blockedAt: int, // when the port was blocked, and the timeouts that hold for that
    fastTmo: int,
    lossTmo: int,
    waited: bool, // the handler of an earlier fast fail timer already waited then
    lossFrom: int, // when the device loss timer was started
    trying: bool, // an attempt to reconnect is queued, ...
    tryFrom: int, // ... since when, and how long it is to wait
    tryAfter: int,
    failures: nat) // attempts that failed since the last success

  const START: Clock := Clock(-1, -1, 0, -1, -1, false, 0, false, 0, 0, 0)

  // a work that is already queued stays as it is, and while it is being cancelled it is not queued
  function Try(c: Clock, p: Port, after: int): Clock {
    if c.trying || p.stop == 2 then c else c.(trying := true, tryFrom := p.now, tryAfter := after)
  }

  /** How long to wait after so many failures: reconnect_delay, up to the eleventh; from then on twice, three times, and
      in the end 100 times as long, in the arithmetic of an int. */
  function Backoff(delay: int, failures: nat): int {
    var d := if failures <= 11 then delay else if failures < 110 then delay * (failures - 10) else delay * 100;
    d - (d + 0x8000_0000) / 0x1_0000_0000 * 0x1_0000_0000
  }

  /** What the clock writes down when the port takes a step. */
  function Watch(c: Clock, p: Port, s: Step): Clock {
    match s
    case StartFailTimers => c.(delay := p.delay)
    case Reconnect(ok) => if p.state == Running && !ok then c.(delay := p.delay) else c
    case ReadFastTmo => c.(fast := p.fastTmo)
    case ReadLossTmo =>
      var d := if p.state != Lost && c.delay > 0 then Try(c, p, c.delay) else c;
      if p.state == Running && (c.fast >= 0 || p.lossTmo >= 0) then
        d.(blockedAt := p.now, fastTmo := c.fast, lossTmo := p.lossTmo, waited := p.fast.run == Waiting)
      else d
    case FinishArming => c.(lossFrom := p.now)
    case StoreDelay(v) =>
      if v <= 0 then c.(trying := false) else if p.delay <= 0 && p.state != Running then Try(c, p, v) else c
    case ExpireReconnect => c.(trying := false)
    case StopCancel => if p.stop == 1 then c.(trying := false) else c
    case FinishSuccess => c.(failures := 0)
    case WorkDone =>
      if p.reconnect.run == Leaving(true) then
        var d := Backoff(p.delay, c.failures + 1);
        (if d > 0 then Try(c, p, d) else c).(failures := c.failures + 1)
      else c
    case _ => c
  }

  function Watched(c: Clock, p: Port, steps: seq<Step>): Clock
    decreases |steps|
  {
    if steps == [] then c else Watched(Watch(c, p, steps[0]), Do(p, steps[0]), steps[1..])
  }

  // what was read
  ghost predicate Read(c: Clock, p: Port) {
    match p.owner
    case LoadedDelay(delay, _) => delay == c.delay
    case LoadedFast(delay, fast, _) => delay == c.delay && fast == c.fast
    case Arming(fast, loss, _) => fast == c.fastTmo && loss == c.lossTmo
    case _ => true
  }

  /** The timers are due when they should be, and while the port is blocked none is missing. */
  ghost predicate OnTime(c: Clock, p: Port) {
    DueOnTime(c, p) && (p.state == Blocked && !p.owner.Succeeding? ==> Guarded(c, p))
  }

  ghost predicate DueOnTime(c: Clock, p: Port) {
    && (p.fast.queued.Due? ==> c.fastTmo >= 0 && p.fast.queued.at == c.blockedAt + c.fastTmo)
    && (p.loss.queued.Due? ==> c.lossTmo >= 0 && p.loss.queued.at == c.lossFrom + c.lossTmo)
  }

  ghost predicate Guarded(c: Clock, p: Port) {
    && (c.fastTmo >= 0 ==> p.deadline == c.blockedAt + c.fastTmo && (p.fast.queued.Due? || p.fast.run == Waiting))
    && (!p.owner.Arming? && c.lossTmo >= 0 ==> p.loss.queued.Due? || p.loss.run == Waiting)
    && (!p.owner.Arming? && c.fastTmo < 0 ==> p.deadline == c.lossFrom + c.lossTmo)
    && (c.waited ==> p.fast.run == Waiting)
    && (p.fast.run == Waiting && !c.waited ==> c.fastTmo >= 0 && c.blockedAt + c.fastTmo <= p.now)
  }

  ghost predicate Tries(c: Clock, p: Port) {
    && p.failed == c.failures
    && p.reconnect.queued == if c.trying then Due(c.tryFrom + c.tryAfter) else NotQueued
  }

  lemma ReadKept(c: Clock, p: Port, s: Step)
    requires Inv(p) && Read(c, p) && Enabled(p, s)
    ensures Read(Watch(c, p, s), Do(p, s))
  {
  }

  lemma OnTimeKept(c: Clock, p: Port, s: Step)
    requires Inv(p) && Read(c, p) && OnTime(c, p) && Enabled(p, s)
    ensures OnTime(Watch(c, p, s), Do(p, s))
  {
    if Arms(s) {
      DueArmed(c, p, s);
      GuardArmed(c, p, s);
    } else {
      DueKept(c, p, s);
      GuardKept(c, p, s);
    }
  }

  // the two steps that start the timers
  predicate Arms(s: Step) { s.ReadLossTmo? || s.FinishArming? }

  lemma DueArmed(c: Clock, p: Port, s: Step)
    requires Inv(p) && Read(c, p) && DueOnTime(c, p) && Enabled(p, s) && Arms(s)
    ensures DueOnTime(Watch(c, p, s), Do(p, s))
  {
  }

  lemma GuardArmed(c: Clock, p: Port, s: Step)
    requires Inv(p) && Read(c, p) && OnTime(c, p) && Enabled(p, s) && Arms(s)
    ensures Do(p, s).state == Blocked ==> Guarded(Watch(c, p, s), Do(p, s))
  {
  }

  lemma DueKept(c: Clock, p: Port, s: Step)
    requires DueOnTime(c, p) && Enabled(p, s) && !Arms(s)
    ensures DueOnTime(Watch(c, p, s), Do(p, s))
  {
    NoneStarted(p, s);
  }

  lemma NoneStarted(p: Port, s: Step)
    requires Enabled(p, s) && !Arms(s)
    ensures var q := Do(p, s);
      && (q.fast.queued == NotQueued || q.fast.queued == p.fast.queued)
      && (q.loss.queued == NotQueued || q.loss.queued == p.loss.queued)
  {
  }

  lemma GuardKept(c: Clock, p: Port, s: Step)
    requires Inv(p) && OnTime(c, p) && Enabled(p, s) && !Arms(s)
    ensures Do(p, s).state == Blocked && !Do(p, s).owner.Succeeding? ==> Guarded(Watch(c, p, s), Do(p, s))
  {
  }

  lemma TriesKept(c: Clock, p: Port, s: Step)
    requires Inv(p) && Read(c, p) && Tries(c, p) && Enabled(p, s)
    ensures Tries(Watch(c, p, s), Do(p, s))
  {
    if s.WorkDone? {
      AttemptDone(c, p);
    }
  }

  lemma AttemptDone(c: Clock, p: Port)
    requires Inv(p) && Tries(c, p) && Enabled(p, WorkDone)
    ensures Tries(Watch(c, p, WorkDone), Do(p, WorkDone))
  {
    BackoffIs(p.delay, p.failed + 1);
  }

  lemma BackoffIs(delay: int, failures: nat)
    ensures NextDelay(delay, failures) == Backoff(delay, failures)
  {
  }

  lemma {:induction false} Along(c: Clock, p: Port, steps: seq<Step>, q: Port)
    requires Inv(p) && Run(p, steps, q) && Read(c, p) && OnTime(c, p) && Tries(c, p)
    ensures var d := Watched(c, p, steps); Read(d, q) && OnTime(d, q) && Tries(d, q)
    decreases |steps|
  {
    if steps != [] {
      var s := steps[0];
      StepKeeps(p, s);
      ReadKept(c, p, s);
      OnTimeKept(c, p, s);
      TriesKept(c, p, s);
      Along(Watch(c, p, s), Do(p, s), steps[1..], q);
    }
  }

  /** Over every run: a queued timer is due the time after it was started that was read, and while the port is blocked
      each timer that is not switched off is queued or its handler waits. */
  lemma AlwaysOnTime(start: Port, steps: seq<Step>, p: Port)
    requires Initial(start) && Run(start, steps, p)
    ensures OnTime(Watched(START, start, steps), p)
    ensures p.state == Blocked && p.fast.queued.Due? && !p.owner.Succeeding? ==> p.fast.queued.at == p.deadline
  {
    InitialInv(start);
    Along(START, start, steps, p);
  }

  /** The fast fail timer ends the blocked state before its time exactly when the handler of an earlier one was already
      waiting when the port was blocked: rport_fast_io_fail_timedout does not know which timer it belongs to. */
  lemma FailsFastEarly(start: Port, steps: seq<Step>, p: Port)
    requires Initial(start) && Run(start, steps, p) && p.state == Blocked && p.owner == Free
    ensures var c := Watched(START, start, steps);
      && (c.waited ==> Enabled(p, FailFastNow))
      && (Enabled(p, FailFastNow) && !c.waited ==> c.fastTmo >= 0 && p.now >= c.blockedAt + c.fastTmo)
  {
    InitialInv(start);
    Along(START, start, steps, p);
  }

  // a port that is blocked from now on, with both timers started
  ghost function BlockedNow(p: Port): Port {
    p.(state := Blocked, blocked := true, owner := Free, armedAt := p.now, deadline := p.now + 15,
       fast := Work(Due(p.now + 15), p.fast.run, false), loss := Work(Due(p.now + 60), p.loss.run, false))
  }

  lemma Blocks(start: Port, steps: seq<Step>, p: Port) returns (steps': seq<Step>)
    requires Run(start, steps, p) && p.state == Running && p.owner == Free
    requires p.delay == -1 && p.fastTmo == 15 && p.lossTmo == 60
    requires p.fast.queued == p.loss.queued == NotQueued && !p.fast.cancelling && !p.loss.cancelling
    ensures Run(start, steps', BlockedNow(p))
  {
    var p1 := p.(owner := LoadedDelay(-1, Nobody));
    steps' := OneMore(start, steps, p, StartFailTimers, p1);
    var p2 := p.(owner := LoadedFast(-1, 15, Nobody));
    steps' := OneMore(start, steps', p1, ReadFastTmo, p2);
    steps' := Arms15(start, steps', p, p2);
  }

  lemma Arms15(start: Port, steps: seq<Step>, p: Port, r: Port) returns (steps': seq<Step>)
    requires Run(start, steps, r) && p.state == Running && r == p.(owner := LoadedFast(-1, 15, Nobody)) && p.lossTmo == 60
    requires p.fast.queued == p.loss.queued == NotQueued && !p.fast.cancelling && !p.loss.cancelling
    ensures Run(start, steps', BlockedNow(p))
  {
    var q := Do(r, ReadLossTmo);
    steps' := OneMore(start, steps, r, ReadLossTmo, q);
    steps' := OneMore(start, steps', q, FinishArming, BlockedNow(p));
  }

  // a port whose fast fail timer has expired while the mutex was held
  lemma HandlerWaits() returns (start: Port, steps: seq<Step>, p: Port)
    ensures Initial(start) && start == Fresh(-1, 15, 60) && Run(start, steps, p)
    ensures p == start.(state := Blocked, blocked := true, now := 15, armedAt := 0, deadline := 15, owner := Reconnecting(false),
                        fast := Work(NotQueued, Waiting, false), loss := Work(Due(60), Asleep, false))
  {
    start := Fresh(-1, 15, 60);
    steps := Blocks(start, [], start);
    var p1 := BlockedNow(start);
    var p2 := p1.(now := 15);
    steps := OneMore(start, steps, p1, Tick(15), p2);
    var p3 := p2.(owner := Reconnecting(false));
    steps := OneMore(start, steps, p2, EnterReconnect(false), p3);
    p := p3.(fast := Work(NotQueued, Waiting, false));
    steps := OneMore(start, steps, p3, ExpireFast, p);
  }

  // a port that runs again, while the handler of its fast fail timer still waits
  lemma HandlerLate() returns (start: Port, steps: seq<Step>, p: Port)
    ensures Initial(start) && start == Fresh(-1, 15, 60) && Run(start, steps, p) && p.stop == 0
    ensures p == start.(now := 15, armedAt := 0, deadline := 15, fast := Work(NotQueued, Waiting, false))
  {
    var p4;
    start, steps, p4 := HandlerWaits();
    var p5 := p4.(owner := Succeeding(false));
    steps := OneMore(start, steps, p4, Reconnect(true), p5);
    p := Do(p5, FinishSuccess);
    steps := OneMore(start, steps, p5, FinishSuccess, p);
  }

  /** It happens: a port that has been reconnected is blocked again, with 15 seconds to go, and fails its I/O at once. */
  lemma FailsAtOnce() returns (start: Port, steps: seq<Step>, p: Port, q: Port)
    ensures Initial(start) && Run(start, steps, p) && p.state == Blocked && p.owner == Free
    ensures p.now == p.armedAt && p.deadline == p.now + 15
    ensures Run(p, [FailFastNow], q) && q.state == FailFast && q.now == p.now
  {
    var p1;
    start, steps, p1 := HandlerLate();
    steps := Blocks(start, steps, p1);
    p := BlockedNow(p1);
    q := Do(p, FailFastNow);
    OneStep(p, FailFastNow);
  }

  /** Over every run: an attempt to reconnect is queued exactly if one was asked for and has neither begun nor been
      called off since, and it is due after the delay that held then; the failures are counted from the last success. */
  lemma AttemptsOnTime(start: Port, steps: seq<Step>, p: Port)
    requires Initial(start) && Run(start, steps, p)
    ensures Tries(Watched(START, start, steps), p)
  {
    InitialInv(start);
    Along(START, start, steps, p);
  }

  /** After a success the port runs, no timer is left that could end that, and the failures are forgotten. */
  lemma AfterSuccess(p: Port)
    requires Inv(p) && Enabled(p, FinishSuccess)
    ensures var q := Do(p, FinishSuccess);
      && q.state == Running && !q.blocked && q.failed == 0 && q.owner == Free
      && q.fast.queued == NotQueued && q.loss.queued == NotQueued
  {
  }

  /** Which steps change the state, and how. */
  lemma StateChanges(p: Port, s: Step)
    requires Inv(p) && Enabled(p, s) && Do(p, s).state != p.state
    ensures match Do(p, s).state
      case Running => s == FinishSuccess && p.state != Lost
      case Blocked => s == ReadLossTmo && p.state == Running
      case FailFast => (s == FailFastNow && p.state == Blocked) || (s == Reconnect(false) && p.state == Running)
      case Lost => s == LoseDevice || s == StopMark
  {
  }

  /** The combinations of timeouts that are accepted. */
  lemma GoodTimeouts(delay: int, fast: int, loss: int)
    ensures TmoValid(delay, fast, loss) <==>
      if fast < 0 then delay < 0 && 0 <= loss <= 600
      else && fast <= 600 && (loss < 0 || fast < loss < 9_223_372_036_854_775)
           && (delay < 0 || (fast == 0 && delay > 0) || fast < delay)
  {
  }
}
