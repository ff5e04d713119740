/** RefreshScheduler: a running flag, a refresh interval in milliseconds
    and a timer, abstracted to whether it is armed. The timer thread and the
    callback it runs are not modelled. */
module Scheduler {

  const DefaultInterval := 30000
  /** `setInterval` refuses anything shorter. */
  const MinInterval := 5000

  /** The scheduler's fields as a value: whether the timer is armed
      (`timer != null`), the interval, and `isRunning`. */
  datatype SchedulerState = SchedulerState(timerArmed: bool, interval: int, running: bool)

  /** The intended invariant: the timer is armed exactly while running. */
  predicate Consistent(s: SchedulerState)
  {
    s.timerArmed == s.running
  }

  /** How a call of `start` ends: with a return value, or with the
      `IllegalArgumentException` that `Timer.scheduleAtFixedRate` throws
      for a period that is not positive. */
  datatype StartResult = Returned(started: bool) | Threw

  /** `start` as written: the timer field is assigned before scheduling,
      so when scheduling throws the timer stays armed while the scheduler
      is not running. */
  function StartAsWritten(s: SchedulerState): (StartResult, SchedulerState)
  {
    if s.running then (Returned(false), s)
    else if s.interval <= 0 then (Threw, s.(timerArmed := true))
    else (Returned(true), s.(timerArmed := true, running := true))
  }

  /** `start` with the timer kept only once scheduling succeeded: a
      rejected interval throws and leaves the state as it was. */
  function StartStep(s: SchedulerState): (StartResult, SchedulerState)
  {
    if s.running then (Returned(false), s)
    else if s.interval <= 0 then (Threw, s)
    else (Returned(true), s.(timerArmed := true, running := true))
  }

  /** `stop`: refuses when not running, else cancels the timer. */
  function StopStep(s: SchedulerState): (bool, SchedulerState)
  {
    if !s.running then (false, s)
    else (true, s.(timerArmed := false, running := false))
  }

  /** `setInterval`: refuses anything under the minimum; otherwise stores
      the interval and, when running, restarts. */
  function SetIntervalStep(s: SchedulerState, ms: int): (bool, SchedulerState)
  {
    if ms < MinInterval then (false, s)
    else
      var t := s.(interval := ms);
      if t.running then (true, StartStep(StopStep(t).1).1) else (true, t)
  }

  /** With a zero interval (the constructor accepts any), `start` as
      written leaves an armed timer on a scheduler that is not running,
      and `stop` then refuses, so that timer is never cancelled. */
  lemma StartAsWrittenLeaksTimer()
    ensures var s := SchedulerState(false, 0, false);
      Consistent(s) && StartAsWritten(s).0 == Threw
      && !Consistent(StartAsWritten(s).1)
      && StopStep(StartAsWritten(s).1) == (false, StartAsWritten(s).1)
  {
  }

  /** `start` and `start` as written agree except on a rejected interval. */
  lemma StartAgreesOnPositiveIntervals(s: SchedulerState)
    requires s.interval > 0
    ensures StartStep(s) == StartAsWritten(s)
  {
  }

  /** Every operation keeps the timer armed exactly while running. */
  lemma OperationsKeepConsistent(s: SchedulerState, ms: int)
    requires Consistent(s)
    ensures Consistent(StartStep(s).1) && Consistent(StopStep(s).1) && Consistent(SetIntervalStep(s, ms).1)
  {
  }

  /** `start` refuses while running; otherwise it starts exactly when the
      interval is positive. */
  lemma StartSpec(s: SchedulerState)
    ensures s.running ==> StartStep(s) == (Returned(false), s)
    ensures !s.running && s.interval > 0 ==>
      StartStep(s).0 == Returned(true) && StartStep(s).1.running && StartStep(s).1.timerArmed
      && StartStep(s).1.interval == s.interval
  {
  }

  /** `setInterval` under the minimum changes nothing; at or over it, it
      stores the interval and leaves the running flag as it was. */
  lemma SetIntervalSpec(s: SchedulerState, ms: int)
    requires Consistent(s)
    ensures ms < MinInterval ==> SetIntervalStep(s, ms) == (false, s)
    ensures ms >= MinInterval ==>
      SetIntervalStep(s, ms) == (true, SchedulerState(s.running, ms, s.running))
  {
  }

  class RefreshScheduler {
    var timerArmed: bool
    var interval: int
    var running: bool

    function State(): SchedulerState
      reads this
    {
      SchedulerState(timerArmed, interval, running)
    }

    ghost predicate Valid()
      reads this
    {
      Consistent(State())
    }

    /** Not running; the interval is taken as given, without the minimum. */
    constructor (interval: int)
      ensures State() == SchedulerState(false, interval, false) && Valid()
    {
      timerArmed := false;
      this.interval := interval;
      running := false;
    }

    constructor Default()
      ensures State() == SchedulerState(false, DefaultInterval, false) && Valid()
    {
      timerArmed := false;
      interval := DefaultInterval;
      running := false;
    }

    method Start() returns (r: StartResult)
      requires Valid()
      modifies this
      ensures Valid()
      ensures (r, State()) == StartStep(old(State()))
    {
      if running {
        return Returned(false);
      }
      if interval <= 0 {
        return Threw;
      }
      timerArmed := true;
      running := true;
      return Returned(true);
    }

    method Stop() returns (r: bool)
      requires Valid()
      modifies this
      ensures Valid()
      ensures (r, State()) == StopStep(old(State()))
    {
      if !running {
        return false;
      }
      if timerArmed {
        timerArmed := false;
      }
      running := false;
      return true;
    }

    method SetInterval(ms: int) returns (r: bool)
      requires Valid()
      modifies this
      ensures Valid()
      ensures (r, State()) == SetIntervalStep(old(State()), ms)
    {
      if ms < MinInterval {
        return false;
      }
      interval := ms;
      if running {
        var stopped := Stop();
        var started := Start();
      }
      return true;
    }

    method GetInterval() returns (r: int)
      ensures r == interval
    {
      r := interval;
    }

    method IsRunning() returns (r: bool)
      ensures r == running
    {
      r := running;
    }
  }
}
