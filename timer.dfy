/** The stopwatch of src/core/timer.rs. The wall clock (`Utc::now()`) is the
    `now` parameter, in milliseconds; the start instant is a clock reading. */
module Timing {
  import opened Base

  datatype TimerState = NotStarted | Running | Paused | Ended

  /** The value of a timer: its state, the instant the current running
      interval began, and the time accumulated before that interval. */
  datatype TimerView = TimerView(state: TimerState, startTime: Option<int>, elapsed: int) {

    /** The start instant is present exactly while the timer runs. */
    ghost predicate Valid() {
      startTime.Some? <==> state == Running
    }

    /** `current_time`: while running, the accumulated time plus the current
        interval; otherwise the accumulated time. */
    function CurrentTime(now: int): int {
      match state
      case Running => if startTime.Some? then now - startTime.value + elapsed else elapsed
      case _ => elapsed
    }

    /** `pause`: with a start instant, fold the running interval into
        `elapsed`, drop the start and pause; without one, nothing happens. */
    function Pause(now: int): (v: TimerView)
      ensures Valid() ==> v.Valid()
      ensures Valid() ==> v.CurrentTime(now) == CurrentTime(now)
      ensures v.startTime.None?
    {
      match startTime
      case Some(start) => TimerView(Paused, None, now - start + elapsed)
      case None => this
    }

    /** `start`: begin a running interval at `now`, keeping `elapsed`. */
    function Resume(now: int): (v: TimerView)
      ensures v.Valid() && v.state == Running
      ensures v.CurrentTime(now) == elapsed
    {
      TimerView(Running, Some(now), elapsed)
    }
  }

  /** `Timer::new()` and the outcome of `reset()`. */
  const Stopped: TimerView := TimerView(NotStarted, None, 0)

  /** `start_with_offset`: running, with the start instant `offset` before
      `now` and nothing accumulated. */
  function StartedWithOffset(offset: int, now: int): (v: TimerView)
    ensures v.Valid() && v.state == Running && v.elapsed == 0
    ensures v.CurrentTime(now) == offset
  {
    TimerView(Running, Some(now - offset), 0)
  }

  /** Pausing twice is pausing once: the second pause finds no start instant. */
  lemma PauseIdempotent(v: TimerView, t1: int, t2: int)
    ensures v.Pause(t1).Pause(t2) == v.Pause(t1)
  {
  }

  /** `current_time` is `elapsed` in every state but Running. */
  lemma FrozenUnlessRunning(v: TimerView, now: int)
    requires v.state != Running
    ensures v.CurrentTime(now) == v.elapsed
  {
  }

  /** While running, `current_time` never decreases as the clock advances,
      and it advances exactly as the clock does. */
  lemma CurrentTimeMonotone(v: TimerView, t1: int, t2: int)
    requires t1 <= t2
    ensures v.CurrentTime(t1) <= v.CurrentTime(t2)
    ensures v.Valid() && v.state == Running ==> v.CurrentTime(t2) - v.CurrentTime(t1) == t2 - t1
  {
  }

  /** Pausing and later resuming continues from the paused value: the
      time spent paused is not counted. */
  lemma PauseResumeContinues(v: TimerView, tPause: int, tResume: int, t: int)
    requires v.Valid() && v.state == Running && tResume <= t
    ensures v.Pause(tPause).Resume(tResume).CurrentTime(t) == v.CurrentTime(tPause) + (t - tResume)
  {
  }

  class Timer {
    var state: TimerState
    var startTime: Option<int>
    var elapsed: int

    function View(): TimerView
      reads this
    {
      TimerView(state, startTime, elapsed)
    }

    ghost predicate Valid()
      reads this
    {
      View().Valid()
    }

    constructor ()
      ensures View() == Stopped && Valid()
    {
      state := NotStarted;
      startTime := None;
      elapsed := 0;
    }

    method StartWithOffset(offsetMillis: int, now: int)
      modifies this
      ensures View() == StartedWithOffset(offsetMillis, now) && Valid()
      ensures CurrentTime(now) == offsetMillis
    {
      startTime := Some(now - offsetMillis);
      elapsed := 0;
      state := Running;
    }

    method Start(now: int)
      modifies this
      ensures View() == old(View()).Resume(now) && Valid()
      ensures elapsed == old(elapsed) && CurrentTime(now) == old(elapsed)
    {
      startTime := Some(now);
      state := Running;
    }

    method Pause(now: int)
      modifies this
      ensures View() == old(View()).Pause(now)
      ensures old(startTime).None? ==> View() == old(View())
      ensures old(Valid()) ==> Valid() && CurrentTime(now) == old(CurrentTime(now))
    {
      if startTime.Some? {
        var start := startTime.value;
        elapsed := now - start + elapsed;
        startTime := None;
        state := Paused;
      }
    }

    method Reset()
      modifies this
      ensures View() == Stopped && Valid()
    {
      startTime := None;
      elapsed := 0;
      state := NotStarted;
    }

    function CurrentTime(now: int): int
      reads this
    {
      View().CurrentTime(now)
    }

    predicate IsRunning()
      reads this
      ensures Valid() ==> (IsRunning() <==> startTime.Some?)
    {
      state == Running
    }

    predicate IsPaused()
      reads this
      ensures Valid() && IsPaused() ==> startTime.None?
    {
      state == Paused
    }

    predicate IsEnded()
      reads this
      ensures Valid() && IsEnded() ==> startTime.None?
    {
      state == Ended
    }
  }
}
