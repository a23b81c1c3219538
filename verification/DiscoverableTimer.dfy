/**
 The timer that ends the time the adapter is discoverable: one tick a second while it runs, and a
 setting other processes read that is written when it is set and when it has run out.
 */
module DiscoverableTimer {

  datatype TimerState = TimerState(running: bool, timeout: int, visible: int)

  function AfterSet(s: TimerState, timeout: int): TimerState {
    TimerState(timeout > 0, timeout, timeout)
  }

  function AfterTick(s: TimerState): TimerState {
    if !s.running then s
    else if s.timeout - 1 <= 0 then TimerState(false, s.timeout - 1, 0)
    else s.(timeout := s.timeout - 1)
  }

  function AfterTicks(s: TimerState, n: nat): TimerState {
    if n == 0 then s else AfterTick(AfterTicks(s, n - 1))
  }

  class Timer {
    var running: bool
    var timeout: int
    var visible: int

    function State(): TimerState
      reads this
    {
      TimerState(running, timeout, visible)
    }

    method Set(seconds: int)
      modifies this
      ensures State() == AfterSet(old(State()), seconds)
    {
      if running {
        running := false;
      }
      timeout := seconds;
      visible := seconds;
      if seconds <= 0 {
        return;
      }
      running := true;
    }

    /** One second; the source of the ticks is gone once this returns false. */
    method Tick() returns (again: bool)
      requires running
      modifies this
      ensures State() == AfterTick(old(State()))
      ensures again == running
    {
      timeout := timeout - 1;
      if timeout <= 0 {
        running, visible := false, 0;
        return false;
      }
      return true;
    }
  }

  /** Set to `n` seconds, the timer ticks exactly `n` times: until then the setting holds `n` and what
      remains is what is left of it, from then on both are zero. */
  lemma {:induction false} TicksExactly(s: TimerState, n: int, k: nat)
    ensures var t := AfterTicks(AfterSet(s, n), k);
            if n <= 0 then t == TimerState(false, n, n)
            else if k < n then t == TimerState(true, n - k, n)
            else t == TimerState(false, 0, 0)
  {
    if k > 0 {
      TicksExactly(s, n, k - 1);
    }
  }
}
