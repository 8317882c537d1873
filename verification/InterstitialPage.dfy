// The page script: the handlers as they update their variables and the browser's timers.
module InterstitialPage {
  import opened Common
  import opened Countdown

  class Page {
    const duration: real
    var remaining: real
    var startedAt: real
    var paused: bool
    var leaving: bool
    var timer: Option<TimerId>

    // The browser: its clock, its timers, and what has happened to the page.
    var now: real
    var pending: map<TimerId, real>
    var next: TimerId
    ghost var spent: real
    ghost var navigations: nat
    ghost var restores: nat

    ghost function Script(): State
      reads this
    {
      State(duration, remaining, startedAt, paused, leaving, timer, now, pending, next, spent, navigations, restores)
    }

    constructor (seconds: nat)
      requires 0 < seconds <= 60
      ensures Script() == Loaded(seconds) && Inv(Script())
    {
      duration := 1000.0 * seconds as real;
      remaining, startedAt, paused, leaving, timer := 1000.0 * seconds as real, 0.0, false, false, None;
      now, pending, next, spent, navigations, restores := 0.0, map[], 0, 0.0, 0, 0;
      new;
      Tick();
      LoadedHolds(seconds);
    }

    method ClearTimer()
      modifies this`pending, this`timer
      ensures Script() == Cleared(old(Script()))
    {
      if timer.Some? {
        pending := Without(pending, timer.value);
      }
      timer := None;
    }

    method SetTimeout(delay: real)
      modifies this`pending, this`timer, this`next
      ensures Script() == Armed(old(Script()), delay)
    {
      timer, pending, next := Some(next), pending[next := now + delay], next + 1;
    }

    method UpdateRemaining()
      modifies this`remaining, this`startedAt
      ensures Script() == Updated(old(Script()))
    {
      remaining := Max0(remaining - (now - startedAt));
      startedAt := now;
    }

    method Tick()
      modifies this
      ensures Script() == Ticked(old(Script()))
    {
      if paused || leaving {
        return;
      }
      UpdateRemaining();
      if remaining <= 0.0 {
        leaving := true;
        ClearTimer();
        navigations := navigations + 1;
        return;
      }
      SetTimeout(Min(FRAME, remaining));
    }

    method Pause()
      modifies this
      ensures Script() == Halted(old(Script()))
    {
      if !paused && !leaving {
        UpdateRemaining();
      }
      paused := true;
      ClearTimer();
    }

    method Resume()
      modifies this
      ensures Script() == Resumed(old(Script()))
    {
      if leaving {
        return;
      }
      paused := false;
      startedAt := now;
      Tick();
    }

    // One event, handled to its end.
    method Handle(l: Label)
      requires Inv(Script()) && Enabled(Script(), l)
      modifies this
      ensures Script() == Apply(old(Script()), l) && Inv(Script())
      ensures navigations > old(navigations) ==> old(spent) >= duration
    {
      StepKeeps(Script(), l);
      match l
      case Pass(ms) =>
        spent := if !paused && !leaving then spent + ms else spent;
        now := now + ms;
      case Fire(id) =>
        pending := Without(pending, id);
        Tick();
      case Click =>
        if paused {
          Resume();
        } else {
          Pause();
        }
      case PageHide => Pause();
      case PageShow(persisted) =>
        if persisted {
          restores := restores + 1;
          leaving := false;
          Pause();
        }
    }
  }
}
