// The interstitial page: a countdown that can be paused, left and come back to.
module Countdown {
  import opened Common

  type TimerId = nat

  // pending: the browser's timers and when they are due; spent, navigations and restores are
  // the history of the page. Times are in milliseconds.
  datatype State = State(duration: real, remaining: real, startedAt: real, paused: bool, leaving: bool,
                         timer: Option<TimerId>, now: real, pending: map<TimerId, real>, next: TimerId,
                         spent: real, navigations: nat, restores: nat)

  datatype Label =
    | Pass(ms: real)
    | Fire(id: TimerId)
    | Click
    | PageHide
    | PageShow(persisted: bool)

  const FRAME := 50.0

  function Min(a: real, b: real): real {
    if a < b then a else b
  }

  function Max0(a: real): real {
    if a < 0.0 then 0.0 else a
  }

  function Cleared(s: State): State {
    s.(pending := if s.timer.Some? then Without(s.pending, s.timer.value) else s.pending, timer := None)
  }

  function Updated(s: State): State {
    s.(remaining := Max0(s.remaining - (s.now - s.startedAt)), startedAt := s.now)
  }

  function Armed(s: State, delay: real): State {
    s.(timer := Some(s.next), pending := s.pending[s.next := s.now + delay], next := s.next + 1)
  }

  function Ticked(s: State): State {
    if s.paused || s.leaving then s
    else
      var u := Updated(s);
      if u.remaining <= 0.0 then Cleared(u.(leaving := true)).(navigations := u.navigations + 1)
      else Armed(u, Min(FRAME, u.remaining))
  }

  function Halted(s: State): State {
    var u := if !s.paused && !s.leaving then Updated(s) else s;
    Cleared(u.(paused := true))
  }

  function Resumed(s: State): State {
    if s.leaving then s else Ticked(s.(paused := false, startedAt := s.now))
  }

  function Loaded(seconds: nat): State {
    var d := 1000.0 * seconds as real;
    Ticked(State(d, d, 0.0, false, false, None, 0.0, map[], 0, 0.0, 0, 0))
  }

  predicate Enabled(s: State, l: Label) {
    match l
    case Pass(ms) => ms >= 0.0
    case Fire(id) => id in s.pending && s.pending[id] <= s.now
    case _ => true
  }

  predicate Running(s: State) {
    !s.paused && !s.leaving
  }

  function Apply(s: State, l: Label): State {
    match l
    case Pass(ms) => s.(now := s.now + ms, spent := if Running(s) then s.spent + ms else s.spent)
    case Fire(id) => Ticked(s.(pending := Without(s.pending, id)))
    case Click => if s.paused then Resumed(s) else Halted(s)
    case PageHide => Halted(s)
    case PageShow(persisted) =>
      if persisted then Halted(s.(leaving := false, restores := s.restores + 1)) else s
  }

  function Run(s: State, run: seq<Label>): State
    decreases |run|
  {
    if run == [] then s else Run(if Enabled(s, run[0]) then Apply(s, run[0]) else s, run[1..])
  }

  // What the page would show if it were redrawn now.
  function Left(s: State): real {
    if Running(s) then Max0(s.remaining - (s.now - s.startedAt)) else s.remaining
  }

  // Never two timers, and one exactly while the countdown runs.
  predicate OneTimer(s: State) {
    && (forall id <- s.pending :: id < s.next)
    && if Running(s) then s.timer.Some? && s.pending == map[s.timer.value := s.startedAt + Min(FRAME, s.remaining)]
       else s.pending == map[]
  }

  predicate Inv(s: State) {
    && OneTimer(s) && s.startedAt <= s.now && 0.0 <= s.remaining
    && Left(s) == Max0(s.duration - s.spent)
    && (s.leaving ==> s.remaining == 0.0)
    && s.navigations <= s.restores + if s.leaving then 1 else 0
  }

  lemma StepKeeps(s: State, l: Label)
    requires Inv(s) && Enabled(s, l)
    ensures var s' := Apply(s, l);
      && Inv(s') && s'.duration == s.duration
      && s.navigations <= s'.navigations <= s.navigations + 1
      && (s'.navigations > s.navigations ==> s.spent >= s.duration)
  {
  }

  lemma LoadedHolds(seconds: nat)
    requires seconds > 0
    ensures Inv(Loaded(seconds)) && Running(Loaded(seconds))
  {
  }

  lemma {:induction false} RunKeeps(s: State, run: seq<Label>)
    requires Inv(s)
    ensures var s' := Run(s, run);
      Inv(s') && s'.duration == s.duration && (s'.navigations > s.navigations ==> s'.spent >= s.duration)
    ensures Run(s, run).navigations >= s.navigations && Run(s, run).spent >= s.spent
    decreases |run|
  {
    if run != [] {
      if Enabled(s, run[0]) {
        StepKeeps(s, run[0]);
        RunKeeps(Apply(s, run[0]), run[1..]);
      } else {
        RunKeeps(s, run[1..]);
      }
    }
  }

  // Whatever the visitor and the browser do: a timer is pending exactly while the page is neither
  // paused nor leaving, and only one; what is left is the duration less the time spent unpaused;
  // the page moves on by itself only when that has reached the duration, and at most once more
  // than it has been restored.
  lemma CountdownIsExact(seconds: nat, run: seq<Label>)
    requires 0 < seconds <= 60
    ensures var s := Run(Loaded(seconds), run);
      && (if Running(s) then |s.pending| == 1 && s.timer.Some? && s.timer.value in s.pending else s.pending == map[])
      && Left(s) == Max0(1000.0 * seconds as real - s.spent)
      && (s.navigations > 0 ==> s.spent >= 1000.0 * seconds as real)
      && s.navigations <= s.restores + 1
  {
    LoadedHolds(seconds);
    RunKeeps(Loaded(seconds), run);
  }

  // What each event does to the page.
  lemma EventsMove(s: State)
    requires Inv(s)
    // The button pauses a running page, and lets a paused one that is not leaving go on.
    ensures !s.paused ==> Apply(s, Click).paused && Apply(s, Click).pending == map[]
    ensures s.paused && !s.leaving && s.remaining > 0.0 ==>
              var m := Apply(s, Click);
              && Running(m) && m.remaining == s.remaining && m.startedAt == s.now && m.timer.Some?
              && m.pending == map[m.timer.value := s.now + if s.remaining < 50.0 then s.remaining else 50.0]
    ensures s.paused && !s.leaving && s.remaining == 0.0 ==>
              Apply(s, Click).leaving && Apply(s, Click).navigations == s.navigations + 1
    ensures s.paused && s.leaving ==> Apply(s, Click) == s
    // Leaving the page pauses it, and coming back to it stops it from leaving.
    ensures Apply(s, PageHide).paused && Apply(s, PageHide).leaving == s.leaving
    ensures Apply(s, PageShow(true)).paused && !Apply(s, PageShow(true)).leaving
    ensures Apply(s, PageShow(true)).restores == s.restores + 1 && Apply(s, PageShow(false)) == s
    // Only time that passes while it runs is spent.
    ensures forall ms: real :: Apply(s, Pass(ms)) ==
              s.(now := s.now + ms, spent := if !s.paused && !s.leaving then s.spent + ms else s.spent)
  {
  }

  // ---- left to itself ----

  function OneFrame(s: State): seq<Label>
    requires s.timer.Some? && s.timer.value in s.pending
  {
    [Pass(s.pending[s.timer.value] - s.now), Fire(s.timer.value)]
  }

  lemma FrameRuns(s: State, rest: seq<Label>)
    requires Inv(s) && Running(s) && s.now == s.startedAt && s.remaining > 0.0
    ensures var passed := s.(now := s.now + Min(FRAME, s.remaining), spent := s.spent + Min(FRAME, s.remaining));
      var fired := Apply(passed, Fire(s.timer.value));
      && Run(s, OneFrame(s) + rest) == Run(fired, rest)
      && fired.now == fired.startedAt == passed.now && fired.remaining == s.remaining - Min(FRAME, s.remaining)
      && Inv(fired) && fired.leaving == (fired.remaining == 0.0) && !fired.paused
  {
    var passed := Apply(s, Pass(Min(FRAME, s.remaining)));
    StepKeeps(s, Pass(Min(FRAME, s.remaining)));
    StepKeeps(passed, Fire(s.timer.value));
    var run := OneFrame(s) + rest;
    assert run[1..] == [Fire(s.timer.value)] + rest;
    assert run[1..][1..] == rest;
  }

  // A page nobody touches, in a browser whose timers fire when due, leaves exactly on time.
  lemma {:induction false} Undisturbed(s: State) returns (run: seq<Label>)
    requires Inv(s) && Running(s) && s.now == s.startedAt && s.remaining > 0.0
    ensures var s' := Run(s, run); s'.leaving && s'.now == s.now + s.remaining
    ensures forall l <- run :: l.Pass? || l.Fire?
    decreases (s.remaining / FRAME).Floor
  {
    FrameRuns(s, []);
    var passed := s.(now := s.now + Min(FRAME, s.remaining), spent := s.spent + Min(FRAME, s.remaining));
    var fired := Apply(passed, Fire(s.timer.value));
    if fired.leaving {
      run := OneFrame(s) + [];
    } else {
      var rest := Undisturbed(fired);
      FrameRuns(s, rest);
      run := OneFrame(s) + rest;
    }
  }
}
