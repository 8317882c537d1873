// A fixed-window limit on one client: a shared counter that expires, and the requests it lets in.
module RateLimit {
  import opened Common

  type Millis = int

  // The counter in Redis; it has no expiry until the EXPIRE of its first request arrives.
  datatype Key = Key(count: nat, expires: Option<Millis>)

  // For the record, one lifetime of the key: its start, the largest limit any request in it was
  // held to, and when it let requests in.
  datatype Life = Life(start: Millis, cap: nat, times: seq<Millis>)

  // inFlight: EXPIRE commands sent and neither arrived nor lost.
  datatype State = State(now: Millis, key: Option<Key>, inFlight: nat, lives: seq<Life>)

  datatype Label =
    | Wait(ms: nat)
    | Incr(limit: nat)  // one request, with the limit in force as it comes in
    | Arrive            // its EXPIRE, however late
    | Lose

  // A limit of zero switches the bucket off.
  predicate Enabled(s: State, l: Label) {
    && (l.Incr? ==> l.limit > 0)
    && (l.Arrive? || l.Lose? ==> s.inFlight > 0)
  }

  function Expired(s: State): State {
    if s.key.Some? && s.key.value.expires.Some? && s.key.value.expires.value <= s.now then s.(key := None) else s
  }

  // INCR on a missing key makes it 1 and begins a lifetime.
  function Counted(s: State): State {
    match s.key
    case None => s.(key := Some(Key(1, None)), lives := s.lives + [Life(s.now, 0, [])])
    case Some(k) => s.(key := Some(k.(count := k.count + 1)))
  }

  function Noted(life: Life, now: Millis, count: nat, limit: nat): Life {
    life.(cap := if life.cap < limit then limit else life.cap,
          times := if count <= limit then life.times + [now] else life.times)
  }

  // Only the request that finds the counter at 1 sends an EXPIRE.
  function Request(s: State, limit: nat): State {
    var m := Counted(s);
    var count, last := m.key.value.count, |m.lives| - 1;
    m.(inFlight := if count == 1 then m.inFlight + 1 else m.inFlight,
       lives := if last < 0 then m.lives else m.lives[last := Noted(m.lives[last], s.now, count, limit)])
  }

  function Apply(s: State, l: Label, window: nat): State
    requires Enabled(s, l)
  {
    match l
    case Wait(ms) => Expired(s.(now := s.now + ms))
    case Incr(limit) => Request(s, limit)
    case Arrive =>
      var key := if s.key.Some? then Some(s.key.value.(expires := Some(s.now + window))) else None;
      s.(inFlight := s.inFlight - 1, key := key)
    case Lose => s.(inFlight := s.inFlight - 1)
  }

  const INIT := State(0, None, 0, [])

  function Run(s: State, run: seq<Label>, window: nat): State
    decreases |run|
  {
    if run == [] then s
    else Run(if Enabled(s, run[0]) then Apply(s, run[0], window) else s, run[1..], window)
  }

  // ---- what must hold ----

  ghost predicate LifeHolds(s: State, i: nat, window: nat)
    requires i < |s.lives|
  {
    var life := s.lives[i];
    && life.start <= s.now && |life.times| <= life.cap
    && (forall t <- life.times :: life.start <= t <= s.now)
    && (i + 1 < |s.lives| ==> life.start + window <= s.lives[i + 1].start)
    && (i + 1 < |s.lives| ==> forall t <- life.times :: t <= s.lives[i + 1].start)
  }

  // A key lives at least a window, and no new life begins before the old one has ended.
  ghost predicate KeyHolds(s: State, window: nat) {
    match s.key
    case None => s.lives != [] ==> s.lives[|s.lives| - 1].start + window <= s.now
    case Some(k) =>
      && s.lives != [] && k.count > 0 && |s.lives[|s.lives| - 1].times| <= k.count
      && (k.expires.Some? ==> s.now < k.expires.value && s.lives[|s.lives| - 1].start + window <= k.expires.value)
  }

  ghost predicate Inv(s: State, window: nat) {
    && KeyHolds(s, window)
    && (forall i: nat | i < |s.lives| :: LifeHolds(s, i, window))
    && s.inFlight <= 1 && (s.inFlight == 1 ==> s.key.Some? && s.key.value.expires == None)
  }

  lemma RequestKeeps(s: State, limit: nat, window: nat)
    requires Inv(s, window) && limit > 0 && window > 0
    ensures Inv(Request(s, limit), window)
  {
    var s' := Request(s, limit);
    forall i: nat | i < |s'.lives|
      ensures LifeHolds(s', i, window)
    {
      if i < |s.lives| {
        assert LifeHolds(s, i, window);
      }
    }
  }

  lemma StepKeeps(s: State, l: Label, window: nat)
    requires Inv(s, window) && Enabled(s, l) && window > 0
    ensures Inv(Apply(s, l, window), window)
  {
    var s' := Apply(s, l, window);
    if l.Incr? {
      RequestKeeps(s, l.limit, window);
    } else {
      assert s.lives != [] ==> LifeHolds(s, |s.lives| - 1, window);
      forall i: nat | i < |s'.lives|
        ensures LifeHolds(s', i, window)
      {
        assert LifeHolds(s, i, window);
      }
    }
  }

  // No request was held to more than top.
  predicate Capped(lives: seq<Life>, top: nat) {
    forall i :: 0 <= i < |lives| ==> lives[i].cap <= top
  }

  predicate LimitsWithin(run: seq<Label>, top: nat) {
    forall i :: 0 <= i < |run| && run[i].Incr? ==> run[i].limit <= top
  }

  lemma {:induction false} RunKeeps(s: State, run: seq<Label>, top: nat, window: nat)
    requires Inv(s, window) && window > 0 && Capped(s.lives, top) && LimitsWithin(run, top)
    ensures Inv(Run(s, run, window), window) && Capped(Run(s, run, window).lives, top)
    decreases |run|
  {
    if run != [] {
      assert LimitsWithin(run[1..], top);
      if Enabled(s, run[0]) {
        assert run[0].Incr? ==> run[0].limit <= top;
        StepKeeps(s, run[0], window);
        RunKeeps(Apply(s, run[0], window), run[1..], top, window);
      } else {
        RunKeeps(s, run[1..], top, window);
      }
    }
  }

  // ---- the bound ----

  // How many of the instants fall in [from, from + window).
  function Within(times: seq<Millis>, from: Millis, window: nat): (n: nat)
    ensures n <= |times|
  {
    if times == [] then 0
    else
      var t := times[|times| - 1];
      Within(times[..|times| - 1], from, window) + if from <= t < from + window then 1 else 0
  }

  lemma {:induction false} WithinHits(times: seq<Millis>, from: Millis, window: nat)
    requires Within(times, from, window) > 0
    ensures exists t :: t in times && from <= t < from + window
  {
    var last := times[|times| - 1];
    if from <= last < from + window {
      assert last in times;
    } else {
      WithinHits(times[..|times| - 1], from, window);
      var t :| t in times[..|times| - 1] && from <= t < from + window;
      assert t in times;
    }
  }

  function AdmittedWithin(lives: seq<Life>, from: Millis, window: nat): nat {
    if lives == [] then 0
    else AdmittedWithin(lives[..|lives| - 1], from, window) + Within(lives[|lives| - 1].times, from, window)
  }

  // Two lifetimes apart is more than a window apart.
  lemma {:induction false} StartsSpread(s: State, i: nat, j: nat, window: nat)
    requires Inv(s, window) && i < j < |s.lives|
    ensures s.lives[i].start + window <= s.lives[j].start
    decreases j
  {
    assert LifeHolds(s, j - 1, window);
    if i < j - 1 {
      StartsSpread(s, i, j - 1, window);
    }
  }

  lemma NotBoth(s: State, i: nat, j: nat, from: Millis, window: nat)
    requires Inv(s, window) && i + 2 <= j < |s.lives|
    ensures Within(s.lives[i].times, from, window) == 0 || Within(s.lives[j].times, from, window) == 0
  {
    StartsSpread(s, i + 1, j, window);
    assert LifeHolds(s, i, window) && LifeHolds(s, j, window);
    if Within(s.lives[i].times, from, window) > 0 && Within(s.lives[j].times, from, window) > 0 {
      WithinHits(s.lives[i].times, from, window);
      WithinHits(s.lives[j].times, from, window);
      assert false;
    }
  }

  lemma {:induction false} NoneBefore(s: State, n: nat, j: nat, from: Millis, window: nat)
    requires Inv(s, window) && n < j < |s.lives| && Within(s.lives[j].times, from, window) > 0
    ensures AdmittedWithin(s.lives[..n], from, window) == 0
    decreases n
  {
    if n > 0 {
      assert s.lives[..n][..n - 1] == s.lives[..n - 1];
      NoneBefore(s, n - 1, j, from, window);
      NotBoth(s, n - 1, j, from, window);
    }
  }

  lemma {:induction false} TwoLifetimesAtMost(s: State, n: nat, from: Millis, top: nat, window: nat)
    requires Inv(s, window) && Capped(s.lives, top) && n <= |s.lives|
    ensures AdmittedWithin(s.lives[..n], from, window) <= 2 * top
    decreases n
  {
    if n > 0 {
      assert s.lives[..n][..n - 1] == s.lives[..n - 1];
      TwoLifetimesAtMost(s, n - 1, from, top, window);
      assert LifeHolds(s, n - 1, window);
      if n > 1 && Within(s.lives[n - 1].times, from, window) > 0 {
        assert s.lives[..n - 1][..n - 2] == s.lives[..n - 2];
        NoneBefore(s, n - 2, n - 1, from, window);
        assert LifeHolds(s, n - 2, window);
      }
    }
  }

  // However late the EXPIREs arrive, even when they get lost, and however the limit is changed in
  // between: a lifetime of the key lets in at most the largest limit used in it, and any window at
  // most twice the largest limit used at all.
  lemma AdmissionsAreBounded(run: seq<Label>, from: Millis, top: nat, window: nat)
    requires window > 0 && LimitsWithin(run, top)
    ensures var s := Run(INIT, run, window);
      && (forall i :: 0 <= i < |s.lives| ==> |s.lives[i].times| <= s.lives[i].cap <= top)
      && AdmittedWithin(s.lives, from, window) <= 2 * top
  {
    RunKeeps(INIT, run, top, window);
    var s := Run(INIT, run, window);
    forall i | 0 <= i < |s.lives|
      ensures |s.lives[i].times| <= s.lives[i].cap
    {
      assert LifeHolds(s, i, window);
    }
    TwoLifetimesAtMost(s, |s.lives|, from, top, window);
    assert s.lives[..|s.lives|] == s.lives;
  }

  lemma {:induction false} KeyEnds(s: State, run: seq<Label>, end: Millis, window: nat)
    requires s.key.Some? && s.key.value.count > 0 && s.key.value.expires == Some(end)
    requires s.inFlight == 0 && s.now < end
    requires Elapsed(run) >= end - s.now
    ensures exists i :: 0 <= i <= |run| && Run(s, run[..i], window).key == None
    decreases |run|
  {
    assert run != [];
    var s' := if Enabled(s, run[0]) then Apply(s, run[0], window) else s;
    assert run[..1] == [run[0]] && Run(s', [], window) == s';
    assert Run(s, run[..1], window) == s';
    if s'.key.Some? {
      KeyEnds(s', run[1..], end, window);
      var i :| 0 <= i <= |run[1..]| && Run(s', run[1..][..i], window).key == None;
      assert run[..i + 1][1..] == run[1..][..i];
    }
  }

  function Elapsed(run: seq<Label>): nat {
    if run == [] then 0 else (if run[0].Wait? then run[0].ms else 0) + Elapsed(run[1..])
  }

  // Time is what the waits add up to.
  lemma {:induction false} ElapsedPasses(s: State, run: seq<Label>, window: nat)
    ensures Run(s, run, window).now == s.now + Elapsed(run)
    decreases |run|
  {
    if run != [] {
      ElapsedPasses(if Enabled(s, run[0]) then Apply(s, run[0], window) else s, run[1..], window);
    }
  }

  // Once its EXPIRE has arrived a key lives for one window and no longer, whatever requests come.
  lemma ArrivedKeyEnds(s: State, run: seq<Label>, window: nat)
    requires Inv(s, window) && window > 0 && s.inFlight == 1 && Elapsed(run) >= window
    ensures exists i :: 0 <= i <= |run| && Run(Apply(s, Arrive, window), run[..i], window).key == None
  {
    KeyEnds(Apply(s, Arrive, window), run, s.now + window, window);
  }

  ghost predicate Stuck(s: State, limit: nat) {
    s.key.Some? && s.key.value.expires == None && s.inFlight == 0 && s.key.value.count >= limit && s.lives != []
  }

  // Every request let in so far.
  function Total(lives: seq<Life>): nat {
    if lives == [] then 0 else Total(lives[..|lives| - 1]) + |lives[|lives| - 1].times|
  }

  lemma {:induction false} StuckStays(s: State, run: seq<Label>, limit: nat, window: nat)
    requires Stuck(s, limit) && LimitsWithin(run, limit)
    ensures Stuck(Run(s, run, window), limit) && Total(Run(s, run, window).lives) == Total(s.lives)
    decreases |run|
  {
    if run != [] {
      assert run[0].Incr? ==> run[0].limit <= limit;
      assert LimitsWithin(run[1..], limit);
      var s' := if Enabled(s, run[0]) then Apply(s, run[0], window) else s;
      assert s'.lives[..|s'.lives| - 1] == s.lives[..|s.lives| - 1];
      StuckStays(s', run[1..], limit, window);
    }
  }

  // The price of a lost EXPIRE: the key never ends, and a client at its limit is never let in again
  // unless the limit is raised.
  lemma LostExpiryShutsOut(s: State, run: seq<Label>, limit: nat, window: nat)
    requires Inv(s, window) && s.inFlight > 0 && s.key.value.count >= limit && LimitsWithin(run, limit)
    ensures var after := Run(Apply(s, Lose, window), run, window);
      && Total(after.lives) == Total(s.lives)
      && after.key.Some? && after.key.value.expires == None && after.key.value.count >= limit
  {
    StuckStays(Apply(s, Lose, window), run, limit, window);
  }

  // ---- one request ----

  datatype Response =
    | Unlimited                                          // switched off, or the counter is out of reach
    | Served(remaining: nat)
    | TooMany(remaining: nat, retryAfter: int)

  // TTL answers in whole seconds, rounded to the nearest; -1 when the key has no expiry.
  function TtlSeconds(s: State): int {
    if s.key.Some? && s.key.value.expires.Some? then (s.key.value.expires.value - s.now + 500) / 1000 else -1
  }

  // A request adds one to the counter, and to those let in exactly when the counter is within the limit.
  lemma RequestCounts(s: State, limit: nat, window: nat)
    requires Inv(s, window)
    ensures var s' := Request(s, limit);
            var count := 1 + if s.key == None then 0 else s.key.value.count;
      && s'.key.Some? && s'.key.value.count == count && s'.lives != [] && s'.now == s.now
      && Total(s'.lives) == Total(s.lives) + (if count <= limit then 1 else 0)
      && s'.inFlight == s.inFlight + (if count == 1 then 1 else 0)
  {
    var s' := Request(s, limit);
    assert s'.lives[..|s'.lives| - 1] == if s.key == None then s.lives else s.lives[..|s.lives| - 1];
  }

  lemma RequestThenArrive(s: State, limit: nat, window: nat)
    requires limit > 0 && Request(s, limit).inFlight > 0 && Request(s, limit).key.Some?
    ensures var s' := Request(s, limit); var end := Run(s, [Incr(limit), Arrive], window);
      && end == Apply(s', Arrive, window) && end.lives == s'.lives && end.now == s'.now
      && end.key == Some(Key(s'.key.value.count, Some(s'.now + window)))
  {
    var s' := Request(s, limit);
    assert Run(s', [Arrive], window) == Apply(s', Arrive, window);
    assert [Incr(limit), Arrive][1..] == [Arrive];
  }

  // A second more than the reply to TTL, or the window in seconds when the key has no end in sight.
  ghost predicate RetryIs(s: State, window: nat, seconds: int) {
    if s.key.Some? && s.key.value.expires.Some? && s.key.value.expires.value - s.now >= 500
    then seconds == (s.key.value.expires.value - s.now + 500) / 1000 + 1
    else seconds == window / 1000
  }

  class Limiter {
    var counter: State
    const window: nat

    constructor (window: nat)
      requires window > 0
      ensures counter == INIT && this.window == window && Inv(counter, window)
    {
      counter, this.window := INIT, window;
    }

    // enabled and limit are read for this request; reachable: whether INCR gets an answer;
    // prompt: whether EXPIRE arrives at once.
    method DynamicLimit(enabled: bool, limit: int, reachable: bool, prompt: bool) returns (r: Response)
      requires window > 0 && Inv(counter, window)
      modifies this`counter
      ensures Inv(counter, window)
      ensures r.Unlimited? <==> !enabled || limit <= 0 || !reachable
      ensures r.Unlimited? ==> counter == old(counter)
      ensures !r.Unlimited? ==>
        var count := 1 + if old(counter.key) == None then 0 else old(counter.key).value.count;
        && counter == (if count == 1 && prompt then Run(old(counter), [Incr(limit), Arrive], window)
                       else Request(old(counter), limit))
        && (r.Served? <==> count <= limit)
        && counter.key.Some? && counter.key.value.count == count
        && (count == 1 && prompt ==> counter.key.value.expires == Some(counter.now + window))
        && counter.lives != [] && Total(counter.lives) == Total(old(counter).lives) + (if r.Served? then 1 else 0)
        && r.remaining == (if count < limit then limit - count else 0)
        && (r.TooMany? ==> RetryIs(counter, window, r.retryAfter))
        // A client that waits as long as it is told finds the key gone, if the key has an end at all.
        && (r.TooMany? && counter.key.value.expires.Some? && window >= 1000 ==>
              counter.key.value.expires.value <= counter.now + 1000 * r.retryAfter)
    {
      if !enabled || limit <= 0 || !reachable {
        return Unlimited;
      }
      RequestCounts(counter, limit, window);
      StepKeeps(counter, Incr(limit), window);
      counter := Request(counter, limit);
      hide Request, Total;
      var count := counter.key.value.count;
      if count == 1 && prompt {
        RequestThenArrive(old(counter), limit, window);
        StepKeeps(counter, Arrive, window);
        counter := Apply(counter, Arrive, window);
      }
      var remaining := limit - count;
      if remaining < 0 {
        remaining := 0;
      }
      if count > limit {
        var retryAfter := window / 1000;
        var ttl := TtlSeconds(counter);
        if ttl > 0 {
          retryAfter := ttl + 1;
        }
        return TooMany(remaining, retryAfter);
      }
      return Served(remaining);
    }
  }
}
