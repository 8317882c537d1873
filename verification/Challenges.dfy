// Half-sessions waiting for a second factor, and the calls that try to complete them.
//
// A step is one SQL statement of one VerifySecondFactor call, or of a sign-in making a challenge.
module Challenges {
  import opened Common

  type Token = nat  // stands for the hash of the challenge string
  type UserId = nat
  type CallId = nat
  type Instant = int

  const LIMIT := 5

  datatype Challenge = Challenge(user: UserId, attempts: nat, expires: Instant, consumed: bool)

  // How far a call that has claimed its challenge has got.
  datatype Stage = Claimed | Accepted | Consumed
  datatype Call = Call(token: Token, user: UserId, stage: Stage)

  // issued: every token ever drawn; claimed and sessions: what each token was used for so far.
  datatype State = State(challenges: map<Token, Challenge>, calls: map<CallId, Call>, now: Instant,
                         issued: set<Token>, claimed: multiset<Token>, sessions: multiset<Token>)

  datatype Label =
    | Tick(seconds: nat)
    | Sweep
    | Insert(token: Token, user: UserId, expires: Instant)
    | Claim(call: CallId, token: Token)
    | Accept(call: CallId)
    | Consume(call: CallId)
    | Mint(call: CallId)
    | End(call: CallId)

  const INIT := State(map[], map[], 0, {}, multiset{}, multiset{})

  // The WHERE clause of the claiming UPDATE.
  predicate Claimable(s: State, token: Token) {
    && token in s.challenges && s.challenges[token].expires > s.now
    && !s.challenges[token].consumed && s.challenges[token].attempts < LIMIT
  }

  predicate Busy(s: State, token: Token) {
    exists c <- s.calls :: s.calls[c].token == token
  }

  // serial: no call starts on a challenge while another one is on it.
  predicate Enabled(serial: bool, s: State, l: Label) {
    match l
    case Insert(token, _, _) => token !in s.issued
    case Claim(c, token) => c !in s.calls && Claimable(s, token) && (serial ==> !Busy(s, token))
    case Accept(c) => c in s.calls && s.calls[c].stage == Claimed
    case Consume(c) => c in s.calls && s.calls[c].stage == Accepted
    case Mint(c) => c in s.calls && s.calls[c].stage == Consumed
    case End(c) => c in s.calls
    case _ => true
  }

  function Staged(s: State, c: CallId, stage: Stage): State
    requires c in s.calls
  {
    s.(calls := s.calls[c := s.calls[c].(stage := stage)])
  }

  function OneAttempt(rows: map<Token, Challenge>, token: Token): map<Token, Challenge>
    requires token in rows
  {
    rows[token := rows[token].(attempts := rows[token].attempts + 1)]
  }

  function Apply(serial: bool, s: State, l: Label): State
    requires Enabled(serial, s, l)
  {
    match l
    case Tick(seconds) => s.(now := s.now + seconds)
    case Sweep => s.(challenges := map k | k in s.challenges && s.challenges[k].expires >= s.now :: s.challenges[k])
    case Insert(token, user, expires) =>
      s.(challenges := s.challenges[token := Challenge(user, 0, expires, false)], issued := s.issued + {token})
    case Claim(c, token) =>
      s.(challenges := OneAttempt(s.challenges, token),
         calls := s.calls[c := Call(token, s.challenges[token].user, Claimed)], claimed := s.claimed + multiset{token})
    case Accept(c) => Staged(s, c, Accepted)
    case Consume(c) =>
      var token := s.calls[c].token;
      if token in s.challenges
      then Staged(s, c, Consumed).(challenges := s.challenges[token := s.challenges[token].(consumed := true)])
      else Staged(s, c, Consumed)
    case Mint(c) => s.(calls := Without(s.calls, c), sessions := s.sessions + multiset{s.calls[c].token})
    case End(c) => s.(calls := Without(s.calls, c))
  }

  function Run(serial: bool, s: State, run: seq<Label>): State
    decreases |run|
  {
    if run == [] then s
    else Run(serial, if Enabled(serial, s, run[0]) then Apply(serial, s, run[0]) else s, run[1..])
  }

  // ---- attempts ----

  function On(s: State, token: Token): set<CallId> {
    set c | c in s.calls && s.calls[c].token == token
  }

  ghost predicate TokenHolds(s: State, k: Token) {
    && (k in s.challenges ==> s.claimed[k] == s.challenges[k].attempts && k in s.issued)
    && (k !in s.issued ==> s.claimed[k] == 0)
    && s.claimed[k] <= LIMIT
    && s.sessions[k] + |On(s, k)| <= s.claimed[k]
  }

  ghost predicate Inv(s: State) {
    forall k: Token :: TokenHolds(s, k)
  }

  lemma CountWithout<T>(a: set<T>, x: T)
    ensures |a| == |a - {x}| + if x in a then 1 else 0
  {
    if x in a {
      assert a == (a - {x}) + {x};
    } else {
      assert a == a - {x};
    }
  }

  lemma SameBut(s: State, s': State, c: CallId, k: Token)
    requires forall d :: d != c ==> (d in s.calls <==> d in s'.calls) && (d in s.calls ==> s'.calls[d] == s.calls[d])
    ensures On(s, k) - {c} == On(s', k) - {c}
  {
  }

  lemma OnChanges(s: State, s': State, c: CallId, k: Token)
    requires forall d :: d != c ==> (d in s.calls <==> d in s'.calls) && (d in s.calls ==> s'.calls[d] == s.calls[d])
    ensures |On(s', k)| + (if c in On(s, k) then 1 else 0) == |On(s, k)| + (if c in On(s', k) then 1 else 0)
  {
    CountWithout(On(s, k), c);
    CountWithout(On(s', k), c);
    SameBut(s, s', c, k);
  }

  lemma StepKeepsToken(serial: bool, s: State, l: Label, k: Token)
    requires Enabled(serial, s, l) && TokenHolds(s, k)
    ensures TokenHolds(Apply(serial, s, l), k)
  {
    var s' := Apply(serial, s, l);
    if l.Claim? || l.Accept? || l.Consume? || l.Mint? || l.End? {
      OnChanges(s, s', l.call, k);
    } else {
      assert On(s', k) == On(s, k);
    }
  }

  // The challenge can never be claimed again.
  predicate Dead(s: State, k: Token) {
    k in s.issued && (k in s.challenges ==> s.challenges[k].consumed || s.challenges[k].expires <= s.now)
  }

  lemma DeadStays(serial: bool, s: State, l: Label, k: Token)
    requires Enabled(serial, s, l) && Dead(s, k)
    ensures var s' := Apply(serial, s, l); Dead(s', k) && s'.claimed[k] == s.claimed[k]
  {
  }

  lemma {:induction false} RunKeeps(serial: bool, s: State, run: seq<Label>, k: Token)
    requires TokenHolds(s, k)
    ensures var s' := Run(serial, s, run);
      TokenHolds(s', k) && (Dead(s, k) ==> Dead(s', k) && s'.claimed[k] == s.claimed[k])
    decreases |run|
  {
    if run != [] {
      if Enabled(serial, s, run[0]) {
        StepKeepsToken(serial, s, run[0], k);
        if Dead(s, k) {
          DeadStays(serial, s, run[0], k);
        }
        RunKeeps(serial, Apply(serial, s, run[0]), run[1..], k);
      } else {
        RunKeeps(serial, s, run[1..], k);
      }
    }
  }

  // In any interleaving a challenge is claimed at most five times, mints no more sessions than
  // that, and is not claimed again once it is consumed, expired or swept.
  lemma AttemptsAreBounded(early: seq<Label>, late: seq<Label>, k: Token)
    ensures var s := Run(false, INIT, early);
      var s' := Run(false, s, late);
      && s.claimed[k] <= 5 && s.sessions[k] <= s.claimed[k]
      && (k in s.issued && (k in s.challenges ==> s.challenges[k].consumed || s.challenges[k].expires <= s.now) ==>
            s'.claimed[k] == s.claimed[k])
  {
    assert On(INIT, k) == {};
    RunKeeps(false, INIT, early, k);
    RunKeeps(false, Run(false, INIT, early), late, k);
  }

  // Time passes, and the sweep removes what has expired; nothing else changes with either.
  lemma SweptAreExpired(serial: bool, s: State, seconds: nat)
    ensures Run(serial, s, [Tick(seconds)]) == s.(now := s.now + seconds)
    ensures var s' := Run(serial, s, [Sweep]);
      && s' == s.(challenges := s'.challenges)
      && forall k :: k in s'.challenges <==> k in s.challenges && s.challenges[k].expires >= s.now
  {
    var s' := Apply(serial, s, Sweep);
    assert Run(serial, s, [Sweep]) == Run(serial, s', []) == s';
    var later := s.(now := s.now + seconds);
    assert Run(serial, s, [Tick(seconds)]) == Run(serial, later, []) == later;
  }

  lemma {:induction false} TimePasses(serial: bool, s: State, run: seq<Label>)
    ensures Run(serial, s, run).now >= s.now
    decreases |run|
  {
    if run != [] {
      TimePasses(serial, if Enabled(serial, s, run[0]) then Apply(serial, s, run[0]) else s, run[1..]);
    }
  }

  // Until it expires a challenge is there for its account, and loses nothing but the attempts that
  // were made on it.
  lemma {:induction false} ChallengesLast(serial: bool, s: State, run: seq<Label>, k: Token)
    requires k in s.challenges && k in s.issued
    ensures var s' := Run(serial, s, run);
      s'.now <= s.challenges[k].expires ==>
        && k in s'.challenges && s'.challenges[k].user == s.challenges[k].user
        && s'.challenges[k].expires == s.challenges[k].expires
        && s'.challenges[k].attempts + s.claimed[k] == s.challenges[k].attempts + s'.claimed[k]
    decreases |run|
  {
    if run != [] {
      var m := if Enabled(serial, s, run[0]) then Apply(serial, s, run[0]) else s;
      TimePasses(serial, m, run[1..]);
      if k in m.challenges {
        ChallengesLast(serial, m, run[1..], k);
      }
    }
  }

  // ---- sessions ----

  // One call at a time: a session, or a call about to mint one, leaves nothing to claim.
  ghost predicate SoleUse(s: State, k: Token) {
    && (k in s.challenges || Busy(s, k) || s.sessions[k] > 0 ==> k in s.issued)
    && (forall c <- s.calls, d <- s.calls :: s.calls[c].token == k && s.calls[d].token == k ==> c == d)
    && (forall c <- s.calls :: s.calls[c].token == k ==>
          s.sessions[k] == 0 && (s.calls[c].stage == Consumed && k in s.challenges ==> s.challenges[k].consumed))
    && (s.sessions[k] > 0 && k in s.challenges ==> s.challenges[k].consumed)
    && s.sessions[k] <= 1
  }

  lemma StepKeepsSoleUse(s: State, l: Label, k: Token)
    requires Enabled(true, s, l) && SoleUse(s, k)
    ensures SoleUse(Apply(true, s, l), k)
  {
  }

  lemma {:induction false} RunKeepsSoleUse(s: State, run: seq<Label>, k: Token)
    requires SoleUse(s, k)
    ensures SoleUse(Run(true, s, run), k)
    decreases |run|
  {
    if run != [] {
      if Enabled(true, s, run[0]) {
        StepKeepsSoleUse(s, run[0], k);
        RunKeepsSoleUse(Apply(true, s, run[0]), run[1..], k);
      } else {
        RunKeepsSoleUse(s, run[1..], k);
      }
    }
  }

  lemma OneSessionEach(run: seq<Label>, k: Token)
    ensures Run(true, INIT, run).sessions[k] <= 1
  {
    RunKeepsSoleUse(INIT, run, k);
  }

  lemma {:induction false} RunOneMore(serial: bool, s: State, run: seq<Label>, l: Label)
    ensures var m := Run(serial, s, run);
      Run(serial, s, run + [l]) == if Enabled(serial, m, l) then Apply(serial, m, l) else m
    decreases |run|
  {
    if run != [] {
      var s' := if Enabled(serial, s, run[0]) then Apply(serial, s, run[0]) else s;
      RunOneMore(serial, s', run[1..], l);
      assert (run + [l])[1..] == run[1..] + [l];
    }
  }

  ghost predicate Reaches(s: State, s': State) {
    exists run :: Run(false, s, run) == s'
  }

  lemma Onward(s: State, m: State, l: Label) returns (s': State)
    requires Reaches(s, m) && Enabled(false, m, l)
    ensures Reaches(s, s') && s' == Apply(false, m, l)
  {
    s' := Apply(false, m, l);
    var run :| Run(false, s, run) == m;
    RunOneMore(false, s, run, l);
  }

  // Both calls get as far as their own session.
  lemma BothFinish(s: State, m: State, c: CallId, d: CallId, k: Token) returns (s': State)
    requires Reaches(s, m) && c != d && c in m.calls && d in m.calls
    requires m.calls[c].token == k && m.calls[d].token == k
    requires m.calls[c].stage == Accepted && m.calls[d].stage == Accepted
    ensures Reaches(s, s') && s'.sessions[k] == m.sessions[k] + 2
  {
    s' := Onward(s, m, Consume(c));
    s' := Onward(s, s', Consume(d));
    s' := Onward(s, s', Mint(c));
    s' := Onward(s, s', Mint(d));
  }

  // Serial calls do get in: a challenge that can be claimed mints a session.
  lemma SerialCallGetsIn(k: Token, user: UserId, expires: Instant) returns (run: seq<Label>)
    requires expires > 0
    ensures var s := Run(true, INIT, run); s.sessions == multiset{k} && s.claimed == multiset{k} && s.calls == map[]
  {
    var made := Challenge(user, 0, expires, false);
    var s1 := INIT.(challenges := map[k := made], issued := {k});
    run := Serially([], INIT, Insert(k, user, expires), s1);
    var s2 := s1.(challenges := map[k := made.(attempts := 1)], calls := map[1 := Call(k, user, Claimed)],
                  claimed := multiset{k});
    assert s1.challenges[k := made.(attempts := 1)] == s2.challenges;
    run := Serially(run, s1, Claim(1, k), s2);
    var s3 := s2.(calls := map[1 := Call(k, user, Accepted)]);
    assert s2.calls[1 := Call(k, user, Accepted)] == s3.calls;
    run := Serially(run, s2, Accept(1), s3);
    var s4 := s3.(calls := map[1 := Call(k, user, Consumed)],
                  challenges := map[k := Challenge(user, 1, expires, true)]);
    assert s3.calls[1 := Call(k, user, Consumed)] == s4.calls;
    assert s3.challenges[k := Challenge(user, 1, expires, true)] == s4.challenges;
    run := Serially(run, s3, Consume(1), s4);
    run := Serially(run, s4, Mint(1), s4.(calls := Without(s4.calls, 1), sessions := multiset{k}));
  }

  lemma Serially(run: seq<Label>, m: State, l: Label, s': State) returns (longer: seq<Label>)
    requires Run(true, INIT, run) == m && Enabled(true, m, l) && s' == Apply(true, m, l)
    ensures Run(true, INIT, longer) == s'
  {
    longer := run + [l];
    RunOneMore(true, INIT, run, l);
  }

  // A call that has consumed its challenge leaves nothing to claim.
  ghost predicate ConsumedIsSpent(s: State) {
    forall c <- s.calls ::
      && s.calls[c].token in s.issued
      && (s.calls[c].stage == Consumed && s.calls[c].token in s.challenges ==> s.challenges[s.calls[c].token].consumed)
  }

  lemma {:induction false} RunKeepsSpent(s: State, run: seq<Label>)
    requires ConsumedIsSpent(s) && Inv(s)
    ensures ConsumedIsSpent(Run(false, s, run))
    decreases |run|
  {
    if run != [] {
      if Enabled(false, s, run[0]) {
        var s' := Apply(false, s, run[0]);
        forall k: Token
          ensures TokenHolds(s', k)
        {
          StepKeepsToken(false, s, run[0], k);
        }
        StepKeepsSpent(s, run[0]);
        RunKeepsSpent(s', run[1..]);
      } else {
        RunKeepsSpent(s, run[1..]);
      }
    }
  }

  lemma StepKeepsSpent(s: State, l: Label)
    requires ConsumedIsSpent(s) && Inv(s) && Enabled(false, s, l)
    ensures ConsumedIsSpent(Apply(false, s, l))
  {
    if l.Claim? {
      assert TokenHolds(s, l.token);
    }
  }

  lemma OverlapFinishes(s: State, c: CallId, d: CallId, k: Token) returns (s': State)
    requires c in s.calls && s.calls[c].token == k && s.calls[c].stage != Consumed
    requires d !in s.calls && Claimable(s, k)
    ensures Reaches(s, s') && s'.sessions[k] == s.sessions[k] + 2
  {
    assert Run(false, s, []) == s;
    s' := Onward(s, s, Claim(d, k));
    if s'.calls[c].stage == Claimed {
      s' := Onward(s, s', Accept(c));
    }
    s' := Onward(s, s', Accept(d));
    s' := BothFinish(s, s', c, d, k);
  }

  // Serial calls are exactly what it takes: whenever, in any run, a second call could start on a
  // challenge that another call is on, the two can each mint a session.
  lemma OverlapMintsTwo(early: seq<Label>, d: CallId, k: Token) returns (s': State)
    requires var s := Run(false, INIT, early); Busy(s, k) && Claimable(s, k) && d !in s.calls
    ensures var s := Run(false, INIT, early); Reaches(s, s') && s'.sessions[k] == s.sessions[k] + 2
  {
    var s := Run(false, INIT, early);
    forall k: Token
      ensures TokenHolds(INIT, k)
    {
      assert On(INIT, k) == {};
    }
    RunKeepsSpent(INIT, early);
    var c :| c in s.calls && s.calls[c].token == k;
    s' := OverlapFinishes(s, c, d, k);
  }
}
