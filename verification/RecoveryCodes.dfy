// Enrolments of the second factor and the single-use codes that come with them.
//
// A step is one SQL statement (or a commit or rollback) of one session. An enrolment's UPDATE
// locks the account row; its DELETE locks the code rows it is going to remove.
module RecoveryCodes {
  import opened Common

  type UserId = nat
  type Code = nat  // stands for the hash of a recovery code
  type Secret = nat
  type TxId = nat

  datatype Mfa = Mfa(secret: Option<Secret>, confirmed: bool)
  datatype Row = Row(user: UserId, used: bool)

  datatype Change = SetSecret(secret: Secret) | Confirm(issue: set<Code>) | Clear

  // doomed: the rows its DELETE has removed, once it has run.
  datatype Tx = Tx(user: UserId, change: Change, doomed: Option<set<Code>>)

  // drawn: every code ever generated; retired: codes removed by a committed transaction;
  // accepted: how often each code has been let through.
  datatype State = State(mfa: map<UserId, Mfa>, codes: map<Code, Row>, txs: map<TxId, Tx>,
                         drawn: set<Code>, retired: set<Code>, accepted: multiset<Code>)

  datatype Label =
    | AddUser(user: UserId)
    | Update(tx: TxId, user: UserId, change: Change)
    | DeleteCodes(tx: TxId)
    | Commit(tx: TxId)
    | Rollback(tx: TxId)
    | Spend(user: UserId, code: Code)

  const INIT := State(map[], map[], map[], {}, {}, multiset{})

  function New(c: Change): set<Code> {
    if c.Confirm? then c.issue else {}
  }

  function OfUser(codes: map<Code, Row>, user: UserId): set<Code> {
    set c | c in codes && codes[c].user == user
  }

  predicate Unlocked(s: State, c: Code) {
    forall t <- s.txs :: s.txs[t].doomed == None || c !in s.txs[t].doomed.value
  }

  // The WHERE clause of the spending UPDATE, once it has the row.
  predicate Spendable(s: State, user: UserId, c: Code) {
    c in s.codes && s.codes[c] == Row(user, false) && Unlocked(s, c)
  }

  predicate Enabled(s: State, l: Label) {
    match l
    case AddUser(user) => user !in s.mfa
    case Update(t, user, change) =>
      && t !in s.txs && user in s.mfa && (forall u <- s.txs :: s.txs[u].user != user)
      && (change.Confirm? ==> s.mfa[user].secret.Some?) && New(change) !! s.drawn
    case DeleteCodes(t) => t in s.txs && s.txs[t].doomed == None
    case Commit(t) => t in s.txs && s.txs[t].doomed.Some?
    case Rollback(t) => t in s.txs
    case Spend(user, c) => Spendable(s, user, c)
  }

  function Changed(m: Mfa, c: Change): Mfa {
    match c
    case SetSecret(secret) => Mfa(Some(secret), false)
    case Confirm(_) => m.(confirmed := true)
    case Clear => Mfa(None, false)
  }

  // The codes table as a committed enrolment leaves it.
  function Replaced(codes: map<Code, Row>, user: UserId, doomed: set<Code>, issue: set<Code>): map<Code, Row> {
    map c | c in codes.Keys - doomed + issue :: if c in issue then Row(user, false) else codes[c]
  }

  function Apply(s: State, l: Label): State
    requires Enabled(s, l)
  {
    match l
    case AddUser(user) => s.(mfa := s.mfa[user := Mfa(None, false)])
    case Update(t, user, change) => s.(txs := s.txs[t := Tx(user, change, None)], drawn := s.drawn + New(change))
    case DeleteCodes(t) => s.(txs := s.txs[t := s.txs[t].(doomed := Some(OfUser(s.codes, s.txs[t].user)))])
    case Commit(t) =>
      var x := s.txs[t];
      s.(mfa := if x.user in s.mfa then s.mfa[x.user := Changed(s.mfa[x.user], x.change)] else s.mfa,
         codes := Replaced(s.codes, x.user, x.doomed.value, New(x.change)),
         txs := Without(s.txs, t), retired := s.retired + x.doomed.value)
    case Rollback(t) => s.(txs := Without(s.txs, t))
    case Spend(_, c) => s.(codes := s.codes[c := s.codes[c].(used := true)], accepted := s.accepted + multiset{c})
  }

  // ---- what must hold ----

  ghost predicate TxHolds(s: State, x: Tx) {
    && x.user in s.mfa && (x.change.Confirm? ==> s.mfa[x.user].secret.Some?)
    && New(x.change) <= s.drawn && New(x.change) !! s.codes.Keys && New(x.change) !! s.retired
    && (x.doomed.Some? ==> x.doomed.value == OfUser(s.codes, x.user))
  }

  ghost predicate TxsHold(s: State) {
    && (forall t <- s.txs :: TxHolds(s, s.txs[t]))
    && (forall t <- s.txs, u <- s.txs :: t != u ==>
          s.txs[t].user != s.txs[u].user && New(s.txs[t].change) !! New(s.txs[u].change))
  }

  ghost predicate CodeHolds(s: State, c: Code) {
    && s.accepted[c] <= 1
    && (c in s.codes ==> s.accepted[c] == if s.codes[c].used then 1 else 0)
    && (c !in s.codes && c !in s.retired ==> s.accepted[c] == 0)
  }

  // An abandoned enrolment is inert: what is confirmed has a secret.
  ghost predicate MfaHolds(s: State) {
    forall u <- s.mfa :: s.mfa[u].confirmed ==> s.mfa[u].secret.Some?
  }

  ghost predicate Inv(s: State) {
    && TxsHold(s) && MfaHolds(s) && (forall c: Code :: CodeHolds(s, c))
    && s.codes.Keys + s.retired <= s.drawn && s.codes.Keys !! s.retired
  }

  lemma UpdateKeeps(s: State, l: Label)
    requires Inv(s) && Enabled(s, l) && (l.Update? || l.DeleteCodes? || l.Rollback? || l.AddUser?)
    ensures Inv(Apply(s, l))
  {
    var s' := Apply(s, l);
    forall t | t in s'.txs
      ensures TxHolds(s', s'.txs[t])
    {
      if t in s.txs {
        assert TxHolds(s, s.txs[t]);
      }
    }
    assert TxsHold(s');
    forall c: Code
      ensures CodeHolds(s', c)
    {
      assert CodeHolds(s, c);
    }
  }

  lemma CommitKeepsTxs(s: State, t: TxId)
    requires Inv(s) && Enabled(s, Commit(t))
    ensures TxsHold(Apply(s, Commit(t)))
  {
    var s', x := Apply(s, Commit(t)), s.txs[t];
    assert TxHolds(s, x);
    forall u | u in s'.txs
      ensures TxHolds(s', s'.txs[u])
    {
      assert TxHolds(s, s.txs[u]) && s.txs[u].user != x.user;
      assert OfUser(s'.codes, s.txs[u].user) == OfUser(s.codes, s.txs[u].user);
    }
  }

  lemma CommitKeeps(s: State, t: TxId)
    requires Inv(s) && Enabled(s, Commit(t))
    ensures Inv(Apply(s, Commit(t)))
  {
    CommitKeepsTxs(s, t);
    var s', x := Apply(s, Commit(t)), s.txs[t];
    assert TxHolds(s, x);
    forall c: Code
      ensures CodeHolds(s', c)
    {
      assert CodeHolds(s, c);
    }
  }

  lemma SpendKeeps(s: State, user: UserId, c: Code)
    requires Inv(s) && Enabled(s, Spend(user, c))
    ensures Inv(Apply(s, Spend(user, c)))
  {
    var s' := Apply(s, Spend(user, c));
    forall t | t in s'.txs
      ensures TxHolds(s', s'.txs[t])
    {
      assert TxHolds(s, s.txs[t]);
      assert OfUser(s'.codes, s.txs[t].user) == OfUser(s.codes, s.txs[t].user);
    }
    assert TxsHold(s');
    forall d: Code
      ensures CodeHolds(s', d)
    {
      assert CodeHolds(s, d);
    }
  }

  lemma StepKeeps(s: State, l: Label)
    requires Inv(s) && Enabled(s, l)
    ensures Inv(Apply(s, l))
    ensures forall c <- s.retired :: c in Apply(s, l).retired && Apply(s, l).accepted[c] == s.accepted[c]
  {
    match l
    case Commit(t) => CommitKeeps(s, t);
    case Spend(user, c) => SpendKeeps(s, user, c);
    case _ => UpdateKeeps(s, l);
  }

  function Run(s: State, run: seq<Label>): State
    decreases |run|
  {
    if run == [] then s else Run(if Enabled(s, run[0]) then Apply(s, run[0]) else s, run[1..])
  }

  lemma {:induction false} RunKeeps(s: State, run: seq<Label>)
    requires Inv(s)
    ensures Inv(Run(s, run))
    ensures forall c <- s.retired :: c in Run(s, run).retired && Run(s, run).accepted[c] == s.accepted[c]
    decreases |run|
  {
    if run != [] {
      if Enabled(s, run[0]) {
        StepKeeps(s, run[0]);
        RunKeeps(Apply(s, run[0]), run[1..]);
      } else {
        RunKeeps(s, run[1..]);
      }
    }
  }

  // Whatever enrolments and sign-ins interleave: no code is accepted twice, and a code that a
  // re-enrolment, a confirmation or a clearing has retired is never accepted again.
  lemma CodesWorkOnce(early: seq<Label>, late: seq<Label>, c: Code)
    ensures var s := Run(INIT, early);
      var s' := Run(s, late);
      && s.accepted[c] <= 1
      && (c in s.retired ==> s'.accepted[c] == s.accepted[c] && c !in s'.codes)
  {
    RunKeeps(INIT, early);
    RunKeeps(Run(INIT, early), late);
    assert CodeHolds(Run(INIT, early), c);
  }

  // No account ever counts as enrolled without a secret.
  lemma ConfirmedHasASecret(run: seq<Label>, user: UserId)
    ensures var s := Run(INIT, run); user in s.mfa && s.mfa[user].confirmed ==> s.mfa[user].secret.Some?
  {
    RunKeeps(INIT, run);
  }

  // And committing one of those retires every code the account had, leaving just the new ones.
  lemma EnrolmentRetiresTheOldCodes(run: seq<Label>, t: TxId)
    requires Enabled(Run(INIT, run), Commit(t))
    ensures var s := Run(INIT, run);
      var x, s' := s.txs[t], Apply(s, Commit(t));
      && OfUser(s.codes, x.user) <= s'.retired
      && (forall c :: c in s'.codes && s'.codes[c].user == x.user <==> x.change.Confirm? && c in x.change.issue)
      && (forall c <- s'.codes :: s'.codes[c].user == x.user ==> !s'.codes[c].used && s'.accepted[c] == 0)
      && x.user in s.mfa
      && s'.mfa[x.user] == match x.change
                           case SetSecret(secret) => Mfa(Some(secret), false)
                           case Confirm(_) => Mfa(s.mfa[x.user].secret, true)
                           case Clear => Mfa(None, false)
  {
    RunKeeps(INIT, run);
    var s := Run(INIT, run);
    assert TxHolds(s, s.txs[t]);
    forall c | c in New(s.txs[t].change)
      ensures s.accepted[c] == 0
    {
      assert CodeHolds(s, c);
    }
  }

  // An enrolment that nobody is in the way of goes through, from its first statement to its commit.
  lemma EnrolmentGoesThrough(run: seq<Label>, t: TxId, user: UserId, change: Change)
    requires var s := Run(INIT, run);
      && t !in s.txs && user in s.mfa && (forall u <- s.txs :: s.txs[u].user != user)
      && (change.Confirm? ==> s.mfa[user].secret.Some? && change.issue !! s.drawn)
    ensures var s := Run(INIT, run);
      var s' := Run(s, [Update(t, user, change), DeleteCodes(t), Commit(t)]);
      && s'.txs == s.txs && s'.accepted == s.accepted && user in s'.mfa
      && s'.mfa == s.mfa[user := s'.mfa[user]] && s'.mfa[user].confirmed == change.Confirm?
      && (forall c :: c in s'.codes && s'.codes[c].user == user <==> change.Confirm? && c in change.issue)
      && (forall c <- s.codes :: s.codes[c].user != user ==> c in s'.codes && s'.codes[c] == s.codes[c])
  {
    RunKeeps(INIT, run);
    var s := Run(INIT, run);
    var s1 := Apply(s, Update(t, user, change));
    var s2 := Apply(s1, DeleteCodes(t));
    var s3 := Apply(s2, Commit(t));
    RunThree(s, Update(t, user, change), DeleteCodes(t), Commit(t));
    assert s3.txs == s.txs;
  }

  lemma RunOne(s: State, l: Label, more: seq<Label>)
    requires Enabled(s, l)
    ensures Run(s, [l] + more) == Run(Apply(s, l), more)
  {
    assert ([l] + more)[1..] == more;
  }

  lemma RunThree(s: State, a: Label, b: Label, c: Label)
    requires Enabled(s, a) && Enabled(Apply(s, a), b) && Enabled(Apply(Apply(s, a), b), c)
    ensures Run(s, [a, b, c]) == Apply(Apply(Apply(s, a), b), c)
  {
    RunOne(s, a, [b, c]);
    RunOne(Apply(s, a), b, [c]);
    RunOne(Apply(Apply(s, a), b), c, []);
    assert [a] + [b, c] == [a, b, c] && [b] + [c] == [b, c] && [c] + [] == [c];
  }
}
