// Accounts made on a first sign-in, and the identities that bind them to a provider's subjects.
//
// A step is one SQL statement (or a commit or rollback) of one session. A unique index makes an
// insert wait for an uncommitted rival and refuses it once the rival has committed.
module Provisioning {
  import opened Common

  type UserId = nat
  type TxId = nat
  type Pair = (nat, string)  // provider and subject

  // external: the password hash is the sentinel no password matches.
  datatype User = User(username: string, external: bool, disabled: bool)
  datatype Identity = Identity(pair: Pair, user: UserId)

  // The rows a provisioning transaction has inserted.
  datatype Tx = Tx(id: UserId, username: string, pair: Option<Pair>)

  // found: bindings some session has read or made; granted: sign-ins that went through.
  datatype State = State(users: map<UserId, User>, identities: set<Identity>, txs: map<TxId, Tx>,
                         found: set<Identity>, granted: set<Identity>)

  datatype Label =
    | CreateUser(id: UserId, username: string)          // a password account
    | SetDisabled(id: UserId, disabled: bool)
    | InsertUser(tx: TxId, id: UserId, username: string)
    | InsertIdentity(tx: TxId, pair: Pair)
    | Commit(tx: TxId)
    | Rollback(tx: TxId)
    | Find(identity: Identity)                           // FindOIDCIdentity
    | Grant(identity: Identity)                          // GetUserByID of a binding found before

  const INIT := State(map[], {}, map[], {}, {})

  predicate NameTaken(s: State, username: string) {
    exists id <- s.users :: s.users[id].username == username
  }

  predicate PairTaken(s: State, pair: Pair) {
    exists i <- s.identities :: i.pair == pair
  }

  // No other transaction holds the id or the name uncommitted.
  predicate NameClear(s: State, id: UserId, username: string) {
    forall u <- s.txs :: s.txs[u].id != id && s.txs[u].username != username
  }

  predicate PairClear(s: State, pair: Pair) {
    forall u <- s.txs :: s.txs[u].pair != Some(pair)
  }

  predicate Enabled(s: State, l: Label) {
    match l
    case CreateUser(id, username) => id !in s.users && !NameTaken(s, username) && NameClear(s, id, username)
    case SetDisabled(id, _) => id in s.users
    case InsertUser(t, id, username) =>
      t !in s.txs && id !in s.users && !NameTaken(s, username) && NameClear(s, id, username)
    case InsertIdentity(t, pair) =>
      t in s.txs && s.txs[t].pair == None && !PairTaken(s, pair) && PairClear(s, pair)
    case Commit(t) => t in s.txs && s.txs[t].pair.Some?
    case Rollback(t) => t in s.txs
    case Find(i) => i in s.identities
    case Grant(i) => i in s.found && i.user in s.users && !s.users[i.user].disabled
  }

  function Made(x: Tx): User {
    User(x.username, true, false)
  }

  function Apply(s: State, l: Label): State
    requires Enabled(s, l)
  {
    match l
    case CreateUser(id, username) => s.(users := s.users[id := User(username, false, false)])
    case SetDisabled(id, disabled) => s.(users := s.users[id := s.users[id].(disabled := disabled)])
    case InsertUser(t, id, username) => s.(txs := s.txs[t := Tx(id, username, None)])
    case InsertIdentity(t, pair) => s.(txs := s.txs[t := s.txs[t].(pair := Some(pair))])
    case Commit(t) =>
      var x := s.txs[t];
      var i := Identity(x.pair.value, x.id);
      s.(users := s.users[x.id := Made(x)], identities := s.identities + {i}, txs := Without(s.txs, t),
         found := s.found + {i})
    case Rollback(t) => s.(txs := Without(s.txs, t))
    case Find(i) => s.(found := s.found + {i})
    case Grant(i) => s.(granted := s.granted + {i})
  }

  // ---- what must hold ----

  ghost predicate NamesUnique(s: State) {
    forall a <- s.users, b <- s.users :: s.users[a].username == s.users[b].username ==> a == b
  }

  ghost predicate PairsUnique(s: State) {
    forall i <- s.identities, j <- s.identities :: i.pair == j.pair ==> i == j
  }

  // An account that only a provider can sign in to has a binding, and no binding dangles.
  ghost predicate NoOrphans(s: State) {
    && (forall id <- s.users :: s.users[id].external ==> exists i <- s.identities :: i.user == id)
    && (forall i <- s.identities :: i.user in s.users)
  }

  ghost predicate TxHolds(s: State, x: Tx) {
    && x.id !in s.users && !NameTaken(s, x.username)
    && (x.pair.Some? ==> !PairTaken(s, x.pair.value))
  }

  ghost predicate Apart(x: Tx, y: Tx) {
    x.id != y.id && x.username != y.username && (x.pair.Some? ==> x.pair != y.pair)
  }

  ghost predicate TxsHold(s: State) {
    && (forall t <- s.txs :: TxHolds(s, s.txs[t]))
    && (forall t <- s.txs, u <- s.txs :: t != u ==> Apart(s.txs[t], s.txs[u]))
  }

  ghost predicate Inv(s: State) {
    && NamesUnique(s) && PairsUnique(s) && NoOrphans(s) && TxsHold(s)
    && s.found <= s.identities && s.granted <= s.identities
  }

  // What no later step takes back.
  ghost predicate Extends(s: State, s': State) {
    s.identities <= s'.identities && s.found <= s'.found && s.granted <= s'.granted && s.users.Keys <= s'.users.Keys
  }

  lemma CreateUserKeeps(s: State, id: UserId, username: string)
    requires Inv(s) && Enabled(s, CreateUser(id, username))
    ensures Inv(Apply(s, CreateUser(id, username)))
  {
    var s' := Apply(s, CreateUser(id, username));
    forall t | t in s'.txs
      ensures TxHolds(s', s'.txs[t])
    {
      assert TxHolds(s, s.txs[t]);
    }
    assert TxsHold(s');
  }

  lemma SetDisabledKeeps(s: State, id: UserId, disabled: bool)
    requires Inv(s) && Enabled(s, SetDisabled(id, disabled))
    ensures Inv(Apply(s, SetDisabled(id, disabled)))
  {
    var s' := Apply(s, SetDisabled(id, disabled));
    forall u | u in s'.users
      ensures u in s.users && s'.users[u].username == s.users[u].username && s'.users[u].external == s.users[u].external
    {
    }
    forall t | t in s'.txs
      ensures TxHolds(s', s'.txs[t])
    {
      assert TxHolds(s, s.txs[t]);
    }
    assert TxsHold(s');
  }

  lemma InsertKeeps(s: State, l: Label)
    requires Inv(s) && Enabled(s, l) && (l.InsertUser? || l.InsertIdentity?)
    ensures Inv(Apply(s, l))
  {
    var s' := Apply(s, l);
    forall t | t in s'.txs
      ensures TxHolds(s', s'.txs[t])
    {
      if t != l.tx {
        assert TxHolds(s, s.txs[t]);
      }
    }
    forall t, u | t in s'.txs && u in s'.txs && t != u
      ensures Apart(s'.txs[t], s'.txs[u])
    {
    }
  }

  lemma CommitKeepsTables(s: State, t: TxId)
    requires Inv(s) && Enabled(s, Commit(t))
    ensures var s' := Apply(s, Commit(t)); NamesUnique(s') && PairsUnique(s') && NoOrphans(s')
  {
    var s', x := Apply(s, Commit(t)), s.txs[t];
    assert TxHolds(s, x);
    var i := Identity(x.pair.value, x.id);
    assert i in s'.identities;
  }

  lemma CommitKeeps(s: State, t: TxId)
    requires Inv(s) && Enabled(s, Commit(t))
    ensures Inv(Apply(s, Commit(t)))
  {
    CommitKeepsTables(s, t);
    var s' := Apply(s, Commit(t));
    forall u | u in s'.txs
      ensures TxHolds(s', s'.txs[u])
    {
      assert TxHolds(s, s.txs[u]) && Apart(s.txs[t], s.txs[u]);
    }
    assert TxsHold(s');
  }

  lemma StepKeeps(s: State, l: Label)
    requires Inv(s) && Enabled(s, l)
    ensures Inv(Apply(s, l)) && Extends(s, Apply(s, l))
  {
    match l
    case CreateUser(id, username) => CreateUserKeeps(s, id, username);
    case SetDisabled(id, disabled) => SetDisabledKeeps(s, id, disabled);
    case InsertUser(_, _, _) => InsertKeeps(s, l);
    case InsertIdentity(_, _) => InsertKeeps(s, l);
    case Commit(t) => CommitKeeps(s, t);
    case Rollback(t) => RollbackKeeps(s, t);
    case Find(_) => ReadKeeps(s, l);
    case Grant(_) => ReadKeeps(s, l);
  }

  lemma RollbackKeeps(s: State, t: TxId)
    requires Inv(s) && Enabled(s, Rollback(t))
    ensures Inv(Apply(s, Rollback(t)))
  {
    var s' := Apply(s, Rollback(t));
    forall u | u in s'.txs
      ensures TxHolds(s', s'.txs[u])
    {
      assert TxHolds(s, s.txs[u]);
    }
    assert TxsHold(s');
  }

  lemma ReadKeeps(s: State, l: Label)
    requires Inv(s) && Enabled(s, l) && (l.Find? || l.Grant?)
    ensures Inv(Apply(s, l))
  {
    var s' := Apply(s, l);
    forall u | u in s'.txs
      ensures TxHolds(s', s'.txs[u])
    {
      assert TxHolds(s, s.txs[u]);
    }
    assert TxsHold(s');
  }

  function Run(s: State, run: seq<Label>): State
    decreases |run|
  {
    if run == [] then s else Run(if Enabled(s, run[0]) then Apply(s, run[0]) else s, run[1..])
  }

  lemma {:induction false} RunKeeps(s: State, run: seq<Label>)
    requires Inv(s)
    ensures Inv(Run(s, run)) && Extends(s, Run(s, run))
    decreases |run|
  {
    if run != [] {
      if Enabled(s, run[0]) {
        StepKeeps(s, run[0]);
        RunKeeps(Apply(s, run[0]), run[1..]);
      } else {
        RunKeeps(s, run[1..]);
      }
    }
  }

  // Accounts come and go outside of sign-ins: made with a password, switched off and on.
  lemma AccountsChange(s: State, id: UserId, username: string, disabled: bool)
    requires id !in s.users && !NameTaken(s, username) && s.txs == map[]
    ensures var made := Run(s, [CreateUser(id, username)]);
      && made == s.(users := s.users[id := User(username, false, false)])
      && Run(made, [SetDisabled(id, disabled)]) == s.(users := s.users[id := User(username, false, disabled)])
  {
    assert Enabled(s, CreateUser(id, username));
    var made := Apply(s, CreateUser(id, username));
    assert Run(s, [CreateUser(id, username)]) == Run(made, []) == made;
    var off := Apply(made, SetDisabled(id, disabled));
    assert Run(made, [SetDisabled(id, disabled)]) == Run(off, []) == off;
  }

  // No step lets in an account that is disabled at that moment, or one no binding was found for.
  lemma GrantsAreEnabled(s: State, l: Label)
    requires Inv(s) && Enabled(s, l)
    ensures forall i <- Apply(s, l).granted - s.granted ::
              i in s.found && i.user in s.users && !s.users[i.user].disabled
  {
  }

  // However first sign-ins interleave and fail: every sign-in for one provider and subject goes
  // to one account, then and ever after, and no account is left without its identity.
  lemma OneAccountPerIdentity(early: seq<Label>, late: seq<Label>)
    ensures var s := Run(INIT, early);
      var s' := Run(s, late);
      && (forall a <- s.users, b <- s.users :: s.users[a].username == s.users[b].username ==> a == b)
      && (forall id <- s.users :: s.users[id].external ==> exists i <- s.identities :: i.user == id)
      && (forall i <- s.identities :: i.user in s.users)
      && (forall i <- s.granted, j <- s'.granted :: i.pair == j.pair ==> i.user == j.user)
      && (forall i <- s.identities, j <- s'.identities :: i.pair == j.pair ==> i.user == j.user)
  {
    RunKeeps(INIT, early);
    RunKeeps(Run(INIT, early), late);
  }
}
