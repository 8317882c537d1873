// The writes that can take away the last administrator, and the lock that serialises them.
//
// A step is one SQL statement (or a commit or rollback) of one session at READ COMMITTED:
// it sees the committed tables and the transaction's own row versions.
module Capability {
  import opened Common

  type RoleName = string
  type UserId = nat
  type TxId = nat

  datatype Scope = UsersManage | RolesManage | Other(name: string)
  datatype Role = Role(scopes: set<Scope>, unrestricted: bool)
  datatype User = User(role: RoleName, disabled: bool)
  datatype Tables = Tables(roles: map<RoleName, Role>, users: map<UserId, User>)

  // A write that goes through the guard.
  datatype Write =
    | UpdateUser(id: UserId, role: Option<RoleName>, disabled: Option<bool>)
    | UpdateRoleScopes(name: RoleName, value: Role)

  // own: the row versions it has written; seen: the capabilities it has counted holders of.
  datatype Tx = Tx(wrote: bool, own: Tables, seen: set<Scope>)

  datatype State = State(tables: Tables, lock: Option<TxId>, txs: map<TxId, Tx>)

  datatype Label =
    | Begin(tx: TxId)
    | Lock(tx: TxId)
    | Update(tx: TxId, write: Write)
    | Count(tx: TxId, scope: Scope)
    | Commit(tx: TxId)
    | Rollback(tx: TxId)
    | CreateUser(id: UserId, user: User)

  const NO_TABLES := Tables(map[], map[])
  const REQUIRED: seq<Scope> := [UsersManage, RolesManage]

  function View(t: Tables, own: Tables): Tables {
    Tables(t.roles + own.roles, t.users + own.users)
  }

  // One of the rows the counting query finds.
  predicate Holds(t: Tables, id: UserId, scope: Scope) {
    && id in t.users && !t.users[id].disabled
    && t.users[id].role in t.roles && scope in t.roles[t.users[id].role].scopes
  }

  function Holders(t: Tables, scope: Scope): set<UserId> {
    set id | id in t.users && Holds(t, id, scope)
  }

  predicate Held(t: Tables, scope: Scope) {
    Holders(t, scope) != {}
  }

  predicate Administrable(t: Tables) {
    Held(t, REQUIRED[0]) && Held(t, REQUIRED[1])
  }

  // admin_users.role references roles.
  predicate Referential(t: Tables) {
    forall id <- t.users :: t.users[id].role in t.roles
  }

  predicate Hits(t: Tables, w: Write) {
    match w
    case UpdateUser(id, _, _) => id in t.users
    case UpdateRoleScopes(name, _) => name in t.roles
  }

  predicate Allowed(t: Tables, w: Write) {
    w.UpdateUser? && w.role.Some? ==> w.role.value in t.roles
  }

  // The row version an UPDATE writes; a missing field keeps the row's value.
  function Written(t: Tables, w: Write): Tables
    requires Hits(t, w)
  {
    match w
    case UpdateUser(id, role, disabled) =>
      var u := t.users[id];
      NO_TABLES.(users := map[id := User(if role == None then u.role else role.value,
                                        if disabled == None then u.disabled else disabled.value)])
    case UpdateRoleScopes(name, value) => NO_TABLES.(roles := map[name := value])
  }

  predicate Untouched(x: Tx, w: Write) {
    match w
    case UpdateUser(id, _, _) => id !in x.own.users
    case UpdateRoleScopes(name, _) => name !in x.own.roles
  }

  // locking: whether writers take the advisory lock first, as both of them do.
  predicate Enabled(locking: bool, s: State, l: Label) {
    match l
    case Begin(t) => t !in s.txs
    case Lock(t) => t in s.txs && s.lock == None
    case Update(t, w) =>
      && t in s.txs && !s.txs[t].wrote && (locking ==> s.lock == Some(t))
      && Hits(s.tables, w) && Allowed(s.tables, w) && (forall u <- s.txs :: Untouched(s.txs[u], w))
    case Count(t, scope) => t in s.txs && s.txs[t].wrote && Held(View(s.tables, s.txs[t].own), scope)
    case Commit(t) => t in s.txs && REQUIRED[0] in s.txs[t].seen && REQUIRED[1] in s.txs[t].seen
    case Rollback(t) => t in s.txs
    case CreateUser(id, user) => id !in s.tables.users && user.role in s.tables.roles
  }

  function Ended(s: State, t: TxId): State {
    s.(lock := if s.lock == Some(t) then None else s.lock, txs := Without(s.txs, t))
  }

  function Apply(locking: bool, s: State, l: Label): State
    requires Enabled(locking, s, l)
  {
    match l
    case Begin(t) => s.(txs := s.txs[t := Tx(false, NO_TABLES, {})])
    case Lock(t) => s.(lock := Some(t))
    case Update(t, w) => s.(txs := s.txs[t := Tx(true, Written(s.tables, w), {})])
    case Count(t, scope) => s.(txs := s.txs[t := s.txs[t].(seen := s.txs[t].seen + {scope})])
    case Commit(t) => Ended(s, t).(tables := View(s.tables, s.txs[t].own))
    case Rollback(t) => Ended(s, t)
    case CreateUser(id, user) => s.(tables := s.tables.(users := s.tables.users[id := user]))
  }

  // A transaction without the lock has written nothing; what it has counted is still there.
  ghost predicate TxHolds(s: State, t: TxId)
    requires t in s.txs
  {
    var x := s.txs[t];
    && (s.lock != Some(t) ==> !x.wrote)
    && (!x.wrote ==> x.own == NO_TABLES && x.seen == {})
    && x.own.users.Keys <= s.tables.users.Keys && x.own.roles.Keys <= s.tables.roles.Keys
    && Referential(View(s.tables, x.own))
    && forall scope <- x.seen :: Held(View(s.tables, x.own), scope)
  }

  ghost predicate Inv(s: State) {
    && Administrable(s.tables) && Referential(s.tables)
    && (s.lock.Some? ==> s.lock.value in s.txs)
    && forall t <- s.txs :: TxHolds(s, t)
  }

  // Nothing but a disabled account, a moved account or a narrowed role takes a holder away.
  lemma HeldStays(a: Tables, b: Tables, scope: Scope)
    requires Held(a, scope)
    requires forall id <- a.users :: id in b.users && b.users[id] == a.users[id]
    requires forall name <- a.roles :: name in b.roles && b.roles[name] == a.roles[name]
    ensures Held(b, scope)
  {
    var id :| id in Holders(a, scope);
    assert Holds(b, id, scope);
    assert id in Holders(b, scope);
  }

  lemma IdleHolds(s: State, t: TxId)
    requires t in s.txs && !s.txs[t].wrote && s.txs[t].own == NO_TABLES && s.txs[t].seen == {} && Referential(s.tables)
    ensures TxHolds(s, t)
  {
    assert View(s.tables, NO_TABLES) == s.tables;
  }

  lemma UpdateKeeps(s: State, t: TxId, w: Write)
    requires Inv(s) && Enabled(true, s, Update(t, w))
    ensures Inv(Apply(true, s, Update(t, w)))
  {
    var s' := Apply(true, s, Update(t, w));
    assert TxHolds(s', t);
    forall u | u in s'.txs && u != t
      ensures TxHolds(s', u)
    {
      assert TxHolds(s, u);
    }
  }

  lemma CountKeeps(s: State, t: TxId, scope: Scope)
    requires Inv(s) && Enabled(true, s, Count(t, scope))
    ensures Inv(Apply(true, s, Count(t, scope)))
  {
    var s' := Apply(true, s, Count(t, scope));
    assert TxHolds(s, t);
    assert TxHolds(s', t);
    forall u | u in s'.txs && u != t
      ensures TxHolds(s', u)
    {
      assert TxHolds(s, u);
    }
  }

  lemma CommitKeeps(s: State, t: TxId)
    requires Inv(s) && Enabled(true, s, Commit(t))
    ensures Inv(Apply(true, s, Commit(t)))
  {
    var s' := Apply(true, s, Commit(t));
    assert TxHolds(s, t);
    forall u | u in s'.txs
      ensures TxHolds(s', u)
    {
      assert TxHolds(s, u);
      IdleHolds(s', u);
    }
  }

  lemma CreateUserKeeps(s: State, id: UserId, user: User)
    requires Inv(s) && Enabled(true, s, CreateUser(id, user))
    ensures Inv(Apply(true, s, CreateUser(id, user)))
  {
    var s' := Apply(true, s, CreateUser(id, user));
    HeldStays(s.tables, s'.tables, REQUIRED[0]);
    HeldStays(s.tables, s'.tables, REQUIRED[1]);
    forall t | t in s'.txs
      ensures TxHolds(s', t)
    {
      CreationSpares(s, id, user, t);
    }
  }

  lemma CreationSpares(s: State, id: UserId, user: User, t: TxId)
    requires Inv(s) && Enabled(true, s, CreateUser(id, user)) && t in s.txs
    ensures TxHolds(Apply(true, s, CreateUser(id, user)), t)
  {
    var s', x := Apply(true, s, CreateUser(id, user)), s.txs[t];
    assert TxHolds(s, t);
    forall scope | scope in x.seen
      ensures Held(View(s'.tables, x.own), scope)
    {
      HeldStays(View(s.tables, x.own), View(s'.tables, x.own), scope);
    }
  }

  lemma OtherKeeps(s: State, l: Label)
    requires Inv(s) && Enabled(true, s, l) && (l.Begin? || l.Lock? || l.Rollback?)
    ensures Inv(Apply(true, s, l))
  {
    var s' := Apply(true, s, l);
    forall t | t in s'.txs
      ensures TxHolds(s', t)
    {
      if t in s.txs {
        assert TxHolds(s, t);
      }
      if s'.txs[t] == Tx(false, NO_TABLES, {}) {
        IdleHolds(s', t);
      }
    }
  }

  lemma StepKeeps(s: State, l: Label)
    requires Inv(s) && Enabled(true, s, l)
    ensures Inv(Apply(true, s, l))
  {
    match l
    case Update(t, w) => UpdateKeeps(s, t, w);
    case Count(t, scope) => CountKeeps(s, t, scope);
    case Commit(t) => CommitKeeps(s, t);
    case CreateUser(id, user) => CreateUserKeeps(s, id, user);
    case _ => OtherKeeps(s, l);
  }

  function Run(locking: bool, s: State, run: seq<Label>): State
    decreases |run|
  {
    if run == [] then s
    else Run(locking, if Enabled(locking, s, run[0]) then Apply(locking, s, run[0]) else s, run[1..])
  }

  lemma {:induction false} RunKeeps(s: State, run: seq<Label>)
    requires Inv(s)
    ensures Inv(Run(true, s, run))
    decreases |run|
  {
    if run != [] {
      if Enabled(true, s, run[0]) {
        StepKeeps(s, run[0]);
        RunKeeps(Apply(true, s, run[0]), run[1..]);
      } else {
        RunKeeps(s, run[1..]);
      }
    }
  }

  function Quiet(t: Tables): State {
    State(t, None, map[])
  }

  // However the guarded writes and the account creations interleave, and wherever they stop,
  // somebody enabled can still manage users and somebody enabled can still edit roles.
  lemma AlwaysAdministrable(t: Tables, run: seq<Label>, scope: Scope) returns (id: UserId)
    requires Administrable(t) && Referential(t) && (scope == UsersManage || scope == RolesManage)
    ensures var after := Run(true, Quiet(t), run).tables;
      && id in after.users && !after.users[id].disabled && after.users[id].role in after.roles
      && scope in after.roles[after.users[id].role].scopes
  {
    var after := Run(true, Quiet(t), run).tables;
    RunKeeps(Quiet(t), run);
    assert REQUIRED[0] == UsersManage && REQUIRED[1] == RolesManage;
    assert Held(after, scope);
    id :| id in Holders(after, scope);
  }

  // Accounts can be created at any time, in a role there is.
  lemma AccountIsCreated(s: State, id: UserId, user: User)
    requires id !in s.tables.users && user.role in s.tables.roles
    ensures Run(true, s, [CreateUser(id, user)]) ==
            s.(tables := Tables(s.tables.roles, s.tables.users[id := user]))
  {
    var s' := Apply(true, s, CreateUser(id, user));
    assert Run(true, s, [CreateUser(id, user)]) == Run(true, s', []) == s';
  }

  // The count is positive exactly when an enabled account's own role has the scope.
  lemma HeldMeansSomebody(t: Tables, scope: Scope)
    ensures Held(t, scope) <==>
            exists id <- t.users ::
              !t.users[id].disabled && t.users[id].role in t.roles && scope in t.roles[t.users[id].role].scopes
  {
    if id :| id in t.users && !t.users[id].disabled && t.users[id].role in t.roles
             && scope in t.roles[t.users[id].role].scopes {
      assert id in Holders(t, scope);
    }
  }

  // ---- the lock is what does it ----

  // Two administrators, 1 and 2, a role that may administer and one that may do nothing.
  function TwoAdmins(): Tables {
    Tables(map["admin" := Role({UsersManage, RolesManage}, true), "none" := Role({}, false)],
           map[1 := User("admin", false), 2 := User("admin", false)])
  }

  function Demote(id: UserId): Write {
    UpdateUser(id, Some("none"), None)
  }

  ghost predicate Reaches(locking: bool, s: State, s': State) {
    exists run :: Run(locking, s, run) == s'
  }

  lemma {:induction false} RunOneMore(locking: bool, s: State, run: seq<Label>, l: Label)
    ensures var m := Run(locking, s, run);
      Run(locking, s, run + [l]) == if Enabled(locking, m, l) then Apply(locking, m, l) else m
    decreases |run|
  {
    if run != [] {
      var s' := if Enabled(locking, s, run[0]) then Apply(locking, s, run[0]) else s;
      RunOneMore(locking, s', run[1..], l);
      assert (run + [l])[1..] == run[1..] + [l];
    }
  }

  lemma Onward(s: State, m: State, l: Label, s': State)
    requires Reaches(false, s, m) && Enabled(false, m, l) && s' == Apply(false, m, l)
    ensures Reaches(false, s, s')
  {
    var run :| Run(false, s, run) == m;
    RunOneMore(false, s, run, l);
  }

  function Demoted(id: UserId, seen: set<Scope>): Tx {
    Tx(true, NO_TABLES.(users := map[id := User("none", false)]), seen)
  }

  // Each transaction has demoted one administrator.
  function Racing(seen1: set<Scope>, seen2: set<Scope>): State {
    State(TwoAdmins(), None, map[1 := Demoted(1, seen1), 2 := Demoted(2, seen2)])
  }

  lemma RaceWrites(s: State)
    requires s == Quiet(TwoAdmins())
    ensures Reaches(false, s, Racing({}, {}))
  {
    var idle := Tx(false, NO_TABLES, {});
    assert Run(false, s, []) == s;
    var s1 := s.(txs := map[1 := idle]);
    Onward(s, s, Begin(1), s1);
    var s2 := s.(txs := map[1 := idle, 2 := idle]);
    Onward(s, s1, Begin(2), s2);
    var s3 := s.(txs := map[1 := Demoted(1, {}), 2 := idle]);
    assert s3.txs == s2.txs[1 := Demoted(1, {})];
    Onward(s, s2, Update(1, Demote(1)), s3);
    Onward(s, s3, Update(2, Demote(2)), Racing({}, {}));
  }

  // And still finds the other one in place.
  lemma StillHeld(id: UserId, left: UserId, scope: Scope)
    requires {id, left} == {1, 2} && id != left && scope in REQUIRED
    ensures Held(View(TwoAdmins(), Demoted(id, {}).own), scope)
  {
    assert Holds(View(TwoAdmins(), Demoted(id, {}).own), left, scope);
    assert left in Holders(View(TwoAdmins(), Demoted(id, {}).own), scope);
  }

  lemma FirstCounts(s: State, scope: Scope, seen: set<Scope>)
    requires Reaches(false, s, Racing(seen, {})) && scope in REQUIRED
    ensures Reaches(false, s, Racing(seen + {scope}, {}))
  {
    StillHeld(1, 2, scope);
    var m := Racing(seen, {});
    assert Racing(seen + {scope}, {}).txs == m.txs[1 := Demoted(1, seen + {scope})];
    Onward(s, m, Count(1, scope), Racing(seen + {scope}, {}));
  }

  lemma SecondCounts(s: State, scope: Scope, first: set<Scope>, seen: set<Scope>)
    requires Reaches(false, s, Racing(first, seen)) && scope in REQUIRED
    ensures Reaches(false, s, Racing(first, seen + {scope}))
  {
    StillHeld(2, 1, scope);
    Onward(s, Racing(first, seen), Count(2, scope), Racing(first, seen + {scope}));
  }

  function Ruined(): Tables {
    TwoAdmins().(users := map[1 := User("none", false), 2 := User("none", false)])
  }

  lemma RaceCommits(s: State)
    requires Reaches(false, s, Racing({UsersManage, RolesManage}, {UsersManage, RolesManage}))
    ensures Reaches(false, s, Quiet(Ruined()))
  {
    var both := {UsersManage, RolesManage};
    var half := TwoAdmins().(users := map[1 := User("none", false), 2 := User("admin", false)]);
    var once := State(half, None, map[2 := Demoted(2, both)]);
    assert once.tables.users == TwoAdmins().users + map[1 := User("none", false)];
    assert once.txs == Without(Racing(both, both).txs, 1);
    Onward(s, Racing(both, both), Commit(1), once);
    assert Ruined().users == once.tables.users + map[2 := User("none", false)];
    assert Without(once.txs, 2) == map[];
    Onward(s, once, Commit(2), Quiet(Ruined()));
  }

  // Without the lock two sessions can leave nobody able to administer anything.
  lemma RaceWithoutTheLock()
    ensures Administrable(TwoAdmins()) && Referential(TwoAdmins())
    ensures Reaches(false, Quiet(TwoAdmins()), Quiet(Ruined()))
    ensures !Held(Ruined(), UsersManage) && !Held(Ruined(), RolesManage)
  {
    assert 1 in Holders(TwoAdmins(), UsersManage) && 1 in Holders(TwoAdmins(), RolesManage);
    var s, u, r := Quiet(TwoAdmins()), UsersManage, RolesManage;
    RaceWrites(s);
    FirstCounts(s, u, {});
    FirstCounts(s, r, {} + {u});
    SecondCounts(s, u, {} + {u} + {r}, {});
    SecondCounts(s, r, {} + {u} + {r}, {} + {u});
    assert {} + {u} + {r} == {u, r};
    RaceCommits(s);
  }
}
