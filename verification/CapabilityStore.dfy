// The two guarded writes, statement by statement, while other sessions do as they like.
module CapabilityStore {
  import opened Common
  import opened Capability

  datatype Outcome = Done | NotFound | LastCapabilityHolder(scope: Scope) | Failed

  predicate Elsewhere(l: Label, t: TxId) {
    l.CreateUser? || l.tx != t
  }

  predicate Foreign(run: seq<Label>, t: TxId) {
    forall i :: 0 <= i < |run| ==> Elsewhere(run[i], t)
  }

  // Nobody else can end a transaction, write its versions, or take the lock from it.
  lemma {:induction false} ForeignRunSpares(s: State, run: seq<Label>, t: TxId)
    requires Foreign(run, t) && t in s.txs
    ensures var s' := Run(true, s, run);
      t in s'.txs && s'.txs[t] == s.txs[t] && (s.lock == Some(t) ==> s'.lock == Some(t))
    decreases |run|
  {
    if run != [] {
      assert Elsewhere(run[0], t);
      ForeignRunSpares(if Enabled(true, s, run[0]) then Apply(true, s, run[0]) else s, run[1..], t);
    }
  }

  function With(t: Tables, w: Write): Tables
    requires Hits(t, w)
  {
    View(t, Written(t, w))
  }

  // What a guarded write amounts to when nobody interferes.
  function Guarded(t: Tables, w: Write): (Outcome, Tables) {
    if !Hits(t, w) then (NotFound, t)
    else if !Allowed(t, w) then (Failed, t)
    else Settled(t, With(t, w))
  }

  // Somebody enabled can do it.
  predicate Somebody(t: Tables, scope: Scope) {
    exists id <- t.users ::
      !t.users[id].disabled && t.users[id].role in t.roles && scope in t.roles[t.users[id].role].scopes
  }

  function Settled(t: Tables, after: Tables): (Outcome, Tables) {
    if !Held(after, UsersManage) then (LastCapabilityHolder(UsersManage), t)
    else if !Held(after, RolesManage) then (LastCapabilityHolder(RolesManage), t)
    else (Done, after)
  }

  // What an edit is answered with: the first capability that it leaves nobody with, or done.
  ghost predicate Answered(before: Tables, edited: Tables, r: Outcome, after: Tables) {
    if !Somebody(edited, UsersManage) then r == LastCapabilityHolder(UsersManage) && after == before
    else if !Somebody(edited, RolesManage) then r == LastCapabilityHolder(RolesManage) && after == before
    else r == Done && after == edited
  }

  lemma GuardedUser(t: Tables, id: UserId, role: Option<RoleName>, disabled: Option<bool>)
    requires id in t.users && (role.Some? ==> role.value in t.roles)
    ensures var u := t.users[id];
      var edited := User(if role.Some? then role.value else u.role,
                         if disabled.Some? then disabled.value else u.disabled);
      var (r, after) := Guarded(t, UpdateUser(id, role, disabled));
      Answered(t, Tables(t.roles, t.users[id := edited]), r, after)
  {
    var w := UpdateUser(id, role, disabled);
    var u := t.users[id];
    var edited := User(if role.Some? then role.value else u.role,
                         if disabled.Some? then disabled.value else u.disabled);
    assert With(t, w).users == t.users[id := edited] && With(t, w).roles == t.roles;
    HeldMeansSomebody(With(t, w), UsersManage);
    HeldMeansSomebody(With(t, w), RolesManage);
  }

  lemma GuardedRole(t: Tables, name: RoleName, value: Role)
    requires name in t.roles
    ensures var (r, after) := Guarded(t, UpdateRoleScopes(name, value));
      Answered(t, Tables(t.roles[name := value], t.users), r, after)
  {
    var w := UpdateRoleScopes(name, value);
    assert With(t, w).roles == t.roles[name := value] && With(t, w).users == t.users;
    HeldMeansSomebody(With(t, w), UsersManage);
    HeldMeansSomebody(With(t, w), RolesManage);
  }

  // Field by field, who ends up with what: only the named row, and of it only the named fields.
  lemma GuardedTouchesOneRow(t: Tables, w: Write)
    ensures var (r, t') := Guarded(t, w);
      && (r.Done? ==> Shows(t', w) && Administrable(t'))
      && (!r.Done? ==> t' == t)
      && t'.users.Keys == t.users.Keys && t'.roles.Keys == t.roles.Keys
      && (forall id <- t.users :: !(w.UpdateUser? && w.id == id) ==> t'.users[id] == t.users[id])
      && (forall id <- t.users :: w.UpdateUser? && w.role == None ==> t'.users[id].role == t.users[id].role)
      && (forall id <- t.users :: w.UpdateUser? && w.disabled == None ==> t'.users[id].disabled == t.users[id].disabled)
      && (forall n <- t.roles :: !(w.UpdateRoleScopes? && w.name == n) ==> t'.roles[n] == t.roles[n])
  {
    if Hits(t, w) {
      assert With(t, w).users.Keys == t.users.Keys && With(t, w).roles.Keys == t.roles.Keys;
    }
  }

  // The row the write names holds what the write says.
  predicate Shows(t: Tables, w: Write) {
    match w
    case UpdateUser(id, role, disabled) =>
      && id in t.users && (role.Some? ==> t.users[id].role == role.value)
      && (disabled.Some? ==> t.users[id].disabled == disabled.value)
    case UpdateRoleScopes(name, value) => name in t.roles && t.roles[name] == value
  }

  ghost predicate Alone(others: nat -> seq<Label>) {
    forall i :: others(i) == []
  }

  class Store {
    var tables: Tables
    var lock: Option<TxId>
    var txs: map<TxId, Tx>
    ghost var commits: nat  // writes these methods themselves committed

    function World(): State
      reads this
    {
      State(tables, lock, txs)
    }

    constructor (t: Tables)
      requires Administrable(t) && Referential(t)
      ensures Inv(World()) && World() == Quiet(t)
    {
      tables, lock, txs, commits := t, None, map[], 0;
    }

    method Execute(l: Label)
      requires Inv(World()) && Enabled(true, World(), l)
      modifies this
      ensures Inv(World()) && World() == Apply(true, old(World()), l)
      ensures commits == old(commits) + if l.Commit? then 1 else 0
    {
      StepKeeps(World(), l);
      commits := commits + if l.Commit? then 1 else 0;
      var s := Apply(true, World(), l);
      tables, lock, txs := s.tables, s.lock, s.txs;
    }

    method Interleave(run: seq<Label>, t: TxId)
      requires Inv(World()) && Foreign(run, t) && t in txs
      modifies this
      ensures Inv(World()) && World() == Run(true, old(World()), run) && commits == old(commits)
      ensures t in txs && txs[t] == old(txs[t]) && (old(lock) == Some(t) ==> lock == Some(t))
    {
      RunKeeps(World(), run);
      ForeignRunSpares(World(), run, t);
      var s := Run(true, World(), run);
      tables, lock, txs := s.tables, s.lock, s.txs;
    }

    // The first required capability the transaction finds nobody enabled to hold.
    method RequireCapabilityHolders(t: TxId, others: nat -> seq<Label>) returns (missing: Option<Scope>)
      requires Inv(World()) && lock == Some(t) && t in txs && txs[t].wrote
      requires forall i :: Foreign(others(i), t)
      modifies this
      ensures Inv(World()) && lock == Some(t) && t in txs && commits == old(commits)
      ensures txs[t] == old(txs[t]).(seen := txs[t].seen)
      ensures missing == None ==> UsersManage in txs[t].seen && RolesManage in txs[t].seen
      ensures Alone(others) ==>
        tables == old(tables) && var v := View(tables, txs[t].own);
          missing == if !Somebody(v, UsersManage) then Some(UsersManage)
                     else if !Somebody(v, RolesManage) then Some(RolesManage) else None
    {
      hide Capability.Inv;
      HeldMeansSomebody(View(tables, txs[t].own), UsersManage);
      HeldMeansSomebody(View(tables, txs[t].own), RolesManage);
      var i := 0;
      while i < |REQUIRED|
        invariant 0 <= i <= |REQUIRED|
        invariant Inv(World()) && lock == Some(t) && t in txs && txs[t].wrote && commits == old(commits)
        invariant txs[t] == old(txs[t]).(seen := txs[t].seen)
        invariant forall k :: 0 <= k < i ==> REQUIRED[k] in txs[t].seen
        invariant Alone(others) ==>
                    tables == old(tables) && forall k :: 0 <= k < i ==> Held(View(tables, txs[t].own), REQUIRED[k])
      {
        Interleave(others(i + 2), t);
        if !Held(View(tables, txs[t].own), REQUIRED[i]) {
          assert Alone(others) && i == 1 ==> Held(View(tables, txs[t].own), REQUIRED[0]);
          return Some(REQUIRED[i]);
        }
        Execute(Count(t, REQUIRED[i]));
        i := i + 1;
      }
      assert REQUIRED[0] in txs[t].seen && REQUIRED[1] in txs[t].seen;
      return None;
    }

    // A missing role or flag is left as it is.
    method UpdateUser(t: TxId, id: UserId, role: Option<RoleName>, disabled: Option<bool>, others: nat -> seq<Label>)
      returns (r: Outcome)
      requires Inv(World()) && t !in txs
      requires forall i :: Foreign(others(i), t)
      modifies this
      ensures Inv(World()) && t !in txs && commits == old(commits) + if r.Done? then 1 else 0
      ensures r.Done? ==> id in tables.users
      ensures r.Done? && role.Some? ==> tables.users[id].role == role.value
      ensures r.Done? && disabled.Some? ==> tables.users[id].disabled == disabled.value
      ensures Alone(others) && old(lock) == None ==>
        var before := old(tables);
        if id !in before.users then r == NotFound && tables == before
        else if role.Some? && role.value !in before.roles then r == Failed && tables == before
        else
          var u := before.users[id];
          var edited := User(if role.Some? then role.value else u.role,
                         if disabled.Some? then disabled.value else u.disabled);
          Answered(before, Tables(before.roles, before.users[id := edited]), r, tables)
    {
      r := Guard(t, Capability.UpdateUser(id, role, disabled), others);
      if Alone(others) && old(lock) == None && id in old(tables).users
         && (role.Some? ==> role.value in old(tables).roles) {
        GuardedUser(old(tables), id, role, disabled);
      }
    }

    method UpdateRoleScopes(t: TxId, name: RoleName, value: Role, others: nat -> seq<Label>) returns (r: Outcome)
      requires Inv(World()) && t !in txs
      requires forall i :: Foreign(others(i), t)
      modifies this
      ensures Inv(World()) && t !in txs && commits == old(commits) + if r.Done? then 1 else 0
      ensures r.Done? ==> name in tables.roles && tables.roles[name] == value
      ensures Alone(others) && old(lock) == None ==>
        var before := old(tables);
        if name !in before.roles then r == NotFound && tables == before
        else Answered(before, Tables(before.roles[name := value], before.users), r, tables)
    {
      r := Guard(t, Capability.UpdateRoleScopes(name, value), others);
      if Alone(others) && old(lock) == None && name in old(tables).roles {
        GuardedRole(old(tables), name, value);
      }
    }

    // What the two have in common: begin, lock, write, count, commit.
    method Guard(t: TxId, w: Write, others: nat -> seq<Label>) returns (r: Outcome)
      requires Inv(World()) && t !in txs
      requires forall i :: Foreign(others(i), t)
      modifies this
      ensures Inv(World()) && t !in txs
      ensures commits == old(commits) + if r.Done? then 1 else 0
      ensures r.Done? ==> Shows(tables, w)
      ensures Alone(others) && old(lock) == None ==> (r, tables) == Guarded(old(tables), w)
    {
      var locked := Enter(t, others);
      if !locked {
        return Failed;
      }
      r := WriteRow(t, w);
      if !r.Done? {
        GiveUp(t);
        return;
      }
      r := Settle(t, w, others);
    }

    method Settle(t: TxId, w: Write, others: nat -> seq<Label>) returns (r: Outcome)
      requires Inv(World()) && lock == Some(t) && t in txs && txs[t].wrote && Shows(txs[t].own, w)
      requires forall i :: Foreign(others(i), t)
      modifies this
      ensures Inv(World()) && t !in txs && (r.Done? || r.LastCapabilityHolder?)
      ensures commits == old(commits) + if r.Done? then 1 else 0
      ensures r.Done? ==> Shows(tables, w)
      ensures Alone(others) ==> (r, tables) == old(Settled(tables, View(tables, txs[t].own)))
    {
      HeldMeansSomebody(View(tables, txs[t].own), UsersManage);
      HeldMeansSomebody(View(tables, txs[t].own), RolesManage);
      var missing := RequireCapabilityHolders(t, others);
      if missing.Some? {
        GiveUp(t);
        return LastCapabilityHolder(missing.value);
      }
      Finish(t, w, others(4));
      return Done;
    }

    // BEGIN and the advisory lock; a caller that cannot wait any longer rolls back.
    method Enter(t: TxId, others: nat -> seq<Label>) returns (locked: bool)
      requires Inv(World()) && t !in txs
      requires forall i :: Foreign(others(i), t)
      modifies this
      ensures Inv(World()) && commits == old(commits)
      ensures if locked then lock == Some(t) && t in txs && !txs[t].wrote else t !in txs
      ensures Alone(others) && old(lock) == None ==> locked && tables == old(tables)
    {
      Execute(Begin(t));
      Interleave(others(0), t);
      if lock != None {
        GiveUp(t);
        return false;
      }
      Execute(Lock(t));
      Interleave(others(1), t);
      return true;
    }

    method GiveUp(t: TxId)
      requires Inv(World()) && t in txs
      modifies this
      ensures Inv(World()) && t !in txs && tables == old(tables) && commits == old(commits)
    {
      Execute(Rollback(t));
    }

    method Finish(t: TxId, w: Write, others: seq<Label>)
      requires Inv(World()) && t in txs && Foreign(others, t)
      requires UsersManage in txs[t].seen && RolesManage in txs[t].seen
      requires Shows(txs[t].own, w)
      modifies this
      ensures Inv(World()) && t !in txs && commits == old(commits) + 1
      ensures Shows(tables, w)
      ensures others == [] ==> tables == View(old(tables), old(txs[t].own))
    {
      Interleave(others, t);
      Execute(Commit(t));
    }

    method WriteRow(t: TxId, w: Write) returns (r: Outcome)
      requires Inv(World()) && lock == Some(t) && t in txs && !txs[t].wrote
      modifies this
      ensures Inv(World()) && lock == Some(t) && t in txs && tables == old(tables) && commits == old(commits)
      ensures r == if !Hits(tables, w) then NotFound else if !Allowed(tables, w) then Failed else Done
      ensures r.Done? ==> txs[t].wrote && txs[t].own == Written(tables, w) && Shows(txs[t].own, w)
    {
      if !Hits(tables, w) {
        return NotFound;
      }
      if !Allowed(tables, w) {
        return Failed;
      }
      forall u | u in txs
        ensures Untouched(txs[u], w)
      {
        assert TxHolds(World(), u);
      }
      Execute(Update(t, w));
      return Done;
    }
  }
}
