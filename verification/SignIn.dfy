// A first sign-in through a provider, statement by statement, while other sessions do as they like.
module SignIn {
  import opened Common
  import opened Provisioning
  import Username

  datatype Error = Conflict | NotFound | NotProvisioned | Failed

  predicate Elsewhere(l: Label, t: TxId) {
    (l.InsertUser? || l.InsertIdentity? || l.Commit? || l.Rollback?) ==> l.tx != t
  }

  predicate Foreign(run: seq<Label>, t: TxId) {
    forall i :: 0 <= i < |run| ==> Elsewhere(run[i], t)
  }

  lemma {:induction false} ForeignRunSpares(s: State, run: seq<Label>, t: TxId)
    requires Foreign(run, t)
    ensures var s' := Run(s, run);
      (t in s'.txs <==> t in s.txs) && (t in s.txs ==> s'.txs[t] == s.txs[t])
    decreases |run|
  {
    if run != [] {
      assert Elsewhere(run[0], t);
      ForeignRunSpares(if Enabled(s, run[0]) then Apply(s, run[0]) else s, run[1..], t);
    }
  }

  ghost predicate Alone(others: nat -> seq<Label>) {
    forall i :: others(i) == []
  }

  predicate AllTaken(s: State, base: string, n: nat) {
    forall j :: 1 <= j < n ==> NameTaken(s, Username.Candidate(base, j))
  }

  // The first of the candidates that is free, or the last when none is.
  predicate Chosen(s: State, base: string, r: string) {
    exists k :: 1 <= k <= Username.SUFFIXES && r == Username.Candidate(base, k) &&
                AllTaken(s, base, k) && (NameTaken(s, r) ==> k == Username.SUFFIXES)
  }

  lemma OneMoreTaken(s: State, base: string, n: nat)
    requires AllTaken(s, base, n) && NameTaken(s, Username.Candidate(base, n))
    ensures AllTaken(s, base, n + 1)
  {
  }

  lemma ChosenAt(s: State, base: string, r: string, k: nat)
    requires 1 <= k <= Username.SUFFIXES && r == Username.Candidate(base, k)
    ensures AllTaken(s, base, k) && (NameTaken(s, r) ==> k == Username.SUFFIXES) ==> Chosen(s, base, r)
  {
  }

  // A first sign-in with nobody else about, and fresh ids.
  ghost predicate Undisturbed(s: State, pair: Pair, ids: nat -> UserId, others: nat -> nat -> seq<Label>) {
    && (forall a :: Alone(others(a))) && (forall a :: ids(a) !in s.users)
    && s.txs == map[] && !PairTaken(s, pair)
  }

  // One account more, under the first free name, bound to the pair; or no change at all.
  ghost predicate Provisioned(s: State, pair: Pair, base: string, id: UserId, r: Result<UserId, Error>, s': State) {
    if AllTaken(s, base, Username.SUFFIXES + 1) then r == Err(Conflict) && s' == s
    else exists name ::
        && Chosen(s, base, name) && !NameTaken(s, name)
        && r == Ok(id) && s'.users == s.users[id := User(name, true, false)]
        && s'.identities == s.identities + {Identity(pair, id)}
  }

  class Database {
    var users: map<UserId, User>
    var identities: set<Identity>
    var txs: map<TxId, Tx>
    var found: set<Identity>
    var granted: set<Identity>

    function World(): State
      reads this
    {
      State(users, identities, txs, found, granted)
    }

    constructor ()
      ensures World() == INIT && Inv(World())
    {
      users, identities, txs, found, granted := map[], {}, map[], {}, {};
    }

    method Execute(l: Label)
      requires Inv(World()) && Enabled(World(), l)
      modifies this
      ensures Inv(World()) && World() == Apply(old(World()), l) && Extends(old(World()), World())
    {
      StepKeeps(World(), l);
      var s := Apply(World(), l);
      users, identities, txs, found, granted := s.users, s.identities, s.txs, s.found, s.granted;
    }

    method Interleave(run: seq<Label>, t: TxId)
      requires Inv(World()) && Foreign(run, t)
      modifies this
      ensures Inv(World()) && World() == Run(old(World()), run) && Extends(old(World()), World())
      ensures (t in txs <==> t in old(txs)) && (t in txs ==> txs[t] == old(txs[t]))
    {
      RunKeeps(World(), run);
      ForeignRunSpares(World(), run, t);
      var s := Run(World(), run);
      users, identities, txs, found, granted := s.users, s.identities, s.txs, s.found, s.granted;
    }

    // The binding of a pair, if somebody has made it.
    method FindOIDCIdentity(pair: Pair) returns (r: Option<Identity>)
      requires Inv(World())
      modifies this
      ensures Inv(World()) && Extends(old(World()), World())
      ensures r.Some? ==> r.value in found && r.value.pair == pair
      ensures r == None <==> !PairTaken(World(), pair)
      ensures World() == old(World()).(found := found) && (r == None ==> found == old(found))
    {
      if !PairTaken(World(), pair) {
        return None;
      }
      var i :| i in identities && i.pair == pair;
      Execute(Find(i));
      return Some(i);
    }

    // A disabled account does not sign in.
    method GetUserByID(i: Identity) returns (r: Result<UserId, Error>)
      requires Inv(World()) && i in found
      modifies this
      ensures Inv(World()) && Extends(old(World()), World())
      ensures if users[i.user].disabled then r == Err(NotFound) && World() == old(World())
              else r == Ok(i.user) && i in granted && World() == old(World()).(granted := granted)
    {
      if users[i.user].disabled {
        return Err(NotFound);
      }
      Execute(Grant(i));
      return Ok(i.user);
    }

    // The two inserts of one transaction; anything that stops it rolls both back.
    method InsertBoth(t: TxId, pair: Pair, id: UserId, username: string, others: nat -> seq<Label>)
      returns (r: Result<Identity, Error>)
      requires Inv(World()) && t !in txs && forall i :: Foreign(others(i), t)
      modifies this
      ensures Inv(World()) && Extends(old(World()), World()) && t !in txs
      ensures r.Ok? ==> r.value == Identity(pair, id) && r.value in found && r.value !in old(identities)
      ensures r == Err(NotFound) ==> PairTaken(World(), pair)
      ensures r.Err? ==> r.error in {Conflict, NotFound, Failed}
      ensures Alone(others) && old(txs) == map[] ==>
        && r == old(if id in users || NameTaken(World(), username) then Err(Conflict)
                    else if PairTaken(World(), pair) then Err(NotFound) else Ok(Identity(pair, id)))
        && World() == (if r.Err? then old(World())
                       else old(State(users[id := User(username, true, false)],
                                      identities + {Identity(pair, id)}, map[], found + {Identity(pair, id)}, granted)))
    {
      Interleave(others(0), t);
      if id in users || NameTaken(World(), username) {
        return Err(Conflict);
      }
      if !NameClear(World(), id, username) {
        return Err(Failed);
      }
      Execute(InsertUser(t, id, username));
      Interleave(others(1), t);
      if PairTaken(World(), pair) {
        Execute(Rollback(t));
        return Err(NotFound);
      }
      if !PairClear(World(), pair) {
        Execute(Rollback(t));
        return Err(Failed);
      }
      Execute(InsertIdentity(t, pair));
      Interleave(others(2), t);
      Execute(Commit(t));
      return Ok(Identity(pair, id));
    }

    // Losing the race for the identity is not a failure: the winner's account is the one.
    method ProvisionOIDCUser(t: TxId, pair: Pair, id: UserId, username: string, others: nat -> seq<Label>)
      returns (r: Result<UserId, Error>)
      requires Inv(World()) && t !in txs && forall i :: Foreign(others(i), t)
      modifies this
      ensures Inv(World()) && Extends(old(World()), World()) && t !in txs
      ensures if r.Ok? then Identity(pair, r.value) in granted else r.error in {Conflict, NotFound, Failed}
      ensures Alone(others) && old(txs) == map[] && !PairTaken(old(World()), pair) ==>
        if id in old(users) || NameTaken(old(World()), username) then r == Err(Conflict) && World() == old(World())
        else && r == Ok(id) && txs == map[] && users == old(users)[id := User(username, true, false)]
             && identities == old(identities) + {Identity(pair, id)}
    {
      var bound := InsertBoth(t, pair, id, username, others);
      if bound.Ok? {
        Interleave(others(3), t);
        r := GetUserByID(bound.value);
        return;
      }
      if bound.error != NotFound {
        return Err(bound.error);
      }
      var taken :| taken in identities && taken.pair == pair;
      Interleave(others(3), t);
      var winner := FindOIDCIdentity(pair);
      Interleave(others(4), t);
      r := GetUserByID(winner.value);
    }

    // One lookup of the search.
    method Look(t: TxId, base: string, suffix: nat, others: seq<Label>) returns (r: string, free: bool)
      requires Inv(World()) && Username.Valid(base) && 2 <= suffix <= Username.SUFFIXES && Foreign(others, t)
      modifies this
      ensures Inv(World()) && Extends(old(World()), World()) && (t in txs <==> t in old(txs))
      ensures others == [] ==> World() == old(World())
      ensures r == Username.Candidate(base, suffix) && Username.Valid(r) && (free <==> !NameTaken(World(), r))
    {
      Interleave(others, t);
      r := Username.WithUsernameSuffix(base, suffix);
      Username.SuffixIsValid(base, suffix);
      free := !NameTaken(World(), r);
    }

    // The search of uniqueUsername, with accounts coming and going between its lookups.
    method UniqueUsername(t: TxId, base: string, others: nat -> seq<Label>) returns (r: string)
      requires Inv(World()) && Username.Valid(base) && forall i :: Foreign(others(i), t)
      modifies this
      ensures Inv(World()) && Extends(old(World()), World()) && (t in txs <==> t in old(txs))
      ensures Username.Valid(r)
      ensures Alone(others) ==> World() == old(World()) && Chosen(World(), base, r)
    {
      if !NameTaken(World(), base) {
        ChosenAt(World(), base, base, 1);
        return base;
      }
      var suffix := 2;
      assert Username.Candidate(base, 1) == base;
      while suffix <= Username.SUFFIXES
        invariant 2 <= suffix <= Username.SUFFIXES + 1
        invariant Inv(World()) && Extends(old(World()), World()) && (t in txs <==> t in old(txs))
        invariant Alone(others) ==> World() == old(World()) && AllTaken(World(), base, suffix)
      {
        var free;
        r, free := Look(t, base, suffix, others(suffix));
        if free {
          ChosenAt(World(), base, r, suffix);
          return;
        }
        if Alone(others) {
          OneMoreTaken(World(), base, suffix);
        }
        suffix := suffix + 1;
      }
      Username.SuffixIsValid(base, Username.SUFFIXES);
      r := Username.WithUsernameSuffix(base, Username.SUFFIXES);
      ChosenAt(World(), base, r, Username.SUFFIXES);
    }

    const ATTEMPTS := 3

    method ProvisionAccount(t: TxId, pair: Pair, base: string, ids: nat -> UserId, others: nat -> nat -> seq<Label>)
      returns (r: Result<UserId, Error>, ghost tries: nat)
      requires Inv(World()) && t !in txs && Username.Valid(base)
      requires forall a, i :: Foreign(others(a)(i), t)
      modifies this
      ensures Inv(World()) && Extends(old(World()), World()) && t !in txs
      ensures if r.Ok? then Identity(pair, r.value) in granted else r.error in {Conflict, NotFound, Failed}
      ensures 1 <= tries <= 3 && (r == Err(Conflict) ==> tries == 3)
      ensures Undisturbed(old(World()), pair, ids, others) ==> Provisioned(old(World()), pair, base, ids(0), r, World())
    {
      var attempt := 0;
      r, tries := Err(Conflict), 0;
      while attempt < ATTEMPTS
        invariant 0 <= attempt <= ATTEMPTS && tries == attempt
        invariant Inv(World()) && Extends(old(World()), World()) && t !in txs && r == Err(Conflict)
        invariant Undisturbed(old(World()), pair, ids, others) ==>
                    World() == old(World()) && (attempt > 0 ==> AllTaken(World(), base, Username.SUFFIXES + 1))
      {
        var username := UniqueUsername(t, base, others(2 * attempt));
        r := ProvisionOIDCUser(t, pair, ids(attempt), username, others(2 * attempt + 1));
        tries := tries + 1;
        if r != Err(Conflict) {
          return;
        }
        attempt := attempt + 1;
      }
    }

    method ResolveAccount(t: TxId, pair: Pair, autoProvision: bool, base: string, ids: nat -> UserId,
                          others: nat -> nat -> seq<Label>) returns (r: Result<UserId, Error>)
      requires Inv(World()) && t !in txs && Username.Valid(base)
      requires forall a, i :: Foreign(others(a)(i), t)
      modifies this
      ensures Inv(World()) && Extends(old(World()), World()) && t !in txs
      ensures r.Ok? ==> Identity(pair, r.value) in granted
      ensures !autoProvision && r.Err? ==> r.error == NotProvisioned
      ensures forall i <- old(identities) :: i.pair == pair ==> r == Ok(i.user) || r == Err(NotProvisioned)
      ensures (forall a :: Alone(others(a))) ==>
                && (forall i <- old(identities) :: i.pair == pair ==>
                      r == if old(users)[i.user].disabled then Err(NotProvisioned) else Ok(i.user))
                && (!PairTaken(old(World()), pair) && !autoProvision ==>
                      r == Err(NotProvisioned) && World() == old(World()))
      ensures autoProvision && Undisturbed(old(World()), pair, ids, others) ==>
                Provisioned(old(World()), pair, base, ids(0), r, World())
    {
      var bound := FindOIDCIdentity(pair);
      if bound.Some? {
        Interleave(others(2 * ATTEMPTS)(0), t);
        r := GetUserByID(bound.value);
        return if r.Ok? then r else Err(NotProvisioned);
      }
      if !autoProvision {
        return Err(NotProvisioned);
      }
      ghost var tries;
      r, tries := ProvisionAccount(t, pair, base, ids, others);
    }
  }
}
