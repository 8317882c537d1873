// The redirect cache against the table it shadows, operation by operation.
module LinkCache {
  import opened Common
  import opened Text
  import opened Links

  datatype State = State(db: Db, cache: map<Alias, Link>, now: Instant)

  // One operation of the service or of the worker, from its first statement to its last cache
  // write, or a moment in which time passes or the cache loses an entry.
  datatype Op =
    | Create(link: Link, owner: Option<string>)
    | Update(id: LinkId, caller: Option<string>, edit: Edit)
    | DeleteOne(id: LinkId, caller: Option<string>)
    | Bulk(ids: set<LinkId>, caller: Option<string>, change: Change)
    | PruneExpired(gone: set<Alias>, grace: nat)
    | Resolve(alias: Alias)
    | Forget(alias: Alias)
    | Wait(seconds: nat)

  // permitted(alias) stands for the checks on a destination of that code.
  ghost function Apply(t: Rules, permitted: Alias -> string -> bool, s: State, op: Op): State {
    match op
    case Create(link, owner) =>
      (match Insert(s.db, link, owner, s.now)
       case None => s
       case Some(db) => s.(db := db, cache := s.cache[link.alias := link]))
    case Update(id, caller, edit) =>
      if Mine(s.db, id, caller) == None then s
      else
        var alias := Mine(s.db, id, caller).value;
        if !Acceptable(t, permitted(alias), edit) then s
        else
          var db := UpdateRow(s.db, alias, Edited(LinkOf(s.db, alias), edit), EditedRules(t, permitted(alias), edit));
          s.(db := db, cache := s.cache[alias := LinkOf(db, alias)])
    case DeleteOne(id, caller) =>
      if Mine(s.db, id, caller) == None then s
      else
        var alias := Mine(s.db, id, caller).value;
        s.(db := ChangeRows(s.db, {alias}, Delete), cache := s.cache - {alias})
    case Bulk(ids, caller, change) =>
      var aliases := Touched(s.db, ids, caller);
      s.(db := ChangeRows(s.db, aliases, change), cache := if Silent(change) then s.cache else s.cache - aliases)
    case PruneExpired(gone, grace) =>
      if forall a <- gone :: a in s.db.rows && Prunable(s.db.rows[a], s.now, grace)
      then s.(db := Prune(s.db, gone)) else s
    case Resolve(alias) =>
      if alias !in s.cache && Lookup(s.db, alias).Some? && IsUsable(Lookup(s.db, alias).value, s.now)
      then s.(cache := s.cache[alias := Lookup(s.db, alias).value]) else s
    case Forget(alias) => s.(cache := s.cache - {alias})
    case Wait(seconds) => s.(now := s.now + seconds)
  }

  // The entry answers like the row, or is for a row that has been pruned after it expired.
  ghost predicate Shadows(entry: Link, looked: Option<Link>, now: Instant) {
    if looked.Some? then SameRedirect(entry, looked.value)
    else entry.expiresAt.Some? && entry.expiresAt.value <= now
  }

  ghost predicate Coherent(s: State) {
    && Consistent(s.db)
    && forall a <- s.cache :: Shadows(s.cache[a], Lookup(s.db, a), s.now)
  }

  function Cached(s: State, alias: Alias): Option<Link> {
    if alias in s.cache then Some(s.cache[alias]) else None
  }

  lemma CreateKeeps(t: Rules, permitted: Alias -> string -> bool, s: State, link: Link, owner: Option<string>)
    requires Coherent(s)
    ensures Coherent(Apply(t, permitted, s, Create(link, owner)))
  {
    var s' := Apply(t, permitted, s, Create(link, owner));
    if Insert(s.db, link, owner, s.now).Some? {
      InsertReads(s.db, link, owner, s.now, link.alias);
      forall a | a in s'.cache
        ensures Shadows(s'.cache[a], Lookup(s'.db, a), s'.now)
      {
        InsertReads(s.db, link, owner, s.now, a);
      }
    }
  }

  lemma UpdateKeeps(t: Rules, permitted: Alias -> string -> bool, s: State, id: LinkId, caller: Option<string>,
                    edit: Edit)
    requires Coherent(s)
    ensures Coherent(Apply(t, permitted, s, Update(id, caller, edit)))
  {
    var s' := Apply(t, permitted, s, Update(id, caller, edit));
    if Mine(s.db, id, caller).Some? && Acceptable(t, permitted(Mine(s.db, id, caller).value), edit) {
      var alias := Mine(s.db, id, caller).value;
      var l, rules := Edited(LinkOf(s.db, alias), edit), EditedRules(t, permitted(alias), edit);
      UpdateReads(s.db, alias, l, rules, alias);
      forall a | a in s'.cache
        ensures Shadows(s'.cache[a], Lookup(s'.db, a), s'.now)
      {
        UpdateReads(s.db, alias, l, rules, a);
      }
    }
  }

  lemma ChangeKeeps(s: State, aliases: set<Alias>, c: Change)
    requires Coherent(s)
    ensures Coherent(s.(db := ChangeRows(s.db, aliases, c), cache := if Silent(c) then s.cache else s.cache - aliases))
  {
    var s' := s.(db := ChangeRows(s.db, aliases, c), cache := if Silent(c) then s.cache else s.cache - aliases);
    ChangeReads(s.db, aliases, c, "");
    forall a | a in s'.cache
      ensures Shadows(s'.cache[a], Lookup(s'.db, a), s'.now)
    {
      ChangeReads(s.db, aliases, c, a);
    }
  }

  lemma PruneKeeps(t: Rules, permitted: Alias -> string -> bool, s: State, gone: set<Alias>, grace: nat)
    requires Coherent(s)
    ensures Coherent(Apply(t, permitted, s, PruneExpired(gone, grace)))
  {
    var s' := Apply(t, permitted, s, PruneExpired(gone, grace));
    if s' != s {
      PruneReads(s.db, gone, "");
      forall a | a in s'.cache
        ensures Shadows(s'.cache[a], Lookup(s'.db, a), s'.now)
      {
        PruneReads(s.db, gone, a);
      }
    }
  }

  lemma OpKeeps(t: Rules, permitted: Alias -> string -> bool, s: State, op: Op)
    requires Coherent(s)
    ensures Coherent(Apply(t, permitted, s, op))
  {
    match op
    case Create(link, owner) => CreateKeeps(t, permitted, s, link, owner);
    case Update(id, caller, edit) => UpdateKeeps(t, permitted, s, id, caller, edit);
    case DeleteOne(id, caller) =>
      if Mine(s.db, id, caller).Some? {
        ChangeKeeps(s, {Mine(s.db, id, caller).value}, Delete);
      }
    case Bulk(ids, caller, change) => ChangeKeeps(s, Touched(s.db, ids, caller), change);
    case PruneExpired(gone, grace) => PruneKeeps(t, permitted, s, gone, grace);
    case Resolve(_) =>
    case Forget(_) =>
    case Wait(_) =>
  }

  ghost function Run(t: Rules, permitted: Alias -> string -> bool, s: State, history: seq<Op>): State
    decreases |history|
  {
    if history == [] then s else Run(t, permitted, Apply(t, permitted, s, history[0]), history[1..])
  }

  const EMPTY := State(Db(map[], map[], {}), map[], 0)

  lemma {:induction false} RunKeeps(t: Rules, permitted: Alias -> string -> bool, s: State, history: seq<Op>)
    requires Coherent(s)
    ensures Coherent(Run(t, permitted, s, history))
    decreases |history|
  {
    if history != [] {
      OpKeeps(t, permitted, s, history[0]);
      RunKeeps(t, permitted, Apply(t, permitted, s, history[0]), history[1..]);
    }
  }

  // What the histories leave open: an entry can be lost, and time can pass, between any two operations.
  lemma LossesAndTime(t: Rules, permitted: Alias -> string -> bool, s: State, alias: Alias, seconds: nat)
    ensures var s' := Run(t, permitted, s, [Forget(alias), Wait(seconds)]);
      && Cached(s', alias) == None && s'.db == s.db && s'.now == s.now + seconds
      && forall a :: a != alias ==> Cached(s', a) == Cached(s, a)
  {
    var lost := Apply(t, permitted, s, Forget(alias));
    var later := Apply(t, permitted, lost, Wait(seconds));
    assert [Forget(alias), Wait(seconds)][1..] == [Wait(seconds)];
    assert Run(t, permitted, lost, [Wait(seconds)]) == Run(t, permitted, later, []) == later;
  }

  // Nobody can tell the cache is there: after any serial history, a cached answer is the answer
  // the table gives at that moment, for every code and every visitor.
  lemma CacheIsTransparent(t: Rules, permitted: Alias -> string -> bool, history: seq<Op>, alias: Alias, agent: string)
    ensures var s := Run(t, permitted, EMPTY, history);
      Cached(s, alias).Some? ==>
        AnswerOf(t, Cached(s, alias), s.now, agent) == AnswerOf(t, Lookup(s.db, alias), s.now, agent)
  {
    RunKeeps(t, permitted, EMPTY, history);
  }
}
