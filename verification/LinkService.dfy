// The link service over the table and the cache, one call at a time.
module LinkService {
  import opened Common
  import opened Text
  import opened Links
  import opened LinkCache
  import opened LinkMeaning

  const ALIAS_ATTEMPTS := 5

  lemma {:induction false} SomeRowIsFirst(rows: set<RuleRow>)
    requires rows != {}
    ensures exists r :: First(r, rows)
  {
    var r :| r in rows;
    if rows == {r} {
      assert First(r, rows);
    } else {
      SomeRowIsFirst(rows - {r});
      var q :| First(q, rows - {r});
      assert First(if r.position < q.position then r else q, rows);
    }
  }

  // ORDER BY position, one row at a time.
  method OrderRules(rows: set<RuleRow>) returns (rules: seq<Rule>)
    requires forall p <- rows, q <- rows :: p.position == q.position ==> p == q
    ensures rules == LoadRules(rows)
  {
    rules := [];
    var left := rows;
    while left != {}
      invariant left <= rows
      invariant rules + LoadRules(left) == LoadRules(rows)
    {
      SomeRowIsFirst(left);
      var r :| r in left && forall q <- left :: r.position <= q.position;
      assert First(r, left);
      rules := rules + [RuleOf(r)];
      left := left - {r};
    }
  }

  method NormalizeRuleList(t: Rules, permitted: string -> bool, rules: seq<Rule>) returns (r: Option<seq<Rule>>)
    ensures r == Links.NormalizeRules(t, permitted, rules)
  {
    if |rules| > MAX_RULES {
      return None;
    }
    r := NormalizeEach(r => NormalRule(t, permitted, r), rules);
  }

  method NormalizeEach(rule: Rule -> Option<Rule>, rules: seq<Rule>) returns (r: Option<seq<Rule>>)
    ensures r == Each(rule, rules)
  {
    EachStaysInOrder(rule, rules);
    var out: seq<Rule> := [];
    for i := 0 to |rules|
      invariant |out| == i
      invariant forall j :: 0 <= j < i ==> rule(rules[j]) == Some(out[j])
    {
      var normal := rule(rules[i]);
      if normal == None {
        return None;
      }
      out := out + [normal.value];
    }
    assert out == Each(rule, rules).value;
    return Some(out);
  }

  // Who asks, and what the settings say about codes and caps. A cap of zero is none.
  datatype Caller = Caller(owner: Option<string>, unrestricted: bool)
  datatype Policy = Policy(unique: bool, cap: int)

  datatype Created =
    | New(link: Link) | Existing(link: Link)
    | Invalid | BadAlias | QuotaExceeded | SelfDestination | Conflict

  // The request as it is stored: the code defaulted, the rules in their final form; None when it
  // is refused.
  function Prepared(t: Rules, allowed: string -> bool, l: Link): Option<Link> {
    if !allowed(l.destination) || l.code !in [0, 301, 302] || !(0 <= l.delay <= MAX_DELAY) then None
    else match Links.NormalizeRules(t, allowed, l.rules)
      case None => None
      case Some(rules) => Some(l.(code := if l.code == 0 then 302 else l.code, rules := rules))
  }

  predicate AliasChar(c: char) {
    'A' <= c <= 'Z' || 'a' <= c <= 'z' || '0' <= c <= '9' || c == '_' || c == '-'
  }

  // ^[A-Za-z0-9][A-Za-z0-9_-]{2,63}$
  predicate WellFormed(alias: Alias) {
    && 3 <= |alias| <= 64 && alias[0] != '_' && alias[0] != '-'
    && forall i :: 0 <= i < |alias| ==> AliasChar(alias[i])
  }

  // The link has the row's columns and its rules by position.
  ghost predicate Carries(l: Link, db: Db, alias: Alias)
    requires alias in db.rows
  {
    var row := db.rows[alias];
    && l.alias == alias && l.id == row.id && l.destination == row.destination && l.code == row.code
    && l.status == row.status && l.expiresAt == row.expiresAt && l.delay == row.delay
    && l.rules == LoadRules(OfLink(db.rules, row.id))
  }

  predicate Reusable(r: LinkRow, destination: string, owner: string, now: Instant) {
    && r.destination == destination && r.owner == Some(owner) && !r.deleted && r.status == "active"
    && (r.expiresAt == None || r.expiresAt.value > now)
  }

  // The caller's own live link of that id, or anybody's for a caller without an owner.
  ghost predicate MayTouch(row: LinkRow, id: LinkId, caller: Option<string>) {
    row.id == id && !row.deleted && (caller == None || row.owner == caller)
  }

  lemma MineIsTouchable(db: Db, id: LinkId, caller: Option<string>)
    requires Consistent(db)
    ensures Mine(db, id, caller).Some? ==>
              Mine(db, id, caller).value in db.rows && MayTouch(db.rows[Mine(db, id, caller).value], id, caller)
    ensures forall a <- db.rows :: MayTouch(db.rows[a], id, caller) ==> Mine(db, id, caller) == Some(a)
  {
  }

  // The columns the edit names, and nothing else of the row or of any other.
  ghost predicate EditSaved(before: Db, after: Db, a: Alias, edit: Edit) {
    && a in before.rows && a in after.rows && after.rows == before.rows[a := after.rows[a]]
    && var row := before.rows[a];
       after.rows[a] == row.(
         destination := if edit.destination != "" then edit.destination else row.destination,
         code := if edit.code != 0 then edit.code else row.code,
         status := if edit.status != "" then edit.status else row.status,
         expiresAt := if edit.expiresAt.Some? then edit.expiresAt.value else row.expiresAt,
         delay := if edit.delay.Some? then edit.delay.value else row.delay,
         tags := if edit.tags.Some? then edit.tags.value else row.tags)
  }

  // What each bulk edit writes.
  ghost predicate RowChanged(before: LinkRow, after: LinkRow, change: Change) {
    match change
    case Delete => after == before.(status := "deleted", deleted := true)
    case SetStatus(status) => after == before.(status := status)
    case SetExpiry(expiresAt) => after == before.(expiresAt := expiresAt)
    case Tag(tags) => after == before.(tags := before.tags + tags)
    case Untag(tags) => after == before.(tags := before.tags - tags)
  }

  ghost predicate Oldest(db: Db, alias: Alias, destination: string, owner: string, now: Instant) {
    && alias in db.rows && Reusable(db.rows[alias], destination, owner, now)
    && forall a <- db.rows ::
         Reusable(db.rows[a], destination, owner, now) ==> db.rows[alias].created <= db.rows[a].created
  }

  lemma {:induction false} OldestExists(rows: map<Alias, LinkRow>, aliases: set<Alias>)
    requires aliases != {} && aliases <= rows.Keys
    ensures exists alias :: alias in aliases && forall a <- aliases :: rows[alias].created <= rows[a].created
  {
    var x :| x in aliases;
    if aliases != {x} {
      OldestExists(rows, aliases - {x});
      var y :| y in aliases - {x} && forall a <- aliases - {x} :: rows[y].created <= rows[a].created;
      var oldest := if rows[x].created < rows[y].created then x else y;
      assert forall a <- aliases :: a == x || a in aliases - {x};
      assert oldest in aliases && forall a <- aliases :: rows[oldest].created <= rows[a].created;
    }
  }

  // The rows whose expiry is before that time.
  ghost function Expired(rows: map<Alias, LinkRow>, before: Instant): (due: set<Alias>)
    ensures due <= rows.Keys && forall a <- due :: rows[a].expiresAt.Some?
  {
    set a | a in rows && rows[a].expiresAt.Some? && rows[a].expiresAt.value < before
  }

  // Those of the candidates that expired first, as many as the limit allows.
  ghost predicate FirstExpired(rows: map<Alias, LinkRow>, gone: set<Alias>, due: set<Alias>, limit: nat)
    requires gone <= due <= rows.Keys && forall a <- due :: rows[a].expiresAt.Some?
  {
    && |gone| == (if |due| <= limit then |due| else limit)
    && forall a <- gone, b <- due - gone :: rows[a].expiresAt.value <= rows[b].expiresAt.value
  }

  lemma {:induction false} EarliestExists(rows: map<Alias, LinkRow>, due: set<Alias>)
    requires due != {} && due <= rows.Keys && forall a <- due :: rows[a].expiresAt.Some?
    ensures exists x :: x in due && forall a <- due :: rows[x].expiresAt.value <= rows[a].expiresAt.value
  {
    var x :| x in due;
    if due != {x} {
      EarliestExists(rows, due - {x});
      var y :| y in due - {x} && forall a <- due - {x} :: rows[y].expiresAt.value <= rows[a].expiresAt.value;
      var first := if rows[x].expiresAt.value < rows[y].expiresAt.value then x else y;
      assert forall a <- due :: a == x || a in due - {x};
      assert first in due && forall a <- due :: rows[first].expiresAt.value <= rows[a].expiresAt.value;
    }
  }

  // The subselect of the pruning statement: ordered by expiry, cut off at the limit.
  method OrderByExpiry(rows: map<Alias, LinkRow>, due: set<Alias>, limit: nat) returns (gone: set<Alias>)
    requires due <= rows.Keys && forall a <- due :: rows[a].expiresAt.Some?
    ensures gone <= due && FirstExpired(rows, gone, due, limit)
  {
    gone := {};
    var left := due;
    while |gone| < limit && left != {}
      invariant gone + left == due && gone !! left && |gone| <= limit
      invariant forall a <- gone, b <- left :: rows[a].expiresAt.value <= rows[b].expiresAt.value
      decreases left
    {
      EarliestExists(rows, left);
      var first :| first in left && forall a <- left :: rows[first].expiresAt.value <= rows[a].expiresAt.value;
      gone, left := gone + {first}, left - {first};
    }
    assert due - gone == left && |due| == |gone| + |left|;
  }

  // CountLinksByOwner: deleting a link frees its place.
  function Owned(rows: map<Alias, LinkRow>, owner: string): set<Alias> {
    set a | a in rows && rows[a].owner == Some(owner) && !rows[a].deleted
  }

  predicate Capped(caller: Caller, cap: int) {
    cap > 0 && caller.owner.Some? && !caller.unrestricted
  }

  predicate AtCap(db: Db, caller: Caller, cap: int) {
    Capped(caller, cap) && |Owned(db.rows, caller.owner.value)| >= cap
  }

  // The link or one of its rules would lead back to its own short path.
  predicate SelfDestined(self: (Alias, string) -> bool, link: Link) {
    || self(link.alias, link.destination)
    || exists i :: 0 <= i < |link.rules| && self(link.alias, link.rules[i].destination)
  }

  // What one draw is up against.
  datatype Draws = Draws(code: nat -> Alias, id: nat -> LinkId)

  function Draw(candidate: Link, draws: Draws, i: nat): Link {
    candidate.(id := draws.id(i), alias := draws.code(i))
  }

  // The draw is passed over: a built-in route, or a code (or id) that is taken.
  predicate Skipped(db: Db, reserved: Alias -> bool, self: (Alias, string) -> bool, link: Link) {
    reserved(link.alias) || (!SelfDestined(self, link) && (link.alias in db.rows || link.id in db.ids))
  }

  // The first draw that is not.
  predicate Settles(db: Db, reserved: Alias -> bool, self: (Alias, string) -> bool, candidate: Link, draws: Draws,
                    i: nat) {
    && !Skipped(db, reserved, self, Draw(candidate, draws, i))
    && forall j: nat :: j < i ==> Skipped(db, reserved, self, Draw(candidate, draws, j))
  }

  lemma OneMoreOwned(rows: map<Alias, LinkRow>, alias: Alias, r: LinkRow, owner: string)
    requires alias !in rows && r.owner == Some(owner) && !r.deleted
    ensures |Owned(rows[alias := r], owner)| == |Owned(rows, owner)| + 1
  {
    assert Owned(rows[alias := r], owner) == Owned(rows, owner) + {alias};
  }

  class Service {
    const t: Rules
    const allowed: string -> bool           // URL syntax and denied hosts
    const self: (Alias, string) -> bool     // whether a destination is the code's own short path
    const permitted: Alias -> string -> bool
    const reserved: Alias -> bool
    var db: Db
    var cache: map<Alias, Link>
    var now: Instant

    ghost function Now(): State
      reads this
    {
      State(db, cache, now)
    }

    ghost predicate Valid()
      reads this
    {
      && Coherent(Now())
      && forall a, d :: permitted(a)(d) <==> allowed(d) && !self(a, d)
    }

    constructor (t: Rules, allowed: string -> bool, reserved: Alias -> bool, self: (Alias, string) -> bool)
      ensures Valid() && Now() == EMPTY
      ensures this.t == t && this.allowed == allowed && this.reserved == reserved && this.self == self
    {
      this.t, this.allowed, this.reserved, this.self := t, allowed, reserved, self;
      permitted := a => d => allowed(d) && !self(a, d);
      db, cache, now := Db(map[], map[], {}), map[], 0;
    }

    method ReadLink(alias: Alias) returns (link: Link)
      requires Consistent(db) && alias in db.rows
      ensures link == LinkOf(db, alias)
    {
      var r := db.rows[alias];
      var rules := OrderRules(OfLink(db.rules, r.id));
      return Link(r.id, alias, r.destination, r.code, r.status, r.expiresAt, r.delay, r.tags, rules);
    }

    method Resolve(alias: Alias) returns (r: Option<Link>)
      requires Valid()
      modifies this`cache
      ensures Valid() && Now() == Apply(t, permitted, old(Now()), Op.Resolve(alias))
      ensures forall agent :: AnswerOf(t, r, now, agent) == AnswerOf(t, Lookup(db, alias), now, agent)
      ensures r.Some? <==>
                && alias in db.rows && !db.rows[alias].deleted && db.rows[alias].status == "active"
                && (db.rows[alias].expiresAt == None || db.rows[alias].expiresAt.value > now)
      ensures r.Some? ==> Carries(r.value, db, alias)
    {
      if alias in cache {
        if IsUsable(cache[alias], now) {
          return Some(cache[alias]);
        }
        return None;
      }
      if alias !in db.rows || db.rows[alias].deleted {
        return None;
      }
      var link := ReadLink(alias);
      if !IsUsable(link, now) {
        return None;
      }
      OpKeeps(t, permitted, Now(), Op.Resolve(alias));
      cache := cache[alias := link];
      return Some(link);
    }

    method CreateLink(link: Link, owner: Option<string>) returns (ok: bool)
      requires Valid()
      modifies this`db, this`cache
      ensures Valid() && Now() == Apply(t, permitted, old(Now()), Op.Create(link, owner))
      ensures ok <==> link.alias !in old(db).rows && link.id !in old(db).ids
      ensures ok ==> Lookup(db, link.alias) == Some(link) && db.rows.Keys == old(db).rows.Keys + {link.alias}
      ensures ok ==> db.rows[link.alias].owner == owner && db.rows[link.alias].created == now
      ensures forall a <- old(db).rows :: db.rows[a] == old(db).rows[a]
    {
      OpKeeps(t, permitted, Now(), Op.Create(link, owner));
      var next := Insert(db, link, owner, now);
      if next.None? {
        return false;
      }
      InsertReads(db, link, owner, now, link.alias);
      db := next.value;
      cache := cache[link.alias := link];
      return true;
    }

    // The oldest of the caller's own links for a destination that still resolve.
    method FindLiveLinkByDestination(destination: string, owner: string) returns (r: Option<Link>)
      requires Valid()
      ensures r.Some? <==> exists a <- db.rows :: Reusable(db.rows[a], destination, owner, now)
      ensures r.Some? ==> r == Lookup(db, r.value.alias) && Oldest(db, r.value.alias, destination, owner, now)
    {
      var candidates := set a | a in db.rows && db.rows[a].destination == destination && db.rows[a].owner == Some(owner)
                                && !db.rows[a].deleted && db.rows[a].status == "active"
                                && !(db.rows[a].expiresAt.Some? && db.rows[a].expiresAt.value <= now);
      assert forall a <- db.rows :: Reusable(db.rows[a], destination, owner, now) ==> a in candidates;
      if candidates == {} {
        return None;
      }
      OldestExists(db.rows, candidates);
      var alias :| alias in candidates && forall a <- candidates :: db.rows[alias].created <= db.rows[a].created;
      var link := ReadLink(alias);
      return Some(link);
    }

    // A link under a generated code: an existing one where codes are reused, or else a new one
    // within the caller's cap.
    method Create(request: Link, caller: Caller, policy: Policy, draws: Draws) returns (r: Created)
      requires Valid()
      modifies this`db, this`cache
      ensures Valid() && now == old(now) && (!r.New? ==> Now() == old(Now())) && !r.BadAlias?
      ensures r.Invalid? <==> Prepared(t, allowed, request) == None
      ensures r.Existing? <==> !r.Invalid? && policy.unique && caller.owner.Some? && exists a <- old(db).rows ::
                                 Reusable(old(db).rows[a], request.destination, caller.owner.value, now)
      ensures r.Existing? ==> Lookup(db, r.link.alias) == Some(r.link)
                              && Oldest(db, r.link.alias, request.destination, caller.owner.value, now)
      ensures r.QuotaExceeded? <==> !r.Invalid? && !r.Existing? && AtCap(old(db), caller, policy.cap)
      ensures !r.Invalid? && !r.Existing? && !r.QuotaExceeded? ==>
                Generated(old(db), Prepared(t, allowed, request).value, draws, r)
      ensures r.New? ==> Lookup(db, r.link.alias) == Some(r.link)
      ensures r.New? ==> Now() == Apply(t, permitted, old(Now()), Op.Create(r.link, caller.owner))
      ensures r.New? && Capped(caller, policy.cap) ==> |Owned(db.rows, caller.owner.value)| <= policy.cap
    {
      var candidate := Prepare(request);
      if candidate.None? {
        return Invalid;
      }
      if policy.unique && caller.owner.Some? {
        var existing := FindLiveLinkByDestination(request.destination, caller.owner.value);
        if existing.Some? {
          return Existing(existing.value);
        }
      }
      var full := QuotaReached(caller, policy.cap);
      if full {
        return QuotaExceeded;
      }
      ghost var before := db;
      r := Generate(candidate.value, caller.owner, draws);
      if r.New? && Capped(caller, policy.cap) {
        OneMoreOwned(before.rows, r.link.alias, db.rows[r.link.alias], caller.owner.value);
      }
    }

    method Prepare(request: Link) returns (r: Option<Link>)
      ensures r == Prepared(t, allowed, request)
    {
      if !allowed(request.destination) {
        return None;
      }
      var rules := NormalizeRuleList(t, allowed, request.rules);
      if rules.None? {
        return None;
      }
      var code := if request.code == 0 then 302 else request.code;
      if (code != 301 && code != 302) || request.delay < 0 || request.delay > 60 {
        return None;
      }
      return Some(request.(code := code, rules := rules.value));
    }

    // A link under the code the caller names: never an existing one.
    method CreateNamed(request: Link, caller: Caller, policy: Policy) returns (r: Created)
      requires Valid()
      modifies this`db, this`cache
      ensures Valid() && now == old(now) && (!r.New? ==> Now() == old(Now())) && !r.Existing?
      ensures r.Invalid? <==> Prepared(t, allowed, request) == None
      ensures r.BadAlias? <==> !r.Invalid? && (reserved(request.alias) || !WellFormed(request.alias))
      ensures r.QuotaExceeded? <==> !r.Invalid? && !r.BadAlias? && AtCap(old(db), caller, policy.cap)
      ensures !r.Invalid? && !r.BadAlias? && !r.QuotaExceeded? ==>
                var link := Prepared(t, allowed, request).value;
                && (r.SelfDestination? <==> SelfDestined(self, link))
                && (r.New? <==> !r.SelfDestination? && link.alias !in old(db).rows && link.id !in old(db).ids)
                && (r.New? ==>
                      r.link == link && Now() == Apply(t, permitted, old(Now()), Op.Create(link, caller.owner)))
    {
      var link := Prepare(request);
      if link.None? {
        return Invalid;
      }
      var valid := ValidateAlias(request.alias);
      if !valid {
        return BadAlias;
      }
      var full := QuotaReached(caller, policy.cap);
      if full {
        return QuotaExceeded;
      }
      var loops := LeadsToItself(link.value);
      if loops {
        return SelfDestination;
      }
      var ok := CreateLink(link.value, caller.owner);
      return if ok then New(link.value) else Conflict;
    }

    // Only accounts that are not unrestricted have a cap, and a cap of zero is none.
    method QuotaReached(caller: Caller, cap: int) returns (full: bool)
      ensures full <==> AtCap(db, caller, cap)
    {
      if cap <= 0 || caller.owner == None || caller.unrestricted {
        return false;
      }
      var live := set a | a in db.rows && db.rows[a].owner == caller.owner && !db.rows[a].deleted;
      assert live == Owned(db.rows, caller.owner.value);
      return |live| >= cap;
    }

    method ValidateAlias(alias: Alias) returns (ok: bool)
      ensures ok <==> !reserved(alias) && WellFormed(alias)
    {
      if reserved(alias) || |alias| < 3 || |alias| > 64 || alias[0] == '_' || alias[0] == '-' {
        return false;
      }
      for i := 0 to |alias|
        invariant forall j :: 0 <= j < i ==> AliasChar(alias[j])
      {
        var c := alias[i];
        if !('a' <= c <= 'z') && !('A' <= c <= 'Z') && !('0' <= c <= '9') && c != '-' && c != '_' {
          return false;
        }
      }
      return true;
    }

    method LeadsToItself(link: Link) returns (yes: bool)
      ensures yes <==> SelfDestined(self, link)
    {
      if self(link.alias, link.destination) {
        return true;
      }
      for i := 0 to |link.rules|
        invariant forall j :: 0 <= j < i ==> !self(link.alias, link.rules[j].destination)
      {
        if self(link.alias, link.rules[i].destination) {
          return true;
        }
      }
      return false;
    }

    // What the draws come to: the first that is not passed over decides, if there is one.
    ghost predicate Generated(before: Db, candidate: Link, draws: Draws, r: Created) {
      && (r.New? || r.SelfDestination? || r.Conflict?)
      && (r.Conflict? ==>
            forall i: nat :: i < 5 ==> Skipped(before, reserved, self, Draw(candidate, draws, i)))
      && (!r.Conflict? ==> exists i: nat :: i < 5 && Settles(before, reserved, self, candidate, draws, i)
                                            && (r.SelfDestination? <==> SelfDestined(self, Draw(candidate, draws, i)))
                                            && (r.New? ==> r.link == Draw(candidate, draws, i)))
    }

    // Up to five draws, each with a fresh id, skipping reserved and taken codes.
    method Generate(candidate: Link, owner: Option<string>, draws: Draws) returns (r: Created)
      requires Valid()
      modifies this`db, this`cache
      ensures Valid() && now == old(now) && Generated(old(db), candidate, draws, r)
      ensures !r.New? ==> Now() == old(Now())
      ensures r.New? ==> Lookup(db, r.link.alias) == Some(r.link) && Insert(old(db), r.link, owner, now).Some?
      ensures r.New? ==> Now() == Apply(t, permitted, old(Now()), Op.Create(r.link, owner))
    {
      hide LinkCache.Coherent;
      for attempt := 0 to ALIAS_ATTEMPTS
        invariant Valid() && Now() == old(Now())
        invariant forall i: nat :: i < attempt ==> Skipped(db, reserved, self, Draw(candidate, draws, i))
      {
        var link := candidate.(id := draws.id(attempt), alias := draws.code(attempt));
        assert link == Draw(candidate, draws, attempt);
        if reserved(link.alias) {
          continue;
        }
        var loops := LeadsToItself(link);
        if loops {
          assert Settles(db, reserved, self, candidate, draws, attempt);
          return SelfDestination;
        }
        ghost var before := db;
        var ok := CreateLink(link, owner);
        if ok {
          assert Settles(before, reserved, self, candidate, draws, attempt);
          return New(link);
        }
      }
      return Conflict;
    }

    method Update(id: LinkId, caller: Option<string>, edit: Edit) returns (r: Option<Link>)
      requires Valid()
      modifies this`db, this`cache
      ensures Valid() && Now() == Apply(t, permitted, old(Now()), Op.Update(id, caller, edit))
      ensures r.Some? <==> exists a <- old(db).rows ::
                             MayTouch(old(db).rows[a], id, caller) && Acceptable(t, permitted(a), edit)
      ensures r.Some? ==> Lookup(db, r.value.alias) == r && r.value.id == id
      ensures r.Some? ==> EditSaved(old(db), db, r.value.alias, edit)
      ensures r.Some? && edit.rules.Some? ==> RulesStored(t, permitted(r.value.alias), edit.rules.value, r.value.rules)
      ensures r.Some? && edit.rules == None ==> r.value.rules == LinkOf(old(db), r.value.alias).rules
    {
      OpKeeps(t, permitted, Now(), Op.Update(id, caller, edit));
      MineIsTouchable(db, id, caller);
      var mine := Mine(db, id, caller);
      if mine.None? || !Acceptable(t, permitted(mine.value), edit) {
        return None;
      }
      var updated := SaveEdit(mine.value, edit);
      cache := cache[mine.value := updated];
      return Some(updated);
    }

    // The caller's changes over the link that was loaded.
    method SaveEdit(alias: Alias, edit: Edit) returns (updated: Link)
      requires Consistent(db) && Lookup(db, alias).Some? && Acceptable(t, permitted(alias), edit)
      modifies this`db
      ensures Consistent(db) && Lookup(db, alias) == Some(updated) && updated == LinkOf(db, alias)
      ensures updated.alias == alias && updated.id == old(db).rows[alias].id
      ensures var rules := EditedRules(t, permitted(alias), edit);
        db == UpdateRow(old(db), alias, Edited(LinkOf(old(db), alias), edit), rules)
      ensures EditSaved(old(db), db, alias, edit)
      ensures edit.rules.Some? ==> RulesStored(t, permitted(alias), edit.rules.value, updated.rules)
      ensures edit.rules == None ==> updated.rules == LinkOf(old(db), alias).rules
    {
      if edit.rules.Some? {
        RulesAreStored(t, permitted(alias), edit.rules.value);
      }
      var link := ReadLink(alias);
      updated := UpdateLink(alias, Edited(link, edit), EditedRules(t, permitted(alias), edit));
    }

    // The write, and the link read back after it.
    method UpdateLink(alias: Alias, columns: Link, rules: Option<seq<Rule>>) returns (updated: Link)
      requires Consistent(db) && Lookup(db, alias).Some?
      modifies this`db
      ensures db == UpdateRow(old(db), alias, columns, rules) && Consistent(db)
      ensures updated == LinkOf(db, alias) && Lookup(db, alias) == Some(updated)
      ensures updated == columns.(id := old(db).rows[alias].id, alias := alias,
                                  rules := if rules == None then LinkOf(old(db), alias).rules else rules.value)
    {
      UpdateReads(db, alias, columns, rules, alias);
      db := UpdateRow(db, alias, columns, rules);
      updated := ReadLink(alias);
    }

    method Delete(id: LinkId, caller: Option<string>) returns (ok: bool)
      requires Valid()
      modifies this`db, this`cache
      ensures Valid() && Now() == Apply(t, permitted, old(Now()), DeleteOne(id, caller))
      ensures ok <==> exists a <- old(db).rows :: MayTouch(old(db).rows[a], id, caller)
      ensures forall a <- old(db).rows ::
                && a in db.rows
                && db.rows[a] == if MayTouch(old(db).rows[a], id, caller)
                                 then old(db).rows[a].(status := "deleted", deleted := true) else old(db).rows[a]
    {
      OpKeeps(t, permitted, Now(), DeleteOne(id, caller));
      var mine := Mine(db, id, caller);
      if mine.None? {
        return false;
      }
      db := ChangeRows(db, {mine.value}, Links.Delete);
      cache := cache - {mine.value};
      return true;
    }

    // Everything but tag edits drops the cache entries of the rows it touched.
    method Bulk(ids: set<LinkId>, caller: Option<string>, change: Change) returns (touched: set<Alias>)
      requires Valid()
      modifies this`db, this`cache
      ensures Valid() && Now() == Apply(t, permitted, old(Now()), Op.Bulk(ids, caller, change))
      ensures touched == set a | a in old(db).rows && exists i <- ids :: MayTouch(old(db).rows[a], i, caller)
      ensures cache == if change.Tag? || change.Untag? then old(cache) else old(cache) - touched
      ensures forall a <- old(db).rows ::
                && a in db.rows && (a !in touched ==> db.rows[a] == old(db).rows[a])
                && (a in touched ==> RowChanged(old(db).rows[a], db.rows[a], change))
    {
      OpKeeps(t, permitted, Now(), Op.Bulk(ids, caller, change));
      touched := Touched(db, ids, caller);
      db := ChangeRows(db, touched, change);
      if !Silent(change) {
        Evict(touched);
      }
    }

    method Evict(aliases: set<Alias>)
      modifies this`cache
      ensures cache == old(cache) - aliases
    {
      var left := aliases;
      while left != {}
        invariant left <= aliases && cache == old(cache) - (aliases - left)
      {
        var alias :| alias in left;
        cache := cache - {alias};
        left := left - {alias};
      }
      assert aliases - {} == aliases;
    }

    // The worker's statement; the cache is not told.
    method PruneExpiredLinks(grace: nat, limit: nat) returns (gone: set<Alias>)
      requires Valid()
      modifies this`db
      ensures Valid() && Now() == Apply(t, permitted, old(Now()), PruneExpired(gone, grace))
      ensures var due := Expired(old(db).rows, now - grace); gone <= due && FirstExpired(old(db).rows, gone, due, limit)
      ensures db.rows.Keys == old(db).rows.Keys - gone && forall a <- db.rows :: db.rows[a] == old(db).rows[a]
    {
      gone := ExpiredLinks(grace, limit);
      OpKeeps(t, permitted, Now(), PruneExpired(gone, grace));
      db := Prune(db, gone);
    }

    method ExpiredLinks(grace: nat, limit: nat) returns (gone: set<Alias>)
      ensures var due := Expired(db.rows, now - grace); gone <= due && FirstExpired(db.rows, gone, due, limit)
      ensures forall a <- gone :: a in db.rows && Prunable(db.rows[a], now, grace)
    {
      var due := set a | a in db.rows && Prunable(db.rows[a], now, grace);
      assert due == Expired(db.rows, now - grace);
      gone := OrderByExpiry(db.rows, due, limit);
    }
  }
}
