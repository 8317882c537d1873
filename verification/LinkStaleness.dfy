// How old a redirect can be when link operations interleave and cache writes get lost.
module LinkStaleness {
  import opened Common
  import opened Text
  import opened Links
  import LinkCache

  const TTL := 300

  // An entry with the instant its record was read (or committed) and the instant it lapses.
  datatype Entry = Entry(link: Link, readAt: Instant, lapses: Instant)

  // A record some operation holds and has not written to the cache yet.
  datatype Held = Held(link: Link, readAt: Instant)

  // seen: every table that was current at some moment of an instant.
  datatype State = State(db: Db, cache: map<Alias, Entry>, held: set<Held>, now: Instant, seen: map<Instant, set<Db>>)

  datatype Label =
    | Tick
    | CreateLink(link: Link, owner: Option<string>)  // the caller keeps the link it has committed
    | UpdateLink(alias: Alias, columns: Link, rules: Option<seq<Rule>>)
    | BulkUpdate(aliases: set<Alias>, change: Change)
    | PruneExpired(gone: set<Alias>, grace: nat)
    | Load(alias: Alias)                             // GetLinkByAlias, or the re-read after an update
    | WriteBack(entry: Held)
    | Evict(alias: Alias)                            // an eviction, a lapse, or a lost entry

  // A statement (or transaction) that changes the tables.
  predicate Writes(l: Label) {
    l.CreateLink? || l.UpdateLink? || l.BulkUpdate? || l.PruneExpired?
  }

  ghost predicate Possible(db: Db, now: Instant, l: Label)
    requires Writes(l)
  {
    match l
    case CreateLink(link, owner) => Insert(db, link, owner, now).Some?
    case UpdateLink(alias, _, _) => Lookup(db, alias).Some?
    case BulkUpdate(aliases, _) => forall a <- aliases :: Lookup(db, a).Some?
    case PruneExpired(gone, grace) => forall a <- gone :: a in db.rows && Prunable(db.rows[a], now, grace)
  }

  ghost function Next(db: Db, now: Instant, l: Label): Db
    requires Writes(l) && Possible(db, now, l)
  {
    match l
    case CreateLink(link, owner) => Insert(db, link, owner, now).value
    case UpdateLink(alias, columns, rules) => UpdateRow(db, alias, columns, rules)
    case BulkUpdate(aliases, change) => ChangeRows(db, aliases, change)
    case PruneExpired(gone, _) => Prune(db, gone)
  }

  // delay bounds the time between an operation's read or commit and its cache write.
  ghost predicate Enabled(s: State, l: Label, delay: nat) {
    if Writes(l) then Possible(s.db, s.now, l)
    else match l
      case Load(alias) => Lookup(s.db, alias).Some?
      case WriteBack(h) => h in s.held && s.now - h.readAt <= delay
      case _ => true
  }

  ghost function Committed(s: State, db: Db): State
    requires s.now in s.seen
  {
    s.(db := db, seen := s.seen[s.now := s.seen[s.now] + {db}])
  }

  ghost function Holding(s: State, link: Link): State {
    s.(held := s.held + {Held(link, s.now)})
  }

  ghost function Apply(s: State, l: Label, delay: nat): State
    requires Enabled(s, l, delay) && s.now in s.seen
  {
    if Writes(l) then
      var s' := Committed(s, Next(s.db, s.now, l));
      if l.CreateLink? then Holding(s', l.link) else s'
    else match l
      case Tick => s.(now := s.now + 1, seen := s.seen[s.now + 1 := {s.db}])
      case Load(alias) => Holding(s, Lookup(s.db, alias).value)
      case WriteBack(h) => s.(cache := s.cache[h.link.alias := Entry(h.link, h.readAt, s.now + TTL)])
      case Evict(alias) => s.(cache := s.cache - {alias})
  }

  // ---- what must hold ----

  // The record was what its code resolved to, in a table current at that instant.
  ghost predicate WasTrue(s: State, link: Link, at: Instant) {
    at in s.seen && exists db <- s.seen[at] :: Lookup(db, link.alias) == Some(link)
  }

  // Some table current at or after that instant did not have the code.
  ghost predicate Missed(s: State, alias: Alias, since: Instant) {
    exists at, db :: since <= at && at in s.seen && db in s.seen[at] && Lookup(db, alias) == None
  }

  // The code still is the row the record was read from, or has been missing since.
  ghost predicate Traced(s: State, link: Link, at: Instant) {
    || (link.alias in s.db.rows && s.db.rows[link.alias].id == link.id)
    || Missed(s, link.alias, at)
  }

  ghost predicate RecordHolds(s: State, link: Link, at: Instant) {
    WasTrue(s, link, at) && Traced(s, link, at)
  }

  ghost predicate TablesHold(s: State) {
    && s.now in s.seen && s.db in s.seen[s.now] && Written(s.db)
    && forall i <- s.seen :: 0 <= i <= s.now
  }

  ghost predicate Timely(s: State, e: Entry, delay: nat) {
    e.readAt <= e.lapses - TTL <= s.now && e.lapses <= e.readAt + delay + TTL
  }

  ghost predicate HeldHold(s: State) {
    forall h <- s.held :: RecordHolds(s, h.link, h.readAt)
  }

  ghost predicate EntryHolds(s: State, a: Alias, e: Entry, delay: nat) {
    e.link.alias == a && RecordHolds(s, e.link, e.readAt) && Timely(s, e, delay)
  }

  ghost predicate CacheHolds(s: State, delay: nat) {
    forall a <- s.cache :: EntryHolds(s, a, s.cache[a], delay)
  }

  ghost predicate Inv(s: State, delay: nat) {
    TablesHold(s) && HeldHold(s) && CacheHolds(s, delay)
  }

  // What was current stays on record, and a code that is still there is still the same row.
  ghost predicate Follows(s: State, s': State) {
    && (forall i <- s.seen :: i in s'.seen && s.seen[i] <= s'.seen[i])
    && s.now <= s'.now && SameIds(s.db, s'.db)
  }

  ghost predicate SameIds(db: Db, db': Db) {
    forall a <- db.rows :: a in db'.rows ==> db'.rows[a].id == db.rows[a].id
  }

  lemma RecordStays(s: State, s': State, link: Link, at: Instant)
    requires RecordHolds(s, link, at) && TablesHold(s) && TablesHold(s') && Follows(s, s')
    ensures RecordHolds(s', link, at)
  {
    if link.alias in s.db.rows && s.db.rows[link.alias].id == link.id {
      if link.alias !in s'.db.rows {
        assert at <= s'.now && Lookup(s'.db, link.alias) == None;
      }
    } else {
      var i, db :| at <= i && i in s.seen && db in s.seen[i] && Lookup(db, link.alias) == None;
      assert db in s'.seen[i];
    }
  }

  lemma FollowingKeeps(s: State, s': State, delay: nat)
    requires Inv(s, delay) && TablesHold(s') && Follows(s, s') && s'.cache == s.cache && s'.held == s.held
    ensures Inv(s', delay)
  {
    forall h | h in s'.held
      ensures RecordHolds(s', h.link, h.readAt)
    {
      RecordStays(s, s', h.link, h.readAt);
    }
    forall a | a in s'.cache
      ensures EntryHolds(s', a, s'.cache[a], delay)
    {
      assert EntryHolds(s, a, s.cache[a], delay);
      RecordStays(s, s', s.cache[a].link, s.cache[a].readAt);
    }
  }

  // The tables, and what is known of them.
  ghost predicate SameTables(s: State, s': State) {
    s'.db == s.db && s'.seen == s.seen && s'.now == s.now
  }

  lemma RecordSame(s: State, s': State, link: Link, at: Instant)
    requires RecordHolds(s, link, at) && SameTables(s, s')
    ensures RecordHolds(s', link, at)
  {
  }

  lemma HeldStays(s: State, s': State)
    requires HeldHold(s) && SameTables(s, s')
    requires forall h <- s'.held :: h in s.held || RecordHolds(s, h.link, h.readAt)
    ensures HeldHold(s')
  {
    forall h | h in s'.held
      ensures RecordHolds(s', h.link, h.readAt)
    {
      RecordSame(s, s', h.link, h.readAt);
    }
  }

  lemma CacheStays(s: State, s': State, delay: nat)
    requires CacheHolds(s, delay) && SameTables(s, s')
    requires forall a <- s'.cache :: (a in s.cache && s'.cache[a] == s.cache[a]) || EntryHolds(s, a, s'.cache[a], delay)
    ensures CacheHolds(s', delay)
  {
    forall a | a in s'.cache
      ensures EntryHolds(s', a, s'.cache[a], delay)
    {
      assert EntryHolds(s, a, s'.cache[a], delay);
      RecordSame(s, s', s'.cache[a].link, s'.cache[a].readAt);
    }
  }

  // A record is held from the instant at which it was the table's.
  lemma HoldingKeeps(s: State, link: Link, delay: nat)
    requires Inv(s, delay) && Lookup(s.db, link.alias) == Some(link)
    ensures Inv(Holding(s, link), delay)
  {
    assert RecordHolds(s, link, s.now);
    HeldStays(s, Holding(s, link));
    CacheStays(s, Holding(s, link), delay);
  }

  lemma StatementIsWritten(db: Db, now: Instant, l: Label)
    requires Writes(l) && Possible(db, now, l) && Written(db)
    ensures Written(Next(db, now, l))
  {
    match l
    case CreateLink(link, owner) => InsertIsWritten(db, link, owner, now);
    case UpdateLink(alias, columns, rules) => UpdateIsWritten(db, alias, columns, rules);
    case BulkUpdate(aliases, change) => ChangeIsWritten(db, aliases, change);
    case PruneExpired(gone, _) => PruneIsWritten(db, gone);
  }

  lemma StatementKeepsIds(db: Db, now: Instant, l: Label)
    requires Writes(l) && Possible(db, now, l)
    ensures SameIds(db, Next(db, now, l))
  {
  }

  lemma CommittedKeeps(s: State, db: Db, delay: nat)
    requires Inv(s, delay) && Written(db) && SameIds(s.db, db)
    ensures Inv(Committed(s, db), delay)
  {
    FollowingKeeps(s, Committed(s, db), delay);
  }

  lemma CommitKeeps(s: State, l: Label, delay: nat)
    requires Inv(s, delay) && Writes(l) && Possible(s.db, s.now, l)
    ensures Inv(Committed(s, Next(s.db, s.now, l)), delay)
  {
    StatementIsWritten(s.db, s.now, l);
    StatementKeepsIds(s.db, s.now, l);
    CommittedKeeps(s, Next(s.db, s.now, l), delay);
  }

  lemma CreateKeeps(s: State, link: Link, owner: Option<string>, delay: nat)
    requires Inv(s, delay) && Enabled(s, CreateLink(link, owner), delay)
    ensures Inv(Apply(s, CreateLink(link, owner), delay), delay)
  {
    InsertReads(s.db, link, owner, s.now, link.alias);
    CommitKeeps(s, CreateLink(link, owner), delay);
    HoldingKeeps(Committed(s, Insert(s.db, link, owner, s.now).value), link, delay);
  }

  lemma WriteBackKeeps(s: State, h: Held, delay: nat)
    requires Inv(s, delay) && Enabled(s, WriteBack(h), delay)
    ensures Inv(Apply(s, WriteBack(h), delay), delay)
  {
    var s' := Apply(s, WriteBack(h), delay);
    assert RecordHolds(s, h.link, h.readAt);
    HeldStays(s, s');
    CacheStays(s, s', delay);
  }

  lemma EvictKeeps(s: State, alias: Alias, delay: nat)
    requires Inv(s, delay)
    ensures Inv(s.(cache := s.cache - {alias}), delay)
  {
    HeldStays(s, s.(cache := s.cache - {alias}));
    CacheStays(s, s.(cache := s.cache - {alias}), delay);
  }

  // An entry can be lost at any time.
  lemma EntryGetsLost(s: State, alias: Alias, delay: nat)
    requires s.now in s.seen
    ensures var lost := Run(s, [Evict(alias)], delay); alias !in lost.cache && lost == s.(cache := lost.cache)
    ensures forall a <- s.cache :: a != alias ==> a in Run(s, [Evict(alias)], delay).cache
  {
    var lost := Apply(s, Evict(alias), delay);
    assert Run(s, [Evict(alias)], delay) == Run(lost, [], delay) == lost;
  }

  lemma LookupNames(db: Db, alias: Alias)
    ensures Lookup(db, alias).Some? ==> Lookup(db, alias).value.alias == alias
  {
  }

  lemma StepKeeps(s: State, l: Label, delay: nat)
    requires Inv(s, delay) && Enabled(s, l, delay)
    ensures Inv(Apply(s, l, delay), delay)
  {
    match l
    case Tick => FollowingKeeps(s, Apply(s, Tick, delay), delay);
    case CreateLink(link, owner) => CreateKeeps(s, link, owner, delay);
    case Load(alias) => LookupNames(s.db, alias); HoldingKeeps(s, Lookup(s.db, alias).value, delay);
    case WriteBack(h) => WriteBackKeeps(s, h, delay);
    case Evict(alias) => EvictKeeps(s, alias, delay);
    case _ => CommitKeeps(s, l, delay);
  }

  ghost function Run(s: State, run: seq<Label>, delay: nat): State
    requires s.now in s.seen
    decreases |run|
  {
    if run == [] then s
    else if Enabled(s, run[0], delay) then Run(Apply(s, run[0], delay), run[1..], delay)
    else Run(s, run[1..], delay)
  }

  lemma {:induction false} RunKeeps(s: State, run: seq<Label>, delay: nat)
    requires Inv(s, delay)
    ensures Inv(Run(s, run, delay), delay)
    decreases |run|
  {
    if run != [] {
      if Enabled(s, run[0], delay) {
        StepKeeps(s, run[0], delay);
        RunKeeps(Apply(s, run[0], delay), run[1..], delay);
      } else {
        RunKeeps(s, run[1..], delay);
      }
    }
  }

  // A cold cache over a table the program has made.
  ghost function Start(db: Db): State {
    State(db, map[], {}, 0, map[0 := {db}])
  }

  // What Resolve works with: an entry that has not lapsed, or the table.
  ghost function Resolved(s: State, alias: Alias): Option<Link> {
    if Hit(s, alias).Some? then Some(Hit(s, alias).value.link) else Lookup(s.db, alias)
  }

  // The entry Resolve answers from, if it has one.
  ghost function Hit(s: State, alias: Alias): Option<Entry> {
    if alias in s.cache && s.now < s.cache[alias].lapses then Some(s.cache[alias]) else None
  }

  ghost predicate Recent(s: State, at: Instant, delay: nat) {
    s.now - TTL - delay < at <= s.now
  }

  // db was current at some moment of a recent instant.
  ghost predicate Then(s: State, at: Instant, db: Db, delay: nat) {
    Recent(s, at, delay) && at in s.seen && db in s.seen[at]
  }

  lemma RecordOf(s: State, delay: nat, alias: Alias) returns (at: Instant, db: Db)
    requires Inv(s, delay)
    ensures Then(s, at, db, delay) && Lookup(db, alias) == Resolved(s, alias)
    ensures at == if Hit(s, alias).Some? then Hit(s, alias).value.readAt else s.now
  {
    if Hit(s, alias).Some? {
      at := s.cache[alias].readAt;
      assert EntryHolds(s, alias, s.cache[alias], delay);
      db :| db in s.seen[at] && Lookup(db, alias) == Some(s.cache[alias].link);
    } else {
      at, db := s.now, s.db;
    }
  }

  // The history is one of tables the run really went through, at those instants.
  lemma {:induction false} SeenWasCurrent(s: State, run: seq<Label>, delay: nat, at: Instant, db: Db) returns (k: nat)
    requires s.now in s.seen && at in Run(s, run, delay).seen && db in Run(s, run, delay).seen[at]
    ensures k <= |run|
    ensures (at in s.seen && db in s.seen[at])
            || (Run(s, run[..k], delay).now == at && Run(s, run[..k], delay).db == db)
    decreases |run|
  {
    k := 0;
    if run != [] {
      var s' := if Enabled(s, run[0], delay) then Apply(s, run[0], delay) else s;
      var j := SeenWasCurrent(s', run[1..], delay, at, db);
      if !(at in s'.seen && db in s'.seen[at]) {
        k := j + 1;
        assert run[..k][1..] == run[1..][..j];
      } else if !(at in s.seen && db in s.seen[at]) {
        k := 1;
        assert run[..1] == [run[0]] && Run(s', [], delay) == s';
      }
    }
  }

  // Bounded staleness: the record behind an answer is what the code resolved to after the first k
  // steps of the run, less than five minutes plus the longest delay ago, however operations
  // interleave and whichever cache writes are lost.
  lemma RecordsAreRecent(start: Db, run: seq<Label>, delay: nat, alias: Alias) returns (k: nat)
    requires Written(start)
    ensures k <= |run|
    ensures var s, earlier := Run(Start(start), run, delay), Run(Start(start), run[..k], delay);
      && s.now - 300 - delay < earlier.now <= s.now
      && Lookup(earlier.db, alias) == if alias in s.cache && s.now < s.cache[alias].lapses
                                    then Some(s.cache[alias].link) else Lookup(s.db, alias)
  {
    var s := Run(Start(start), run, delay);
    RunKeeps(Start(start), run, delay);
    var at, db := RecordOf(s, delay, alias);
    k := SeenWasCurrent(Start(start), run, delay, at, db);
    if at in Start(start).seen && db in Start(start).seen[at] {
      k := 0;
      assert Run(Start(start), run[..0], delay) == Start(start);
    }
  }

  // A record gives at a later instant the answer it gave before, unless it expired in between.
  lemma AnswersLast(t: Rules, link: Link, at: Instant, now: Instant, agent: string)
    requires at <= now
    ensures AnswerOf(t, Some(link), now, agent) == AnswerOf(t, Some(link), at, agent)
            <==> !(IsUsable(link, at) && link.expiresAt.Some? && link.expiresAt.value <= now)
  {
  }

  // These statements are those of the service's operations: what an operation does to the tables,
  // one of them does.
  lemma OperationIsStatement(t: Rules, permitted: Alias -> string -> bool, s: LinkCache.State, op: LinkCache.Op)
    returns (l: Label)
    requires LinkCache.Coherent(s)
    ensures var db := LinkCache.Apply(t, permitted, s, op).db;
      db == s.db || (Writes(l) && Possible(s.db, s.now, l) && Next(s.db, s.now, l) == db)
  {
    l := Tick;
    match op
    case Create(link, owner) => l := CreateLink(link, owner);
    case Update(id, caller, edit) =>
      if Mine(s.db, id, caller).Some? {
        var alias := Mine(s.db, id, caller).value;
        l := UpdateLink(alias, Edited(LinkOf(s.db, alias), edit), EditedRules(t, permitted(alias), edit));
      }
    case DeleteOne(id, caller) =>
      if Mine(s.db, id, caller).Some? {
        l := BulkUpdate({Mine(s.db, id, caller).value}, Delete);
      }
    case Bulk(ids, caller, change) => l := BulkUpdate(Touched(s.db, ids, caller), change);
    case PruneExpired(gone, grace) => l := PruneExpired(gone, grace);
    case _ =>
  }

  // ---- the answer ----

  // The answer was the true one at some recent instant.
  ghost predicate AnswersRecently(t: Rules, s: State, delay: nat, alias: Alias, agent: string) {
    exists at, db :: Then(s, at, db, delay) &&
      AnswerOf(t, Resolved(s, alias), s.now, agent) == AnswerOf(t, Lookup(db, alias), at, agent)
  }

  ghost predicate Works(db: Db, alias: Alias, at: Instant) {
    Lookup(db, alias).Some? && IsUsable(Lookup(db, alias).value, at)
  }

  // The cached record worked when it was read and has expired since, while the table has the same
  // link still, and that works.
  ghost predicate Overtaken(s: State, alias: Alias) {
    && Hit(s, alias).Some? && Works(s.db, alias, s.now)
    && var e := Hit(s, alias).value;
       && IsUsable(e.link, e.readAt) && !IsUsable(e.link, s.now)
       && s.db.rows[alias].id == e.link.id
  }

  lemma RecentUnlessOvertaken(t: Rules, s: State, delay: nat, alias: Alias, agent: string)
    requires Inv(s, delay) && !Overtaken(s, alias)
    ensures AnswersRecently(t, s, delay, alias, agent)
  {
    assert Then(s, s.now, s.db, delay);
    var at, db := RecordOf(s, delay, alias);
    if Hit(s, alias).Some? {
      var e := Hit(s, alias).value;
      assert EntryHolds(s, alias, e, delay);
      AnswersLast(t, e.link, at, s.now, agent);
      if IsUsable(e.link, at) && !IsUsable(e.link, s.now) && Works(s.db, alias, s.now) {
        assert Traced(s, e.link, at);
        var i, gap :| at <= i && i in s.seen && gap in s.seen[i] && Lookup(gap, alias) == None;
        assert Then(s, i, gap, delay);
      }
    }
  }

  // What can be seen at the moment of an answer: the entry, the table and the time.
  ghost predicate SameView(s: State, s': State, alias: Alias) {
    s'.db == s.db && s'.now == s.now && Hit(s', alias) == Hit(s, alias)
  }

  // ---- an overtaken entry can mislead ----

  ghost predicate Reaches(s: State, s': State, delay: nat)
    requires s.now in s.seen
  {
    exists run :: Run(s, run, delay) == s'
  }

  lemma {:induction false} RunOneMore(s: State, run: seq<Label>, l: Label, delay: nat)
    requires s.now in s.seen
    ensures var m := Run(s, run, delay);
      m.now in m.seen && Run(s, run + [l], delay) == if Enabled(m, l, delay) then Apply(m, l, delay) else m
    decreases |run|
  {
    if run != [] {
      var s' := if Enabled(s, run[0], delay) then Apply(s, run[0], delay) else s;
      RunOneMore(s', run[1..], l, delay);
      assert (run + [l])[1..] == run[1..] + [l];
    }
  }

  lemma Onward(s: State, m: State, l: Label, delay: nat) returns (s': State)
    requires s.now in s.seen && m.now in m.seen && Reaches(s, m, delay) && Enabled(m, l, delay)
    ensures Reaches(s, s', delay) && s' == Apply(m, l, delay) && s'.now in s'.seen
  {
    s' := Apply(m, l, delay);
    var run :| Run(s, run, delay) == m;
    RunOneMore(s, run, l, delay);
  }

  // Nobody who looked at the table ever missed the code.
  ghost predicate NeverMissing(s: State, alias: Alias) {
    s.now in s.seen && forall at <- s.seen, db <- s.seen[at] :: Works(db, alias, at)
  }

  lemma {:induction false} TickOn(s: State, m: State, alias: Alias, n: nat, delay: nat) returns (s': State)
    requires s.now in s.seen && Reaches(s, m, delay) && NeverMissing(m, alias) && Works(m.db, alias, m.now + n)
    ensures Reaches(s, s', delay) && NeverMissing(s', alias)
    ensures s'.now == m.now + n && s'.db == m.db && s'.cache == m.cache && s'.held == m.held
    decreases n
  {
    s' := m;
    if n > 0 {
      s' := Onward(s, m, Tick, delay);
      s' := TickOn(s, s', alias, n - 1, delay);
    }
  }

  // The table as it is but for the code, whose row is the one the entry was read from.
  ghost function Before(db: Db, e: Entry): Db
    requires e.link.alias in db.rows
  {
    UpdateRow(db, e.link.alias, e.link, Some(e.link.rules))
  }

  lemma BeforeReads(db: Db, e: Entry)
    requires Written(db) && Lookup(db, e.link.alias).Some? && db.rows[e.link.alias].id == e.link.id
    ensures Written(Before(db, e)) && Lookup(Before(db, e), e.link.alias) == Some(e.link)
  {
    UpdateIsWritten(db, e.link.alias, e.link, Some(e.link.rules));
    UpdateReads(db, e.link.alias, e.link, Some(e.link.rules), e.link.alias);
  }

  // The update that makes the table of it again.
  ghost function Restore(db: Db, alias: Alias): Label
    requires alias in db.rows
  {
    UpdateLink(alias, LinkOf(db, alias), Some(LinkOf(db, alias).rules))
  }

  // One statement comes between an operation's read and its cache write, and then time passes.
  lemma Overtake(prior: Db, e: Entry, l: Label, db: Db, now: Instant, delay: nat) returns (s: State)
    requires Lookup(prior, e.link.alias) == Some(e.link) && IsUsable(e.link, e.readAt) && Works(db, e.link.alias, now)
    requires l.UpdateLink? && Possible(prior, e.readAt, l) && Next(prior, e.readAt, l) == db
    requires 0 <= e.readAt <= e.lapses - TTL <= now && e.lapses <= e.readAt + delay + TTL
    ensures Reaches(Start(prior), s, delay) && NeverMissing(s, e.link.alias)
    ensures s.db == db && s.now == now && e.link.alias in s.cache && s.cache[e.link.alias] == e
  {
    var alias, start := e.link.alias, Start(prior);
    assert Run(start, [], delay) == start;
    s := TickOn(start, start, alias, e.readAt, delay);
    s := Onward(start, s, Load(alias), delay);
    s := Onward(start, s, l, delay);
    s := TickOn(start, s, alias, e.lapses - TTL - e.readAt, delay);
    s := Onward(start, s, WriteBack(Held(e.link, e.readAt)), delay);
    s := TickOn(start, s, alias, now - s.now, delay);
  }

  lemma NeverMissingIsMisled(t: Rules, s: State, delay: nat, alias: Alias, agent: string)
    requires NeverMissing(s, alias) && Hit(s, alias).Some? && !IsUsable(Hit(s, alias).value.link, s.now)
    ensures !AnswersRecently(t, s, delay, alias, agent)
    ensures AnswerOf(t, Resolved(s, alias), s.now, agent) == Missing
  {
  }

  lemma OvertakenRun(db: Db, e: Entry, now: Instant, delay: nat) returns (run: seq<Label>)
    requires Written(db) && Works(db, e.link.alias, now) && db.rows[e.link.alias].id == e.link.id
    requires IsUsable(e.link, e.readAt)
    requires 0 <= e.readAt <= e.lapses - TTL <= now && e.lapses <= e.readAt + delay + TTL
    ensures Written(Before(db, e))
    ensures var s := Run(Start(Before(db, e)), run, delay);
      && NeverMissing(s, e.link.alias) && s.db == db && s.now == now
      && e.link.alias in s.cache && s.cache[e.link.alias] == e
  {
    BeforeReads(db, e);
    UpdateBack(db, e.link.alias, e.link);
    var s := Overtake(Before(db, e), e, Restore(db, e.link.alias), db, now, delay);
    run :| Run(Start(Before(db, e)), run, delay) == s;
  }

  lemma OvertakenView(s: State, alias: Alias, delay: nat) returns (start: Db, run: seq<Label>)
    requires Inv(s, delay) && Overtaken(s, alias)
    ensures Written(start) && SameView(s, Run(Start(start), run, delay), alias)
    ensures NeverMissing(Run(Start(start), run, delay), alias)
  {
    var e := s.cache[alias];
    assert EntryHolds(s, alias, e, delay);
    start := Before(s.db, e);
    run := OvertakenRun(s.db, e, s.now, delay);
  }

  // Whatever the entry, the table and the time of an overtaken answer: another run shows the same
  // three, and in it the code was never missing, in no table that was ever current.
  lemma OvertakenCanMislead(t: Rules, start: Db, run: seq<Label>, delay: nat, alias: Alias, agent: string)
    returns (start': Db, run': seq<Label>)
    requires Written(start) && Overtaken(Run(Start(start), run, delay), alias)
    ensures Written(start')
    ensures var s, s' := Run(Start(start), run, delay), Run(Start(start'), run', delay);
      && SameView(s, s', alias) && !AnswersRecently(t, s', delay, alias, agent)
      && AnswerOf(t, Resolved(s', alias), s'.now, agent) == Missing && NeverMissing(s', alias)
  {
    RunKeeps(Start(start), run, delay);
    start', run' := OvertakenView(Run(Start(start), run, delay), alias, delay);
    NeverMissingIsMisled(t, Run(Start(start'), run', delay), delay, alias, agent);
  }

  // The answer was the true one at a recent instant, in every run that shows a given entry, table
  // and time, exactly when the entry is not overtaken.
  lemma AnswersAreRecent(t: Rules, start: Db, run: seq<Label>, delay: nat, alias: Alias, agent: string)
    requires Written(start)
    ensures var s := Run(Start(start), run, delay);
      !Overtaken(s, alias) <==>
        forall other, steps :: Written(other) && SameView(s, Run(Start(other), steps, delay), alias) ==>
          AnswersRecently(t, Run(Start(other), steps, delay), delay, alias, agent)
  {
    var s := Run(Start(start), run, delay);
    if Overtaken(s, alias) {
      var other, steps := OvertakenCanMislead(t, start, run, delay, alias, agent);
    } else {
      forall other, steps | Written(other) && SameView(s, Run(Start(other), steps, delay), alias)
        ensures AnswersRecently(t, Run(Start(other), steps, delay), delay, alias, agent)
      {
        RunKeeps(Start(other), steps, delay);
        RecentUnlessOvertaken(t, Run(Start(other), steps, delay), delay, alias, agent);
      }
    }
  }
}
