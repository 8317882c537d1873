// Raw clicks, the daily counters built from them, and every transaction that rolls clicks up.
//
// A step is one SQL statement (or a commit or rollback) of one session. Transactions keep
// their own row versions until they commit; a row version holds its row lock.
module ClickRollup {
  import opened Common
  import opened Calendar
  import opened ClickScan

  type TxId = nat

  datatype Event = Event(link: LinkId, day: Day, bot: bool, processed: bool)

  // One AggregateClicks transaction after its SELECT ... FOR UPDATE SKIP LOCKED: the event
  // rows it has locked, their grouping, the groups not upserted yet, its uncommitted counter
  // rows, and whether it has marked its events processed.
  datatype Tx = Tx(rows: seq<Row>, counts: map<string, Aggregate>, todo: set<string>,
                   writes: map<Bucket, Counter>, marked: bool)

  // credits is the history of event ids over all committed batches.
  datatype State = State(links: set<LinkId>, events: map<EventId, Event>, daily: map<Bucket, Counter>,
                         txs: map<TxId, Tx>, next: EventId, credits: multiset<EventId>)

  datatype Label =
    | AddLink(link: LinkId)
    | Click(clicked: LinkId, day: Day, bot: bool)
    | Claim(tx: TxId, rows: seq<Row>, batchSize: nat)
    | Upsert(tx: TxId, key: string)
    | Mark(tx: TxId)
    | Commit(tx: TxId)
    | Rollback(tx: TxId)
    | DeleteLinks(gone: set<LinkId>)

  const INIT := State({}, map[], map[], map[], 0, multiset{})

  function At(daily: map<Bucket, Counter>, b: Bucket): Counter {
    if b in daily then daily[b] else Counter(0, 0)
  }

  // The rows are distinct committed events, as they stand.
  predicate Reads(events: map<EventId, Event>, rows: seq<Row>) {
    rows == [] ||
    var r := rows[|rows| - 1];
    && Reads(events, rows[..|rows| - 1])
    && r.id !in IdSet(rows[..|rows| - 1])
    && r.id in events
    && events[r.id] == Event(r.link, r.day, r.bot, false)
  }

  function BucketOf(a: Aggregate): Bucket {
    (a.link, a.day)
  }

  // What PostgreSQL's locks and constraints demand before the statement can finish.
  predicate Enabled(s: State, l: Label) {
    match l
    case AddLink(_) => true
    case Click(link, _, _) => link in s.links
    case Claim(t, rows, batchSize) =>
      && t !in s.txs && |rows| <= batchSize && Reads(s.events, rows)
      && (forall u <- s.txs :: IdSet(s.txs[u].rows) !! IdSet(rows))
    case Upsert(t, key) =>
      && t in s.txs && key in s.txs[t].todo && key in s.txs[t].counts
      && (forall u <- s.txs :: u != t ==> BucketOf(s.txs[t].counts[key]) !in s.txs[u].writes)
    case Mark(t) => t in s.txs && s.txs[t].todo == {} && s.txs[t].rows != []
    case Commit(t) => t in s.txs && s.txs[t].todo == {} && (s.txs[t].marked || s.txs[t].rows == [])
    case Rollback(t) => t in s.txs
    case DeleteLinks(gone) =>
      forall u <- s.txs :: Spares(s.events, s.txs[u], gone)
  }

  // The transaction holds no row lock that a cascading delete would have to wait for.
  predicate Spares(events: map<EventId, Event>, x: Tx, gone: set<LinkId>) {
    && (forall id <- IdSet(x.rows) :: id in events ==> events[id].link !in gone)
    && (forall b <- x.writes :: b.0 !in gone)
  }

  function Apply(s: State, l: Label): State
    requires Enabled(s, l)
  {
    match l
    case AddLink(link) => s.(links := s.links + {link})
    case Click(link, day, bot) =>
      s.(events := s.events[s.next := Event(link, day, bot, false)], next := s.next + 1)
    case Claim(t, rows, _) =>
      s.(txs := s.txs[t := Tx(rows, Group(rows), Group(rows).Keys, map[], false)])
    case Upsert(t, key) => s.(txs := s.txs[t := Upserted(s.daily, s.txs[t], key)])
    case Mark(t) => s.(txs := s.txs[t := s.txs[t].(marked := true)])
    case Commit(t) =>
      var x := s.txs[t];
      s.(events := Processing(s.events, IdSet(x.rows)), daily := s.daily + x.writes, txs := Without(s.txs, t),
         credits := s.credits + multiset(IdSet(x.rows)))
    case Rollback(t) => s.(txs := Without(s.txs, t))
    case DeleteLinks(gone) =>
      s.(links := s.links - gone, events := Surviving(s.events, gone),
         daily := map b | b in s.daily && b.0 !in gone :: s.daily[b])
  }

  // INSERT ... ON CONFLICT DO UPDATE: the transaction's own version of the row, or else the committed one.
  function Upserted(daily: map<Bucket, Counter>, x: Tx, key: string): Tx
    requires key in x.counts
  {
    var b := BucketOf(x.counts[key]);
    var seen := if b in x.writes then x.writes[b] else At(daily, b);
    x.(todo := x.todo - {key}, writes := x.writes[b := seen.Plus(Counter(x.counts[key].count, x.counts[key].botCount))])
  }

  function Processing(events: map<EventId, Event>, ids: set<EventId>): map<EventId, Event> {
    map id | id in events :: if id in ids then events[id].(processed := true) else events[id]
  }

  function Surviving(events: map<EventId, Event>, gone: set<LinkId>): map<EventId, Event> {
    map id | id in events && events[id].link !in gone :: events[id]
  }

  // ---- what must hold ----

  predicate Hit(e: Event, b: Bucket, botsOnly: bool) {
    e.link == b.0 && e.day == b.1 && (botsOnly ==> e.bot)
  }

  // The processed events of a bucket, or only the bots among them.
  function Counted(events: map<EventId, Event>, b: Bucket, botsOnly: bool): set<EventId> {
    set id | id in events && events[id].processed && Hit(events[id], b, botsOnly)
  }

  function Truth(events: map<EventId, Event>, b: Bucket): Counter {
    Counter(|Counted(events, b, false)|, |Counted(events, b, true)|)
  }

  ghost predicate Conserved(s: State) {
    forall b: Bucket :: At(s.daily, b) == Truth(s.events, b)
  }

  ghost predicate CountedOnce(s: State) {
    && (forall id :: s.credits[id] <= 1)
    && (forall id <- s.events :: s.credits[id] == if s.events[id].processed then 1 else 0)
    && (forall id <- s.events :: id < s.next)
    && (forall id <- s.credits :: id < s.next)
  }

  ghost predicate TxHolds(s: State, x: Tx) {
    && Reads(s.events, x.rows)
    && x.counts == Group(x.rows)
    && x.todo <= x.counts.Keys
    && forall b: Bucket :: WriteHolds(s.daily, x, b)
  }

  // A written row is the committed one plus the whole batch's share, once its group is done.
  ghost predicate WriteHolds(daily: map<Bucket, Counter>, x: Tx, b: Bucket) {
    && (b in x.writes <==> KeyOf(b.0, b.1) in x.counts.Keys - x.todo)
    && (b in x.writes ==> x.writes[b] == At(daily, b).Plus(Tally(x.rows, b)))
  }

  ghost predicate Apart(x: Tx, y: Tx) {
    IdSet(x.rows) !! IdSet(y.rows) && x.writes.Keys !! y.writes.Keys
  }

  ghost predicate Inv(s: State) {
    && Conserved(s)
    && CountedOnce(s)
    && (forall t <- s.txs :: TxHolds(s, s.txs[t]))
    && (forall t <- s.txs, u <- s.txs :: t != u ==> Apart(s.txs[t], s.txs[u]))
  }

  // ---- counting ----

  function Match(events: map<EventId, Event>, ids: set<EventId>, b: Bucket, botsOnly: bool): set<EventId> {
    set id | id in ids && id in events && Hit(events[id], b, botsOnly)
  }

  lemma {:induction false} TallyCountsMatches(events: map<EventId, Event>, rows: seq<Row>, b: Bucket, botsOnly: bool)
    requires Reads(events, rows)
    ensures Tally(rows, b).Of(botsOnly) == |Match(events, IdSet(rows), b, botsOnly)|
  {
    if rows != [] {
      var init, r := rows[..|rows| - 1], rows[|rows| - 1];
      TallyCountsMatches(events, init, b, botsOnly);
      MatchGrows(events, IdSet(init), r.id, b, botsOnly);
    }
  }

  lemma MatchGrows(events: map<EventId, Event>, ids: set<EventId>, id: EventId, b: Bucket, botsOnly: bool)
    requires id in events && id !in ids
    ensures |Match(events, ids + {id}, b, botsOnly)| ==
            |Match(events, ids, b, botsOnly)| + if Hit(events[id], b, botsOnly) then 1 else 0
  {
    assert Match(events, ids + {id}, b, botsOnly) ==
           Match(events, ids, b, botsOnly) + if Hit(events[id], b, botsOnly) then {id} else {};
  }

  lemma {:induction false} ReadsSees(events: map<EventId, Event>, rows: seq<Row>, id: EventId)
    requires Reads(events, rows) && id in IdSet(rows)
    ensures id in events && !events[id].processed
  {
    if id != rows[|rows| - 1].id {
      ReadsSees(events, rows[..|rows| - 1], id);
    }
  }

  lemma {:induction false} ReadsStays(e: map<EventId, Event>, f: map<EventId, Event>, rows: seq<Row>)
    requires Reads(e, rows)
    requires forall id <- IdSet(rows) :: id in e ==> id in f && f[id] == e[id]
    ensures Reads(f, rows)
  {
    if rows != [] {
      ReadsStays(e, f, rows[..|rows| - 1]);
    }
  }

  // Marking a claimed batch raises the true count of every bucket by exactly the batch's tally.
  lemma MarkingAddsTheTally(events: map<EventId, Event>, rows: seq<Row>, b: Bucket)
    requires Reads(events, rows)
    ensures Truth(Processing(events, IdSet(rows)), b) == Truth(events, b).Plus(Tally(rows, b))
  {
    forall id | id in IdSet(rows)
      ensures id in events && !events[id].processed
    {
      ReadsSees(events, rows, id);
    }
    MarkedCounts(events, IdSet(rows), b, false);
    MarkedCounts(events, IdSet(rows), b, true);
    TallyCountsMatches(events, rows, b, false);
    TallyCountsMatches(events, rows, b, true);
  }

  lemma MarkedCounts(events: map<EventId, Event>, ids: set<EventId>, b: Bucket, botsOnly: bool)
    requires forall id <- ids :: id in events && !events[id].processed
    ensures |Counted(Processing(events, ids), b, botsOnly)| ==
            |Counted(events, b, botsOnly)| + |Match(events, ids, b, botsOnly)|
  {
    assert Counted(Processing(events, ids), b, botsOnly) ==
           Counted(events, b, botsOnly) + Match(events, ids, b, botsOnly);
    assert Counted(events, b, botsOnly) !! Match(events, ids, b, botsOnly);
  }

  // ---- every step keeps the invariant ----

  lemma ClickKeeps(s: State, link: LinkId, day: Day, bot: bool)
    requires Inv(s) && Enabled(s, Click(link, day, bot))
    ensures Inv(Apply(s, Click(link, day, bot)))
  {
    var s' := Apply(s, Click(link, day, bot));
    forall b: Bucket
      ensures At(s'.daily, b) == Truth(s'.events, b)
    {
      assert Counted(s'.events, b, false) == Counted(s.events, b, false);
      assert Counted(s'.events, b, true) == Counted(s.events, b, true);
    }
    forall t | t in s'.txs
      ensures TxHolds(s', s'.txs[t])
    {
      ReadsStays(s.events, s'.events, s.txs[t].rows);
    }
  }

  lemma FreshClaimHolds(daily: map<Bucket, Counter>, rows: seq<Row>)
    ensures forall b: Bucket :: WriteHolds(daily, Tx(rows, Group(rows), Group(rows).Keys, map[], false), b)
  {
  }

  // One transaction changes its own state, and nothing else does.
  lemma TxChangeKeeps(s: State, t: TxId, x: Tx)
    requires Inv(s) && TxHolds(s, x)
    requires forall u <- s.txs :: u != t ==> Apart(x, s.txs[u]) && Apart(s.txs[u], x)
    ensures Inv(s.(txs := s.txs[t := x]))
  {
    var s' := s.(txs := s.txs[t := x]);
    OthersHold(s, s', t);
    forall u | u in s'.txs
      ensures TxHolds(s', s'.txs[u])
    {
      if u == t {
        SameTables(s, s', x);
      }
    }
    forall u, v | u in s'.txs && v in s'.txs && u != v
      ensures Apart(s'.txs[u], s'.txs[v])
    {
      if u != t && v != t {
        assert Apart(s.txs[u], s.txs[v]);
      }
    }
  }

  lemma SameTables(s: State, s': State, x: Tx)
    requires s'.events == s.events && s'.daily == s.daily && TxHolds(s, x)
    ensures TxHolds(s', x)
  {
  }

  lemma ClaimKeeps(s: State, t: TxId, rows: seq<Row>, batchSize: nat)
    requires Inv(s) && Enabled(s, Claim(t, rows, batchSize))
    ensures Inv(Apply(s, Claim(t, rows, batchSize)))
  {
    FreshClaimHolds(s.daily, rows);
    ClaimStaysApart(s, t, rows, batchSize);
    TxChangeKeeps(s, t, Tx(rows, Group(rows), Group(rows).Keys, map[], false));
  }

  lemma ClaimStaysApart(s: State, t: TxId, rows: seq<Row>, batchSize: nat)
    requires Inv(s) && Enabled(s, Claim(t, rows, batchSize))
    ensures var x := Apply(s, Claim(t, rows, batchSize)).txs[t];
      forall u <- s.txs :: Apart(x, s.txs[u]) && Apart(s.txs[u], x)
  {
  }

  // A step that leaves the tables alone leaves every other transaction as it was.
  lemma OthersHold(s: State, s': State, t: TxId)
    requires Inv(s) && s'.events == s.events && s'.daily == s.daily
    ensures forall u <- s.txs :: u != t ==> TxHolds(s', s.txs[u])
  {
    forall u | u in s.txs && u != t
      ensures TxHolds(s', s.txs[u])
    {
      assert TxHolds(s, s.txs[u]);
    }
  }

  // The row an upsert writes is the one its group names, at the committed count plus the tally.
  lemma UpsertWrites(daily: map<Bucket, Counter>, x: Tx, key: string, b: Bucket)
    requires x.counts == Group(x.rows) && x.todo <= x.counts.Keys && key in x.todo
    requires forall c: Bucket :: WriteHolds(daily, x, c)
    ensures BucketOf(x.counts[key]) !in x.writes
    ensures WriteHolds(daily, Upserted(daily, x, key), b)
  {
    var c := BucketOf(x.counts[key]);
    GroupKeysNameTheirBucket(x.rows);
    GroupIsTally(x.rows, c);
    assert WriteHolds(daily, x, c) && WriteHolds(daily, x, b);
    if KeyOf(b.0, b.1) == key {
      KeyIsInjective(b.0, b.1, c.0, c.1);
    }
  }

  lemma UpsertedHolds(s: State, x: Tx, key: string)
    requires TxHolds(s, x) && key in x.todo
    ensures forall b: Bucket :: WriteHolds(s.daily, Upserted(s.daily, x, key), b)
  {
    forall b: Bucket
      ensures WriteHolds(s.daily, Upserted(s.daily, x, key), b)
    {
      UpsertWrites(s.daily, x, key, b);
    }
  }

  lemma UpsertKeeps(s: State, t: TxId, key: string)
    requires Inv(s) && Enabled(s, Upsert(t, key))
    ensures Inv(Apply(s, Upsert(t, key)))
  {
    UpsertedHolds(s, s.txs[t], key);
    UpsertStaysApart(s, t, key);
    TxChangeKeeps(s, t, Upserted(s.daily, s.txs[t], key));
  }

  lemma UpsertStaysApart(s: State, t: TxId, key: string)
    requires Inv(s) && Enabled(s, Upsert(t, key))
    ensures forall u <- s.txs :: u != t ==>
              Apart(Upserted(s.daily, s.txs[t], key), s.txs[u]) && Apart(s.txs[u], Upserted(s.daily, s.txs[t], key))
  {
    forall u | u in s.txs && u != t
      ensures Apart(Upserted(s.daily, s.txs[t], key), s.txs[u]) && Apart(s.txs[u], Upserted(s.daily, s.txs[t], key))
    {
      assert Apart(s.txs[t], s.txs[u]);
    }
  }

  lemma CommitConserves(events: map<EventId, Event>, daily: map<Bucket, Counter>, x: Tx, b: Bucket)
    requires At(daily, b) == Truth(events, b)
    requires Reads(events, x.rows) && x.counts == Group(x.rows) && x.todo == {} && WriteHolds(daily, x, b)
    ensures At(daily + x.writes, b) == Truth(Processing(events, IdSet(x.rows)), b)
  {
    MarkingAddsTheTally(events, x.rows, b);
    GroupIsTally(x.rows, b);
    if b !in x.writes {
      assert Tally(x.rows, b) == Counter(0, 0);
    }
  }

  lemma CommitSparesOthers(s: State, t: TxId, u: TxId)
    requires Inv(s) && Enabled(s, Commit(t)) && u in s.txs && u != t
    ensures TxHolds(Apply(s, Commit(t)), s.txs[u])
  {
    var s', x, y := Apply(s, Commit(t)), s.txs[t], s.txs[u];
    assert TxHolds(s, y) && Apart(x, y);
    ReadsStays(s.events, s'.events, y.rows);
    forall b: Bucket
      ensures WriteHolds(s'.daily, y, b)
    {
      assert WriteHolds(s.daily, y, b);
    }
  }

  lemma CommitCountsOnce(s: State, t: TxId)
    requires Inv(s) && Enabled(s, Commit(t))
    ensures CountedOnce(Apply(s, Commit(t)))
  {
    var rows := s.txs[t].rows;
    assert TxHolds(s, s.txs[t]);
    forall id | id in IdSet(rows)
      ensures id in s.events && !s.events[id].processed
    {
      ReadsSees(s.events, rows, id);
    }
  }

  lemma CommitKeeps(s: State, t: TxId)
    requires Inv(s) && Enabled(s, Commit(t))
    ensures Inv(Apply(s, Commit(t)))
  {
    var s' := Apply(s, Commit(t));
    forall b: Bucket
      ensures At(s'.daily, b) == Truth(s'.events, b)
    {
      assert TxHolds(s, s.txs[t]) && At(s.daily, b) == Truth(s.events, b);
      CommitConserves(s.events, s.daily, s.txs[t], b);
    }
    CommitCountsOnce(s, t);
    forall u | u in s'.txs
      ensures TxHolds(s', s'.txs[u])
    {
      CommitSparesOthers(s, t, u);
    }
  }

  lemma DeleteSparesTx(s: State, gone: set<LinkId>, x: Tx)
    requires TxHolds(s, x) && Spares(s.events, x, gone) && Enabled(s, DeleteLinks(gone))
    ensures TxHolds(Apply(s, DeleteLinks(gone)), x)
  {
    var s' := Apply(s, DeleteLinks(gone));
    ReadsStays(s.events, s'.events, x.rows);
    forall b: Bucket
      ensures WriteHolds(s'.daily, x, b)
    {
      assert WriteHolds(s.daily, x, b);
    }
  }

  lemma DeleteKeeps(s: State, gone: set<LinkId>)
    requires Inv(s) && Enabled(s, DeleteLinks(gone))
    ensures Inv(Apply(s, DeleteLinks(gone)))
  {
    var s' := Apply(s, DeleteLinks(gone));
    forall b: Bucket
      ensures At(s'.daily, b) == Truth(s'.events, b)
    {
      assert At(s.daily, b) == Truth(s.events, b);
      forall botsOnly: bool
        ensures Counted(s'.events, b, botsOnly) == if b.0 in gone then {} else Counted(s.events, b, botsOnly)
      {
      }
    }
    forall t | t in s'.txs
      ensures TxHolds(s', s'.txs[t])
    {
      DeleteSparesTx(s, gone, s.txs[t]);
    }
  }

  lemma MarkKeeps(s: State, t: TxId)
    requires Inv(s) && Enabled(s, Mark(t))
    ensures Inv(Apply(s, Mark(t)))
  {
    OthersHold(s, Apply(s, Mark(t)), t);
    assert TxHolds(s, s.txs[t]);
    forall b: Bucket
      ensures WriteHolds(s.daily, s.txs[t].(marked := true), b)
    {
      assert WriteHolds(s.daily, s.txs[t], b);
    }
  }

  lemma RollbackKeeps(s: State, t: TxId)
    requires Inv(s) && Enabled(s, Rollback(t))
    ensures Inv(Apply(s, Rollback(t)))
  {
    OthersHold(s, Apply(s, Rollback(t)), t);
  }

  lemma AddLinkKeeps(s: State, link: LinkId)
    requires Inv(s)
    ensures Inv(Apply(s, AddLink(link)))
  {
    forall t | t in s.txs
      ensures TxHolds(Apply(s, AddLink(link)), s.txs[t])
    {
      assert TxHolds(s, s.txs[t]);
    }
  }

  lemma StepKeeps(s: State, l: Label)
    requires Inv(s) && Enabled(s, l)
    ensures Inv(Apply(s, l))
  {
    match l
    case AddLink(link) => AddLinkKeeps(s, link);
    case Click(link, day, bot) => ClickKeeps(s, link, day, bot);
    case Claim(t, rows, batchSize) => ClaimKeeps(s, t, rows, batchSize);
    case Upsert(t, key) => UpsertKeeps(s, t, key);
    case Mark(t) => MarkKeeps(s, t);
    case Commit(t) => CommitKeeps(s, t);
    case Rollback(t) => RollbackKeeps(s, t);
    case DeleteLinks(gone) => DeleteKeeps(s, gone);
  }

  // A run tries the labels in order; a statement that is not enabled is one that is refused.
  function Run(s: State, run: seq<Label>): State
    decreases |run|
  {
    if run == [] then s
    else Run(if Enabled(s, run[0]) then Apply(s, run[0]) else s, run[1..])
  }

  lemma {:induction false} RunKeeps(s: State, run: seq<Label>)
    requires Inv(s)
    ensures Inv(Run(s, run))
    decreases |run|
  {
    if run != [] {
      if Enabled(s, run[0]) {
        StepKeeps(s, run[0]);
      }
      RunKeeps(if Enabled(s, run[0]) then Apply(s, run[0]) else s, run[1..]);
    }
  }

  // No event without its link: inserts check it and deletions cascade.
  ghost predicate HasLinks(s: State) {
    forall id <- s.events :: s.events[id].link in s.links
  }

  lemma {:induction false} EventsHaveLinks(s: State, run: seq<Label>)
    requires HasLinks(s)
    ensures HasLinks(Run(s, run))
    decreases |run|
  {
    if run != [] {
      if Enabled(s, run[0]) {
        StepHasLinks(s, run[0]);
      }
      EventsHaveLinks(if Enabled(s, run[0]) then Apply(s, run[0]) else s, run[1..]);
    }
  }

  lemma StepHasLinks(s: State, l: Label)
    requires Enabled(s, l) && HasLinks(s)
    ensures HasLinks(Apply(s, l))
  {
    var s' := Apply(s, l);
    forall id | id in s'.events
      ensures s'.events[id].link in s'.links
    {
      assert l.Click? || (id in s.events && s'.events[id].link == s.events[id].link);
    }
  }

  // Conservation: whatever interleaving of clicks, batches, rollbacks and link deletions came
  // before, every daily counter is the number of processed events it stands for, and no event
  // has been part of two committed batches.
  lemma RollupIsConserved(run: seq<Label>)
    ensures var s := Run(INIT, run);
      && (forall b: Bucket :: At(s.daily, b) == Counter(|Counted(s.events, b, false)|, |Counted(s.events, b, true)|))
      && (forall id <- s.events :: s.credits[id] == if s.events[id].processed then 1 else 0)
      && (forall id :: s.credits[id] <= 1)
      && (forall id <- s.events :: s.events[id].link in s.links)
  {
    EventsHaveLinks(INIT, run);
    assert Inv(INIT) by {
      forall b: Bucket
        ensures At(INIT.daily, b) == Truth(INIT.events, b)
      {
        assert Counted(INIT.events, b, false) == {} && Counted(INIT.events, b, true) == {};
      }
    }
    RunKeeps(INIT, run);
    var s := Run(INIT, run);
    forall b: Bucket
      ensures At(s.daily, b) == Counter(|Counted(s.events, b, false)|, |Counted(s.events, b, true)|)
    {
      assert At(s.daily, b) == Truth(s.events, b);
    }
  }

  // What a cascade takes with a link: its clicks and its counters, and no other's.
  lemma DeletionCascades(s: State, gone: set<LinkId>)
    requires Enabled(s, DeleteLinks(gone))
    ensures var s' := Apply(s, DeleteLinks(gone));
      && s'.links == s.links - gone
      && (forall id :: id in s'.events <==> id in s.events && s.events[id].link !in gone)
      && (forall id <- s'.events :: s'.events[id] == s.events[id])
      && (forall b: Bucket :: b in s'.daily <==> b in s.daily && b.0 !in gone)
      && (forall b <- s'.daily :: s'.daily[b] == s.daily[b])
  {
  }

  // ---- one click all the way ----

  lemma {:induction false} RunOneMore(s: State, run: seq<Label>, l: Label)
    ensures var m := Run(s, run); Run(s, run + [l]) == if Enabled(m, l) then Apply(m, l) else m
    decreases |run|
  {
    if run != [] {
      RunOneMore(if Enabled(s, run[0]) then Apply(s, run[0]) else s, run[1..], l);
      assert (run + [l])[1..] == run[1..] + [l];
    }
  }

  lemma Onward(run: seq<Label>, m: State, l: Label, s': State) returns (longer: seq<Label>)
    requires Run(INIT, run) == m && Enabled(m, l) && s' == Apply(m, l)
    ensures Run(INIT, longer) == s'
  {
    longer := run + [l];
    RunOneMore(INIT, run, l);
  }

  function Recorded(link: LinkId, e: Event): State {
    State({link}, map[0 := e], map[], map[], 1, multiset{})
  }

  lemma ClickIsRecorded(link: LinkId, day: Day, bot: bool) returns (run: seq<Label>)
    ensures Run(INIT, run) == Recorded(link, Event(link, day, bot, false))
  {
    run := Onward([], INIT, AddLink(link), INIT.(links := {link}));
    run := Onward(run, INIT.(links := {link}), Click(link, day, bot), Recorded(link, Event(link, day, bot, false)));
  }

  // The batch of that one click, as claimed.
  function Batch(r: Row): Tx {
    var key := KeyOf(r.link, r.day);
    Tx([r], map[key := Aggregate(r.link, r.day, 1, if r.bot then 1 else 0)], {key}, map[], false)
  }

  lemma ClaimOfOne(r: Row)
    requires r.id == 0
    ensures var s := Recorded(r.link, Event(r.link, r.day, r.bot, false));
      Enabled(s, Claim(7, [r], 1)) && Apply(s, Claim(7, [r], 1)) == s.(txs := map[7 := Batch(r)])
    ensures IdSet([r]) == {0}
  {
    assert [r][..0] == [];
    assert Reads(map[0 := Event(r.link, r.day, r.bot, false)], [r][..0]);
    assert IdSet([r][..0]) == {} && Group([r][..0]) == map[];
    assert Group([r]) == Added(map[], r) == Batch(r).counts;
    assert Batch(r).counts.Keys == {KeyOf(r.link, r.day)};
    assert map[][7 := Batch(r)] == map[7 := Batch(r)];
  }

  function Share(r: Row): Counter {
    Counter(1, if r.bot then 1 else 0)
  }

  function Upserting(r: Row): Tx {
    Batch(r).(todo := {}, writes := map[(r.link, r.day) := Share(r)])
  }

  lemma UpsertOfOne(r: Row)
    ensures var s := Recorded(r.link, Event(r.link, r.day, r.bot, false)).(txs := map[7 := Batch(r)]);
      var l := Upsert(7, KeyOf(r.link, r.day));
      Enabled(s, l) && Apply(s, l) == s.(txs := map[7 := Upserting(r)])
  {
    var x, key := Batch(r), KeyOf(r.link, r.day);
    UpsertedOfOne(r);
    assert map[7 := x][7 := Upserting(r)] == map[7 := Upserting(r)];
  }

  lemma UpsertedOfOne(r: Row)
    ensures Upserted(map[], Batch(r), KeyOf(r.link, r.day)) == Upserting(r)
  {
    assert {KeyOf(r.link, r.day)} - {KeyOf(r.link, r.day)} == {};
    assert BucketOf(Batch(r).counts[KeyOf(r.link, r.day)]) == (r.link, r.day);
  }

  lemma CommitOfOne(r: Row)
    requires r.id == 0
    ensures var e := Event(r.link, r.day, r.bot, false);
      var s := Recorded(r.link, e).(txs := map[7 := Upserting(r).(marked := true)]);
      && Enabled(s, Commit(7))
      && Apply(s, Commit(7)) == State({r.link}, map[0 := e.(processed := true)], map[(r.link, r.day) := Share(r)],
                                      map[], 1, multiset{0})
  {
    ClaimOfOne(r);
    assert Without(map[7 := Upserting(r).(marked := true)], 7) == map[];
  }

  // A click is recorded with its link, day and kind, and claimed, counted and processed once.
  lemma ClickIsCounted(link: LinkId, day: Day, bot: bool) returns (run: seq<Label>)
    ensures var s := Run(INIT, run);
      && s.events == map[0 := Event(link, day, bot, true)]
      && s.daily == map[(link, day) := Counter(1, if bot then 1 else 0)]
      && s.credits == multiset{0} && s.txs == map[]
  {
    var r, e := Row(0, link, day, bot), Event(link, day, bot, false);
    var s := Recorded(link, e);
    run := ClickIsRecorded(link, day, bot);
    ClaimOfOne(r);
    run := Onward(run, s, Claim(7, [r], 1), s.(txs := map[7 := Batch(r)]));
    UpsertOfOne(r);
    run := Onward(run, s.(txs := map[7 := Batch(r)]), Upsert(7, KeyOf(link, day)), s.(txs := map[7 := Upserting(r)]));
    var marked := s.(txs := map[7 := Upserting(r).(marked := true)]);
    assert marked.txs == map[7 := Upserting(r)][7 := Upserting(r).(marked := true)];
    run := Onward(run, s.(txs := map[7 := Upserting(r)]), Mark(7), marked);
    CommitOfOne(r);
    run := Onward(run, marked, Commit(7), Apply(marked, Commit(7)));
  }
}
