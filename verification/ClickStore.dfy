// The store methods that write clicks, run while other sessions interleave as they like.
module ClickStore {
  import opened Common
  import opened Calendar
  import opened ClickScan
  import opened ClickRollup

  predicate Foreign(run: seq<Label>, t: TxId) {
    forall i :: 0 <= i < |run| ==> Elsewhere(run[i], t)
  }

  predicate Elsewhere(l: Label, t: TxId) {
    l.AddLink? || l.Click? || l.DeleteLinks? || l.tx != t
  }

  // Other sessions cannot touch a transaction's own versions.
  lemma {:induction false} ForeignRunSpares(s: State, run: seq<Label>, t: TxId)
    requires Foreign(run, t)
    ensures t in Run(s, run).txs <==> t in s.txs
    ensures t in s.txs ==> Run(s, run).txs[t] == s.txs[t]
    decreases |run|
  {
    if run != [] {
      assert Elsewhere(run[0], t);
      ForeignRunSpares(if Enabled(s, run[0]) then Apply(s, run[0]) else s, run[1..], t);
    }
  }

  ghost predicate Alone(others: nat -> seq<Label>) {
    forall i :: others(i) == []
  }

  class Store {
    var links: set<LinkId>
    var events: map<EventId, Event>
    var daily: map<Bucket, Counter>
    var txs: map<TxId, Tx>
    var next: EventId
    var credits: multiset<EventId>
    ghost var commits: nat  // batches these methods themselves committed

    function Tables(): State
      reads this
    {
      State(links, events, daily, txs, next, credits)
    }

    constructor ()
      ensures Tables() == INIT
    {
      links, events, daily, txs, next, credits := {}, map[], map[], map[], 0, multiset{};
      commits := 0;
    }

    method Execute(l: Label)
      requires Inv(Tables()) && Enabled(Tables(), l)
      modifies this
      ensures Tables() == Apply(old(Tables()), l) && Inv(Tables())
      ensures commits == old(commits) + if l.Commit? then 1 else 0
    {
      StepKeeps(Tables(), l);
      commits := commits + if l.Commit? then 1 else 0;
      var s := Apply(Tables(), l);
      links, events, daily, txs, next, credits := s.links, s.events, s.daily, s.txs, s.next, s.credits;
    }

    // Whatever other sessions get done between two statements of transaction t.
    method Interleave(run: seq<Label>, t: TxId)
      requires Inv(Tables()) && Foreign(run, t) && t in txs
      modifies this
      ensures Tables() == Run(old(Tables()), run) && Inv(Tables())
      ensures t in txs && txs[t] == old(txs[t]) && commits == old(commits)
      ensures run == [] ==> events == old(events) && txs == old(txs)
    {
      RunKeeps(Tables(), run);
      ForeignRunSpares(Tables(), run, t);
      var s := Run(Tables(), run);
      links, events, daily, txs, next, credits := s.links, s.events, s.daily, s.txs, s.next, s.credits;
    }

    method CreateClickEvent(link: LinkId, day: Day, bot: bool) returns (ok: bool)
      requires Inv(Tables())
      modifies this
      ensures Inv(Tables())
      ensures ok <==> link in old(links)
      ensures ok ==> events == old(events)[old(next) := Event(link, day, bot, false)] && next == old(next) + 1
      ensures !ok ==> events == old(events) && next == old(next)
      ensures links == old(links) && daily == old(daily) && txs == old(txs) && credits == old(credits)
    {
      ok := link in links;
      if ok {
        Execute(Click(link, day, bot));
      }
    }

    method Rollback(t: TxId)
      requires Inv(Tables()) && t in txs
      modifies this
      ensures Inv(Tables()) && t !in txs && commits == old(commits)
      ensures Tables() == old(Tables()).(txs := txs) && txs.Keys == old(txs).Keys - {t}
    {
      Execute(ClickRollup.Rollback(t));
    }

    // A statement that cannot go through aborts the transaction.
    method UpsertOne(t: TxId, key: string) returns (ok: bool)
      requires Inv(Tables()) && t in txs && key in txs[t].todo && !txs[t].marked
      modifies this
      ensures Inv(Tables()) && commits == old(commits) && events == old(events)
      ensures ok <==> t in txs
      ensures ok ==> txs[t] == Upserted(old(daily), old(txs[t]), key) && txs.Keys == old(txs).Keys
      ensures old(txs).Keys == {t} ==> ok
    {
      SoleWriterProceeds(Tables(), t, key);
      ok := Enabled(Tables(), Upsert(t, key));
      if ok {
        UpsertRow(t, key);
      } else {
        Rollback(t);
      }
    }

    method UpsertRow(t: TxId, key: string)
      requires Inv(Tables()) && Enabled(Tables(), Upsert(t, key))
      modifies this
      ensures Inv(Tables()) && commits == old(commits) && events == old(events) && t in txs
      ensures txs[t] == Upserted(old(daily), old(txs[t]), key) && txs.Keys == old(txs).Keys
    {
      Execute(Upsert(t, key));
    }

    // One upsert for each group.
    method UpsertAll(t: TxId, others: nat -> seq<Label>) returns (ok: bool, i: nat)
      requires Inv(Tables()) && t in txs && !txs[t].marked
      requires forall i :: Foreign(others(i), t)
      modifies this
      ensures Inv(Tables()) && commits == old(commits) && (ok <==> t in txs)
      ensures ok ==> txs[t].todo == {} && txs[t].rows == old(txs[t].rows) && !txs[t].marked
      ensures Alone(others) && old(txs).Keys == {t} ==> ok && events == old(events) && txs.Keys == {t}
    {
      i := 0;
      while txs[t].todo != {}
        invariant Inv(Tables()) && commits == old(commits)
        invariant t in txs && txs[t].rows == old(txs[t].rows) && !txs[t].marked
        invariant Alone(others) && old(txs).Keys == {t} ==> events == old(events) && txs.Keys == {t}
        decreases |txs[t].todo|
      {
        var key :| key in txs[t].todo;
        Interleave(others(i), t);
        i := i + 1;
        ok := UpsertOne(t, key);
        if !ok {
          return;
        }
      }
      ok := true;
    }

    // The claiming SELECT.
    method ClaimRows(t: TxId, rows: seq<Row>, batchSize: nat)
      requires Inv(Tables()) && Enabled(Tables(), Claim(t, rows, batchSize))
      modifies this
      ensures Inv(Tables()) && commits == old(commits) && events == old(events)
      ensures t in txs && txs[t] == Tx(rows, Group(rows), Group(rows).Keys, map[], false)
      ensures txs.Keys == old(txs).Keys + {t}
    {
      Execute(Claim(t, rows, batchSize));
    }

    // cursor is what the claiming SELECT yields; others(i) is what the other sessions do
    // before this transaction's statement number i.
    method AggregateClicks(t: TxId, cursor: Cursor, batchSize: nat, others: nat -> seq<Label>) returns (ok: bool)
      requires Inv(Tables()) && t !in txs
      requires cursor.Clean() ==> Enabled(Tables(), Claim(t, Rows(cursor.fetches), batchSize))
      requires forall i :: Foreign(others(i), t)
      modifies this
      ensures Inv(Tables()) && t !in txs
      ensures commits == old(commits) + if ok then 1 else 0
      ensures ok ==> cursor.Clean()
      ensures ok ==> forall id <- IdSet(Rows(cursor.fetches)) ::
                       id in events && events[id].processed && credits[id] == 1
      ensures !cursor.Clean() ==> Tables() == old(Tables())
      ensures Alone(others) && old(txs).Keys == {} && cursor.Clean() ==>
                ok && txs.Keys == {} && events == Processing(old(events), IdSet(Rows(cursor.fetches)))
    {
      hide ClickRollup.Inv;
      var scanned := ScanClickAggregates(cursor);
      if scanned.Err? {
        return false;
      }
      ClaimRows(t, Rows(cursor.fetches), batchSize);
      assert txs[t].counts == scanned.value.1;
      ok := RollUp(t, others);
    }

    // Everything after the claim.
    method RollUp(t: TxId, others: nat -> seq<Label>) returns (ok: bool)
      requires Inv(Tables()) && t in txs && !txs[t].marked
      requires forall i :: Foreign(others(i), t)
      modifies this
      ensures Inv(Tables()) && t !in txs && commits == old(commits) + if ok then 1 else 0
      ensures ok ==> forall id <- IdSet(old(txs[t].rows)) :: id in events && events[id].processed && credits[id] == 1
      ensures Alone(others) && old(txs).Keys == {t} ==>
                ok && txs.Keys == {} && events == Processing(old(events), IdSet(old(txs[t].rows)))
    {
      var done, i := UpsertAll(t, others);
      if !done {
        return false;
      }
      Finish(t, others(i), others(i + 1));
      return true;
    }

    // The marking UPDATE, skipped for an empty batch.
    method MarkRows(t: TxId)
      requires Inv(Tables()) && t in txs && txs[t].todo == {} && !txs[t].marked
      modifies this
      ensures Inv(Tables()) && commits == old(commits) && events == old(events)
      ensures t in txs && Enabled(Tables(), Commit(t)) && txs[t].rows == old(txs[t].rows) && txs.Keys == old(txs).Keys
    {
      if txs[t].rows != [] {
        Execute(Mark(t));
      }
    }

    method CommitBatch(t: TxId)
      requires Inv(Tables()) && Enabled(Tables(), Commit(t))
      modifies this
      ensures Inv(Tables()) && t !in txs && commits == old(commits) + 1
      ensures forall id <- IdSet(old(txs[t].rows)) :: id in events && events[id].processed && credits[id] == 1
      ensures events == Processing(old(events), IdSet(old(txs[t].rows))) && txs.Keys == old(txs).Keys - {t}
    {
      CommitProcesses(Tables(), t);
      Execute(Commit(t));
    }

    method Finish(t: TxId, before: seq<Label>, after: seq<Label>)
      requires Inv(Tables()) && t in txs && txs[t].todo == {} && !txs[t].marked
      requires Foreign(before, t) && Foreign(after, t)
      modifies this
      ensures Inv(Tables()) && t !in txs && commits == old(commits) + 1
      ensures forall id <- IdSet(old(txs[t].rows)) :: id in events && events[id].processed && credits[id] == 1
      ensures before == [] && after == [] ==>
                events == Processing(old(events), IdSet(old(txs[t].rows))) && txs.Keys == old(txs).Keys - {t}
    {
      Interleave(before, t);
      MarkRows(t);
      Interleave(after, t);
      CommitBatch(t);
    }
  }

  // Only another transaction's uncommitted counter can keep an upsert waiting.
  lemma SoleWriterProceeds(s: State, t: TxId, key: string)
    requires Inv(s) && t in s.txs && key in s.txs[t].todo
    ensures key in s.txs[t].counts
    ensures s.txs.Keys == {t} ==> Enabled(s, Upsert(t, key))
  {
    assert TxHolds(s, s.txs[t]);
  }

  lemma CommitProcesses(s: State, t: TxId)
    requires Inv(s) && Enabled(s, Commit(t))
    ensures var s' := Apply(s, Commit(t));
      forall id <- IdSet(s.txs[t].rows) :: id in s'.events && s'.events[id].processed && s'.credits[id] == 1
  {
    assert TxHolds(s, s.txs[t]);
    forall id | id in IdSet(s.txs[t].rows)
      ensures id in s.events && !s.events[id].processed
    {
      ReadsSees(s.events, s.txs[t].rows, id);
    }
  }
}
