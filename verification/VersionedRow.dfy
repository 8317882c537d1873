// One versioned row, many processes, each with a published snapshot of it.
//
// The row's content V matters here only through two operations, which the settings supply:
// whether a value is fit to be stored, and how a boot fills the column a migration left NULL.
module VersionedRow {
  import opened Common

  type Pid = nat

  datatype Content<!V> = Content(fit: V -> bool, fill: (V, bool) -> V)

  ghost predicate Lawful<V(!new)>(c: Content<V>) {
    forall v: V, b: bool :: c.fit(v) ==> c.fit(c.fill(v, b))
  }

  // unfilled: the column is still NULL, which reads as the value already in columns.
  datatype Row<V> = Row(columns: V, unfilled: bool, revision: nat)
  datatype Snapshot<V> = Snapshot(content: V, revision: nat)

  function Scan<V>(row: Row<V>): Snapshot<V> {
    Snapshot(row.columns, row.revision)
  }

  // held: the rows a process has read or been returned and may yet publish, however late.
  // history: what a reader sees at each revision.
  datatype State<V(==)> = State(row: Option<Row<V>>, adopted: set<Pid>, snaps: map<Pid, Snapshot<V>>,
                            held: set<(Pid, Snapshot<V>)>, history: map<nat, V>)

  datatype Label<V> =
    | Ensure(pid: Pid, defaults: V)
    | Adopt(pid: Pid, enabled: bool)
    | Read(pid: Pid)
    | Publish(pid: Pid, snap: Snapshot<V>)
    | Put(pid: Pid, input: V)
    | CompareAndSwap(pid: Pid, input: V, base: int)

  predicate Enabled<V(==)>(c: Content<V>, s: State<V>, l: Label<V>) {
    match l
    case Ensure(_, defaults) => c.fit(defaults)
    case Adopt(_, _) => s.row.Some?
    case Read(pid) => pid in s.adopted && s.row.Some?
    case Publish(pid, snap) => (pid, snap) in s.held
    case Put(pid, input) => pid in s.adopted && s.row.Some? && c.fit(input)
    case CompareAndSwap(pid, input, base) =>
      pid in s.adopted && s.row.Some? && c.fit(input) && base > 0 && s.row.value.revision == base
  }

  function Apply<V(==)>(c: Content<V>, s: State<V>, l: Label<V>): State<V>
    requires Enabled(c, s, l)
  {
    match l
    case Ensure(_, defaults) =>
      if s.row.Some? then s
      else s.(row := Some(Row(defaults, false, 1)), history := map[1 := defaults])
    case Adopt(pid, enabled) =>
      var r := s.row.value;
      if !r.unfilled then s.(adopted := s.adopted + {pid})
      else
        var filled := c.fill(r.columns, enabled);
        s.(row := Some(Row(filled, false, r.revision)), adopted := s.adopted + {pid},
           history := s.history[r.revision := filled])
    case Read(pid) => s.(held := s.held + {(pid, Scan(s.row.value))})
    case Publish(pid, snap) =>
      if pid in s.snaps && s.snaps[pid].revision >= snap.revision then s else s.(snaps := s.snaps[pid := snap])
    case Put(pid, input) => Written(s, pid, input)
    case CompareAndSwap(pid, input, _) => Written(s, pid, input)
  }

  // UPDATE ... SET ..., revision = revision + 1 RETURNING ...
  function Written<V(==)>(s: State<V>, pid: Pid, input: V): State<V>
    requires s.row.Some?
  {
    var revision := s.row.value.revision + 1;
    s.(row := Some(Row(input, false, revision)), held := s.held + {(pid, Snapshot(input, revision))},
       history := s.history[revision := input])
  }

  // No table row yet, or the one an older release left.
  ghost predicate Initial<V>(c: Content<V>, s: State<V>) {
    && s.adopted == {} && s.snaps == map[] && s.held == {}
    && match s.row
       case None => s.history == map[]
       case Some(r) =>
         && r.revision >= 1 && c.fit(r.columns)
         && s.history == if r.unfilled then map[] else map[r.revision := r.columns]
  }

  // The snapshot is the row committed at its revision.
  predicate Committed<V(==)>(history: map<nat, V>, x: Snapshot<V>) {
    x.revision in history && history[x.revision] == x.content
  }

  ghost predicate RowHolds<V>(c: Content<V>, s: State<V>) {
    match s.row
    case None => s.history == map[] && s.adopted == {}
    case Some(r) =>
      && r.revision >= 1 && c.fit(r.columns)
      && (if r.unfilled then s.history == map[] && s.adopted == {} else Committed(s.history, Scan(r)))
      && (forall n <- s.history :: 1 <= n <= r.revision)
  }

  ghost predicate Inv<V>(c: Content<V>, s: State<V>) {
    && RowHolds(c, s)
    && (forall h <- s.held :: h.0 in s.adopted && Committed(s.history, h.1))
    && (forall p <- s.snaps :: p in s.adopted && Committed(s.history, s.snaps[p]))
    && (forall n <- s.history :: c.fit(s.history[n]))
  }

  // What no later step takes back.
  ghost predicate Extends<V>(s: State<V>, s': State<V>) {
    && (forall n <- s.history :: n in s'.history && s'.history[n] == s.history[n])
    && s.adopted <= s'.adopted && s.held <= s'.held
    && (s.row.Some? ==> s'.row.Some? && s.row.value.revision <= s'.row.value.revision)
    && (forall p <- s.snaps :: p in s'.snaps && s.snaps[p].revision <= s'.snaps[p].revision)
  }

  lemma WrittenKeeps<V(!new)>(c: Content<V>, s: State<V>, pid: Pid, input: V)
    requires Inv(c, s) && pid in s.adopted && s.row.Some? && c.fit(input)
    ensures Inv(c, Written(s, pid, input)) && Extends(s, Written(s, pid, input))
  {
  }

  lemma StepKeeps<V(!new)>(c: Content<V>, s: State<V>, l: Label<V>)
    requires Lawful(c) && Inv(c, s) && Enabled(c, s, l)
    ensures Inv(c, Apply(c, s, l)) && Extends(s, Apply(c, s, l))
  {
    match l
    case Put(pid, input) => WrittenKeeps(c, s, pid, input);
    case CompareAndSwap(pid, input, _) => WrittenKeeps(c, s, pid, input);
    case _ =>
  }

  function Run<V(==)>(c: Content<V>, s: State<V>, run: seq<Label<V>>): State<V>
    decreases |run|
  {
    if run == [] then s
    else Run(c, if Enabled(c, s, run[0]) then Apply(c, s, run[0]) else s, run[1..])
  }

  // However the processes interleave, revisions keep their content and snapshots never go back.
  lemma {:induction false} RunKeeps<V(!new)>(c: Content<V>, s: State<V>, run: seq<Label<V>>)
    requires Lawful(c) && Inv(c, s)
    ensures Inv(c, Run(c, s, run)) && Extends(s, Run(c, s, run))
    decreases |run|
  {
    if run != [] {
      var s' := if Enabled(c, s, run[0]) then Apply(c, s, run[0]) else s;
      if Enabled(c, s, run[0]) {
        StepKeeps(c, s, run[0]);
      }
      RunKeeps(c, s', run[1..]);
      ExtendsOn(s, s', Run(c, s', run[1..]));
    }
  }

  lemma ExtendsOn<V(!new)>(a: State<V>, b: State<V>, c: State<V>)
    requires Extends(a, b) && Extends(b, c)
    ensures Extends(a, c)
  {
  }

  // Every published snapshot is the row committed at its revision, at every moment of every run,
  // and between any two moments no process's revision has gone down.
  lemma SnapshotsAreCommittedAndAscend<V(!new)>(c: Content<V>, start: State<V>,
                                                early: seq<Label<V>>, late: seq<Label<V>>)
    requires Lawful(c) && Initial(c, start)
    ensures var s, s' := Run(c, start, early), Run(c, Run(c, start, early), late);
      && (forall p <- s.snaps :: Committed(s.history, s.snaps[p]))
      && (forall n <- s.history :: n in s'.history && s'.history[n] == s.history[n])
      && (forall p <- s.snaps :: p in s'.snaps && s.snaps[p].revision <= s'.snaps[p].revision)
  {
    RunKeeps(c, start, early);
    RunKeeps(c, Run(c, start, early), late);
  }

  ghost predicate Alone<V>(others: nat -> seq<Label<V>>) {
    forall i :: others(i) == []
  }

  // The database row and what each process has published.
  class Cluster<V(==,!new)> {
    const c: Content<V>
    var row: Option<Row<V>>
    var adopted: set<Pid>
    var snaps: map<Pid, Snapshot<V>>
    var held: set<(Pid, Snapshot<V>)>
    var history: map<nat, V>
    ghost var writes: nat  // how often the methods themselves, not their surroundings, wrote the row

    function World(): State<V>
      reads this
    {
      State(row, adopted, snaps, held, history)
    }

    ghost predicate Valid()
      reads this
    {
      Lawful(c) && Inv(c, World())
    }

    constructor (c: Content<V>, row: Option<Row<V>>)
      requires Lawful(c) && (row.Some? ==> row.value.revision >= 1 && c.fit(row.value.columns))
      ensures Valid() && this.c == c && Initial(c, World()) && this.row == row
    {
      this.c, this.row, adopted, snaps, held := c, row, {}, map[], {};
      history := if row.Some? && !row.value.unfilled then map[row.value.revision := row.value.columns] else map[];
      writes := 0;
    }

    // One statement of one process.
    method Execute(l: Label<V>)
      requires Valid() && Enabled(c, World(), l)
      modifies this
      ensures Valid() && World() == Apply(c, old(World()), l) && Extends(old(World()), World())
      ensures writes == old(writes) + if l.Put? || l.CompareAndSwap? then 1 else 0
    {
      StepKeeps(c, World(), l);
      writes := writes + if l.Put? || l.CompareAndSwap? then 1 else 0;
      var s := Apply(c, World(), l);
      row, adopted, snaps, held, history := s.row, s.adopted, s.snaps, s.held, s.history;
    }

    // Whatever the processes get done in the meantime.
    method Interleave(run: seq<Label<V>>)
      requires Valid()
      modifies this
      ensures Valid() && World() == Run(c, old(World()), run) && Extends(old(World()), World())
      ensures writes == old(writes) && (run == [] ==> row == old(row))
    {
      RunKeeps(c, World(), run);
      var s := Run(c, World(), run);
      row, adopted, snaps, held, history := s.row, s.adopted, s.snaps, s.held, s.history;
    }

    function Current(pid: Pid): Option<Snapshot<V>>
      reads this
    {
      if pid in snaps then Some(snaps[pid]) else None
    }

    function Version(pid: Pid): nat
      reads this
    {
      if pid in snaps then snaps[pid].revision + 1 else 0
    }

    // The compare-and-swap retry loop: load, give up if already as new, swap if still what was loaded.
    method Publish(pid: Pid, snap: Snapshot<V>, others: nat -> seq<Label<V>>)
      requires Valid() && (pid, snap) in held
      modifies this
      ensures Valid() && Extends(old(World()), World())
      ensures pid in snaps && snaps[pid].revision >= snap.revision && writes == old(writes)
      ensures Alone(others) ==> row == old(row)
    {
      var i := 0;
      while true
        invariant Valid() && Extends(old(World()), World()) && writes == old(writes)
        invariant Alone(others) ==> row == old(row)
        decreases snap.revision + 1 - Version(pid)
      {
        var current := Current(pid);
        if current.Some? && current.value.revision >= snap.revision {
          return;
        }
        Interleave(others(i));
        i := i + 1;
        if Current(pid) == current {
          Swap(pid, snap);
          return;
        }
      }
    }

    // The swap itself: what was loaded is still there, and older.
    method Swap(pid: Pid, snap: Snapshot<V>)
      requires Valid() && (pid, snap) in held
      requires pid in snaps ==> snaps[pid].revision < snap.revision
      modifies this
      ensures Valid() && Extends(old(World()), World())
      ensures pid in snaps && snaps[pid] == snap && writes == old(writes) && row == old(row)
    {
      Execute(Label.Publish(pid, snap));
    }

    method Refresh(pid: Pid, others: nat -> seq<Label<V>>) returns (read: Snapshot<V>)
      requires Valid() && pid in adopted
      modifies this
      ensures Valid() && Extends(old(World()), World())
      ensures Committed(history, read) && c.fit(read.content)
      ensures pid in snaps && snaps[pid].revision >= read.revision && writes == old(writes)
      ensures old(row).Some? && read == old(Scan(row.value))
      ensures Alone(others) ==> row == old(row)
    {
      Execute(Read(pid));
      read := Scan(row.value);
      Publish(pid, read, others);
    }
  }
}
