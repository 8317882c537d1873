// The runtime settings provider: boot, refresh, PUT and PATCH, while other processes interleave.
module RuntimeProvider {
  import opened Common
  import opened Text
  import opened RuntimeSettings
  import opened SettingsMeaning
  import opened VersionedRow

  function Rows(t: Rules): Content<Settings> {
    Content((s: Settings) => Stored(t, s), (s: Settings, enabled: bool) => s[TOTPEnabled := Flag(enabled)])
  }

  lemma RowsAreLawful(t: Rules)
    ensures VersionedRow.Lawful(Rows(t))
  {
    forall s: Settings, b: bool | Stored(t, s)
      ensures Stored(t, s[TOTPEnabled := Flag(b)])
    {
      var filled := s[TOTPEnabled := Flag(b)];
      forall f: Field
        ensures Normal(t, f, Get(filled, f)) == Some(Get(filled, f))
      {
        assert Normal(t, f, Get(s, f)) == Some(Get(s, f));
      }
    }
  }

  // The saved field is what the patch says, normalised, or what the base revision had.
  ghost predicate FieldSaved(t: Rules, p: Patch, base: Settings, saved: Settings, f: Field) {
    if Known(f) in p.changes
    then p.changes[Known(f)].Decoded? && StoredAs(t, f, p.changes[Known(f)].value, Get(saved, f))
    else Get(saved, f) == Get(base, f)
  }

  ghost predicate PatchSaved(t: Rules, p: Patch, base: Settings, saved: Settings) {
    forall f: Field :: FieldSaved(t, p, base, saved, f)
  }

  lemma MergeIsPatchSaved(t: Rules, p: Patch, base: Settings)
    requires Text.Lawful(t) && Applicable(p) && Stored(t, base)
    requires NormalizeRuntimeSettings(t, Merged(p, base)).Some?
    ensures PatchSaved(t, p, base, NormalizeRuntimeSettings(t, Merged(p, base)).value)
    ensures Stored(t, NormalizeRuntimeSettings(t, Merged(p, base)).value)
  {
    var saved := NormalizeRuntimeSettings(t, Merged(p, base)).value;
    NormalizedIsStored(t, Merged(p, base));
    forall f: Field
      ensures FieldSaved(t, p, base, saved, f)
    {
      MergeTouchesNamedFields(t, p, base, f);
      if Known(f) in p.changes {
        NormalIsStoredAs(t, f, p.changes[Known(f)].value);
      }
    }
  }

  // No lost update: between the read of revision r and the conditional write anything may happen;
  // if the write still finds revision r, it commits r + 1 with the named fields at their normalised
  // patch values and every other field exactly as revision r had it.
  lemma NoLostUpdate(t: Rules, s: State<Settings>, pid: Pid, p: Patch, between: seq<Label<Settings>>)
    requires Text.Lawful(t) && Inv(Rows(t), s) && pid in s.adopted && Applicable(p)
    requires s.row.Some? && s.row.value.revision == p.revision
    requires NormalizeRuntimeSettings(t, Merged(p, s.row.value.columns)).Some?
    ensures var saved := NormalizeRuntimeSettings(t, Merged(p, s.row.value.columns)).value;
      var save := CompareAndSwap(pid, saved, p.revision);
      var s1 := Run(Rows(t), s, between);
      Enabled(Rows(t), s1, save) ==>
        var s2 := Apply(Rows(t), s1, save);
        && p.revision in s2.history && p.revision + 1 in s2.history
        && PatchSaved(t, p, s2.history[p.revision], s2.history[p.revision + 1])
  {
    RowsAreLawful(t);
    RunKeeps(Rows(t), s, between);
    MergeIsPatchSaved(t, p, s.row.value.columns);
  }

  // The request is malformed, or the base is the one it names and a value it gives is refusable.
  ghost predicate Refused(t: Rules, names: Names, q: Request, base: Row<Settings>) {
    || !Readable(names, q)
    || (base.revision == q.revision && GivesRefusable(t, PatchOf(names, q)))
  }

  ghost predicate GivesRefusable(t: Rules, p: Patch) {
    exists f: Field :: Known(f) in p.changes && p.changes[Known(f)].Decoded?
                       && Refusable(t, f, p.changes[Known(f)].value)
  }

  // What the base already holds is never refused.
  lemma OnlyGivenIsRefused(t: Rules, p: Patch, base: Settings)
    requires Text.Lawful(t) && Applicable(p) && Stored(t, base)
    ensures NormalizeRuntimeSettings(t, Merged(p, base)) == None <==> GivesRefusable(t, p)
  {
    forall f: Field
      ensures Refusable(t, f, Get(Merged(p, base), f)) <==>
              Known(f) in p.changes && Refusable(t, f, p.changes[Known(f)].value)
    {
      assert Normal(t, f, Get(base, f)) == Some(Get(base, f));
      NormalIsStoredAs(t, f, Get(base, f));
      assert Known(f) in p.changes ==> Decodes(Known(f), p.changes[Known(f)]);
    }
    SettingsAreStoredAs(t, Merged(p, base));
  }

  ghost predicate Booted(t: Rules, defaults: Settings, before: Option<Row<Settings>>, after: Option<Row<Settings>>) {
    && after.Some?
    && match before
       case None =>
         && after.value.revision == 1 && !after.value.unfilled
         && forall f: Field :: StoredAs(t, f, Get(defaults, f), Get(after.value.columns, f))
       case Some(row) =>
         if row.unfilled
         then after == Some(Row(row.columns[TOTPEnabled := Get(defaults, TOTPEnabled)], false, row.revision))
         else after == before
  }

  datatype Failure = Invalid | NotFound | Conflict

  class Provider {
    const t: Rules
    const names: Names
    const pid: Pid
    const db: Cluster<Settings>

    ghost predicate Valid()
      reads db
    {
      Text.Lawful(t) && db.c == Rows(t) && db.Valid()
    }

    constructor (t: Rules, names: Names, pid: Pid, db: Cluster<Settings>)
      requires Text.Lawful(t) && db.c == Rows(t) && db.Valid()
      ensures Valid() && this.t == t && this.names == names && this.pid == pid && this.db == db
    {
      this.t, this.names, this.pid, this.db := t, names, pid, db;
    }

    // NewRuntimeProvider: the row is ensured and its NULL column adopted before the first read.
    method Boot(defaults: Settings, others: nat -> seq<Label<Settings>>, publishing: nat -> seq<Label<Settings>>)
      returns (r: Result<(), Failure>)
      requires Valid()
      modifies db
      ensures Valid() && Extends(old(db.World()), db.World())
      ensures r.Ok? <==> forall f: Field :: !Refusable(t, f, Get(defaults, f))
      ensures r.Ok? ==> pid in db.adopted && pid in db.snaps && db.writes == old(db.writes)
      ensures r.Err? ==> db.World() == old(db.World())
      // The row is made of the defaults, or only its NULL column is, or it stays.
      ensures r.Ok? && Alone(others) && Alone(publishing) ==> Booted(t, defaults, old(db.row), db.row)
    {
      SettingsAreStoredAs(t, defaults);
      var normalized := NormalizeRuntimeSettings(t, defaults);
      if normalized.None? {
        return Err(Invalid);
      }
      NormalizedIsStored(t, defaults);
      Seed(normalized.value, others(0), others(1));
      var _ := db.Refresh(pid, publishing);
      return Ok(());
    }

    // EnsureRuntimeSettings and AdoptTOTPDefault.
    method Seed(normalized: Settings, between: seq<Label<Settings>>, after: seq<Label<Settings>>)
      requires Valid() && Stored(t, normalized)
      modifies db
      ensures Valid() && Extends(old(db.World()), db.World())
      ensures pid in db.adopted && db.writes == old(db.writes)
      ensures between == [] && after == [] ==> db.row == Some(Seeded(normalized, old(db.row)))
    {
      db.Execute(Ensure(pid, normalized));
      db.Interleave(between);
      db.Execute(Adopt(pid, Get(normalized, TOTPEnabled) == Flag(true)));
      db.Interleave(after);
    }

    ghost function Seeded(normalized: Settings, before: Option<Row<Settings>>): Row<Settings> {
      match before
      case None => Row(normalized, false, 1)
      case Some(row) =>
        var enabled := Flag(Get(normalized, TOTPEnabled) == Flag(true));
        if row.unfilled then Row(row.columns[TOTPEnabled := enabled], false, row.revision) else row
    }

    method Update(input: Settings, publishing: nat -> seq<Label<Settings>>)
      returns (r: Result<Snapshot<Settings>, Failure>)
      requires Valid() && pid in db.adopted
      modifies db
      ensures Valid() && Extends(old(db.World()), db.World())
      ensures r.Ok? <==> forall f: Field :: !Refusable(t, f, Get(input, f))
      ensures r.Err? ==> db.World() == old(db.World())
      ensures r.Ok? ==> forall f: Field :: StoredAs(t, f, Get(input, f), Get(r.value.content, f))
      ensures r.Ok? ==> Committed(db.history, r.value)
      ensures r.Ok? ==> db.writes == old(db.writes) + 1
      ensures r.Ok? ==> old(db.row).Some? && r.value.revision == old(db.row).value.revision + 1
      ensures r.Ok? ==> pid in db.snaps && db.snaps[pid].revision >= r.value.revision
    {
      SettingsAreStoredAs(t, input);
      var normalized := NormalizeRuntimeSettings(t, input);
      if normalized.None? {
        return Err(Invalid);
      }
      NormalizedIsStored(t, input);
      db.Execute(Put(pid, normalized.value));
      var saved := Scan(db.row.value);
      db.Publish(pid, saved, publishing);
      return Ok(saved);
    }

    // between runs while the patch is being merged; the others during the three possible publishes.
    method PatchSettings(q: Request, between: seq<Label<Settings>>, publishing: nat -> nat -> seq<Label<Settings>>)
      returns (r: Result<Snapshot<Settings>, Failure>)
      requires Valid() && pid in db.adopted
      modifies db
      ensures Valid() && Extends(old(db.World()), db.World())
      ensures r.Ok? ==> r.value.revision == q.revision + 1 && Committed(db.history, r.value)
      ensures r.Ok? ==>
                q.revision in db.history && PatchSaved(t, PatchOf(names, q), db.history[q.revision], r.value.content)
      ensures r.Ok? ==> pid in db.snaps && db.snaps[pid].revision >= r.value.revision
      ensures db.writes == old(db.writes) + if r.Ok? then 1 else 0
      ensures !Readable(names, q) ==> db.World() == old(db.World())
      ensures old(db.row).Some? && (r == Err(Invalid) <==> Refused(t, names, q, old(db.row).value))
      ensures Readable(names, q) && old(db.row).value.revision != q.revision ==> r == Err(Conflict)
      ensures between == [] && (forall i :: Alone(publishing(i))) ==>
                (r.Ok? <==> !Refused(t, names, q, old(db.row).value) && old(db.row).value.revision == q.revision)
      ensures r == Err(Conflict) ==> db.row.Some? && db.row.value.revision >= old(db.row).value.revision
      ensures r == Err(Conflict) ==>
                old(db.row).value.revision != q.revision || db.row.value.revision > q.revision
    {
      var valid := ApplyPatch(names, q, map[]);
      if valid.None? {
        return Err(Invalid);
      }
      var current := db.Refresh(pid, publishing(0));
      if current.revision != q.revision {
        return Err(Conflict);
      }
      ReadableIsApplicable(names, q);
      OnlyGivenIsRefused(t, PatchOf(names, q), current.content);
      var normalized := Merge(q, current.content);
      if normalized.None? {
        return Err(Invalid);
      }
      db.Interleave(between);
      r := Save(q.revision, normalized.value, publishing);
    }

    // The request over its base revision, normalised.
    method Merge(q: Request, base: Settings) returns (r: Option<Settings>)
      requires Text.Lawful(t) && Readable(names, q) && Stored(t, base)
      ensures r == NormalizeRuntimeSettings(t, Merged(PatchOf(names, q), base))
      ensures r.Some? ==> Stored(t, r.value) && PatchSaved(t, PatchOf(names, q), base, r.value)
    {
      ReadableIsApplicable(names, q);
      var merged := ApplyPatch(names, q, base);
      r := NormalizeRuntimeSettings(t, merged.value);
      if r.Some? {
        MergeIsPatchSaved(t, PatchOf(names, q), base);
      }
    }

    // The conditional write; a writer that came too late looks at what won.
    method Save(base: int, content: Settings, publishing: nat -> nat -> seq<Label<Settings>>)
      returns (r: Result<Snapshot<Settings>, Failure>)
      requires Valid() && pid in db.adopted && Stored(t, content)
      modifies db
      ensures Valid() && Extends(old(db.World()), db.World())
      ensures old(db.row).Some?
      ensures r == if base > 0 && old(db.row).value.revision == base
                   then Ok(Snapshot(content, base + 1)) else Err(Conflict)
      ensures r.Ok? ==> Committed(db.history, r.value) && pid in db.snaps && db.snaps[pid].revision >= r.value.revision
      ensures db.writes == old(db.writes) + if r.Ok? then 1 else 0
    {
      if base <= 0 || db.row.value.revision != base {
        var _ := db.Refresh(pid, publishing(1));
        return Err(Conflict);
      }
      var saved := Swap(base, content);
      db.Publish(pid, saved, publishing(2));
      return Ok(saved);
    }

    // UPDATE ... WHERE revision = base RETURNING ...
    method Swap(base: int, content: Settings) returns (saved: Snapshot<Settings>)
      requires Valid() && pid in db.adopted && Stored(t, content) && base > 0
      requires db.row.Some? && db.row.value.revision == base
      modifies db
      ensures Valid() && Extends(old(db.World()), db.World())
      ensures saved == Snapshot(content, base + 1) && Committed(db.history, saved) && (pid, saved) in db.held
      ensures db.writes == old(db.writes) + 1
    {
      db.Execute(CompareAndSwap(pid, content, base));
      saved := Scan(db.row.value);
    }
  }
}
