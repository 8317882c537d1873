// One save of the console's settings form, from the draft to the committed row.
module SettingsSave {
  import opened Common
  import Text
  import opened RuntimeSettings
  import opened SettingsMeaning
  import opened VersionedRow
  import opened RuntimeProvider
  import opened SettingsForm

  datatype Outcome = Unreadable(field: Field) | Nothing | Saved(next: Snapshot<Settings>) | Failed(error: Failure)

  function Edits(b: Browser, saved: Settings, draft: Draft, g: Group): Settings {
    SettingsForm.Changes(b, saved, draft, FieldsOf(g))
  }

  // Any order will do: each changed field once, under its own name.
  method Members(text: Field -> string, changes: Settings) returns (members: seq<(string, Raw)>)
    ensures forall i :: 0 <= i < |members| ==> Sent(text, changes, members[i])
    ensures forall f <- changes :: Listed(text, members, f)
    ensures changes != map[] ==> members != []
  {
    members := [];
    var todo := changes.Keys;
    while todo != {}
      invariant todo <= changes.Keys
      invariant forall i :: 0 <= i < |members| ==> Sent(text, changes, members[i])
      invariant forall f <- changes.Keys - todo :: Listed(text, members, f)
    {
      var f :| f in todo;
      ghost var before := members;
      members := members + [(text(f), Decoded(changes[f]))];
      assert Sent(text, changes, members[|before|]) && Listed(text, members, f);
      forall g | g in changes.Keys - todo
        ensures Listed(text, members, g)
      {
        var i :| 0 <= i < |before| && before[i].0 == text(g);
        assert members[i].0 == text(g);
      }
      todo := todo - {f};
    }
    if f :| f in changes {
      assert Listed(text, members, f);
    }
  }

  // The request is well-formed exactly when the patch it means is.
  lemma ReadableWhenApplicable(names: Names, text: Field -> string, revision: int, changes: Settings,
                               members: seq<(string, Raw)>)
    requires forall f: Field :: names(text(f)) == Some(f)
    requires forall i :: 0 <= i < |members| ==> Sent(text, changes, members[i])
    requires forall f <- changes :: Listed(text, members, f)
    requires changes != map[] && members != []
    ensures PatchOf(names, Request(revision, members)) == SavePatch(revision, changes)
    ensures Readable(names, Request(revision, members)) <==> Applicable(SavePatch(revision, changes))
  {
    SaveArrives(names, text, revision, changes, members);
    if Readable(names, Request(revision, members)) {
      ReadableIsApplicable(names, Request(revision, members));
    } else if Applicable(SavePatch(revision, changes)) {
      forall i | 0 <= i < |members|
        ensures MemberDecodes(names, members[i])
      {
        MemberIsDecoded(names, text, revision, changes, members[i]);
      }
    }
  }

  lemma MemberIsDecoded(names: Names, text: Field -> string, revision: int, changes: Settings, member: (string, Raw))
    requires forall f: Field :: names(text(f)) == Some(f)
    requires Sent(text, changes, member) && Applicable(SavePatch(revision, changes))
    ensures MemberDecodes(names, member)
  {
    var f :| f in changes && member == (text(f), Decoded(changes[f]));
    assert Known(f) in SavePatch(revision, changes).changes;
  }

  // What a save of one group leaves: its changed fields normalised, everything else as it was.
  ghost predicate GroupSaved(t: Text.Rules, b: Browser, saved: Settings, draft: Draft, g: Group,
                             base: Settings, next: Settings) {
    forall f: Field ::
      if GroupOf(f) == g && ChangeOf(b, saved, draft, f).Changed?
      then StoredAs(t, f, ChangeOf(b, saved, draft, f).value, Get(next, f))
      else Get(next, f) == Get(base, f)
  }

  lemma PatchSavesTheGroup(t: Text.Rules, b: Browser, saved: Settings, draft: Draft, g: Group, revision: int,
                           base: Settings, next: Settings)
    requires PatchSaved(t, SavePatch(revision, Edits(b, saved, draft, g)), base, next)
    ensures GroupSaved(t, b, saved, draft, g, base, next)
  {
    var p := SavePatch(revision, Edits(b, saved, draft, g));
    forall f: Field
      ensures if GroupOf(f) == g && ChangeOf(b, saved, draft, f).Changed?
              then StoredAs(t, f, ChangeOf(b, saved, draft, f).value, Get(next, f))
              else Get(next, f) == Get(base, f)
    {
      GroupsPartitionFields(g, f);
      assert FieldSaved(t, p, base, next, f);
    }
  }

  // saved is the snapshot the page has shown; the patch goes out against its revision.
  method Save(api: Provider, b: Browser, text: Field -> string, saved: Snapshot<Settings>, draft: Draft, g: Group,
              between: seq<Label<Settings>>, publishing: nat -> nat -> seq<Label<Settings>>) returns (r: Outcome)
    requires api.Valid() && api.pid in api.db.adopted && forall f: Field :: api.names(text(f)) == Some(f)
    modifies api.db
    ensures api.Valid() && Extends(old(api.db.World()), api.db.World())
    ensures api.db.writes == old(api.db.writes) + if r.Saved? then 1 else 0
    ensures r.Unreadable? <==> !SettingsForm.Acceptable(b, saved.content, draft, FieldsOf(g))
    ensures r.Nothing? <==> !r.Unreadable? && Edits(b, saved.content, draft, g) == map[]
    // Only this group's edited fields change, and they hold what was entered, normalised.
    ensures r.Saved? ==> r.next.revision == saved.revision + 1 && Committed(api.db.history, r.next)
    ensures r.Saved? ==>
              saved.revision in api.db.history &&
              GroupSaved(api.t, b, saved.content, draft, g, api.db.history[saved.revision], r.next.content)
    // And the rest is what the page showed.
    ensures r.Saved? && Committed(old(api.db.history), saved) ==>
              GroupSaved(api.t, b, saved.content, draft, g, saved.content, r.next.content)
    ensures between == [] && (forall i :: VersionedRow.Alone(publishing(i))) && (r.Saved? || r.Failed?) ==>
              var p := SavePatch(saved.revision, Edits(b, saved.content, draft, g));
              var row := old(api.db.row).value;
              r.Saved? <==> row.revision == saved.revision && Applicable(p)
                            && !GivesRefusable(api.t, p)
  {
    var changes := RuntimeChanges(b, saved.content, draft, g);
    if changes.Err? {
      return Unreadable(changes.error);
    }
    if changes.value == map[] {
      return Nothing;
    }
    var answer := Send(api, text, saved.revision, changes.value, between, publishing);
    if answer.Err? {
      return Failed(answer.error);
    }
    PatchSavesTheGroup(api.t, b, saved.content, draft, g, saved.revision,
                       api.db.history[saved.revision], answer.value.content);
    return Saved(answer.value);
  }

  // The request on its way, and what the server makes of it.
  method Send(api: Provider, text: Field -> string, revision: int, changes: Settings,
              between: seq<Label<Settings>>, publishing: nat -> nat -> seq<Label<Settings>>)
    returns (r: Result<Snapshot<Settings>, Failure>)
    requires api.Valid() && api.pid in api.db.adopted && forall f: Field :: api.names(text(f)) == Some(f)
    requires changes != map[]
    modifies api.db
    ensures api.Valid() && Extends(old(api.db.World()), api.db.World())
    ensures api.db.writes == old(api.db.writes) + if r.Ok? then 1 else 0
    ensures r.Ok? ==> r.value.revision == revision + 1 && Committed(api.db.history, r.value)
    ensures r.Ok? ==> revision in api.db.history
    ensures r.Ok? ==> PatchSaved(api.t, SavePatch(revision, changes), api.db.history[revision], r.value.content)
    ensures between == [] && (forall i :: VersionedRow.Alone(publishing(i))) ==>
              var p, row := SavePatch(revision, changes), old(api.db.row).value;
              r.Ok? <==> row.revision == revision && Applicable(p)
                         && !GivesRefusable(api.t, p)
  {
    var members := Members(text, changes);
    ReadableWhenApplicable(api.names, text, revision, changes, members);
    r := api.PatchSettings(Request(revision, members), between, publishing);
  }
}
