// The console's settings form: drafts, and the changes one save sends.
module SettingsForm {
  import opened Common
  import opened Decimal
  import opened Text
  import opened RuntimeSettings

  datatype Group = Creation | Redirects | Maintenance | Registration | Traffic | Statistics

  function FieldsOf(g: Group): seq<Field> {
    match g
    case Creation => [AliasMode, UniqueURLs, MaxLinksPerUser, ShortDomains]
    case Redirects => [ForwardQuery, FallbackURL, DestinationDenylist]
    case Maintenance => [HealthCheckEnabled, HealthCheckIntervalSeconds, AutoPruneExpired, PruneGraceSeconds]
    case Registration => [RegistrationEnabled, TOTPEnabled]
    case Traffic => [RateLimitEnabled, RateLimitLogin, RateLimitRegister, RateLimit2FA, RateLimitOIDC,
                     RateLimitAPI, RateLimitRedirect]
    case Statistics => [CountBots]
  }

  function GroupOf(f: Field): Group {
    match f
    case AliasMode | UniqueURLs | MaxLinksPerUser | ShortDomains => Creation
    case ForwardQuery | FallbackURL | DestinationDenylist => Redirects
    case HealthCheckEnabled | HealthCheckIntervalSeconds | AutoPruneExpired | PruneGraceSeconds => Maintenance
    case RegistrationEnabled | TOTPEnabled => Registration
    case CountBots => Statistics
    case _ => Traffic
  }

  lemma CreationFields(f: Field)
    ensures f in FieldsOf(Creation) <==> GroupOf(f) == Creation
  {
  }

  lemma RedirectsFields(f: Field)
    ensures f in FieldsOf(Redirects) <==> GroupOf(f) == Redirects
  {
  }

  lemma MaintenanceFields(f: Field)
    ensures f in FieldsOf(Maintenance) <==> GroupOf(f) == Maintenance
  {
  }

  lemma RegistrationFields(f: Field)
    ensures f in FieldsOf(Registration) <==> GroupOf(f) == Registration
  {
  }

  lemma TrafficFields(f: Field)
    ensures f in FieldsOf(Traffic) <==> GroupOf(f) == Traffic
  {
  }

  lemma StatisticsFields(f: Field)
    ensures f in FieldsOf(Statistics) <==> GroupOf(f) == Statistics
  {
  }

  // The groups partition the settings: every field is saved by exactly one of them.
  lemma GroupsPartitionFields(g: Group, f: Field)
    ensures f in FieldsOf(g) <==> g == GroupOf(f)
  {
    match g
    case Creation => CreationFields(f);
    case Redirects => RedirectsFields(f);
    case Maintenance => MaintenanceFields(f);
    case Registration => RegistrationFields(f);
    case Traffic => TrafficFields(f);
    case Statistics => StatisticsFields(f);
  }

  // What the browser decides: which characters trim removes, and the safe integer a text denotes.
  datatype Browser = Browser(space: char -> bool, number: string -> Option<int>)

  const MAX_SAFE_INTEGER := 9_007_199_254_740_991

  ghost predicate ReadsDecimals(b: Browser) {
    forall n: nat :: n <= MAX_SAFE_INTEGER ==> b.number(Itoa(n)) == Some(n)
  }

  datatype Entry = Words(text: string) | Toggle(on: bool)

  type Draft = map<Field, Entry>

  function Join(items: seq<string>): string {
    if items == [] then "" else if |items| == 1 then items[0] else items[0] + "\n" + Join(items[1..])
  }

  function Show(n: int): string {
    if n < 0 then "-" + Itoa(-n) else Itoa(n)
  }

  function EntryOf(v: Value): Entry {
    match v
    case Flag(on) => Toggle(on)
    case List(items) => Words(Join(items))
    case Num(n) => Words(Show(n))
    case Str(text) => Words(text)
  }

  function RuntimeDraft(saved: Settings, g: Group): Draft {
    map f | f in FieldsOf(g) :: EntryOf(Get(saved, f))
  }

  predicate Separator(c: char) {
    c == '\n' || c == ','
  }

  function Pieces(s: string): (p: seq<string>)
    ensures p != []
  {
    if s == [] then [[]]
    else if Separator(s[0]) then [[]] + Pieces(s[1..])
    else var p := Pieces(s[1..]); [[s[0]] + p[0]] + p[1..]
  }

  function Cleaned(space: char -> bool, pieces: seq<string>): seq<string> {
    if pieces == [] then []
    else
      var item := Trim(space, pieces[0]);
      (if item == "" then [] else [item]) + Cleaned(space, pieces[1..])
  }

  function Items(b: Browser, text: string): seq<string> {
    Cleaned(b.space, Pieces(text))
  }

  // A list entry the text area can carry: not blank, not trimmed, not split.
  predicate Carried(space: char -> bool, item: string) {
    item != "" && !Edged(space, item) && Plain(item)
  }

  predicate Plain(s: string) {
    forall i :: 0 <= i < |s| ==> !Separator(s[i])
  }

  predicate AllPlain(pieces: seq<string>) {
    forall i :: 0 <= i < |pieces| ==> Plain(pieces[i])
  }

  predicate AllCarried(space: char -> bool, items: seq<string>) {
    forall i :: 0 <= i < |items| ==> Carried(space, items[i])
  }

  lemma {:induction false} PieceOfPlain(x: string, rest: string)
    requires Plain(x)
    ensures Pieces(x + "\n" + rest) == [x] + Pieces(rest)
    ensures Pieces(x) == [x]
  {
    if x == [] {
      assert [] + "\n" + rest == ['\n'] + rest;
    } else {
      PieceOfPlain(x[1..], rest);
      assert (x + "\n" + rest)[1..] == x[1..] + "\n" + rest;
      assert [x[0]] + x[1..] == x;
    }
  }

  // A text area is read line by line and comma by comma, ...
  lemma ItemsAtSeparator(b: Browser, before: string, c: char, rest: string)
    requires Plain(before) && (c == '\n' || c == ',')
    ensures Items(b, before + [c] + rest) == Items(b, before) + Items(b, rest)
  {
    PieceBefore(before, c, rest);
    PieceOfPlain(before, "");
    assert Cleaned(b.space, [before] + Pieces(rest)) == Cleaned(b.space, [before]) + Cleaned(b.space, Pieces(rest)) by {
      assert ([before] + Pieces(rest))[1..] == Pieces(rest) && [before][1..] == [];
    }
  }

  lemma {:induction false} PieceBefore(x: string, c: char, rest: string)
    requires Plain(x) && Separator(c)
    ensures Pieces(x + [c] + rest) == [x] + Pieces(rest)
  {
    if x == [] {
      assert [] + [c] + rest == [c] + rest && ([c] + rest)[1..] == rest;
    } else {
      PieceBefore(x[1..], c, rest);
      assert (x + [c] + rest)[1..] == x[1..] + [c] + rest;
      assert [x[0]] + x[1..] == x;
    }
  }

  // ... each item trimmed, and dropped when nothing is left of it.
  lemma ItemsOfOne(b: Browser, item: string)
    requires Plain(item)
    ensures Items(b, item) == if Trim(b.space, item) == "" then [] else [Trim(b.space, item)]
  {
    PieceOfPlain(item, "");
    assert Cleaned(b.space, [item][1..]) == [];
    assert Cleaned(b.space, [item]) == (if Trim(b.space, item) == "" then [] else [Trim(b.space, item)]) + [];
  }

  lemma {:induction false} CarriedItemsSurvive(b: Browser, items: seq<string>)
    requires AllCarried(b.space, items)
    ensures Items(b, Join(items)) == items
  {
    if items == [] {
      assert Pieces("") == [""] && [""][1..] == [] && Trim(b.space, "") == "";
    } else {
      PieceOfPlain(items[0], Join(items[1..]));
      TrimmedStays(b.space, items[0]);
      assert items == [items[0]] + items[1..];
      if |items| == 1 {
        assert Pieces(Join(items)) == [items[0]] && Cleaned(b.space, [items[0]]) == [items[0]] + Cleaned(b.space, []);
      } else {
        CarriedItemsSurvive(b, items[1..]);
        var pieces := Pieces(Join(items));
        assert pieces[0] == items[0] && pieces[1..] == Pieces(Join(items[1..]));
      }
    }
  }

  lemma {:induction false} PiecesHaveNoSeparator(s: string)
    ensures AllPlain(Pieces(s))
  {
    if s != [] {
      PiecesHaveNoSeparator(s[1..]);
    }
  }

  lemma {:induction false} TrimKeepsPlain(space: char -> bool, s: string)
    requires Plain(s)
    ensures Plain(Trim(space, s))
  {
    if s != [] {
      if space(s[0]) {
        TrimKeepsPlain(space, s[1..]);
      } else if space(s[|s| - 1]) {
        TrimKeepsPlain(space, s[..|s| - 1]);
      }
    }
  }

  lemma {:induction false} CleanedAreCarried(space: char -> bool, pieces: seq<string>)
    requires AllPlain(pieces)
    ensures AllCarried(space, Cleaned(space, pieces))
  {
    if pieces != [] {
      CleanedAreCarried(space, pieces[1..]);
      TrimKeepsPlain(space, pieces[0]);
    }
  }

  // A list comes back from the text area exactly when the text area can carry each entry.
  lemma ListRoundTrip(b: Browser, items: seq<string>)
    ensures Items(b, Join(items)) == items <==> AllCarried(b.space, items)
  {
    if AllCarried(b.space, items) {
      CarriedItemsSurvive(b, items);
    }
    PiecesHaveNoSeparator(Join(items));
    CleanedAreCarried(b.space, Pieces(Join(items)));
  }

  // ---- one save ----

  datatype Outcome = Rejected | Unchanged | Changed(value: Value)

  function TextOf(raw: Entry): string {
    match raw
    case Words(text) => text
    case Toggle(on) => if on then "true" else "false"
  }

  function NumberOf(b: Browser, raw: Entry): Option<int> {
    match raw
    case Words(text) => if text == "" then None else b.number(text)
    case Toggle(on) => Some(if on then 1 else 0)
  }

  function Entered(b: Browser, prior: Value, raw: Entry): Option<Value> {
    match prior
    case List(_) => Some(List(Items(b, TextOf(raw))))
    case Num(_) =>
      (match NumberOf(b, raw)
       case None => None
       case Some(n) => Some(Num(n)))
    case _ =>
      match raw
      case Words(text) => Some(Str(text))
      case Toggle(on) => Some(Flag(on))
  }

  // Controls whose switch is off keep their saved value.
  predicate Dependent(draft: Draft, f: Field) {
    || (f == HealthCheckIntervalSeconds && HealthCheckEnabled in draft && draft[HealthCheckEnabled] == Toggle(false))
    || (f == PruneGraceSeconds && AutoPruneExpired in draft && draft[AutoPruneExpired] == Toggle(false))
    || (GroupOf(f) == Traffic && f != RateLimitEnabled
        && RateLimitEnabled in draft && draft[RateLimitEnabled] == Toggle(false))
  }

  function ChangeOf(b: Browser, saved: Settings, draft: Draft, f: Field): Outcome {
    if Dependent(draft, f) || f !in draft then Unchanged
    else match Entered(b, Get(saved, f), draft[f])
      case None => Rejected
      case Some(v) => if v == Get(saved, f) then Unchanged else Changed(v)
  }

  predicate Acceptable(b: Browser, saved: Settings, draft: Draft, keys: seq<Field>) {
    forall i :: 0 <= i < |keys| ==> !ChangeOf(b, saved, draft, keys[i]).Rejected?
  }

  function Changes(b: Browser, saved: Settings, draft: Draft, keys: seq<Field>): Settings {
    map f | f in keys && ChangeOf(b, saved, draft, f).Changed? :: ChangeOf(b, saved, draft, f).value
  }

  lemma OneMoreKey(b: Browser, saved: Settings, draft: Draft, keys: seq<Field>, f: Field)
    ensures Changes(b, saved, draft, keys + [f]) ==
            if ChangeOf(b, saved, draft, f).Changed?
            then Changes(b, saved, draft, keys)[f := ChangeOf(b, saved, draft, f).value]
            else Changes(b, saved, draft, keys)
  {
  }

  // The switch a control depends on, if it has one, is off in the draft.
  method SwitchedOff(draft: Draft, f: Field) returns (off: bool)
    ensures off <==> Dependent(draft, f)
  {
    if f == HealthCheckIntervalSeconds {
      return HealthCheckEnabled in draft && draft[HealthCheckEnabled] == Toggle(false);
    }
    if f == PruneGraceSeconds {
      return AutoPruneExpired in draft && draft[AutoPruneExpired] == Toggle(false);
    }
    if f == RateLimitLogin || f == RateLimitRegister || f == RateLimit2FA || f == RateLimitOIDC
       || f == RateLimitAPI || f == RateLimitRedirect {
      return RateLimitEnabled in draft && draft[RateLimitEnabled] == Toggle(false);
    }
    return false;
  }

  // What stands in a control, by the type of the saved value.
  method ReadEntry(b: Browser, prior: Value, raw: Entry) returns (value: Option<Value>)
    ensures value == Entered(b, prior, raw)
  {
    if prior.List? {
      var text := if raw.Words? then raw.text else if raw.on then "true" else "false";
      return Some(List(Items(b, text)));
    }
    if prior.Num? {
      if raw == Words("") {
        return None;
      }
      var n := if raw.Words? then b.number(raw.text) else if raw.on then Some(1) else Some(0);
      return if n.Some? then Some(Num(n.value)) else None;
    }
    return Some(if raw.Words? then Str(raw.text) else Flag(raw.on));
  }

  method RuntimeChanges(b: Browser, saved: Settings, draft: Draft, g: Group) returns (r: Result<Settings, Field>)
    ensures r.Ok? <==> Acceptable(b, saved, draft, FieldsOf(g))
    ensures r.Ok? ==> r.value == Changes(b, saved, draft, FieldsOf(g))
    ensures r.Err? ==> ChangeOf(b, saved, draft, r.error).Rejected?
  {
    var changes: Settings := map[];
    var keys := FieldsOf(g);
    for i := 0 to |keys|
      invariant Acceptable(b, saved, draft, keys[..i])
      invariant changes == Changes(b, saved, draft, keys[..i])
    {
      var f := keys[i];
      assert keys[..i + 1] == keys[..i] + [f];
      OneMoreKey(b, saved, draft, keys[..i], f);
      var off := SwitchedOff(draft, f);
      if off || f !in draft {
        continue;
      }
      var value := ReadEntry(b, Get(saved, f), draft[f]);
      if value.None? {
        return Err(f);
      }
      if value.value != Get(saved, f) {
        changes := changes[f := value.value];
      }
    }
    assert keys[..|keys|] == keys;
    return Ok(changes);
  }

  // The patch a save sends.
  function SavePatch(revision: int, changes: Settings): Patch {
    Patch(revision, map f | f in changes :: Known(f) := Decoded(changes[f]))
  }

  // One member of the changes object, under the field's own name.
  predicate Sent(text: Field -> string, changes: Settings, member: (string, Raw)) {
    exists f <- changes :: member == (text(f), Decoded(changes[f]))
  }

  lemma {:induction false} SentIsRead(names: Names, text: Field -> string, changes: Settings,
                                      members: seq<(string, Raw)>)
    requires forall f: Field :: names(text(f)) == Some(f)
    requires forall i :: 0 <= i < |members| ==> Sent(text, changes, members[i])
    ensures forall name <- RuntimeSettings.Changes(names, members) ::
              && name.Known? && name.field in changes
              && RuntimeSettings.Changes(names, members)[name] == Decoded(changes[name.field])
    ensures forall i :: 0 <= i < |members| ==> NameOf(names, members[i].0) in RuntimeSettings.Changes(names, members)
  {
    if members != [] {
      SentIsRead(names, text, changes, members[..|members| - 1]);
      assert Sent(text, changes, members[|members| - 1]);
    }
  }

  predicate Listed(text: Field -> string, members: seq<(string, Raw)>, f: Field) {
    exists i :: 0 <= i < |members| && members[i].0 == text(f)
  }

  lemma ListedIsRead(names: Names, text: Field -> string, members: seq<(string, Raw)>, f: Field)
    requires names(text(f)) == Some(f) && Listed(text, members, f)
    requires forall i :: 0 <= i < |members| ==> NameOf(names, members[i].0) in RuntimeSettings.Changes(names, members)
    ensures Known(f) in RuntimeSettings.Changes(names, members)
  {
  }

  // However the object orders its members, the server reads the save the form sent.
  lemma SaveArrives(names: Names, text: Field -> string, revision: int, changes: Settings, members: seq<(string, Raw)>)
    requires forall f: Field :: names(text(f)) == Some(f)
    requires forall i :: 0 <= i < |members| ==> Sent(text, changes, members[i])
    requires forall f <- changes :: Listed(text, members, f)
    ensures PatchOf(names, Request(revision, members)) == SavePatch(revision, changes)
  {
    SentIsRead(names, text, changes, members);
    var read := RuntimeSettings.Changes(names, members);
    forall f | f in changes
      ensures Known(f) in read
    {
      assert Listed(text, members, f);
      ListedIsRead(names, text, members, f);
    }
    SameChanges(read, revision, changes);
  }

  lemma SameChanges(read: map<Name, Raw>, revision: int, changes: Settings)
    requires forall name <- read :: name.Known? && name.field in changes && read[name] == Decoded(changes[name.field])
    requires forall f <- changes :: Known(f) in read
    ensures read == SavePatch(revision, changes).changes
  {
    var sent := SavePatch(revision, changes).changes;
    assert forall name <- read :: name in sent && sent[name] == read[name];
    assert forall name <- sent :: name in read;
  }

  // A draft nobody edited sends nothing, exactly when the text areas can carry the group's lists.
  lemma UneditedDraftIsEmpty(t: Rules, b: Browser, saved: Settings, g: Group)
    requires Stored(t, saved) && ReadsDecimals(b)
    ensures var draft := RuntimeDraft(saved, g);
      Acceptable(b, saved, draft, FieldsOf(g)) &&
      (Changes(b, saved, draft, FieldsOf(g)) == map[] <==>
        forall f <- FieldsOf(g) :: Get(saved, f).List? ==> AllCarried(b.space, Get(saved, f).items))
  {
    var draft := RuntimeDraft(saved, g);
    forall f | f in FieldsOf(g)
      ensures !ChangeOf(b, saved, draft, f).Rejected?
      ensures ChangeOf(b, saved, draft, f).Changed? <==>
              Get(saved, f).List? && !AllCarried(b.space, Get(saved, f).items)
    {
      UneditedField(t, b, saved, g, f);
    }
    if f :| f in FieldsOf(g) && ChangeOf(b, saved, draft, f).Changed? {
      assert f in Changes(b, saved, draft, FieldsOf(g));
    }
  }

  // Validation does not stop such an entry: a bare host with a comma in it is stored as it is, and
  // the form sends it back as two without anybody touching it.
  lemma CommaHostIsSentBack(t: Rules, b: Browser, saved: Settings, h: string)
    requires Stored(t, saved) && ReadsDecimals(b)
    requires Host(t, h) == h && Bare(t, h) && ',' in h
    ensures var holding := saved[ShortDomains := List([h])];
      && Hosts(t, [h]) == Some([h]) && Stored(t, holding)
      && Changes(b, holding, RuntimeDraft(holding, Creation), FieldsOf(Creation)) != map[]
  {
    var holding := saved[ShortDomains := List([h])];
    SoleHost(t, h);
    forall f: Field
      ensures Normal(t, f, Get(holding, f)) == Some(Get(holding, f))
    {
      if f != ShortDomains {
        assert Get(holding, f) == Get(saved, f);
        assert Normal(t, f, Get(saved, f)) == Some(Get(saved, f));
      }
    }
    UneditedDraftIsEmpty(t, b, holding, Creation);
    assert ShortDomains in FieldsOf(Creation) && !AllCarried(b.space, [h]);
  }

  lemma SoleHost(t: Rules, h: string)
    requires Host(t, h) == h && Bare(t, h) && h != ""
    ensures Hosts(t, [h]) == Some([h])
  {
    assert [h][..0] == [] && [] + [h] == [h];
    assert Hosts(t, [h][..0]) == Some([]);
  }

  lemma UneditedField(t: Rules, b: Browser, saved: Settings, g: Group, f: Field)
    requires Stored(t, saved) && ReadsDecimals(b) && f in FieldsOf(g)
    ensures !ChangeOf(b, saved, RuntimeDraft(saved, g), f).Rejected?
    ensures ChangeOf(b, saved, RuntimeDraft(saved, g), f).Changed? <==>
            Get(saved, f).List? && !AllCarried(b.space, Get(saved, f).items)
  {
    var draft := RuntimeDraft(saved, g);
    assert Normal(t, f, Get(saved, f)) == Some(Get(saved, f));
    if Dependent(draft, f) {
      DependentIsNumber(draft, f);
      NumberIsNoList(t, f, Get(saved, f));
    } else {
      UneditedEntry(t, b, f, Get(saved, f));
      UneditedChange(b, saved, draft, f);
    }
  }

  lemma NumberIsNoList(t: Rules, f: Field, v: Value)
    requires Normal(t, f, v) == Some(v) && KindOf(f).IsNum?
    ensures !v.List?
  {
  }

  lemma UneditedChange(b: Browser, saved: Settings, draft: Draft, f: Field)
    requires !Dependent(draft, f) && f in draft && draft[f] == EntryOf(Get(saved, f))
    requires Entered(b, Get(saved, f), draft[f]).Some?
    ensures !ChangeOf(b, saved, draft, f).Rejected?
    ensures ChangeOf(b, saved, draft, f).Changed? <==> Entered(b, Get(saved, f), draft[f]) != Some(Get(saved, f))
  {
  }

  lemma DependentIsNumber(draft: Draft, f: Field)
    ensures Dependent(draft, f) ==> KindOf(f).IsNum?
  {
  }

  lemma UneditedEntry(t: Rules, b: Browser, f: Field, v: Value)
    requires Normal(t, f, v) == Some(v) && ReadsDecimals(b)
    ensures Entered(b, v, EntryOf(v)).Some?
    ensures Entered(b, v, EntryOf(v)) != Some(v) <==> v.List? && !AllCarried(b.space, v.items)
  {
    match v
    case List(items) => ListRoundTrip(b, items);
    case Num(n) => StoredNumberIsSafe(t, f, n);
    case _ =>
  }

  lemma StoredNumberIsSafe(t: Rules, f: Field, n: int)
    requires Normal(t, f, Num(n)) == Some(Num(n))
    ensures 0 <= n <= MAX_SAFE_INTEGER && Show(n) != ""
  {
  }
}
