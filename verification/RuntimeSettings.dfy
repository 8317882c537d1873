// The administrator's runtime settings: fields, normalisation and patches.
module RuntimeSettings {
  import opened Common
  import opened Text

  datatype Field =
    | AliasMode | UniqueURLs | RegistrationEnabled | CountBots | TOTPEnabled | ForwardQuery | FallbackURL
    | AutoPruneExpired | PruneGraceSeconds | MaxLinksPerUser | DestinationDenylist | ShortDomains
    | HealthCheckEnabled | HealthCheckIntervalSeconds | RateLimitEnabled | RateLimitLogin | RateLimitAPI
    | RateLimitRedirect | RateLimitRegister | RateLimit2FA | RateLimitOIDC

  datatype Value = Str(text: string) | Flag(on: bool) | Num(n: int) | List(items: seq<string>)

  datatype Kind = IsStr | IsFlag | IsNum | IsList

  function KindOf(f: Field): Kind {
    match f
    case AliasMode | FallbackURL => IsStr
    case DestinationDenylist | ShortDomains => IsList
    case PruneGraceSeconds | MaxLinksPerUser | HealthCheckIntervalSeconds => IsNum
    case RateLimitLogin | RateLimitAPI | RateLimitRedirect => IsNum
    case RateLimitRegister | RateLimit2FA | RateLimitOIDC => IsNum
    case _ => IsFlag
  }

  predicate Fits(f: Field, v: Value) {
    match KindOf(f)
    case IsStr => v.Str?
    case IsFlag => v.Flag?
    case IsNum => v.Num?
    case IsList => v.List?
  }

  // A set of settings; a field that was never given holds the zero value of its type.
  type Settings = map<Field, Value>

  function Zero(f: Field): Value {
    match KindOf(f)
    case IsStr => Str("")
    case IsFlag => Flag(false)
    case IsNum => Num(0)
    case IsList => List([])
  }

  function Get(s: Settings, f: Field): Value {
    if f in s then s[f] else Zero(f)
  }

  const MAX_LINKS := 1_000_000
  const MAX_RATE_LIMIT := 1_000_000
  const MAX_GRACE := 10 * 365 * 24 * 3600
  const MAX_HEALTH_CHECK := 30 * 24 * 3600

  // ---- normalisation ----

  function Host(t: Rules, raw: string): string {
    Lower(t, Trim(t.space, raw))
  }

  predicate Bare(t: Rules, host: string) {
    !HasAny(host, "/:@ \t\r\n") && t.host(host)
  }

  // normalizeRuntimeHosts: blanks and repeats dropped, anything but a bare host refused.
  function Hosts(t: Rules, values: seq<string>): Option<seq<string>> {
    if values == [] then Some([])
    else match Hosts(t, values[..|values| - 1])
      case None => None
      case Some(kept) => KeepHost(t, kept, Host(t, values[|values| - 1]))
  }

  function KeepHost(t: Rules, kept: seq<string>, host: string): Option<seq<string>> {
    if host == "" then Some(kept)
    else if !Bare(t, host) then None
    else if host in kept then Some(kept)
    else Some(kept + [host])
  }

  method NormalizeRuntimeHosts(t: Rules, values: seq<string>) returns (r: Option<seq<string>>)
    ensures r == Hosts(t, values)
  {
    var seen: set<string> := {};
    var result: seq<string> := [];
    for i := 0 to |values|
      invariant Hosts(t, values[..i]) == Some(result)
      invariant forall h :: h in seen <==> h in result
    {
      assert values[..i + 1][..i] == values[..i];
      var host := Host(t, values[i]);
      if host == "" {
        continue;
      }
      if !Bare(t, host) {
        RefusedOnce(t, values, i + 1);
        return None;
      }
      if host in seen {
        continue;
      }
      seen := seen + {host};
      result := result + [host];
    }
    assert values[..|values|] == values;
    return Some(result);
  }

  lemma {:induction false} RefusedOnce(t: Rules, values: seq<string>, n: nat)
    requires n <= |values| && Hosts(t, values[..n]) == None
    ensures Hosts(t, values) == None
    decreases |values| - n
  {
    if n < |values| {
      assert values[..n + 1][..n] == values[..n];
      RefusedOnce(t, values, n + 1);
    } else {
      assert values[..n] == values;
    }
  }

  // A list that normalisation leaves alone.
  ghost predicate Canonical(t: Rules, hosts: seq<string>) {
    && (forall i :: 0 <= i < |hosts| ==> hosts[i] != "" && Bare(t, hosts[i]) && Host(t, hosts[i]) == hosts[i])
    && (forall i, j :: 0 <= i < j < |hosts| ==> hosts[i] != hosts[j])
  }

  lemma KeepsCanonical(t: Rules, kept: seq<string>, raw: string)
    requires Lawful(t) && Canonical(t, kept) && KeepHost(t, kept, Host(t, raw)).Some?
    ensures Canonical(t, KeepHost(t, kept, Host(t, raw)).value)
  {
    LowerTrimStays(t, raw);
  }

  lemma {:induction false} HostsAreCanonical(t: Rules, values: seq<string>)
    requires Lawful(t) && Hosts(t, values).Some?
    ensures Canonical(t, Hosts(t, values).value)
  {
    if values != [] {
      HostsAreCanonical(t, values[..|values| - 1]);
      KeepsCanonical(t, Hosts(t, values[..|values| - 1]).value, values[|values| - 1]);
    }
  }

  // The normalised list holds the canonical form of every entry that is not blank, and nothing else.
  lemma {:induction false} HostsKeepEveryEntry(t: Rules, values: seq<string>, h: string)
    requires Hosts(t, values).Some?
    ensures h in Hosts(t, values).value <==> h != "" && exists raw <- values :: Host(t, raw) == h
  {
    if values != [] {
      var init, last := values[..|values| - 1], values[|values| - 1];
      HostsKeepEveryEntry(t, init, h);
      assert values == init + [last];
    }
  }

  lemma {:induction false} CanonicalStays(t: Rules, hosts: seq<string>)
    requires Canonical(t, hosts)
    ensures Hosts(t, hosts) == Some(hosts)
  {
    if hosts != [] {
      var init, last := hosts[..|hosts| - 1], hosts[|hosts| - 1];
      CanonicalStays(t, init);
      assert last !in init && Host(t, last) == last;
      assert hosts == init + [last];
    }
  }

  function Between(v: Value, low: int, high: int): Option<Value>
    requires v.Num?
  {
    if low <= v.n <= high then Some(v) else None
  }

  // What NormalizeRuntimeSettings does with one field; None is its validation error, and the
  // answer to a value that is not even of the field's type.
  function Normal(t: Rules, f: Field, v: Value): (r: Option<Value>)
    ensures r.Some? ==> Fits(f, v) && Fits(f, r.value)
  {
    if !Fits(f, v) then None
    else match f
      case AliasMode =>
        var mode := Lower(t, Trim(t.space, v.text));
        if mode == "random" || mode == "sequential" then Some(Str(mode)) else None
      case FallbackURL =>
        var url := Trim(t.space, v.text);
        if url == "" || t.url(url) then Some(Str(url)) else None
      case PruneGraceSeconds => Between(v, 0, MAX_GRACE)
      case HealthCheckIntervalSeconds => Between(v, 1, MAX_HEALTH_CHECK)
      case MaxLinksPerUser => Between(v, 0, MAX_LINKS)
      case DestinationDenylist | ShortDomains =>
        (match Hosts(t, v.items)
         case None => None
         case Some(hosts) => Some(List(hosts)))
      case RateLimitLogin | RateLimitAPI | RateLimitRedirect => Between(v, 0, MAX_RATE_LIMIT)
      case RateLimitRegister | RateLimit2FA | RateLimitOIDC => Between(v, 0, MAX_RATE_LIMIT)
      case _ => Some(v)
  }

  function NormalizeRuntimeSettings(t: Rules, s: Settings): Option<Settings> {
    if Acceptable(t, s) then Some(map f: Field :: Normal(t, f, Get(s, f)).value) else None
  }

  predicate Acceptable(t: Rules, s: Settings) {
    forall f: Field :: Normal(t, f, Get(s, f)).Some?
  }

  // Normalising a second time changes nothing, field by field.
  lemma NormalIsIdempotent(t: Rules, f: Field, v: Value)
    requires Lawful(t) && Normal(t, f, v).Some?
    ensures Normal(t, f, Normal(t, f, v).value) == Normal(t, f, v)
  {
    match f
    case AliasMode =>
      LowerTrimStays(t, v.text);
    case FallbackURL =>
      TrimmedStays(t.space, Trim(t.space, v.text));
    case DestinationDenylist | ShortDomains =>
      HostsAreCanonical(t, v.items);
      CanonicalStays(t, Hosts(t, v.items).value);
    case _ =>
  }

  predicate Stored(t: Rules, s: Settings) {
    forall f: Field :: Normal(t, f, Get(s, f)) == Some(Get(s, f))
  }

  lemma NormalizedIsStored(t: Rules, s: Settings)
    requires Lawful(t) && NormalizeRuntimeSettings(t, s).Some?
    ensures Stored(t, NormalizeRuntimeSettings(t, s).value)
    ensures forall f: Field :: Get(NormalizeRuntimeSettings(t, s).value, f) == Normal(t, f, Get(s, f)).value
  {
    var normal := NormalizeRuntimeSettings(t, s).value;
    forall f: Field
      ensures Normal(t, f, Get(normal, f)) == Some(Get(normal, f))
    {
      assert Normal(t, f, Get(s, f)).Some?;
      NormalIsIdempotent(t, f, Get(s, f));
    }
  }

  // ---- patches ----

  // What a member name turns out to mean, and its raw value as decoding sees it.
  datatype Name = Known(field: Field) | Unknown(text: string)
  datatype Raw = Null | Malformed | Decoded(value: Value)

  // The changes object as it is marshalled: its members in the order of their texts.
  datatype Request = Request(revision: int, members: seq<(string, Raw)>)

  // What the request asks for, name by name.
  datatype Patch = Patch(revision: int, changes: map<Name, Raw>)

  // names is the decoder's: an exact field name, or else one that differs in case only.
  type Names = string -> Option<Field>

  function NameOf(names: Names, text: string): Name {
    match names(text)
    case Some(field) => Known(field)
    case None => Unknown(text)
  }

  // Of two texts that mean the same field the later one counts.
  function Changes(names: Names, members: seq<(string, Raw)>): map<Name, Raw> {
    if members == [] then map[]
    else
      var last := members[|members| - 1];
      Changes(names, members[..|members| - 1])[NameOf(names, last.0) := last.1]
  }

  function PatchOf(names: Names, q: Request): Patch {
    Patch(q.revision, Changes(names, q.members))
  }

  predicate Decodes(name: Name, raw: Raw) {
    name.Known? && raw.Decoded? && Fits(name.field, raw.value)
  }

  predicate MemberDecodes(names: Names, member: (string, Raw)) {
    Decodes(NameOf(names, member.0), member.1)
  }

  // Every member counts here, also one that a later text overrides.
  predicate AllDecode(names: Names, members: seq<(string, Raw)>) {
    forall i :: 0 <= i < |members| ==> MemberDecodes(names, members[i])
  }

  predicate Readable(names: Names, q: Request) {
    q.revision > 0 && q.members != [] && AllDecode(names, q.members)
  }

  predicate Applicable(p: Patch) {
    p.revision > 0 && p.changes != map[] && forall name <- p.changes :: Decodes(name, p.changes[name])
  }

  lemma {:induction false} ChangesDecode(names: Names, members: seq<(string, Raw)>)
    requires AllDecode(names, members)
    ensures forall name <- Changes(names, members) :: Decodes(name, Changes(names, members)[name])
    ensures members != [] ==> Changes(names, members) != map[]
  {
    if members != [] {
      ChangesDecode(names, members[..|members| - 1]);
      assert MemberDecodes(names, members[|members| - 1]);
      assert NameOf(names, members[|members| - 1].0) in Changes(names, members);
    }
  }

  lemma ReadableIsApplicable(names: Names, q: Request)
    requires Readable(names, q)
    ensures Applicable(PatchOf(names, q))
  {
    ChangesDecode(names, q.members);
  }

  function Merged(p: Patch, input: Settings): Settings {
    Overlay(p.changes, input)
  }

  // The input with the changes decoded over it.
  function Overlay(changes: map<Name, Raw>, input: Settings): Settings {
    map f: Field :: if Known(f) in changes && changes[Known(f)].Decoded? then changes[Known(f)].value else Get(input, f)
  }

  lemma OverlayOne(changes: map<Name, Raw>, name: Name, raw: Raw, input: Settings)
    requires Decodes(name, raw)
    ensures Overlay(changes[name := raw], input) == Overlay(changes, input)[name.field := raw.value]
  {
  }

  lemma OneMoreMember(names: Names, members: seq<(string, Raw)>, member: (string, Raw), input: Settings)
    requires MemberDecodes(names, member)
    ensures Overlay(Changes(names, members + [member]), input) ==
            Overlay(Changes(names, members), input)[NameOf(names, member.0).field := member.1.value]
  {
    assert (members + [member])[..|members|] == members;
    OverlayOne(Changes(names, members), NameOf(names, member.0), member.1, input);
  }

  method NamesNull(names: Names, members: seq<(string, Raw)>) returns (found: bool)
    ensures found <==> exists i :: 0 <= i < |members| && members[i].1.Null?
    ensures found ==> !AllDecode(names, members)
  {
    for i := 0 to |members|
      invariant forall j :: 0 <= j < i ==> !members[j].1.Null?
    {
      if members[i].1.Null? {
        assert !MemberDecodes(names, members[i]);
        return true;
      }
    }
    return false;
  }

  // The decoder goes through the members in order, each over what it has so far.
  method Decode(names: Names, members: seq<(string, Raw)>, input: Settings) returns (r: Option<Settings>)
    ensures r == if AllDecode(names, members) then Some(Overlay(Changes(names, members), input)) else None
  {
    var merged := map f: Field :: Get(input, f);
    for i := 0 to |members|
      invariant AllDecode(names, members[..i]) && merged == Overlay(Changes(names, members[..i]), input)
    {
      if !MemberDecodes(names, members[i]) {
        return None;
      }
      OneMoreMember(names, members[..i], members[i], input);
      assert members[..i + 1] == members[..i] + [members[i]];
      merged := merged[NameOf(names, members[i].0).field := members[i].1.value];
    }
    assert members[..|members|] == members;
    return Some(merged);
  }

  // RuntimeSettingsPatch.Apply: nulls are refused first, then the members are decoded into a copy.
  method ApplyPatch(names: Names, q: Request, input: Settings) returns (r: Option<Settings>)
    ensures r == if Readable(names, q) then Some(Merged(PatchOf(names, q), input)) else None
  {
    if q.revision <= 0 || q.members == [] {
      return None;
    }
    var found := NamesNull(names, q.members);
    if found {
      return None;
    }
    r := Decode(names, q.members, input);
  }

  // The merge of a patch into stored settings, once normalised, changes the named fields only.
  lemma MergeTouchesNamedFields(t: Rules, p: Patch, base: Settings, f: Field)
    requires Applicable(p) && Stored(t, base)
    requires NormalizeRuntimeSettings(t, Merged(p, base)).Some?
    ensures var saved := NormalizeRuntimeSettings(t, Merged(p, base)).value;
      if Known(f) in p.changes then
        Decodes(Known(f), p.changes[Known(f)]) && Some(Get(saved, f)) == Normal(t, f, p.changes[Known(f)].value)
      else Get(saved, f) == Get(base, f)
  {
    var m := Merged(p, base);
    assert Normal(t, f, Get(m, f)).Some?;
    assert Known(f) in p.changes ==> Decodes(Known(f), p.changes[Known(f)]);
  }
}
