// What each setting accepts, and how it is stored, said of the value that was given.
module SettingsMeaning {
  import opened Common
  import opened Text
  import opened RuntimeSettings

  // strings.ToLower(strings.TrimSpace(s))
  function Folded(t: Rules, s: string): string {
    Lower(t, Trim(t.space, s))
  }

  // The fields that are numbers, with their bounds.
  function Bounds(f: Field): Option<(int, int)> {
    match f
    case PruneGraceSeconds => Some((0, 315_360_000))
    case HealthCheckIntervalSeconds => Some((1, 2_592_000))
    case MaxLinksPerUser => Some((0, 1_000_000))
    case RateLimitLogin => Some((0, 1_000_000))
    case RateLimitAPI => Some((0, 1_000_000))
    case RateLimitRedirect => Some((0, 1_000_000))
    case RateLimitRegister => Some((0, 1_000_000))
    case RateLimit2FA => Some((0, 1_000_000))
    case RateLimitOIDC => Some((0, 1_000_000))
    case _ => None
  }

  predicate IsList(f: Field) {
    f == DestinationDenylist || f == ShortDomains
  }

  // An entry that is neither blank nor a bare host.
  ghost predicate BadHost(t: Rules, raw: string) {
    var h := Folded(t, raw);
    h != "" && ((exists c <- h :: c in "/:@ \t\r\n") || !t.host(h))
  }

  // What is refused: a value of another type, an alias mode that is neither of the two, a fallback
  // that is not a URL, a number out of bounds, a list with an entry that is no bare host.
  ghost predicate Refusable(t: Rules, f: Field, v: Value) {
    if f == AliasMode then !v.Str? || Folded(t, v.text) !in {"random", "sequential"}
    else if f == FallbackURL then !v.Str? || (Trim(t.space, v.text) != "" && !t.url(Trim(t.space, v.text)))
    else if IsList(f) then !v.List? || exists raw <- v.items :: BadHost(t, raw)
    else if Bounds(f).Some? then !v.Num? || v.n < Bounds(f).value.0 || v.n > Bounds(f).value.1
    else !v.Flag?
  }

  // How the rest is stored: flags and numbers as given, texts trimmed, lists as the set of hosts
  // they name.
  ghost predicate StoredAs(t: Rules, f: Field, given: Value, stored: Value) {
    if f == AliasMode then given.Str? && stored == Str(Folded(t, given.text))
    else if f == FallbackURL then given.Str? && stored == Str(Trim(t.space, given.text))
    else if IsList(f) then given.List? && stored.List? && SameHosts(t, given.items, stored.items)
    else stored == given
  }

  // Each host once, and exactly those that some entry denotes.
  ghost predicate SameHosts(t: Rules, given: seq<string>, stored: seq<string>) {
    && (forall i, j :: 0 <= i < j < |stored| ==> stored[i] != stored[j])
    && (forall h: string :: h in stored <==> h != "" && exists raw <- given :: Folded(t, raw) == h)
  }

  lemma {:induction false} HostsRefuse(t: Rules, values: seq<string>)
    ensures Hosts(t, values) == None <==> exists raw <- values :: BadHost(t, raw)
  {
    if values != [] {
      var init, last := values[..|values| - 1], values[|values| - 1];
      HostsRefuse(t, init);
      assert values == init + [last];
      assert BadHost(t, last) <==> Host(t, last) != "" && !Bare(t, Host(t, last));
    }
  }

  lemma HostsAreStored(t: Rules, values: seq<string>)
    requires Lawful(t) && Hosts(t, values).Some?
    ensures SameHosts(t, values, Hosts(t, values).value)
  {
    HostsAreCanonical(t, values);
    forall h: string
      ensures h in Hosts(t, values).value <==> h != "" && exists raw <- values :: Folded(t, raw) == h
    {
      HostsKeepEveryEntry(t, values, h);
      assert forall raw: string :: Host(t, raw) == Folded(t, raw);
    }
  }

  // Normalisation refuses exactly what is refusable and stores the rest as said.
  lemma NormalIsStoredAs(t: Rules, f: Field, v: Value)
    requires Lawful(t)
    ensures Normal(t, f, v) == None <==> Refusable(t, f, v)
    ensures Normal(t, f, v).Some? ==> StoredAs(t, f, v, Normal(t, f, v).value)
  {
    if IsList(f) && v.List? {
      HostsRefuse(t, v.items);
      if Hosts(t, v.items).Some? {
        HostsAreStored(t, v.items);
      }
    }
  }

  // And so for all settings at once.
  lemma SettingsAreStoredAs(t: Rules, s: Settings)
    requires Lawful(t)
    ensures NormalizeRuntimeSettings(t, s).Some? <==> forall f: Field :: !Refusable(t, f, Get(s, f))
    ensures NormalizeRuntimeSettings(t, s).Some? ==>
              forall f: Field :: StoredAs(t, f, Get(s, f), Get(NormalizeRuntimeSettings(t, s).value, f))
  {
    forall f: Field
      ensures Normal(t, f, Get(s, f)) == None <==> Refusable(t, f, Get(s, f))
      ensures Normal(t, f, Get(s, f)).Some? ==> StoredAs(t, f, Get(s, f), Normal(t, f, Get(s, f)).value)
    {
      NormalIsStoredAs(t, f, Get(s, f));
    }
  }

  // A request is well-formed when its revision is positive and each of its members names a field,
  // in a spelling the decoder takes, and holds a value of that field's type.
  lemma ReadableMeans(names: Names, q: Request)
    ensures Readable(names, q) <==>
              && q.revision > 0 && |q.members| > 0
              && forall i :: 0 <= i < |q.members| ==> TypedMember(names, q.members[i].0, q.members[i].1)
  {
    forall i | 0 <= i < |q.members|
      ensures MemberDecodes(names, q.members[i]) <==> TypedMember(names, q.members[i].0, q.members[i].1)
    {
    }
  }

  ghost predicate TypedMember(names: Names, text: string, raw: Raw) {
    && names(text).Some? && raw.Decoded?
    && var f, v := names(text).value, raw.value;
       if f == AliasMode || f == FallbackURL then v.Str?
       else if IsList(f) then v.List?
       else if Bounds(f).Some? then v.Num? else v.Flag?
  }

  // A field nobody gave is empty: no text, no list, nothing switched on, zero.
  lemma MissingIsEmpty(s: Settings, f: Field)
    requires f !in s
    ensures Get(s, f) == if f == AliasMode || f == FallbackURL then Str("")
                         else if IsList(f) then List([])
                         else if Bounds(f).Some? then Num(0) else Flag(false)
  {
  }
}
