# Purels, modelled

Purels is a URL shortener: a Go API and worker around one PostgreSQL database and one Redis cache,
and a web console. This project models the small concurrent protocols around that database, the
codecs and arithmetic they lean on, and proves what they promise, over every interleaving and every
input.

How a protocol is written down:

- A protocol is a state machine over its SQL statements. A `State` holds the tables and what every
  session has not committed yet, a `Label` is one statement, commit or rollback of one session,
  `Enabled` says when the database lets it finish (row locks, unique indexes, advisory locks,
  predicates of a WHERE clause), `Apply` is its effect. `Run` executes any sequence of labels and
  skips those that cannot happen, so a theorem about every `Run` is one about every interleaving.
  Isolation is READ COMMITTED: a statement sees the committed rows and its own transaction's.
- A class holds the same state in fields and its methods are the source's, statement by statement.
  Between two statements a method calls `Interleave` with whatever the other sessions do there
  (parameters named `others`, `between`, `publishing`). The contracts hold whatever they do;
  some clauses say in addition what happens when they do nothing (`Alone`).
- What a setting, a rule, a window or a holder is gets said twice: once as the program computes it and
  once over the plain columns or literal numbers (`LinkMeaning`, `SettingsMeaning`, and lemmas such as
  `HeldMeansSomebody` and `AcceptsWithinTheWindow`), so that no result rests on one definition alone.
- Histories that the database does not keep (`credits`, `granted`, `accepted`, `seen`, ...) are part
  of the state, so that "at most once" and "never again" can be said.

Modules:

| files | part of the program |
|---|---|
| `ClickScan`, `ClickRollup`, `ClickStore`, `ClickStats`, `Calendar` | raw clicks, daily counters, and the statistics read from them |
| `RuntimeSettings`, `SettingsMeaning`, `VersionedRow`, `RuntimeProvider`, `SettingsForm`, `SettingsSave` | the versioned settings row, its snapshots in many processes, PATCH and the console form |
| `Links`, `LinkMeaning`, `LinkCache`, `LinkService`, `LinkStaleness` | links, the redirect cache, and how stale it can get |
| `Capability`, `CapabilityStore` | the guard on the last administrator |
| `Username`, `Provisioning`, `SignIn` | first sign-ins through an identity provider |
| `Challenges`, `RecoveryCodes`, `SecondFactor`, `Totp` | the second factor |
| `RateLimit` | the fixed-window rate limit |
| `Countdown`, `InterstitialPage` | the interstitial page's countdown |
| `ScriptJson`, `QueryMerge`, `Base36`, `Decimal`, `Text`, `Common` | codecs and shared pieces |

Where the obvious statement is false of the code, the exact condition or a concrete run is proved instead:

- `LinkStaleness.AnswersAreRecent`: the cached record is always recent, but the answer drawn from it need
  not have been true recently. When a link's expiry is postponed and the cache does not hear of it, the
  cached record can expire and answer "missing" although the link never was missing. Given the entry, the
  table and the time, the answer is recent in every run exactly when the entry is not overtaken: it did not
  work when it was read, or still works, or the table's record does not work, or the table's row is another
  link, which has taken the code after it was pruned.
- `Challenges.OverlapMintsTwo`: the comment on `ConsumeMFAChallenge` (internal/store/postgres/mfa.go:152-153)
  promises that a challenge cannot mint a second session. That holds when no call starts on a challenge
  while another is on it (`OneSessionEach`); whenever one could, in any run, two sessions can follow.
- `Username.WhenBaseIsItsOwnCandidate`: a long base that ends in a tag already is its own suffixed
  candidate, so the search has 99 distinct names for certain, not 100. It happens to names of 31
  characters as well as 32.
- `QueryMerge.MergesExactly`: the merge takes any last `?` or `&` for a separator; the lemma says exactly
  when it is one.
- `SettingsForm.UneditedDraftIsEmpty`: an unedited form sends nothing exactly when no list entry holds a
  comma, a line break or outer blanks; a bare host with a comma passes the server's validation and is sent
  back as two (`CommaHostIsSentBack`).
- `Capability.RaceWithoutTheLock`: without the advisory lock two demotions leave no administrator.
- `RateLimit.LostExpiryShutsOut`: a lost EXPIRE does not let anybody through the limit, but it shuts a
  client that has reached it out for as long as the limit is not raised.

## Model

| member | source | states |
|---|---|---|
| ClickScan.KeyIsInjective | internal/store/postgres/store.go:1066 | the text key of the grouping map never merges two link and day buckets, whatever characters the id holds |
| ClickScan.GroupIsTally | internal/store/postgres/store.go:1058-1074 | the grouped map has an entry for a bucket exactly when some row falls into it, and the entry holds the number of rows and of bots among them |
| ClickScan.ScanClickAggregates | internal/store/postgres/store.go:1053-1079 | the row loop returns every id in order and the grouping of every row, or an error exactly when a row does not scan or the stream breaks |
| ClickRollup.MarkingAddsTheTally | internal/store/postgres/store.go:1095-1104 | marking a claimed batch processed raises the true count of every bucket by exactly the batch's tally, bots included |
| ClickRollup.CommitConserves | internal/store/postgres/store.go:1095-1105 | the increments a transaction upserts are exactly what its commit makes true |
| ClickRollup.StepKeeps | internal/store/postgres/store.go:1081-1106 | every statement of every session (inserts, claims that skip locked rows, upserts, marking, commits, rollbacks, cascading deletes) keeps counters equal to counts |
| ClickRollup.RollupIsConserved | internal/store/postgres/store.go:1081-1106 | after any interleaving each counter is the number of processed events of its link and day, its bot part the bots among them, every event has been credited once if processed and never otherwise, and none is left without its link |
| ClickRollup.ClickIsCounted | internal/store/postgres/store.go:1081-1106 | a click, one batch and its commit end in a counter of one, with the bot part the visitor says |
| ClickRollup.DeletionCascades | internal/store/postgres/store.go:674-685 | deleting links takes exactly their events and counters along |
| ClickStore.ForeignRunSpares | internal/store/postgres/store.go:1087 | other sessions leave a transaction's claimed rows and uncommitted counters as they are |
| ClickStore.Store.CreateClickEvent | internal/store/postgres/store.go:728-733 | a click on an existing link adds exactly one unprocessed event with its link, day and bot flag; on any other link nothing changes |
| ClickStore.Store.AggregateClicks | internal/store/postgres/store.go:1081-1106 | a call commits one batch, whose events are then processed and credited once, or commits nothing, whatever others do between its statements; undisturbed it succeeds and processes exactly the batch |
| ClickStats.ShownIsACount | internal/store/postgres/store.go:63-70 | clicks minus bot clicks is never negative and is the number of processed non-bot events, so hiding bots needs no recomputation |
| ClickStats.DaySumIsACount | internal/store/postgres/store.go:799-805 | the day's sum over the caller's links is the number of processed events of those links on that day |
| ClickStats.TrendTotalIsACount | internal/store/postgres/store.go:798-827 | the gap-filled series adds up to the processed events of the links in the half-open range |
| ClickStats.TrendPoints | internal/store/postgres/store.go:798-827 | the point of each day counts that day's processed events of the links, days without a counter included |
| ClickStats.GlobalTrend | internal/store/postgres/store.go:798-827 | the map keyed by formatted days and the day loop give one point per calendar day, zero where the query had no row |
| ClickStats.Overview | internal/service/stats.go:71-111 | the headline is the sum of its own chart and the number of processed events in the range on links that are not deleted and are the caller's, bots by choice |
| Calendar.NextAddsOne | internal/store/postgres/store.go:823 | stepping one calendar day at a time goes through every day once, over month ends and leap years |
| Calendar.MonthsAreGregorian | internal/store/postgres/store.go:823 | months have the Gregorian lengths |
| Calendar.YearsAreGregorian | internal/store/postgres/store.go:823 | a year begins 365 days per earlier year, and one per earlier leap year, after the first |
| Calendar.FormatIsInjective | internal/store/postgres/store.go:1066 | different days have different text forms |
| Calendar.FormatReads | internal/store/postgres/store.go:1066 | a day's text is its year, month and day in four, two and two digits |
| RuntimeSettings.NormalizeRuntimeHosts | internal/config/runtime.go:151-173 | the loop with its seen map is the specification: blanks and repeats dropped, order kept, anything but a bare host refused |
| RuntimeSettings.HostsAreCanonical | internal/config/runtime.go:151-173 | an accepted list holds lower-case, trimmed, bare, pairwise distinct hosts |
| RuntimeSettings.HostsKeepEveryEntry | internal/config/runtime.go:151-173 | a host is in the result exactly when some submitted entry denotes it |
| Text.TrimCuts | internal/config/runtime.go:106-149 | trimming takes off blanks, at the ends, and nothing else |
| RuntimeSettings.NormalIsIdempotent | internal/config/runtime.go:106-149 | normalising a normalised field changes nothing and does not fail |
| RuntimeSettings.NormalizedIsStored | internal/config/runtime.go:106-149 | accepted settings are a fixed point of normalisation in every field |
| SettingsMeaning.NormalIsStoredAs | internal/config/runtime.go:106-173 | refused are exactly a wrong type, an alias mode that is neither of the two, a fallback that is no URL, a number outside its bounds and a list with an entry that is no bare host; flags and numbers are stored as given, texts trimmed, lists as the hosts they name |
| SettingsMeaning.SettingsAreStoredAs | internal/config/runtime.go:106-173 | the same for all settings at once |
| RuntimeSettings.ApplyPatch | internal/domain/runtime_settings.go:55-82 | a patch applies exactly when its revision is positive, it has members, and every member's name is known (in any case the decoder accepts), not null and of the right type; of two names for one field the later counts; the result is the merge |
| RuntimeSettings.MergeTouchesNamedFields | internal/domain/runtime_settings.go:55-82 | merging into a stored row and normalising changes named fields to their normalised patch values and leaves the others bit for bit |
| RuntimeSettings.ReadableIsApplicable | internal/domain/runtime_settings.go:55-82 | a request that is accepted says one well-typed thing about each field it names |
| SettingsMeaning.ReadableMeans | internal/domain/runtime_settings.go:55-82 | a request is well-formed exactly when its revision is positive and every member names a field and holds a value of that field's type |
| VersionedRow.StepKeeps | internal/store/postgres/runtime_settings.go:60-176 | every statement of every process keeps revisions tied to one content, and takes nothing back |
| VersionedRow.SnapshotsAreCommittedAndAscend | internal/config/runtime_provider.go:31-129 | in any run each published snapshot is the row committed at its revision, that content never changes, and no process's revision ever goes down, however late a read is published |
| VersionedRow.Cluster.Publish | internal/config/runtime_provider.go:117-129 | the compare-and-swap loop ends with a snapshot at least as new as the one offered, whoever swaps in between |
| VersionedRow.Cluster.Refresh | internal/config/runtime_provider.go:59-66 | a refresh reads a committed row and leaves a snapshot at least that new |
| RuntimeProvider.NoLostUpdate | internal/config/runtime_provider.go:84-115 | when the conditional write finds revision r, it commits r + 1 with the named fields as the patch gave them and every other field exactly that of r, whatever happened since the read |
| RuntimeProvider.Provider.Boot | internal/config/runtime_provider.go:31-49 | boot fails exactly when some default is refused; otherwise it makes the row of the defaults or fills just its NULL column with their flag, before the first read and publish, and writes no revision |
| RuntimeProvider.Provider.Update | internal/config/runtime_provider.go:68-79 | PUT is refused, with no change, exactly when some value is; otherwise each field is committed as given, trimmed or reduced to its hosts, at the next revision, and published |
| RuntimeProvider.Provider.PatchSettings | internal/config/runtime_provider.go:84-115 | a request is invalid exactly when it is malformed or gives a value that is refused, conflicts when the revision has moved on, and otherwise succeeds unless somebody writes in between; a success stores the named fields as given, trimmed or reduced to their hosts and every other as it was, and a call that fails writes nothing |
| RuntimeProvider.Provider.Save | internal/store/postgres/runtime_settings.go:124-176 | the conditional write commits the next revision exactly when its base is positive and what it finds, and otherwise is a conflict |
| SettingsForm.GroupsPartitionFields | web/src/lib/runtime-settings-form.ts:4-11 | a field is in a group's list exactly when that is its group, so every field is in one group |
| SettingsForm.ListRoundTrip | web/src/lib/runtime-settings-form.ts:19-34 | a list comes back from its text area exactly when no entry is empty or holds a comma, a line break or outer blanks |
| SettingsForm.ItemsAtSeparator | web/src/lib/runtime-settings-form.ts:19-34 | a line break or a comma parts a text area's entries, and nothing else does |
| SettingsForm.ItemsOfOne | web/src/lib/runtime-settings-form.ts:19-34 | an entry is read without its outer blanks, and not at all when blank |
| SettingsForm.RuntimeChanges | web/src/lib/runtime-settings-form.ts:23-40 | the loop collects exactly the group's changed and enabled fields, or names one whose number is unreadable |
| SettingsForm.UneditedDraftIsEmpty | web/src/lib/runtime-settings-form.ts:16-40 | a draft nobody edited is accepted, and is empty exactly when the text areas can carry the group's lists |
| SettingsForm.CommaHostIsSentBack | internal/config/runtime.go:151-173 | a bare host with a comma normalises to itself, and the unedited form that shows it sends a change |
| SettingsForm.SaveArrives | web/src/lib/runtime-settings-form.ts:23-40 | the server reads a save as the form meant it, whatever order the members come in |
| SettingsSave.PatchSavesTheGroup | web/src/lib/runtime-settings-form.ts:3-40 | the patch of a group's save leaves every field outside the group, and every switched-off control, as the base revision had it, and stores its edited fields as they were entered |
| SettingsSave.ReadableWhenApplicable | internal/domain/runtime_settings.go:55-82 | the server accepts the request exactly when the patch the form meant is well-formed |
| SettingsSave.Save | web/src/components/settings/runtime-form.tsx:59-75 | from draft to committed row: an unreadable number or nothing to send stops it; a success commits revision + 1, in which only the group's edited fields differ from what the page showed; undisturbed it succeeds exactly when the revision is current and the result normalises |
| Links.StoredRulesLoad | internal/store/postgres/store.go:303-323 | rules stored by slice index and reloaded by position come back in order with their codes, NULL standing for "inherit" |
| Links.MatchRuleIsFirst | internal/service/links.go:544-577 | the rule picked is the first that fires, with the link's code when it has none; none is picked exactly when none fires |
| LinkMeaning.ContainsIsSubstring | internal/service/links.go:544-577 | a pattern is found exactly when it stands at some position of the text |
| LinkMeaning.DeviceClassByMarkers | internal/security/security.go:182-217 | which user agents are bots, tablets, phones or the rest, in this order, by the words in them |
| LinkMeaning.RuleFires | internal/service/links.go:544-577 | when a rule fires for a user agent, in either of its two kinds, without regard to case |
| LinkMeaning.AnswerIsTheLinks | internal/service/links.go:295-320 | an answer carries the destination and code of the first rule that fires, or of the link, and the link's delay; nothing is found exactly when the link is not active or has expired |
| Links.EachStaysInOrder | internal/service/links.go:579-630 | a list of rules is accepted exactly when each rule is, and keeps its order |
| Links.NormalRuleIsIdempotent | internal/service/links.go:591-628 | an accepted rule is in its final form |
| LinkMeaning.RulesAreStored | internal/service/links.go:579-630 | rules are stored in order, trimmed, with a device in lower case, and exactly the malformed ones are refused |
| LinkMeaning.EditIsAcceptable | internal/service/links.go:343-434 | an edit is acceptable exactly when each value it names is: destination, code, status, delay and rules |
| Links.DeviceValuesAreClasses | internal/security/security.go:182-217 | the values a device rule may hold are exactly the classes DeviceClass can return |
| LinkService.NormalizeRuleList | internal/service/links.go:579-630 | the validating loop is that specification, with at most ten rules |
| Links.InsertReads | internal/store/postgres/store.go:257-280 | an inserted link reads back as it was given, other codes read as before, and the tables stay consistent |
| Links.UpdateReads | internal/store/postgres/store.go:538-564 | an updated link reads back with its new columns and with the new rules or the old ones; other codes read as before |
| Links.PruneReads | internal/store/postgres/store.go:674-685 | pruned codes are gone with their rules, other codes read as before |
| LinkCache.OpKeeps | internal/service/links.go:295-313 | every operation keeps each cache entry answering like its row, or expired with its row pruned |
| LinkCache.CacheIsTransparent | internal/service/links.go:295-313 | after any serial history, with entries lost at any time, a cached answer is the table's: found or not, destination, code, delay and rule |
| LinkService.OrderRules | internal/store/postgres/store.go:35-45 | reading rule rows by position gives the list the specification loads |
| LinkService.Service.Resolve | internal/service/links.go:295-313 | a link is found exactly when its row is there, not deleted, active and not expired, cached or not; it carries the row's columns and rules, and answers every visitor as the table does |
| LinkService.Service.CreateLink | internal/service/links.go:166-170 | a create succeeds exactly when neither code nor id is taken, live or deleted; the link then reads back as given, is the caller's, and every other row is as before |
| LinkService.Service.FindLiveLinkByDestination | internal/store/postgres/store.go:339-353 | the oldest of the caller's live, usable links for the destination, exactly when there is one |
| LinkService.Service.Create | internal/service/links.go:104-217 | refused exactly for an invalid request; an existing link exactly when codes are reused and the caller has one; refused exactly at the cap, which a new link never passes; else the first draw that is neither reserved nor taken decides: a new link, or a refusal when it would lead to itself; nothing has changed otherwise |
| LinkService.Service.CreateNamed | internal/service/links.go:147-170 | a named code always means a new link: refused, in this order, for an invalid request, a reserved or malformed code, at the cap, for a loop, and when code or id is taken |
| LinkService.Service.Update | internal/service/links.go:343-434 | succeeds exactly for a link that is not deleted and the caller's, or anybody's for one who may edit all, with acceptable values; each named column is as given, the rest, unnamed rules and all other rows stay |
| LinkService.Service.Delete | internal/service/links.go:441-452 | exactly the caller's own live link is marked deleted and stops resolving; every other row stays |
| LinkService.Service.Bulk | internal/service/links.go:460-510 | exactly the caller's live links among the ids change, each as the change says, and all but tag edits are evicted |
| LinkService.Service.PruneExpiredLinks | internal/store/postgres/store.go:674-685 | the rows that expired longest ago go, only rows expired longer than the grace and as many of them as the limit allows; the cache is not told |
| LinkStaleness.StepKeeps | internal/service/links.go:295-313 | every statement and every cache step keeps each cached record a true one of an instant bounded by its lapse, and its code still the same row or missing at some instant since |
| Links.UpdateBack | internal/store/postgres/store.go:538-564 | an update can be undone by another: columns, rules and their positions come back exactly |
| LinkStaleness.RecordsAreRecent | internal/cache/redis/cache.go:38-60 | in any interleaving, with writes and evictions lost, the record behind an answer is what the code resolved to after some step of the run, less than five minutes plus the longest delay before a cache write ago |
| LinkStaleness.OperationIsStatement | internal/service/links.go:295-313 | what each operation of the service does to the tables is one of the statements the interleavings are made of |
| LinkStaleness.AnswersAreRecent | internal/service/links.go:295-320 | the answer was the true one at a recent instant, in every run that shows a given entry, table and time, exactly when the entry is not overtaken |
| LinkStaleness.AnswersLast | internal/service/links.go:315-320 | a record gives the same answer at two instants exactly when it did not expire in between |
| LinkStaleness.OvertakenCanMislead | internal/service/links.go:298-303 | for every overtaken answer a run of the program's own statements shows the same entry, table and time, and answers "missing" though no table ever current lacked the link |
| Capability.StepKeeps | internal/store/postgres/roles.go:58-112 | with the lock, every statement keeps an enabled holder of both capabilities in the committed tables and in each counted view |
| Capability.AlwaysAdministrable | internal/store/postgres/roles.go:50-112 | after every run of account edits, role edits and account creations there is, for each of users:manage and roles:manage, an account that is not disabled and whose role exists and has the scope |
| Capability.HeldMeansSomebody | internal/store/postgres/roles.go:71-83 | the count is positive exactly when an account that is not disabled has a role with the scope |
| Capability.RaceWithoutTheLock | internal/store/postgres/roles.go:50-56 | without the lock two demotions that each count the other holder reach a state with nobody left |
| CapabilityStore.Store.RequireCapabilityHolders | internal/store/postgres/roles.go:71-83 | the loop over the two scopes reports the first one that no enabled account's role has |
| CapabilityStore.Store.UpdateUser | internal/store/postgres/store.go:147-175 | an account edit commits once and shows the given role and flag, or commits nothing; undisturbed it names a scope exactly when the edited tables would have no enabled account with it, and otherwise saves just the edit |
| CapabilityStore.Store.UpdateRoleScopes | internal/store/postgres/roles.go:85-112 | the same for a role's scope set |
| CapabilityStore.GuardedTouchesOneRow | internal/store/postgres/store.go:164-174 | an edit changes only the named row and of it only the given fields, and one that is refused changes nothing |
| Username.CleanIsValid | internal/service/oidc_username.go:79-91 | cleaning any text gives nothing or a valid name, whatever the case mapping does |
| Username.ValidMeans | internal/service/oidc_username.go:12-41 | a valid name is 3 to 32 of a-z, 0-9, underscore and dash, the first a letter or digit |
| Username.CleanKeeps | internal/service/oidc_username.go:79-91 | a lower-cased text of the right characters is kept, cut off at 32 characters and the separators before that |
| Username.RunBecomesDash | internal/service/oidc_username.go:79-91 | a run of other characters becomes one dash |
| Username.DerivedIsValid | internal/service/oidc_username.go:55-96 | any name, address and subject lead to a valid name |
| Username.DerivedInOrder | internal/service/oidc_username.go:55-96 | a name comes from what the provider says, else from what precedes the @ of the address, else from twelve hexadecimal digits of the digest |
| Username.SuffixIsValid | internal/service/oidc_username.go:124-130 | adding any suffix to a valid name gives a valid one, shortened where needed |
| Username.SuffixedShape | internal/service/oidc_username.go:124-130 | a candidate is the base, a dash and the number; a base too long for that loses its end |
| Username.SuffixesDiffer | internal/service/oidc_username.go:124-130 | two suffixes of one base never give the same name |
| Username.SuffixedCount | internal/service/oidc_username.go:110-114 | the 99 suffixed candidates are 99 names |
| Username.WhenBaseIsItsOwnCandidate | internal/service/oidc_username.go:124-130 | a base equals its own candidate exactly when it is 31 or 32 long, ends in the tag, and no separator precedes it |
| Username.UniqueUsername | internal/service/oidc_username.go:106-120 | the search returns the first free name of base, base-2 to base-100, and a taken one only when all are |
| Username.FewerTakenLeavesOneFree | internal/service/oidc_username.go:106-120 | it takes at least 99 taken names for no candidate to be free |
| Provisioning.StepKeeps | internal/store/postgres/oidc.go:246-276 | every statement keeps names and pairs unique, bindings sound and no account without its identity, and loses no binding |
| Provisioning.GrantsAreEnabled | internal/store/postgres/oidc.go:194-212 | no step lets in an account that is disabled at that moment or was not found through a binding |
| Provisioning.OneAccountPerIdentity | internal/store/postgres/oidc.go:246-276 | in any interleaving names are unique, all sign-ins of one provider and subject go to one account, then and later, and no externally created account lacks its identity |
| SignIn.Database.FindOIDCIdentity | internal/store/postgres/oidc.go:194-212 | a binding is found exactly when the pair has one |
| SignIn.Database.GetUserByID | internal/store/postgres/store.go:236-255 | a disabled account does not sign in |
| SignIn.Database.InsertBoth | internal/store/postgres/oidc.go:246-275 | both rows or neither; undisturbed, a taken name is a conflict, a taken pair loses the race |
| SignIn.Database.ProvisionOIDCUser | internal/store/postgres/oidc.go:246-276 | a success is a sign-in to the account the pair is bound to, be it the winner's |
| SignIn.Database.UniqueUsername | internal/service/oidc.go:569-582 | the search over live tables returns a valid name, and undisturbed the first free one |
| SignIn.Database.ProvisionAccount | internal/service/oidc.go:544-566 | three attempts; undisturbed, one account under the first free name bound to the pair, or a conflict and no change when every name is taken |
| SignIn.Database.ResolveAccount | internal/service/oidc.go:514-535 | a bound pair signs in to its own account or not at all, undisturbed exactly when that is enabled; an unbound one is provisioned exactly if the provider allows it |
| Challenges.AttemptsAreBounded | internal/store/postgres/mfa.go:137-150 | in any interleaving a challenge is claimed at most five times, mints no more sessions than that, and is never claimed once expired, consumed or swept |
| Challenges.ChallengesLast | internal/store/postgres/mfa.go:137-150 | until it expires a challenge stays its account's and loses exactly the attempts that were made on it |
| Challenges.OneSessionEach | internal/service/auth.go:147-178 | with calls one at a time a challenge mints at most one session |
| Challenges.SerialCallGetsIn | internal/service/auth.go:147-178 | a challenge does let one call in: there is a run of serial calls that ends in its one session |
| Challenges.OverlapMintsTwo | internal/service/auth.go:147-178 | whenever, in any run, a second call could start on a challenge another call is on, however far that has got, both can mint a session |
| RecoveryCodes.StepKeeps | internal/store/postgres/mfa.go:35-168 | every statement of enrolments, clearings and spendings keeps each code's use counted once |
| RecoveryCodes.CodesWorkOnce | internal/store/postgres/mfa.go:159-168 | no recovery code is accepted twice, nor ever after it was retired |
| RecoveryCodes.EnrolmentRetiresTheOldCodes | internal/store/postgres/mfa.go:35-104 | committing an enrolment, confirmation or clearing retires all the account's codes, leaves exactly the new ones, unused, and sets secret and confirmation as the statement said |
| RecoveryCodes.EnrolmentGoesThrough | internal/store/postgres/mfa.go:35-104 | after any run an enrolment nobody is in the way of goes through in three steps, with the new codes in place of the old and nobody else's touched |
| RecoveryCodes.ConfirmedHasASecret | internal/store/postgres/mfa.go:35-104 | a confirmed enrolment always has a secret |
| SecondFactor.Auth.SpendRecoveryCode | internal/store/postgres/mfa.go:162-168 | a code is spent exactly when it is the account's, not used yet, and not among those an enrolment under way has deleted |
| SecondFactor.Auth.CodeAccepted | internal/service/auth.go:184-203 | the time-based code first, then a recovery code, which is spent only when the first does not match |
| SecondFactor.Auth.VerifySecondFactor | internal/service/auth.go:147-178 | whatever others do, accounts they disable included, a call gets in exactly when each of its statements found what it needs: a claimable challenge, an enrolment, a good code, an enabled account; it then leaves the challenge dead; undisturbed it costs one attempt, retires the challenge exactly when the code is good, and uses up a recovery code only when that is what let it through |
| Totp.TruncatedByBytes | internal/security/totp.go:182-183 | dynamic truncation never reads outside the 20 bytes and is the number section 5.3 of RFC 4226 builds from four of them |
| Totp.BigEndianReads | internal/security/totp.go:176-177 | different time steps are different messages |
| Totp.CodeIsSixDigits | internal/security/totp.go:185-190 | a code is six digits, zero-padded, denoting the truncated value modulo a million |
| Totp.Hotp | internal/security/totp.go:175-190 | the code for any number of digits, with the modulus as 32 bits hold it; a panic exactly where it wraps to zero |
| Totp.Modulo | internal/security/totp.go:185-188 | the 32-bit modulus loop gives the power of ten, exact up to the ninth |
| Totp.AcceptsWithinTheWindow | internal/security/totp.go:170-173 | accepted are the codes of the steps s of 30 seconds with 30s - 30 <= now < 30s + 60 |
| Totp.VerifyTOTP | internal/security/totp.go:97-119 | a code is accepted exactly when it has six characters, the secret decodes, and it is the code of a step s that began at most a step ahead of now and ended at most a step before it: 30s - 30 <= now < 30s + 60 |
| Totp.FreshCodesAreAccepted | internal/security/totp.go:84-119 | the code of the step a time falls in is in the window, and survives the trimming, at every time within 30 seconds of that one |
| Totp.OldStepsAreOut | internal/security/totp.go:97-119 | a minute away the step of a time is outside the window |
| RateLimit.StepKeeps | internal/http/middleware/ratelimit.go:27-70 | every request and every late or lost EXPIRE keeps key lifetimes apart and at least a window long |
| RateLimit.AdmissionsAreBounded | internal/http/middleware/ratelimit.go:27-70 | a lifetime admits at most the largest limit used in it, and any half-open window at most twice the largest limit used, however the limit is changed |
| RateLimit.ArrivedKeyEnds | internal/http/middleware/ratelimit.go:46-48 | once its EXPIRE has arrived, a key is gone as soon as one window has passed, whatever requests come |
| RateLimit.LostExpiryShutsOut | internal/http/middleware/ratelimit.go:46-48 | when its EXPIRE is lost, a client at its limit is not let in again in any run that does not raise the limit, and its key has no end |
| RateLimit.Limiter.DynamicLimit | internal/http/middleware/ratelimit.go:27-70 | with the limit in force for this request: the counter goes up by one and so do those let in exactly when it is within the limit; the remaining count, the exact Retry-After, and that the key is gone by then |
| Countdown.CountdownIsExact | internal/http/handler/gallery/redirect.js:20-95 | in any event sequence one timer is pending exactly while the page runs, what is left is the duration less the unpaused time, and the page leaves only when that is used up and at most once more than it was restored |
| Countdown.EventsMove | internal/http/handler/gallery/redirect.js:54-91 | the button pauses a running page and lets a paused one go on where it was, leaving pauses, coming back pauses and stops it from leaving |
| Countdown.Undisturbed | internal/http/handler/gallery/redirect.js:54-66 | a page nobody touches leaves exactly on time |
| InterstitialPage.Page.Tick | internal/http/handler/gallery/redirect.js:54-66 | the handler's updates of its variables and timers are the specified ones |
| InterstitialPage.Page.Pause | internal/http/handler/gallery/redirect.js:68-74 | likewise for pausing |
| InterstitialPage.Page.Resume | internal/http/handler/gallery/redirect.js:76-82 | likewise for resuming |
| InterstitialPage.Page.Handle | internal/http/handler/gallery/redirect.js:84-91 | every event keeps the countdown's invariant and navigates only when the duration is used up |
| ScriptJson.RoundTrip | web/src/lib/analytics-config.ts:187-194 | reading the output as a JSON string of section 7 of RFC 8259 gives back every string, lone surrogates included |
| ScriptJson.OutputIsSafe | web/src/lib/analytics-config.ts:176-194 | no unit of the output is <, >, &, U+2028 or U+2029 |
| ScriptJson.OutputIsWellFormed | web/src/lib/analytics-config.ts:187-194 | no half of a surrogate pair stands alone in the output, whatever the value holds |
| ScriptJson.UnitReads | web/src/lib/analytics-config.ts:187-194 | each code unit's share of the output reads back as that unit, so no replacement lands behind an open backslash |
| QueryMerge.MergesExactly | internal/http/handler/handler.go:400-416 | path and fragment stay and the parameters are the destination's followed by the visitor's, exactly when the last `?` or `&` is a separator |
| QueryMerge.PartsOfUrl | internal/http/handler/handler.go:400-416 | a URL put together from path, query and fragment comes apart into them, with a query or without |
| QueryMerge.PiecesAtSeparator | internal/http/handler/handler.go:400-416 | an & parts two lists of parameters |
| Base36.EncodeBase36 | internal/security/security.go:225-240 | the code fits the 13-byte buffer, has no leading zero, and reads back as the value |
| Base36.CodesDiffer | internal/security/security.go:225-240 | different values have different codes |
| Base36.KnownCode | internal/security/security.go:225-240 | a known number has its known code |

## Left out

- Choice of rows: which unlocked events a batch takes is any choice, not the oldest first; so is which expired links a prune takes in the interleavings.
- Times of day in statistics: a range starts and ends at midnight and days are dates of years 0 to 9999.
- Summary, top links, referrers, devices, visitors and recent clicks: further read queries over the same tables.
- Title, domain, version and health-check columns of a link: they do not reach the redirect view.
- LinkService.Service.Create: calls run one at a time, so a burst that overshoots the cap is not modelled.
- URL syntax and denied hosts are one predicate of the destination, the own short path another of code and destination.
- Unicode case and space, URL parsing, number parsing and base32 are parameters; a few laws of the first (lowering is idempotent, keeps blanks blank) are assumed where a lemma says so.
- JSON text: a patch arrives as its members in order, each null, undecodable or a value; which names the decoder takes for a field is a parameter.
- RuntimeDefaults and reading the environment: they only feed the normalisation that is modelled.
- Upgrades: once a process has adopted the NULL column no older process seeds the row without it.
- Provider administration: deleting a provider cascades to its identities, which would let a pair be bound anew.
- ClaimOIDCRequest: the same one-statement claim as a challenge's, without its attempt counter.
- CompleteLogin and startSecondFactor: whether a sign-in needs a challenge is a read of settings; challenges are inserted freely here.
- Sessions after they are minted, tokens, captcha, audit, import and export, routing, rendering: no part in these protocols.
- Cryptography and random draws: hashes and MACs are parameters, freshly drawn tokens and codes are distinct from all earlier ones.
- OIDC errors other than a taken name, a taken pair and a disabled account are one failure.
- Rate limit: requests let through because Redis does not answer are not counted; commands that a client repeats on its own are not modelled.
- Redis TTL replies are taken as seconds rounded to the nearest; flushes are not modelled.
- A page whose delay is not a whole number of seconds from 1 to 60 never starts the countdown and is a plain link.
- Rendering and the status texts of the interstitial page: only the variables that decide when it leaves.
- Clocks: one clock for all, no overflow of counters, revisions or time steps.
- LinkService.Service: its calls run one at a time; LinkStaleness covers overlapping ones.
- SecondFactor.Auth: enrolment transactions reach it as other sessions' steps, not as methods of its own.
