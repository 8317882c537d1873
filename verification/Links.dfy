// Links as rows and as values, and what a short code answers.
module Links {
  import opened Common
  import opened Text

  type LinkId = nat
  type Alias = string
  type Instant = int

  // code 0 means "inherit the link's".
  datatype Rule = Rule(matchType: string, matchValue: string, destination: string, code: int)

  // The part of domain.Link that outlives a request.
  datatype Link = Link(id: LinkId, alias: Alias, destination: string, code: int, status: string,
                       expiresAt: Option<Instant>, delay: int, tags: set<string>, rules: seq<Rule>)

  datatype LinkRow = LinkRow(id: LinkId, destination: string, code: int, status: string, deleted: bool,
                             expiresAt: Option<Instant>, delay: int, tags: set<string>, owner: Option<string>,
                             created: Instant)

  datatype RuleRow = RuleRow(link: LinkId, position: nat, matchType: string, matchValue: string,
                             destination: string, code: Option<int>)

  // The links table by its unique alias, its primary-key index, and the rules table.
  datatype Db = Db(rows: map<Alias, LinkRow>, ids: map<LinkId, Alias>, rules: set<RuleRow>)

  // ---- rules as rows ----

  function RowOf(link: LinkId, position: nat, r: Rule): RuleRow {
    RuleRow(link, position, r.matchType, r.matchValue, r.destination, if r.code == 0 then None else Some(r.code))
  }

  function RuleOf(r: RuleRow): Rule {
    Rule(r.matchType, r.matchValue, r.destination, if r.code == None then 0 else r.code.value)
  }

  // setLinkRules: positions come from the slice index.
  function RowsFrom(link: LinkId, rules: seq<Rule>, start: nat): set<RuleRow> {
    set i | start <= i < |rules| :: RowOf(link, i, rules[i])
  }

  function OfLink(rules: set<RuleRow>, link: LinkId): set<RuleRow> {
    set r | r in rules && r.link == link
  }

  // ORDER BY position
  ghost predicate First(r: RuleRow, rows: set<RuleRow>) {
    r in rows && forall q <- rows :: r.position <= q.position
  }

  ghost function LoadRules(rows: set<RuleRow>): seq<Rule> {
    if exists r :: First(r, rows) then
      var r :| First(r, rows);
      [RuleOf(r)] + LoadRules(rows - {r})
    else []
  }

  // Rules read back in the order, and with the codes, they were submitted with.
  lemma {:induction false} StoredRulesLoad(link: LinkId, rules: seq<Rule>, start: nat)
    requires start <= |rules|
    ensures LoadRules(RowsFrom(link, rules, start)) == rules[start..]
    decreases |rules| - start
  {
    var rows := RowsFrom(link, rules, start);
    if start == |rules| {
      assert rows == {};
    } else {
      var head := RowOf(link, start, rules[start]);
      assert First(head, rows);
      forall r | First(r, rows)
        ensures r == head
      {
      }
      assert rows - {head} == RowsFrom(link, rules, start + 1);
      assert RuleOf(head) == rules[start];
      StoredRulesLoad(link, rules, start + 1);
    }
  }

  // ---- reads ----

  ghost function LinkOf(db: Db, alias: Alias): Link
    requires alias in db.rows
  {
    var r := db.rows[alias];
    Link(r.id, alias, r.destination, r.code, r.status, r.expiresAt, r.delay, r.tags, LoadRules(OfLink(db.rules, r.id)))
  }

  // GetLinkByAlias: soft-deleted links do not resolve.
  ghost function Lookup(db: Db, alias: Alias): Option<Link> {
    if alias in db.rows && !db.rows[alias].deleted then Some(LinkOf(db, alias)) else None
  }

  predicate Owns(owner: Option<string>, row: LinkRow) {
    owner == None || row.owner == owner
  }

  // The live row an id names for this caller.
  function Mine(db: Db, id: LinkId, owner: Option<string>): Option<Alias> {
    if id in db.ids && db.ids[id] in db.rows && !db.rows[db.ids[id]].deleted && Owns(owner, db.rows[db.ids[id]])
    then Some(db.ids[id]) else None
  }

  // ---- what a visitor gets ----

  function IsUsable(link: Link, now: Instant): bool {
    link.status == "active" && (link.expiresAt == None || link.expiresAt.value > now)
  }

  predicate Contains(s: string, part: string) {
    part <= s || (s != [] && Contains(s[1..], part))
  }

  predicate ContainsAny(s: string, markers: seq<string>) {
    exists i :: 0 <= i < |markers| && Contains(s, markers[i])
  }

  const BOTS: seq<string> := ["bot", "crawler", "spider", "curl/", "wget"]
  const TABLETS: seq<string> := ["ipad", "tablet"]
  const MOBILES: seq<string> := ["mobile", "android", "iphone", "ipod"]
  const DEVICE_CLASSES: set<string> := {"unknown", "bot", "tablet", "mobile", "desktop"}

  function DeviceClass(t: Rules, agent: string): string {
    var lowered := Lower(t, agent);
    if agent == "" then "unknown"
    else if ContainsAny(lowered, BOTS) then "bot"
    else if ContainsAny(lowered, TABLETS) then "tablet"
    else if ContainsAny(lowered, MOBILES) then "mobile"
    else "desktop"
  }

  predicate RuleMatches(t: Rules, r: Rule, agent: string) {
    if r.matchType == "ua_contains" then Contains(Lower(t, agent), Lower(t, r.matchValue))
    else r.matchType == "device" && DeviceClass(t, agent) == r.matchValue
  }

  // The first rule that fires, with the link's code when it has none of its own.
  function MatchRule(t: Rules, rules: seq<Rule>, code: int, agent: string): Option<(string, int)> {
    if rules == [] then None
    else if RuleMatches(t, rules[0], agent) then
      Some((rules[0].destination, if rules[0].code == 0 then code else rules[0].code))
    else MatchRule(t, rules[1..], code, agent)
  }

  lemma {:induction false} MatchRuleIsFirst(t: Rules, rules: seq<Rule>, code: int, agent: string)
    ensures var m := MatchRule(t, rules, code, agent);
      if m.None? then forall i :: 0 <= i < |rules| ==> !RuleMatches(t, rules[i], agent)
      else exists i :: 0 <= i < |rules| && RuleMatches(t, rules[i], agent) &&
             (forall j :: 0 <= j < i ==> !RuleMatches(t, rules[j], agent)) &&
             m.value == (rules[i].destination, if rules[i].code == 0 then code else rules[i].code)
  {
    if rules != [] && !RuleMatches(t, rules[0], agent) {
      MatchRuleIsFirst(t, rules[1..], code, agent);
      if i :| 0 <= i < |rules[1..]| && RuleMatches(t, rules[1..][i], agent) &&
              (forall j :: 0 <= j < i ==> !RuleMatches(t, rules[1..][j], agent)) &&
              MatchRule(t, rules, code, agent).Some? &&
              MatchRule(t, rules, code, agent).value ==
                (rules[1..][i].destination, if rules[1..][i].code == 0 then code else rules[1..][i].code) {
        assert rules[i + 1] == rules[1..][i];
        assert forall j :: 0 < j < i + 1 ==> rules[j] == rules[1..][j - 1];
      } else {
        assert forall j :: 0 < j < |rules| ==> rules[j] == rules[1..][j - 1];
      }
    }
  }

  datatype Answer = Missing | Redirect(destination: string, code: int, delay: int)

  // What Resolve and the redirect handler make of a link record at an instant.
  function AnswerOf(t: Rules, found: Option<Link>, now: Instant, agent: string): Answer {
    if found == None || !IsUsable(found.value, now) then Missing
    else
      var l := found.value;
      match MatchRule(t, l.rules, l.code, agent)
      case None => Redirect(l.destination, l.code, l.delay)
      case Some((destination, code)) => Redirect(destination, code, l.delay)
  }

  // Two records that answer alike at every instant, for every visitor.
  predicate SameRedirect(a: Link, b: Link) {
    && a.id == b.id && a.alias == b.alias && a.destination == b.destination && a.code == b.code && a.status == b.status
    && a.expiresAt == b.expiresAt && a.delay == b.delay && a.rules == b.rules
  }

  // ---- validation ----

  const MAX_RULES := 10
  const MAX_RULE_VALUE := 255

  // permitted stands for the checks on a destination.
  function NormalRule(t: Rules, permitted: string -> bool, r: Rule): Option<Rule> {
    var matchType, typed := Trim(t.space, r.matchType), Trim(t.space, r.matchValue);
    var matchValue := if matchType == "device" then Lower(t, typed) else typed;
    if (matchType != "ua_contains" && matchType != "device") || typed == "" || |typed| > MAX_RULE_VALUE then None
    else if matchType == "device" && matchValue !in DEVICE_CLASSES then None
    else if !permitted(r.destination) || r.code !in [0, 301, 302] then None
    else Some(Rule(matchType, matchValue, r.destination, r.code))
  }

  // A stored rule is in its final form: submitting it again changes nothing.
  lemma NormalRuleIsIdempotent(t: Rules, permitted: string -> bool, r: Rule)
    requires Lawful(t) && NormalRule(t, permitted, r).Some?
    ensures NormalRule(t, permitted, NormalRule(t, permitted, r).value) == NormalRule(t, permitted, r)
  {
    var n := NormalRule(t, permitted, r).value;
    TrimmedStays(t.space, n.matchType);
    TrimmedStays(t.space, Trim(t.space, r.matchValue));
    LowerTrimStays(t, r.matchValue);
    LowerStaysTrimmed(t, Trim(t.space, r.matchValue));
  }

  lemma LowerStaysTrimmed(t: Rules, s: string)
    requires Lawful(t) && !Edged(t.space, s)
    ensures Trim(t.space, Lower(t, s)) == Lower(t, s)
  {
    TrimmedStays(t.space, Lower(t, s));
  }

  lemma {:induction false} LacksALetter(s: string, part: string, c: char)
    requires c in part && c !in s
    ensures !Contains(s, part)
    decreases |s|
  {
    if s != [] {
      LacksALetter(s[1..], part, c);
    }
  }

  lemma WordsStayLower(t: Rules, s: string)
    requires Lawful(t) && forall i :: 0 <= i < |s| ==> 'a' <= s[i] <= 'z'
    ensures Lower(t, s) == s
  {
  }

  // A device rule can fire: the values it may hold are exactly the classes some visitor gets.
  lemma DeviceValuesAreClasses(t: Rules, value: string)
    requires Lawful(t)
    ensures value in DEVICE_CLASSES <==> exists agent :: DeviceClass(t, agent) == value
  {
    if value == "unknown" {
      assert DeviceClass(t, "") == value;
    } else if value == "bot" {
      WordsStayLower(t, "bot");
      assert Contains("bot", "bot") && BOTS[0] == "bot";
      assert DeviceClass(t, "bot") == value;
    } else if value == "tablet" {
      TabletIsSeen(t);
    } else if value == "mobile" {
      MobileIsSeen(t);
    } else if value == "desktop" {
      DesktopIsSeen(t);
    }
  }

  lemma NoBot(s: string)
    requires 'b' !in s && 'c' !in s && 'w' !in s && 's' !in s
    ensures !ContainsAny(s, BOTS)
  {
    LacksALetter(s, BOTS[0], 'b');
    LacksALetter(s, BOTS[1], 'c');
    LacksALetter(s, BOTS[2], 's');
    LacksALetter(s, BOTS[3], 'c');
    LacksALetter(s, BOTS[4], 'w');
  }

  lemma NoTablet(s: string)
    requires 'a' !in s
    ensures !ContainsAny(s, TABLETS)
  {
    LacksALetter(s, TABLETS[0], 'a');
    LacksALetter(s, TABLETS[1], 'a');
  }

  lemma TabletIsSeen(t: Rules)
    requires Lawful(t)
    ensures DeviceClass(t, "ipad") == "tablet"
  {
    WordsStayLower(t, "ipad");
    NoBot("ipad");
    assert Contains("ipad", TABLETS[0]);
  }

  lemma MobileIsSeen(t: Rules)
    requires Lawful(t)
    ensures DeviceClass(t, "ipod") == "mobile"
  {
    WordsStayLower(t, "ipod");
    NoBot("ipod");
    NoTablet("ipod");
    assert Contains("ipod", MOBILES[3]);
  }

  lemma DesktopIsSeen(t: Rules)
    requires Lawful(t)
    ensures DeviceClass(t, "x") == "desktop"
  {
    WordsStayLower(t, "x");
    NoBot("x");
    NoTablet("x");
    LacksALetter("x", MOBILES[0], 'm');
    LacksALetter("x", MOBILES[1], 'a');
    LacksALetter("x", MOBILES[2], 'i');
    LacksALetter("x", MOBILES[3], 'i');
  }

  function Each(rule: Rule -> Option<Rule>, rules: seq<Rule>): Option<seq<Rule>> {
    if rules == [] then Some([])
    else match (Each(rule, rules[..|rules| - 1]), rule(rules[|rules| - 1]))
      case (Some(init), Some(last)) => Some(init + [last])
      case _ => None
  }

  function NormalizeRules(t: Rules, permitted: string -> bool, rules: seq<Rule>): Option<seq<Rule>> {
    if |rules| > MAX_RULES then None else Each(r => NormalRule(t, permitted, r), rules)
  }

  // List order is match order: accepted rules keep their positions, and one bad rule refuses the list.
  lemma {:induction false} EachStaysInOrder(rule: Rule -> Option<Rule>, rules: seq<Rule>)
    ensures var r := Each(rule, rules);
      && (r.Some? <==> forall i :: 0 <= i < |rules| ==> rule(rules[i]).Some?)
      && (r.Some? ==> |r.value| == |rules| && forall i :: 0 <= i < |rules| ==> Some(r.value[i]) == rule(rules[i]))
  {
    if rules != [] {
      EachStaysInOrder(rule, rules[..|rules| - 1]);
    }
  }

  // An UpdateLinkRequest: empty, zero and None mean "leave it".
  datatype Edit = Edit(destination: string, code: int, status: string, expiresAt: Option<Option<Instant>>,
                       delay: Option<int>, tags: Option<set<string>>, rules: Option<seq<Rule>>)

  const MAX_DELAY := 60

  predicate Acceptable(t: Rules, permitted: string -> bool, e: Edit) {
    && (e.destination == "" || permitted(e.destination)) && e.code in [0, 301, 302]
    && e.status in ["", "active", "disabled"]
    && (e.delay.Some? ==> 0 <= e.delay.value <= MAX_DELAY)
    && (e.rules.Some? ==> NormalizeRules(t, permitted, e.rules.value).Some?)
  }

  function Edited(l: Link, e: Edit): Link {
    l.(destination := if e.destination == "" then l.destination else e.destination,
       code := if e.code == 0 then l.code else e.code,
       status := if e.status == "" then l.status else e.status,
       expiresAt := if e.expiresAt == None then l.expiresAt else e.expiresAt.value,
       delay := if e.delay == None then l.delay else e.delay.value,
       tags := if e.tags == None then l.tags else e.tags.value)
  }

  function EditedRules(t: Rules, permitted: string -> bool, e: Edit): Option<seq<Rule>> {
    if e.rules == None then None else NormalizeRules(t, permitted, e.rules.value)
  }

  // ---- statements ----

  ghost predicate Consistent(db: Db) {
    && (forall a <- db.rows :: db.rows[a].id in db.ids && db.ids[db.rows[a].id] == a)
    && (forall i <- db.ids :: db.ids[i] in db.rows && db.rows[db.ids[i]].id == i)
    && (forall r <- db.rules :: r.link in db.ids)
    && (forall p <- db.rules, q <- db.rules :: p.link == q.link && p.position == q.position ==> p == q)
  }

  // CreateLink. The alias is unique over live and deleted rows alike.
  function Insert(db: Db, l: Link, owner: Option<string>, at: Instant): Option<Db> {
    if l.alias in db.rows || l.id in db.ids then None
    else
      var row := LinkRow(l.id, l.destination, l.code, l.status, false, l.expiresAt, l.delay, l.tags, owner, at);
      Some(Db(db.rows[l.alias := row], db.ids[l.id := l.alias], db.rules + RowsFrom(l.id, l.rules, 0)))
  }

  function WithColumns(r: LinkRow, l: Link): LinkRow {
    r.(destination := l.destination, code := l.code, status := l.status,
       expiresAt := l.expiresAt, delay := l.delay, tags := l.tags)
  }

  // UpdateLink's two writes: the columns, and the rules when the caller names some.
  function UpdateRow(db: Db, alias: Alias, l: Link, rules: Option<seq<Rule>>): Db
    requires alias in db.rows
  {
    var r := WithColumns(db.rows[alias], l);
    Db(db.rows[alias := r], db.ids,
       if rules == None then db.rules
       else (db.rules - OfLink(db.rules, r.id)) + RowsFrom(r.id, rules.value, 0))
  }

  datatype Change = Delete | SetStatus(status: string) | SetExpiry(expiresAt: Option<Instant>)
                  | Tag(tags: set<string>) | Untag(tags: set<string>)

  function Changed(r: LinkRow, c: Change): LinkRow {
    match c
    case Delete => r.(status := "deleted", deleted := true)
    case SetStatus(status) => r.(status := status)
    case SetExpiry(expiresAt) => r.(expiresAt := expiresAt)
    case Tag(tags) => r.(tags := r.tags + tags)
    case Untag(tags) => r.(tags := r.tags - tags)
  }

  // Edits that leave the redirect as it is.
  predicate Silent(c: Change) {
    c.Tag? || c.Untag?
  }

  // The caller's live rows among the ids.
  function Touched(db: Db, ids: set<LinkId>, owner: Option<string>): set<Alias> {
    set i | i in ids && Mine(db, i, owner).Some? :: Mine(db, i, owner).value
  }

  // bulkLinkUpdate and BulkTagLinks
  function ChangeRows(db: Db, aliases: set<Alias>, c: Change): Db {
    db.(rows := map a | a in db.rows :: if a in aliases then Changed(db.rows[a], c) else db.rows[a])
  }

  predicate Prunable(r: LinkRow, now: Instant, grace: nat) {
    r.expiresAt.Some? && r.expiresAt.value < now - grace
  }

  // PruneExpiredLinks: rows and, by cascade, their rules. Which of the prunable rows a limited
  // statement takes is up to the database.
  function Prune(db: Db, gone: set<Alias>): Db {
    var left := map a | a in db.rows && a !in gone :: db.rows[a];
    var ids := map i | i in db.ids && db.ids[i] !in gone :: db.ids[i];
    Db(left, ids, set r | r in db.rules && r.link in ids)
  }

  // ---- what a statement leaves readable ----

  lemma InsertReads(db: Db, l: Link, owner: Option<string>, at: Instant, other: Alias)
    requires Consistent(db) && Insert(db, l, owner, at).Some?
    ensures Consistent(Insert(db, l, owner, at).value)
    ensures Lookup(Insert(db, l, owner, at).value, l.alias) == Some(l)
    ensures other != l.alias ==> Lookup(Insert(db, l, owner, at).value, other) == Lookup(db, other)
  {
    var db' := Insert(db, l, owner, at).value;
    assert OfLink(db'.rules, l.id) == RowsFrom(l.id, l.rules, 0);
    StoredRulesLoad(l.id, l.rules, 0);
    assert l.rules[0..] == l.rules;
    if other != l.alias && other in db.rows {
      assert OfLink(db'.rules, db.rows[other].id) == OfLink(db.rules, db.rows[other].id);
    }
  }

  // The link as an update leaves it: the caller's columns, and the rules it named or the ones it had.
  lemma UpdateReads(db: Db, alias: Alias, l: Link, rules: Option<seq<Rule>>, other: Alias)
    requires Consistent(db) && alias in db.rows && !db.rows[alias].deleted
    ensures var db' := UpdateRow(db, alias, l, rules);
      && Consistent(db')
      && Lookup(db', alias) == Some(l.(id := db.rows[alias].id, alias := alias,
                                       rules := if rules == None then LinkOf(db, alias).rules else rules.value))
      && (other != alias ==> Lookup(db', other) == Lookup(db, other))
  {
    var db', id := UpdateRow(db, alias, l, rules), db.rows[alias].id;
    if rules.Some? {
      assert OfLink(db'.rules, id) == RowsFrom(id, rules.value, 0);
      StoredRulesLoad(id, rules.value, 0);
      assert rules.value[0..] == rules.value;
    }
    if other != alias && other in db.rows {
      assert OfLink(db'.rules, db.rows[other].id) == OfLink(db.rules, db.rows[other].id);
    }
  }

  lemma PruneReads(db: Db, gone: set<Alias>, alias: Alias)
    requires Consistent(db)
    ensures Consistent(Prune(db, gone))
    ensures Lookup(Prune(db, gone), alias) == if alias in gone then None else Lookup(db, alias)
  {
    if alias in db.rows && alias !in gone {
      assert OfLink(Prune(db, gone).rules, db.rows[alias].id) == OfLink(db.rules, db.rows[alias].id);
    }
  }

  lemma ChangeReads(db: Db, aliases: set<Alias>, c: Change, a: Alias)
    requires Consistent(db)
    ensures Consistent(ChangeRows(db, aliases, c))
    ensures a !in aliases ==> Lookup(ChangeRows(db, aliases, c), a) == Lookup(db, a)
    ensures Silent(c) ==> (Lookup(ChangeRows(db, aliases, c), a).Some? <==> Lookup(db, a).Some?)
    ensures Silent(c) && Lookup(db, a).Some? ==>
              SameRedirect(Lookup(ChangeRows(db, aliases, c), a).value, Lookup(db, a).value)
  {
  }

  // ---- rules stay as they were written ----

  // The link's rule rows are the ones setLinkRules makes of its list.
  ghost predicate Orderly(db: Db, alias: Alias)
    requires alias in db.rows
  {
    var id := db.rows[alias].id;
    OfLink(db.rules, id) == RowsFrom(id, LoadRules(OfLink(db.rules, id)), 0)
  }

  // A table the program's own statements have made.
  ghost predicate Written(db: Db) {
    Consistent(db) && forall a <- db.rows :: Orderly(db, a)
  }

  lemma RulesStayOrderly(db: Db, db': Db, a: Alias)
    requires a in db.rows && a in db'.rows && db'.rows[a].id == db.rows[a].id && Orderly(db, a)
    requires OfLink(db'.rules, db.rows[a].id) == OfLink(db.rules, db.rows[a].id)
    ensures Orderly(db', a)
  {
  }

  lemma NewRulesAreOrderly(db: Db, a: Alias, rules: seq<Rule>)
    requires a in db.rows && OfLink(db.rules, db.rows[a].id) == RowsFrom(db.rows[a].id, rules, 0)
    ensures Orderly(db, a)
  {
    StoredRulesLoad(db.rows[a].id, rules, 0);
    assert rules[0..] == rules;
  }

  lemma InsertIsWritten(db: Db, l: Link, owner: Option<string>, at: Instant)
    requires Written(db) && Insert(db, l, owner, at).Some?
    ensures Written(Insert(db, l, owner, at).value)
  {
    var db' := Insert(db, l, owner, at).value;
    InsertReads(db, l, owner, at, l.alias);
    forall a | a in db'.rows
      ensures Orderly(db', a)
    {
      if a == l.alias {
        assert OfLink(db'.rules, l.id) == RowsFrom(l.id, l.rules, 0);
        NewRulesAreOrderly(db', a, l.rules);
      } else {
        assert OfLink(db'.rules, db.rows[a].id) == OfLink(db.rules, db.rows[a].id);
        RulesStayOrderly(db, db', a);
      }
    }
  }

  lemma UpdateRewritesRules(db: Db, alias: Alias, l: Link, rules: Option<seq<Rule>>, a: Alias)
    requires Consistent(db) && alias in db.rows && a in db.rows
    ensures var db' := UpdateRow(db, alias, l, rules);
      OfLink(db'.rules, db.rows[a].id) ==
        if a == alias && rules.Some? then RowsFrom(db.rows[a].id, rules.value, 0) else OfLink(db.rules, db.rows[a].id)
  {
  }

  lemma UpdateIsWritten(db: Db, alias: Alias, l: Link, rules: Option<seq<Rule>>)
    requires Written(db) && alias in db.rows && !db.rows[alias].deleted
    ensures Written(UpdateRow(db, alias, l, rules))
  {
    var db' := UpdateRow(db, alias, l, rules);
    UpdateReads(db, alias, l, rules, alias);
    forall a | a in db'.rows
      ensures Orderly(db', a)
    {
      UpdateRewritesRules(db, alias, l, rules, a);
      if a == alias && rules.Some? {
        NewRulesAreOrderly(db', a, rules.value);
      } else {
        RulesStayOrderly(db, db', a);
      }
    }
  }

  lemma ChangeIsWritten(db: Db, aliases: set<Alias>, c: Change)
    requires Written(db)
    ensures Written(ChangeRows(db, aliases, c))
  {
    var db' := ChangeRows(db, aliases, c);
    ChangeReads(db, aliases, c, "");
    forall a | a in db'.rows
      ensures Orderly(db', a)
    {
      RulesStayOrderly(db, db', a);
    }
  }

  lemma PruneIsWritten(db: Db, gone: set<Alias>)
    requires Written(db)
    ensures Written(Prune(db, gone))
  {
    var db' := Prune(db, gone);
    PruneReads(db, gone, "");
    forall a | a in db'.rows
      ensures Orderly(db', a)
    {
      PruneSparesRules(db, gone, a);
      RulesStayOrderly(db, db', a);
    }
  }

  lemma PruneSparesRules(db: Db, gone: set<Alias>, a: Alias)
    requires Consistent(db) && a in db.rows && a !in gone
    ensures OfLink(Prune(db, gone).rules, db.rows[a].id) == OfLink(db.rules, db.rows[a].id)
  {
  }

  // One update undoes another: the columns and the rules of a link can be put back.
  lemma UpdateBack(db: Db, alias: Alias, l: Link)
    requires Written(db) && Lookup(db, alias).Some?
    ensures var there := UpdateRow(db, alias, l, Some(l.rules));
      var link := LinkOf(db, alias);
      UpdateRow(there, alias, link, Some(link.rules)) == db
  {
    var id, link := db.rows[alias].id, LinkOf(db, alias);
    var there := UpdateRow(db, alias, l, Some(l.rules));
    assert Orderly(db, alias);
    RulesBack(db.rules, id, l.rules, link.rules);
    RowBack(db.rows, alias, l, link);
  }

  lemma RulesBack(rows: set<RuleRow>, id: LinkId, other: seq<Rule>, rules: seq<Rule>)
    requires OfLink(rows, id) == RowsFrom(id, rules, 0)
    ensures var there := (rows - OfLink(rows, id)) + RowsFrom(id, other, 0);
      (there - OfLink(there, id)) + RowsFrom(id, rules, 0) == rows
  {
    var there := (rows - OfLink(rows, id)) + RowsFrom(id, other, 0);
    assert there - OfLink(there, id) == rows - OfLink(rows, id);
  }

  lemma RowBack(rows: map<Alias, LinkRow>, alias: Alias, l: Link, link: Link)
    requires alias in rows && WithColumns(rows[alias], link) == rows[alias]
    ensures var there := rows[alias := WithColumns(rows[alias], l)];
      there[alias := WithColumns(there[alias], link)] == rows
  {
  }
}
