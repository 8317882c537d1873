// What links, rules and edits come to, said of their columns and of the visitor's agent.
module LinkMeaning {
  import opened Common
  import opened Text
  import opened Links

  // part stands somewhere in s.
  ghost predicate Has(s: string, part: string) {
    exists i: nat :: i <= |s| && part <= s[i..]
  }

  lemma {:induction false} ContainsIsSubstring(s: string, part: string)
    ensures Contains(s, part) <==> Has(s, part)
    decreases |s|
  {
    if part <= s {
      assert part <= s[0..];
    } else if s != [] {
      ContainsIsSubstring(s[1..], part);
      if i: nat :| i <= |s[1..]| && part <= s[1..][i..] {
        assert s[1..][i..] == s[i + 1..];
      }
      if i: nat :| i <= |s| && part <= s[i..] {
        assert i > 0 && s[i..] == s[1..][i - 1..] by {
          assert s[0..] == s;
        }
      }
    }
  }

  ghost predicate LooksLikeBot(s: string) {
    Has(s, "bot") || Has(s, "crawler") || Has(s, "spider") || Has(s, "curl/") || Has(s, "wget")
  }

  ghost predicate LooksLikeTablet(s: string) {
    Has(s, "ipad") || Has(s, "tablet")
  }

  ghost predicate LooksMobile(s: string) {
    Has(s, "mobile") || Has(s, "android") || Has(s, "iphone") || Has(s, "ipod")
  }

  lemma BotMarkers(s: string)
    ensures ContainsAny(s, BOTS) <==> LooksLikeBot(s)
  {
    ContainsIsSubstring(s, "bot");
    ContainsIsSubstring(s, "crawler");
    ContainsIsSubstring(s, "spider");
    ContainsIsSubstring(s, "curl/");
    ContainsIsSubstring(s, "wget");
    AnyOfFive(s, BOTS);
  }

  lemma AnyOfFive(s: string, markers: seq<string>)
    requires |markers| == 5
    ensures ContainsAny(s, markers) <==>
            Contains(s, markers[0]) || Contains(s, markers[1]) || Contains(s, markers[2])
            || Contains(s, markers[3]) || Contains(s, markers[4])
  {
  }

  lemma TabletMarkers(s: string)
    ensures ContainsAny(s, TABLETS) <==> LooksLikeTablet(s)
  {
    ContainsIsSubstring(s, "ipad");
    ContainsIsSubstring(s, "tablet");
    assert TABLETS[0] == "ipad" && TABLETS[1] == "tablet";
  }

  lemma MobileMarkers(s: string)
    ensures ContainsAny(s, MOBILES) <==> LooksMobile(s)
  {
    ContainsIsSubstring(s, "mobile");
    ContainsIsSubstring(s, "android");
    ContainsIsSubstring(s, "iphone");
    ContainsIsSubstring(s, "ipod");
    AnyOfFour(s, MOBILES);
  }

  lemma AnyOfFour(s: string, markers: seq<string>)
    requires |markers| == 4
    ensures ContainsAny(s, markers) <==>
            Contains(s, markers[0]) || Contains(s, markers[1]) || Contains(s, markers[2]) || Contains(s, markers[3])
  {
  }

  // A crawler that calls itself a tablet or mobile is a bot, and a tablet that calls itself mobile a tablet.
  lemma DeviceClassByMarkers(t: Rules, agent: string)
    ensures var s, c := Lower(t, agent), DeviceClass(t, agent);
      && (c == "unknown" <==> agent == "")
      && (c == "bot" <==> agent != "" && LooksLikeBot(s))
      && (c == "tablet" <==> agent != "" && !LooksLikeBot(s) && LooksLikeTablet(s))
      && (c == "mobile" <==> agent != "" && !LooksLikeBot(s) && !LooksLikeTablet(s) && LooksMobile(s))
      && (c == "desktop" <==> agent != "" && !LooksLikeBot(s) && !LooksLikeTablet(s) && !LooksMobile(s))
  {
    BotMarkers(Lower(t, agent));
    TabletMarkers(Lower(t, agent));
    MobileMarkers(Lower(t, agent));
  }

  // Only the two kinds of rule ever fire.
  lemma RuleFires(t: Rules, r: Rule, agent: string)
    ensures RuleMatches(t, r, agent) <==>
            || (r.matchType == "ua_contains" && Has(Lower(t, agent), Lower(t, r.matchValue)))
            || (r.matchType == "device" && DeviceClass(t, agent) == r.matchValue)
  {
    ContainsIsSubstring(Lower(t, agent), Lower(t, r.matchValue));
  }

  // The visitor is sent on exactly while the link is active and has not expired: to the first
  // rule's destination with its code, or the link's, and after the link's delay.
  lemma AnswerIsTheLinks(t: Rules, l: Link, now: Instant, agent: string)
    ensures AnswerOf(t, None, now, agent) == Missing
    ensures var a := AnswerOf(t, Some(l), now, agent);
      if l.status != "active" || (l.expiresAt.Some? && l.expiresAt.value <= now) then a == Missing
      else if forall i :: 0 <= i < |l.rules| ==> !RuleMatches(t, l.rules[i], agent)
      then a == Redirect(l.destination, l.code, l.delay)
      else exists i :: 0 <= i < |l.rules| && RuleMatches(t, l.rules[i], agent)
             && (forall j :: 0 <= j < i ==> !RuleMatches(t, l.rules[j], agent))
             && a == Redirect(l.rules[i].destination, if l.rules[i].code == 0 then l.code else l.rules[i].code, l.delay)
  {
    MatchRuleIsFirst(t, l.rules, l.code, agent);
  }

  // A submitted rule is stored trimmed, a device value lower-cased, everything else as it came; and
  // it is refused exactly for an unknown kind, a value that is blank, too long or no device class,
  // a destination that is not permitted, or a code that no redirect has.
  lemma RuleIsStored(t: Rules, permitted: string -> bool, r: Rule)
    ensures var n := NormalRule(t, permitted, r);
      var kind, value := Trim(t.space, r.matchType), Trim(t.space, r.matchValue);
      && (n.Some? <==>
            && (kind == "ua_contains" || (kind == "device" &&
                  Lower(t, value) in {"unknown", "bot", "tablet", "mobile", "desktop"}))
            && 0 < |value| <= 255 && permitted(r.destination) && (r.code == 0 || r.code == 301 || r.code == 302))
      && (n.Some? ==>
            n.value == r.(matchType := kind, matchValue := if kind == "device" then Lower(t, value) else value))
  {
  }

  ghost predicate RulesStored(t: Rules, permitted: string -> bool, given: seq<Rule>, stored: seq<Rule>) {
    |given| <= 10 && |stored| == |given|
    && forall i :: 0 <= i < |given| ==> NormalRule(t, permitted, given[i]) == Some(stored[i])
  }

  // Ten rules at most, each in its place.
  lemma RulesAreStored(t: Rules, permitted: string -> bool, rules: seq<Rule>)
    ensures var r := NormalizeRules(t, permitted, rules);
      && (r.Some? <==> |rules| <= 10 && forall i :: 0 <= i < |rules| ==> NormalRule(t, permitted, rules[i]).Some?)
      && (r.Some? ==> RulesStored(t, permitted, rules, r.value))
  {
    EachStaysInOrder(x => NormalRule(t, permitted, x), rules);
  }

  // What an edit may say.
  lemma EditIsAcceptable(t: Rules, permitted: string -> bool, e: Edit)
    ensures Acceptable(t, permitted, e) <==>
            && (e.destination == "" || permitted(e.destination)) && (e.code == 0 || e.code == 301 || e.code == 302)
            && (e.status == "" || e.status == "active" || e.status == "disabled")
            && (e.delay.Some? ==> 0 <= e.delay.value <= 60)
            && (e.rules.Some? ==> |e.rules.value| <= 10)
            && (e.rules.Some? ==>
                  forall i :: 0 <= i < |e.rules.value| ==> NormalRule(t, permitted, e.rules.value[i]).Some?)
  {
    if e.rules.Some? {
      RulesAreStored(t, permitted, e.rules.value);
    }
  }
}
