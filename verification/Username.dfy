// Account names derived from what an identity provider says, and the search for a free one.
module Username {
  import opened Common
  import opened Decimal
  import Text

  const MIN := 3
  const MAX := 32
  const SUFFIXES := 100

  predicate Alphanumeric(c: char) {
    'a' <= c <= 'z' || '0' <= c <= '9'
  }

  predicate Separator(c: char) {
    c == '_' || c == '-'
  }

  predicate Allowed(s: string) {
    forall i :: 0 <= i < |s| ==> Alphanumeric(s[i]) || Separator(s[i])
  }

  // ^[a-z0-9][a-z0-9_-]{2,31}$
  predicate Valid(name: string) {
    MIN <= |name| <= MAX && Alphanumeric(name[0]) && Allowed(name)
  }

  lemma ValidMeans(name: string)
    ensures Valid(name) <==>
              && 3 <= |name| <= 32 && ('a' <= name[0] <= 'z' || '0' <= name[0] <= '9')
              && forall c <- name :: 'a' <= c <= 'z' || '0' <= c <= '9' || c in "_-"
  {
    assert forall i :: 0 <= i < |name| ==> name[i] in name;
  }

  // Every run of other characters becomes one "-".
  function Dashed(s: string, inRun: bool): (r: string)
    ensures Allowed(r)
  {
    if s == [] then []
    else if Alphanumeric(s[0]) || Separator(s[0]) then [s[0]] + Dashed(s[1..], false)
    else (if inRun then [] else "-") + Dashed(s[1..], true)
  }

  function TrimEdges(s: string): string {
    Text.Trim(Separator, s)
  }

  lemma {:induction false} TrimEdgesStaysAllowed(s: string)
    requires Allowed(s)
    ensures Allowed(TrimEdges(s)) && |TrimEdges(s)| <= |s|
    ensures TrimEdges(s) != [] ==> Alphanumeric(TrimEdges(s)[0])
    ensures s != [] && Alphanumeric(s[0]) ==> TrimEdges(s) != []
    decreases |s|
  {
    if s != [] && Separator(s[0]) {
      TrimEdgesStaysAllowed(s[1..]);
    } else if s != [] && Separator(s[|s| - 1]) {
      TrimEdgesStaysAllowed(s[..|s| - 1]);
    }
  }

  // lower is strings.ToLower, whatever it does with characters outside ASCII.
  function CleanUsername(lower: string -> string, raw: string): string {
    var candidate := TrimEdges(Dashed(lower(raw), false));
    var cut := if |candidate| > MAX then TrimEdges(candidate[..MAX]) else candidate;
    if |cut| < MIN then "" else cut
  }

  lemma CleanIsValid(lower: string -> string, raw: string)
    ensures CleanUsername(lower, raw) == "" || Valid(CleanUsername(lower, raw))
  {
    var candidate := TrimEdges(Dashed(lower(raw), false));
    TrimEdgesStaysAllowed(Dashed(lower(raw), false));
    if |candidate| > MAX {
      TrimEdgesStaysAllowed(candidate[..MAX]);
    }
  }

  // A run of characters that names do not have becomes one dash.
  lemma {:induction false} RunBecomesDash(kept: string, run: string, rest: string)
    requires Allowed(kept) && run != [] && forall c <- run :: !Alphanumeric(c) && !Separator(c)
    requires rest == [] || Alphanumeric(rest[0]) || Separator(rest[0])
    ensures Dashed(kept + run + rest, false) == kept + "-" + Dashed(rest, false)
    decreases |kept|
  {
    if kept == [] {
      RunIsSwallowed(run[1..], rest);
      assert kept + run + rest == [run[0]] + (run[1..] + rest);
    } else {
      RunBecomesDash(kept[1..], run, rest);
      assert kept + run + rest == [kept[0]] + (kept[1..] + run + rest);
    }
  }

  lemma {:induction false} RunIsSwallowed(run: string, rest: string)
    requires forall c <- run :: !Alphanumeric(c) && !Separator(c)
    requires rest == [] || Alphanumeric(rest[0]) || Separator(rest[0])
    ensures Dashed(run + rest, true) == Dashed(rest, false)
  {
    if run == [] {
      assert run + rest == rest;
    } else {
      RunIsSwallowed(run[1..], rest);
      assert run + rest == [run[0]] + (run[1..] + rest);
    }
  }

  lemma {:induction false} AllowedStays(s: string)
    requires Allowed(s)
    ensures Dashed(s, false) == s
  {
    if s != [] {
      AllowedStays(s[1..]);
    }
  }

  // A text of the right characters is kept, but for what exceeds 32 of them and the separators
  // before that.
  lemma CleanKeeps(lower: string -> string, raw: string)
    requires var s := lower(raw); Allowed(s) && |s| >= 3 && !Separator(s[0]) && !Separator(s[|s| - 1])
    ensures var s, r := lower(raw), CleanUsername(lower, raw);
      if |s| <= 32 then r == s
      else if r == "" then forall i :: 2 <= i < 32 ==> s[i] in "_-"
      else r <= s[..32] && forall i :: |r| <= i < 32 ==> s[i] in "_-"
  {
    var s := lower(raw);
    AllowedStays(s);
    Text.TrimmedStays(Separator, s);
    if |s| > 32 {
      CutKeeps(s);
      hide TrimEdges;
    }
  }

  lemma CutKeeps(s: string)
    requires |s| > 32 && !Separator(s[0])
    ensures var r := TrimEdges(s[..32]); r <= s[..32] && forall i :: |r| <= i < 32 ==> s[i] in "_-"
  {
    TrimEdgesCutsTheTail(s[..32]);
    assert forall i :: 0 <= i < 32 ==> s[..32][i] == s[i];
  }

  // What precedes the first "@"; nothing when there is none or it comes first.
  function EmailLocalPart(email: string): string {
    if Text.IndexOf(email, '@') == |email| then "" else email[..Text.IndexOf(email, '@')]
  }

  function HexDigit(d: nat): char
    requires d < 16
  {
    "0123456789abcdef"[d]
  }

  function Hex(bytes: seq<Byte>): (s: string)
    ensures |s| == 2 * |bytes| && forall i :: 0 <= i < |s| ==> Alphanumeric(s[i])
  {
    if bytes == [] then [] else [HexDigit(bytes[0] / 16), HexDigit(bytes[0] % 16)] + Hex(bytes[1..])
  }

  // The name the provider gives, else the mailbox of its address, else a digest of the subject.
  function DeriveUsername(lower: string -> string, digest: seq<Byte>, preferred: string, email: string): string
    requires |digest| == 32
  {
    if CleanUsername(lower, preferred) != "" then CleanUsername(lower, preferred)
    else if CleanUsername(lower, EmailLocalPart(email)) != "" then CleanUsername(lower, EmailLocalPart(email))
    else "oidc-" + Hex(digest)[..12]
  }

  // Whatever a provider sends, the account name it leads to is one the application accepts.
  lemma DerivedIsValid(lower: string -> string, digest: seq<Byte>, preferred: string, email: string)
    requires |digest| == 32
    ensures Valid(DeriveUsername(lower, digest, preferred, email))
  {
    CleanIsValid(lower, preferred);
    CleanIsValid(lower, EmailLocalPart(email));
  }

  // Which of the three a name is made of: what the provider calls the person, else the mailbox,
  // else twelve hexadecimal digits of the digest.
  lemma DerivedInOrder(lower: string -> string, digest: seq<Byte>, preferred: string, mailbox: string, domain: string)
    requires |digest| == 32 && '@' !in mailbox
    ensures var name := DeriveUsername(lower, digest, preferred, mailbox + "@" + domain);
            var own, mail := CleanUsername(lower, preferred), CleanUsername(lower, mailbox);
      && (own != "" ==> name == own)
      && (own == "" && mail != "" ==> name == mail)
      && (own == "" && mail == "" ==> |name| == 17 && name[..5] == "oidc-" && ShowsHex(digest[..6], name[5..]))
  {
    var email := mailbox + "@" + domain;
    assert email[|mailbox|] == '@' && email[..|mailbox|] == mailbox;
    assert Text.IndexOf(email, '@') == |mailbox|;
    HexShows(digest, 6);
  }

  // No address, no mailbox.
  lemma NoMailbox(lower: string -> string, digest: seq<Byte>, preferred: string, email: string)
    requires |digest| == 32 && '@' !in email
    ensures DeriveUsername(lower, digest, preferred, email) == DeriveUsername(lower, digest, preferred, "@")
  {
    assert Text.IndexOf(email, '@') == |email|;
  }

  ghost predicate ShowsHex(bytes: seq<Byte>, s: string) {
    |s| == 2 * |bytes| && forall i :: 0 <= i < |bytes| ==>
      s[2 * i] == "0123456789abcdef"[bytes[i] / 16] && s[2 * i + 1] == "0123456789abcdef"[bytes[i] % 16]
  }

  lemma {:induction false} HexShows(bytes: seq<Byte>, n: nat)
    requires n <= |bytes|
    ensures ShowsHex(bytes[..n], Hex(bytes)[..2 * n])
  {
    if n > 0 {
      HexShows(bytes[1..], n - 1);
      var s := Hex(bytes)[..2 * n];
      assert s[2..] == Hex(bytes[1..])[..2 * (n - 1)];
      assert forall i :: 1 <= i < n ==> bytes[..n][i] == bytes[1..][..n - 1][i - 1] && s[2 * i] == s[2..][2 * (i - 1)];
      assert forall i :: 1 <= i < n ==> s[2 * i + 1] == s[2..][2 * (i - 1) + 1];
    }
  }

  function Tag(n: nat): (tag: string)
    ensures 2 <= |tag| && (n <= SUFFIXES ==> |tag| <= 4)
  {
    if n <= SUFFIXES then
      ItoaLength(n, 3);
      "-" + Itoa(n)
    else "-" + Itoa(n)
  }

  function WithUsernameSuffix(base: string, n: nat): string {
    var keep := MAX - |Tag(n)|;
    (if keep >= 0 && |base| > keep then TrimEdges(base[..keep]) else base) + Tag(n)
  }

  lemma SuffixIsValid(base: string, n: nat)
    requires Valid(base) && 2 <= n <= SUFFIXES
    ensures Valid(WithUsernameSuffix(base, n))
  {
    var keep := MAX - |Tag(n)|;
    if |base| > keep {
      TrimEdgesStaysAllowed(base[..keep]);
    }
    assert forall i :: 1 <= i < |Tag(n)| ==> IsDigit(Tag(n)[i]);
  }

  // ---- the candidates ----

  // Only digits follow the dash of a tag, so it is the last dash.
  predicate LastDash(s: string, p: nat) {
    p < |s| && s[p] == '-' && forall i :: p < i < |s| ==> IsDigit(s[i])
  }

  lemma TagDash(a: string, n: nat)
    ensures LastDash(a + Tag(n), |a|) && (a + Tag(n))[|a| + 1..] == Itoa(n)
  {
  }

  lemma LastTagTells(a: string, b: string, i: nat, j: nat)
    requires a + Tag(i) == b + Tag(j)
    ensures i == j
  {
    TagDash(a, i);
    TagDash(b, j);
    assert LastDash(a + Tag(i), |a|) && LastDash(a + Tag(i), |b|);
    ItoaReads(i);
    ItoaReads(j);
  }

  lemma SuffixesDiffer(base: string, i: nat, j: nat)
    ensures WithUsernameSuffix(base, i) == WithUsernameSuffix(base, j) ==> i == j
  {
    if WithUsernameSuffix(base, i) == WithUsernameSuffix(base, j) {
      var a := WithUsernameSuffix(base, i)[..|WithUsernameSuffix(base, i)| - |Tag(i)|];
      var b := WithUsernameSuffix(base, j)[..|WithUsernameSuffix(base, j)| - |Tag(j)|];
      assert a + Tag(i) == WithUsernameSuffix(base, i) && b + Tag(j) == WithUsernameSuffix(base, j);
      LastTagTells(a, b, i, j);
    }
  }

  lemma {:induction false} TrimEdgesCutsTheTail(s: string)
    requires s != [] && !Separator(s[0])
    ensures var r := TrimEdges(s);
      r != [] && r <= s && !Separator(r[|r| - 1]) && forall i :: |r| <= i < |s| ==> Separator(s[i])
    decreases |s|
  {
    if Separator(s[|s| - 1]) {
      TrimEdgesCutsTheTail(s[..|s| - 1]);
    }
  }

  // A candidate is the base, a dash and the number. A base too long for that loses its end, and
  // the separators before the end.
  lemma SuffixedShape(base: string, n: nat) returns (kept: nat)
    requires Valid(base) && 2 <= n <= SUFFIXES
    ensures kept <= |base| && WithUsernameSuffix(base, n) == base[..kept] + "-" + Itoa(n)
    ensures if |base| + 1 + |Itoa(n)| <= 32 then kept == |base|
            else kept + 1 + |Itoa(n)| <= 32 && forall i :: kept <= i < 31 - |Itoa(n)| ==> base[i] in "_-"
  {
    kept := |base|;
    var keep := MAX - |Tag(n)|;
    if |base| > keep {
      TrimEdgesCutsTheTail(base[..keep]);
      kept := |TrimEdges(base[..keep])|;
    }
  }

  // The base itself is not always one more name: a long one that already ends in the tag is its
  // own candidate.
  lemma WhenBaseIsItsOwnCandidate(base: string, n: nat)
    requires Valid(base) && 2 <= n <= SUFFIXES
    ensures var k := |Tag(n)|;
      WithUsernameSuffix(base, n) == base <==>
        |base| >= MAX - 1 && base[|base| - k..] == Tag(n) && !Separator(base[|base| - k - 1])
  {
    var k := |Tag(n)|;
    if WithUsernameSuffix(base, n) == base {
      OwnCandidateLooks(base, n);
    } else if |base| >= MAX - 1 && base[|base| - k..] == Tag(n) && !Separator(base[|base| - k - 1]) {
      LooksLikeOwnCandidate(base, n);
    }
  }

  lemma OwnCandidateLooks(base: string, n: nat)
    requires Valid(base) && 2 <= n <= SUFFIXES && WithUsernameSuffix(base, n) == base
    ensures var k := |Tag(n)|;
      |base| >= MAX - 1 && base[|base| - k..] == Tag(n) && !Separator(base[|base| - k - 1])
  {
    var k, keep := |Tag(n)|, MAX - |Tag(n)|;
    var head := TrimEdges(base[..keep]);
    TrimEdgesCutsTheTail(base[..keep]);
    assert base[|base| - k..] == Tag(n) && base[..|base| - k] == head;
    assert IsDigit(Tag(n)[1]) && base[|head| + 1] == Tag(n)[1];
  }

  lemma OnlyTheTailGoes(head: string, tail: string)
    requires head != [] && !Separator(head[0]) && !Separator(head[|head| - 1])
    requires forall i :: 0 <= i < |tail| ==> Separator(tail[i])
    ensures TrimEdges(head + tail) == head
  {
    var s, r := head + tail, TrimEdges(head + tail);
    TrimEdgesCutsTheTail(s);
    assert s[|head| - 1] == head[|head| - 1];
    assert r == s[..|head|];
  }

  lemma LooksLikeOwnCandidate(base: string, n: nat)
    requires Valid(base) && 2 <= n <= SUFFIXES && |base| >= MAX - 1
    requires base[|base| - |Tag(n)|..] == Tag(n) && !Separator(base[|base| - |Tag(n)| - 1])
    ensures WithUsernameSuffix(base, n) == base
  {
    var keep, head := MAX - |Tag(n)|, base[..|base| - |Tag(n)|];
    var tail := Tag(n)[..keep - |head|];
    assert base == head + Tag(n);
    assert base[..keep] == head + tail;
    assert tail == [] || tail == "-";
    OnlyTheTailGoes(head, tail);
  }

  function Candidate(base: string, k: nat): string {
    if k == 1 then base else WithUsernameSuffix(base, k)
  }

  // The first name of base, base-2, ... base-100 that is free, or base-100 when none is.
  method UniqueUsername(base: string, taken: string -> bool) returns (r: string)
    requires Valid(base)
    ensures Valid(r)
    ensures exists k :: 1 <= k <= SUFFIXES && r == Candidate(base, k) &&
              (forall j :: 1 <= j < k ==> taken(Candidate(base, j))) && (taken(r) ==> k == SUFFIXES)
  {
    if !taken(base) {
      assert base == Candidate(base, 1);
      return base;
    }
    var suffix := 2;
    while suffix <= SUFFIXES
      invariant 2 <= suffix <= SUFFIXES + 1
      invariant forall j :: 1 <= j < suffix ==> taken(Candidate(base, j))
    {
      var next := WithUsernameSuffix(base, suffix);
      SuffixIsValid(base, suffix);
      assert next == Candidate(base, suffix);
      if !taken(next) {
        return next;
      }
      suffix := suffix + 1;
    }
    SuffixIsValid(base, SUFFIXES);
    assert WithUsernameSuffix(base, SUFFIXES) == Candidate(base, SUFFIXES);
    return WithUsernameSuffix(base, SUFFIXES);
  }

  function Suffixed(base: string, n: nat): set<string> {
    if n < 2 then {} else Suffixed(base, n - 1) + {WithUsernameSuffix(base, n)}
  }

  lemma {:induction false} SuffixedAre(base: string, n: nat, x: string)
    requires x in Suffixed(base, n)
    ensures exists k :: 2 <= k <= n && x == WithUsernameSuffix(base, k)
  {
    if x != WithUsernameSuffix(base, n) {
      SuffixedAre(base, n - 1, x);
    }
  }

  // The suffixed candidates are pairwise distinct.
  lemma {:induction false} SuffixedCount(base: string, n: nat)
    requires n >= 1
    ensures |Suffixed(base, n)| == n - 1
  {
    if n >= 2 {
      SuffixedCount(base, n - 1);
      if WithUsernameSuffix(base, n) in Suffixed(base, n - 1) {
        SuffixedAre(base, n - 1, WithUsernameSuffix(base, n));
        var k :| 2 <= k <= n - 1 && WithUsernameSuffix(base, n) == WithUsernameSuffix(base, k);
        SuffixesDiffer(base, k, n);
      }
    }
  }

  // No name in the search is free only if the 99 distinct suffixed ones are all taken.
  lemma FewerTakenLeavesOneFree(base: string, taken: set<string>)
    requires forall k :: 1 <= k <= SUFFIXES ==> Candidate(base, k) in taken
    ensures |taken| >= 99
  {
    SuffixedCount(base, SUFFIXES);
    forall x | x in Suffixed(base, SUFFIXES)
      ensures x in taken
    {
      SuffixedAre(base, SUFFIXES, x);
      var k :| 2 <= k <= SUFFIXES && x == WithUsernameSuffix(base, k);
      assert x == Candidate(base, k);
    }
    SubsetCount(Suffixed(base, SUFFIXES), taken);
  }

  lemma {:induction false} SubsetCount<T>(a: set<T>, b: set<T>)
    requires a <= b
    ensures |a| <= |b|
    decreases |a|
  {
    if x :| x in a {
      SubsetCount(a - {x}, b - {x});
    }
  }
}
