// String handling whose tables live outside the program: Unicode case and space, URL syntax.
module Text {
  // What the Go runtime decides about characters, host names and URLs.
  datatype Rules = Rules(lower: char -> char, space: char -> bool, host: string -> bool, url: string -> bool)

  // The few facts about those tables that the settings code leans on.
  ghost predicate Lawful(t: Rules) {
    && (forall c: char :: t.lower(t.lower(c)) == t.lower(c))
    && (forall c: char :: t.space(t.lower(c)) <==> t.space(c))
    && (forall c: char :: 'a' <= c <= 'z' ==> t.lower(c) == c && !t.space(c))
  }

  function Lower(t: Rules, s: string): (r: string)
    ensures |r| == |s| && forall i :: 0 <= i < |s| ==> r[i] == t.lower(s[i])
  {
    seq(|s|, i requires 0 <= i < |s| => t.lower(s[i]))
  }

  predicate Edged(space: char -> bool, s: string) {
    s != [] && (space(s[0]) || space(s[|s| - 1]))
  }

  // strings.TrimSpace, String.prototype.trim
  function Trim(space: char -> bool, s: string): (r: string)
    ensures !Edged(space, r)
  {
    if s == [] then []
    else if space(s[0]) then Trim(space, s[1..])
    else if space(s[|s| - 1]) then Trim(space, s[..|s| - 1])
    else s
  }

  // It takes off blanks, at the ends, and nothing else.
  lemma {:induction false} TrimCuts(space: char -> bool, s: string) returns (i: nat, j: nat)
    ensures i <= j <= |s| && Trim(space, s) == s[i..j]
    ensures forall k :: 0 <= k < i || j <= k < |s| ==> space(s[k])
  {
    i, j := 0, |s|;
    if s != [] && space(s[0]) {
      i, j := TrimCuts(space, s[1..]);
      i, j := i + 1, j + 1;
    } else if s != [] && space(s[|s| - 1]) {
      i, j := TrimCuts(space, s[..|s| - 1]);
    }
  }

  lemma TrimmedStays(space: char -> bool, s: string)
    requires !Edged(space, s)
    ensures Trim(space, s) == s
  {
  }

  lemma LowerTrimStays(t: Rules, s: string)
    requires Lawful(t)
    ensures var h := Lower(t, Trim(t.space, s)); Lower(t, Trim(t.space, h)) == h
  {
    var r := Trim(t.space, s);
    var h := Lower(t, r);
    TrimmedStays(t.space, h);
    assert Lower(t, h) == h;
  }

  // The first position of c, or the length.
  function IndexOf(s: string, c: char): (i: nat)
    ensures i <= |s| && (i < |s| ==> s[i] == c) && (forall j :: 0 <= j < i ==> s[j] != c)
  {
    if s == [] || s[0] == c then 0 else 1 + IndexOf(s[1..], c)
  }

  predicate HasAny(s: string, chars: string) {
    exists c <- s :: c in chars
  }
}
