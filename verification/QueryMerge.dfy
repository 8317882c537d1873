// A visitor's query string joined to a destination.
module QueryMerge {
  import opened Text

  // ---- what a URL is made of ----

  function Base(url: string): string {
    url[..IndexOf(url, '#')]
  }

  function Fragment(url: string): string {
    url[IndexOf(url, '#')..]
  }

  function Path(base: string): string {
    base[..IndexOf(base, '?')]
  }

  function Query(base: string): string {
    var i := IndexOf(base, '?');
    if i == |base| then "" else base[i + 1..]
  }

  // The non-empty parts between the "&"s, given the part begun already.
  function Split(query: string, begun: string): seq<string> {
    if query == "" then Part(begun)
    else if query[0] == '&' then Part(begun) + Split(query[1..], "")
    else Split(query[1..], begun + [query[0]])
  }

  function Part(s: string): seq<string> {
    if s == "" then [] else [s]
  }

  function Pieces(query: string): seq<string> {
    Split(query, "")
  }

  // ---- the merge ----

  predicate EndsIn(s: string, c: char) {
    s != "" && s[|s| - 1] == c
  }

  function MergeQuery(destination: string, rawQuery: string): string {
    var base, fragment := Base(destination), Fragment(destination);
    if rawQuery == "" then destination
    else if EndsIn(base, '?') || EndsIn(base, '&') then base + rawQuery + fragment
    else if '?' in base then base + "&" + rawQuery + fragment
    else base + "?" + rawQuery + fragment
  }

  // Same path, same fragment, and the destination's parameters followed by the visitor's.
  predicate Merged(destination: string, rawQuery: string, url: string) {
    && Path(Base(url)) == Path(Base(destination)) && Fragment(url) == Fragment(destination)
    && Pieces(Query(Base(url))) == Pieces(Query(Base(destination))) + Pieces(rawQuery)
  }

  // The merge takes any last "?" or "&" for the separator it needs. That is one only if there is
  // a query for the "&" to be in, and if the "?" is the one that begins the query.
  predicate SeparatorIsReal(base: string, rawQuery: string) {
    && (EndsIn(base, '&') ==> '?' in base)
    && (EndsIn(base, '?') && '?' in base[..|base| - 1] ==> "&" <= rawQuery)
  }

  // ---- proofs ----

  lemma {:induction false} FirstStays(a: string, b: string, c: char)
    ensures IndexOf(a + b, c) == if c in a then IndexOf(a, c) else |a| + IndexOf(b, c)
  {
    if a == "" {
      assert a + b == b;
    } else {
      assert (a + b)[1..] == a[1..] + b;
      FirstStays(a[1..], b, c);
    }
  }

  lemma {:induction false} SplitJoin(a: string, b: string, begun: string)
    ensures Split(a + ("&" + b), begun) == Split(a, begun) + Split(b, "")
    decreases |a|
  {
    if a == "" {
      assert a + ("&" + b) == "&" + b && ("&" + b)[1..] == b;
    } else {
      assert (a + ("&" + b))[1..] == a[1..] + ("&" + b);
      SplitJoin(a[1..], b, if a[0] == '&' then "" else begun + [a[0]]);
    }
  }

  lemma PiecesJoin(a: string, b: string)
    ensures Pieces(a + "&" + b) == Pieces(a) + Pieces(b)
  {
    SplitJoin(a, b, "");
    assert a + ("&" + b) == a + "&" + b;
  }

  lemma {:induction false} SameCount(b: string, x: string, y: string)
    requires x != "" && y != ""
    ensures |Split(b, x)| == |Split(b, y)|
    decreases |b|
  {
    if b != "" && b[0] != '&' {
      SameCount(b[1..], x + [b[0]], y + [b[0]]);
    }
  }

  lemma {:induction false} SplitFuse(a: string, b: string, begun: string)
    requires b != "" && b[0] != '&' && !EndsIn(a, '&') && (a == "" ==> begun != "")
    ensures |Split(a + b, begun)| + 1 == |Split(a, begun)| + |Split(b, "")|
    decreases |a|
  {
    if a == "" {
      assert a + b == b;
      SameCount(b[1..], [b[0]], begun + [b[0]]);
      assert "" + [b[0]] == [b[0]];
    } else {
      assert (a + b)[1..] == a[1..] + b;
      SplitFuse(a[1..], b, if a[0] == '&' then "" else begun + [a[0]]);
    }
  }

  // Without a separator the last piece of one and the first of the other become one.
  lemma PiecesFuse(a: string, b: string)
    requires a != "" && b != "" && !EndsIn(a, '&') && b[0] != '&'
    ensures |Pieces(a + b)| + 1 == |Pieces(a)| + |Pieces(b)|
  {
    SplitFuse(a, b, "");
  }

  function Total(pieces: seq<string>): nat {
    if pieces == [] then 0 else |pieces[0]| + Total(pieces[1..])
  }

  lemma {:induction false} SplitTotal(q: string, x: string, y: string)
    ensures Total(Split(q, x)) - |x| == Total(Split(q, y)) - |y|
    decreases |q|
  {
    if q != "" {
      if q[0] == '&' {
        PartTotal(x, Split(q[1..], ""));
        PartTotal(y, Split(q[1..], ""));
      } else {
        SplitTotal(q[1..], x + [q[0]], y + [q[0]]);
      }
    } else {
      PartTotal(x, []);
      PartTotal(y, []);
      assert Part(x) + [] == Part(x) && Part(y) + [] == Part(y);
    }
  }

  lemma PartTotal(x: string, more: seq<string>)
    ensures Total(Part(x) + more) == |x| + Total(more)
  {
    if x == "" {
      assert Part(x) + more == more;
    } else {
      assert (Part(x) + more)[1..] == more;
    }
  }

  // A URL put together from a base and a fragment comes apart again.
  lemma ComesApart(base: string, fragment: string)
    requires '#' !in base && (fragment == "" || fragment[0] == '#')
    ensures Base(base + fragment) == base && Fragment(base + fragment) == fragment
  {
    FirstStays(base, fragment, '#');
  }

  // And so does one put together from its three parts, with a query or without.
  lemma PartsOfUrl(path: string, query: string, fragment: string)
    requires '?' !in path && '#' !in path && '#' !in query && (fragment == "" || fragment[0] == '#')
    ensures var base := Base(path + "?" + query + fragment);
      Path(base) == path && Query(base) == query && Fragment(path + "?" + query + fragment) == fragment
    ensures var base := Base(path + fragment);
      Path(base) == path && Query(base) == "" && Fragment(path + fragment) == fragment
  {
    ComesApart(path + "?" + query, fragment);
    SplitAtQuery(path, query);
    ComesApart(path, fragment);
  }

  lemma {:induction false} SplitOfOne(s: string, begun: string)
    requires '&' !in s
    ensures Split(s, begun) == Part(begun + s)
    decreases |s|
  {
    if s != "" {
      SplitOfOne(s[1..], begun + [s[0]]);
      assert begun + [s[0]] + s[1..] == begun + s;
    } else {
      assert begun + s == begun;
    }
  }

  // What an "&" parts are the pieces, the empty ones aside.
  lemma PiecesAtSeparator(s: string, more: string)
    requires '&' !in s
    ensures Pieces(s) == (if s == "" then [] else [s]) && Pieces(s + "&" + more) == Pieces(s) + Pieces(more)
  {
    SplitOfOne(s, "");
    assert "" + s == s;
    PiecesJoin(s, more);
  }

  lemma SplitAtFragment(destination: string)
    ensures var f := Fragment(destination);
      '#' !in Base(destination) && (f == "" || f[0] == '#') && Base(destination) + f == destination
    ensures Base(Base(destination)) == Base(destination)
  {
    ComesApart(Base(destination), "");
    assert Base(destination) + "" == Base(destination);
  }

  // The merge of the parts before the fragments.
  function MergedBase(base: string, rawQuery: string): string {
    if rawQuery == "" then base
    else if EndsIn(base, '?') || EndsIn(base, '&') then base + rawQuery
    else if '?' in base then base + "&" + rawQuery
    else base + "?" + rawQuery
  }

  lemma MergeIsOnTheBase(destination: string, rawQuery: string)
    requires '#' !in rawQuery
    ensures var url := MergeQuery(destination, rawQuery);
      Base(url) == MergedBase(Base(destination), rawQuery) && Fragment(url) == Fragment(destination)
  {
    SplitAtFragment(destination);
    ComesApart(MergedBase(Base(destination), rawQuery), Fragment(destination));
  }

  lemma SplitAtQuery(path: string, query: string)
    requires '?' !in path
    ensures Path(path + "?" + query) == path && Query(path + "?" + query) == query
  {
    FirstStays(path, "?" + query, '?');
    assert path + ("?" + query) == path + "?" + query;
  }

  predicate BaseMerged(base: string, rawQuery: string) {
    && Path(MergedBase(base, rawQuery)) == Path(base)
    && Pieces(Query(MergedBase(base, rawQuery))) == Pieces(Query(base)) + Pieces(rawQuery)
  }

  function Grown(query: string, rawQuery: string): string {
    if query == "" || EndsIn(query, '?') || EndsIn(query, '&') then query + rawQuery else query + "&" + rawQuery
  }

  lemma EndOfQuery(path: string, query: string)
    requires query != ""
    ensures var base := path + "?" + query; base != "" && base[|base| - 1] == query[|query| - 1]
  {
  }

  // With a query, only the query changes.
  lemma OnlyQueryGrows(path: string, query: string, rawQuery: string)
    requires rawQuery != ""
    ensures MergedBase(path + "?" + query, rawQuery) == path + "?" + Grown(query, rawQuery)
  {
    var base := path + "?" + query;
    assert base[|path|] == '?';
    if query == "" {
      assert base + rawQuery == path + "?" + (query + rawQuery);
    } else {
      EndOfQuery(path, query);
      if EndsIn(query, '?') || EndsIn(query, '&') {
        assert base + rawQuery == path + "?" + (query + rawQuery);
      } else {
        assert base + "&" + rawQuery == path + "?" + (query + "&" + rawQuery);
      }
    }
  }

  lemma QueryGrows(path: string, query: string, rawQuery: string)
    requires '?' !in path && rawQuery != ""
    ensures BaseMerged(path + "?" + query, rawQuery) <==>
            Pieces(Grown(query, rawQuery)) == Pieces(query) + Pieces(rawQuery)
  {
    OnlyQueryGrows(path, query, rawQuery);
    SplitAtQuery(path, query);
    SplitAtQuery(path, Grown(query, rawQuery));
  }

  lemma LastSeparatorIsIdle(a: string)
    ensures Pieces(a + "&") == Pieces(a)
  {
    PiecesJoin(a, "");
    assert a + "&" + "" == a + "&";
  }

  lemma PiecesWithTrailer(q: string, rawQuery: string)
    requires EndsIn(q, '&')
    ensures Pieces(q + rawQuery) == Pieces(q) + Pieces(rawQuery)
  {
    var a := q[..|q| - 1];
    assert q == a + "&";
    LastSeparatorIsIdle(a);
    PiecesJoin(a, rawQuery);
  }

  lemma FirstSeparatorIsIdle(b: string)
    ensures Pieces("&" + b) == Pieces(b)
  {
    assert ("&" + b)[1..] == b;
    assert Part("") + Pieces(b) == Pieces(b);
  }

  lemma PiecesWithLeader(q: string, rawQuery: string)
    requires "&" <= rawQuery
    ensures Pieces(q + rawQuery) == Pieces(q) + Pieces(rawQuery)
  {
    var b := rawQuery[1..];
    assert rawQuery == "&" + b && q + rawQuery == q + "&" + b;
    PiecesJoin(q, b);
    FirstSeparatorIsIdle(b);
  }

  lemma MergedWithQuery(path: string, query: string, rawQuery: string)
    requires '?' !in path && rawQuery != ""
    ensures BaseMerged(path + "?" + query, rawQuery) <==> (EndsIn(query, '?') ==> "&" <= rawQuery)
  {
    QueryGrows(path, query, rawQuery);
    if query == "" {
      assert query + rawQuery == rawQuery;
    } else if EndsIn(query, '&') {
      PiecesWithTrailer(query, rawQuery);
    } else if !EndsIn(query, '?') {
      PiecesJoin(query, rawQuery);
    } else if "&" <= rawQuery {
      PiecesWithLeader(query, rawQuery);
    } else {
      PiecesFuse(query, rawQuery);
    }
  }

  lemma LeaderChangesPieces(r: string)
    ensures Pieces("?" + r) != Pieces(r)
  {
    assert ("?" + r)[1..] == r && "" + ['?'] == "?";
    SplitTotal(r, "?", "");
  }

  lemma MergedWithoutQuery(base: string, rawQuery: string)
    requires '?' !in base && rawQuery != ""
    ensures BaseMerged(base, rawQuery) <==> !EndsIn(base, '&')
  {
    if EndsIn(base, '&') {
      FirstStays(base, rawQuery, '?');
      var i := IndexOf(rawQuery, '?');
      if i == 0 {
        LeaderChangesPieces(rawQuery[1..]);
        assert rawQuery == "?" + rawQuery[1..];
        assert (base + rawQuery)[|base| + 1..] == rawQuery[1..];
      }
    } else {
      SplitAtQuery(base, rawQuery);
    }
  }

  // What the merge promises, and exactly when it keeps it.
  lemma MergesExactly(destination: string, rawQuery: string)
    requires '#' !in rawQuery
    ensures Merged(destination, rawQuery, MergeQuery(destination, rawQuery)) <==>
            rawQuery == "" || SeparatorIsReal(Base(destination), rawQuery)
  {
    var base := Base(destination);
    MergeIsOnTheBase(destination, rawQuery);
    if rawQuery != "" {
      if '?' in base {
        var path, query := AtQuery(base);
        MergedWithQuery(path, query, rawQuery);
        LastAndEarlier(path, query);
      } else {
        MergedWithoutQuery(base, rawQuery);
      }
    }
  }

  lemma AtQuery(base: string) returns (path: string, query: string)
    requires '?' in base
    ensures base == path + "?" + query && '?' !in path
  {
    var i := IndexOf(base, '?');
    path, query := base[..i], base[i + 1..];
    CutAt(base, i);
  }

  lemma CutAt(s: string, i: nat)
    requires i < |s|
    ensures s == s[..i] + [s[i]] + s[i + 1..]
  {
  }

  lemma LastAndEarlier(path: string, query: string)
    requires '?' !in path
    ensures var base := path + "?" + query;
      EndsIn(query, '?') <==> EndsIn(base, '?') && '?' in base[..|base| - 1]
  {
    var base := path + "?" + query;
    if query == "" {
      assert base[..|base| - 1] == path;
    } else {
      assert base[..|base| - 1][|path|] == '?';
    }
  }
}
