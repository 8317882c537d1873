// Grouping one batch of raw clicks into daily increments.
module ClickScan {
  import opened Common
  import opened Calendar

  type LinkId = string
  type EventId = nat
  type Bucket = (LinkId, Day)

  datatype Row = Row(id: EventId, link: LinkId, day: Day, bot: bool)
  datatype Aggregate = Aggregate(link: LinkId, day: Day, count: nat, botCount: nat) {
    function Plus(bot: bool): Aggregate {
      this.(count := count + 1, botCount := botCount + if bot then 1 else 0)
    }
  }

  datatype Counter = Counter(clicks: nat, bots: nat) {
    function Plus(other: Counter): Counter {
      Counter(clicks + other.clicks, bots + other.bots)
    }
    function Of(botsOnly: bool): nat {
      if botsOnly then bots else clicks
    }
  }

  // What a row cursor yields: rows, or one that does not scan; then possibly a broken stream.
  datatype Fetch = Fetched(row: Row) | Unscannable
  datatype Cursor = Cursor(fetches: seq<Fetch>, broken: bool) {
    predicate Clean() {
      !broken && Scannable(fetches)
    }
  }

  predicate Scannable(fetches: seq<Fetch>) {
    fetches == [] || (Scannable(fetches[..|fetches| - 1]) && fetches[|fetches| - 1].Fetched?)
  }

  function Rows(fetches: seq<Fetch>): seq<Row>
    requires Scannable(fetches)
  {
    if fetches == [] then [] else Rows(fetches[..|fetches| - 1]) + [fetches[|fetches| - 1].row]
  }

  lemma {:induction false} EveryFetchScans(fetches: seq<Fetch>)
    ensures Scannable(fetches) <==> forall i :: 0 <= i < |fetches| ==> fetches[i].Fetched?
  {
    if fetches != [] {
      EveryFetchScans(fetches[..|fetches| - 1]);
    }
  }

  function KeyOf(link: LinkId, day: Day): string {
    link + ":" + day.Format()
  }

  // The text key never merges two buckets, whatever characters a link id holds.
  lemma KeyIsInjective(l: LinkId, d: Day, m: LinkId, e: Day)
    requires KeyOf(l, d) == KeyOf(m, e)
    ensures l == m && d == e
  {
    FormatHasNoColon(d);
    FormatHasNoColon(e);
    LastColonSplits(l, d.Format(), m, e.Format());
    FormatIsInjective(d, e);
  }

  lemma LastColonSplits(l: string, f: string, m: string, g: string)
    requires l + ":" + f == m + ":" + g
    requires ':' !in f && ':' !in g
    ensures l == m && f == g
  {
    var key := l + ":" + f;
    assert key[|l|] == ':' && key[|m|] == ':';
    assert forall i :: |l| < i < |key| ==> key[i] == f[i - |l| - 1];
    assert forall i :: |m| < i < |key| ==> key[i] == g[i - |m| - 1];
    assert |l| == |m|;
    assert key[..|l|] == l && key[..|l|] == m;
    assert key[|l| + 1..] == f && key[|l| + 1..] == g;
  }

  // How many of the rows fall into a bucket, and how many of those are bots.
  function Tally(rows: seq<Row>, b: Bucket): Counter {
    if rows == [] then Counter(0, 0)
    else Tally(rows[..|rows| - 1], b).Plus(One(rows[|rows| - 1], b))
  }

  function One(r: Row, b: Bucket): Counter {
    if r.link == b.0 && r.day == b.1 then Counter(1, if r.bot then 1 else 0) else Counter(0, 0)
  }

  function Group(rows: seq<Row>): map<string, Aggregate> {
    if rows == [] then map[] else Added(Group(rows[..|rows| - 1]), rows[|rows| - 1])
  }

  function Added(counts: map<string, Aggregate>, r: Row): map<string, Aggregate> {
    var key := KeyOf(r.link, r.day);
    var a := if key in counts then counts[key] else Aggregate(r.link, r.day, 0, 0);
    counts[key := a.Plus(r.bot)]
  }

  // The map shows count c for bucket b: an entry if and only if the count is positive.
  ghost predicate Shows(counts: map<string, Aggregate>, b: Bucket, c: Counter) {
    var key := KeyOf(b.0, b.1);
    && (key in counts <==> c.clicks > 0)
    && (key in counts ==> counts[key] == Aggregate(b.0, b.1, c.clicks, c.bots))
    && c.bots <= c.clicks
  }

  lemma AddedShows(counts: map<string, Aggregate>, b: Bucket, c: Counter, r: Row)
    requires Shows(counts, b, c)
    ensures Shows(Added(counts, r), b, c.Plus(One(r, b)))
  {
    if KeyOf(r.link, r.day) == KeyOf(b.0, b.1) {
      KeyIsInjective(r.link, r.day, b.0, b.1);
    }
  }

  // The grouped map holds exactly the tally of every bucket, and nothing else.
  lemma {:induction false} GroupIsTally(rows: seq<Row>, b: Bucket)
    ensures Shows(Group(rows), b, Tally(rows, b))
  {
    if rows != [] {
      GroupIsTally(rows[..|rows| - 1], b);
      AddedShows(Group(rows[..|rows| - 1]), b, Tally(rows[..|rows| - 1], b), rows[|rows| - 1]);
    }
  }

  lemma {:induction false} GroupKeysNameTheirBucket(rows: seq<Row>)
    ensures forall k <- Group(rows) :: k == KeyOf(Group(rows)[k].link, Group(rows)[k].day)
  {
    if rows != [] {
      GroupKeysNameTheirBucket(rows[..|rows| - 1]);
    }
  }

  function Ids(rows: seq<Row>): seq<EventId> {
    if rows == [] then [] else Ids(rows[..|rows| - 1]) + [rows[|rows| - 1].id]
  }

  function IdSet(rows: seq<Row>): set<EventId> {
    if rows == [] then {} else IdSet(rows[..|rows| - 1]) + {rows[|rows| - 1].id}
  }

  lemma OneMoreRow(rows: seq<Row>, r: Row)
    ensures Group(rows + [r]) == Added(Group(rows), r)
    ensures Ids(rows + [r]) == Ids(rows) + [r.id]
  {
    assert (rows + [r])[..|rows|] == rows;
  }

  datatype ScanError = ScanError

  method ScanClickAggregates(cursor: Cursor)
    returns (r: Result<(seq<EventId>, map<string, Aggregate>), ScanError>)
    ensures r.Ok? <==> cursor.Clean()
    ensures r.Ok? ==> r.value == (Ids(Rows(cursor.fetches)), Group(Rows(cursor.fetches)))
  {
    var ids: seq<EventId> := [];
    var counts: map<string, Aggregate> := map[];
    for i := 0 to |cursor.fetches|
      invariant Scannable(cursor.fetches[..i])
      invariant ids == Ids(Rows(cursor.fetches[..i])) && counts == Group(Rows(cursor.fetches[..i]))
    {
      assert cursor.fetches[..i + 1][..i] == cursor.fetches[..i];
      if cursor.fetches[i].Unscannable? {
        EveryFetchScans(cursor.fetches);
        return Err(ScanError);
      }
      var row := cursor.fetches[i].row;
      OneMoreRow(Rows(cursor.fetches[..i]), row);
      ids := ids + [row.id];
      var key := KeyOf(row.link, row.day);
      var found := if key in counts then counts[key] else Aggregate(row.link, row.day, 0, 0);
      counts := counts[key := found.Plus(row.bot)];
    }
    if cursor.broken {
      return Err(ScanError);
    }
    assert cursor.fetches[..|cursor.fetches|] == cursor.fetches;
    return Ok((ids, counts));
  }
}
