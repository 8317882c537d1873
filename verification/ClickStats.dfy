// What the statistics queries report from the daily counters.
module ClickStats {
  import opened Common
  import opened Calendar
  import opened ClickScan
  import opened ClickRollup

  datatype LinkRow = LinkRow(owner: Option<string>, deleted: bool)
  datatype TrendPoint = TrendPoint(day: Day, clicks: int)

  // deleted_at IS NULL AND ($owner IS NULL OR user_id = $owner)
  function Live(links: map<LinkId, LinkRow>, owner: Option<string>): set<LinkId> {
    set l | l in links && !links[l].deleted && (owner == None || links[l].owner == owner)
  }

  // clickCount: the expression a statistic sums.
  function Shown(c: Counter, countBots: bool): int {
    if countBots then c.clicks else c.clicks - c.bots
  }

  function Seen(events: map<EventId, Event>, links: set<LinkId>, day: Day, countBots: bool): set<EventId> {
    set id | id in events && events[id].processed && events[id].link in links && events[id].day == day &&
             (countBots || !events[id].bot)
  }

  // Hiding bots needs no recomputation: what remains is the number of processed non-bot events.
  lemma ShownIsACount(s: State, link: LinkId, day: Day, countBots: bool)
    requires Inv(s)
    ensures Shown(At(s.daily, (link, day)), countBots) == |Seen(s.events, {link}, day, countBots)| >= 0
  {
    var b := (link, day);
    assert At(s.daily, b) == Truth(s.events, b);
    BotsAreSubtracted(s.events, link, day, countBots);
  }

  lemma BotsAreSubtracted(events: map<EventId, Event>, link: LinkId, day: Day, countBots: bool)
    ensures |Seen(events, {link}, day, countBots)| ==
            |Counted(events, (link, day), false)| - if countBots then 0 else |Counted(events, (link, day), true)|
  {
    var all, bots := Counted(events, (link, day), false), Counted(events, (link, day), true);
    if countBots {
      assert Seen(events, {link}, day, true) == all;
    } else {
      assert Seen(events, {link}, day, false) == all - bots;
      assert bots <= all && |all| == |all - bots| + |all * bots|;
      assert all * bots == bots;
    }
  }

  ghost function Pick(links: set<LinkId>): (l: LinkId)
    requires links != {}
    ensures l in links
  {
    var l :| l in links; l
  }

  // SUM over the daily rows of one day that join to the given links.
  ghost function DaySum(daily: map<Bucket, Counter>, links: set<LinkId>, day: Day, countBots: bool): int {
    if links == {} then 0
    else Shown(At(daily, (Pick(links), day)), countBots) + DaySum(daily, links - {Pick(links)}, day, countBots)
  }

  lemma {:induction false} DaySumIsACount(s: State, links: set<LinkId>, day: Day, countBots: bool)
    requires Inv(s)
    ensures DaySum(s.daily, links, day, countBots) == |Seen(s.events, links, day, countBots)|
  {
    if links == {} {
      assert Seen(s.events, links, day, countBots) == {};
    } else {
      var l := Pick(links);
      DaySumIsACount(s, links - {l}, day, countBots);
      ShownIsACount(s, l, day, countBots);
      SeenSplits(s.events, links, l, day, countBots);
    }
  }

  lemma SeenSplits(events: map<EventId, Event>, links: set<LinkId>, l: LinkId, day: Day, countBots: bool)
    requires l in links
    ensures |Seen(events, links, day, countBots)| ==
            |Seen(events, links - {l}, day, countBots)| + |Seen(events, {l}, day, countBots)|
  {
    assert Seen(events, links, day, countBots) ==
           Seen(events, links - {l}, day, countBots) + Seen(events, {l}, day, countBots);
    assert Seen(events, links - {l}, day, countBots) !! Seen(events, {l}, day, countBots);
  }

  // Processed events of the links in [from, to).
  function SeenIn(events: map<EventId, Event>, links: set<LinkId>, from: Day, to: Day, countBots: bool): set<EventId> {
    set id | id in events && events[id].processed && events[id].link in links &&
             !events[id].day.Before(from) && events[id].day.Before(to) && (countBots || !events[id].bot)
  }

  // What the grouped query answers: one row for each day in range with a daily row, in any order.
  ghost predicate Answers(rows: seq<TrendPoint>, daily: map<Bucket, Counter>, links: set<LinkId>,
                          from: Day, to: Day, countBots: bool) {
    && (forall i :: 0 <= i < |rows| ==> rows[i].clicks == DaySum(daily, links, rows[i].day, countBots))
    && (forall b <- daily :: b.0 in links && !b.1.Before(from) && b.1.Before(to) ==>
          exists i :: 0 <= i < |rows| && rows[i].day == b.1)
  }

  // One point for every calendar day in [from, to), in order.
  ghost function Trend(daily: map<Bucket, Counter>, links: set<LinkId>, from: Day, to: Day, countBots: bool):
    seq<TrendPoint>
    decreases (to.Ordinal() - from.Ordinal())
  {
    OrderIsOrdinal(from, to);
    NextAddsOne(from);
    if !from.Before(to) then []
    else [TrendPoint(from, DaySum(daily, links, from, countBots))] + Trend(daily, links, from.Next(), to, countBots)
  }

  ghost function Total(points: seq<TrendPoint>): int {
    if points == [] then 0 else points[0].clicks + Total(points[1..])
  }

  // The headline number is the number of processed events of the caller's links in [from, to).
  lemma {:induction false} TrendTotalIsACount(s: State, links: set<LinkId>, from: Day, to: Day, countBots: bool)
    requires Inv(s)
    ensures Total(Trend(s.daily, links, from, to, countBots)) == |SeenIn(s.events, links, from, to, countBots)|
    decreases (to.Ordinal() - from.Ordinal())
  {
    OrderIsOrdinal(from, to);
    NextAddsOne(from);
    if !from.Before(to) {
      NothingBetween(s.events, links, from, to, countBots);
    } else {
      TrendTotalIsACount(s, links, from.Next(), to, countBots);
      DaySumIsACount(s, links, from, countBots);
      RangeSplits(s.events, links, from, to, countBots);
    }
  }

  lemma NothingBetween(events: map<EventId, Event>, links: set<LinkId>, from: Day, to: Day, countBots: bool)
    requires !from.Before(to)
    ensures SeenIn(events, links, from, to, countBots) == {}
  {
  }

  lemma FirstDayOrLater(d: Day, from: Day)
    ensures !d.Before(from) <==> d == from || !d.Before(from.Next())
    ensures from.Before(from.Next())
  {
    NextAddsOne(from);
    OrderIsOrdinal(d, from);
    OrderIsOrdinal(d, from.Next());
    OrderIsOrdinal(from, from.Next());
  }

  lemma RangeSplits(events: map<EventId, Event>, links: set<LinkId>, from: Day, to: Day, countBots: bool)
    requires from.Before(to)
    ensures |SeenIn(events, links, from, to, countBots)| ==
            |Seen(events, links, from, countBots)| + |SeenIn(events, links, from.Next(), to, countBots)|
  {
    forall d: Day
      ensures !d.Before(from) <==> d == from || !d.Before(from.Next())
    {
      FirstDayOrLater(d, from);
    }
    FirstDayOrLater(from, from);
    assert SeenIn(events, links, from, to, countBots) ==
           Seen(events, links, from, countBots) + SeenIn(events, links, from.Next(), to, countBots);
    assert Seen(events, links, from, countBots) !! SeenIn(events, links, from.Next(), to, countBots);
  }

  lemma {:induction false} NoRowsNoClicks(daily: map<Bucket, Counter>, links: set<LinkId>, day: Day, countBots: bool)
    requires forall l <- links :: (l, day) !in daily
    ensures DaySum(daily, links, day, countBots) == 0
  {
    if links != {} {
      NoRowsNoClicks(daily, links - {Pick(links)}, day, countBots);
    }
  }

  // One point for each day of the range, in order, with that day's processed clicks.
  lemma {:induction false} TrendPoints(s: State, links: set<LinkId>, from: Day, to: Day, countBots: bool, i: nat)
    requires Inv(s)
    ensures var points := Trend(s.daily, links, from, to, countBots);
      && |points| == (if from.Ordinal() < to.Ordinal() then to.Ordinal() - from.Ordinal() else 0)
      && (i < |points| ==>
            && points[i].day.Ordinal() == from.Ordinal() + i
            && points[i].clicks == |Seen(s.events, links, points[i].day, countBots)|)
    decreases (to.Ordinal() - from.Ordinal())
  {
    OrderIsOrdinal(from, to);
    NextAddsOne(from);
    if from.Before(to) {
      DaySumIsACount(s, links, from, countBots);
      TrendPoints(s, links, from.Next(), to, countBots, if i == 0 then 0 else i - 1);
    }
  }

  method IndexByDay(rows: seq<TrendPoint>) returns (byDay: map<string, int>)
    ensures Indexed(byDay, rows)
  {
    byDay := map[];
    for i := 0 to |rows|
      invariant Indexed(byDay, rows[..i])
    {
      assert rows[..i + 1] == rows[..i] + [rows[i]];
      IndexOneMore(byDay, rows[..i], rows[i]);
      byDay := byDay[rows[i].day.Format() := rows[i].clicks];
    }
    assert rows[..|rows|] == rows;
  }

  // Rows keyed by their formatted day, then one point per day of the range, zero when absent.
  method GlobalTrend(rows: seq<TrendPoint>, ghost daily: map<Bucket, Counter>, ghost links: set<LinkId>,
                     from: Day, to: Day, countBots: bool) returns (points: seq<TrendPoint>)
    requires Answers(rows, daily, links, from, to, countBots)
    ensures points == Trend(daily, links, from, to, countBots)
  {
    var byDay := IndexByDay(rows);
    points := [];
    var day: Day := from;
    while day.Before(to)
      invariant !day.Before(from)
      invariant points + Trend(daily, links, day, to, countBots) == Trend(daily, links, from, to, countBots)
      decreases (to.Ordinal() - day.Ordinal())
    {
      NextInRange(from, day, to);
      var key := day.Format();
      var point := TrendPoint(day, if key in byDay then byDay[key] else 0);
      PointOfDay(byDay, rows, daily, links, from, to, day, countBots);
      PointsGrow(points, point, Trend(daily, links, day.Next(), to, countBots));
      points := points + [point];
      day := day.Next();
    }
  }

  lemma PointsGrow(points: seq<TrendPoint>, point: TrendPoint, rest: seq<TrendPoint>)
    ensures points + ([point] + rest) == (points + [point]) + rest
  {
  }

  lemma PointOfDay(byDay: map<string, int>, rows: seq<TrendPoint>, daily: map<Bucket, Counter>, links: set<LinkId>,
                   from: Day, to: Day, day: Day, countBots: bool)
    requires Answers(rows, daily, links, from, to, countBots) && Indexed(byDay, rows)
    requires !day.Before(from) && day.Before(to)
    ensures Trend(daily, links, day, to, countBots) ==
            [TrendPoint(day, if day.Format() in byDay then byDay[day.Format()] else 0)] +
            Trend(daily, links, day.Next(), to, countBots)
  {
    assert KeyHolds(byDay, rows, day);
    LookupIsSum(byDay, rows, daily, links, from, to, day, countBots);
  }

  lemma NextInRange(from: Day, day: Day, to: Day)
    requires !day.Before(from) && day.Before(to)
    ensures !day.Next().Before(from)
    ensures day.Ordinal() < day.Next().Ordinal() <= to.Ordinal()
  {
    NextAddsOne(day);
    OrderIsOrdinal(day, to);
    OrderIsOrdinal(day, from);
    OrderIsOrdinal(day.Next(), from);
  }

  ghost predicate Indexed(byDay: map<string, int>, rows: seq<TrendPoint>) {
    forall d: Day :: KeyHolds(byDay, rows, d)
  }

  lemma IndexOneMore(byDay: map<string, int>, rows: seq<TrendPoint>, row: TrendPoint)
    requires Indexed(byDay, rows)
    ensures Indexed(byDay[row.day.Format() := row.clicks], rows + [row])
  {
    var next, seen := byDay[row.day.Format() := row.clicks], rows + [row];
    forall d: Day
      ensures KeyHolds(next, seen, d)
    {
      OneMoreKey(byDay, rows, row, d);
    }
  }

  ghost predicate KeyHolds(byDay: map<string, int>, rows: seq<TrendPoint>, d: Day) {
    && (d.Format() in byDay <==> exists j :: 0 <= j < |rows| && rows[j].day == d)
    && (d.Format() in byDay ==> exists j :: 0 <= j < |rows| && rows[j].day == d && byDay[d.Format()] == rows[j].clicks)
  }

  lemma OneMoreKey(byDay: map<string, int>, rows: seq<TrendPoint>, row: TrendPoint, d: Day)
    requires KeyHolds(byDay, rows, d)
    ensures KeyHolds(byDay[row.day.Format() := row.clicks], rows + [row], d)
  {
    var more := rows + [row];
    assert more[|rows|] == row;
    if d.Format() == row.day.Format() {
      FormatIsInjective(d, row.day);
    } else if d.Format() in byDay {
      var j :| 0 <= j < |rows| && rows[j].day == d && byDay[d.Format()] == rows[j].clicks;
      assert more[j] == rows[j];
    } else {
      assert forall j :: 0 <= j < |rows| ==> rows[j] == more[j];
    }
  }

  lemma LookupIsSum(byDay: map<string, int>, rows: seq<TrendPoint>, daily: map<Bucket, Counter>, links: set<LinkId>,
                    from: Day, to: Day, day: Day, countBots: bool)
    requires Answers(rows, daily, links, from, to, countBots) && KeyHolds(byDay, rows, day)
    requires !day.Before(from) && day.Before(to)
    ensures (if day.Format() in byDay then byDay[day.Format()] else 0) == DaySum(daily, links, day, countBots)
  {
    if day.Format() !in byDay {
      forall l | l in links
        ensures (l, day) !in daily
      {
        assert (l, day) in daily ==> (l, day).0 in links && (l, day).1 == day;
      }
      NoRowsNoClicks(daily, links, day, countBots);
    }
  }

  // Overview reports the sum of its own chart, which is the number of counted events.
  method Overview(rows: seq<TrendPoint>, ghost s: State, ghost links: map<LinkId, LinkRow>, ghost owner: Option<string>,
                  from: Day, to: Day, countBots: bool) returns (trend: seq<TrendPoint>, rangeClicks: int)
    requires Inv(s) && Answers(rows, s.daily, Live(links, owner), from, to, countBots)
    ensures trend == Trend(s.daily, Live(links, owner), from, to, countBots)
    ensures rangeClicks == Total(trend)
    // The processed clicks of the caller's links that are not deleted, in [from, to), bots by choice.
    ensures rangeClicks == |set id | && id in s.events && s.events[id].processed
                                     && s.events[id].link in links && !links[s.events[id].link].deleted
                                     && (owner == None || links[s.events[id].link].owner == owner)
                                     && from.Ordinal() <= s.events[id].day.Ordinal() < to.Ordinal()
                                     && (countBots || !s.events[id].bot)|
  {
    trend := GlobalTrend(rows, s.daily, Live(links, owner), from, to, countBots);
    rangeClicks := 0;
    for i := 0 to |trend|
      invariant rangeClicks + Total(trend[i..]) == Total(trend)
    {
      rangeClicks := rangeClicks + trend[i].clicks;
    }
    TrendTotalIsACount(s, Live(links, owner), from, to, countBots);
    RangeIsOrdinal(s.events, links, owner, from, to, countBots);
  }

  lemma RangeIsOrdinal(events: map<EventId, Event>, links: map<LinkId, LinkRow>, owner: Option<string>,
                       from: Day, to: Day, countBots: bool)
    ensures SeenIn(events, Live(links, owner), from, to, countBots) ==
            set id | && id in events && events[id].processed
                     && events[id].link in links && !links[events[id].link].deleted
                     && (owner == None || links[events[id].link].owner == owner)
                     && from.Ordinal() <= events[id].day.Ordinal() < to.Ordinal()
                     && (countBots || !events[id].bot)
  {
    forall d: Day
      ensures !d.Before(from) && d.Before(to) <==> from.Ordinal() <= d.Ordinal() < to.Ordinal()
    {
      OrderIsOrdinal(d, from);
      OrderIsOrdinal(d, to);
    }
  }
}
