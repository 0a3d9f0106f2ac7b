// The fetcher in front of the cache: the fast path, the chart switch, the request cap and
// the plausibility screen on what the command line tool returns.

module Fetching {
  import opened Rows
  import opened Timeframes
  import opened CacheModel
  import CacheTheorems
  import opened CacheStore
  import opened BarCaches
  import opened SourceSync
  import Serving

  datatype Feed = Feed(symbol: string, timeframe: string, tvSymbol: string)

  const MS_THRESHOLD := 1000000000000

  // Millisecond timestamps are recognised by the first row and floored to seconds.
  function InSeconds(rows: seq<Row>): seq<Row>
    requires rows != []
  {
    if rows[0].time > MS_THRESHOLD
    then seq(|rows|, i requires 0 <= i < |rows| => rows[i].(time := rows[i].time / 1000))
    else rows
  }

  function InMillis(rows: seq<Row>): seq<Row> {
    seq(|rows|, i requires 0 <= i < |rows| => rows[i].(time := rows[i].time * 1000))
  }

  lemma MillisUnchangedIff(rows: seq<Row>)
    ensures InMillis(rows) == rows <==> forall r :: r in rows ==> r.time == 0
  {
    var ms := InMillis(rows);
    if ms == rows {
      forall r | r in rows ensures r.time == 0 {
        var i :| 0 <= i < |rows| && rows[i] == r;
        assert ms[i].time == rows[i].time * 1000;
      }
    }
    if forall r :: r in rows ==> r.time == 0 {
      assert forall i :: 0 <= i < |rows| ==> ms[i] == rows[i];
    }
  }

  // Answers in seconds pass unchanged and answers in milliseconds are converted, exactly when
  // the oldest bar is later than 2001-09-09 01:46:40 UTC or there is nothing to convert: an
  // older millisecond answer is taken for seconds.
  lemma MillisRecognisedIff(rows: seq<Row>)
    requires rows != []
    ensures rows[0].time <= MS_THRESHOLD ==> InSeconds(rows) == rows
    ensures InSeconds(InMillis(rows)) == rows
            <==> rows[0].time > 1000000000 || forall r :: r in rows ==> r.time == 0
  {
    var ms := InMillis(rows);
    if rows[0].time * 1000 > MS_THRESHOLD {
      assert forall i :: 0 <= i < |rows| ==> InSeconds(ms)[i] == rows[i];
    } else {
      MillisUnchangedIff(rows);
    }
  }

  // A tool answer is used only if it is non-empty and every close is plausible.
  function Screen(symbol: string, f: Fetch): Fetch {
    if f.Failed? || f.rows == [] then Failed
    else
      var rows := InSeconds(f.rows);
      if exists r :: r in rows && !Plausible(symbol, r.close) then Failed else Fetched(rows)
  }

  // An answer gets through the screen exactly when the tool answered with rows, all of them
  // plausible; it is asked for at most 500 bars.
  lemma ScreenedIs(symbol: string, tool: Source, attempt: nat, count: int)
    ensures var raw := tool(attempt, if count < 500 then count else 500);
            var f := Screened(symbol, tool)(attempt, count);
            && (f.Fetched? <==> raw.Fetched? && raw.rows != [] && forall r :: r in raw.rows ==> Plausible(symbol, r.close))
            && (f.Fetched? ==> f.rows == InSeconds(raw.rows))
  {
    var raw := tool(attempt, Min(count, MAX_FETCH));
    if raw.Fetched? && raw.rows != [] { SameCloses(raw.rows); }
  }

  lemma SameCloses(rows: seq<Row>)
    requires rows != []
    ensures forall r :: r in InSeconds(rows) ==> exists q :: q in rows && q.close == r.close
    ensures forall q :: q in rows ==> exists r :: r in InSeconds(rows) && r.close == q.close
  {
    var out := InSeconds(rows);
    forall r | r in out ensures exists q :: q in rows && q.close == r.close {
      var i :| 0 <= i < |out| && out[i] == r;
      assert rows[i] in rows;
    }
    forall q | q in rows ensures exists r :: r in out && r.close == q.close {
      var i :| 0 <= i < |rows| && rows[i] == q;
      assert out[i] in out;
    }
  }

  function Screened(symbol: string, tool: Source): Source {
    (attempt: nat, count: int) => Screen(symbol, tool(attempt, Min(count, MAX_FETCH)))
  }

  // A tool that serves the newest n slots in seconds, each close plausible, is an honest
  // source once capped and screened.
  ghost predicate HonestTool(tool: Source, attempt: nat, symbol: string, g: Grid, slot: int, finals: Finals) {
    forall n: int {:trigger tool(attempt, n)} :: n >= 1 && tool(attempt, n).Fetched? ==>
      && ServesNewest(tool(attempt, n).rows, n, g, slot, finals)
      && (forall r :: r in tool(attempt, n).rows ==> r.time <= MS_THRESHOLD && Plausible(symbol, r.close))
  }

  lemma ScreenedToolIsHonest(tool: Source, attempt: nat, symbol: string, g: Grid, slot: int, finals: Finals)
    requires HonestTool(tool, attempt, symbol, g, slot, finals)
    ensures HonestAt(Screened(symbol, tool), attempt, g, slot, finals)
    ensures forall count: int {:trigger tool(attempt, Min(count, MAX_FETCH))} :: count >= 1 ==>
              (Screened(symbol, tool)(attempt, count).Fetched? <==> tool(attempt, Min(count, MAX_FETCH)).Fetched?)
  {
    forall count: int | count >= 1
      ensures Screened(symbol, tool)(attempt, count) == tool(attempt, Min(count, MAX_FETCH))
    {
      var f := tool(attempt, Min(count, MAX_FETCH));
      if f.Fetched? {
        assert f.rows[0] in f.rows;
      }
    }
  }

  // What the fetcher believes the chart shows.
  datatype Chart = Chart(tvSymbol: string, timeframe: string)

  // What the outside world does during one fetch: the clock at the freshness check, whether
  // the pinned tab can be focused and the chart switched, the tool's answers, and the two
  // clock readings of the cache.
  datatype FetchEnv = FetchEnv(now: real, tabReady: bool, switchOk: bool, tool: Source, t0: int, t1: int)

  function ChartOf(feed: Feed): Chart { Chart(feed.tvSymbol, feed.timeframe) }

  predicate Fresh(s: Store, feed: Feed, g: Grid, now: real) {
    match Serving.LatestBarTs(s, DefaultKey(feed.symbol, feed.timeframe))
    case None => false
    case Some(last) => now - last as real < (2 * g.secs) as real
  }

  // answer is None when the fetch raised.
  datatype Outcome = Outcome(store: Store, chart: Chart, answer: Option<seq<Row>>)

  function FetchAt(s: Store, chart: Chart, feed: Feed, count: nat, env: FetchEnv): Outcome {
    var k := DefaultKey(feed.symbol, feed.timeframe);
    match GridOf(feed.timeframe)
    case None => Outcome(s, chart, None)
    case Some(g) =>
      if Fresh(s, feed, g, env.now) then Outcome(s, chart, Some(Newest(At(s, k).bars, count)))
      else if !env.tabReady || (chart != ChartOf(feed) && !env.switchOk) then Outcome(s, chart, None)
      else PolledOutcome(s, feed, g, count, env)
  }

  // The slow path, once the chart shows the feed.
  function PolledOutcome(s: Store, feed: Feed, g: Grid, count: nat, env: FetchEnv): Outcome {
    var k := DefaultKey(feed.symbol, feed.timeframe);
    var r := CacheModel.GetBars(At(s, k), feed.symbol, g, count, Screened(feed.symbol, env.tool), env.t0, env.t1);
    Outcome(Put(s, k, r.st), ChartOf(feed), r.answer)
  }

  lemma FreshIs(s: Store, feed: Feed, g: Grid, now: real)
    ensures var k := DefaultKey(feed.symbol, feed.timeframe);
            Fresh(s, feed, g, now) <==> k in s.meta && now - s.meta[k].lastBarTs as real < (2 * g.secs) as real
  {
  }

  // Every fetch is one of the cache commands, or none.
  lemma FetchIsACommand(s: Store, chart: Chart, feed: Feed, count: nat, env: FetchEnv)
    ensures var s' := FetchAt(s, chart, feed, count, env).store;
            s' == s || s' == GetBarsAt(s, feed.symbol, feed.timeframe, count, Screened(feed.symbol, env.tool), env.t0, env.t1)
  {
  }

  // A fetch that answers returns the newest stored bars, one that raises changes no table,
  // and a table only changes while the chart is known to show the feed.
  lemma FetchAnswersFromStore(s: Store, chart: Chart, feed: Feed, count: nat, env: FetchEnv)
    requires StoreInv(s)
    ensures var o := FetchAt(s, chart, feed, count, env);
            && (o.answer.None? ==> o.store == s)
            && (o.store != s ==> o.chart == ChartOf(feed))
            && (o.chart == chart || o.chart == ChartOf(feed))
            && (o.answer.Some? ==> o.answer.value == Newest(At(o.store, DefaultKey(feed.symbol, feed.timeframe)).bars, count))
  {
    var k := DefaultKey(feed.symbol, feed.timeframe);
    PutSame(s, k);
    if GridOf(feed.timeframe).Some? {
      var r := CacheModel.GetBars(At(s, k), feed.symbol, GridOf(feed.timeframe).value, count,
                                  Screened(feed.symbol, env.tool), env.t0, env.t1);
      PutAt(s, k, r.st);
    }
  }

  // Below two bar widths past the stored last_bar_ts a fetch is answered from the tables,
  // whatever the tab, the chart and the tool do.
  lemma FetchServesFresh(s: Store, chart: Chart, feed: Feed, g: Grid, count: nat, env: FetchEnv)
    requires GridOf(feed.timeframe) == Some(g)
    requires DefaultKey(feed.symbol, feed.timeframe) in s.meta
    requires env.now - s.meta[DefaultKey(feed.symbol, feed.timeframe)].lastBarTs as real < (2 * g.secs) as real
    ensures FetchAt(s, chart, feed, count, env)
            == Outcome(s, chart, Some(Newest(At(s, DefaultKey(feed.symbol, feed.timeframe)).bars, count)))
  {
    FreshIs(s, feed, g, env.now);
  }

  // At or past two widths, or with nothing stored, a fetch that can focus its tab and shows or
  // reaches its chart is the validated fetch of the screened tool: it writes what that writes,
  // leaves the chart on the feed, and raises exactly when the source does.
  lemma FetchPolls(s: Store, chart: Chart, feed: Feed, g: Grid, count: nat, env: FetchEnv)
    requires GridOf(feed.timeframe) == Some(g)
    requires var k := DefaultKey(feed.symbol, feed.timeframe);
             k in s.meta ==> env.now - s.meta[k].lastBarTs as real >= (2 * g.secs) as real
    requires env.tabReady && (chart == Chart(feed.tvSymbol, feed.timeframe) || env.switchOk)
    ensures var k := DefaultKey(feed.symbol, feed.timeframe);
            var source := Screened(feed.symbol, env.tool);
            var o := FetchAt(s, chart, feed, count, env);
            && o.store == GetBarsAt(s, feed.symbol, feed.timeframe, count, source, env.t0, env.t1)
            && o.chart == Chart(feed.tvSymbol, feed.timeframe)
            && (o.answer.None? <==> Offered(At(s, k), g, count, source, env.t0).Failed?)
            && (o.answer.Some? ==> o.answer.value == Newest(At(o.store, k).bars, count))
  {
    FreshIs(s, feed, g, env.now);
    assert FetchAt(s, chart, feed, count, env) == PolledOutcome(s, feed, g, count, env);
    PolledIs(s, feed, g, count, env);
  }

  lemma PolledIs(s: Store, feed: Feed, g: Grid, count: nat, env: FetchEnv)
    requires GridOf(feed.timeframe) == Some(g)
    ensures var k := DefaultKey(feed.symbol, feed.timeframe);
            var source := Screened(feed.symbol, env.tool);
            var o := PolledOutcome(s, feed, g, count, env);
            && o.store == GetBarsAt(s, feed.symbol, feed.timeframe, count, source, env.t0, env.t1)
            && o.chart == Chart(feed.tvSymbol, feed.timeframe)
            && (o.answer.None? <==> Offered(At(s, k), g, count, source, env.t0).Failed?)
            && (o.answer.Some? ==> o.answer.value == Newest(At(o.store, k).bars, count))
  {
    var k := DefaultKey(feed.symbol, feed.timeframe);
    PutAt(s, k, CacheModel.GetBars(At(s, k), feed.symbol, g, count, Screened(feed.symbol, env.tool), env.t0, env.t1).st);
  }

  // In every other case it raises and nothing changes.
  lemma FetchRaises(s: Store, chart: Chart, feed: Feed, count: nat, env: FetchEnv)
    requires GridOf(feed.timeframe).Some? ==>
               && (var k := DefaultKey(feed.symbol, feed.timeframe);
                   k in s.meta ==> env.now - s.meta[k].lastBarTs as real >= (2 * GridOf(feed.timeframe).value.secs) as real)
               && !(env.tabReady && (chart == Chart(feed.tvSymbol, feed.timeframe) || env.switchOk))
    ensures FetchAt(s, chart, feed, count, env) == Outcome(s, chart, None)
  {
    if GridOf(feed.timeframe).Some? { FreshIs(s, feed, GridOf(feed.timeframe).value, env.now); }
  }

  // While the fast path serves a feed, no batch whatsoever could have added a later bar at
  // that time: the skipped poll loses nothing.
  lemma FastPathLosesNothing(s: Store, feed: Feed, g: Grid, now: real, rows: seq<Row>)
    requires StoreInv(s) && GridOf(feed.timeframe) == Some(g)
    requires Fresh(s, feed, g, now)
    ensures var st := At(s, DefaultKey(feed.symbol, feed.timeframe));
            st.meta.Some? && !CacheTheorems.AddsLaterBar(st, feed.symbol, g, rows, now.Floor)
  {
    var k := DefaultKey(feed.symbol, feed.timeframe);
    AtInv(s, k);
    assert now.Floor as real <= now;
    CacheTheorems.NothingLaterBeforeTwoWidths(At(s, k), feed.symbol, g, rows, now.Floor);
  }

  class DataFetcher {
    const cache: BarCache
    const barsToFetch: nat
    var chart: Chart

    constructor (cache: BarCache, barsToFetch: nat, primary: Feed)
      ensures this.cache == cache && this.barsToFetch == barsToFetch && chart == ChartOf(primary)
    {
      this.cache, this.barsToFetch, this.chart := cache, barsToFetch, ChartOf(primary);
    }

    method Fetch(feed: Feed, env: FetchEnv) returns (answer: Result<seq<Row>>)
      requires cache.Valid()
      modifies this, cache
      ensures cache.Valid()
      ensures var o := FetchAt(old(cache.Tables()), old(chart), feed, barsToFetch, env);
              && cache.Tables() == o.store && chart == o.chart
              && (answer.Ok? <==> o.answer.Some?) && (answer.Ok? ==> answer.value == o.answer.value)
    {
      if GridOf(feed.timeframe).None? {
        return Err(UnknownTimeframe);
      }
      var k := DefaultKey(feed.symbol, feed.timeframe);
      if Fresh(cache.Tables(), feed, GridOf(feed.timeframe).value, env.now) {
        return Ok(Newest(At(cache.Tables(), k).bars, barsToFetch));
      }
      if !env.tabReady {
        return Err(FetchFailed);
      }
      if chart != ChartOf(feed) {
        if !env.switchOk {
          return Err(FetchFailed);
        }
        chart := ChartOf(feed);
      }
      answer := cache.GetBars(feed.symbol, feed.timeframe, barsToFetch, Screened(feed.symbol, env.tool), env.t0, env.t1);
    }
  }
}
