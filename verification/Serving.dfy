// The read side: provider resolution, the bounded reads and the readiness probe, as
// functions of the tables.

module Serving {
  import opened Rows
  import opened Timeframes
  import opened CacheModel
  import opened CacheStore

  const MAX_BARS := 5000

  // None: an unknown provider was asked for explicitly.
  function ResolveProvider(s: Store, symbol: string, timeframe: string, requested: string): Option<string> {
    if requested != "" then
      if requested == TRADINGVIEW || requested == YAHOO then Some(requested) else None
    else if Key(symbol, timeframe, TRADINGVIEW) in s.meta then Some(TRADINGVIEW)
    else if Key(symbol, timeframe, YAHOO) in s.meta then Some(YAHOO)
    else Some(DEFAULT_PROVIDER)
  }

  function BarCount(s: Store, k: Key): nat {
    if k in s.meta then s.meta[k].barCount else 0
  }

  function LatestBarTs(s: Store, k: Key): Option<int> {
    if k in s.meta then Some(s.meta[k].lastBarTs) else None
  }

  // The bars a range query matches.
  function Matching(bars: Series, fromTs: int, toTs: int): Series {
    map ts | ts in bars && fromTs <= ts <= toTs :: bars[ts]
  }

  // One row more than the limit is read to detect truncation; the newest ones are kept.
  function BarsInRange(bars: Series, fromTs: int, toTs: int, limit: nat): (seq<Row>, bool) {
    if toTs < fromTs then ([], false)
    else
      var rows := Newest(Matching(bars, fromTs, toTs), limit + 1);
      (rows[|rows| - Min(limit, |rows|)..], |rows| > limit)
  }

  // ---------------------------------------------------------------- request handlers

  function Clamp(requested: int, ifZero: int): nat {
    Max(1, Min(if requested == 0 then ifZero else requested, MAX_BARS))
  }

  function GetRecentBars(s: Store, symbol: string, timeframe: string, requested: string, count: int): Option<seq<Row>> {
    match ResolveProvider(s, symbol, timeframe, requested)
    case None => None
    case Some(p) => Some(Newest(At(s, Key(symbol, timeframe, p)).bars, Clamp(count, 300)))
  }

  function GetBarsInRange(s: Store, symbol: string, timeframe: string, requested: string, fromTs: int, toTs: int,
                          limit: int): Option<(seq<Row>, bool)>
  {
    match ResolveProvider(s, symbol, timeframe, requested)
    case None => None
    case Some(p) => Some(BarsInRange(At(s, Key(symbol, timeframe, p)).bars, fromTs, toTs, Clamp(limit, MAX_BARS)))
  }

  // The count a probe demands; 0 stands for the default.
  function Demanded(minBars: int): int {
    if minBars == 0 then 200 else minBars
  }

  datatype Health = Health(ready: bool, barsAvailable: nat, lastBarTs: int)

  function HealthCheck(s: Store, symbol: string, timeframe: string, requested: string, minBars: int): Option<Health> {
    match ResolveProvider(s, symbol, timeframe, requested)
    case None => None
    case Some(p) =>
      var k := Key(symbol, timeframe, p);
      Some(Health(BarCount(s, k) >= Demanded(minBars),
                  BarCount(s, k),
                  match LatestBarTs(s, k) case None => 0 case Some(t) => t))
  }

  // ---------------------------------------------------------------- what a read returns

  // rows are the newest n bars of the series, oldest first.
  ghost predicate IsNewest(rows: seq<Row>, bars: Series, n: nat) {
    && |rows| == n
    && Ascending(rows)
    && (forall r :: r in rows ==> r.time in bars && r == RowOf(r.time, bars[r.time]))
    && (forall ts, r :: ts in bars && ts !in Times(rows) && r in rows ==> ts < r.time)
  }

  lemma SuffixIsNewest(all: seq<Row>, cut: nat)
    requires Ascending(all) && cut <= |all|
    ensures Ascending(all[cut..])
    ensures forall q, r :: q in all && q.time !in Times(all[cut..]) && r in all[cut..] ==> q.time < r.time
  {
    var rows := all[cut..];
    forall i | cut <= i < |all| ensures all[i].time in Times(rows) {
      assert all[i] == rows[i - cut];
    }
    forall q, r | q in all && q.time !in Times(rows) && r in rows ensures q.time < r.time {
      var i :| 0 <= i < |all| && all[i] == q;
      var j :| 0 <= j < |rows| && rows[j] == r;
      assert i < cut && all[cut + j] == r;
    }
  }

  lemma RowsOfSize(bars: Series)
    ensures |RowsOf(bars)| == |bars|
  {
    assert RowsOf(bars).Keys == bars.Keys;
    assert |RowsOf(bars)| == |RowsOf(bars).Keys| && |bars| == |bars.Keys|;
  }

  // all enumerates the series.
  ghost predicate Enumerates(all: seq<Row>, bars: Series) {
    && Ascending(all)
    && (forall r :: r in all ==> r.time in bars && r == RowOf(r.time, bars[r.time]))
    && (forall ts :: ts in bars ==> RowOf(ts, bars[ts]) in all)
  }

  lemma SortedEnumerates(bars: Series)
    ensures Enumerates(Sorted(RowsOf(bars)), bars)
  {
    SortedAscending(RowsOf(bars));
    SortedMembers(RowsOf(bars));
    forall ts | ts in bars ensures RowOf(ts, bars[ts]) in Sorted(RowsOf(bars)) {
      assert RowsOf(bars)[ts] == RowOf(ts, bars[ts]);
    }
  }

  lemma SuffixOfEnumeration(all: seq<Row>, bars: Series, n: nat)
    requires Enumerates(all, bars) && n <= |all|
    ensures IsNewest(all[|all| - n..], bars, n)
  {
    var rows := all[|all| - n..];
    SuffixIsNewest(all, |all| - n);
    assert forall r :: r in rows ==> r in all;
    forall ts, r | ts in bars && ts !in Times(rows) && r in rows ensures ts < r.time {
      assert RowOf(ts, bars[ts]) in all;
    }
  }

  lemma LastOfEnumeration(all: seq<Row>, bars: Series, count: nat)
    requires Enumerates(all, bars) && |all| == |bars|
    ensures IsNewest(all[|all| - Min(count, |all|)..], bars, Min(count, |bars|))
  {
    SuffixOfEnumeration(all, bars, Min(count, |all|));
  }

  lemma NewestIs(bars: Series, count: nat)
    ensures IsNewest(Newest(bars, count), bars, Min(count, |bars|))
  {
    RowsOfSize(bars);
    SortedEnumerates(bars);
    LastOfEnumeration(Sorted(RowsOf(bars)), bars, count);
  }

  lemma TakeLastTwice(all: seq<Row>, n: nat)
    ensures var rows := all[|all| - Min(n + 1, |all|)..];
            && (|rows| > n <==> |all| > n)
            && rows[|rows| - Min(n, |rows|)..] == all[|all| - Min(n, |all|)..]
  {
  }

  lemma RangeIsNewest(bars: Series, fromTs: int, toTs: int, limit: nat)
    requires fromTs <= toTs
    ensures var m := Matching(bars, fromTs, toTs);
            BarsInRange(bars, fromTs, toTs, limit) == (Newest(m, limit), |m| > limit)
  {
    var m := Matching(bars, fromTs, toTs);
    RowsOfSize(m);
    TakeLastTwice(Sorted(RowsOf(m)), limit);
  }

  // A range read returns the newest `limit` bars of those that match, oldest first, and
  // reports truncation exactly when more matched.
  lemma BarsInRangeIs(bars: Series, fromTs: int, toTs: int, limit: nat)
    ensures var m := Matching(bars, fromTs, toTs);
            var (rows, truncated) := BarsInRange(bars, fromTs, toTs, limit);
            && IsNewest(rows, m, Min(limit, |m|))
            && (truncated <==> |m| > limit)
  {
    if toTs < fromTs {
      assert Matching(bars, fromTs, toTs) == map[];
    } else {
      RangeIsNewest(bars, fromTs, toTs, limit);
      NewestIs(Matching(bars, fromTs, toTs), limit);
    }
  }

  // What the range request answers: nothing for an unknown provider asked for by name, else
  // the newest matching bars of the resolved provider up to the clamped limit (0 stands for
  // the cap), and whether any were left out.
  lemma RangeAnswerIs(s: Store, symbol: string, timeframe: string, requested: string, fromTs: int, toTs: int, limit: int)
    ensures var answer := GetBarsInRange(s, symbol, timeframe, requested, fromTs, toTs, limit);
            && (answer.None? <==> requested !in {"", TRADINGVIEW, YAHOO})
            && (answer.Some? ==>
                  var k := Key(symbol, timeframe, ResolveProvider(s, symbol, timeframe, requested).value);
                  var m := Matching(At(s, k).bars, fromTs, toTs);
                  var n := if limit == 0 then 5000 else Max(1, Min(limit, 5000));
                  && IsNewest(answer.value.0, m, Min(n, |m|))
                  && (answer.value.1 <==> |m| > n))
  {
    var p := ResolveProvider(s, symbol, timeframe, requested);
    if p.Some? {
      BarsInRangeIs(At(s, Key(symbol, timeframe, p.value)).bars, fromTs, toTs, Clamp(limit, MAX_BARS));
    }
  }

  // A provider asked for by name is the one served; unasked, TradingView if it has the series,
  // else Yahoo if it has, else TradingView.
  lemma ResolveIs(s: Store, symbol: string, timeframe: string, requested: string)
    ensures requested in {"tradingview", "yahoo"} ==> ResolveProvider(s, symbol, timeframe, requested) == Some(requested)
    ensures requested !in {"", "tradingview", "yahoo"} ==> ResolveProvider(s, symbol, timeframe, requested) == None
    ensures ResolveProvider(s, symbol, timeframe, "")
            == Some(if Key(symbol, timeframe, "tradingview") !in s.meta && Key(symbol, timeframe, "yahoo") in s.meta
                    then "yahoo" else "tradingview")
  {
  }

  // A range answer holds stored bars of the range, and every one of them unless truncated.
  lemma RangeHolds(bars: Series, fromTs: int, toTs: int, limit: nat)
    ensures var (rows, truncated) := BarsInRange(bars, fromTs, toTs, limit);
            && (forall r :: r in rows ==> fromTs <= r.time <= toTs && r.time in bars && r == RowOf(r.time, bars[r.time]))
            && (!truncated ==> forall ts :: ts in bars && fromTs <= ts <= toTs ==> RowOf(ts, bars[ts]) in rows)
  {
    BarsInRangeIs(bars, fromTs, toTs, limit);
    var (rows, truncated) := BarsInRange(bars, fromTs, toTs, limit);
    var m := Matching(bars, fromTs, toTs);
    if !truncated {
      forall ts | ts in bars && fromTs <= ts <= toTs ensures RowOf(ts, bars[ts]) in rows {
        assert ts in m;
        WholeSeries(rows, m, ts);
      }
    }
  }

  // As many distinct rows of a series as it has bars are all of them.
  lemma WholeSeries(rows: seq<Row>, m: Series, ts: int)
    requires IsNewest(rows, m, |m|) && ts in m
    ensures RowOf(ts, m[ts]) in rows
  {
    AscendingTimes(rows);
    assert Times(rows) <= m.Keys;
    SameSize(Times(rows), m.Keys);
    assert ts in Times(rows);
  }

  lemma SameSize(a: set<int>, b: set<int>)
    requires a <= b && |a| == |b|
    ensures a == b
  {
    assert b == a + (b - a);
  }

  lemma {:induction false} AscendingTimes(rows: seq<Row>)
    requires Ascending(rows)
    ensures |Times(rows)| == |rows|
  {
    if rows == [] {
      assert Times(rows) == {};
    } else {
      var init, last := rows[..|rows| - 1], rows[|rows| - 1];
      AscendingTimes(init);
      assert forall r :: r in init ==> r.time < last.time;
      assert forall r :: r in rows <==> r in init || r == last;
      assert Times(rows) == Times(init) + {last.time};
    }
  }

  // What the recent-bars request answers: a count below 1 is 1, above 5000 is 5000, and 0
  // stands for 300.
  lemma RecentAnswerIs(s: Store, symbol: string, timeframe: string, requested: string, count: int)
    ensures var answer := GetRecentBars(s, symbol, timeframe, requested, count);
            var p := ResolveProvider(s, symbol, timeframe, requested);
            && (answer.None? <==> p.None?)
            && (answer.Some? ==>
                  var bars := At(s, Key(symbol, timeframe, p.value)).bars;
                  var n := if count == 0 then 300 else if count < 1 then 1 else if count > 5000 then 5000 else count;
                  IsNewest(answer.value, bars, Min(n, |bars|)))
  {
    var p := ResolveProvider(s, symbol, timeframe, requested);
    if p.Some? {
      NewestIs(At(s, Key(symbol, timeframe, p.value)).bars, Clamp(count, 300));
    }
  }

  // What the probe reports: how many bars are stored, the newest written timestamp or 0, and
  // whether there are as many as asked for, 200 if nothing is asked.
  lemma ProbeReports(s: Store, symbol: string, timeframe: string, requested: string, minBars: int)
    requires StoreInv(s)
    ensures var answer := HealthCheck(s, symbol, timeframe, requested, minBars);
            var p := ResolveProvider(s, symbol, timeframe, requested);
            && (answer.None? <==> p.None?)
            && (answer.Some? ==>
                  var k := Key(symbol, timeframe, p.value);
                  var bars := At(s, k).bars;
                  && answer.value.barsAvailable == |bars|
                  && answer.value.lastBarTs == (if k in s.meta then s.meta[k].lastBarTs else 0)
                  && (answer.value.ready <==> |bars| >= if minBars == 0 then 200 else minBars))
  {
    var p := ResolveProvider(s, symbol, timeframe, requested);
    if p.Some? { CountIsSize(s, Key(symbol, timeframe, p.value)); }
  }

  // ---------------------------------------------------------------- readiness

  // With no provider asked for, whenever any known provider has bars so does the resolved one.
  lemma ResolvedHasBars(s: Store, symbol: string, timeframe: string, p: string)
    requires StoreInv(s)
    requires p == TRADINGVIEW || p == YAHOO
    requires At(s, Key(symbol, timeframe, p)).bars != map[]
    ensures var r := ResolveProvider(s, symbol, timeframe, "");
            r.Some? && At(s, Key(symbol, timeframe, r.value)).bars != map[]
  {
    var k := Key(symbol, timeframe, p);
    AtInvOf(s, k);
    var r := ResolveProvider(s, symbol, timeframe, "").value;
    assert Key(symbol, timeframe, r) in s.meta;
    AtInvOf(s, Key(symbol, timeframe, r));
  }

  // Ready means data: a positive verdict for min_bars within the read cap is redeemed by the
  // very next recent-bars request.
  lemma ReadyMeansBars(s: Store, symbol: string, timeframe: string, requested: string, minBars: int)
    requires StoreInv(s) && 1 <= minBars <= MAX_BARS
    requires HealthCheck(s, symbol, timeframe, requested, minBars).Some?
    requires HealthCheck(s, symbol, timeframe, requested, minBars).value.ready
    ensures var p := ResolveProvider(s, symbol, timeframe, requested).value;
            var answer := GetRecentBars(s, symbol, timeframe, requested, minBars);
            answer.Some? && IsNewest(answer.value, At(s, Key(symbol, timeframe, p)).bars, minBars)
  {
    var k := Key(symbol, timeframe, ResolveProvider(s, symbol, timeframe, requested).value);
    CountIsSize(s, k);
    assert Clamp(minBars, 300) == minBars;
    NewestIs(At(s, k).bars, minBars);
  }

  lemma CountIsSize(s: Store, k: Key)
    requires StoreInv(s)
    ensures BarCount(s, k) == |At(s, k).bars|
  {
    AtInvOf(s, k);
  }

  lemma CardinalityMonotone(a: set<int>, b: set<int>)
    requires a <= b
    ensures |a| <= |b|
  {
    assert b == a + (b - a);
  }

  ghost predicate NoInvalidate(cs: seq<Command>) {
    forall c :: c in cs ==> !c.Invalidate?
  }

  lemma BarCountNeverDrops(s: Store, cs: seq<Command>, k: Key)
    requires StoreInv(s)
    requires NoInvalidate(cs)
    ensures BarCount(s, k) <= BarCount(Run(s, cs), k)
    ensures k in s.meta ==> k in Run(s, cs).meta
  {
    RunKeepsInv(s, cs);
    RunNeverLosesBars(s, cs, k);
    AtInvOf(s, k);
    AtInvOf(Run(s, cs), k);
    CardinalityMonotone(At(s, k).bars.Keys, At(Run(s, cs), k).bars.Keys);
  }

  // For a fixed explicit provider readiness never reverts along a run without invalidation.
  lemma ReadyNeverReverts(s: Store, cs: seq<Command>, symbol: string, timeframe: string, requested: string, minBars: int)
    requires StoreInv(s) && requested != ""
    requires NoInvalidate(cs)
    requires HealthCheck(s, symbol, timeframe, requested, minBars).Some?
    requires HealthCheck(s, symbol, timeframe, requested, minBars).value.ready
    ensures HealthCheck(Run(s, cs), symbol, timeframe, requested, minBars).Some?
    ensures HealthCheck(Run(s, cs), symbol, timeframe, requested, minBars).value.ready
  {
    BarCountNeverDrops(s, cs, Key(symbol, timeframe, requested));
  }

  // Left to resolution, readiness reverts along a given run exactly when the probe was answered
  // from another provider's bars and the preferred one has since gained too few of its own.
  lemma UnpinnedReadyRevertsWhen(s: Store, cs: seq<Command>, symbol: string, timeframe: string, minBars: int)
    requires StoreInv(s) && NoInvalidate(cs)
    requires HealthCheck(s, symbol, timeframe, "", minBars).value.ready
    ensures var preferred := Key(symbol, timeframe, TRADINGVIEW);
            HealthCheck(Run(s, cs), symbol, timeframe, "", minBars).value.ready
            <==> !(preferred !in s.meta && preferred in Run(s, cs).meta && BarCount(Run(s, cs), preferred) < Demanded(minBars))
  {
    BarCountNeverDrops(s, cs, Key(symbol, timeframe, TRADINGVIEW));
    BarCountNeverDrops(s, cs, Key(symbol, timeframe, YAHOO));
  }

  // No run without invalidation ends not ready.
  ghost predicate StaysReady(s: Store, symbol: string, timeframe: string, minBars: int) {
    forall cs: seq<Command> :: NoInvalidate(cs) ==> HealthCheck(Run(s, cs), symbol, timeframe, "", minBars).value.ready
  }

  // Readiness left to resolution is permanent exactly when the preferred provider already has
  // the series or one bar is all that is asked for.
  lemma UnpinnedReadyIsPermanentIff(s: Store, symbol: string, timeframe: string, minBars: int)
    requires StoreInv(s)
    requires HealthCheck(s, symbol, timeframe, "", minBars).value.ready
    ensures StaysReady(s, symbol, timeframe, minBars)
            <==> Key(symbol, timeframe, TRADINGVIEW) in s.meta || Demanded(minBars) <= 1
  {
    var preferred := Key(symbol, timeframe, TRADINGVIEW);
    if preferred in s.meta || Demanded(minBars) <= 1 {
      forall cs: seq<Command> | NoInvalidate(cs)
        ensures HealthCheck(Run(s, cs), symbol, timeframe, "", minBars).value.ready
      {
        UnpinnedReadyRevertsWhen(s, cs, symbol, timeframe, minBars);
        RunKeepsInv(s, cs);
        MetaMeansBars(Run(s, cs), preferred);
      }
    } else {
      var c := OneBarArrives(s, symbol, timeframe);
      UnpinnedReadyRevertsWhen(s, [c], symbol, timeframe, minBars);
      assert NoInvalidate([c]);
    }
  }

  lemma MetaMeansBars(s: Store, k: Key)
    requires StoreInv(s)
    ensures k in s.meta ==> BarCount(s, k) >= 1
  {
    AtInvOf(s, k);
  }

  // Whenever only the other provider has the series, a first bar of the preferred one can
  // arrive: one at the time and close of a bar already stored.
  lemma OneBarArrives(s: Store, symbol: string, timeframe: string) returns (c: Command)
    requires StoreInv(s)
    requires Key(symbol, timeframe, TRADINGVIEW) !in s.meta && Key(symbol, timeframe, YAHOO) in s.meta
    ensures !c.Invalidate?
    ensures Key(symbol, timeframe, TRADINGVIEW) in Run(s, [c]).meta
    ensures BarCount(Run(s, [c]), Key(symbol, timeframe, TRADINGVIEW)) == 1
  {
    var k := Key(symbol, timeframe, TRADINGVIEW);
    assert At(s, k) == EMPTY by { AtInvOf(s, k); }
    var g, rows, now, m := StoredRowAgain(s, Key(symbol, timeframe, YAHOO));
    c := InsertRows(k, rows, now);
    RunInsert(s, k, g, rows, now, m);
  }

  // A stored bar could be the first of an empty series.
  lemma StoredRowAgain(s: Store, k: Key) returns (g: Grid, rows: seq<Row>, now: int, m: Meta)
    requires StoreInv(s) && k in s.meta
    ensures GridOf(k.timeframe) == Some(g)
    ensures Insert(EMPTY, k.symbol, g, rows, now).meta == Some(m) && m.barCount == 1
  {
    var row;
    g, row := StoredRow(s, k);
    OneRowInsert(k.symbol, g, row);
    rows, now, m := [row], row.time + g.secs, Meta(row.time, 1, row.time + g.secs);
  }

  lemma RunInsert(s: Store, k: Key, g: Grid, rows: seq<Row>, now: int, m: Meta)
    requires GridOf(k.timeframe) == Some(g)
    requires Insert(At(s, k), k.symbol, g, rows, now).meta == Some(m)
    ensures var s' := Run(s, [InsertRows(k, rows, now)]);
            k in s'.meta && BarCount(s', k) == m.barCount
  {
    RunOne(s, InsertRows(k, rows, now));
    InsertIsPut(s, k, g, rows, now);
  }

  lemma InsertIsPut(s: Store, k: Key, g: Grid, rows: seq<Row>, now: int)
    requires GridOf(k.timeframe) == Some(g)
    ensures Step(s, InsertRows(k, rows, now)) == Put(s, k, Insert(At(s, k), k.symbol, g, rows, now))
  {
  }

  lemma RunOne(s: Store, c: Command)
    ensures Run(s, [c]) == Step(s, c)
  {
    assert [c][..0] == [];
  }

  // Any stored bar, as a row: on its grid and plausible.
  lemma StoredRow(s: Store, k: Key) returns (g: Grid, row: Row)
    requires StoreInv(s) && k in s.meta
    ensures GridOf(k.timeframe) == Some(g) && OnGrid(row.time, g) && Plausible(k.symbol, row.close)
  {
    assert KeyInv(s, k);
    g := GridOf(k.timeframe).value;
    var ts := s.meta[k].lastBarTs;
    assert BarSound(k.symbol, g, ts, At(s, k).bars[ts]);
    row := RowOf(ts, At(s, k).bars[ts]);
  }

  lemma OneRowAccepted(symbol: string, g: Grid, row: Row)
    requires OnGrid(row.time, g) && Plausible(symbol, row.close)
    ensures ClosedRows([row], g, row.time + g.secs) == [row]
    ensures Judge(map[], symbol, g, [row], row.time + g.secs).Accepted?
  {
    FilterAll([row], (x: Row) => x.time + g.secs <= row.time + g.secs);
  }

  lemma OneRowInsert(symbol: string, g: Grid, row: Row)
    requires OnGrid(row.time, g) && Plausible(symbol, row.close)
    ensures Insert(EMPTY, symbol, g, [row], row.time + g.secs).bars.Keys == {row.time}
    ensures Insert(EMPTY, symbol, g, [row], row.time + g.secs).meta == Some(Meta(row.time, 1, row.time + g.secs))
  {
    var now := row.time + g.secs;
    OneRowAccepted(symbol, g, row);
    AcceptedWrites(EMPTY, symbol, g, [row], now);
    assert Upsert(map[], [row], now) == map[row.time := BarOf(row, now)] by { assert [row][..0] == []; }
    assert Times([row]) == {row.time} by { assert [row][0] in [row]; }
  }

  // The concrete revert: two Yahoo bars answer min_bars = 2, then one TradingView bar arrives.
  const ONE_BAR := Bar(1.0, 1.0, 1.0, 1.0, 1.0, 120)
  const YAHOO_ONLY := Store(map[Key("X", "1", YAHOO) := map[0 := ONE_BAR, 60 := ONE_BAR]],
                            map[Key("X", "1", YAHOO) := Meta(60, 2, 120)])
  const FIRST_TV_BAR := InsertRows(Key("X", "1", TRADINGVIEW), [Row(0, 1.0, 1.0, 1.0, 1.0, 1.0)], 60)

  lemma YahooOnlyInv()
    ensures StoreInv(YAHOO_ONLY)
    ensures HealthCheck(YAHOO_ONLY, "X", "1", "", 2).value.ready
    ensures Key("X", "1", TRADINGVIEW) !in YAHOO_ONLY.meta
    ensures At(YAHOO_ONLY, Key("X", "1", TRADINGVIEW)) == EMPTY
  {
    assert TRADINGVIEW[0] != YAHOO[0];
    var m := map[0 := ONE_BAR, 60 := ONE_BAR];
    assert m.Keys == {0, 60};
    assert |m| == |m.Keys| == 2;
    var g := GridOf("1").value;
    assert BarSound("X", g, 0, ONE_BAR) && BarSound("X", g, 60, ONE_BAR);
  }

  lemma FirstTvBar()
    ensures var s' := Run(YAHOO_ONLY, [FIRST_TV_BAR]);
            Key("X", "1", TRADINGVIEW) in s'.meta && BarCount(s', Key("X", "1", TRADINGVIEW)) == 1
  {
    YahooOnlyInv();
    OneRowInsert("X", RawGrid(60, 0), FIRST_TV_BAR.rows[0]);
    RunInsert(YAHOO_ONLY, Key("X", "1", TRADINGVIEW), RawGrid(60, 0), FIRST_TV_BAR.rows, 60, Meta(0, 1, 60));
  }

  lemma UnpinnedReadyCanRevert()
    ensures StoreInv(YAHOO_ONLY)
    ensures HealthCheck(YAHOO_ONLY, "X", "1", "", 2).value.ready
    ensures !HealthCheck(Run(YAHOO_ONLY, [FIRST_TV_BAR]), "X", "1", "", 2).value.ready
  {
    YahooOnlyInv();
    FirstTvBar();
    UnpinnedReadyRevertsWhen(YAHOO_ONLY, [FIRST_TV_BAR], "X", "1", 2);
  }
}
