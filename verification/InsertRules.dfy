// What the write path does, said outright: which batches it lets in, what they leave in the
// tables, when an answer is disputed and when a fetch raises.

module InsertRules {
  import opened Rows
  import opened Timeframes
  import opened CacheModel
  import CacheTheorems
  import opened CacheStore

  // ---------------------------------------------------------------- the constants

  // The symbols with a band, and their bands; any other close is plausible.
  lemma PlausibleBands(symbol: string, close: real)
    ensures Plausible("BTC/USDT:USDT", close) <==> 1000.0 <= close <= 1000000.0
    ensures Plausible("ETH/USDT:USDT", close) <==> 100.0 <= close <= 50000.0
    ensures Plausible("BNB/USDT:USDT", close) <==> 20.0 <= close <= 10000.0
    ensures Plausible("SOL/USDT:USDT", close) <==> 5.0 <= close <= 10000.0
    ensures Plausible("XRP/USDT:USDT", close) <==> 0.05 <= close <= 100.0
    ensures symbol !in {"BTC/USDT:USDT", "ETH/USDT:USDT", "BNB/USDT:USDT", "SOL/USDT:USDT", "XRP/USDT:USDT"} ==>
              Plausible(symbol, close)
  {
  }

  // offered is within one part in a hundred thousand of a non-zero cached close.
  predicate CloseEnough(cached: real, offered: real) {
    cached == 0.0 || Abs(offered - cached) * 100000.0 <= Abs(cached)
  }

  lemma QuotientAtMost(x: real, d: real, q: real)
    requires d > 0.0
    ensures x / d <= q <==> x <= q * d
  {
    var y := x / d;
    assert x == y * d;
    if y <= q { assert y * d <= q * d; }
    if y > q { assert (y - q) * d > 0.0; }
  }

  // The overlap check passes unless the answer holds the stored bar's time and its first row
  // of that time differs by more than one part in a hundred thousand.
  lemma OverlapMeans(bars: Series, lastBarTs: int, window: seq<Row>, i: int)
    requires lastBarTs in bars
    requires 0 <= i < |window| && window[i].time == lastBarTs
    requires forall j :: 0 <= j < i ==> window[j].time != lastBarTs
    ensures OverlapValid(bars, lastBarTs, window) <==> CloseEnough(bars[lastBarTs].close, window[i].close)
  {
    FilterFirst(window, AtTime(lastBarTs), i);
    var cached := bars[lastBarTs].close;
    if cached != 0.0 { QuotientAtMost(Abs(window[i].close - cached), Abs(cached), 0.00001); }
  }

  lemma NoOverlapPasses(bars: Series, lastBarTs: int, window: seq<Row>)
    requires lastBarTs !in Times(window)
    ensures OverlapValid(bars, lastBarTs, window)
  {
    FilterNone(window, AtTime(lastBarTs)) by {
      forall r | r in window ensures r.time != lastBarTs { assert r.time in Times(window); }
    }
  }

  lemma {:induction false} FilterFirst<T(!new)>(xs: seq<T>, p: T -> bool, i: int)
    requires 0 <= i < |xs| && p(xs[i]) && forall j :: 0 <= j < i ==> !p(xs[j])
    ensures Filter(xs, p) != [] && Filter(xs, p)[0] == xs[i]
  {
    if i == |xs| - 1 {
      FilterNone(xs[..i], p);
    } else {
      FilterFirst(xs[..|xs| - 1], p, i);
    }
  }

  lemma {:induction false} FilterLast<T(!new)>(xs: seq<T>, p: T -> bool, i: int)
    requires 0 <= i < |xs| && p(xs[i]) && forall j :: i < j < |xs| ==> !p(xs[j])
    ensures Filter(xs, p) != [] && Filter(xs, p)[|Filter(xs, p)| - 1] == xs[i]
  {
    if i < |xs| - 1 {
      FilterLast(xs[..|xs| - 1], p, i);
    }
  }

  // The last row that satisfies p, when there is one.
  lemma {:induction false} LastWith<T(!new)>(xs: seq<T>, p: T -> bool) returns (i: int)
    requires exists x :: x in xs && p(x)
    ensures 0 <= i < |xs| && p(xs[i]) && forall j :: i < j < |xs| ==> !p(xs[j])
  {
    var last := |xs| - 1;
    if p(xs[last]) {
      i := last;
    } else {
      assert exists x :: x in xs[..last] && p(x);
      i := LastWith(xs[..last], p);
    }
  }

  // ---------------------------------------------------------------- which batches are let in

  predicate IsClosed(r: Row, g: Grid, now: int) {
    r.time + g.secs <= now
  }

  // rows[i] is the last closed row of the batch, in the batch's order.
  ghost predicate IsLastClosed(rows: seq<Row>, i: int, g: Grid, now: int) {
    && 0 <= i < |rows| && IsClosed(rows[i], g, now)
    && forall j :: i < j < |rows| ==> !IsClosed(rows[j], g, now)
  }

  // From a positive newest stored close, at least half and at most one and a half of it.
  ghost predicate NearNewest(bars: Series, close: real) {
    bars != map[] ==>
      var stored := bars[MaxOf(bars.Keys)].close;
      stored > 0.0 ==> stored * 0.5 <= close <= stored * 1.5
  }

  ghost predicate LetIn(bars: Series, symbol: string, g: Grid, rows: seq<Row>, now: int) {
    && (exists r :: r in rows && IsClosed(r, g, now))
    && (forall r :: r in rows && IsClosed(r, g, now) ==> Plausible(symbol, r.close) && OnGrid(r.time, g))
    && (forall i :: IsLastClosed(rows, i, g, now) ==> NearNewest(bars, rows[i].close))
  }

  lemma NearIff(bars: Series, close: real)
    ensures NearNewest(bars, close) <==> !Drifts(bars, close)
  {
    if bars != map[] {
      var stored := bars[MaxOf(bars.Keys)].close;
      if stored > 0.0 {
        QuotientAtMost(Abs(close - stored), stored, 0.5);
      }
    }
  }

  lemma ClosedNonempty(rows: seq<Row>, g: Grid, now: int)
    ensures ClosedRows(rows, g, now) != [] <==> exists r :: r in rows && IsClosed(r, g, now)
  {
    var closed := ClosedRows(rows, g, now);
    if closed != [] { assert closed[0] in closed; }
    if r :| r in rows && IsClosed(r, g, now) { assert r in closed; }
  }

  lemma LastClosedIs(rows: seq<Row>, i: int, g: Grid, now: int)
    requires IsLastClosed(rows, i, g, now)
    ensures var closed := ClosedRows(rows, g, now);
            closed != [] && closed[|closed| - 1] == rows[i]
  {
    FilterLast(rows, (r: Row) => r.time + g.secs <= now, i);
  }

  // The guards, tried one after the other, let a batch in exactly when some row of it is
  // closed, every closed row is plausible and on the grid, and the last closed row is near
  // the newest stored close.
  lemma AcceptsIff(bars: Series, symbol: string, g: Grid, rows: seq<Row>, now: int)
    ensures Judge(bars, symbol, g, rows, now).Accepted? <==> LetIn(bars, symbol, g, rows, now)
  {
    var closed := ClosedRows(rows, g, now);
    ClosedNonempty(rows, g, now);
    assert forall r :: r in closed <==> r in rows && IsClosed(r, g, now);
    if closed != [] {
      var last := closed[|closed| - 1];
      NearIff(bars, last.close);
      var i := LastWith(rows, (r: Row) => r.time + g.secs <= now);
      assert IsLastClosed(rows, i, g, now);
      forall j | IsLastClosed(rows, j, g, now) ensures rows[j] == last { LastClosedIs(rows, j, g, now); }
    }
  }

  // ---------------------------------------------------------------- what an insert leaves

  // rows[i] is the last row of its timestamp.
  ghost predicate IsLastOfTime(rows: seq<Row>, i: int) {
    0 <= i < |rows| && forall j :: i < j < |rows| ==> rows[j].time != rows[i].time
  }

  // bars' is bars with the last row of each closed timestamp written over it.
  ghost predicate Overlaid(bars: Series, bars': Series, g: Grid, rows: seq<Row>, now: int) {
    && (forall i :: IsLastOfTime(rows, i) && IsClosed(rows[i], g, now) ==>
          rows[i].time in bars' && bars'[rows[i].time] == BarOf(rows[i], now))
    && (forall t :: (forall r :: r in rows && IsClosed(r, g, now) ==> r.time != t) ==>
          (t in bars' <==> t in bars) && (t in bars ==> bars'[t] == bars[t]))
  }

  lemma LastOfTimeWins(rows: seq<Row>, i: int, g: Grid, now: int)
    requires IsLastOfTime(rows, i) && IsClosed(rows[i], g, now)
    ensures var closed := ClosedRows(rows, g, now);
            rows[i].time in LastWins(closed) && LastWins(closed)[rows[i].time] == rows[i]
  {
    var t := rows[i].time;
    var closed := ClosedRows(rows, g, now);
    CacheTheorems.ClosedAt(rows, g, now, t);
    FilterLast(rows, AtTime(t), i);
    LastWinsOfTime(closed, t);
  }

  // An insert either changes nothing or overlays the batch's closed rows, and then the meta
  // row names the newest of them, counts the series and carries the time of the write.
  lemma InsertLeaves(st: SeriesState, symbol: string, g: Grid, rows: seq<Row>, now: int)
    ensures var st' := Insert(st, symbol, g, rows, now);
            if LetIn(st.bars, symbol, g, rows, now) then
              && Overlaid(st.bars, st'.bars, g, rows, now)
              && st'.meta.Some?
              && st'.meta.value.barCount == |st'.bars| && st'.meta.value.lastFetchedAt == now
              && (exists r :: r in rows && IsClosed(r, g, now) && r.time == st'.meta.value.lastBarTs)
              && (forall r :: r in rows && IsClosed(r, g, now) ==> r.time <= st'.meta.value.lastBarTs)
            else st' == st
  {
    AcceptsIff(st.bars, symbol, g, rows, now);
    InsertAllOrNothing(st, symbol, g, rows, now);
    if LetIn(st.bars, symbol, g, rows, now) {
      OverlayIs(st.bars, g, rows, now);
      NewestClosed(rows, g, now);
    }
  }

  lemma NewestClosed(rows: seq<Row>, g: Grid, now: int)
    requires Times(ClosedRows(rows, g, now)) != {}
    ensures var newest := MaxOf(Times(ClosedRows(rows, g, now)));
            && (exists r :: r in rows && IsClosed(r, g, now) && r.time == newest)
            && (forall r :: r in rows && IsClosed(r, g, now) ==> r.time <= newest)
  {
    var closed := ClosedRows(rows, g, now);
    var r :| r in closed && r.time == MaxOf(Times(closed));
    forall q | q in rows && IsClosed(q, g, now) ensures q.time <= MaxOf(Times(closed)) {
      assert q in closed;
      assert q.time in Times(closed);
    }
  }

  lemma OverlayIs(bars: Series, g: Grid, rows: seq<Row>, now: int)
    ensures Overlaid(bars, bars + Stamped(ClosedRows(rows, g, now), now), g, rows, now)
  {
    var closed := ClosedRows(rows, g, now);
    StampedKeys(closed, now);
    forall i | IsLastOfTime(rows, i) && IsClosed(rows[i], g, now)
      ensures rows[i].time in Stamped(closed, now) && Stamped(closed, now)[rows[i].time] == BarOf(rows[i], now)
    {
      LastOfTimeWins(rows, i, g, now);
    }
    forall t | forall r :: r in rows && IsClosed(r, g, now) ==> r.time != t ensures t !in Stamped(closed, now) {
      assert t in Times(closed) ==> exists r :: r in closed && r.time == t;
    }
  }

  // ---------------------------------------------------------------- backfill

  // One implausible row does not keep the others out: when some plausible row is closed, the
  // plausible closed rows are on the grid and the last of them is near the newest stored
  // close, each of them is stored.
  lemma BackfillStores(s: Store, symbol: string, timeframe: string, g: Grid, rows: seq<Row>, now: int, i: int)
    requires GridOf(timeframe) == Some(g)
    requires forall r :: r in rows && Plausible(symbol, r.close) && IsClosed(r, g, now) ==> OnGrid(r.time, g)
    requires 0 <= i < |rows| && Plausible(symbol, rows[i].close) && IsClosed(rows[i], g, now)
    requires forall j :: i < j < |rows| ==> !(Plausible(symbol, rows[j].close) && IsClosed(rows[j], g, now))
    requires NearNewest(At(s, DefaultKey(symbol, timeframe)).bars, rows[i].close)
    ensures var bars' := At(BackfillAt(s, symbol, timeframe, rows, now), DefaultKey(symbol, timeframe)).bars;
            forall r :: r in rows && Plausible(symbol, r.close) && IsClosed(r, g, now) ==>
              r.time in bars' && bars'[r.time].fetchedAt == now
  {
    var k := DefaultKey(symbol, timeframe);
    var kept := Filter(rows, (r: Row) => Plausible(symbol, r.close));
    assert rows[i] in kept;
    LastOfBoth(rows, (r: Row) => Plausible(symbol, r.close), (r: Row) => r.time + g.secs <= now, i);
    forall j | IsLastClosed(kept, j, g, now) ensures kept[j] == rows[i] {
      LastClosedIs(kept, j, g, now);
    }
    assert LetIn(At(s, k).bars, symbol, g, kept, now);
    KeptIsStored(s, k, g, kept, now);
  }

  lemma KeptIsStored(s: Store, k: Key, g: Grid, kept: seq<Row>, now: int)
    requires GridOf(k.timeframe) == Some(g) && LetIn(At(s, k).bars, k.symbol, g, kept, now)
    ensures var bars' := At(InsertAt(s, k, kept, now), k).bars;
            forall r :: r in kept && IsClosed(r, g, now) ==> r.time in bars' && bars'[r.time].fetchedAt == now
  {
    PutAt(s, k, Insert(At(s, k), k.symbol, g, kept, now));
    InsertLeaves(At(s, k), k.symbol, g, kept, now);
    forall r | r in kept && IsClosed(r, g, now)
      ensures exists i :: IsLastOfTime(kept, i) && kept[i].time == r.time
    {
      var i := LastWith(kept, AtTime(r.time));
      assert IsLastOfTime(kept, i);
    }
  }

  lemma {:induction false} LastOfBoth<T(!new)>(xs: seq<T>, p: T -> bool, q: T -> bool, i: int)
    requires 0 <= i < |xs| && p(xs[i]) && q(xs[i]) && forall j :: i < j < |xs| ==> !(p(xs[j]) && q(xs[j]))
    ensures var both := Filter(Filter(xs, p), q);
            both != [] && both[|both| - 1] == xs[i]
  {
    var init, last := xs[..|xs| - 1], xs[|xs| - 1];
    assert xs == init + [last];
    BothSnoc(init, last, p, q);
    if i < |xs| - 1 { LastOfBoth(init, p, q, i); }
  }

  lemma BothSnoc<T(!new)>(xs: seq<T>, x: T, p: T -> bool, q: T -> bool)
    ensures Filter(Filter(xs + [x], p), q) == Filter(Filter(xs, p), q) + (if p(x) && q(x) then [x] else [])
  {
    FilterSnoc(xs, x, p);
    if p(x) { FilterSnoc(Filter(xs, p), x, q); }
  }

  // ---------------------------------------------------------------- when a validated fetch raises

  // A cold start raises when its one answer fails; otherwise the first answer failing, or the
  // refetch after a dispute.
  lemma GetBarsRaisesIff(st: SeriesState, symbol: string, g: Grid, count: nat, source: Source, t0: int, t1: int)
    ensures GetBars(st, symbol, g, count, source, t0, t1).answer.None?
            <==> match st.meta
                 case None => source(0, count).Failed?
                 case Some(m) =>
                   var judged := source(0, Min(Max(1, (t0 - m.lastBarTs) / g.secs) + 1, count));
                   judged.Failed? || (!OverlapValid(st.bars, m.lastBarTs, judged.rows) && source(1, count).Failed?)
    ensures GetBars(st, symbol, g, count, source, t0, t1).answer.None? ==> GetBars(st, symbol, g, count, source, t0, t1).st == st
  {
  }

  // ---------------------------------------------------------------- commands touch one key

  // Each command works on one series of the tables and leaves all others alone.
  lemma CommandsAreLocal(s: Store, k: Key, rows: seq<Row>, now: int, count: nat, source: Source, t0: int, t1: int, g: Grid)
    requires GridOf(k.timeframe) == Some(g)
    ensures At(InsertAt(s, k, rows, now), k) == Insert(At(s, k), k.symbol, g, rows, now)
    ensures At(InvalidateAt(s, k), k) == EMPTY
    ensures k.provider == "tradingview" ==>
              At(GetBarsAt(s, k.symbol, k.timeframe, count, source, t0, t1), k)
              == GetBars(At(s, k), k.symbol, g, count, source, t0, t1).st
    ensures forall k' :: k' != k ==>
              && At(InsertAt(s, k, rows, now), k') == At(s, k')
              && At(InvalidateAt(s, k), k') == At(s, k')
              && (k.provider == "tradingview" ==>
                    At(GetBarsAt(s, k.symbol, k.timeframe, count, source, t0, t1), k') == At(s, k'))
  {
    PutAt(s, k, Insert(At(s, k), k.symbol, g, rows, now));
    PutAt(s, k, EMPTY);
    PutAt(s, k, GetBars(At(s, k), k.symbol, g, count, source, t0, t1).st);
  }
}
