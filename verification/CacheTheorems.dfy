// What every call and every run of calls guarantees about one series.

module CacheTheorems {
  import opened Rows
  import opened Timeframes
  import opened CacheModel

  // ---------------------------------------------------------------- one validated fetch

  lemma GetBarsKeepsInv(st: SeriesState, symbol: string, g: Grid, count: nat, source: Source, t0: int, t1: int)
    requires SeriesInv(symbol, g, st)
    ensures SeriesInv(symbol, g, GetBars(st, symbol, g, count, source, t0, t1).st)
  {
    match Offered(st, g, count, source, t0)
    case Failed =>
    case Fetched(rows) => InsertKeepsInv(st, symbol, g, rows, t1);
  }

  // Whatever the source returns, no stored timestamp is lost and every bar outside the one
  // batch that was written is untouched; a call that raises changes nothing at all.
  lemma GetBarsNeverLosesBars(st: SeriesState, symbol: string, g: Grid, count: nat, source: Source, t0: int, t1: int)
    ensures var r := GetBars(st, symbol, g, count, source, t0, t1);
            && st.bars.Keys <= r.st.bars.Keys
            && (r.answer.None? ==> r.st == st)
            && (r.answer.None? <==> Offered(st, g, count, source, t0).Failed?)
            && (forall t :: t in st.bars && r.st.bars[t] != st.bars[t] ==>
                  && Offered(st, g, count, source, t0).Fetched?
                  && t in Times(ClosedRows(Offered(st, g, count, source, t0).rows, g, t1)))
  {
    match Offered(st, g, count, source, t0)
    case Failed =>
    case Fetched(rows) =>
      InsertAllOrNothing(st, symbol, g, rows, t1);
      StampedKeys(ClosedRows(rows, g, t1), t1);
  }

  // ---------------------------------------------------------------- repair after a mismatch

  // The first and last row an answer holds for a timestamp agree within the tolerance.
  predicate SelfConsistent(window: seq<Row>, t: int) {
    var own := RowsAt(window, t);
    own != [] ==>
      var last := own[|own| - 1].close;
      last == 0.0 || Abs(own[0].close - last) / Abs(last) <= OVERLAP_TOLERANCE
  }

  // The check reads the first row of a timestamp while the write keeps the last: an answer
  // that was just written passes its own overlap check exactly when those two agree.
  lemma RecheckIff(st: SeriesState, symbol: string, g: Grid, window: seq<Row>, now: int)
    requires Judge(st.bars, symbol, g, window, now).Accepted?
    ensures var st' := Insert(st, symbol, g, window, now);
            var closed := ClosedRows(window, g, now);
            && st'.meta.Some? && Times(closed) != {}
            && (OverlapValid(st'.bars, st'.meta.value.lastBarTs, window)
                <==> SelfConsistent(window, MaxOf(Times(closed))))
  {
    InsertAllOrNothing(st, symbol, g, window, now);
    var closed := ClosedRows(window, g, now);
    var t := MaxOf(Times(closed));
    assert t + g.secs <= now by {
      assert exists r :: r in closed && r.time == t;
    }
    ClosedAt(window, g, now, t);
    WrittenClose(st.bars, closed, window, now, t);
  }

  lemma WrittenClose(bars: Series, closed: seq<Row>, window: seq<Row>, now: int, t: int)
    requires t in Times(closed) && RowsAt(closed, t) == RowsAt(window, t)
    ensures OverlapValid(bars + Stamped(closed, now), t, window) <==> SelfConsistent(window, t)
  {
    LastWinsMembers(closed);
    LastWinsOfTime(closed, t);
  }

  lemma ClosedAt(window: seq<Row>, g: Grid, now: int, t: int)
    requires t + g.secs <= now
    ensures RowsAt(ClosedRows(window, g, now), t) == RowsAt(window, t)
  {
    FilterTwice(window, (r: Row) => r.time + g.secs <= now, AtTime(t));
  }

  // What writing an answer over a series means: the answer passes the overlap check from then
  // on exactly when it was accepted and is consistent, or was refused and passed before; if
  // accepted, each closed timestamp holds the answer's last row of it and every other bar is
  // as it was.
  ghost predicate RepairedBy(st: SeriesState, st': SeriesState, symbol: string, g: Grid, window: seq<Row>, now: int)
    requires st.meta.Some?
  {
    var closed := ClosedRows(window, g, now);
    var accepted := Judge(st.bars, symbol, g, window, now).Accepted?;
    && st'.meta.Some?
    && (accepted ==> Times(closed) != {})
    && (OverlapValid(st'.bars, st'.meta.value.lastBarTs, window)
        <==> if accepted then SelfConsistent(window, MaxOf(Times(closed)))
             else OverlapValid(st.bars, st.meta.value.lastBarTs, window))
    && (if accepted then Overwritten(st.bars, st'.bars, closed) else st' == st)
  }

  ghost predicate Overwritten(bars: Series, bars': Series, closed: seq<Row>) {
    && (forall t :: t in Times(closed) ==>
          t in LastWins(closed) && t in bars' && RowOf(t, bars'[t]) == LastWins(closed)[t])
    && (forall t :: t !in Times(closed) ==> (t in bars' <==> t in bars) && (t in bars ==> bars'[t] == bars[t]))
  }

  lemma InsertRepairs(st: SeriesState, symbol: string, g: Grid, window: seq<Row>, now: int)
    requires st.meta.Some?
    ensures RepairedBy(st, Insert(st, symbol, g, window, now), symbol, g, window, now)
  {
    InsertAllOrNothing(st, symbol, g, window, now);
    if Judge(st.bars, symbol, g, window, now).Accepted? {
      RecheckIff(st, symbol, g, window, now);
      LastWinsMembers(ClosedRows(window, g, now));
    }
  }

  // Against an answer with distinct timestamps: after the write the overlap check passes
  // exactly when the guards let the answer in or it passed before; if it was let in, the
  // series agrees with it on every closed timestamp and is unchanged elsewhere.
  lemma RepairConverges(st: SeriesState, symbol: string, g: Grid, window: seq<Row>, now: int)
    requires st.meta.Some? && DistinctTimes(window)
    ensures var st' := Insert(st, symbol, g, window, now);
            var closed := ClosedRows(window, g, now);
            var accepted := Judge(st.bars, symbol, g, window, now).Accepted?;
            && st'.meta.Some?
            && (OverlapValid(st'.bars, st'.meta.value.lastBarTs, window)
                <==> accepted || OverlapValid(st.bars, st.meta.value.lastBarTs, window))
            && (accepted ==>
                  && (forall r :: r in closed ==> r.time in st'.bars && RowOf(r.time, st'.bars[r.time]) == r)
                  && (forall t :: t !in Times(closed) ==>
                        (t in st'.bars <==> t in st.bars) && (t in st.bars ==> st'.bars[t] == st.bars[t])))
  {
    InsertRepairs(st, symbol, g, window, now);
    if Judge(st.bars, symbol, g, window, now).Accepted? {
      var closed := ClosedRows(window, g, now);
      DistinctIsConsistent(window, MaxOf(Times(closed)));
      FilterDistinct(window, (r: Row) => r.time + g.secs <= now);
      LastWinsDistinct(closed);
    }
  }

  lemma DistinctIsConsistent(window: seq<Row>, t: int)
    requires DistinctTimes(window)
    ensures SelfConsistent(window, t)
  {
    var own := RowsAt(window, t);
    if own != [] {
      assert own[0] in own && own[|own| - 1] in own;
    }
  }

  lemma AfterDispute(st: SeriesState, symbol: string, g: Grid, count: nat, source: Source, t0: int, t1: int)
    requires st.meta.Some?
    requires var judged := source(0, Min(GapBars(st.meta.value, g, t0) + 1, count));
             judged.Fetched? && !OverlapValid(st.bars, st.meta.value.lastBarTs, judged.rows)
    ensures source(1, count).Failed? ==> GetBars(st, symbol, g, count, source, t0, t1) == FetchResult(st, None)
    ensures source(1, count).Fetched? ==>
              GetBars(st, symbol, g, count, source, t0, t1).st == Insert(st, symbol, g, source(1, count).rows, t1)
  {
  }

  // The validated fetch after a mismatch: the first answer is only judged, the second is what
  // is written. If the refetch fails nothing changes; otherwise the second answer repairs the
  // series, and with distinct timestamps it passes the overlap check from then on exactly when
  // the guards let it in or the cache agreed with it already.
  lemma GetBarsRepairs(st: SeriesState, symbol: string, g: Grid, count: nat, source: Source, t0: int, t1: int)
    requires st.meta.Some?
    requires var judged := source(0, Min(GapBars(st.meta.value, g, t0) + 1, count));
             judged.Fetched? && !OverlapValid(st.bars, st.meta.value.lastBarTs, judged.rows)
    ensures source(1, count).Failed? ==> GetBars(st, symbol, g, count, source, t0, t1) == FetchResult(st, None)
    ensures source(1, count).Fetched? ==>
              var full := source(1, count).rows;
              var st' := GetBars(st, symbol, g, count, source, t0, t1).st;
              && RepairedBy(st, st', symbol, g, full, t1)
              && (DistinctTimes(full) ==>
                    (OverlapValid(st'.bars, st'.meta.value.lastBarTs, full)
                     <==> Judge(st.bars, symbol, g, full, t1).Accepted?
                          || OverlapValid(st.bars, st.meta.value.lastBarTs, full)))
  {
    AfterDispute(st, symbol, g, count, source, t0, t1);
    if source(1, count).Fetched? {
      var full := source(1, count).rows;
      InsertRepairs(st, symbol, g, full, t1);
      if DistinctTimes(full) { RepairConverges(st, symbol, g, full, t1); }
    }
  }

  lemma {:induction false} FilterDistinct(rows: seq<Row>, p: Row -> bool)
    requires DistinctTimes(rows)
    ensures DistinctTimes(Filter(rows, p))
  {
    if rows != [] {
      var init, last := rows[..|rows| - 1], rows[|rows| - 1];
      FilterDistinct(init, p);
      assert forall r :: r in init ==> r.time != last.time;
    }
  }

  // It happens: an answer with two closes for one timestamp, accepted over a cached bar.
  const CACHED_ONE := SeriesState(map[0 := Bar(1.0, 1.0, 1.0, 1.0, 1.0, 60)], Some(Meta(0, 1, 60)))
  const TWO_CLOSES := [Row(0, 1.0, 1.0, 1.0, 1.2, 1.0), Row(0, 1.0, 1.0, 1.0, 1.1, 1.0)]

  lemma RepairNeedsDistinctTimes()
    ensures var g: Grid := RawGrid(60, 0);
            var st' := Insert(CACHED_ONE, "X", g, TWO_CLOSES, 60);
            && SeriesInv("X", g, CACHED_ONE)
            && Judge(CACHED_ONE.bars, "X", g, TWO_CLOSES, 60).Accepted?
            && st'.meta.Some? && !OverlapValid(st'.bars, st'.meta.value.lastBarTs, TWO_CLOSES)
  {
    CachedOneIs();
    TwoClosesAccepted();
    TwoClosesDiffer();
    RejectsItself(CACHED_ONE, "X", RawGrid(60, 0), TWO_CLOSES, 60, 0);
  }

  lemma RejectsItself(st: SeriesState, symbol: string, g: Grid, window: seq<Row>, now: int, t: int)
    requires ClosedRows(window, g, now) == window && Judge(st.bars, symbol, g, window, now).Accepted?
    requires Times(window) == {t} && !SelfConsistent(window, t)
    ensures var st' := Insert(st, symbol, g, window, now);
            st'.meta.Some? && !OverlapValid(st'.bars, st'.meta.value.lastBarTs, window)
  {
    RecheckIff(st, symbol, g, window, now);
    assert MaxOf(Times(window)) == t;
  }

  lemma TwoClosesDiffer()
    ensures Times(TWO_CLOSES) == {0} && !SelfConsistent(TWO_CLOSES, 0)
  {
    assert Times(TWO_CLOSES) == {0} by { assert TWO_CLOSES[0] in TWO_CLOSES; }
    assert RowsAt(TWO_CLOSES, 0) == TWO_CLOSES by { FilterAll(TWO_CLOSES, AtTime(0)); }
    assert Abs(1.2 - 1.1) / Abs(1.1) > OVERLAP_TOLERANCE;
  }

  lemma TwoClosesAccepted()
    ensures var g: Grid := RawGrid(60, 0);
            && ClosedRows(TWO_CLOSES, g, 60) == TWO_CLOSES
            && Judge(CACHED_ONE.bars, "X", g, TWO_CLOSES, 60).Accepted?
  {
    var g: Grid := RawGrid(60, 0);
    assert ClosedRows(TWO_CLOSES, g, 60) == TWO_CLOSES by {
      FilterAll(TWO_CLOSES, (r: Row) => r.time + g.secs <= 60);
    }
    assert !Drifts(CACHED_ONE.bars, 1.1) by { CachedOneIs(); }
  }

  lemma CachedOneIs()
    ensures SeriesInv("X", RawGrid(60, 0), CACHED_ONE)
    ensures NewestClose(CACHED_ONE.bars) == Some(1.0) && !Drifts(CACHED_ONE.bars, 1.1)
  {
    assert CACHED_ONE.bars.Keys == {0};
  }

  // ---------------------------------------------------------------- the fast path

  // "No new closed bar is possible yet": below two bar widths past the last stored bar no
  // batch whatsoever can add a later timestamp, and from two widths on some batch can. The
  // poll may be skipped exactly when the fast path skips it.
  lemma FastPathIsExact(st: SeriesState, symbol: string, g: Grid, now: int)
    requires SeriesInv(symbol, g, st) && st.meta.Some?
    requires st.meta.value.lastBarTs == MaxOf(st.bars.Keys)
    ensures now - st.meta.value.lastBarTs < 2 * g.secs
            <==> forall rows: seq<Row> :: !AddsLaterBar(st, symbol, g, rows, now)
  {
    var last := st.meta.value.lastBarTs;
    if now - last < 2 * g.secs {
      forall rows: seq<Row> ensures !AddsLaterBar(st, symbol, g, rows, now) {
        NothingLaterBeforeTwoWidths(st, symbol, g, rows, now);
      }
    } else {
      var next := Row(last + g.secs, 0.0, 0.0, 0.0, st.bars[last].close, 0.0);
      NextBarIsAccepted(st, symbol, g, next, now);
    }
  }

  ghost predicate AddsLaterBar(st: SeriesState, symbol: string, g: Grid, rows: seq<Row>, now: int)
    requires st.meta.Some?
  {
    exists ts :: ts in Insert(st, symbol, g, rows, now).bars && ts !in st.bars && ts > st.meta.value.lastBarTs
  }

  lemma NothingLaterBeforeTwoWidths(st: SeriesState, symbol: string, g: Grid, rows: seq<Row>, now: int)
    requires SeriesInv(symbol, g, st) && st.meta.Some?
    requires now - st.meta.value.lastBarTs < 2 * g.secs
    ensures !AddsLaterBar(st, symbol, g, rows, now)
  {
    var last := st.meta.value.lastBarTs;
    assert BarSound(symbol, g, last, st.bars[last]);
    InsertAllOrNothing(st, symbol, g, rows, now);
    if Judge(st.bars, symbol, g, rows, now).Accepted? {
      AcceptedRows(st.bars, symbol, g, rows, now);
      LastWinsMembers(ClosedRows(rows, g, now));
      forall ts | ts in LastWins(ClosedRows(rows, g, now)) ensures ts <= last {
        var r := LastWins(ClosedRows(rows, g, now))[ts];
        assert r in ClosedRows(rows, g, now);
        GridDistance(last, ts, g);
      }
    }
  }

  lemma NextBarIsAccepted(st: SeriesState, symbol: string, g: Grid, next: Row, now: int)
    requires SeriesInv(symbol, g, st) && st.meta.Some?
    requires st.meta.value.lastBarTs == MaxOf(st.bars.Keys)
    requires next.time == st.meta.value.lastBarTs + g.secs && next.time + g.secs <= now
    requires next.close == st.bars[st.meta.value.lastBarTs].close
    ensures AddsLaterBar(st, symbol, g, [next], now)
  {
    var last := st.meta.value.lastBarTs;
    assert BarSound(symbol, g, last, st.bars[last]);
    GridShift(last, 1, g);
    var closed := ClosedRows([next], g, now);
    assert closed == [next];
    assert !Drifts(st.bars, next.close);
    assert Judge(st.bars, symbol, g, [next], now).Accepted?;
    InsertAllOrNothing(st, symbol, g, [next], now);
    StampedKeys(closed, now);
    assert next in closed;
    assert next.time in Insert(st, symbol, g, [next], now).bars;
  }

  // ---------------------------------------------------------------- drift over runs

  datatype Batch = Batch(rows: seq<Row>, now: int)

  function InsertAll(st: SeriesState, symbol: string, g: Grid, batches: seq<Batch>): SeriesState {
    if batches == [] then st
    else
      var b := batches[|batches| - 1];
      Insert(InsertAll(st, symbol, g, batches[..|batches| - 1]), symbol, g, b.rows, b.now)
  }

  // Accepted, and its closed rows ascend and reach the newest stored bar.
  ghost predicate ReachingInsert(st: SeriesState, symbol: string, g: Grid, b: Batch) {
    var closed := ClosedRows(b.rows, g, b.now);
    && Judge(st.bars, symbol, g, b.rows, b.now).Accepted?
    && Ascending(closed)
    && st.bars != map[]
    && MaxOf(st.bars.Keys) <= closed[|closed| - 1].time
  }

  ghost predicate AllReaching(st: SeriesState, symbol: string, g: Grid, batches: seq<Batch>) {
    batches == [] ||
    var init := batches[..|batches| - 1];
    AllReaching(st, symbol, g, init) && ReachingInsert(InsertAll(st, symbol, g, init), symbol, g, batches[|batches| - 1])
  }

  // c * factor^k
  function Scaled(c: real, factor: real, k: nat): real {
    if k == 0 then c else factor * Scaled(c, factor, k - 1)
  }

  // From a positive newest close c, k reaching inserts leave it within [c * 0.5^k, c * 1.5^k]
  // and positive, so the drift guard never disables itself along such a run.
  lemma {:induction false} DriftBound(st: SeriesState, symbol: string, g: Grid, batches: seq<Batch>, c: real)
    requires NewestClose(st.bars) == Some(c) && c > 0.0
    requires AllReaching(st, symbol, g, batches)
    ensures CloseWithin(InsertAll(st, symbol, g, batches), c, |batches|)
  {
    if batches != [] {
      var init, b := batches[..|batches| - 1], batches[|batches| - 1];
      DriftBound(st, symbol, g, init, c);
      WithinStep(InsertAll(st, symbol, g, init), symbol, g, b, c, |init|);
    }
  }

  ghost predicate CloseWithin(st: SeriesState, c: real, k: nat) {
    var last := NewestClose(st.bars);
    last.Some? && last.value > 0.0 && Scaled(c, 0.5, k) <= last.value <= Scaled(c, 1.5, k)
  }

  lemma WithinStep(st: SeriesState, symbol: string, g: Grid, b: Batch, c: real, k: nat)
    requires CloseWithin(st, c, k) && ReachingInsert(st, symbol, g, b)
    ensures CloseWithin(Insert(st, symbol, g, b.rows, b.now), c, k + 1)
  {
    OneStepDrift(st, symbol, g, b);
  }

  lemma OneStepDrift(st: SeriesState, symbol: string, g: Grid, b: Batch)
    requires ReachingInsert(st, symbol, g, b)
    requires NewestClose(st.bars).Some? && NewestClose(st.bars).value > 0.0
    ensures var c := NewestClose(st.bars).value;
            var c' := NewestClose(Insert(st, symbol, g, b.rows, b.now).bars);
            c'.Some? && 0.5 * c <= c'.value <= 1.5 * c
  {
    NewestAfterReaching(st, symbol, g, b);
    var closed := ClosedRows(b.rows, g, b.now);
    assert !Drifts(st.bars, closed[|closed| - 1].close);
    WithinHalf(NewestClose(st.bars).value, closed[|closed| - 1].close);
  }

  lemma NewestAfterReaching(st: SeriesState, symbol: string, g: Grid, b: Batch)
    requires ReachingInsert(st, symbol, g, b)
    ensures var closed := ClosedRows(b.rows, g, b.now);
            NewestClose(Insert(st, symbol, g, b.rows, b.now).bars) == Some(closed[|closed| - 1].close)
  {
    var closed := ClosedRows(b.rows, g, b.now);
    AcceptedWrites(st, symbol, g, b.rows, b.now);
    UpsertIs(st.bars, closed, b.now);
    NewestAfterStamp(st.bars, closed, b.now);
  }

  lemma NewestAfterStamp(bars: Series, closed: seq<Row>, now: int)
    requires closed != [] && Ascending(closed)
    requires bars != map[] ==> MaxOf(bars.Keys) <= closed[|closed| - 1].time
    ensures NewestClose(bars + Stamped(closed, now)) == Some(closed[|closed| - 1].close)
  {
    var newest := closed[|closed| - 1];
    var bars' := bars + Stamped(closed, now);
    AscendingLast(closed);
    assert newest.time in bars' && bars'[newest.time] == BarOf(newest, now);
    assert forall t :: t in bars' ==> t <= newest.time;
  }

  lemma WithinHalf(c: real, x: real)
    requires c > 0.0 && Abs(x - c) / c <= 0.5
    ensures 0.5 * c <= x <= 1.5 * c
  {
    var q := Abs(x - c) / c;
    assert Abs(x - c) == q * c;
    assert q * c <= 0.5 * c;
  }

  // ---------------------------------------------------------------- writing the same batch again

  lemma NewestUnreached(bars: Series, closed: seq<Row>, now: int)
    requires bars != map[] && forall t :: t in Times(closed) ==> t < MaxOf(bars.Keys)
    ensures NewestClose(bars + Stamped(closed, now)) == NewestClose(bars)
  {
    StampedKeys(closed, now);
    var bars' := bars + Stamped(closed, now);
    var top := MaxOf(bars.Keys);
    assert top in bars' && bars'[top] == bars[top];
    assert MaxOf(bars'.Keys) == top;
  }

  lemma DriftAfterWrite(bars: Series, closed: seq<Row>, now: int)
    requires closed != [] && Ascending(closed)
    requires !Drifts(bars, closed[|closed| - 1].close)
    ensures !Drifts(bars + Stamped(closed, now), closed[|closed| - 1].close)
  {
    var last := closed[|closed| - 1];
    if bars != map[] && last.time < MaxOf(bars.Keys) {
      forall t | t in Times(closed) ensures t <= last.time {
        var i :| 0 <= i < |closed| && closed[i].time == t;
      }
      NewestUnreached(bars, closed, now);
    } else {
      NewestAfterStamp(bars, closed, now);
    }
  }

  lemma RestampSame(bars: Series, closed: seq<Row>, now: int, now': int)
    ensures RowsOf(bars + Stamped(closed, now) + Stamped(closed, now')) == RowsOf(bars + Stamped(closed, now))
    ensures (bars + Stamped(closed, now) + Stamped(closed, now')).Keys == (bars + Stamped(closed, now)).Keys
  {
  }

  // Re-running a backfill is safe: an ascending batch that was accepted once is accepted
  // again and leaves every row, the count and last_bar_ts as they are.
  lemma ReinsertIsIdempotent(st: SeriesState, symbol: string, g: Grid, rows: seq<Row>, now: int, now': int)
    requires Judge(st.bars, symbol, g, rows, now).Accepted?
    requires ClosedRows(rows, g, now') == ClosedRows(rows, g, now) && Ascending(ClosedRows(rows, g, now))
    ensures var once := Insert(st, symbol, g, rows, now);
            var twice := Insert(once, symbol, g, rows, now');
            && Judge(once.bars, symbol, g, rows, now').Accepted?
            && RowsOf(twice.bars) == RowsOf(once.bars)
            && twice.meta.Some? && once.meta.Some?
            && twice.meta.value.barCount == once.meta.value.barCount
            && twice.meta.value.lastBarTs == once.meta.value.lastBarTs
  {
    var closed := ClosedRows(rows, g, now);
    var once := Insert(st, symbol, g, rows, now);
    AcceptedWrites(st, symbol, g, rows, now);
    UpsertIs(st.bars, closed, now);
    DriftAfterWrite(st.bars, closed, now);
    assert Judge(once.bars, symbol, g, rows, now').Accepted?;
    AcceptedWrites(once, symbol, g, rows, now');
    UpsertIs(once.bars, closed, now');
    RestampSame(st.bars, closed, now, now');
    var twice := Insert(once, symbol, g, rows, now');
    assert |twice.bars| == |twice.bars.Keys| && |once.bars| == |once.bars.Keys|;
  }
}
