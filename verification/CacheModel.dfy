// The bar cache as a function on one series: the closed-bar filter, the three leak
// guards, the upsert, the overlap check and the validated fetch, with the invariants
// every sequence of writes keeps.

module CacheModel {
  import opened Rows
  import opened Timeframes

  // A stored row of `bars`; its timestamp is the map key.
  datatype Bar = Bar(open: real, high: real, low: real, close: real, volume: real, fetchedAt: int)

  type Series = map<int, Bar>

  datatype Meta = Meta(lastBarTs: int, barCount: nat, lastFetchedAt: int)

  // What the two tables hold for one (symbol, timeframe, provider).
  datatype SeriesState = SeriesState(bars: Series, meta: Option<Meta>)

  const EMPTY := SeriesState(map[], None)

  const OVERLAP_TOLERANCE: real := 0.00001
  const INSERT_DRIFT_REJECT: real := 0.5

  function PlausibleBand(symbol: string): Option<(real, real)> {
    if symbol == "BTC/USDT:USDT" then Some((1000.0, 1000000.0))
    else if symbol == "ETH/USDT:USDT" then Some((100.0, 50000.0))
    else if symbol == "BNB/USDT:USDT" then Some((20.0, 10000.0))
    else if symbol == "SOL/USDT:USDT" then Some((5.0, 10000.0))
    else if symbol == "XRP/USDT:USDT" then Some((0.05, 100.0))
    else None
  }

  predicate Plausible(symbol: string, close: real) {
    match PlausibleBand(symbol)
    case None => true
    case Some((lo, hi)) => lo <= close <= hi
  }

  // ---------------------------------------------------------------- reads

  function RowOf(ts: int, b: Bar): Row {
    Row(ts, b.open, b.high, b.low, b.close, b.volume)
  }

  function BarOf(r: Row, now: int): Bar {
    Bar(r.open, r.high, r.low, r.close, r.volume, now)
  }

  function RowsOf(bars: Series): (m: map<int, Row>)
    ensures forall t :: t in m ==> m[t].time == t
  {
    map ts | ts in bars :: RowOf(ts, bars[ts])
  }

  // ORDER BY ts DESC LIMIT count, then reversed to oldest first.
  function Newest(bars: Series, count: nat): seq<Row> {
    var all := Sorted(RowsOf(bars));
    all[|all| - Min(count, |all|)..]
  }

  function NewestClose(bars: Series): Option<real> {
    if bars == map[] then None else Some(bars[MaxOf(bars.Keys)].close)
  }

  // ---------------------------------------------------------------- writes

  function ClosedRows(rows: seq<Row>, g: Grid, now: int): seq<Row> {
    Filter(rows, (r: Row) => r.time + g.secs <= now)
  }

  predicate Drifts(bars: Series, freshClose: real) {
    match NewestClose(bars)
    case None => false
    case Some(last) => last > 0.0 && Abs(freshClose - last) / last > INSERT_DRIFT_REJECT
  }

  datatype Verdict = NothingClosed | Implausible | Drifted | OffGrid | Accepted

  // The exit an insert takes, in the order the guards are tried.
  function Judge(bars: Series, symbol: string, g: Grid, rows: seq<Row>, now: int): Verdict {
    var closed := ClosedRows(rows, g, now);
    if closed == [] then NothingClosed
    else if exists r :: r in closed && !Plausible(symbol, r.close) then Implausible
    else if Drifts(bars, closed[|closed| - 1].close) then Drifted
    else if exists r :: r in closed && !OnGrid(r.time, g) then OffGrid
    else Accepted
  }

  // INSERT ... ON CONFLICT DO UPDATE, one row after another.
  function Upsert(bars: Series, rows: seq<Row>, now: int): Series {
    if rows == [] then bars
    else
      var last := rows[|rows| - 1];
      Upsert(bars, rows[..|rows| - 1], now)[last.time := BarOf(last, now)]
  }

  // The one transaction that writes: the rows, then the meta row recounted from the table.
  function Write(bars: Series, closed: seq<Row>, now: int): SeriesState
    requires closed != []
  {
    var bars' := Upsert(bars, closed, now);
    assert closed[0].time in Times(closed);
    SeriesState(bars', Some(Meta(MaxOf(Times(closed)), |bars'|, now)))
  }

  function Insert(st: SeriesState, symbol: string, g: Grid, rows: seq<Row>, now: int): SeriesState {
    if Judge(st.bars, symbol, g, rows, now).Accepted?
    then Write(st.bars, ClosedRows(rows, g, now), now)
    else st
  }

  predicate OverlapValid(bars: Series, lastBarTs: int, window: seq<Row>) {
    var overlap := RowsAt(window, lastBarTs);
    if overlap == [] || lastBarTs !in bars then true
    else
      var cached := bars[lastBarTs].close;
      cached == 0.0 || Abs(overlap[0].close - cached) / Abs(cached) <= OVERLAP_TOLERANCE
  }

  // ---------------------------------------------------------------- the validated fetch

  datatype Fetch = Failed | Fetched(rows: seq<Row>)

  // The bar source during one call: which attempt this is (0, then 1 for the refetch)
  // and how many bars are asked for.
  type Source = (nat, int) -> Fetch

  // answer is None when the fetch raised.
  datatype FetchResult = FetchResult(st: SeriesState, answer: Option<seq<Row>>)

  function GapBars(m: Meta, g: Grid, now: int): int {
    Max(1, (now - m.lastBarTs) / g.secs)
  }

  // The rows one call hands to the insert: a cold start asks for everything; otherwise the
  // gap plus the overlap bar, or the whole window again when the overlap bar disagrees.
  function Offered(st: SeriesState, g: Grid, count: nat, source: Source, t0: int): Fetch {
    match st.meta
    case None => source(0, count)
    case Some(m) =>
      match source(0, Min(GapBars(m, g, t0) + 1, count))
      case Failed => Failed
      case Fetched(window) =>
        if OverlapValid(st.bars, m.lastBarTs, window)
        then Fetched(Filter(window, (r: Row) => r.time > m.lastBarTs))
        else source(1, count)
  }

  // t0 is the clock reading that sizes the request, t1 the one the insert takes.
  function GetBars(st: SeriesState, symbol: string, g: Grid, count: nat, source: Source, t0: int, t1: int): FetchResult {
    match Offered(st, g, count, source, t0)
    case Failed => FetchResult(st, None)
    case Fetched(rows) =>
      var st' := Insert(st, symbol, g, rows, t1);
      FetchResult(st', Some(Newest(st'.bars, count)))
  }

  // ---------------------------------------------------------------- the series invariant

  // A stored bar is on its grid, plausible for its symbol and was closed when written.
  ghost predicate BarSound(symbol: string, g: Grid, ts: int, b: Bar) {
    OnGrid(ts, g) && Plausible(symbol, b.close) && ts + g.secs <= b.fetchedAt
  }

  ghost predicate SeriesInv(symbol: string, g: Grid, st: SeriesState) {
    && (st.meta.Some? <==> st.bars != map[])
    && (st.meta.Some? ==>
          && st.meta.value.barCount == |st.bars|
          && st.meta.value.lastBarTs in st.bars
          && st.bars[st.meta.value.lastBarTs].fetchedAt == st.meta.value.lastFetchedAt)
    && (forall ts :: ts in st.bars ==> BarSound(symbol, g, ts, st.bars[ts]))
  }

  // What a batch leaves behind: the last row of each timestamp, stamped with the write time.
  ghost function Stamped(rows: seq<Row>, now: int): Series {
    map t | t in LastWins(rows) :: BarOf(LastWins(rows)[t], now)
  }

  lemma {:induction false} UpsertIs(bars: Series, rows: seq<Row>, now: int)
    ensures Upsert(bars, rows, now) == bars + Stamped(rows, now)
  {
    if rows == [] {
      assert bars + Stamped(rows, now) == bars;
    } else {
      var init, last := rows[..|rows| - 1], rows[|rows| - 1];
      UpsertIs(bars, init, now);
      assert Stamped(rows, now) == Stamped(init, now)[last.time := BarOf(last, now)];
    }
  }

  lemma StampedKeys(rows: seq<Row>, now: int)
    ensures Stamped(rows, now).Keys == Times(rows)
  {
    LastWinsMembers(rows);
  }

  // An insert is all or nothing: either no table changes, or exactly the closed rows are
  // written (the last one per timestamp), every other bar is untouched, and the meta row
  // describes the new series.
  lemma InsertAllOrNothing(st: SeriesState, symbol: string, g: Grid, rows: seq<Row>, now: int)
    ensures var st' := Insert(st, symbol, g, rows, now);
            var closed := ClosedRows(rows, g, now);
            if Judge(st.bars, symbol, g, rows, now).Accepted? then
              && Times(closed) != {}
              && st'.bars == st.bars + Stamped(closed, now)
              && st'.meta == Some(Meta(MaxOf(Times(closed)), |st'.bars|, now))
            else
              st' == st
  {
    if Judge(st.bars, symbol, g, rows, now).Accepted? {
      var closed := ClosedRows(rows, g, now);
      UpsertIs(st.bars, closed, now);
      assert closed[0].time in Times(closed);
    }
  }

  lemma AcceptedWrites(st: SeriesState, symbol: string, g: Grid, rows: seq<Row>, now: int)
    requires Judge(st.bars, symbol, g, rows, now).Accepted?
    ensures var closed := ClosedRows(rows, g, now);
            closed != [] && Insert(st, symbol, g, rows, now) == Write(st.bars, closed, now)
  {
  }

  lemma AcceptedRows(bars: Series, symbol: string, g: Grid, rows: seq<Row>, now: int)
    requires Judge(bars, symbol, g, rows, now).Accepted?
    ensures forall r :: r in ClosedRows(rows, g, now) ==>
              r in rows && BarSound(symbol, g, r.time, BarOf(r, now))
  {
  }

  lemma InsertKeepsInv(st: SeriesState, symbol: string, g: Grid, rows: seq<Row>, now: int)
    requires SeriesInv(symbol, g, st)
    ensures SeriesInv(symbol, g, Insert(st, symbol, g, rows, now))
  {
    InsertAllOrNothing(st, symbol, g, rows, now);
    if Judge(st.bars, symbol, g, rows, now).Accepted? {
      var closed := ClosedRows(rows, g, now);
      var st' := Insert(st, symbol, g, rows, now);
      AcceptedRows(st.bars, symbol, g, rows, now);
      LastWinsMembers(closed);
      forall ts | ts in st'.bars ensures BarSound(symbol, g, ts, st'.bars[ts]) {
        if ts in LastWins(closed) {
          assert LastWins(closed)[ts] in closed;
        }
      }
    }
  }
}
