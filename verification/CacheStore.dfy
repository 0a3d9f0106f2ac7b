// The two tables, `bars` and `cache_meta`, over all keys: the commands that change them as
// functions, and what every run of commands keeps.

module CacheStore {
  import opened Rows
  import opened Timeframes
  import opened CacheModel
  import CacheTheorems

  datatype Key = Key(symbol: string, timeframe: string, provider: string)

  // Serving precedence; the first is also the default for writes.
  const TRADINGVIEW := "tradingview"
  const YAHOO := "yahoo"
  const DEFAULT_PROVIDER := TRADINGVIEW

  datatype Store = Store(bars: map<Key, Series>, meta: map<Key, Meta>)

  const EMPTY_STORE := Store(map[], map[])

  function At(s: Store, k: Key): SeriesState {
    SeriesState(if k in s.bars then s.bars[k] else map[], if k in s.meta then Some(s.meta[k]) else None)
  }

  // A key without rows is absent from the table.
  function Put(s: Store, k: Key, st: SeriesState): Store {
    Store(if st.bars == map[] then s.bars - {k} else s.bars[k := st.bars],
          if st.meta.None? then s.meta - {k} else s.meta[k := st.meta.value])
  }

  ghost predicate KeyInv(s: Store, k: Key) {
    && (k in s.bars ==> s.bars[k] != map[])
    && (k in s.bars || k in s.meta ==>
          GridOf(k.timeframe).Some? && SeriesInv(k.symbol, GridOf(k.timeframe).value, At(s, k)))
  }

  ghost predicate StoreInv(s: Store) {
    forall k {:trigger KeyInv(s, k)} :: KeyInv(s, k)
  }

  // ---------------------------------------------------------------- commands

  // Each returns the tables unchanged when it raises.
  function InsertAt(s: Store, k: Key, rows: seq<Row>, now: int): Store {
    match GridOf(k.timeframe)
    case None => s
    case Some(g) => Put(s, k, Insert(At(s, k), k.symbol, g, rows, now))
  }

  function DefaultKey(symbol: string, timeframe: string): Key {
    Key(symbol, timeframe, DEFAULT_PROVIDER)
  }

  function GetBarsAt(s: Store, symbol: string, timeframe: string, count: nat, source: Source, t0: int, t1: int): Store {
    var k := DefaultKey(symbol, timeframe);
    match GridOf(timeframe)
    case None => s
    case Some(g) => Put(s, k, GetBars(At(s, k), symbol, g, count, source, t0, t1).st)
  }

  // Backfill drops implausible rows first, so one outlier does not refuse the whole batch.
  function BackfillAt(s: Store, symbol: string, timeframe: string, rows: seq<Row>, now: int): Store {
    InsertAt(s, DefaultKey(symbol, timeframe), Filter(rows, (r: Row) => Plausible(symbol, r.close)), now)
  }

  function InvalidateAt(s: Store, k: Key): Store {
    Put(s, k, EMPTY)
  }

  datatype Command =
    | InsertRows(key: Key, rows: seq<Row>, now: int)
    | PollFeed(symbol: string, timeframe: string, count: nat, source: Source, t0: int, t1: int)
    | Backfill(symbol: string, timeframe: string, rows: seq<Row>, now: int)
    | Invalidate(key: Key)

  function Step(s: Store, c: Command): Store {
    match c
    case InsertRows(key, rows, now) => InsertAt(s, key, rows, now)
    case PollFeed(symbol, timeframe, count, source, t0, t1) => GetBarsAt(s, symbol, timeframe, count, source, t0, t1)
    case Backfill(symbol, timeframe, rows, now) => BackfillAt(s, symbol, timeframe, rows, now)
    case Invalidate(key) => InvalidateAt(s, key)
  }

  function Run(s: Store, cs: seq<Command>): Store {
    if cs == [] then s else Step(Run(s, cs[..|cs| - 1]), cs[|cs| - 1])
  }

  // ---------------------------------------------------------------- what runs keep

  lemma PutAt(s: Store, k: Key, st: SeriesState)
    ensures At(Put(s, k, st), k) == st
    ensures forall k' :: k' != k ==> At(Put(s, k, st), k') == At(s, k')
  {
  }

  lemma PutSame(s: Store, k: Key)
    requires StoreInv(s)
    ensures Put(s, k, At(s, k)) == s
  {
    var s' := Put(s, k, At(s, k));
    assert KeyInv(s, k);
    assert s'.bars == s.bars;
    assert s'.meta == s.meta;
  }

  lemma PutKeepsInv(s: Store, k: Key, st: SeriesState)
    requires StoreInv(s)
    requires st == EMPTY || (GridOf(k.timeframe).Some? && SeriesInv(k.symbol, GridOf(k.timeframe).value, st))
    ensures StoreInv(Put(s, k, st))
  {
    var s' := Put(s, k, st);
    PutAt(s, k, st);
    forall k' ensures KeyInv(s', k') {
      assert KeyInv(s, k');
      assert k' != k ==> At(s', k') == At(s, k');
    }
  }

  lemma AtInv(s: Store, k: Key)
    requires StoreInv(s) && GridOf(k.timeframe).Some?
    ensures SeriesInv(k.symbol, GridOf(k.timeframe).value, At(s, k))
  {
    assert KeyInv(s, k);
  }

  lemma AtInvOf(s: Store, k: Key)
    requires StoreInv(s)
    ensures k in s.meta <==> k in s.bars
    ensures k in s.meta ==> s.meta[k].barCount == |At(s, k).bars| && s.meta[k].lastBarTs in At(s, k).bars
    ensures k !in s.meta ==> At(s, k).bars == map[]
  {
    assert KeyInv(s, k);
  }

  lemma InsertAtKeepsInv(s: Store, k: Key, rows: seq<Row>, now: int)
    requires StoreInv(s)
    ensures StoreInv(InsertAt(s, k, rows, now))
  {
    match GridOf(k.timeframe)
    case None =>
    case Some(g) =>
      AtInv(s, k);
      InsertKeepsInv(At(s, k), k.symbol, g, rows, now);
      PutKeepsInv(s, k, Insert(At(s, k), k.symbol, g, rows, now));
  }

  lemma StepKeepsInv(s: Store, c: Command)
    requires StoreInv(s)
    ensures StoreInv(Step(s, c))
  {
    match c
    case InsertRows(key, rows, now) => InsertAtKeepsInv(s, key, rows, now);
    case PollFeed(symbol, timeframe, count, source, t0, t1) =>
      var k := DefaultKey(symbol, timeframe);
      if GridOf(timeframe).Some? {
        var g := GridOf(timeframe).value;
        AtInv(s, k);
        CacheTheorems.GetBarsKeepsInv(At(s, k), symbol, g, count, source, t0, t1);
        PutKeepsInv(s, k, GetBars(At(s, k), symbol, g, count, source, t0, t1).st);
      }
    case Backfill(symbol, timeframe, rows, now) =>
      InsertAtKeepsInv(s, DefaultKey(symbol, timeframe), Filter(rows, (r: Row) => Plausible(symbol, r.close)), now);
    case Invalidate(key) => PutKeepsInv(s, key, EMPTY);
  }

  // Every run from empty tables, with arbitrary rows, sources and clock readings: a meta row
  // exists iff the series is non-empty, counts it and names one of its bars, and every
  // stored bar is on grid, plausible and was closed when written.
  lemma {:induction false} RunKeepsInv(s: Store, cs: seq<Command>)
    requires StoreInv(s)
    ensures StoreInv(Run(s, cs))
  {
    if cs != [] {
      RunKeepsInv(s, cs[..|cs| - 1]);
      StepKeepsInv(Run(s, cs[..|cs| - 1]), cs[|cs| - 1]);
    }
  }

  lemma InsertAtNeverLosesBars(s: Store, k: Key, rows: seq<Row>, now: int, k': Key)
    ensures At(s, k').bars.Keys <= At(InsertAt(s, k, rows, now), k').bars.Keys
  {
    match GridOf(k.timeframe)
    case None =>
    case Some(g) =>
      PutAt(s, k, Insert(At(s, k), k.symbol, g, rows, now));
      InsertAllOrNothing(At(s, k), k.symbol, g, rows, now);
  }

  lemma StepNeverLosesBars(s: Store, c: Command, k: Key)
    requires !c.Invalidate?
    ensures At(s, k).bars.Keys <= At(Step(s, c), k).bars.Keys
  {
    match c
    case InsertRows(key, rows, now) => InsertAtNeverLosesBars(s, key, rows, now, k);
    case PollFeed(symbol, timeframe, count, source, t0, t1) =>
      var own := DefaultKey(symbol, timeframe);
      if GridOf(timeframe).Some? {
        var g := GridOf(timeframe).value;
        CacheTheorems.GetBarsNeverLosesBars(At(s, own), symbol, g, count, source, t0, t1);
        PutAt(s, own, GetBars(At(s, own), symbol, g, count, source, t0, t1).st);
      }
    case Backfill(symbol, timeframe, rows, now) =>
      InsertAtNeverLosesBars(s, DefaultKey(symbol, timeframe), Filter(rows, (r: Row) => Plausible(symbol, r.close)), now, k);
  }

  // Without an invalidate, no run ever loses a stored timestamp of any series.
  lemma {:induction false} RunNeverLosesBars(s: Store, cs: seq<Command>, k: Key)
    requires forall c :: c in cs ==> !c.Invalidate?
    ensures At(s, k).bars.Keys <= At(Run(s, cs), k).bars.Keys
  {
    if cs != [] {
      RunNeverLosesBars(s, cs[..|cs| - 1], k);
      assert cs[|cs| - 1] in cs;
      StepNeverLosesBars(Run(s, cs[..|cs| - 1]), cs[|cs| - 1], k);
    }
  }
}
