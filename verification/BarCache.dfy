// The cache object: its methods change the two tables in place and are proved to do what
// the command functions of CacheStore say.

module BarCaches {
  import opened Rows
  import opened Timeframes
  import opened CacheModel
  import opened CacheStore

  datatype CacheError = UnknownTimeframe | FetchFailed | EmptyFrame

  datatype Result<+T> = Ok(value: T) | Err(error: CacheError)

  class BarCache {
    var bars: map<Key, Series>
    var meta: map<Key, Meta>

    function Tables(): Store
      reads this
    {
      Store(bars, meta)
    }

    ghost predicate Valid()
      reads this
    {
      StoreInv(Tables())
    }

    constructor ()
      ensures Valid() && Tables() == EMPTY_STORE
    {
      bars, meta := map[], map[];
    }

    // One write attempt: closed-bar filter, three guards, then one transaction.
    method InsertBars(k: Key, rows: seq<Row>, now: int) returns (error: Option<CacheError>)
      requires Valid()
      modifies this
      ensures Valid()
      ensures Tables() == InsertAt(old(Tables()), k, rows, now)
      ensures error == if GridOf(k.timeframe).None? then Some(UnknownTimeframe) else None
    {
      InsertAtKeepsInv(Tables(), k, rows, now);
      error := None;
      if GridOf(k.timeframe).None? {
        return Some(UnknownTimeframe);
      }
      var g := GridOf(k.timeframe).value;
      var before := At(Tables(), k);
      PutSame(Tables(), k);
      var closed := ClosedRows(rows, g, now);
      if closed == [] {
        return;
      }
      var bad := Filter(closed, (r: Row) => !Plausible(k.symbol, r.close));
      if bad != [] {
        assert bad[0] in bad;
        return;
      }
      if Drifts(before.bars, closed[|closed| - 1].close) {
        return;
      }
      var misaligned := Filter(closed, (r: Row) => !OnGrid(r.time, g));
      if misaligned != [] {
        assert misaligned[0] in misaligned;
        return;
      }
      UpsertRows(k, closed, now);
      assert closed[0].time in Times(closed);
      meta := meta[k := Meta(MaxOf(Times(closed)), |bars[k]|, now)];
    }

    // The row statements of the write transaction, one per row in order.
    method UpsertRows(k: Key, rows: seq<Row>, now: int)
      requires rows != []
      modifies this`bars
      ensures bars == old(bars)[k := Upsert(At(old(Tables()), k).bars, rows, now)]
      ensures bars[k] != map[]
    {
      ghost var before := At(Tables(), k).bars;
      bars := bars[k := At(Tables(), k).bars];
      var i := 0;
      while i < |rows|
        invariant 0 <= i <= |rows|
        invariant bars == old(bars)[k := Upsert(before, rows[..i], now)]
        invariant i > 0 ==> bars[k] != map[]
      {
        var r := rows[i];
        assert rows[..i + 1][..i] == rows[..i];
        bars := bars[k := bars[k][r.time := BarOf(r, now)]];
        assert r.time in bars[k];
        i := i + 1;
      }
      assert rows[..i] == rows;
    }

    // What a validated fetch obtains from the source; nothing is written here, so a fetch that
    // fails after a mismatch leaves the tables alone.
    method FetchRows(k: Key, g: Grid, count: nat, source: Source, t0: int) returns (f: Fetch)
      ensures f == Offered(At(Tables(), k), g, count, source, t0)
    {
      if k !in meta {
        return source(0, count);
      }
      var m := meta[k];
      f := source(0, Min(GapBars(m, g, t0) + 1, count));
      if f.Failed? {
        return;
      }
      if OverlapValid(At(Tables(), k).bars, m.lastBarTs, f.rows) {
        f := Fetched(Filter(f.rows, (r: Row) => r.time > m.lastBarTs));
      } else {
        // Refetch first: nothing is deleted ahead of a successful fetch.
        f := source(1, count);
      }
    }

    // Validated fetch of a feed of the default provider. On an unknown timeframe it raises,
    // from the fetch or from the insert.
    method GetBars(symbol: string, timeframe: string, count: nat, source: Source, t0: int, t1: int)
      returns (answer: Result<seq<Row>>)
      requires Valid()
      modifies this
      ensures Valid()
      ensures Tables() == GetBarsAt(old(Tables()), symbol, timeframe, count, source, t0, t1)
      ensures match GridOf(timeframe)
              case None => answer.Err?
              case Some(g) =>
                answer == match CacheModel.GetBars(At(old(Tables()), DefaultKey(symbol, timeframe)), symbol, g, count, source, t0, t1).answer
                          case None => Err(FetchFailed)
                          case Some(rows) => Ok(rows)
    {
      var k := DefaultKey(symbol, timeframe);
      PutSame(Tables(), k);
      if GridOf(timeframe).None? {
        return Err(UnknownTimeframe);
      }
      var f := FetchRows(k, GridOf(timeframe).value, count, source, t0);
      if f.Failed? {
        return Err(FetchFailed);
      }
      var error := InsertBars(k, f.rows, t1);
      PutAt(old(Tables()), k, Insert(At(old(Tables()), k), symbol, GridOf(timeframe).value, f.rows, t1));
      answer := Ok(Newest(At(Tables(), k).bars, count));
    }

    // Backfill through the same write path. A batch of which no row is plausible reaches the
    // insert as a frame without columns and raises.
    method WriteBars(symbol: string, timeframe: string, rows: seq<Row>, now: int) returns (stored: Result<nat>)
      requires Valid()
      modifies this
      ensures Valid()
      ensures Tables() == BackfillAt(old(Tables()), symbol, timeframe, rows, now)
      ensures rows == [] ==> stored == Ok(0)
      ensures stored.Ok? && rows != [] ==> stored.value == |At(Tables(), DefaultKey(symbol, timeframe)).bars|
      ensures stored.Err? <==> rows != [] && (GridOf(timeframe).None? || forall r :: r in rows ==> !Plausible(symbol, r.close))
    {
      var k := DefaultKey(symbol, timeframe);
      PutSame(Tables(), k);
      var plausible := Filter(rows, (r: Row) => Plausible(symbol, r.close));
      if rows == [] {
        return Ok(0);
      }
      if plausible == [] {
        assert forall r :: r in rows && Plausible(symbol, r.close) ==> r in plausible;
        return Err(if GridOf(timeframe).None? then UnknownTimeframe else EmptyFrame);
      }
      assert plausible[0] in plausible;
      var error := InsertBars(k, plausible, now);
      if error.Some? { return Err(error.value); }
      AtInvOf(Tables(), k);
      stored := Ok(if k in meta then meta[k].barCount else 0);
    }

    method Invalidate(k: Key)
      requires Valid()
      modifies this
      ensures Valid()
      ensures Tables() == InvalidateAt(old(Tables()), k)
    {
      PutKeepsInv(Tables(), k, EMPTY);
      bars := bars - {k};
      meta := meta - {k};
    }
  }
}
