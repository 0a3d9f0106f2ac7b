// The cache against a well-behaved source: a gap-free grid of final bars plus one bar
// still forming. What one poll keeps, stores and loses, through failed fetches, refused
// batches and bars that close while the poll is under way.

module SourceSync {
  import opened Rows
  import opened Timeframes
  import opened CacheModel

  // The command line tool never asks for more.
  const MAX_FETCH := 500

  // The final row of each slot.
  type Finals = int -> Row

  // rows are the newest n slots ending with the forming bar at `slot`; every slot before it
  // carries its final row, the forming bar anything.
  ghost predicate ServesNewest(rows: seq<Row>, n: nat, g: Grid, slot: int, finals: Finals) {
    && |rows| == n
    && forall i {:trigger rows[i]} :: 0 <= i < n ==>
         && rows[i].time == slot - (n - 1 - i) * g.secs
         && (i < n - 1 ==> rows[i] == finals(rows[i].time))
  }

  // An attempt may fail; if it answers, during the slot given, it serves the newest
  // min(count, 500) slots.
  ghost predicate HonestAt(source: Source, attempt: nat, g: Grid, slot: int, finals: Finals) {
    forall count: int {:trigger source(attempt, count)} ::
      count >= 1 && source(attempt, count).Fetched? ==>
        ServesNewest(source(attempt, count).rows, Min(count, MAX_FETCH), g, slot, finals)
  }

  lemma ServedTimes(rows: seq<Row>, n: nat, g: Grid, slot: int, finals: Finals)
    requires ServesNewest(rows, n, g, slot, finals) && n >= 1 && OnGrid(slot, g)
    ensures forall ts :: ts in Times(rows) <==> OnGrid(ts, g) && slot - (n - 1) * g.secs <= ts <= slot
  {
    forall ts | ts in Times(rows) ensures OnGrid(ts, g) && slot - (n - 1) * g.secs <= ts <= slot {
      var i :| 0 <= i < n && rows[i].time == ts;
      GridShift(slot, -(n - 1 - i), g);
      assert ts == slot + -(n - 1 - i) * g.secs;
      MulOrder(0, n - 1 - i, g.secs);
      MulOrder(n - 1 - i, n - 1, g.secs);
    }
    forall ts | OnGrid(ts, g) && slot - (n - 1) * g.secs <= ts <= slot ensures ts in Times(rows) {
      var k := (slot - ts) / g.secs;
      GridDistance(ts, slot, g);
      assert slot == ts + k * g.secs;
      assert 0 <= k <= n - 1 by {
        MulOrder(0, k, g.secs);
        MulOrder(k, n - 1, g.secs);
      }
      assert rows[n - 1 - k].time == ts;
      assert rows[n - 1 - k] in rows;
    }
  }

  // The overlap bar is part of the gap + 1 request exactly when the request is not capped.
  lemma OverlapServedIff(rows: seq<Row>, last: int, gap: int, count: nat, g: Grid, slot: int, finals: Finals)
    requires OnGrid(slot, g) && gap >= 0 && slot == last + gap * g.secs && count >= 1
    requires ServesNewest(rows, Min(Min(gap + 1, count), MAX_FETCH), g, slot, finals)
    ensures last in Times(rows) <==> gap + 1 <= Min(count, 500)
  {
    var n := Min(Min(gap + 1, count), MAX_FETCH);
    ServedTimes(rows, n, g, slot, finals);
    assert OnGrid(last, g) && last <= slot by {
      GridShift(last, gap, g);
      MulOrder(0, gap, g.secs);
    }
    MulOrder(gap, n - 1, g.secs);
  }

  // ---------------------------------------------------------------- the cache and one poll

  // Every slot between the oldest and newest stored bar is stored.
  ghost predicate GapFree(bars: Series, g: Grid)
    requires bars != map[]
  {
    forall ts :: OnGrid(ts, g) && MinOf(bars.Keys) <= ts <= MaxOf(bars.Keys) ==> ts in bars
  }

  ghost predicate Agrees(bars: Series, finals: Finals) {
    forall ts :: ts in bars ==> RowOf(ts, bars[ts]) == finals(ts)
  }

  // Every bar is on a slot, none past top.
  ghost predicate UpToSlot(bars: Series, g: Grid, top: int) {
    forall ts :: ts in bars ==> OnGrid(ts, g) && ts <= top
  }

  // bars' holds the times of bars and every slot from a to top.
  ghost predicate AddsSlots(bars: Series, bars': Series, g: Grid, a: int, top: int) {
    forall ts :: ts in bars' <==> ts in bars || (OnGrid(ts, g) && a <= ts <= top)
  }

  // last_bar_ts is the newest stored bar and was closed by `now`.
  ghost predicate Tracks(st: SeriesState, symbol: string, g: Grid, now: int) {
    && SeriesInv(symbol, g, st)
    && (st.meta.Some? ==>
          && st.meta.value.lastBarTs == MaxOf(st.bars.Keys)
          && st.meta.value.lastBarTs + g.secs <= now)
  }

  ghost predicate NoGaps(st: SeriesState, g: Grid) {
    st.bars != map[] ==> GapFree(st.bars, g)
  }

  // Gap-free, equal to the source, and last_bar_ts is the maximum and was closed by `now`.
  ghost predicate InSync(st: SeriesState, symbol: string, g: Grid, finals: Finals, now: int) {
    Tracks(st, symbol, g, now) && Agrees(st.bars, finals) && NoGaps(st, g)
  }

  // first and second are the forming slots when the source answers its two attempts.
  datatype PollEvent = PollEvent(count: nat, source: Source, t0: int, t1: int, first: int, second: int)

  // One poll of an honest source, which answers between the two clock readings of the cache;
  // any number of bars may close meanwhile.
  ghost predicate HonestPoll(e: PollEvent, g: Grid, finals: Finals, prev: int) {
    && e.count >= 1
    && prev <= e.t0 <= e.t1
    && OnGrid(e.first, g) && OnGrid(e.second, g)
    && SlotAt(e.t0, g) <= e.first <= e.second <= SlotAt(e.t1, g)
    && HonestAt(e.source, 0, g, e.first, finals)
    && HonestAt(e.source, 1, g, e.second, finals)
  }

  // No bar closes during the poll.
  predicate WithinOneSlot(e: PollEvent, g: Grid) {
    SlotAt(e.t0, g) == SlotAt(e.t1, g)
  }

  function Poll(st: SeriesState, symbol: string, g: Grid, e: PollEvent): SeriesState {
    GetBars(st, symbol, g, e.count, e.source, e.t0, e.t1).st
  }

  function Capped(count: nat): int { Min(count, MAX_FETCH) }

  // The slots the first request of a warm poll covers.
  function WindowSize(m: Meta, g: Grid, e: PollEvent): int {
    Min(Min(GapBars(m, g, e.t0) + 1, e.count), MAX_FETCH)
  }

  // The overlap bar of the first answer disagrees with the cache.
  predicate Disputed(st: SeriesState, g: Grid, e: PollEvent) {
    st.meta.Some? &&
    var window := e.source(0, Min(GapBars(st.meta.value, g, e.t0) + 1, e.count));
    window.Fetched? && !OverlapValid(st.bars, st.meta.value.lastBarTs, window.rows)
  }

  // The forming slot of the answer that reaches the insert ...
  function UsedSlot(st: SeriesState, g: Grid, e: PollEvent): int {
    if Disputed(st, g, e) then e.second else e.first
  }

  // ... and the first slot handed over.
  function StartSlot(st: SeriesState, g: Grid, e: PollEvent): int {
    if st.meta.None? || Disputed(st, g, e) then UsedSlot(st, g, e) - (Capped(e.count) - 1) * g.secs
    else Max(e.first - (WindowSize(st.meta.value, g, e) - 1) * g.secs, st.meta.value.lastBarTs + g.secs)
  }

  // The answer reaches back to the bar after the newest stored one.
  predicate Reaches(st: SeriesState, g: Grid, e: PollEvent) {
    st.meta.Some? ==> StartSlot(st, g, e) <= st.meta.value.lastBarTs + g.secs
  }

  // rows offers every slot from a to the forming one, in order, each earlier one with its
  // final row.
  ghost predicate Offers(rows: seq<Row>, a: int, g: Grid, slot: int, finals: Finals) {
    && Ascending(rows)
    && (forall ts :: ts in Times(rows) <==> OnGrid(ts, g) && a <= ts <= slot)
    && (forall r :: r in rows && r.time < slot ==> r == finals(r.time))
  }

  // ---------------------------------------------------------------- what a poll offers

  lemma ServedAscending(rows: seq<Row>, n: nat, g: Grid, slot: int, finals: Finals)
    requires ServesNewest(rows, n, g, slot, finals)
    ensures Ascending(rows)
  {
    forall i, j | 0 <= i < j < n ensures rows[i].time < rows[j].time {
      MulOrder(n - 1 - j, n - 1 - i, g.secs);
    }
  }

  lemma ServedOffers(rows: seq<Row>, n: nat, g: Grid, slot: int, finals: Finals)
    requires ServesNewest(rows, n, g, slot, finals) && n >= 1 && OnGrid(slot, g)
    ensures Offers(rows, slot - (n - 1) * g.secs, g, slot, finals)
  {
    ServedAscending(rows, n, g, slot, finals);
    ServedTimes(rows, n, g, slot, finals);
    forall r | r in rows && r.time < slot ensures r == finals(r.time) {
      var i :| 0 <= i < n && rows[i] == r;
      assert i != n - 1;
    }
  }

  lemma {:induction false} FilterAscending(rows: seq<Row>, p: Row -> bool)
    requires Ascending(rows)
    ensures Ascending(Filter(rows, p))
  {
    if rows != [] {
      var init, last := rows[..|rows| - 1], rows[|rows| - 1];
      FilterAscending(init, p);
      assert forall r :: r in init ==> r.time < last.time;
      if p(last) { AscendingSnoc(Filter(init, p), last); }
    }
  }

  lemma LaterOffers(rows: seq<Row>, a: int, g: Grid, slot: int, finals: Finals, last: int)
    requires Offers(rows, a, g, slot, finals) && OnGrid(last, g)
    ensures Offers(Filter(rows, (r: Row) => r.time > last), Max(a, last + g.secs), g, slot, finals)
  {
    var later := Filter(rows, (r: Row) => r.time > last);
    FilterAscending(rows, (r: Row) => r.time > last);
    forall ts ensures ts in Times(later) <==> OnGrid(ts, g) && Max(a, last + g.secs) <= ts <= slot {
      if ts in Times(rows) {
        if last < ts { GridDistance(last, ts, g); }
        var r :| r in rows && r.time == ts;
        assert r in later <==> ts > last;
      }
    }
  }

  lemma HonestAnswer(source: Source, attempt: nat, g: Grid, slot: int, finals: Finals, count: int)
    requires HonestAt(source, attempt, g, slot, finals) && OnGrid(slot, g)
    requires count >= 1 && source(attempt, count).Fetched?
    ensures Offers(source(attempt, count).rows, slot - (Min(count, MAX_FETCH) - 1) * g.secs, g, slot, finals)
  {
    ServedOffers(source(attempt, count).rows, Min(count, MAX_FETCH), g, slot, finals);
  }

  lemma OfferedIs(st: SeriesState, g: Grid, e: PollEvent)
    requires Offered(st, g, e.count, e.source, e.t0).Fetched?
    ensures st.meta.None? ==> Offered(st, g, e.count, e.source, e.t0) == e.source(0, e.count)
    ensures Disputed(st, g, e) ==> Offered(st, g, e.count, e.source, e.t0) == e.source(1, e.count)
    ensures st.meta.Some? && !Disputed(st, g, e) ==>
              var last := st.meta.value.lastBarTs;
              var window := e.source(0, Min(GapBars(st.meta.value, g, e.t0) + 1, e.count));
              window.Fetched? && Offered(st, g, e.count, e.source, e.t0).rows == Filter(window.rows, (r: Row) => r.time > last)
  {
  }

  // Whatever an honest poll hands to the insert is such an offer.
  lemma PollOffers(st: SeriesState, symbol: string, g: Grid, e: PollEvent, finals: Finals, prev: int)
    requires Tracks(st, symbol, g, prev) && HonestPoll(e, g, finals, prev)
    requires Offered(st, g, e.count, e.source, e.t0).Fetched?
    ensures Offers(Offered(st, g, e.count, e.source, e.t0).rows, StartSlot(st, g, e), g, UsedSlot(st, g, e), finals)
  {
    if st.meta.None? || Disputed(st, g, e) {
      WholeWindowOffers(st, g, e, finals, prev);
    } else {
      assert OnGrid(st.meta.value.lastBarTs, g) by {
        assert BarSound(symbol, g, st.meta.value.lastBarTs, st.bars[st.meta.value.lastBarTs]);
      }
      AppendedOffers(st, g, e, finals, prev);
    }
  }

  lemma WholeWindowOffers(st: SeriesState, g: Grid, e: PollEvent, finals: Finals, prev: int)
    requires HonestPoll(e, g, finals, prev) && Offered(st, g, e.count, e.source, e.t0).Fetched?
    requires st.meta.None? || Disputed(st, g, e)
    ensures Offers(Offered(st, g, e.count, e.source, e.t0).rows, StartSlot(st, g, e), g, UsedSlot(st, g, e), finals)
  {
    OfferedIs(st, g, e);
    HonestAnswer(e.source, if Disputed(st, g, e) then 1 else 0, g, UsedSlot(st, g, e), finals, e.count);
  }

  lemma AppendedOffers(st: SeriesState, g: Grid, e: PollEvent, finals: Finals, prev: int)
    requires HonestPoll(e, g, finals, prev) && Offered(st, g, e.count, e.source, e.t0).Fetched?
    requires st.meta.Some? && !Disputed(st, g, e) && OnGrid(st.meta.value.lastBarTs, g)
    ensures Offers(Offered(st, g, e.count, e.source, e.t0).rows, StartSlot(st, g, e), g, UsedSlot(st, g, e), finals)
  {
    OfferedIs(st, g, e);
    AppendOffers(st.meta.value, g, e, finals);
  }

  lemma AppendOffers(m: Meta, g: Grid, e: PollEvent, finals: Finals)
    requires OnGrid(m.lastBarTs, g) && OnGrid(e.first, g) && HonestAt(e.source, 0, g, e.first, finals)
    requires e.count >= 1 && e.source(0, Min(GapBars(m, g, e.t0) + 1, e.count)).Fetched?
    ensures Offers(Filter(e.source(0, Min(GapBars(m, g, e.t0) + 1, e.count)).rows, (r: Row) => r.time > m.lastBarTs),
                   Max(e.first - (WindowSize(m, g, e) - 1) * g.secs, m.lastBarTs + g.secs), g, e.first, finals)
  {
    var asked := Min(GapBars(m, g, e.t0) + 1, e.count);
    HonestAnswer(e.source, 0, g, e.first, finals, asked);
    LaterOffers(e.source(0, asked).rows, e.first - (WindowSize(m, g, e) - 1) * g.secs, g, e.first, finals, m.lastBarTs);
  }

  // ---------------------------------------------------------------- what an accepted offer does

  lemma ClosedSlot(ts: int, g: Grid, now: int)
    requires OnGrid(ts, g)
    ensures ts + g.secs <= now <==> ts <= SlotAt(now, g) - g.secs
  {
    SlotBounds(now, g);
    if ts + g.secs <= now && ts >= SlotAt(now, g) {
      SlotUnique(ts, now, g);
    }
    if ts < SlotAt(now, g) {
      GridDistance(ts, SlotAt(now, g), g);
    }
  }

  // The newest slot of an offer that is closed at `now`.
  function Top(slot: int, now: int, g: Grid): int {
    Min(slot, SlotAt(now, g) - g.secs)
  }

  lemma TopIs(slot: int, now: int, g: Grid)
    requires OnGrid(slot, g)
    ensures OnGrid(Top(slot, now, g), g) && Top(slot, now, g) + g.secs <= now
    ensures forall ts :: OnGrid(ts, g) && ts <= slot ==> (ts + g.secs <= now <==> ts <= Top(slot, now, g))
  {
    SlotBounds(now, g);
    GridShift(SlotAt(now, g), -1, g);
    forall ts | OnGrid(ts, g) && ts <= slot ensures ts + g.secs <= now <==> ts <= Top(slot, now, g) {
      ClosedSlot(ts, g, now);
    }
  }

  lemma ClosedOffered(rows: seq<Row>, a: int, g: Grid, slot: int, now: int, finals: Finals)
    requires Offers(rows, a, g, slot, finals) && OnGrid(slot, g)
    ensures var closed := ClosedRows(rows, g, now);
            && Ascending(closed)
            && (forall ts :: ts in Times(closed) <==> OnGrid(ts, g) && a <= ts <= Top(slot, now, g))
  {
    var closed := ClosedRows(rows, g, now);
    FilterAscending(rows, (r: Row) => r.time + g.secs <= now);
    TopIs(slot, now, g);
    forall ts ensures ts in Times(closed) <==> OnGrid(ts, g) && a <= ts <= Top(slot, now, g) {
      if ts in Times(rows) {
        var r :| r in rows && r.time == ts;
        assert r in closed <==> ts + g.secs <= now;
      }
    }
  }

  // The bar still forming when the source answered carries its final values already.
  ghost predicate FormingIsFinal(rows: seq<Row>, slot: int, finals: Finals) {
    forall r :: r in rows && r.time == slot ==> r == finals(slot)
  }

  lemma ClosedFinalIff(rows: seq<Row>, a: int, g: Grid, slot: int, now: int, finals: Finals)
    requires Offers(rows, a, g, slot, finals)
    ensures (forall r :: r in ClosedRows(rows, g, now) ==> r == finals(r.time))
            <==> now < slot + g.secs || FormingIsFinal(rows, slot, finals)
  {
    forall r | r in rows ensures r.time < slot || r.time == slot {
      assert r.time in Times(rows);
    }
  }

  lemma StampAgreesIff(bars: Series, closed: seq<Row>, now: int, finals: Finals)
    requires Agrees(bars, finals) && DistinctTimes(closed)
    ensures Agrees(bars + Stamped(closed, now), finals) <==> forall r :: r in closed ==> r == finals(r.time)
  {
    var bars' := bars + Stamped(closed, now);
    LastWinsMembers(closed);
    LastWinsDistinct(closed);
    if Agrees(bars', finals) {
      forall r | r in closed ensures r == finals(r.time) {
        assert r.time in bars' && RowOf(r.time, bars'[r.time]) == r;
      }
    }
    if forall r :: r in closed ==> r == finals(r.time) {
      forall ts | ts in LastWins(closed) ensures LastWins(closed)[ts] == finals(ts) {
        assert LastWins(closed)[ts] in closed;
      }
    }
  }

  lemma WriteSlots(bars: Series, closed: seq<Row>, a: int, top: int, g: Grid, now: int)
    requires closed != [] && OnGrid(top, g)
    requires forall ts :: ts in Times(closed) <==> OnGrid(ts, g) && a <= ts <= top
    ensures var st' := Write(bars, closed, now);
            && a <= top
            && AddsSlots(bars, st'.bars, g, a, top)
            && st'.meta.Some? && st'.meta.value.lastBarTs == top
  {
    UpsertIs(bars, closed, now);
    StampedKeys(closed, now);
    assert closed[0].time in Times(closed);
    assert MaxOf(Times(closed)) in Times(closed);
    assert top in Times(closed);
  }

  // An accepted insert of an offer adds exactly its closed slots and moves last_bar_ts to the
  // newest of them.
  lemma AcceptedEffect(st: SeriesState, symbol: string, g: Grid, rows: seq<Row>, a: int, slot: int, t1: int, finals: Finals)
    requires Offers(rows, a, g, slot, finals) && OnGrid(slot, g)
    requires Judge(st.bars, symbol, g, rows, t1).Accepted?
    ensures var st' := Insert(st, symbol, g, rows, t1);
            var top := Top(slot, t1, g);
            && a <= top
            && AddsSlots(st.bars, st'.bars, g, a, top)
            && st'.meta.Some? && st'.meta.value.lastBarTs == top
  {
    AcceptedWrites(st, symbol, g, rows, t1);
    ClosedOffered(rows, a, g, slot, t1, finals);
    TopIs(slot, t1, g);
    WriteSlots(st.bars, ClosedRows(rows, g, t1), a, Top(slot, t1, g), g, t1);
  }

  lemma AscendingDistinct(rows: seq<Row>)
    requires Ascending(rows)
    ensures DistinctTimes(rows)
  {
  }

  // A series equal to the source stays so exactly when no unfinished bar was taken for closed.
  lemma AcceptedAgreesIff(st: SeriesState, symbol: string, g: Grid, rows: seq<Row>, a: int, slot: int, t1: int, finals: Finals)
    requires Offers(rows, a, g, slot, finals) && OnGrid(slot, g) && Agrees(st.bars, finals)
    requires Judge(st.bars, symbol, g, rows, t1).Accepted?
    ensures Agrees(Insert(st, symbol, g, rows, t1).bars, finals)
            <==> t1 < slot + g.secs || FormingIsFinal(rows, slot, finals)
  {
    var closed := ClosedRows(rows, g, t1);
    AcceptedWrites(st, symbol, g, rows, t1);
    UpsertIs(st.bars, closed, t1);
    ClosedOffered(rows, a, g, slot, t1, finals);
    AscendingDistinct(closed);
    StampAgreesIff(st.bars, closed, t1, finals);
    ClosedFinalIff(rows, a, g, slot, t1, finals);
  }

  // ---------------------------------------------------------------- one poll

  // Bars between the stored last one and the forming slot.
  lemma GapInSlots(last: int, t0: int, g: Grid)
    requires OnGrid(last, g) && last + g.secs <= t0
    ensures (t0 - last) / g.secs >= 1
    ensures SlotAt(t0, g) == last + (t0 - last) / g.secs * g.secs
  {
    var k, r := (t0 - last) / g.secs, (t0 - last) % g.secs;
    assert t0 == last + k * g.secs + r;
    AtLeastOne(k, g.secs);
    SlotFromGap(last, k, r, t0, g);
  }

  lemma AtLeastOne(k: int, d: int)
    requires 0 < d && 0 < k * d
    ensures k >= 1
  {
    MulOrder(k, 0, d);
  }

  lemma SlotFromGap(last: int, k: int, r: int, t0: int, g: Grid)
    requires OnGrid(last, g) && t0 == last + k * g.secs + r && 0 <= r < g.secs
    ensures SlotAt(t0, g) == last + k * g.secs
  {
    GridShift(last, k, g);
    SlotUnique(last + k * g.secs, t0, g);
  }

  // Every stored bar closed before the poll, so none is newer than the newest slot it closes.
  lemma StoredBelow(st: SeriesState, symbol: string, g: Grid, e: PollEvent, finals: Finals, prev: int, slot: int)
    requires Tracks(st, symbol, g, prev) && HonestPoll(e, g, finals, prev)
    requires OnGrid(slot, g) && e.first <= slot
    ensures UpToSlot(st.bars, g, Top(slot, e.t1, g))
    ensures st.meta.Some? ==> st.meta.value.lastBarTs + g.secs <= e.first
  {
    forall ts | ts in st.bars ensures OnGrid(ts, g) && ts <= Top(slot, e.t1, g) && ts + g.secs <= e.first {
      assert BarSound(symbol, g, ts, st.bars[ts]);
      ClosedSlot(ts, g, e.t0);
      TopIs(slot, e.t1, g);
    }
  }

  lemma NewestIsTop(bars: Series, bars': Series, g: Grid, a: int, top: int)
    requires UpToSlot(bars, g, top) && OnGrid(top, g) && a <= top
    requires AddsSlots(bars, bars', g, a, top)
    ensures top in bars' && MaxOf(bars'.Keys) == top
  {
    assert top in bars';
  }

  // Along honest polls last_bar_ts is always the newest stored bar, whatever the gap and
  // however many bars close while the poll is under way.
  lemma PollTracks(st: SeriesState, symbol: string, g: Grid, e: PollEvent, finals: Finals, prev: int)
    requires Tracks(st, symbol, g, prev) && HonestPoll(e, g, finals, prev)
    ensures Tracks(Poll(st, symbol, g, e), symbol, g, e.t1)
  {
    if StoresRows(st, symbol, g, e) {
      var slot, rows := UsedSlot(st, g, e), Offered(st, g, e.count, e.source, e.t0).rows;
      var st' := Insert(st, symbol, g, rows, e.t1);
      assert SeriesInv(symbol, g, st') by { InsertKeepsInv(st, symbol, g, rows, e.t1); }
      PollEffect(st, symbol, g, e, finals, prev);
      StoredBelow(st, symbol, g, e, finals, prev, slot);
      TopIs(slot, e.t1, g);
      NewestIsTop(st.bars, st'.bars, g, StartSlot(st, g, e), Top(slot, e.t1, g));
    } else {
      NothingStored(st, symbol, g, e);
    }
  }

  // The poll obtains rows and the guards let them in.
  predicate StoresRows(st: SeriesState, symbol: string, g: Grid, e: PollEvent) {
    var offer := Offered(st, g, e.count, e.source, e.t0);
    offer.Fetched? && Judge(st.bars, symbol, g, offer.rows, e.t1).Accepted?
  }

  lemma NothingStored(st: SeriesState, symbol: string, g: Grid, e: PollEvent)
    requires !StoresRows(st, symbol, g, e)
    ensures Poll(st, symbol, g, e) == st
  {
  }

  lemma PollEffect(st: SeriesState, symbol: string, g: Grid, e: PollEvent, finals: Finals, prev: int)
    requires Tracks(st, symbol, g, prev) && HonestPoll(e, g, finals, prev) && StoresRows(st, symbol, g, e)
    ensures var st' := Poll(st, symbol, g, e);
            var top := Top(UsedSlot(st, g, e), e.t1, g);
            && st' == Insert(st, symbol, g, Offered(st, g, e.count, e.source, e.t0).rows, e.t1)
            && StartSlot(st, g, e) <= top
            && AddsSlots(st.bars, st'.bars, g, StartSlot(st, g, e), top)
            && st'.meta.Some? && st'.meta.value.lastBarTs == top
  {
    PollOffers(st, symbol, g, e, finals, prev);
    AcceptedEffect(st, symbol, g, Offered(st, g, e.count, e.source, e.t0).rows, StartSlot(st, g, e),
                   UsedSlot(st, g, e), e.t1, finals);
  }

  // Adding the slots a..top to a gap-free series leaves no hole exactly when a is at most one
  // past its newest bar.
  lemma ExtendGapFreeIff(bars: Series, bars': Series, g: Grid, a: int, top: int)
    requires bars != map[] && GapFree(bars, g) && UpToSlot(bars, g, top)
    requires OnGrid(top, g) && a <= top
    requires AddsSlots(bars, bars', g, a, top)
    ensures bars' != map[] && (GapFree(bars', g) <==> a <= MaxOf(bars.Keys) + g.secs)
  {
    var last := MaxOf(bars.Keys);
    NewestIsTop(bars, bars', g, a, top);
    if a <= last + g.secs {
      forall ts | OnGrid(ts, g) && MinOf(bars'.Keys) <= ts <= top ensures ts in bars' {
        if ts < a {
          assert MinOf(bars'.Keys) in bars;
          if last < ts { GridDistance(last, ts, g); }
        }
      }
    } else {
      GridShift(last, 1, g);
      assert last in bars' && last + g.secs !in bars';
      assert MinOf(bars'.Keys) <= last;
    }
  }

  lemma FirstSlotsGapFree(bars: Series, bars': Series, g: Grid, a: int, top: int)
    requires bars == map[] && OnGrid(top, g) && a <= top && AddsSlots(bars, bars', g, a, top)
    ensures bars' != map[] && GapFree(bars', g)
  {
    NewestIsTop(bars, bars', g, a, top);
  }

  // A poll keeps a gap-free series gap-free exactly when its answer, if stored, reaches back
  // to the cache.
  lemma PollKeepsGapFree(st: SeriesState, symbol: string, g: Grid, e: PollEvent, finals: Finals, prev: int)
    requires Tracks(st, symbol, g, prev) && NoGaps(st, g) && HonestPoll(e, g, finals, prev)
    ensures NoGaps(Poll(st, symbol, g, e), g) <==> (StoresRows(st, symbol, g, e) ==> Reaches(st, g, e))
  {
    if StoresRows(st, symbol, g, e) {
      var a, top := StartSlot(st, g, e), Top(UsedSlot(st, g, e), e.t1, g);
      var bars' := Poll(st, symbol, g, e).bars;
      assert a <= top && AddsSlots(st.bars, bars', g, a, top) by { PollEffect(st, symbol, g, e, finals, prev); }
      assert UpToSlot(st.bars, g, top) by { StoredBelow(st, symbol, g, e, finals, prev, UsedSlot(st, g, e)); }
      assert OnGrid(top, g) by { TopIs(UsedSlot(st, g, e), e.t1, g); }
      if st.meta.None? {
        FirstSlotsGapFree(st.bars, bars', g, a, top);
      } else {
        ExtendGapFreeIff(st.bars, bars', g, a, top);
      }
    } else {
      NothingStored(st, symbol, g, e);
    }
  }

  // No bar still forming when the source answered is closed by the time the insert reads the
  // clock, or its values were final already.
  ghost predicate FormingSafe(st: SeriesState, g: Grid, e: PollEvent, finals: Finals) {
    var offer := Offered(st, g, e.count, e.source, e.t0);
    var slot := UsedSlot(st, g, e);
    offer.Fetched? ==> e.t1 < slot + g.secs || FormingIsFinal(offer.rows, slot, finals)
  }

  // A cache equal to the source stays so exactly when the poll stores no unfinished bar.
  lemma PollAgreesIff(st: SeriesState, symbol: string, g: Grid, e: PollEvent, finals: Finals, prev: int)
    requires Tracks(st, symbol, g, prev) && Agrees(st.bars, finals) && HonestPoll(e, g, finals, prev)
    ensures Agrees(Poll(st, symbol, g, e).bars, finals)
            <==> (StoresRows(st, symbol, g, e) ==> FormingSafe(st, g, e, finals))
  {
    if StoresRows(st, symbol, g, e) {
      PollEffect(st, symbol, g, e, finals, prev);
      PollOffers(st, symbol, g, e, finals, prev);
      AcceptedAgreesIff(st, symbol, g, Offered(st, g, e.count, e.source, e.t0).rows, StartSlot(st, g, e),
                        UsedSlot(st, g, e), e.t1, finals);
    } else {
      NothingStored(st, symbol, g, e);
    }
  }

  // Through failed fetches and refused batches, a poll keeps the series gap-free, equal to the
  // source, with last_bar_ts its maximum, exactly when what it stores reaches the cache and
  // holds no unfinished bar.
  lemma PollKeepsInSync(st: SeriesState, symbol: string, g: Grid, e: PollEvent, finals: Finals, prev: int)
    requires InSync(st, symbol, g, finals, prev) && HonestPoll(e, g, finals, prev)
    ensures InSync(Poll(st, symbol, g, e), symbol, g, finals, e.t1)
            <==> (StoresRows(st, symbol, g, e) ==> Reaches(st, g, e) && FormingSafe(st, g, e, finals))
  {
    PollTracks(st, symbol, g, e, finals, prev);
    PollKeepsGapFree(st, symbol, g, e, finals, prev);
    PollAgreesIff(st, symbol, g, e, finals, prev);
  }

  // A poll that stores anything stores every slot closed by the insert, provided at most one
  // bar closed since the source answered; then no further bar can exist before two widths.
  lemma PollCatchesUpIff(st: SeriesState, symbol: string, g: Grid, e: PollEvent, finals: Finals, prev: int)
    requires Tracks(st, symbol, g, prev) && HonestPoll(e, g, finals, prev) && StoresRows(st, symbol, g, e)
    ensures var st' := Poll(st, symbol, g, e);
            && st'.meta.Some?
            && st'.meta.value.lastBarTs == Top(UsedSlot(st, g, e), e.t1, g)
            && (e.t1 - st'.meta.value.lastBarTs < 2 * g.secs <==> SlotAt(e.t1, g) - g.secs <= UsedSlot(st, g, e))
  {
    PollEffect(st, symbol, g, e, finals, prev);
    TopWithinTwo(UsedSlot(st, g, e), e.t1, g);
  }

  lemma TopWithinTwo(slot: int, now: int, g: Grid)
    requires OnGrid(slot, g)
    ensures now - Top(slot, now, g) < 2 * g.secs <==> SlotAt(now, g) - g.secs <= slot
  {
    SlotBounds(now, g);
    GridShift(SlotAt(now, g), -1, g);
    if slot < SlotAt(now, g) - g.secs {
      GridDistance(slot, SlotAt(now, g) - g.secs, g);
    }
  }

  // ---------------------------------------------------------------- a poll within one slot

  // A window of n slots ending at `slot` starts at most one past `last` exactly when it
  // covers the gap.
  lemma StartOfOffer(last: int, gap: int, n: int, g: Grid, slot: int)
    requires slot == last + gap * g.secs
    ensures gap <= n <==> slot - (n - 1) * g.secs <= last + g.secs
  {
    MulOrder(gap, n, g.secs);
    assert (n - 1) * g.secs == n * g.secs - g.secs;
  }

  // When no bar closes meanwhile, the answer reaches the cache exactly when the gap fits one
  // request, and no unfinished bar is stored.
  lemma WithinOneSlotIs(st: SeriesState, symbol: string, g: Grid, e: PollEvent, finals: Finals, prev: int)
    requires Tracks(st, symbol, g, prev) && HonestPoll(e, g, finals, prev) && WithinOneSlot(e, g)
    ensures FormingSafe(st, g, e, finals)
    ensures Reaches(st, g, e) <==> (st.meta.Some? ==> GapBars(st.meta.value, g, e.t0) <= Min(e.count, 500))
  {
    SlotBounds(e.t1, g);
    if st.meta.Some? {
      var last, gap := st.meta.value.lastBarTs, GapBars(st.meta.value, g, e.t0);
      assert OnGrid(last, g) by { assert BarSound(symbol, g, last, st.bars[last]); }
      GapInSlots(last, e.t0, g);
      StartOfOffer(last, gap, WindowSize(st.meta.value, g, e), g, e.first);
      StartOfOffer(last, gap, Capped(e.count), g, e.first);
    }
  }

  // ---------------------------------------------------------------- when an answer is disputed

  // The two closes differ by more than the overlap check tolerates.
  predicate Differs(cached: real, offered: real) {
    cached != 0.0 && Abs(offered - cached) / Abs(cached) > OVERLAP_TOLERANCE
  }

  // An honest first answer is disputed exactly when it reaches back to the newest stored bar
  // and the final close of that bar differs from the stored one.
  lemma DisputedIff(st: SeriesState, symbol: string, g: Grid, e: PollEvent, finals: Finals, prev: int)
    requires Tracks(st, symbol, g, prev) && st.meta.Some? && HonestPoll(e, g, finals, prev)
    ensures var m := st.meta.value;
            Disputed(st, g, e)
            <==> && e.source(0, Min(GapBars(m, g, e.t0) + 1, e.count)).Fetched?
                 && e.first - (WindowSize(m, g, e) - 1) * g.secs <= m.lastBarTs
                 && Differs(st.bars[m.lastBarTs].close, finals(m.lastBarTs).close)
  {
    var m := st.meta.value;
    var asked := Min(GapBars(m, g, e.t0) + 1, e.count);
    if e.source(0, asked).Fetched? {
      HonestAnswer(e.source, 0, g, e.first, finals, asked);
      assert OnGrid(m.lastBarTs, g) && m.lastBarTs < e.first by {
        StoredBelow(st, symbol, g, e, finals, prev, e.first);
      }
      OverlapIs(st.bars, m.lastBarTs, e.source(0, asked).rows, e.first - (WindowSize(m, g, e) - 1) * g.secs, g, e.first, finals);
    }
  }

  lemma OverlapIs(bars: Series, last: int, rows: seq<Row>, a: int, g: Grid, slot: int, finals: Finals)
    requires Offers(rows, a, g, slot, finals) && last in bars && OnGrid(last, g) && last < slot
    ensures OverlapValid(bars, last, rows) <==> !(a <= last && Differs(bars[last].close, finals(last).close))
  {
    var own := RowsAt(rows, last);
    assert own != [] <==> last in Times(rows) by {
      if own != [] { assert own[0] in own; }
      if last in Times(rows) {
        var r :| r in rows && r.time == last;
        assert r in own;
      }
    }
    if own != [] {
      assert own[0] in own;
      assert own[0] == finals(last);
    }
  }

  // An honest answer never disputes a bar the cache holds with its final values.
  lemma NeverDisputed(st: SeriesState, symbol: string, g: Grid, e: PollEvent, finals: Finals, prev: int)
    requires Tracks(st, symbol, g, prev) && Agrees(st.bars, finals) && HonestPoll(e, g, finals, prev)
    ensures !Disputed(st, g, e)
  {
    if st.meta.Some? {
      var last := st.meta.value.lastBarTs;
      assert RowOf(last, st.bars[last]) == finals(last);
      DisputedIff(st, symbol, g, e, finals, prev);
    }
  }

  // ---------------------------------------------------------------- when an unfinished bar is repaired

  // Only the newest stored bar is not final.
  ghost predicate OnlyNewestUnfinished(st: SeriesState, finals: Finals) {
    st.meta.Some? &&
    var last := st.meta.value.lastBarTs;
    && last in st.bars && RowOf(last, st.bars[last]) != finals(last)
    && forall ts :: ts in st.bars && ts != last ==> RowOf(ts, st.bars[ts]) == finals(ts)
  }

  lemma OverwritesNewest(st: SeriesState, closed: seq<Row>, now: int, finals: Finals)
    requires OnlyNewestUnfinished(st, finals) && DistinctTimes(closed)
    requires forall r :: r in closed ==> r == finals(r.time)
    ensures Agrees(st.bars + Stamped(closed, now), finals) <==> st.meta.value.lastBarTs in Times(closed)
  {
    var last := st.meta.value.lastBarTs;
    var bars' := st.bars + Stamped(closed, now);
    LastWinsMembers(closed);
    LastWinsDistinct(closed);
    StampedKeys(closed, now);
    forall ts | ts in bars' && (ts in Times(closed) || ts != last) ensures RowOf(ts, bars'[ts]) == finals(ts) {
      if ts in Times(closed) { assert LastWins(closed)[ts] in closed; }
    }
    assert last in bars';
  }

  // A cache whose newest bar alone is unfinished becomes equal to the source again exactly when
  // an answer that disputes the bar is stored and its refetch reaches back to it.
  lemma PollRepairsIff(st: SeriesState, symbol: string, g: Grid, e: PollEvent, finals: Finals, prev: int)
    requires Tracks(st, symbol, g, prev) && OnlyNewestUnfinished(st, finals)
    requires HonestPoll(e, g, finals, prev) && FormingSafe(st, g, e, finals)
    ensures Agrees(Poll(st, symbol, g, e).bars, finals)
            <==> && StoresRows(st, symbol, g, e)
                 && Disputed(st, g, e)
                 && StartSlot(st, g, e) <= st.meta.value.lastBarTs
  {
    if StoresRows(st, symbol, g, e) {
      RepairedInRange(st, symbol, g, e, finals, prev);
    } else {
      NothingStored(st, symbol, g, e);
    }
  }

  lemma RepairedInRange(st: SeriesState, symbol: string, g: Grid, e: PollEvent, finals: Finals, prev: int)
    requires Tracks(st, symbol, g, prev) && OnlyNewestUnfinished(st, finals)
    requires HonestPoll(e, g, finals, prev) && FormingSafe(st, g, e, finals) && StoresRows(st, symbol, g, e)
    ensures Agrees(Poll(st, symbol, g, e).bars, finals) <==> Disputed(st, g, e) && StartSlot(st, g, e) <= st.meta.value.lastBarTs
  {
    var rows, a, slot := Offered(st, g, e.count, e.source, e.t0).rows, StartSlot(st, g, e), UsedSlot(st, g, e);
    var closed, last := ClosedRows(rows, g, e.t1), st.meta.value.lastBarTs;
    assert Poll(st, symbol, g, e).bars == st.bars + Stamped(closed, e.t1) by {
      AcceptedWrites(st, symbol, g, rows, e.t1);
      UpsertIs(st.bars, closed, e.t1);
    }
    PollOffers(st, symbol, g, e, finals, prev);
    ClosedOffered(rows, a, g, slot, e.t1, finals);
    ClosedFinalIff(rows, a, g, slot, e.t1, finals);
    AscendingDistinct(closed);
    OverwritesNewest(st, closed, e.t1, finals);
    assert OnGrid(last, g) && last <= Top(slot, e.t1, g) by {
      StoredBelow(st, symbol, g, e, finals, prev, slot);
    }
  }

  // So a snapshot whose close is within the tolerance of the final one stays, whatever its
  // volume and extremes.
  lemma ToleratedSnapshotStays(st: SeriesState, symbol: string, g: Grid, e: PollEvent, finals: Finals, prev: int)
    requires Tracks(st, symbol, g, prev) && OnlyNewestUnfinished(st, finals)
    requires HonestPoll(e, g, finals, prev) && FormingSafe(st, g, e, finals)
    requires !Differs(st.bars[st.meta.value.lastBarTs].close, finals(st.meta.value.lastBarTs).close)
    ensures !Agrees(Poll(st, symbol, g, e).bars, finals)
  {
    DisputedIff(st, symbol, g, e, finals, prev);
    PollRepairsIff(st, symbol, g, e, finals, prev);
  }

  // ---------------------------------------------------------------- a bar taken for closed too early

  // One insert of an honest answer: if the forming bar closes between the answer and the
  // insert's own clock reading, its snapshot is stored as if it were final, and the cache
  // stays equal to the source exactly when the bar had not closed or was final already.
  lemma LateInsertStoresFormingBar(st: SeriesState, symbol: string, g: Grid, rows: seq<Row>, n: nat, slot: int,
                                   now: int, finals: Finals)
    requires ServesNewest(rows, n, g, slot, finals) && n >= 1
    requires Agrees(st.bars, finals)
    requires Judge(st.bars, symbol, g, rows, now).Accepted?
    ensures var bars' := Insert(st, symbol, g, rows, now).bars;
            && (slot + g.secs <= now ==> slot in bars' && RowOf(slot, bars'[slot]) == rows[n - 1])
            && (Agrees(bars', finals) <==> now < slot + g.secs || rows[n - 1] == finals(slot))
  {
    var closed := ClosedRows(rows, g, now);
    ServedAscending(rows, n, g, slot, finals);
    FilterAscending(rows, (r: Row) => r.time + g.secs <= now);
    AscendingDistinct(closed);
    ServedFinalIff(rows, n, g, slot, now, finals);
    AcceptedWrites(st, symbol, g, rows, now);
    UpsertIs(st.bars, closed, now);
    StampAgreesIff(st.bars, closed, now, finals);
    LastWinsDistinct(closed);
  }

  lemma ServedFinalIff(rows: seq<Row>, n: nat, g: Grid, slot: int, now: int, finals: Finals)
    requires ServesNewest(rows, n, g, slot, finals) && n >= 1
    ensures (forall r :: r in ClosedRows(rows, g, now) ==> r == finals(r.time))
            <==> now < slot + g.secs || rows[n - 1] == finals(slot)
    ensures rows[n - 1].time == slot && (slot + g.secs <= now ==> rows[n - 1] in ClosedRows(rows, g, now))
  {
    assert rows[n - 1].time == slot;
    assert rows[n - 1] in rows;
    forall r | r in rows && r != rows[n - 1] ensures r == finals(r.time) {
      var i :| 0 <= i < n && rows[i] == r;
    }
  }

  // It happens: one bar, closing at 3 while forming and at 2 in the end.
  lemma FormingBarIsStored()
    ensures var g: Grid := RawGrid(60, 0);
            var finals: Finals := t => Row(t, 2.0, 2.0, 2.0, 2.0, 2.0);
            var rows := [Row(0, 2.0, 3.0, 2.0, 3.0, 1.0)];
            && ServesNewest(rows, 1, g, 0, finals)
            && Judge(EMPTY.bars, "X", g, rows, 60).Accepted?
            && !Agrees(Insert(EMPTY, "X", g, rows, 60).bars, finals)
  {
    var g: Grid := RawGrid(60, 0);
    var finals: Finals := t => Row(t, 2.0, 2.0, 2.0, 2.0, 2.0);
    var rows := [Row(0, 2.0, 3.0, 2.0, 3.0, 1.0)];
    FilterAll(rows, (r: Row) => r.time + g.secs <= 60);
    assert ClosedRows(rows, g, 60) == rows;
    assert Judge(EMPTY.bars, "X", g, rows, 60).Accepted?;
    LateInsertStoresFormingBar(EMPTY, "X", g, rows, 1, 0, 60, finals);
  }
}
