// Which polls of an honest source the guards let in, and when the drift guard and the
// plausibility band shut the source out for good.

module SyncGuards {
  import opened Rows
  import opened Timeframes
  import opened CacheModel
  import CacheTheorems
  import opened SourceSync
  import opened SyncRuns
  import opened SyncLoss

  // ---------------------------------------------------------------- which polls are accepted

  // What the drift guard refuses after a newest stored close.
  predicate MovesTooFar(stored: real, offered: real) {
    stored > 0.0 && Abs(offered - stored) / stored > INSERT_DRIFT_REJECT
  }

  ghost predicate AllPlausible(symbol: string, g: Grid, a: int, top: int, finals: Finals) {
    forall ts :: OnGrid(ts, g) && a <= ts <= top ==> Plausible(symbol, finals(ts).close)
  }

  // closed is the final rows of the slots from a to top.
  ghost predicate FinalSlots(closed: seq<Row>, g: Grid, a: int, top: int, finals: Finals) {
    && Ascending(closed)
    && (forall ts :: ts in Times(closed) <==> OnGrid(ts, g) && a <= ts <= top)
    && (forall r :: r in closed ==> r == finals(r.time))
  }

  lemma PlausibleSlots(closed: seq<Row>, symbol: string, g: Grid, a: int, top: int, finals: Finals)
    requires FinalSlots(closed, g, a, top, finals)
    ensures (forall r :: r in closed ==> Plausible(symbol, r.close)) <==> AllPlausible(symbol, g, a, top, finals)
  {
    forall r | r in closed ensures OnGrid(r.time, g) && a <= r.time <= top {
      assert r.time in Times(closed);
    }
    forall ts | OnGrid(ts, g) && a <= ts <= top ensures finals(ts) in closed {
      assert ts in Times(closed);
    }
  }

  lemma LastIsTop(closed: seq<Row>, g: Grid, a: int, top: int, finals: Finals)
    requires FinalSlots(closed, g, a, top, finals) && OnGrid(top, g)
    ensures closed == [] <==> top < a
    ensures closed != [] ==> closed[|closed| - 1] == finals(top)
  {
    if a <= top { assert top in Times(closed); }
    if closed != [] {
      var last := closed[|closed| - 1];
      assert last.time in Times(closed) && top in Times(closed);
      var i :| 0 <= i < |closed| && closed[i].time == top;
      assert i < |closed| - 1 ==> closed[i].time < last.time;
    }
  }

  lemma JudgeFinalSlots(bars: Series, symbol: string, g: Grid, rows: seq<Row>, now: int, a: int, top: int, finals: Finals)
    requires FinalSlots(ClosedRows(rows, g, now), g, a, top, finals) && OnGrid(top, g)
    ensures Judge(bars, symbol, g, rows, now).Accepted?
            <==> a <= top && AllPlausible(symbol, g, a, top, finals) && !Drifts(bars, finals(top).close)
  {
    var closed := ClosedRows(rows, g, now);
    LastIsTop(closed, g, a, top, finals);
    PlausibleSlots(closed, symbol, g, a, top, finals);
    assert forall r :: r in closed ==> r.time in Times(closed);
  }

  // What an honest answer shows for each slot: its final row, or for the slot still forming
  // the snapshot it ends with.
  function Shown(rows: seq<Row>, slot: int, finals: Finals): Finals {
    (t: int) => if t == slot && rows != [] then rows[|rows| - 1] else finals(t)
  }

  lemma ClosedAreShown(st: SeriesState, symbol: string, g: Grid, e: PollEvent, finals: Finals, prev: int)
    requires Tracks(st, symbol, g, prev) && HonestPoll(e, g, finals, prev)
    requires Offered(st, g, e.count, e.source, e.t0).Fetched?
    ensures var rows := Offered(st, g, e.count, e.source, e.t0).rows;
            FinalSlots(ClosedRows(rows, g, e.t1), g, StartSlot(st, g, e), Top(UsedSlot(st, g, e), e.t1, g),
                       Shown(rows, UsedSlot(st, g, e), finals))
  {
    var rows := Offered(st, g, e.count, e.source, e.t0).rows;
    PollOffers(st, symbol, g, e, finals, prev);
    ClosedOffered(rows, StartSlot(st, g, e), g, UsedSlot(st, g, e), e.t1, finals);
    RowsAreShown(rows, StartSlot(st, g, e), g, UsedSlot(st, g, e), finals);
  }

  lemma RowsAreShown(rows: seq<Row>, a: int, g: Grid, slot: int, finals: Finals)
    requires Offers(rows, a, g, slot, finals)
    ensures forall r :: r in rows ==> r == Shown(rows, slot, finals)(r.time)
  {
    forall r | r in rows ensures r == Shown(rows, slot, finals)(r.time) {
      assert r.time in Times(rows) && rows[|rows| - 1].time in Times(rows);
      var i :| 0 <= i < |rows| && rows[i] == r;
      assert i < |rows| - 1 ==> r.time < rows[|rows| - 1].time;
    }
  }

  // A warm poll that obtains an answer stores it exactly when it brings a closed slot, every
  // close it shows is plausible, and the newest has not drifted from the newest stored one.
  // Nothing is assumed of the bars already stored.
  lemma StoresIff(st: SeriesState, symbol: string, g: Grid, e: PollEvent, finals: Finals, prev: int)
    requires Tracks(st, symbol, g, prev) && HonestPoll(e, g, finals, prev)
    requires Offered(st, g, e.count, e.source, e.t0).Fetched?
    ensures var a, top := StartSlot(st, g, e), Top(UsedSlot(st, g, e), e.t1, g);
            var shown := Shown(Offered(st, g, e.count, e.source, e.t0).rows, UsedSlot(st, g, e), finals);
            StoresRows(st, symbol, g, e)
            <==> a <= top && AllPlausible(symbol, g, a, top, shown) && !Drifts(st.bars, shown(top).close)
  {
    var rows := Offered(st, g, e.count, e.source, e.t0).rows;
    ClosedAreShown(st, symbol, g, e, finals, prev);
    TopIs(UsedSlot(st, g, e), e.t1, g);
    JudgeFinalSlots(st.bars, symbol, g, rows, e.t1, StartSlot(st, g, e), Top(UsedSlot(st, g, e), e.t1, g),
                    Shown(rows, UsedSlot(st, g, e), finals));
  }

  lemma ClosedAreFinal(st: SeriesState, symbol: string, g: Grid, e: PollEvent, finals: Finals, prev: int)
    requires Tracks(st, symbol, g, prev) && HonestPoll(e, g, finals, prev) && FormingSafe(st, g, e, finals)
    requires Offered(st, g, e.count, e.source, e.t0).Fetched?
    ensures FinalSlots(ClosedRows(Offered(st, g, e.count, e.source, e.t0).rows, g, e.t1), g, StartSlot(st, g, e),
                       Top(UsedSlot(st, g, e), e.t1, g), finals)
  {
    var rows := Offered(st, g, e.count, e.source, e.t0).rows;
    PollOffers(st, symbol, g, e, finals, prev);
    ClosedOffered(rows, StartSlot(st, g, e), g, UsedSlot(st, g, e), e.t1, finals);
    ClosedFinalIff(rows, StartSlot(st, g, e), g, UsedSlot(st, g, e), e.t1, finals);
  }

  // Over a cache equal to the source, and with no unfinished bar taken for closed, all of this
  // is about final closes.
  lemma AcceptedIff(st: SeriesState, symbol: string, g: Grid, e: PollEvent, finals: Finals, prev: int)
    requires Tracks(st, symbol, g, prev) && Agrees(st.bars, finals) && st.meta.Some?
    requires HonestPoll(e, g, finals, prev) && FormingSafe(st, g, e, finals)
    requires Offered(st, g, e.count, e.source, e.t0).Fetched?
    ensures var a, top := StartSlot(st, g, e), Top(e.first, e.t1, g);
            StoresRows(st, symbol, g, e)
            <==> && a <= top
                 && AllPlausible(symbol, g, a, top, finals)
                 && !MovesTooFar(finals(st.meta.value.lastBarTs).close, finals(top).close)
  {
    var rows := Offered(st, g, e.count, e.source, e.t0).rows;
    NeverDisputed(st, symbol, g, e, finals, prev);
    ClosedAreFinal(st, symbol, g, e, finals, prev);
    TopIs(e.first, e.t1, g);
    JudgeFinalSlots(st.bars, symbol, g, rows, e.t1, StartSlot(st, g, e), Top(e.first, e.t1, g), finals);
    StoredClose(st, finals);
  }

  lemma StoredClose(st: SeriesState, finals: Finals)
    requires st.meta.Some? && st.bars != map[] && st.meta.value.lastBarTs == MaxOf(st.bars.Keys) && Agrees(st.bars, finals)
    ensures NewestClose(st.bars) == Some(finals(st.meta.value.lastBarTs).close)
    ensures forall close :: Drifts(st.bars, close) <==> MovesTooFar(finals(st.meta.value.lastBarTs).close, close)
  {
    var last := st.meta.value.lastBarTs;
    assert RowOf(last, st.bars[last]) == finals(last);
  }

  // When no bar closes meanwhile and the gap fits one request: at least two bar widths have
  // passed, every final close since is plausible and the newest has not moved too far.
  lemma AcceptedWithinOneSlotIff(st: SeriesState, symbol: string, g: Grid, e: PollEvent, finals: Finals, prev: int)
    requires Tracks(st, symbol, g, prev) && Agrees(st.bars, finals) && st.meta.Some?
    requires HonestPoll(e, g, finals, prev) && WithinOneSlot(e, g)
    requires Offered(st, g, e.count, e.source, e.t0).Fetched?
    requires GapBars(st.meta.value, g, e.t0) <= Capped(e.count)
    ensures var last, newest := st.meta.value.lastBarTs, SlotAt(e.t1, g) - g.secs;
            StoresRows(st, symbol, g, e)
            <==> && GapBars(st.meta.value, g, e.t0) >= 2
                 && AllPlausible(symbol, g, last + g.secs, newest, finals)
                 && !MovesTooFar(finals(last).close, finals(newest).close)
  {
    OfferedWithinOneSlot(st, symbol, g, e, finals, prev);
    assert FormingSafe(st, g, e, finals) by { WithinOneSlotIs(st, symbol, g, e, finals, prev); }
    AcceptedIff(st, symbol, g, e, finals, prev);
  }

  lemma OfferedWithinOneSlot(st: SeriesState, symbol: string, g: Grid, e: PollEvent, finals: Finals, prev: int)
    requires Tracks(st, symbol, g, prev) && Agrees(st.bars, finals) && st.meta.Some?
    requires HonestPoll(e, g, finals, prev) && WithinOneSlot(e, g)
    requires GapBars(st.meta.value, g, e.t0) <= Capped(e.count)
    ensures StartSlot(st, g, e) == st.meta.value.lastBarTs + g.secs
    ensures Top(e.first, e.t1, g) == SlotAt(e.t1, g) - g.secs
    ensures StartSlot(st, g, e) <= Top(e.first, e.t1, g) <==> GapBars(st.meta.value, g, e.t0) >= 2
  {
    var last, gap := st.meta.value.lastBarTs, GapBars(st.meta.value, g, e.t0);
    assert !Disputed(st, g, e) by { NeverDisputed(st, symbol, g, e, finals, prev); }
    assert Excess(st, g, e) == 0 by { ExcessWithinOneSlot(st, symbol, g, e, finals, prev); }
    UndisputedSkips(st, symbol, g, e, finals, prev);
    assert OnGrid(last, g) by { assert BarSound(symbol, g, last, st.bars[last]); }
    GapInSlots(last, e.t0, g);
    MulOrder(2, gap, g.secs);
  }

  // ---------------------------------------------------------------- the lockout

  // No honest run from here, however long, changes the cache again unless it stores an
  // unfinished bar.
  ghost predicate LockedOut(st: SeriesState, symbol: string, g: Grid, finals: Finals, start: int) {
    forall events: seq<PollEvent> ::
      HonestRun(g, events, finals, start) && StoresFinal(st, symbol, g, events, finals) ==> Polls(st, symbol, g, events) == st
  }

  // Every slot that can still be the newest one closed at a poll would be refused.
  ghost predicate ShutOut(symbol: string, g: Grid, last: int, finals: Finals, start: int) {
    forall ts :: OnGrid(ts, g) && ts > last && start < ts + 2 * g.secs ==>
      MovesTooFar(finals(last).close, finals(ts).close) || !Plausible(symbol, finals(ts).close)
  }

  lemma {:induction false} ClockNeverBack(g: Grid, events: seq<PollEvent>, finals: Finals, start: int)
    requires HonestRun(g, events, finals, start)
    ensures start <= ClockAfter(events, start)
  {
    if events != [] {
      ClockNeverBack(g, events[..|events| - 1], finals, start);
    }
  }

  // The newest slot a poll closes is at most two widths old.
  lemma TopIsRecent(e: PollEvent, g: Grid, finals: Finals, prev: int)
    requires HonestPoll(e, g, finals, prev)
    ensures OnGrid(Top(e.first, e.t1, g), g) && prev < Top(e.first, e.t1, g) + 2 * g.secs
  {
    TopIs(e.first, e.t1, g);
    SlotBounds(e.t0, g);
    SlotBounds(e.t1, g);
  }

  lemma ShutOutPoll(st: SeriesState, symbol: string, g: Grid, e: PollEvent, finals: Finals, start: int, prev: int)
    requires Tracks(st, symbol, g, prev) && Agrees(st.bars, finals) && st.meta.Some? && start <= prev
    requires ShutOut(symbol, g, st.meta.value.lastBarTs, finals, start)
    requires HonestPoll(e, g, finals, prev)
    requires StoresRows(st, symbol, g, e) ==> FormingSafe(st, g, e, finals)
    ensures !StoresRows(st, symbol, g, e)
  {
    NeverDisputed(st, symbol, g, e, finals, prev);
    TopIsRecent(e, g, finals, prev);
    if StoresRows(st, symbol, g, e) {
      AcceptedIff(st, symbol, g, e, finals, prev);
      assert false;
    }
  }

  lemma {:induction false} DriftLocksOut(st: SeriesState, symbol: string, g: Grid, events: seq<PollEvent>, finals: Finals,
                                         start: int)
    requires Tracks(st, symbol, g, start) && Agrees(st.bars, finals) && st.meta.Some?
    requires ShutOut(symbol, g, st.meta.value.lastBarTs, finals, start)
    requires HonestRun(g, events, finals, start) && StoresFinal(st, symbol, g, events, finals)
    ensures Polls(st, symbol, g, events) == st
  {
    if events != [] {
      var init, e := events[..|events| - 1], events[|events| - 1];
      DriftLocksOut(st, symbol, g, init, finals, start);
      HonestRunTracks(st, symbol, g, init, finals, start);
      ClockNeverBack(g, init, finals, start);
      ShutOutPoll(st, symbol, g, e, finals, start, ClockAfter(init, start));
      NothingStored(st, symbol, g, e);
    }
  }

  // A poll whose source answers a request for two bars with the slot ts and the forming one
  // after it, and no other request.
  function TwoBarPoll(ts: int, now: int, g: Grid, finals: Finals): PollEvent {
    PollEvent(2, (attempt: nat, count: int) => if count == 2 then Fetched([finals(ts), finals(ts + g.secs)]) else Failed,
              now, now, ts + g.secs, ts + g.secs)
  }

  lemma TwoBarPollIsHonest(ts: int, now: int, g: Grid, finals: Finals, prev: int)
    requires OnGrid(ts, g) && ts + g.secs <= now < ts + 2 * g.secs && prev <= now
    requires forall t :: finals(t).time == t
    ensures HonestPoll(TwoBarPoll(ts, now, g, finals), g, finals, prev)
    ensures WithinOneSlot(TwoBarPoll(ts, now, g, finals), g) && SlotAt(now, g) == ts + g.secs
  {
    var e := TwoBarPoll(ts, now, g, finals);
    GridShift(ts, 1, g);
    SlotUnique(ts + g.secs, now, g);
    var rows := [finals(ts), finals(ts + g.secs)];
    assert ServesNewest(rows, 2, g, ts + g.secs, finals);
    assert HonestAt(e.source, 0, g, ts + g.secs, finals) && HonestAt(e.source, 1, g, ts + g.secs, finals);
  }

  lemma TwoBarWindow(st: SeriesState, symbol: string, g: Grid, ts: int, now: int, finals: Finals, prev: int)
    requires Tracks(st, symbol, g, prev) && Agrees(st.bars, finals) && st.meta.Some? && st.meta.value.lastBarTs < ts
    requires OnGrid(ts, g) && ts + g.secs <= now < ts + 2 * g.secs && prev <= now
    requires forall t :: finals(t).time == t
    ensures var e := TwoBarPoll(ts, now, g, finals);
            && Offered(st, g, e.count, e.source, e.t0).Fetched?
            && FormingSafe(st, g, e, finals)
            && WindowSize(st.meta.value, g, e) == 2
            && StartSlot(st, g, e) == ts && Top(e.first, e.t1, g) == ts
  {
    var e := TwoBarPoll(ts, now, g, finals);
    var last := st.meta.value.lastBarTs;
    TwoBarPollIsHonest(ts, now, g, finals, prev);
    assert OnGrid(last, g) by { assert BarSound(symbol, g, last, st.bars[last]); }
    GridDistance(last, ts, g);
    GapInSlots(last, now, g);
    assert !Disputed(st, g, e) by { NeverDisputed(st, symbol, g, e, finals, prev); }
    assert FormingSafe(st, g, e, finals) by { WithinOneSlotIs(st, symbol, g, e, finals, prev); }
  }

  // It is stored when its closed bar passes the guards.
  lemma TwoBarPollStores(st: SeriesState, symbol: string, g: Grid, ts: int, now: int, finals: Finals, prev: int)
    requires Tracks(st, symbol, g, prev) && Agrees(st.bars, finals) && st.meta.Some? && st.meta.value.lastBarTs < ts
    requires OnGrid(ts, g) && ts + g.secs <= now < ts + 2 * g.secs && prev <= now
    requires forall t :: finals(t).time == t
    requires Plausible(symbol, finals(ts).close) && !MovesTooFar(finals(st.meta.value.lastBarTs).close, finals(ts).close)
    ensures var e := TwoBarPoll(ts, now, g, finals);
            StoresRows(st, symbol, g, e) && Poll(st, symbol, g, e) != st
  {
    var e := TwoBarPoll(ts, now, g, finals);
    TwoBarPollIsHonest(ts, now, g, finals, prev);
    assert StoresRows(st, symbol, g, e) by {
      TwoBarWindow(st, symbol, g, ts, now, finals, prev);
      AcceptedIff(st, symbol, g, e, finals, prev);
    }
    StoringMovesOn(st, symbol, g, e, finals, prev);
  }

  lemma StoringMovesOn(st: SeriesState, symbol: string, g: Grid, e: PollEvent, finals: Finals, prev: int)
    requires Tracks(st, symbol, g, prev) && Agrees(st.bars, finals) && st.meta.Some?
    requires HonestPoll(e, g, finals, prev) && StoresRows(st, symbol, g, e)
    ensures Poll(st, symbol, g, e) != st
  {
    NeverDisputed(st, symbol, g, e, finals, prev);
    PollEffect(st, symbol, g, e, finals, prev);
  }

  lemma RunOfOne(st: SeriesState, symbol: string, g: Grid, e: PollEvent, finals: Finals, start: int)
    requires HonestPoll(e, g, finals, start) && FormingSafe(st, g, e, finals)
    ensures HonestRun(g, [e], finals, start) && StoresFinal(st, symbol, g, [e], finals)
    ensures Polls(st, symbol, g, [e]) == Poll(st, symbol, g, e)
  {
    assert [e][..0] == [];
  }

  // The guard meant to stop stray quotes shuts an honest source out for good exactly when every
  // slot that can still be the newest one closed at a poll has moved more than half from the
  // newest stored close, or is outside the plausible band.
  lemma LockedOutIff(st: SeriesState, symbol: string, g: Grid, finals: Finals, start: int)
    requires Tracks(st, symbol, g, start) && Agrees(st.bars, finals) && st.meta.Some?
    requires forall t :: finals(t).time == t
    ensures LockedOut(st, symbol, g, finals, start) <==> ShutOut(symbol, g, st.meta.value.lastBarTs, finals, start)
  {
    var last := st.meta.value.lastBarTs;
    if ShutOut(symbol, g, last, finals, start) {
      forall events: seq<PollEvent> | HonestRun(g, events, finals, start) && StoresFinal(st, symbol, g, events, finals)
        ensures Polls(st, symbol, g, events) == st
      {
        DriftLocksOut(st, symbol, g, events, finals, start);
      }
    } else {
      var ts :| OnGrid(ts, g) && ts > last && start < ts + 2 * g.secs
                && !MovesTooFar(finals(last).close, finals(ts).close) && Plausible(symbol, finals(ts).close);
      GetsIn(st, symbol, g, ts, finals, start);
    }
  }

  lemma GetsIn(st: SeriesState, symbol: string, g: Grid, ts: int, finals: Finals, start: int)
    requires Tracks(st, symbol, g, start) && Agrees(st.bars, finals) && st.meta.Some? && st.meta.value.lastBarTs < ts
    requires OnGrid(ts, g) && start < ts + 2 * g.secs
    requires forall t :: finals(t).time == t
    requires Plausible(symbol, finals(ts).close) && !MovesTooFar(finals(st.meta.value.lastBarTs).close, finals(ts).close)
    ensures !LockedOut(st, symbol, g, finals, start)
  {
    var now := Max(start, ts + g.secs);
    var e := TwoBarPoll(ts, now, g, finals);
    TwoBarPollIsHonest(ts, now, g, finals, start);
    TwoBarWindow(st, symbol, g, ts, now, finals, start);
    TwoBarPollStores(st, symbol, g, ts, now, finals, start);
    RunOfOne(st, symbol, g, e, finals, start);
  }

  // ---------------------------------------------------------------- inputs for which bars are lost

  // A source whose price is 1 up to time 0 and `later` from then on.
  function StepPrice(later: real): Finals {
    (t: int) => var c := if t <= 0 then 1.0 else later; Row(t, c, c, c, c, 1.0)
  }

  lemma CachedOneTracks(later: real)
    ensures Tracks(CacheTheorems.CACHED_ONE, "X", RawGrid(60, 0), 60)
    ensures Agrees(CacheTheorems.CACHED_ONE.bars, StepPrice(later))
  {
    CacheTheorems.CachedOneIs();
    assert CacheTheorems.CACHED_ONE.bars.Keys == {0};
  }

  // A price that doubles once is never cached again.
  lemma DoublingLocksOut()
    ensures LockedOut(CacheTheorems.CACHED_ONE, "X", RawGrid(60, 0), StepPrice(2.0), 60)
  {
    CachedOneTracks(2.0);
    LockedOutIff(CacheTheorems.CACHED_ONE, "X", RawGrid(60, 0), StepPrice(2.0), 60);
  }

  // Three bars late with a request for two: the bar at 60 is lost.
  lemma WideGapLosesOneBar()
    ensures var g: Grid := RawGrid(60, 0);
            var e := TwoBarPoll(120, 180, g, StepPrice(1.0));
            && HonestPoll(e, g, StepPrice(1.0), 60)
            && MissingSlots(CacheTheorems.CACHED_ONE.bars, g) == {}
            && MissingSlots(Poll(CacheTheorems.CACHED_ONE, "X", g, e).bars, g) == {60}
  {
    CachedOneTracks(1.0);
    CachedOneMissesNothing();
    FlatPriceIsSteady();
    TwoBarPollSkips(CacheTheorems.CACHED_ONE, "X", RawGrid(60, 0), 120, 180, StepPrice(1.0), 60);
    SkipsSixty(CacheTheorems.CACHED_ONE, RawGrid(60, 0), TwoBarPoll(120, 180, RawGrid(60, 0), StepPrice(1.0)), StepPrice(1.0));
  }

  lemma CachedOneMissesNothing()
    ensures MissingSlots(CacheTheorems.CACHED_ONE.bars, RawGrid(60, 0)) == {}
  {
    assert CacheTheorems.CACHED_ONE.bars.Keys == {0};
  }

  lemma FlatPriceIsSteady()
    ensures Plausible("X", StepPrice(1.0)(120).close)
    ensures !MovesTooFar(StepPrice(1.0)(0).close, StepPrice(1.0)(120).close)
  {
  }

  lemma TwoBarPollSkips(st: SeriesState, symbol: string, g: Grid, ts: int, now: int, finals: Finals, prev: int)
    requires Tracks(st, symbol, g, prev) && Agrees(st.bars, finals) && st.meta.Some? && st.meta.value.lastBarTs < ts
    requires OnGrid(ts, g) && ts + g.secs <= now < ts + 2 * g.secs && prev <= now
    requires forall t :: finals(t).time == t
    requires Plausible(symbol, finals(ts).close) && !MovesTooFar(finals(st.meta.value.lastBarTs).close, finals(ts).close)
    ensures var e := TwoBarPoll(ts, now, g, finals);
            HonestPoll(e, g, finals, prev) && StoresRows(st, symbol, g, e) && StartSlot(st, g, e) == ts
  {
    TwoBarPollIsHonest(ts, now, g, finals, prev);
    TwoBarWindow(st, symbol, g, ts, now, finals, prev);
    TwoBarPollStores(st, symbol, g, ts, now, finals, prev);
  }

  lemma SkipsSixty(st: SeriesState, g: Grid, e: PollEvent, finals: Finals)
    requires g == RawGrid(60, 0) && Tracks(st, "X", g, 60) && st.meta.Some? && st.meta.value.lastBarTs == 0
    requires HonestPoll(e, g, finals, 60) && StoresRows(st, "X", g, e) && StartSlot(st, g, e) == 120
    requires MissingSlots(st.bars, g) == {}
    ensures MissingSlots(Poll(st, "X", g, e).bars, g) == {60}
  {
    MissingAfterPoll(st, "X", g, e, finals, 60);
    forall ts ensures ts in MissingSlots(Poll(st, "X", g, e).bars, g) <==> ts == 60 {
      OnlySixty(ts);
    }
  }

  lemma OnlySixty(ts: int)
    ensures OnGrid(ts, RawGrid(60, 0)) && 0 < ts < 120 <==> ts == 60
  {
  }
}
