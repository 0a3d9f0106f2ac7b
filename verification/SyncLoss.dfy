// Bars an honest source offered and the cache never got: what one poll and a whole run of
// polls leave missing, in any state whose last_bar_ts is its newest bar.

module SyncLoss {
  import opened Rows
  import opened Timeframes
  import opened CacheModel
  import opened Slots
  import opened SourceSync
  import opened SyncRuns

  // ---------------------------------------------------------------- the missing slots of a series

  function MissingSlots(bars: Series, g: Grid): set<int> {
    if bars == map[] then {} else Absent(bars.Keys, g)
  }

  // The slots strictly between the newest bar and a.
  function Hole(last: int, g: Grid, a: int): set<int> {
    SlotsBetween(last + g.secs, a - g.secs, g)
  }

  lemma HoleIs(last: int, g: Grid, a: int)
    requires OnGrid(last, g) && OnGrid(a, g)
    ensures forall ts :: ts in Hole(last, g, a) <==> OnGrid(ts, g) && last < ts < a
  {
    GridShift(last, 1, g);
    forall ts ensures ts in Hole(last, g, a) <==> OnGrid(ts, g) && last < ts < a {
      GridDistance(last + g.secs, ts, g);
      if OnGrid(ts, g) {
        if last < ts { GridDistance(last, ts, g); }
        if ts < a { GridDistance(ts, a, g); }
      }
    }
  }

  // How many slots lie between them.
  function Between(last: int, g: Grid, a: int): nat {
    Max(0, (a - last) / g.secs - 1)
  }

  lemma HoleCount(last: int, g: Grid, a: int)
    requires OnGrid(last, g) && OnGrid(a, g)
    ensures |Hole(last, g, a)| == Between(last, g, a)
  {
    GridDistance(last, a, g);
    var n := (a - last) / g.secs - 1;
    assert a == last + (n + 1) * g.secs;
    MulOrder(n, 0, g.secs);
    if n <= 0 {
      assert (n + 1) * g.secs == n * g.secs + g.secs;
      assert Hole(last, g, a) == {};
    } else {
      assert (n + 1) * g.secs - g.secs == g.secs + (n - 1) * g.secs;
      SlotsCount(last + g.secs, n - 1, g);
    }
  }

  lemma AbsentIs(keys: set<int>, g: Grid)
    requires keys != {} && OnGrid(MinOf(keys), g)
    ensures forall ts :: ts in Absent(keys, g) <==> OnGrid(ts, g) && MinOf(keys) <= ts <= MaxOf(keys) && ts !in keys
  {
    forall ts ensures ts in Absent(keys, g) <==> OnGrid(ts, g) && MinOf(keys) <= ts <= MaxOf(keys) && ts !in keys {
      GridDistance(MinOf(keys), ts, g);
    }
  }

  // Writing the slots a..top leaves missing, of what was missing or newer than the newest
  // bar, exactly what lies before a.
  lemma AbsentAfterWrite(bars: Series, bars': Series, g: Grid, a: int, top: int)
    requires bars != map[] && UpToSlot(bars, g, top) && OnGrid(a, g) && OnGrid(top, g) && a <= top
    requires AddsSlots(bars, bars', g, a, top)
    ensures bars' != map[]
    ensures forall ts :: ts in Absent(bars'.Keys, g)
                         <==> ts < a && (ts in Absent(bars.Keys, g) || (OnGrid(ts, g) && MaxOf(bars.Keys) < ts))
  {
    NewestIsTop(bars, bars', g, a, top);
    var low, low' := MinOf(bars.Keys), MinOf(bars'.Keys);
    assert low in bars' && a in bars' && low' <= low && low' <= a;
    assert low' in bars || a <= low';
    AbsentIs(bars.Keys, g);
    AbsentIs(bars'.Keys, g);
  }

  // ---------------------------------------------------------------- one poll

  lemma StartOnGrid(st: SeriesState, symbol: string, g: Grid, e: PollEvent, finals: Finals, prev: int)
    requires Tracks(st, symbol, g, prev) && st.meta.Some? && HonestPoll(e, g, finals, prev)
    ensures OnGrid(StartSlot(st, g, e), g) && OnGrid(st.meta.value.lastBarTs, g)
  {
    var last := st.meta.value.lastBarTs;
    assert OnGrid(last, g) by { assert BarSound(symbol, g, last, st.bars[last]); }
    GridShift(last, 1, g);
    ShiftBack(e.second, Capped(e.count), g);
    ShiftBack(e.first, WindowSize(st.meta.value, g, e), g);
  }

  lemma ShiftBack(slot: int, n: int, g: Grid)
    requires OnGrid(slot, g)
    ensures OnGrid(slot - (n - 1) * g.secs, g)
  {
    GridShift(slot, -(n - 1), g);
    assert slot - (n - 1) * g.secs == slot + -(n - 1) * g.secs;
  }

  // A warm poll that stores anything, disputed or not, leaves missing exactly the slots before
  // the first one handed over that were missing already or lie beyond the newest stored bar.
  lemma MissingAfterPoll(st: SeriesState, symbol: string, g: Grid, e: PollEvent, finals: Finals, prev: int)
    requires Tracks(st, symbol, g, prev) && st.meta.Some?
    requires HonestPoll(e, g, finals, prev) && StoresRows(st, symbol, g, e)
    ensures var bars' := Poll(st, symbol, g, e).bars;
            && bars' != map[]
            && (forall ts :: ts in Absent(bars'.Keys, g)
                  <==> ts < StartSlot(st, g, e)
                       && (ts in Absent(st.bars.Keys, g) || (OnGrid(ts, g) && st.meta.value.lastBarTs < ts)))
  {
    var a, top := StartSlot(st, g, e), Top(UsedSlot(st, g, e), e.t1, g);
    assert a <= top && AddsSlots(st.bars, Poll(st, symbol, g, e).bars, g, a, top) by {
      PollEffect(st, symbol, g, e, finals, prev);
    }
    assert UpToSlot(st.bars, g, top) by { StoredBelow(st, symbol, g, e, finals, prev, UsedSlot(st, g, e)); }
    assert OnGrid(top, g) by { TopIs(UsedSlot(st, g, e), e.t1, g); }
    StartOnGrid(st, symbol, g, e, finals, prev);
    AbsentAfterWrite(st.bars, Poll(st, symbol, g, e).bars, g, a, top);
  }

  // The slots a warm poll skips ...
  function Skipped(st: SeriesState, g: Grid, e: PollEvent): nat
    requires st.meta.Some?
  {
    Between(st.meta.value.lastBarTs, g, StartSlot(st, g, e))
  }

  // ... and the missing ones its answer brings back.
  function Refilled(st: SeriesState, g: Grid, e: PollEvent): set<int> {
    set ts | ts in MissingSlots(st.bars, g) && StartSlot(st, g, e) <= ts
  }

  lemma CountSplit(before: set<int>, after: set<int>, back: set<int>, hole: set<int>)
    requires after == (before - back) + hole && back <= before && before !! hole
    ensures |after| + |back| == |before| + |hole|
  {
    assert before == (before - back) + back;
  }

  lemma SplitAtStart(st: SeriesState, symbol: string, g: Grid, e: PollEvent, finals: Finals, prev: int)
    requires Tracks(st, symbol, g, prev) && st.meta.Some?
    requires HonestPoll(e, g, finals, prev) && StoresRows(st, symbol, g, e)
    ensures var hole := Hole(st.meta.value.lastBarTs, g, StartSlot(st, g, e));
            && MissingSlots(Poll(st, symbol, g, e).bars, g) == (MissingSlots(st.bars, g) - Refilled(st, g, e)) + hole
            && MissingSlots(st.bars, g) !! hole
  {
    MissingAfterPoll(st, symbol, g, e, finals, prev);
    StartOnGrid(st, symbol, g, e, finals, prev);
    HoleIs(st.meta.value.lastBarTs, g, StartSlot(st, g, e));
    assert forall ts :: ts in MissingSlots(st.bars, g) ==> ts <= st.meta.value.lastBarTs;
  }

  // In numbers: what is missing afterwards and what came back, against what was missing before
  // and what was skipped.
  lemma MissingCount(st: SeriesState, symbol: string, g: Grid, e: PollEvent, finals: Finals, prev: int)
    requires Tracks(st, symbol, g, prev) && st.meta.Some?
    requires HonestPoll(e, g, finals, prev) && StoresRows(st, symbol, g, e)
    ensures |MissingSlots(Poll(st, symbol, g, e).bars, g)| + |Refilled(st, g, e)|
            == |MissingSlots(st.bars, g)| + Skipped(st, g, e)
  {
    var last, a := st.meta.value.lastBarTs, StartSlot(st, g, e);
    SplitAtStart(st, symbol, g, e, finals, prev);
    assert |Hole(last, g, a)| == Skipped(st, g, e) by {
      StartOnGrid(st, symbol, g, e, finals, prev);
      HoleCount(last, g, a);
    }
    CountSplit(MissingSlots(st.bars, g), MissingSlots(Poll(st, symbol, g, e).bars, g), Refilled(st, g, e), Hole(last, g, a));
  }

  // The bars a warm poll's first answer does not reach back to.
  function Excess(st: SeriesState, g: Grid, e: PollEvent): nat
    requires st.meta.Some?
  {
    Max(0, (e.first - st.meta.value.lastBarTs) / g.secs - WindowSize(st.meta.value, g, e))
  }

  lemma SkippedSlots(last: int, d: int, n: int, g: Grid)
    ensures Max(last + d * g.secs - (n - 1) * g.secs, last + g.secs) == last + (1 + Max(0, d - n)) * g.secs
    ensures d > n ==> last < last + d * g.secs - (n - 1) * g.secs
  {
    assert (n - 1) * g.secs == n * g.secs - g.secs;
    assert (d - n) * g.secs == d * g.secs - n * g.secs;
    assert (1 + Max(0, d - n)) * g.secs == g.secs + Max(0, d - n) * g.secs;
    MulOrder(d, n, g.secs);
    MulOrder(n, d, g.secs);
  }

  // An answer that leaves a hole lacks the overlap bar, so nothing can dispute it.
  lemma ExcessUndisputed(st: SeriesState, symbol: string, g: Grid, e: PollEvent, finals: Finals, prev: int)
    requires Tracks(st, symbol, g, prev) && st.meta.Some? && HonestPoll(e, g, finals, prev)
    requires Excess(st, g, e) > 0
    ensures !Disputed(st, g, e)
  {
    var last := st.meta.value.lastBarTs;
    assert OnGrid(last, g) by { assert BarSound(symbol, g, last, st.bars[last]); }
    GridDistance(last, e.first, g);
    SkippedSlots(last, (e.first - last) / g.secs, WindowSize(st.meta.value, g, e), g);
    DisputedIff(st, symbol, g, e, finals, prev);
  }

  // Undisputed, a poll appends: it skips its excess and brings nothing back.
  lemma UndisputedSkips(st: SeriesState, symbol: string, g: Grid, e: PollEvent, finals: Finals, prev: int)
    requires Tracks(st, symbol, g, prev) && st.meta.Some? && HonestPoll(e, g, finals, prev)
    requires !Disputed(st, g, e)
    ensures StartSlot(st, g, e) == st.meta.value.lastBarTs + (1 + Excess(st, g, e)) * g.secs
    ensures Skipped(st, g, e) == Excess(st, g, e) && Refilled(st, g, e) == {}
  {
    var last, k := st.meta.value.lastBarTs, 1 + Excess(st, g, e);
    assert OnGrid(last, g) by { assert BarSound(symbol, g, last, st.bars[last]); }
    GridDistance(last, e.first, g);
    SkippedSlots(last, (e.first - last) / g.secs, WindowSize(st.meta.value, g, e), g);
    DivModUnique(k * g.secs, g.secs, k, 0);
    MulOrder(1, k, g.secs);
  }

  // A warm poll that stores anything adds exactly its excess to the missing slots whenever it
  // has one, and whenever its answer is undisputed.
  lemma MissingGrowsByExcess(st: SeriesState, symbol: string, g: Grid, e: PollEvent, finals: Finals, prev: int)
    requires Tracks(st, symbol, g, prev) && st.meta.Some?
    requires HonestPoll(e, g, finals, prev) && StoresRows(st, symbol, g, e)
    requires Excess(st, g, e) > 0 || !Disputed(st, g, e)
    ensures |MissingSlots(Poll(st, symbol, g, e).bars, g)| == |MissingSlots(st.bars, g)| + Excess(st, g, e)
  {
    assert !Disputed(st, g, e) by {
      if Excess(st, g, e) > 0 { ExcessUndisputed(st, symbol, g, e, finals, prev); }
    }
    UndisputedSkips(st, symbol, g, e, finals, prev);
    MissingCount(st, symbol, g, e, finals, prev);
  }

  // When no bar closes meanwhile, the excess is what the gap exceeds one request by.
  lemma ExcessWithinOneSlot(st: SeriesState, symbol: string, g: Grid, e: PollEvent, finals: Finals, prev: int)
    requires Tracks(st, symbol, g, prev) && st.meta.Some?
    requires HonestPoll(e, g, finals, prev) && WithinOneSlot(e, g)
    ensures Excess(st, g, e) == Max(0, GapBars(st.meta.value, g, e.t0) - Capped(e.count))
  {
    var last, gap := st.meta.value.lastBarTs, GapBars(st.meta.value, g, e.t0);
    assert OnGrid(last, g) by { assert BarSound(symbol, g, last, st.bars[last]); }
    GapInSlots(last, e.t0, g);
    DivModUnique(e.first - last, g.secs, gap, 0);
  }

  lemma FirstPollMissesNothing(st: SeriesState, symbol: string, g: Grid, e: PollEvent, finals: Finals, prev: int)
    requires Tracks(st, symbol, g, prev) && st.meta.None? && HonestPoll(e, g, finals, prev)
    ensures MissingSlots(st.bars, g) == {} && MissingSlots(Poll(st, symbol, g, e).bars, g) == {}
  {
    var bars' := Poll(st, symbol, g, e).bars;
    PollKeepsGapFree(st, symbol, g, e, finals, prev);
    PollTracks(st, symbol, g, e, finals, prev);
    if bars' != map[] {
      assert OnGrid(MinOf(bars'.Keys), g) by {
        assert BarSound(symbol, g, MinOf(bars'.Keys), bars'[MinOf(bars'.Keys)]);
      }
      AbsentIs(bars'.Keys, g);
      assert Absent(bars'.Keys, g) == {};
    }
  }

  // ---------------------------------------------------------------- a run

  predicate WarmStore(st: SeriesState, symbol: string, g: Grid, e: PollEvent) {
    st.meta.Some? && StoresRows(st, symbol, g, e)
  }

  // What a run leaves missing, poll by poll: one that stores nothing or starts the series
  // changes nothing; any other opens the hole it skips and drops whatever lies from its first
  // slot on.
  function MissingAfter(st: SeriesState, symbol: string, g: Grid, events: seq<PollEvent>): set<int> {
    if events == [] then MissingSlots(st.bars, g)
    else
      var init, e := events[..|events| - 1], events[|events| - 1];
      var missing, mid := MissingAfter(st, symbol, g, init), Polls(st, symbol, g, init);
      if !WarmStore(mid, symbol, g, e) then missing
      else
        set ts | ts in missing + Hole(mid.meta.value.lastBarTs, g, StartSlot(mid, g, e)) && ts < StartSlot(mid, g, e)
  }

  function LostOver(st: SeriesState, symbol: string, g: Grid, events: seq<PollEvent>): nat {
    if events == [] then 0
    else
      var init, e := events[..|events| - 1], events[|events| - 1];
      var mid := Polls(st, symbol, g, init);
      LostOver(st, symbol, g, init) + if WarmStore(mid, symbol, g, e) then Skipped(mid, g, e) else 0
  }

  function RefilledOver(st: SeriesState, symbol: string, g: Grid, events: seq<PollEvent>): nat {
    if events == [] then 0
    else
      var init, e := events[..|events| - 1], events[|events| - 1];
      var mid := Polls(st, symbol, g, init);
      RefilledOver(st, symbol, g, init) + if WarmStore(mid, symbol, g, e) then |Refilled(mid, g, e)| else 0
  }

  lemma ColdOrIdle(st: SeriesState, symbol: string, g: Grid, e: PollEvent, finals: Finals, prev: int)
    requires Tracks(st, symbol, g, prev) && HonestPoll(e, g, finals, prev) && !WarmStore(st, symbol, g, e)
    ensures MissingSlots(Poll(st, symbol, g, e).bars, g) == MissingSlots(st.bars, g)
  {
    if st.meta.None? {
      FirstPollMissesNothing(st, symbol, g, e, finals, prev);
    } else {
      NothingStored(st, symbol, g, e);
    }
  }

  lemma PollMisses(st: SeriesState, symbol: string, g: Grid, e: PollEvent, finals: Finals, prev: int)
    requires Tracks(st, symbol, g, prev) && HonestPoll(e, g, finals, prev) && WarmStore(st, symbol, g, e)
    ensures var a := StartSlot(st, g, e);
            MissingSlots(Poll(st, symbol, g, e).bars, g)
            == set ts | ts in MissingSlots(st.bars, g) + Hole(st.meta.value.lastBarTs, g, a) && ts < a
  {
    MissingAfterPoll(st, symbol, g, e, finals, prev);
    StartOnGrid(st, symbol, g, e, finals, prev);
    HoleIs(st.meta.value.lastBarTs, g, StartSlot(st, g, e));
  }

  // Along every honest run, through wide gaps, unfinished bars, disputes and refusals, exactly
  // these slots are missing.
  lemma {:induction false} RunMisses(st: SeriesState, symbol: string, g: Grid, events: seq<PollEvent>, finals: Finals,
                                     start: int)
    requires Tracks(st, symbol, g, start) && HonestRun(g, events, finals, start)
    ensures MissingSlots(Polls(st, symbol, g, events).bars, g) == MissingAfter(st, symbol, g, events)
  {
    if events != [] {
      var init, e := events[..|events| - 1], events[|events| - 1];
      var mid := Polls(st, symbol, g, init);
      RunMisses(st, symbol, g, init, finals, start);
      HonestRunTracks(st, symbol, g, init, finals, start);
      if WarmStore(mid, symbol, g, e) {
        PollMisses(mid, symbol, g, e, finals, ClockAfter(init, start));
      } else {
        ColdOrIdle(mid, symbol, g, e, finals, ClockAfter(init, start));
      }
    }
  }

  // And their number is what was missing at first plus what the run skipped, less what its
  // refetches brought back.
  lemma {:induction false} RunLosesExactly(st: SeriesState, symbol: string, g: Grid, events: seq<PollEvent>, finals: Finals,
                                           start: int)
    requires Tracks(st, symbol, g, start) && HonestRun(g, events, finals, start)
    ensures |MissingSlots(Polls(st, symbol, g, events).bars, g)| + RefilledOver(st, symbol, g, events)
            == |MissingSlots(st.bars, g)| + LostOver(st, symbol, g, events)
  {
    if events != [] {
      var init, e := events[..|events| - 1], events[|events| - 1];
      var mid := Polls(st, symbol, g, init);
      RunLosesExactly(st, symbol, g, init, finals, start);
      HonestRunTracks(st, symbol, g, init, finals, start);
      if WarmStore(mid, symbol, g, e) {
        MissingCount(mid, symbol, g, e, finals, ClockAfter(init, start));
      } else {
        ColdOrIdle(mid, symbol, g, e, finals, ClockAfter(init, start));
      }
    }
  }

  // A run that never stores an unfinished bar over a cache equal to the source brings nothing
  // back.
  lemma {:induction false} FinalRunRefillsNothing(st: SeriesState, symbol: string, g: Grid, events: seq<PollEvent>,
                                                  finals: Finals, start: int)
    requires Tracks(st, symbol, g, start) && Agrees(st.bars, finals)
    requires HonestRun(g, events, finals, start) && StoresFinal(st, symbol, g, events, finals)
    ensures RefilledOver(st, symbol, g, events) == 0
  {
    if events != [] {
      var init, e := events[..|events| - 1], events[|events| - 1];
      var mid := Polls(st, symbol, g, init);
      FinalRunRefillsNothing(st, symbol, g, init, finals, start);
      HonestRunTracks(st, symbol, g, init, finals, start);
      AgreesThroughoutIff(st, symbol, g, init, finals, start);
      if WarmStore(mid, symbol, g, e) {
        NeverDisputed(mid, symbol, g, e, finals, ClockAfter(init, start));
        UndisputedSkips(mid, symbol, g, e, finals, ClockAfter(init, start));
      }
    }
  }
}
