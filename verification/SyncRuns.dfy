// Whole runs of polls against an honest source, and exactly which of them keep the cache
// gap-free and equal to it.

module SyncRuns {
  import opened Rows
  import opened Timeframes
  import opened CacheModel
  import opened SourceSync

  function Polls(st: SeriesState, symbol: string, g: Grid, events: seq<PollEvent>): SeriesState {
    if events == [] then st
    else Poll(Polls(st, symbol, g, events[..|events| - 1]), symbol, g, events[|events| - 1])
  }

  function ClockAfter(events: seq<PollEvent>, start: int): int {
    if events == [] then start else events[|events| - 1].t1
  }

  // The clock never runs backwards and the source is honest at each poll. Nothing is assumed
  // about failures, refused batches, gaps, or bars that close while a poll is under way.
  ghost predicate HonestRun(g: Grid, events: seq<PollEvent>, finals: Finals, start: int) {
    events == [] ||
    var init := events[..|events| - 1];
    HonestRun(g, init, finals, start) && HonestPoll(events[|events| - 1], g, finals, ClockAfter(init, start))
  }

  // Each answer that is stored reaches back to the cache it meets.
  ghost predicate StoresReaching(st: SeriesState, symbol: string, g: Grid, events: seq<PollEvent>) {
    events == [] ||
    var init, e := events[..|events| - 1], events[|events| - 1];
    var mid := Polls(st, symbol, g, init);
    StoresReaching(st, symbol, g, init) && (StoresRows(mid, symbol, g, e) ==> Reaches(mid, g, e))
  }

  // No poll stores an unfinished bar.
  ghost predicate StoresFinal(st: SeriesState, symbol: string, g: Grid, events: seq<PollEvent>, finals: Finals) {
    events == [] ||
    var init, e := events[..|events| - 1], events[|events| - 1];
    var mid := Polls(st, symbol, g, init);
    StoresFinal(st, symbol, g, init, finals) && (StoresRows(mid, symbol, g, e) ==> FormingSafe(mid, g, e, finals))
  }

  // Every honest run keeps last_bar_ts the newest stored bar.
  lemma {:induction false} HonestRunTracks(st: SeriesState, symbol: string, g: Grid, events: seq<PollEvent>, finals: Finals,
                                           start: int)
    requires Tracks(st, symbol, g, start) && HonestRun(g, events, finals, start)
    ensures Tracks(Polls(st, symbol, g, events), symbol, g, ClockAfter(events, start))
  {
    if events != [] {
      var init := events[..|events| - 1];
      HonestRunTracks(st, symbol, g, init, finals, start);
      PollTracks(Polls(st, symbol, g, init), symbol, g, events[|events| - 1], finals, ClockAfter(init, start));
    }
  }

  ghost predicate NoGapsThroughout(st: SeriesState, symbol: string, g: Grid, events: seq<PollEvent>) {
    NoGaps(Polls(st, symbol, g, events), g) && (events == [] || NoGapsThroughout(st, symbol, g, events[..|events| - 1]))
  }

  // An honest run is gap-free at every moment exactly when all it stores reaches the cache,
  // however many bars close between the clock readings of a poll.
  lemma {:induction false} GapFreeThroughoutIff(st: SeriesState, symbol: string, g: Grid, events: seq<PollEvent>,
                                                finals: Finals, start: int)
    requires Tracks(st, symbol, g, start) && NoGaps(st, g) && HonestRun(g, events, finals, start)
    ensures NoGapsThroughout(st, symbol, g, events) <==> StoresReaching(st, symbol, g, events)
  {
    if events != [] {
      var init := events[..|events| - 1];
      GapFreeThroughoutIff(st, symbol, g, init, finals, start);
      HonestRunTracks(st, symbol, g, init, finals, start);
      if NoGapsThroughout(st, symbol, g, init) {
        assert NoGaps(Polls(st, symbol, g, init), g);
        PollKeepsGapFree(Polls(st, symbol, g, init), symbol, g, events[|events| - 1], finals, ClockAfter(init, start));
      }
    }
  }

  ghost predicate AgreesThroughout(st: SeriesState, symbol: string, g: Grid, events: seq<PollEvent>, finals: Finals) {
    && Agrees(Polls(st, symbol, g, events).bars, finals)
    && (events == [] || AgreesThroughout(st, symbol, g, events[..|events| - 1], finals))
  }

  // And equal to the source at every moment exactly when it stores no unfinished bar.
  lemma {:induction false} AgreesThroughoutIff(st: SeriesState, symbol: string, g: Grid, events: seq<PollEvent>,
                                               finals: Finals, start: int)
    requires Tracks(st, symbol, g, start) && Agrees(st.bars, finals) && HonestRun(g, events, finals, start)
    ensures AgreesThroughout(st, symbol, g, events, finals) <==> StoresFinal(st, symbol, g, events, finals)
    ensures StoresFinal(st, symbol, g, events, finals) ==> Agrees(Polls(st, symbol, g, events).bars, finals)
  {
    if events != [] {
      var init := events[..|events| - 1];
      AgreesThroughoutIff(st, symbol, g, init, finals, start);
      HonestRunTracks(st, symbol, g, init, finals, start);
      if AgreesThroughout(st, symbol, g, init, finals) {
        PollAgreesIff(Polls(st, symbol, g, init), symbol, g, events[|events| - 1], finals, ClockAfter(init, start));
      }
    }
  }

  ghost predicate InSyncThroughout(st: SeriesState, symbol: string, g: Grid, events: seq<PollEvent>, finals: Finals, start: int) {
    && InSync(Polls(st, symbol, g, events), symbol, g, finals, ClockAfter(events, start))
    && (events == [] || InSyncThroughout(st, symbol, g, events[..|events| - 1], finals, start))
  }

  // Both together: gap-free, equal to the source, with last_bar_ts its maximum.
  lemma {:induction false} HonestRunStaysInSync(st: SeriesState, symbol: string, g: Grid, events: seq<PollEvent>,
                                                finals: Finals, start: int)
    requires InSync(st, symbol, g, finals, start) && HonestRun(g, events, finals, start)
    ensures InSyncThroughout(st, symbol, g, events, finals, start)
            <==> StoresReaching(st, symbol, g, events) && StoresFinal(st, symbol, g, events, finals)
  {
    if events != [] {
      var init := events[..|events| - 1];
      HonestRunStaysInSync(st, symbol, g, init, finals, start);
      if InSyncThroughout(st, symbol, g, init, finals, start) {
        assert InSync(Polls(st, symbol, g, init), symbol, g, finals, ClockAfter(init, start));
        PollKeepsInSync(Polls(st, symbol, g, init), symbol, g, events[|events| - 1], finals, ClockAfter(init, start));
      }
    }
  }

  // From an empty cache, then, every such run ends in sync.
  lemma ColdRunEndsInSync(symbol: string, g: Grid, events: seq<PollEvent>, finals: Finals, start: int)
    requires HonestRun(g, events, finals, start)
    requires StoresReaching(EMPTY, symbol, g, events) && StoresFinal(EMPTY, symbol, g, events, finals)
    ensures InSync(Polls(EMPTY, symbol, g, events), symbol, g, finals, ClockAfter(events, start))
  {
    EmptyIsInSync(symbol, g, finals, start);
    HonestRunStaysInSync(EMPTY, symbol, g, events, finals, start);
  }

  lemma EmptyIsInSync(symbol: string, g: Grid, finals: Finals, start: int)
    ensures InSync(EMPTY, symbol, g, finals, start)
  {
  }
}
