// The writer's loop: one cycle over the polling targets, and how long it sleeps afterwards.

module PollLoops {
  import opened Rows
  import Timeframes
  import opened CacheStore
  import BarCaches
  import Serving
  import opened Fetching
  import opened Feeds
  import opened System

  const MIN_SLEEP: real := 5.0
  const BAR_CLOSE_GRACE: real := 5.0

  // Visiting targets one after another, each in its own environment.
  function VisitAll(s: Sys, rows: seq<FeedRow>, count: nat, envs: seq<FetchEnv>): Sys
    requires |envs| == |rows|
  {
    if rows == [] then s
    else
      var n := |rows| - 1;
      Visit(VisitAll(s, rows[..n], count, envs[..n]), rows[n], count, envs[n])
  }

  lemma VisitSnoc(s: Sys, rows: seq<FeedRow>, count: nat, envs: seq<FetchEnv>, i: nat)
    requires |envs| == |rows| && i < |rows|
    ensures VisitAll(s, rows[..i + 1], count, envs[..i + 1])
         == Visit(VisitAll(s, rows[..i], count, envs[..i]), rows[i], count, envs[i])
  {
    assert rows[..i + 1][..i] == rows[..i] && envs[..i + 1][..i] == envs[..i];
  }

  class PollLoop {
    const repo: FeedsRepo
    const fetcher: DataFetcher
    var lastTs: map<FeedKey, Option<int>>

    constructor (repo: FeedsRepo, fetcher: DataFetcher)
      ensures this.repo == repo && this.fetcher == fetcher && lastTs == map[]
    {
      this.repo, this.fetcher, lastTs := repo, fetcher, map[];
    }

    function State(): Sys
      reads this, repo, fetcher, fetcher.cache
    {
      Sys(repo.feeds, fetcher.cache.Tables(), fetcher.chart, [], lastTs)
    }

    // One target: a fetch that raises, or answers with no bars, is logged and skipped.
    method VisitTarget(row: FeedRow, env: FetchEnv)
      requires fetcher.cache.Valid()
      modifies this, repo, fetcher, fetcher.cache
      ensures fetcher.cache.Valid()
      ensures State() == Visit(old(State()), row, fetcher.barsToFetch, env)
    {
      ghost var before := State();
      var answer := fetcher.Fetch(FeedOf(row), env);
      ghost var o := FetchAt(before.store, before.chart, FeedOf(row), fetcher.barsToFetch, env);
      NoteAnswer(row, answer, env.t1, before, o);
    }

    method NoteAnswer(row: FeedRow, answer: BarCaches.Result<seq<Row>>, now: int, ghost before: Sys, ghost o: Outcome)
      requires answer.Ok? <==> o.answer.Some?
      requires answer.Ok? ==> answer.value == o.answer.value
      requires State() == before.(store := o.store, chart := o.chart)
      modifies this, repo
      ensures State() == Settle(before, row, o, now)
    {
      if row.key !in lastTs {
        lastTs := lastTs[row.key := None];
      }
      if answer.Ok? && answer.value != [] {
        var current := answer.value[|answer.value| - 1].time;
        var prev := lastTs[row.key];
        if prev.None? || current > prev.value {
          lastTs := lastTs[row.key := Some(current)];
        }
        if row.status == Pending {
          repo.MarkFeedActive(row.key, now);
        }
      }
    }

    method RunCycle(rows: seq<FeedRow>, envs: seq<FetchEnv>)
      requires |envs| == |rows| && fetcher.cache.Valid()
      modifies this, repo, fetcher, fetcher.cache
      ensures fetcher.cache.Valid()
      ensures State() == VisitAll(old(State()), rows, fetcher.barsToFetch, envs)
    {
      var i := 0;
      while i < |rows|
        invariant 0 <= i <= |rows|
        invariant fetcher.cache.Valid()
        invariant State() == VisitAll(old(State()), rows[..i], fetcher.barsToFetch, envs[..i])
      {
        VisitSnoc(old(State()), rows, fetcher.barsToFetch, envs, i);
        VisitTarget(rows[i], envs[i]);
        i := i + 1;
      }
      assert rows[..i] == rows && envs[..i] == envs;
    }
  }

  // A cycle over a snapshot of the targets is a run of the state machine.
  lemma {:induction false} CycleIsSafe(s: Sys, rows: seq<FeedRow>, count: nat, envs: seq<FetchEnv>)
    requires |envs| == |rows| && SysInv(s)
    ensures SysInv(VisitAll(s, rows, count, envs)) && Progresses(s, VisitAll(s, rows, count, envs))
  {
    if rows != [] {
      var n := |rows| - 1;
      CycleIsSafe(s, rows[..n], count, envs[..n]);
      var mid := VisitAll(s, rows[..n], count, envs[..n]);
      VisitSafe(mid, rows[n], count, envs[n]);
      ProgressesTransitive(s, mid, VisitAll(s, rows, count, envs));
    }
  }

  // ---------------------------------------------------------------- what a cycle does

  // The state the i-th target is visited in, and what its fetch comes to.
  function StateAt(s: Sys, rows: seq<FeedRow>, count: nat, envs: seq<FetchEnv>, i: nat): Sys
    requires |envs| == |rows| && i <= |rows|
  {
    VisitAll(s, rows[..i], count, envs[..i])
  }

  function OutcomeAt(s: Sys, rows: seq<FeedRow>, count: nat, envs: seq<FetchEnv>, i: nat): Outcome
    requires |envs| == |rows| && i < |rows|
  {
    var mid := StateAt(s, rows, count, envs, i);
    FetchAt(mid.store, mid.chart, FeedOf(rows[i]), count, envs[i])
  }

  // A cycle leaves alone what it does not visit.
  lemma {:induction false} NotVisited(s: Sys, rows: seq<FeedRow>, count: nat, envs: seq<FetchEnv>, k: FeedKey)
    requires |envs| == |rows| && forall r :: r in rows ==> r.key != k
    ensures var s' := VisitAll(s, rows, count, envs);
            && s'.feeds.Keys == s.feeds.Keys
            && (k in s.feeds ==> s'.feeds[k] == s.feeds[k])
            && (k in s'.lastTs <==> k in s.lastTs) && (k in s.lastTs ==> s'.lastTs[k] == s.lastTs[k])
  {
    if rows != [] {
      var n := |rows| - 1;
      NotVisited(s, rows[..n], count, envs[..n], k);
      var mid := VisitAll(s, rows[..n], count, envs[..n]);
      VisitPromotes(mid, rows[n], count, envs[n]);
      VisitNotes(mid, rows[n], count, envs[n]);
    }
  }

  // What the cycle comes to for one target.
  ghost predicate Settled(s: Sys, s': Sys, row: FeedRow, o: Outcome, now: int) {
    && row.key in s.feeds && row.key in s'.feeds && row.key in s'.lastTs
    && (Answered(o) ==>
          && s'.feeds[row.key] == (if s.feeds[row.key].status == Pending
                                   then FeedRec(s.feeds[row.key].tvSymbol, Active, now) else s.feeds[row.key])
          && s'.lastTs[row.key] == Some(SeenWith(s.lastTs, row.key, NewestAnswered(o))))
    && (!Answered(o) ==>
          && s'.feeds[row.key] == s.feeds[row.key]
          && s'.lastTs[row.key] == if row.key in s.lastTs then s.lastTs[row.key] else None)
  }

  ghost predicate DistinctKeys(rows: seq<FeedRow>) {
    forall i, j :: 0 <= i < j < |rows| ==> rows[i].key != rows[j].key
  }

  lemma TargetsDistinct(t: FeedTable, rows: seq<FeedRow>)
    requires AreTargets(t, rows)
    ensures DistinctKeys(rows)
  {
    forall i, j | 0 <= i < j < |rows| ensures rows[i].key != rows[j].key {
      KeyBelowOrders(rows[i].key, rows[j].key, rows[i].key);
    }
  }

  // One cycle over the polling targets: every target whose fetch answered with a bar is active
  // afterwards, and its newest seen timestamp is the greater of the old one and the newest
  // answered; every target whose fetch raised or answered nothing is as it was.
  lemma CycleSettles(s: Sys, rows: seq<FeedRow>, count: nat, envs: seq<FetchEnv>, i: nat)
    requires |envs| == |rows| && i < |rows| && AreTargets(s.feeds, rows)
    ensures Settled(s, VisitAll(s, rows, count, envs), rows[i], OutcomeAt(s, rows, count, envs, i), envs[i].t1)
  {
    TargetsDistinct(s.feeds, rows);
    assert rows[i] in rows;
    SettledAfter(s, rows, count, envs, i, |rows|);
    assert rows[..|rows|] == rows && envs[..|rows|] == envs;
  }

  // Settled once n targets have been visited.
  ghost predicate SettledBy(s: Sys, rows: seq<FeedRow>, count: nat, envs: seq<FetchEnv>, i: nat, n: nat)
    requires |envs| == |rows| && i < |rows| && n <= |rows|
  {
    Settled(s, StateAt(s, rows, count, envs, n), rows[i], OutcomeAt(s, rows, count, envs, i), envs[i].t1)
  }

  lemma SettledAfter(s: Sys, rows: seq<FeedRow>, count: nat, envs: seq<FetchEnv>, i: nat, n: nat)
    requires |envs| == |rows| && i < n <= |rows| && DistinctKeys(rows)
    requires rows[i].key in s.feeds && rows[i].status == s.feeds[rows[i].key].status
    ensures SettledBy(s, rows, count, envs, i, n)
  {
    var m := i + 1;
    SettledFirst(s, rows, count, envs, i);
    while m < n
      invariant i < m <= n && SettledBy(s, rows, count, envs, i, m)
    {
      SettledNext(s, rows, count, envs, i, m + 1);
      m := m + 1;
    }
  }

  lemma SettledFirst(s: Sys, rows: seq<FeedRow>, count: nat, envs: seq<FetchEnv>, i: nat)
    requires |envs| == |rows| && i < |rows| && DistinctKeys(rows)
    requires rows[i].key in s.feeds && rows[i].status == s.feeds[rows[i].key].status
    ensures SettledBy(s, rows, count, envs, i, i + 1)
  {
    NotVisited(s, rows[..i], count, envs[..i], rows[i].key);
    VisitSnoc(s, rows, count, envs, i);
    SettledByVisit(s, StateAt(s, rows, count, envs, i), rows[i], count, envs[i]);
  }

  lemma SettledNext(s: Sys, rows: seq<FeedRow>, count: nat, envs: seq<FetchEnv>, i: nat, n: nat)
    requires |envs| == |rows| && i < n - 1 && n <= |rows| && DistinctKeys(rows)
    requires SettledBy(s, rows, count, envs, i, n - 1)
    ensures SettledBy(s, rows, count, envs, i, n)
  {
    VisitSnoc(s, rows, count, envs, n - 1);
    StaysSettled(s, StateAt(s, rows, count, envs, n - 1), rows[i], OutcomeAt(s, rows, count, envs, i), envs[i].t1,
                 rows[n - 1], count, envs[n - 1]);
  }

  lemma SettledByVisit(s: Sys, mid: Sys, row: FeedRow, count: nat, env: FetchEnv)
    requires row.key in s.feeds && row.key in mid.feeds && mid.feeds[row.key] == s.feeds[row.key]
    requires row.status == s.feeds[row.key].status
    requires row.key in mid.lastTs <==> row.key in s.lastTs
    requires row.key in s.lastTs ==> mid.lastTs[row.key] == s.lastTs[row.key]
    ensures Settled(s, Visit(mid, row, count, env), row, FetchAt(mid.store, mid.chart, FeedOf(row), count, env), env.t1)
  {
    VisitPromotes(mid, row, count, env);
    VisitNotes(mid, row, count, env);
  }

  lemma StaysSettled(s: Sys, mid: Sys, row: FeedRow, o: Outcome, now: int, other: FeedRow, count: nat, env: FetchEnv)
    requires Settled(s, mid, row, o, now) && other.key != row.key
    ensures Settled(s, Visit(mid, other, count, env), row, o, now)
  {
    VisitPromotes(mid, other, count, env);
    VisitNotes(mid, other, count, env);
  }

  // The cycle of the loop, as actions of the state machine: the targets are read, then visited
  // one after another until none is left.
  function CycleActions(rows: seq<FeedRow>, count: nat, envs: seq<FetchEnv>): seq<Action> {
    if envs == [] then [BeginCycle(rows)]
    else CycleActions(rows, count, envs[..|envs| - 1]) + [VisitNext(count, envs[|envs| - 1])]
  }

  lemma VisitIgnoresTodo(s: Sys, row: FeedRow, count: nat, env: FetchEnv, todo: seq<FeedRow>)
    ensures Visit(s.(todo := todo), row, count, env) == Visit(s, row, count, env).(todo := todo)
  {
  }

  lemma DoSnoc(s: Sys, actions: seq<Action>, a: Action)
    ensures DoAll(s, actions + [a]) == Do(DoAll(s, actions), a)
  {
    assert (actions + [a])[..|actions|] == actions;
  }

  lemma {:induction false} CycleIsActions(s: Sys, rows: seq<FeedRow>, count: nat, envs: seq<FetchEnv>, n: nat)
    requires |envs| == |rows| && n <= |rows|
    ensures DoAll(s, CycleActions(rows, count, envs[..n])) == StateAt(s, rows, count, envs, n).(todo := rows[n..])
  {
    if n == 0 {
      CycleBegins(s, rows, count, envs);
    } else {
      CycleIsActions(s, rows, count, envs, n - 1);
      CycleGoesOn(s, rows, count, envs, n);
    }
  }

  lemma CycleBegins(s: Sys, rows: seq<FeedRow>, count: nat, envs: seq<FetchEnv>)
    requires |envs| == |rows|
    ensures DoAll(s, CycleActions(rows, count, envs[..0])) == StateAt(s, rows, count, envs, 0).(todo := rows[0..])
  {
    DoSnoc(s, [], BeginCycle(rows));
    assert [] + [BeginCycle(rows)] == [BeginCycle(rows)];
  }

  lemma ActionsSnoc(rows: seq<FeedRow>, count: nat, envs: seq<FetchEnv>, n: nat)
    requires 1 <= n <= |envs|
    ensures CycleActions(rows, count, envs[..n]) == CycleActions(rows, count, envs[..n - 1]) + [VisitNext(count, envs[n - 1])]
  {
    assert envs[..n][..n - 1] == envs[..n - 1];
  }

  lemma CycleGoesOn(s: Sys, rows: seq<FeedRow>, count: nat, envs: seq<FetchEnv>, n: nat)
    requires |envs| == |rows| && 1 <= n <= |rows|
    requires DoAll(s, CycleActions(rows, count, envs[..n - 1])) == StateAt(s, rows, count, envs, n - 1).(todo := rows[n - 1..])
    ensures DoAll(s, CycleActions(rows, count, envs[..n])) == StateAt(s, rows, count, envs, n).(todo := rows[n..])
  {
    ActionsSnoc(rows, count, envs, n);
    DoSnoc(s, CycleActions(rows, count, envs[..n - 1]), VisitNext(count, envs[n - 1]));
    VisitSnoc(s, rows, count, envs, n - 1);
    NextVisit(StateAt(s, rows, count, envs, n - 1), rows, count, envs[n - 1], n);
  }

  lemma NextVisit(mid: Sys, rows: seq<FeedRow>, count: nat, env: FetchEnv, n: nat)
    requires 1 <= n <= |rows|
    ensures Do(mid.(todo := rows[n - 1..]), VisitNext(count, env)) == Visit(mid, rows[n - 1], count, env).(todo := rows[n..])
  {
    VisitIgnoresTodo(mid, rows[n - 1], count, env, rows[n - 1..]);
    assert rows[n - 1..][1..] == rows[n..];
  }

  // ---------------------------------------------------------------- sleeping

  // When the first new closed bar of a feed can be fetched; an unknown feed is retried soon.
  function WakeFor(s: Store, feed: Feed, now: real): real {
    match Serving.LatestBarTs(s, DefaultKey(feed.symbol, feed.timeframe))
    case None => now + MIN_SLEEP
    case Some(last) =>
      var secs := if Timeframes.GridOf(feed.timeframe).Some? then Timeframes.GridOf(feed.timeframe).value.secs else 0;
      (last + 2 * secs) as real + BAR_CLOSE_GRACE
  }

  // wake is the least of the fallback and every feed's own time.
  ghost predicate EarliestWake(wake: real, s: Store, feeds: seq<Feed>, now: real, fallback: real) {
    && wake <= now + fallback
    && (forall f :: f in feeds ==> wake <= WakeFor(s, f, now))
    && (wake == now + fallback || exists f :: f in feeds && wake == WakeFor(s, f, now))
  }

  lemma EarliestSnoc(wake: real, s: Store, feeds: seq<Feed>, feed: Feed, now: real, fallback: real)
    requires EarliestWake(wake, s, feeds, now, fallback)
    ensures var w := WakeFor(s, feed, now);
            EarliestWake(if w < wake then w else wake, s, feeds + [feed], now, fallback)
  {
    var w := WakeFor(s, feed, now);
    assert feed in feeds + [feed];
    assert forall f :: f in feeds ==> f in feeds + [feed];
  }

  // now is read before the loop over feeds, later after it.
  method SleepTime(s: Store, feeds: seq<Feed>, fallback: real, now: real, later: real) returns (sleep: real, wake: real)
    requires StoreInv(s)
    ensures EarliestWake(wake, s, feeds, now, fallback)
    ensures sleep == if wake - later > 5.0 then wake - later else 5.0
  {
    var earliest := now + fallback;
    var i := 0;
    while i < |feeds|
      invariant 0 <= i <= |feeds|
      invariant EarliestWake(earliest, s, feeds[..i], now, fallback)
    {
      var feed := feeds[i];
      var k := DefaultKey(feed.symbol, feed.timeframe);
      AtInvOf(s, k);
      EarliestSnoc(earliest, s, feeds[..i], feed, now, fallback);
      assert feeds[..i + 1] == feeds[..i] + [feed];
      if Serving.LatestBarTs(s, k).None? {
        if now + MIN_SLEEP < earliest { earliest := now + MIN_SLEEP; }
      } else {
        assert KeyInv(s, k);
        var nextClose := (Serving.LatestBarTs(s, k).value + 2 * Timeframes.GridOf(feed.timeframe).value.secs) as real + BAR_CLOSE_GRACE;
        if nextClose < earliest { earliest := nextClose; }
      }
      i := i + 1;
    }
    assert feeds[..i] == feeds;
    wake := earliest;
    sleep := if earliest - later > MIN_SLEEP then earliest - later else MIN_SLEEP;
  }

  // Said outright: a feed with bars is due two bar widths and five seconds after its newest
  // one, a feed without any five seconds from now; the wake time is the least of these and the
  // fallback.
  lemma EarliestWakeIs(wake: real, s: Store, feeds: seq<Feed>, now: real, fallback: real)
    requires StoreInv(s)
    ensures EarliestWake(wake, s, feeds, now, fallback)
            <==> && wake <= now + fallback
                 && (forall f :: f in feeds ==> wake <= DueAt(s, f, now))
                 && (wake == now + fallback || exists f :: f in feeds && wake == DueAt(s, f, now))
  {
    forall f: Feed ensures DueAt(s, f, now) == WakeFor(s, f, now) { DueIs(s, f, now); }
  }

  function DueAt(s: Store, f: Feed, now: real): real {
    var k := DefaultKey(f.symbol, f.timeframe);
    if k in s.meta && Timeframes.Spelled(f.timeframe).Some?
    then (s.meta[k].lastBarTs + 2 * Timeframes.Spelled(f.timeframe).value) as real + 5.0
    else now + 5.0
  }

  lemma DueIs(s: Store, f: Feed, now: real)
    requires StoreInv(s)
    ensures DueAt(s, f, now) == WakeFor(s, f, now)
  {
    assert KeyInv(s, DefaultKey(f.symbol, f.timeframe));
    Timeframes.SecondsAreSpelled(f.timeframe);
  }

  // The loop wakes at the earliest time but never sooner than five seconds from now; it never
  // oversleeps any feed by more than that, and if a known feed set the time then at that
  // moment its fast path no longer applies, so the poll really asks the source.
  lemma WakeIsUseful(s: Store, feeds: seq<Feed>, fallback: real, now: real, later: real, wake: real, feed: Feed)
    requires StoreInv(s)
    requires EarliestWake(wake, s, feeds, now, fallback) && feed in feeds
    requires Timeframes.GridOf(feed.timeframe).Some?
    ensures var up := later + if wake - later > 5.0 then wake - later else 5.0;
            && up <= (if DueAt(s, feed, now) > later + 5.0 then DueAt(s, feed, now) else later + 5.0)
            && (wake == DueAt(s, feed, now) ==> !Fresh(s, feed, Timeframes.GridOf(feed.timeframe).value, up))
  {
    DueIs(s, feed, now);
  }
}
