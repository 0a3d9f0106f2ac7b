// The whole writer as one state machine: feeds table, cache tables, the chart, the targets
// the current poll cycle still has to visit, and the newest timestamp seen per feed. Seeding, asset
// creation and upserts come from other processes and interleave with the cycle freely.

module System {
  import opened Rows
  import CacheModel
  import opened CacheStore
  import Serving
  import opened Fetching
  import opened Feeds

  datatype Sys = Sys(feeds: FeedTable, store: Store, chart: Chart, todo: seq<FeedRow>, lastTs: map<FeedKey, Option<int>>)

  function Start(primary: Feed): Sys {
    Sys(map[], EMPTY_STORE, ChartOf(primary), [], map[])
  }

  function FeedOf(row: FeedRow): Feed {
    Feed(row.key.symbol, row.key.timeframe, row.tvSymbol)
  }

  // ---------------------------------------------------------------- visiting one target

  // Taking the newest bar of an answer raises when the answer is empty, so an empty answer
  // neither moves last_ts nor promotes the feed.
  function NoteNewest(seen: map<FeedKey, Option<int>>, k: FeedKey, answer: seq<Row>): map<FeedKey, Option<int>>
    requires answer != [] && k in seen
  {
    var current := answer[|answer| - 1].time;
    match seen[k]
    case None => seen[k := Some(current)]
    case Some(prev) => if current > prev then seen[k := Some(current)] else seen
  }

  function Settle(s: Sys, row: FeedRow, o: Outcome, now: int): Sys {
    var seen := if row.key in s.lastTs then s.lastTs else s.lastTs[row.key := None];
    if o.answer.None? || o.answer.value == [] then s.(store := o.store, chart := o.chart, lastTs := seen)
    else
      s.(store := o.store, chart := o.chart,
         lastTs := NoteNewest(seen, row.key, o.answer.value),
         feeds := if row.status == Pending then MarkActive(s.feeds, row.key, now) else s.feeds)
  }

  function Visit(s: Sys, row: FeedRow, count: nat, env: FetchEnv): Sys {
    Settle(s, row, FetchAt(s.store, s.chart, FeedOf(row), count, env), env.t1)
  }

  // The fetch of a visit answered with at least one bar.
  predicate Answered(o: Outcome) {
    o.answer.Some? && o.answer.value != []
  }

  function NewestAnswered(o: Outcome): int
    requires Answered(o)
  {
    o.answer.value[|o.answer.value| - 1].time
  }

  // The greater of what was seen before, if anything, and t.
  function SeenWith(seen: map<FeedKey, Option<int>>, k: FeedKey, t: int): int {
    if k in seen && seen[k].Some? then Max(seen[k].value, t) else t
  }

  // What a visit does to the feeds table: a target whose fetch answered with a bar turns
  // active if it was pending; nothing else changes.
  lemma VisitPromotes(s: Sys, row: FeedRow, count: nat, env: FetchEnv)
    ensures var o := FetchAt(s.store, s.chart, FeedOf(row), count, env);
            var s' := Visit(s, row, count, env);
            && s'.feeds.Keys == s.feeds.Keys
            && (forall k :: k in s.feeds ==>
                  s'.feeds[k] == if k == row.key && Answered(o) && row.status == Pending && s.feeds[k].status == Pending
                                 then FeedRec(s.feeds[k].tvSymbol, Active, env.t1) else s.feeds[k])
  {
    SettlePromotes(s, row, FetchAt(s.store, s.chart, FeedOf(row), count, env), env.t1);
  }

  lemma SettlePromotes(s: Sys, row: FeedRow, o: Outcome, now: int)
    ensures var s' := Settle(s, row, o, now);
            && s'.feeds.Keys == s.feeds.Keys
            && (forall k :: k in s.feeds ==>
                  s'.feeds[k] == if k == row.key && Answered(o) && row.status == Pending && s.feeds[k].status == Pending
                                 then FeedRec(s.feeds[k].tvSymbol, Active, now) else s.feeds[k])
  {
  }

  // And to what it has seen: the newest answered timestamp counts if it is newer.
  lemma VisitNotes(s: Sys, row: FeedRow, count: nat, env: FetchEnv)
    ensures var o := FetchAt(s.store, s.chart, FeedOf(row), count, env);
            var s' := Visit(s, row, count, env);
            && s'.store == o.store && s'.chart == o.chart && s'.todo == s.todo
            && s'.lastTs.Keys == s.lastTs.Keys + {row.key}
            && (Answered(o) ==> s'.lastTs[row.key] == Some(SeenWith(s.lastTs, row.key, NewestAnswered(o))))
            && (!Answered(o) ==> s'.lastTs[row.key] == if row.key in s.lastTs then s.lastTs[row.key] else None)
            && (forall k :: k in s.lastTs && k != row.key ==> s'.lastTs[k] == s.lastTs[k])
  {
    SettleNotes(s, row, FetchAt(s.store, s.chart, FeedOf(row), count, env), env.t1);
  }

  lemma SettleNotes(s: Sys, row: FeedRow, o: Outcome, now: int)
    ensures var s' := Settle(s, row, o, now);
            && s'.store == o.store && s'.chart == o.chart && s'.todo == s.todo
            && s'.lastTs.Keys == s.lastTs.Keys + {row.key}
            && (Answered(o) ==> s'.lastTs[row.key] == Some(SeenWith(s.lastTs, row.key, NewestAnswered(o))))
            && (!Answered(o) ==> s'.lastTs[row.key] == if row.key in s.lastTs then s.lastTs[row.key] else None)
            && (forall k :: k in s.lastTs && k != row.key ==> s'.lastTs[k] == s.lastTs[k])
  {
  }

  // ---------------------------------------------------------------- steps

  datatype Action =
    | Seed(envFeeds: seq<Feed>, now: int)
    | CreateAsset(storageSymbol: string, timeframes: seq<string>, tvSymbol: string, now: int)
    | UpsertFeed(key: FeedKey, tvSymbol: string, now: int)
    | BeginCycle(targets: seq<FeedRow>)
    | VisitNext(count: nat, env: FetchEnv)
    | CacheCommand(command: Command)

  // A cycle begins with a snapshot of the polling targets; the cache is never invalidated.
  ghost predicate Enabled(s: Sys, a: Action) {
    match a
    case BeginCycle(targets) => s.todo == [] && AreTargets(s.feeds, targets)
    case VisitNext(_, _) => s.todo != []
    case CacheCommand(c) => !c.Invalidate?
    case _ => true
  }

  function Do(s: Sys, a: Action): Sys {
    match a
    case Seed(envFeeds, now) => s.(feeds := SeedAll(s.feeds, s.store, envFeeds, now))
    case CreateAsset(storageSymbol, timeframes, tvSymbol, now) =>
      s.(feeds := CreateFeeds(s.feeds, storageSymbol, timeframes, tvSymbol, now))
    case UpsertFeed(key, tvSymbol, now) => s.(feeds := UpsertPending(s.feeds, key, tvSymbol, now))
    case BeginCycle(targets) => s.(todo := targets)
    case VisitNext(count, env) =>
      if s.todo == [] then s else Visit(s, s.todo[0], count, env).(todo := s.todo[1..])
    case CacheCommand(c) => s.(store := Step(s.store, c))
  }

  function DoAll(s: Sys, actions: seq<Action>): Sys {
    if actions == [] then s
    else Do(DoAll(s, actions[..|actions| - 1]), actions[|actions| - 1])
  }

  ghost predicate AllEnabled(s: Sys, actions: seq<Action>) {
    forall i :: 0 <= i < |actions| ==> Enabled(DoAll(s, actions[..i]), actions[i])
  }

  // What the other processes do to the feeds table: rows that exist keep their status, and
  // whatever was to be there is there.
  lemma ActionsRegister(s: Sys, envFeeds: seq<Feed>, symbol: string, timeframes: seq<string>, key: FeedKey, tvSymbol: string, now: int)
    ensures var s' := Do(s, Seed(envFeeds, now));
            && s' == s.(feeds := s'.feeds)
            && (forall f :: f in envFeeds ==> KeyOf(f) in s'.feeds)
            && (forall k :: k in s.feeds ==> k in s'.feeds && s'.feeds[k] == s.feeds[k])
            && (forall k :: k in s'.feeds && k !in s.feeds ==>
                  s'.feeds[k].status == if HasMetaRow(s.store, k) then Active else Pending)
    ensures var s' := Do(s, CreateAsset(symbol, timeframes, tvSymbol, now));
            && s' == s.(feeds := s'.feeds)
            && (forall tf :: tf in timeframes ==> FeedKey(symbol, tf) in s'.feeds)
            && (forall k :: k in s.feeds ==> k in s'.feeds && s'.feeds[k] == s.feeds[k])
            && (forall k :: k in s'.feeds && k !in s.feeds ==> s'.feeds[k] == FeedRec(tvSymbol, Pending, now))
    ensures var s' := Do(s, UpsertFeed(key, tvSymbol, now));
            && s' == s.(feeds := s'.feeds)
            && s'.feeds.Keys == s.feeds.Keys + {key}
            && s'.feeds[key] == FeedRec(tvSymbol, if key in s.feeds then s.feeds[key].status else Pending, now)
            && (forall k :: k in s.feeds && k != key ==> s'.feeds[k] == s.feeds[k])
  {
    SeedAllIs(s.feeds, s.store, envFeeds, now);
    CreateFeedsIs(s.feeds, symbol, timeframes, tvSymbol, now);
    forall f | f in envFeeds ensures KeyOf(f) in SeedAll(s.feeds, s.store, envFeeds, now) {
      assert exists f' :: f' in envFeeds && KeyOf(f') == KeyOf(f);
    }
  }

  // ---------------------------------------------------------------- safety

  ghost predicate SysInv(s: Sys) {
    && StoreInv(s.store)
    && ActiveHasBars(s.feeds, s.store)
    && (forall row :: row in s.todo ==> row.key in s.feeds && row.status != Inactive)
    && SeenStored(s.lastTs, s.store)
  }

  ghost predicate SeenStored(seen: map<FeedKey, Option<int>>, s: Store) {
    forall k :: k in seen && seen[k].Some? ==> seen[k].value in DefaultBars(s, k)
  }

  // The bars the writer stores for a feed.
  function DefaultBars(s: Store, k: FeedKey): CacheModel.Series {
    At(s, DefaultKey(k.symbol, k.timeframe)).bars
  }

  // No stored bar of any series is lost from one store to the next.
  ghost predicate NoBarLost(s: Store, s': Store) {
    forall k: Key :: At(s, k).bars.Keys <= At(s', k).bars.Keys
  }

  // The newest timestamp seen for a feed only moves forward.
  ghost predicate SeenForward(m: map<FeedKey, Option<int>>, m': map<FeedKey, Option<int>>) {
    forall k :: k in m && m[k].Some? ==> k in m' && m'[k].Some? && m[k].value <= m'[k].value
  }

  ghost predicate Progresses(s: Sys, s': Sys) {
    Evolves(s.feeds, s'.feeds) && NoBarLost(s.store, s'.store) && SeenForward(s.lastTs, s'.lastTs)
  }

  lemma BarsKeepMeta(s: Store, s': Store)
    requires StoreInv(s) && StoreInv(s') && NoBarLost(s, s')
    ensures forall k :: HasMeta(s, k) ==> HasMeta(s', k)
  {
    forall k | HasMeta(s, k) ensures HasMeta(s', k) {
      var p :| Key(k.symbol, k.timeframe, p) in s.meta;
      var key := Key(k.symbol, k.timeframe, p);
      AtInvOf(s, key);
      AtInvOf(s', key);
      var ts := s.meta[key].lastBarTs;
      assert ts in At(s', key).bars;
      assert key in s'.meta;
    }
  }

  lemma FetchSafe(s: Store, chart: Chart, feed: Feed, count: nat, env: FetchEnv)
    requires StoreInv(s)
    ensures var o := FetchAt(s, chart, feed, count, env);
            SoundOutcome(s, KeyOf(feed), o)
  {
    var o := FetchAt(s, chart, feed, count, env);
    var c := PollFeed(feed.symbol, feed.timeframe, count, Screened(feed.symbol, env.tool), env.t0, env.t1);
    FetchIsACommand(s, chart, feed, count, env);
    StepKeepsInv(s, c);
    forall k: Key ensures At(s, k).bars.Keys <= At(o.store, k).bars.Keys {
      StepNeverLosesBars(s, c, k);
    }
    FetchAnswersFromStore(s, chart, feed, count, env);
    if o.answer.Some? && o.answer.value != [] {
      var k := DefaultKey(feed.symbol, feed.timeframe);
      Serving.NewestIs(At(o.store, k).bars, count);
      assert o.answer.value[|o.answer.value| - 1] in o.answer.value;
      AtInvOf(o.store, k);
      assert k in o.store.meta;
    }
  }

  lemma SeenStillStored(seen: map<FeedKey, Option<int>>, s: Store, s': Store)
    requires SeenStored(seen, s) && NoBarLost(s, s')
    ensures SeenStored(seen, s')
  {
    forall k | k in seen && seen[k].Some? ensures seen[k].value in DefaultBars(s', k) {
      var key := DefaultKey(k.symbol, k.timeframe);
      assert At(s, key).bars.Keys <= At(s', key).bars.Keys;
      assert seen[k].value in At(s, key).bars.Keys;
    }
  }

  lemma MarkActiveSafe(t: FeedTable, s: Store, k: FeedKey, now: int)
    requires ActiveHasBars(t, s) && HasMeta(s, k)
    ensures ActiveHasBars(MarkActive(t, k, now), s) && Evolves(t, MarkActive(t, k, now))
  {
  }

  lemma NoteNewestSafe(seen: map<FeedKey, Option<int>>, s: Store, k: FeedKey, answer: seq<Row>)
    requires SeenStored(seen, s) && k in seen && answer != []
    requires answer[|answer| - 1].time in DefaultBars(s, k)
    ensures SeenStored(NoteNewest(seen, k, answer), s) && SeenForward(seen, NoteNewest(seen, k, answer))
    ensures NoteNewest(seen, k, answer).Keys == seen.Keys
  {
  }

  // What a fetch promises the caller about the new store and its answer.
  ghost predicate SoundOutcome(s: Store, k: FeedKey, o: Outcome) {
    && StoreInv(o.store) && NoBarLost(s, o.store)
    && (o.answer.Some? && o.answer.value != [] ==>
          && HasMeta(o.store, k)
          && o.answer.value[|o.answer.value| - 1].time in DefaultBars(o.store, k))
  }

  lemma SettleSafe(s: Sys, row: FeedRow, o: Outcome, now: int)
    requires SysInv(s) && SoundOutcome(s.store, row.key, o)
    ensures SysInv(Settle(s, row, o, now)) && Progresses(s, Settle(s, row, o, now))
  {
    var seen := if row.key in s.lastTs then s.lastTs else s.lastTs[row.key := None];
    BarsKeepMeta(s.store, o.store);
    SeenStillStored(seen, s.store, o.store);
    assert ActiveHasBars(s.feeds, o.store);
    if o.answer.Some? && o.answer.value != [] {
      NoteNewestSafe(seen, o.store, row.key, o.answer.value);
      MarkActiveSafe(s.feeds, o.store, row.key, now);
    }
  }

  lemma VisitSafe(s: Sys, row: FeedRow, count: nat, env: FetchEnv)
    requires SysInv(s)
    ensures SysInv(Visit(s, row, count, env)) && Progresses(s, Visit(s, row, count, env))
  {
    FetchSafe(s.store, s.chart, FeedOf(row), count, env);
    assert KeyOf(FeedOf(row)) == row.key;
    SettleSafe(s, row, FetchAt(s.store, s.chart, FeedOf(row), count, env), env.t1);
  }

  lemma DoSafe(s: Sys, a: Action)
    requires SysInv(s) && Enabled(s, a)
    ensures SysInv(Do(s, a)) && Progresses(s, Do(s, a))
  {
    match a
    case Seed(envFeeds, now) => SeedAllSafe(s.feeds, s.store, envFeeds, now);
    case CreateAsset(storageSymbol, timeframes, tvSymbol, now) =>
      CreateFeedsSafe(s.feeds, s.store, storageSymbol, timeframes, tvSymbol, now);
    case UpsertFeed(key, tvSymbol, now) =>
    case BeginCycle(targets) =>
    case VisitNext(count, env) => VisitSafe(s, s.todo[0], count, env);
    case CacheCommand(c) =>
      StepKeepsInv(s.store, c);
      forall k: Key ensures At(s.store, k).bars.Keys <= At(Step(s.store, c), k).bars.Keys {
        StepNeverLosesBars(s.store, c, k);
      }
      BarsKeepMeta(s.store, Step(s.store, c));
      SeenStillStored(s.lastTs, s.store, Step(s.store, c));
  }

  lemma ProgressesTransitive(a: Sys, b: Sys, c: Sys)
    requires Progresses(a, b) && Progresses(b, c)
    ensures Progresses(a, c)
  {
    forall k: Key ensures At(a.store, k).bars.Keys <= At(c.store, k).bars.Keys {
      assert At(a.store, k).bars.Keys <= At(b.store, k).bars.Keys;
      assert At(b.store, k).bars.Keys <= At(c.store, k).bars.Keys;
    }
  }

  // Over any interleaving from any sound state: an active feed always has a stored bar, feed
  // keys never disappear, the only status change is pending to active (so inactive is
  // permanent), no stored bar is lost, and the newest timestamp seen per feed is a stored one
  // that only moves forward.
  lemma {:induction false} SystemIsSafe(s: Sys, actions: seq<Action>)
    requires SysInv(s) && AllEnabled(s, actions)
    ensures SysInv(DoAll(s, actions)) && Progresses(s, DoAll(s, actions))
  {
    if actions != [] {
      var init := actions[..|actions| - 1];
      forall i | 0 <= i < |init| ensures Enabled(DoAll(s, init[..i]), init[i]) {
        assert init[..i] == actions[..i];
      }
      SystemIsSafe(s, init);
      DoSafe(DoAll(s, init), actions[|actions| - 1]);
      ProgressesTransitive(s, DoAll(s, init), DoAll(s, actions));
    }
  }

  // From empty tables, read at the level the catalog reports: an active feed has bars.
  lemma ActiveFeedHasBars(primary: Feed, actions: seq<Action>, k: FeedKey)
    requires AllEnabled(Start(primary), actions)
    requires k in DoAll(Start(primary), actions).feeds && DoAll(Start(primary), actions).feeds[k].status == Active
    ensures exists p :: At(DoAll(Start(primary), actions).store, Key(k.symbol, k.timeframe, p)).bars != map[]
  {
    SystemIsSafe(Start(primary), actions);
    var s := DoAll(Start(primary), actions);
    var p :| Key(k.symbol, k.timeframe, p) in s.store.meta;
    AtInvOf(s.store, Key(k.symbol, k.timeframe, p));
  }
}
