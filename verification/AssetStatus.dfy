// The per-asset status and newest bar of the listing: aggregates over assets x feeds x
// cache_meta, against the rule they are meant to compute.

module AssetStatus {
  import opened Rows
  import opened CacheModel
  import opened CacheStore
  import opened Feeds
  import Fetching
  import opened Catalog
  import opened System

  // One row of the left joins for an asset.
  datatype JoinRow = JoinRow(feed: Option<Status>, lastBarTs: Option<int>)

  datatype MetaRow = MetaRow(key: Key, lastBarTs: int)

  // feeds and metas list the tables' rows, each at least once, in any order.
  ghost predicate ListsFeeds(rows: seq<FeedRow>, t: FeedTable) {
    && (forall r :: r in rows ==> r.key in t && t[r.key].status == r.status)
    && (forall k :: k in t ==> exists r :: r in rows && r.key == k)
  }

  ghost predicate ListsMetas(rows: seq<MetaRow>, m: map<Key, Meta>) {
    && (forall r :: r in rows ==> r.key in m && m[r.key].lastBarTs == r.lastBarTs)
    && (forall k :: k in m ==> exists r :: r in rows && r.key == k)
  }

  predicate Serves(m: MetaRow, k: FeedKey) {
    m.key.symbol == k.symbol && m.key.timeframe == k.timeframe
  }

  function Matched(f: FeedRow, metas: seq<MetaRow>): seq<JoinRow> {
    if metas == [] then []
    else
      var last := metas[|metas| - 1];
      Matched(f, metas[..|metas| - 1])
      + if Serves(last, f.key) then [JoinRow(Some(f.status), Some(last.lastBarTs))] else []
  }

  // LEFT JOIN cache_meta: one row per provider holding the feed's series, or one null row.
  function JoinMetas(f: FeedRow, metas: seq<MetaRow>): seq<JoinRow> {
    if Matched(f, metas) == [] then [JoinRow(Some(f.status), None)] else Matched(f, metas)
  }

  function JoinAll(feeds: seq<FeedRow>, metas: seq<MetaRow>): seq<JoinRow> {
    if feeds == [] then [] else JoinAll(feeds[..|feeds| - 1], metas) + JoinMetas(feeds[|feeds| - 1], metas)
  }

  // LEFT JOIN feeds: all feeds of the storage symbol, or one null row.
  function Join(storageSymbol: string, feeds: seq<FeedRow>, metas: seq<MetaRow>): seq<JoinRow> {
    var own := Filter(feeds, (f: FeedRow) => f.key.symbol == storageSymbol);
    if own == [] then [JoinRow(None, None)] else JoinAll(own, metas)
  }

  // bool_or over the status column, tried in priority order; nulls never count.
  function AggStatus(rows: seq<JoinRow>): Status {
    if exists j :: j in rows && j.feed == Some(Active) then Active
    else if exists j :: j in rows && j.feed == Some(Pending) then Pending
    else if exists j :: j in rows && j.feed == Some(Inactive) then Inactive
    else Pending
  }

  function MaxLast(rows: seq<JoinRow>): Option<int> {
    if rows == [] then None
    else
      var rest := MaxLast(rows[..|rows| - 1]);
      match rows[|rows| - 1].lastBarTs
      case None => rest
      case Some(t) => Some(if rest.Some? then Max(rest.value, t) else t)
  }

  // COALESCE(MAX(last_bar_ts), 0).
  function AggLast(rows: seq<JoinRow>): int {
    match MaxLast(rows) case None => 0 case Some(t) => t
  }

  // ---------------------------------------------------------------- the rule

  ghost predicate HasFeed(t: FeedTable, storageSymbol: string, status: Status) {
    exists k :: k in t && k.symbol == storageSymbol && t[k].status == status
  }

  // Any active feed makes the asset active, else any pending one pending, else inactive; an
  // asset without feeds is pending.
  ghost function StatusRule(t: FeedTable, storageSymbol: string): Status {
    if HasFeed(t, storageSymbol, Active) then Active
    else if HasFeed(t, storageSymbol, Pending) then Pending
    else if HasFeed(t, storageSymbol, Inactive) then Inactive
    else Pending
  }

  // The series the asset has feeds for, under any provider.
  ghost predicate Covers(t: FeedTable, storageSymbol: string, k: Key) {
    k.symbol == storageSymbol && FeedKey(k.symbol, k.timeframe) in t
  }

  // last is the newest last_bar_ts among those series, or 0 when there is none.
  ghost predicate IsLatest(last: int, t: FeedTable, m: map<Key, Meta>, storageSymbol: string) {
    if exists k :: k in m && Covers(t, storageSymbol, k) then
      && (exists k :: k in m && Covers(t, storageSymbol, k) && m[k].lastBarTs == last)
      && (forall k :: k in m && Covers(t, storageSymbol, k) ==> m[k].lastBarTs <= last)
    else last == 0
  }

  // ---------------------------------------------------------------- join = rule

  ghost predicate LastServed(f: FeedRow, metas: seq<MetaRow>, last: int) {
    exists m :: m in metas && Serves(m, f.key) && m.lastBarTs == last
  }

  lemma {:induction false} MatchedIs(f: FeedRow, metas: seq<MetaRow>)
    ensures forall j :: j in Matched(f, metas) ==>
              j.feed == Some(f.status) && j.lastBarTs.Some? && LastServed(f, metas, j.lastBarTs.value)
    ensures forall last :: LastServed(f, metas, last) ==> JoinRow(Some(f.status), Some(last)) in Matched(f, metas)
  {
    if metas != [] {
      var init, last := metas[..|metas| - 1], metas[|metas| - 1];
      MatchedIs(f, init);
      assert forall m :: m in metas <==> m in init || m == last;
    }
  }

  lemma JoinMetasIs(f: FeedRow, metas: seq<MetaRow>, last: int)
    ensures exists j :: j in JoinMetas(f, metas)
    ensures forall j :: j in JoinMetas(f, metas) ==> j.feed == Some(f.status)
    ensures (exists j :: j in JoinMetas(f, metas) && j.lastBarTs == Some(last)) <==> LastServed(f, metas, last)
  {
    MatchedIs(f, metas);
    assert JoinMetas(f, metas)[0] in JoinMetas(f, metas);
  }

  lemma {:induction false} JoinAllIs(feeds: seq<FeedRow>, metas: seq<MetaRow>)
    ensures forall j :: j in JoinAll(feeds, metas) ==> exists f :: f in feeds && j in JoinMetas(f, metas)
    ensures forall f, j :: f in feeds && j in JoinMetas(f, metas) ==> j in JoinAll(feeds, metas)
  {
    if feeds != [] {
      var init, last := feeds[..|feeds| - 1], feeds[|feeds| - 1];
      JoinAllIs(init, metas);
      assert forall f :: f in feeds <==> f in init || f == last;
    }
  }

  lemma {:induction false} MaxLastIs(rows: seq<JoinRow>)
    ensures MaxLast(rows).None? <==> forall j :: j in rows ==> j.lastBarTs.None?
    ensures MaxLast(rows).Some? ==> exists j :: j in rows && j.lastBarTs == MaxLast(rows)
    ensures forall j :: j in rows && j.lastBarTs.Some? ==> MaxLast(rows).Some? && j.lastBarTs.value <= MaxLast(rows).value
  {
    if rows != [] {
      var init, last := rows[..|rows| - 1], rows[|rows| - 1];
      MaxLastIs(init);
      assert forall j :: j in rows <==> j in init || j == last;
    }
  }

  // The joined rows carry exactly the statuses of the asset's feeds ...
  lemma JoinStatuses(storageSymbol: string, feeds: seq<FeedRow>, metas: seq<MetaRow>, t: FeedTable, status: Status)
    requires ListsFeeds(feeds, t)
    ensures (exists j :: j in Join(storageSymbol, feeds, metas) && j.feed == Some(status)) <==> HasFeed(t, storageSymbol, status)
  {
    var own := Filter(feeds, (f: FeedRow) => f.key.symbol == storageSymbol);
    JoinAllIs(own, metas);
    if HasFeed(t, storageSymbol, status) {
      var k :| k in t && k.symbol == storageSymbol && t[k].status == status;
      var f :| f in feeds && f.key == k;
      assert f in own;
      JoinMetasIs(f, metas, 0);
    }
    if exists j :: j in Join(storageSymbol, feeds, metas) && j.feed == Some(status) {
      var j :| j in Join(storageSymbol, feeds, metas) && j.feed == Some(status);
      var f :| f in own && j in JoinMetas(f, metas);
      JoinMetasIs(f, metas, 0);
      assert f in feeds && f.key in t;
    }
  }

  // ... and exactly the last_bar_ts values of the series they cover.
  ghost predicate LastCovered(t: FeedTable, m: map<Key, Meta>, storageSymbol: string, last: int) {
    exists k :: k in m && Covers(t, storageSymbol, k) && m[k].lastBarTs == last
  }

  ghost predicate LastJoined(storageSymbol: string, feeds: seq<FeedRow>, metas: seq<MetaRow>, last: int) {
    exists j :: j in Join(storageSymbol, feeds, metas) && j.lastBarTs == Some(last)
  }

  lemma CoveredIsJoined(storageSymbol: string, feeds: seq<FeedRow>, metas: seq<MetaRow>, t: FeedTable, m: map<Key, Meta>, last: int)
    requires ListsFeeds(feeds, t) && ListsMetas(metas, m)
    requires LastCovered(t, m, storageSymbol, last)
    ensures LastJoined(storageSymbol, feeds, metas, last)
  {
    var own := Filter(feeds, (f: FeedRow) => f.key.symbol == storageSymbol);
    JoinAllIs(own, metas);
    var k :| k in m && Covers(t, storageSymbol, k) && m[k].lastBarTs == last;
    var f :| f in feeds && f.key == FeedKey(k.symbol, k.timeframe);
    var r :| r in metas && r.key == k;
    assert f in own && Serves(r, f.key);
    JoinMetasIs(f, metas, last);
    var j :| j in JoinMetas(f, metas) && j.lastBarTs == Some(last);
    assert j in Join(storageSymbol, feeds, metas);
  }

  lemma JoinedIsCovered(storageSymbol: string, feeds: seq<FeedRow>, metas: seq<MetaRow>, t: FeedTable, m: map<Key, Meta>, last: int)
    requires ListsFeeds(feeds, t) && ListsMetas(metas, m)
    requires LastJoined(storageSymbol, feeds, metas, last)
    ensures LastCovered(t, m, storageSymbol, last)
  {
    var own := Filter(feeds, (f: FeedRow) => f.key.symbol == storageSymbol);
    JoinAllIs(own, metas);
    var j :| j in Join(storageSymbol, feeds, metas) && j.lastBarTs == Some(last);
    var f :| f in own && j in JoinMetas(f, metas);
    JoinMetasIs(f, metas, last);
    var r :| r in metas && Serves(r, f.key) && r.lastBarTs == last;
    assert f in feeds && FeedKey(r.key.symbol, r.key.timeframe) == f.key;
    assert r.key in m && Covers(t, storageSymbol, r.key);
  }

  // Join fan-out is harmless: however many provider rows a feed joins with and in whatever
  // order, the aggregates are the per-feed rule and the maximum over the asset's series.
  lemma JoinComputesRule(storageSymbol: string, feeds: seq<FeedRow>, metas: seq<MetaRow>, t: FeedTable, m: map<Key, Meta>)
    requires ListsFeeds(feeds, t) && ListsMetas(metas, m)
    ensures AggStatus(Join(storageSymbol, feeds, metas)) == StatusRule(t, storageSymbol)
    ensures IsLatest(AggLast(Join(storageSymbol, feeds, metas)), t, m, storageSymbol)
  {
    JoinStatuses(storageSymbol, feeds, metas, t, Active);
    JoinStatuses(storageSymbol, feeds, metas, t, Pending);
    JoinStatuses(storageSymbol, feeds, metas, t, Inactive);
    LatestFromJoin(storageSymbol, feeds, metas, t, m);
  }

  // Said outright: listed active when some feed is active, inactive when there are feeds and
  // all are inactive, pending otherwise.
  lemma ListedStatusMeans(storageSymbol: string, feeds: seq<FeedRow>, metas: seq<MetaRow>, t: FeedTable)
    requires ListsFeeds(feeds, t)
    ensures var listed := AggStatus(Join(storageSymbol, feeds, metas));
            && (listed == Active <==> exists k :: k in t && k.symbol == storageSymbol && t[k].status == Active)
            && (listed == Inactive
                <==> && (exists k :: k in t && k.symbol == storageSymbol)
                     && forall k :: k in t && k.symbol == storageSymbol ==> t[k].status == Inactive)
  {
    JoinStatuses(storageSymbol, feeds, metas, t, Active);
    JoinStatuses(storageSymbol, feeds, metas, t, Pending);
    JoinStatuses(storageSymbol, feeds, metas, t, Inactive);
    StatusCases(t, storageSymbol);
  }

  lemma StatusCases(t: FeedTable, storageSymbol: string)
    ensures !HasFeed(t, storageSymbol, Active) && !HasFeed(t, storageSymbol, Pending) ==>
              forall k :: k in t && k.symbol == storageSymbol ==> t[k].status == Inactive
  {
    forall k | k in t && k.symbol == storageSymbol && !HasFeed(t, storageSymbol, t[k].status) ensures false {}
  }

  lemma LatestFromJoin(storageSymbol: string, feeds: seq<FeedRow>, metas: seq<MetaRow>, t: FeedTable, m: map<Key, Meta>)
    requires ListsFeeds(feeds, t) && ListsMetas(metas, m)
    ensures IsLatest(AggLast(Join(storageSymbol, feeds, metas)), t, m, storageSymbol)
  {
    var rows := Join(storageSymbol, feeds, metas);
    var last := AggLast(rows);
    MaxLastIs(rows);
    if MaxLast(rows).Some? {
      assert LastJoined(storageSymbol, feeds, metas, last);
      JoinedIsCovered(storageSymbol, feeds, metas, t, m, last);
    }
    forall k | k in m && Covers(t, storageSymbol, k) ensures MaxLast(rows).Some? && m[k].lastBarTs <= last {
      assert LastCovered(t, m, storageSymbol, m[k].lastBarTs);
      CoveredIsJoined(storageSymbol, feeds, metas, t, m, m[k].lastBarTs);
    }
  }

  // ---------------------------------------------------------------- the answer to a creation

  // A series of the asset's symbol at a timeframe it has a feed for once created.
  ghost predicate CoveredAfter(t: FeedTable, storageSymbol: string, timeframes: seq<string>, k: Key) {
    k.symbol == storageSymbol && (k.timeframe in timeframes || FeedKey(k.symbol, k.timeframe) in t)
  }

  // A freshly created asset is answered as pending and without bars, and no table is
  // consulted. Pending is its listed status exactly when no feed of its storage symbol is
  // already active and some requested timeframe is new, or some feed of it is pending anyway;
  // 0 is its listed last_bar_ts exactly when no series of it is stored yet, or 0 is the
  // newest timestamp of those that are.
  lemma CreationAnswerExact(t: FeedTable, m: map<Key, Meta>, storageSymbol: string, timeframes: seq<string>, tvSymbol: string,
                            now: int)
    requires timeframes != []
    ensures var t' := CreateFeeds(t, storageSymbol, timeframes, tvSymbol, now);
            && (StatusRule(t', storageSymbol) == Pending
                <==> !HasFeed(t, storageSymbol, Active)
                     && (HasFeed(t, storageSymbol, Pending) || exists tf :: tf in timeframes && FeedKey(storageSymbol, tf) !in t))
            && (IsLatest(0, t', m, storageSymbol)
                <==> || (forall k :: k in m ==> !CoveredAfter(t, storageSymbol, timeframes, k))
                     || (&& (exists k :: k in m && CoveredAfter(t, storageSymbol, timeframes, k) && m[k].lastBarTs == 0)
                         && (forall k :: k in m && CoveredAfter(t, storageSymbol, timeframes, k) ==> m[k].lastBarTs <= 0)))
  {
    CreationStatus(t, storageSymbol, timeframes, tvSymbol, now);
    CreationCovers(t, storageSymbol, timeframes, tvSymbol, now);
  }

  lemma CreationCovers(t: FeedTable, storageSymbol: string, timeframes: seq<string>, tvSymbol: string, now: int)
    ensures var t' := CreateFeeds(t, storageSymbol, timeframes, tvSymbol, now);
            forall k :: Covers(t', storageSymbol, k) <==> CoveredAfter(t, storageSymbol, timeframes, k)
  {
    CreateFeedsIs(t, storageSymbol, timeframes, tvSymbol, now);
  }

  lemma CreationStatus(t: FeedTable, storageSymbol: string, timeframes: seq<string>, tvSymbol: string, now: int)
    requires timeframes != []
    ensures var t' := CreateFeeds(t, storageSymbol, timeframes, tvSymbol, now);
            StatusRule(t', storageSymbol) == Pending
            <==> !HasFeed(t, storageSymbol, Active)
                 && (HasFeed(t, storageSymbol, Pending) || exists tf :: tf in timeframes && FeedKey(storageSymbol, tf) !in t)
  {
    var t' := CreateFeeds(t, storageSymbol, timeframes, tvSymbol, now);
    CreateFeedsIs(t, storageSymbol, timeframes, tvSymbol, now);
    forall k | k in t ensures k in t' && t'[k] == t[k] {}
    assert timeframes[0] in timeframes;
    assert FeedKey(storageSymbol, timeframes[0]) in t';
  }

  // It can be wrong in both: an asset over a symbol whose feed is active and has bars.
  const ACTIVE_FEED: FeedTable := map[FeedKey("S", "1") := FeedRec("TV:S", Active, 0)]
  const STORED_SERIES := map[Key("S", "1", TRADINGVIEW) := Meta(60, 1, 120)]

  lemma CreationAnswerCanBeWrong()
    ensures var t' := CreateFeeds(ACTIVE_FEED, "S", ["1"], "TV:S", 120);
            && StatusRule(t', "S") == Active
            && IsLatest(60, t', STORED_SERIES, "S") && !IsLatest(0, t', STORED_SERIES, "S")
  {
    var fk, k := FeedKey("S", "1"), Key("S", "1", TRADINGVIEW);
    CreateFeedsIs(ACTIVE_FEED, "S", ["1"], "TV:S", 120);
    var t' := CreateFeeds(ACTIVE_FEED, "S", ["1"], "TV:S", 120);
    assert fk in t' && t'[fk].status == Active;
    assert k in STORED_SERIES && Covers(t', "S", k);
  }

  // ---------------------------------------------------------------- the listing

  datatype Listed = Listed(asset: AssetRow, status: Status, lastBarTs: int)

  function Describe(a: AssetRow, feeds: seq<FeedRow>, metas: seq<MetaRow>): Listed {
    var rows := Join(a.storageSymbol, feeds, metas);
    Listed(a, AggStatus(rows), AggLast(rows))
  }

  function ListWithStatus(t: AssetTable, feeds: seq<FeedRow>, metas: seq<MetaRow>, f: Filters, cursor: Option<string>,
                          limit: int): (seq<Listed>, Option<string>)
  {
    var page := ListPage(t, f, cursor, limit);
    SelectedIs(t, f, cursor);
    ListPageIs(t, f, cursor, limit);
    assert forall i :: 0 <= i < |page.symbols| ==> page.symbols[i] in Selected(t, f, cursor);
    (seq(|page.symbols|, i requires 0 <= i < |page.symbols| => Describe(t[page.symbols[i]], feeds, metas)), page.next)
  }

  // A listing has one row per selected asset, in symbol order, with the rule's status and the
  // newest last_bar_ts of its series.
  lemma ListingIs(t: AssetTable, feeds: seq<FeedRow>, metas: seq<MetaRow>, f: Filters, cursor: Option<string>, limit: int,
                  ft: FeedTable, m: map<Key, Meta>)
    requires ListsFeeds(feeds, ft) && ListsMetas(metas, m)
    ensures var (rows, next) := ListWithStatus(t, feeds, metas, f, cursor, limit);
            var page := ListPage(t, f, cursor, limit);
            && next == page.next && |rows| == |page.symbols|
            && forall i :: 0 <= i < |rows| ==>
                 && page.symbols[i] in t && rows[i].asset == t[page.symbols[i]]
                 && rows[i].status == StatusRule(ft, rows[i].asset.storageSymbol)
                 && IsLatest(rows[i].lastBarTs, ft, m, rows[i].asset.storageSymbol)
  {
    var page := ListPage(t, f, cursor, limit);
    SelectedIs(t, f, cursor);
    ListPageIs(t, f, cursor, limit);
    forall i | 0 <= i < |page.symbols|
      ensures page.symbols[i] in t
      ensures var row := Describe(t[page.symbols[i]], feeds, metas);
              && row.status == StatusRule(ft, row.asset.storageSymbol)
              && IsLatest(row.lastBarTs, ft, m, row.asset.storageSymbol)
    {
      assert page.symbols[i] in Selected(t, f, cursor);
      JoinComputesRule(t[page.symbols[i]].storageSymbol, feeds, metas, ft, m);
    }
  }

  // End to end: after any interleaving of the writer and its clients from empty tables, an
  // asset listed as active reports a last_bar_ts under which a bar really is stored.
  lemma ActiveListingIsBacked(primary: Fetching.Feed, actions: seq<Action>, storageSymbol: string, feeds: seq<FeedRow>, metas: seq<MetaRow>)
    returns (k: Key)
    requires AllEnabled(Start(primary), actions)
    requires ListsFeeds(feeds, DoAll(Start(primary), actions).feeds)
    requires ListsMetas(metas, DoAll(Start(primary), actions).store.meta)
    requires AggStatus(Join(storageSymbol, feeds, metas)) == Active
    ensures k.symbol == storageSymbol
    ensures AggLast(Join(storageSymbol, feeds, metas)) in At(DoAll(Start(primary), actions).store, k).bars
  {
    SystemIsSafe(Start(primary), actions);
    var s := DoAll(Start(primary), actions);
    k := NewestSeries(s, storageSymbol, feeds, metas);
    AtInvOf(s.store, k);
  }

  lemma NewestSeries(s: Sys, storageSymbol: string, feeds: seq<FeedRow>, metas: seq<MetaRow>) returns (k: Key)
    requires ActiveHasBars(s.feeds, s.store)
    requires ListsFeeds(feeds, s.feeds) && ListsMetas(metas, s.store.meta)
    requires AggStatus(Join(storageSymbol, feeds, metas)) == Active
    ensures k.symbol == storageSymbol && k in s.store.meta
    ensures s.store.meta[k].lastBarTs == AggLast(Join(storageSymbol, feeds, metas))
  {
    JoinComputesRule(storageSymbol, feeds, metas, s.feeds, s.store.meta);
    var fk :| fk in s.feeds && fk.symbol == storageSymbol && s.feeds[fk].status == Active;
    assert HasMeta(s.store, fk);
    var p :| Key(fk.symbol, fk.timeframe, p) in s.store.meta;
    assert Covers(s.feeds, storageSymbol, Key(fk.symbol, fk.timeframe, p));
    k :| k in s.store.meta && Covers(s.feeds, storageSymbol, k)
         && s.store.meta[k].lastBarTs == AggLast(Join(storageSymbol, feeds, metas));
  }
}
