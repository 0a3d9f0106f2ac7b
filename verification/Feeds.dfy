// The feeds table: which (storage symbol, timeframe) pairs the writer polls, and the
// pending/active/inactive life of each.

module Feeds {
  import opened CacheStore
  import Fetching
  import Symbols

  datatype Status = Active | Pending | Inactive

  datatype FeedKey = FeedKey(symbol: string, timeframe: string)

  datatype FeedRec = FeedRec(tvSymbol: string, status: Status, updatedAt: int)

  type FeedTable = map<FeedKey, FeedRec>

  datatype FeedRow = FeedRow(key: FeedKey, tvSymbol: string, status: Status)

  function KeyOf(feed: Fetching.Feed): FeedKey { FeedKey(feed.symbol, feed.timeframe) }

  // Some provider has a meta row for the pair.
  ghost predicate HasMeta(s: Store, k: FeedKey) {
    exists p :: Key(k.symbol, k.timeframe, p) in s.meta
  }

  predicate HasMetaRow(s: Store, k: FeedKey)
    ensures HasMetaRow(s, k) <==> HasMeta(s, k)
  {
    exists key :: key in s.meta && key.symbol == k.symbol && key.timeframe == k.timeframe
  }

  // INSERT ... ON CONFLICT DO NOTHING.
  function InsertNew(t: FeedTable, k: FeedKey, rec: FeedRec): FeedTable {
    if k in t then t else t[k := rec]
  }

  // One env feed: active if the pair already has stored bars, else pending.
  function SeedOne(t: FeedTable, s: Store, feed: Fetching.Feed, now: int): FeedTable {
    InsertNew(t, KeyOf(feed), FeedRec(feed.tvSymbol, if HasMetaRow(s, KeyOf(feed)) then Active else Pending, now))
  }

  function SeedAll(t: FeedTable, s: Store, feeds: seq<Fetching.Feed>, now: int): FeedTable {
    if feeds == [] then t
    else SeedOne(SeedAll(t, s, feeds[..|feeds| - 1], now), s, feeds[|feeds| - 1], now)
  }

  // Feeds of a new asset, all pending.
  function CreateFeeds(t: FeedTable, storageSymbol: string, timeframes: seq<string>, tvSymbol: string, now: int): FeedTable {
    if timeframes == [] then t
    else
      InsertNew(CreateFeeds(t, storageSymbol, timeframes[..|timeframes| - 1], tvSymbol, now),
                FeedKey(storageSymbol, timeframes[|timeframes| - 1]), FeedRec(tvSymbol, Pending, now))
  }

  // A conflict refreshes the chart symbol and keeps the status.
  function UpsertPending(t: FeedTable, k: FeedKey, tvSymbol: string, now: int): FeedTable {
    if k in t then t[k := FeedRec(tvSymbol, t[k].status, now)] else t[k := FeedRec(tvSymbol, Pending, now)]
  }

  function MarkActive(t: FeedTable, k: FeedKey, now: int): FeedTable {
    if k in t && t[k].status == Pending then t[k := t[k].(status := Active, updatedAt := now)] else t
  }

  // ORDER BY storage_symbol, timeframe.
  predicate KeyBelow(a: FeedKey, b: FeedKey) {
    Symbols.Below(a.symbol, b.symbol) || (a.symbol == b.symbol && Symbols.Below(a.timeframe, b.timeframe))
  }

  lemma KeyBelowOrders(a: FeedKey, b: FeedKey, c: FeedKey)
    ensures !KeyBelow(a, a)
    ensures KeyBelow(a, b) && KeyBelow(b, c) ==> KeyBelow(a, c)
    ensures a == b || KeyBelow(a, b) || KeyBelow(b, a)
  {
    Symbols.BelowIrreflexive(a.symbol);
    Symbols.BelowIrreflexive(a.timeframe);
    if Symbols.Below(a.symbol, b.symbol) && Symbols.Below(b.symbol, c.symbol) {
      Symbols.BelowTransitive(a.symbol, b.symbol, c.symbol);
    }
    if Symbols.Below(a.timeframe, b.timeframe) && Symbols.Below(b.timeframe, c.timeframe) {
      Symbols.BelowTransitive(a.timeframe, b.timeframe, c.timeframe);
    }
    Symbols.BelowTotal(a.symbol, b.symbol);
    Symbols.BelowTotal(a.timeframe, b.timeframe);
  }

  predicate IsGreatestKey(s: set<FeedKey>, m: FeedKey) {
    m in s && forall k :: k in s && k != m ==> KeyBelow(k, m)
  }

  lemma {:induction false} GreatestKeyExists(s: set<FeedKey>)
    requires s != {}
    ensures exists m :: IsGreatestKey(s, m)
  {
    assert (forall k :: k !in s) ==> s == {};
    var x :| x in s;
    var rest := s - {x};
    assert s == rest + {x};
    if rest == {} {
      assert IsGreatestKey(s, x);
    } else {
      GreatestKeyExists(rest);
      var m :| IsGreatestKey(rest, m);
      KeyBelowOrders(x, m, m);
      forall k | k in rest && KeyBelow(m, x) ensures KeyBelow(k, x) { KeyBelowOrders(k, m, x); }
      assert IsGreatestKey(s, if KeyBelow(x, m) then m else x);
    }
  }

  lemma GreatestKeyUnique(s: set<FeedKey>, m: FeedKey, m': FeedKey)
    requires IsGreatestKey(s, m) && IsGreatestKey(s, m')
    ensures m == m'
  {
    KeyBelowOrders(m, m', m);
  }

  function GreatestKey(s: set<FeedKey>): (m: FeedKey)
    requires s != {}
    ensures IsGreatestKey(s, m)
  {
    GreatestKeyExists(s);
    assert forall m, m' :: IsGreatestKey(s, m) && IsGreatestKey(s, m') ==> m == m' by {
      forall m, m' | IsGreatestKey(s, m) && IsGreatestKey(s, m') ensures m == m' { GreatestKeyUnique(s, m, m'); }
    }
    var m :| m in s && IsGreatestKey(s, m);
    m
  }

  ghost predicate KeysAscend(rows: seq<FeedRow>) {
    forall i, j :: 0 <= i < j < |rows| ==> KeyBelow(rows[i].key, rows[j].key)
  }

  // rows lists each active or pending feed once, by symbol and timeframe.
  ghost predicate AreTargets(t: FeedTable, rows: seq<FeedRow>) {
    && KeysAscend(rows)
    && (forall r :: r in rows ==> r.key in t && r.status != Inactive && t[r.key].status == r.status && t[r.key].tvSymbol == r.tvSymbol)
    && (forall k :: k in t && t[k].status != Inactive ==> exists r :: r in rows && r.key == k)
  }

  lemma LastKeyGreatest(rows: seq<FeedRow>)
    requires KeysAscend(rows) && rows != []
    ensures forall r :: r in rows ==> r == rows[|rows| - 1] || KeyBelow(r.key, rows[|rows| - 1].key)
  {
  }

  lemma WithoutLast(xs: seq<FeedRow>, ys: seq<FeedRow>, last: FeedRow)
    requires KeysAscend(xs + [last]) && KeysAscend(ys + [last])
    requires forall r :: r in xs + [last] <==> r in ys + [last]
    ensures KeysAscend(xs) && KeysAscend(ys) && forall r :: r in xs <==> r in ys
  {
    NotAgain(xs, last);
    NotAgain(ys, last);
    assert forall i :: 0 <= i < |xs| ==> (xs + [last])[i] == xs[i];
    assert forall i :: 0 <= i < |ys| ==> (ys + [last])[i] == ys[i];
    forall r ensures r in xs <==> r in ys {
      assert r in xs <==> r in xs + [last] && r != last;
      assert r in ys <==> r in ys + [last] && r != last;
    }
  }

  lemma NotAgain(rows: seq<FeedRow>, last: FeedRow)
    requires KeysAscend(rows + [last])
    ensures last !in rows
  {
    if last in rows {
      var i :| 0 <= i < |rows| && rows[i] == last;
      assert KeyBelow((rows + [last])[i].key, (rows + [last])[|rows|].key);
      KeyBelowOrders(last.key, last.key, last.key);
    }
  }

  lemma {:induction false} AscendingRowsDetermined(xs: seq<FeedRow>, ys: seq<FeedRow>)
    requires KeysAscend(xs) && KeysAscend(ys) && forall r :: r in xs <==> r in ys
    ensures xs == ys
  {
    assert xs != [] ==> xs[0] in ys;
    assert ys != [] ==> ys[0] in xs;
    if xs != [] {
      var x, y := xs[|xs| - 1], ys[|ys| - 1];
      LastKeyGreatest(xs);
      LastKeyGreatest(ys);
      assert x in ys && y in xs;
      KeyBelowOrders(x.key, y.key, x.key);
      assert xs == xs[..|xs| - 1] + [x] && ys == ys[..|ys| - 1] + [x];
      WithoutLast(xs[..|xs| - 1], ys[..|ys| - 1], x);
      AscendingRowsDetermined(xs[..|xs| - 1], ys[..|ys| - 1]);
    }
  }

  // The targets are a function of the table: the order of chart switches is the same in
  // every cycle that finds the same feeds.
  lemma TargetsDetermined(t: FeedTable, rows: seq<FeedRow>, rows': seq<FeedRow>)
    requires AreTargets(t, rows) && AreTargets(t, rows')
    ensures rows == rows'
  {
    forall r ensures r in rows <==> r in rows' {
      TargetIn(t, rows, rows', r);
      TargetIn(t, rows', rows, r);
    }
    AscendingRowsDetermined(rows, rows');
  }

  lemma TargetIn(t: FeedTable, rows: seq<FeedRow>, rows': seq<FeedRow>, r: FeedRow)
    requires AreTargets(t, rows) && AreTargets(t, rows')
    ensures r in rows ==> r in rows'
  {
    if r in rows {
      var r' :| r' in rows' && r'.key == r.key;
      assert r' == r;
    }
  }

  // ---------------------------------------------------------------- how the table evolves

  // No key disappears and the only change of status is pending to active.
  ghost predicate Evolves(t: FeedTable, t': FeedTable) {
    forall k :: k in t ==>
      k in t' && (t'[k].status == t[k].status || (t[k].status == Pending && t'[k].status == Active))
  }

  // Every active feed has a stored bar under some provider.
  ghost predicate ActiveHasBars(t: FeedTable, s: Store) {
    forall k :: k in t && t[k].status == Active ==> HasMeta(s, k)
  }

  // Seeding leaves every existing row as it is; a new row is one of the env feeds, active
  // exactly when the pair has stored bars, else pending.
  ghost predicate SeededFrom(t: FeedTable, t': FeedTable, s: Store, feeds: seq<Fetching.Feed>, now: int) {
    && (forall k :: k in t' <==> k in t || exists f :: f in feeds && KeyOf(f) == k)
    && (forall k :: k in t ==> t'[k] == t[k])
    && (forall k :: k in t' && k !in t ==>
          && (exists f :: f in feeds && KeyOf(f) == k && f.tvSymbol == t'[k].tvSymbol)
          && t'[k].status == (if HasMetaRow(s, k) then Active else Pending)
          && t'[k].updatedAt == now)
  }

  lemma {:induction false} SeedAllIs(t: FeedTable, s: Store, feeds: seq<Fetching.Feed>, now: int)
    ensures SeededFrom(t, SeedAll(t, s, feeds, now), s, feeds, now)
  {
    if feeds != [] {
      var init, last := feeds[..|feeds| - 1], feeds[|feeds| - 1];
      SeedAllIs(t, s, init, now);
      assert feeds == init + [last];
      SeedOneMore(t, SeedAll(t, s, init, now), s, init, last, now);
    }
  }

  lemma SeedOneMore(t: FeedTable, mid: FeedTable, s: Store, feeds: seq<Fetching.Feed>, last: Fetching.Feed, now: int)
    requires SeededFrom(t, mid, s, feeds, now)
    ensures SeededFrom(t, SeedOne(mid, s, last, now), s, feeds + [last], now)
  {
    assert forall f :: f in feeds + [last] <==> f in feeds || f == last;
  }

  lemma {:induction false} SeedAllSafe(t: FeedTable, s: Store, feeds: seq<Fetching.Feed>, now: int)
    requires ActiveHasBars(t, s)
    ensures Evolves(t, SeedAll(t, s, feeds, now))
    ensures ActiveHasBars(SeedAll(t, s, feeds, now), s)
  {
    if feeds != [] {
      SeedAllSafe(t, s, feeds[..|feeds| - 1], now);
    }
  }

  lemma {:induction false} CreateFeedsSafe(t: FeedTable, s: Store, storageSymbol: string, timeframes: seq<string>,
                                           tvSymbol: string, now: int)
    requires ActiveHasBars(t, s)
    ensures Evolves(t, CreateFeeds(t, storageSymbol, timeframes, tvSymbol, now))
    ensures ActiveHasBars(CreateFeeds(t, storageSymbol, timeframes, tvSymbol, now), s)
  {
    if timeframes != [] {
      CreateFeedsSafe(t, s, storageSymbol, timeframes[..|timeframes| - 1], tvSymbol, now);
    }
  }

  // Registering the feeds of a new asset leaves every existing row as it is; each new row is
  // pending.
  lemma {:induction false} CreateFeedsIs(t: FeedTable, storageSymbol: string, timeframes: seq<string>, tvSymbol: string, now: int)
    ensures var t' := CreateFeeds(t, storageSymbol, timeframes, tvSymbol, now);
            && (forall k :: k in t' <==> k in t || (k.symbol == storageSymbol && k.timeframe in timeframes))
            && (forall k :: k in t' ==> t'[k] == if k in t then t[k] else FeedRec(tvSymbol, Pending, now))
  {
    if timeframes != [] {
      CreateFeedsIs(t, storageSymbol, timeframes[..|timeframes| - 1], tvSymbol, now);
    }
  }

  // ---------------------------------------------------------------- the repository object

  class FeedsRepo {
    var feeds: FeedTable

    constructor ()
      ensures feeds == map[]
    {
      feeds := map[];
    }

    // Returns how many rows were new.
    method SeedFromEnv(env: seq<Fetching.Feed>, s: Store, now: int) returns (written: nat)
      modifies this
      ensures feeds == SeedAll(old(feeds), s, env, now)
      ensures written == |feeds| - |old(feeds)|
    {
      written := 0;
      var i := 0;
      while i < |env|
        invariant 0 <= i <= |env|
        invariant feeds == SeedAll(old(feeds), s, env[..i], now)
        invariant written == |feeds| - |old(feeds)|
      {
        assert env[..i + 1][..i] == env[..i];
        var k := KeyOf(env[i]);
        if k !in feeds {
          feeds := feeds[k := FeedRec(env[i].tvSymbol, if HasMetaRow(s, k) then Active else Pending, now)];
          written := written + 1;
        }
        i := i + 1;
      }
      assert env[..i] == env;
    }

    method Upsert(k: FeedKey, tvSymbol: string, now: int)
      modifies this
      ensures feeds.Keys == old(feeds).Keys + {k}
      ensures feeds[k].status == if k in old(feeds) then old(feeds)[k].status else Pending
      ensures feeds[k].tvSymbol == tvSymbol && feeds[k].updatedAt == now
      ensures forall k' :: k' in old(feeds) && k' != k ==> feeds[k'] == old(feeds)[k']
      ensures feeds == UpsertPending(old(feeds), k, tvSymbol, now)
    {
      if k in feeds {
        feeds := feeds[k := feeds[k].(tvSymbol := tvSymbol, updatedAt := now)];
      } else {
        feeds := feeds[k := FeedRec(tvSymbol, Pending, now)];
      }
    }

    method MarkFeedActive(k: FeedKey, now: int)
      modifies this
      ensures feeds.Keys == old(feeds).Keys
      ensures k in feeds && old(feeds)[k].status == Pending ==>
                feeds[k] == FeedRec(old(feeds)[k].tvSymbol, Active, now)
      ensures forall k' :: k' in feeds && (k' != k || old(feeds)[k'].status != Pending) ==> feeds[k'] == old(feeds)[k']
      ensures feeds == MarkActive(old(feeds), k, now)
    {
      if k in feeds && feeds[k].status == Pending {
        feeds := feeds[k := feeds[k].(status := Active, updatedAt := now)];
      }
    }

    method AddFeeds(storageSymbol: string, timeframes: seq<string>, tvSymbol: string, now: int)
      modifies this
      ensures feeds == CreateFeeds(old(feeds), storageSymbol, timeframes, tvSymbol, now)
    {
      var i := 0;
      while i < |timeframes|
        invariant 0 <= i <= |timeframes|
        invariant feeds == CreateFeeds(old(feeds), storageSymbol, timeframes[..i], tvSymbol, now)
      {
        assert timeframes[..i + 1][..i] == timeframes[..i];
        feeds := InsertNew(feeds, FeedKey(storageSymbol, timeframes[i]), FeedRec(tvSymbol, Pending, now));
        i := i + 1;
      }
      assert timeframes[..i] == timeframes;
    }

    method PollingTargets() returns (rows: seq<FeedRow>)
      ensures AreTargets(feeds, rows)
      ensures forall i, j :: 0 <= i < j < |rows| ==>
                || Symbols.Below(rows[i].key.symbol, rows[j].key.symbol)
                || (rows[i].key.symbol == rows[j].key.symbol && Symbols.Below(rows[i].key.timeframe, rows[j].key.timeframe))
    {
      rows := [];
      var left := feeds.Keys;
      while left != {}
        invariant left <= feeds.Keys
        invariant KeysAscend(rows)
        invariant forall k, r :: k in left && r in rows ==> KeyBelow(k, r.key)
        invariant forall r :: r in rows ==> r.key in feeds && r.key !in left && r.status != Inactive
        invariant forall r :: r in rows ==> feeds[r.key].status == r.status && feeds[r.key].tvSymbol == r.tvSymbol
        invariant forall k :: k in feeds && k !in left && feeds[k].status != Inactive ==> exists r :: r in rows && r.key == k
        decreases left
      {
        var k := GreatestKey(left);
        left := left - {k};
        if feeds[k].status != Inactive {
          var row := FeedRow(k, feeds[k].tvSymbol, feeds[k].status);
          assert row in [row] + rows;
          rows := [row] + rows;
        }
      }
    }
  }
}
