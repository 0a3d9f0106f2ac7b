// The asset catalog: its keyset-paged listing and the tables that feed it.

module Catalog {
  import opened Rows
  import opened Symbols
  import Timeframes
  import Feeds

  datatype AssetRow = AssetRow(symbol: string, storageSymbol: string, name: string, exchange: string, currency: string,
                               assetClass: string, assetSubclass: Option<string>, isin: Option<string>,
                               country: Option<string>, addedAt: int)

  // Keyed by symbol; each row carries its key.
  type AssetTable = t: map<string, AssetRow> | forall k :: k in t ==> t[k].symbol == k witness map[]

  // A filter that is absent or empty does not restrict. The text match is the database's.
  datatype Filters = Filters(exchange: Option<string>, assetClass: Option<string>, query: Option<string>,
                             like: (string, AssetRow) -> bool)

  predicate Given(o: Option<string>) { o.Some? && o.value != "" }

  predicate Matches(f: Filters, a: AssetRow) {
    && (Given(f.exchange) ==> a.exchange == f.exchange.value)
    && (Given(f.assetClass) ==> a.assetClass == f.assetClass.value)
    && (Given(f.query) ==> f.like(f.query.value, a))
  }

  predicate After(cursor: Option<string>, symbol: string) {
    Given(cursor) ==> Below(cursor.value, symbol)
  }

  const MAX_PAGE := 500

  function ClampLimit(limit: int): nat { Max(1, Min(limit, MAX_PAGE)) }

  // Symbols the query selects, in order.
  function Selected(t: AssetTable, f: Filters, cursor: Option<string>): seq<string> {
    Filter(SortedSymbols(t.Keys), (s: string) => s in t && Matches(f, t[s]) && After(cursor, s))
  }

  datatype Page = Page(symbols: seq<string>, next: Option<string>)

  // One row beyond the limit is read to learn whether another page follows.
  function ListPage(t: AssetTable, f: Filters, cursor: Option<string>, limit: int): Page {
    var n := ClampLimit(limit);
    var found := Selected(t, f, cursor);
    var window := found[..Min(n + 1, |found|)];
    if |window| > n then Page(window[..n], Some(window[n - 1])) else Page(window, None)
  }

  // ---------------------------------------------------------------- one page

  lemma {:induction false} FilterSymbols(xs: seq<string>, p: string -> bool)
    requires AscendingSymbols(xs)
    ensures AscendingSymbols(Filter(xs, p))
  {
    if xs != [] {
      var init, last := xs[..|xs| - 1], xs[|xs| - 1];
      FilterSymbols(init, p);
      assert forall x :: x in init ==> Below(x, last);
    }
  }

  lemma SelectedIs(t: AssetTable, f: Filters, cursor: Option<string>)
    ensures AscendingSymbols(Selected(t, f, cursor))
    ensures forall s :: s in Selected(t, f, cursor) <==> s in t && Matches(f, t[s]) && After(cursor, s)
  {
    FilterSymbols(SortedSymbols(t.Keys), (s: string) => s in t && Matches(f, t[s]) && After(cursor, s));
  }

  // Said outright: an asset is selected when it has the exchange and the class asked for, fits
  // the query, and sorts after the cursor, each as far as it is given and not empty.
  lemma SelectedMeans(t: AssetTable, f: Filters, cursor: Option<string>, s: string)
    ensures s in Selected(t, f, cursor)
            <==> && s in t
                 && (f.exchange.Some? && f.exchange.value != "" ==> t[s].exchange == f.exchange.value)
                 && (f.assetClass.Some? && f.assetClass.value != "" ==> t[s].assetClass == f.assetClass.value)
                 && (f.query.Some? && f.query.value != "" ==> f.like(f.query.value, t[s]))
                 && (cursor.Some? && cursor.value != "" ==> Below(cursor.value, s))
  {
    SelectedIs(t, f, cursor);
  }

  lemma TakeTwice(xs: seq<string>, n: nat)
    requires n < |xs|
    ensures xs[..n + 1][..n] == xs[..n]
  {
  }

  // A page is the first `limit` selected symbols, and has a successor iff more were selected.
  lemma ListPageIs(t: AssetTable, f: Filters, cursor: Option<string>, limit: int)
    ensures var found := Selected(t, f, cursor);
            var n := ClampLimit(limit);
            ListPage(t, f, cursor, limit) ==
              if |found| > n then Page(found[..n], Some(found[n - 1])) else Page(found, None)
  {
    var found := Selected(t, f, cursor);
    if |found| > ClampLimit(limit) {
      TakeTwice(found, ClampLimit(limit));
    } else {
      assert found[..|found|] == found;
    }
  }

  // A limit below 1 is 1, one above 500 is 500.
  lemma PageSize(t: AssetTable, f: Filters, cursor: Option<string>, limit: int)
    ensures var n := if limit < 1 then 1 else if limit > 500 then 500 else limit;
            |ListPage(t, f, cursor, limit).symbols| == Min(n, |Selected(t, f, cursor)|)
  {
    ListPageIs(t, f, cursor, limit);
  }

  // ---------------------------------------------------------------- paging a fixed catalog

  // Listing from a selected symbol on continues exactly behind it.
  lemma SelectedBeyond(t: AssetTable, f: Filters, cursor: Option<string>, i: int)
    requires 0 <= i < |Selected(t, f, cursor)| && Selected(t, f, cursor)[i] != ""
    ensures Selected(t, f, Some(Selected(t, f, cursor)[i])) == Selected(t, f, cursor)[i + 1..]
  {
    var found := Selected(t, f, cursor);
    var at := found[i];
    SelectedIs(t, f, cursor);
    SelectedIs(t, f, Some(at));
    assert at in found;
    forall s ensures s in Selected(t, f, Some(at)) <==> s in found[i + 1..] {
      if s in found[i + 1..] {
        var j :| i + 1 <= j < |found| && found[j] == s;
        assert s in found;
      }
      if s in Selected(t, f, Some(at)) {
        if Given(cursor) { BelowTransitive(cursor.value, at, s); }
        NotBeyond(found, i, s);
      }
    }
    SymbolsDetermined(Selected(t, f, Some(at)), found[i + 1..]);
  }

  lemma NotBeyond(xs: seq<string>, i: int, s: string)
    requires AscendingSymbols(xs) && 0 <= i < |xs| && s in xs && Below(xs[i], s)
    ensures s in xs[i + 1..]
  {
    var j :| 0 <= j < |xs| && xs[j] == s;
    BelowIrreflexive(s);
    if j < i { BelowTransitive(s, xs[i], s); }
    assert xs[i + 1..][j - i - 1] == s;
  }

  // The page ends at an asset whose symbol is empty, with more to come.
  predicate EndsAtEmpty(t: AssetTable, f: Filters, cursor: Option<string>, limit: int) {
    "" in t && Matches(f, t[""]) && !Given(cursor) && ClampLimit(limit) == 1 && |Selected(t, f, cursor)| > 1
  }

  // An empty symbol sorts first, so it is handed out as a cursor, which reads as "from the
  // start", exactly by a first page of one row that is not the last page.
  lemma EmptyCursorIff(t: AssetTable, f: Filters, cursor: Option<string>, limit: int)
    ensures ListPage(t, f, cursor, limit).next == Some("") <==> EndsAtEmpty(t, f, cursor, limit)
  {
    var found := Selected(t, f, cursor);
    var n := ClampLimit(limit);
    ListPageIs(t, f, cursor, limit);
    SelectedIs(t, f, cursor);
    if |found| > n {
      assert found[n - 1] in found;
      if EndsAtEmpty(t, f, cursor, limit) {
        EmptyIsFirst(found);
      }
      if n > 1 { OnlyFirstEmpty(found, n - 1); }
    }
  }

  lemma EmptyIsFirst(xs: seq<string>)
    requires AscendingSymbols(xs) && "" in xs
    ensures xs[0] == ""
  {
    var i :| 0 <= i < |xs| && xs[i] == "";
    assert i > 0 ==> Below(xs[0], xs[i]);
  }

  lemma OnlyFirstEmpty(xs: seq<string>, i: int)
    requires AscendingSymbols(xs) && 0 < i < |xs|
    ensures xs[i] != ""
  {
    assert Below(xs[0], xs[i]);
  }

  lemma NextIsGiven(t: AssetTable, f: Filters, cursor: Option<string>, limit: int)
    requires !EndsAtEmpty(t, f, cursor, limit) && |Selected(t, f, cursor)| > ClampLimit(limit)
    ensures var next := ListPage(t, f, cursor, limit).next;
            && next == Some(Selected(t, f, cursor)[ClampLimit(limit) - 1]) && next.value != ""
            && !EndsAtEmpty(t, f, next, limit)
  {
    ListPageIs(t, f, cursor, limit);
    EmptyCursorIff(t, f, cursor, limit);
  }

  // Following next_cursor over a fixed catalog.
  function Follow(t: AssetTable, f: Filters, cursor: Option<string>, limit: int): seq<seq<string>>
    requires !EndsAtEmpty(t, f, cursor, limit)
    decreases |Selected(t, f, cursor)|
  {
    var page := ListPage(t, f, cursor, limit);
    if page.next.None? then [page.symbols]
    else
      NextIsGiven(t, f, cursor, limit);
      SelectedBeyond(t, f, cursor, ClampLimit(limit) - 1);
      [page.symbols] + Follow(t, f, page.next, limit)
  }

  function Concat(pages: seq<seq<string>>): seq<string> {
    if pages == [] then [] else pages[0] + Concat(pages[1..])
  }

  lemma ConcatCons(page: seq<string>, rest: seq<seq<string>>)
    ensures Concat([page] + rest) == page + Concat(rest)
  {
    assert ([page] + rest)[1..] == rest;
  }

  lemma ConcatOne(page: seq<string>)
    ensures Concat([page]) == page
  {
    assert [page][1..] == [];
  }

  lemma LastPage(t: AssetTable, f: Filters, cursor: Option<string>, limit: int)
    requires |Selected(t, f, cursor)| <= ClampLimit(limit)
    ensures Follow(t, f, cursor, limit) == [Selected(t, f, cursor)]
  {
    var found := Selected(t, f, cursor);
    assert found[..|found|] == found;
  }

  lemma MorePages(t: AssetTable, f: Filters, cursor: Option<string>, limit: int)
    requires !EndsAtEmpty(t, f, cursor, limit) && |Selected(t, f, cursor)| > ClampLimit(limit)
    ensures var found := Selected(t, f, cursor);
            var l := ClampLimit(limit);
            && !EndsAtEmpty(t, f, Some(found[l - 1]), limit)
            && Follow(t, f, cursor, limit) == [found[..l]] + Follow(t, f, Some(found[l - 1]), limit)
            && Selected(t, f, Some(found[l - 1])) == found[l..]
  {
    ListPageIs(t, f, cursor, limit);
    NextIsGiven(t, f, cursor, limit);
    SelectedBeyond(t, f, cursor, ClampLimit(limit) - 1);
  }

  // The pages list every matching asset exactly once, in symbol order ...
  lemma {:induction false} FollowListsAll(t: AssetTable, f: Filters, cursor: Option<string>, limit: int)
    requires !EndsAtEmpty(t, f, cursor, limit)
    ensures Concat(Follow(t, f, cursor, limit)) == Selected(t, f, cursor)
    decreases |Selected(t, f, cursor)|
  {
    var found := Selected(t, f, cursor);
    var l := ClampLimit(limit);
    if |found| <= l {
      LastPage(t, f, cursor, limit);
      ConcatOne(found);
    } else {
      MorePages(t, f, cursor, limit);
      FollowListsAll(t, f, Some(found[l - 1]), limit);
      JoinPages(found, l, Follow(t, f, Some(found[l - 1]), limit));
    }
  }

  lemma JoinPages(found: seq<string>, l: nat, rest: seq<seq<string>>)
    requires l <= |found| && Concat(rest) == found[l..]
    ensures Concat([found[..l]] + rest) == found
  {
    ConcatCons(found[..l], rest);
  }

  // The number of pages of l that n rows fill, counting one even for none.
  function PagesFor(n: nat, l: nat): nat
    requires l >= 1
  {
    if n <= l then 1 else 1 + PagesFor(n - l, l)
  }

  lemma {:induction false} PagesForIsCeiling(n: nat, l: nat)
    requires l >= 1
    ensures PagesFor(n, l) == Max(1, (n + l - 1) / l)
  {
    if n == 0 {
      Timeframes.DivModUnique(l - 1, l, 0, l - 1);
    } else if n <= l {
      Timeframes.DivModUnique(n + l - 1, l, 1, n - 1);
    } else {
      PagesForIsCeiling(n - l, l);
      var q, r := (n - 1) / l, (n - 1) % l;
      assert (q + 1) * l == q * l + l;
      Timeframes.DivModUnique(n + l - 1, l, q + 1, r);
      Timeframes.MulOrder(q, 0, l);
    }
  }

  lemma {:induction false} FollowPageCount(t: AssetTable, f: Filters, cursor: Option<string>, limit: int)
    requires !EndsAtEmpty(t, f, cursor, limit)
    ensures |Follow(t, f, cursor, limit)| == PagesFor(|Selected(t, f, cursor)|, ClampLimit(limit))
    decreases |Selected(t, f, cursor)|
  {
    var found := Selected(t, f, cursor);
    var l := ClampLimit(limit);
    if |found| <= l {
      LastPage(t, f, cursor, limit);
    } else {
      MorePages(t, f, cursor, limit);
      FollowPageCount(t, f, Some(found[l - 1]), limit);
      CountPages(found, l, Follow(t, f, Some(found[l - 1]), limit));
    }
  }

  lemma CountPages(found: seq<string>, l: nat, rest: seq<seq<string>>)
    requires 1 <= l < |found| && |rest| == PagesFor(|found[l..]|, l)
    ensures |[found[..l]] + rest| == PagesFor(|found|, l)
  {
  }

  // ... in max(1, ceil(n / limit)) pages.
  lemma FollowTakesCeilingPages(t: AssetTable, f: Filters, limit: int)
    requires !EndsAtEmpty(t, f, None, limit)
    ensures var n, l := |Selected(t, f, None)|, ClampLimit(limit);
            |Follow(t, f, None, limit)| == Max(1, (n + l - 1) / l)
  {
    FollowPageCount(t, f, None, limit);
    PagesForIsCeiling(|Selected(t, f, None)|, ClampLimit(limit));
  }

  // ---------------------------------------------------------------- paging while the catalog changes

  // Page i is read from tables[i], starting at the cursor page i - 1 returned; the client
  // stops at the first page without a successor.
  function Session(tables: seq<AssetTable>, f: Filters, cursor: Option<string>, limit: int): seq<seq<string>> {
    if tables == [] then []
    else
      var page := ListPage(tables[0], f, cursor, limit);
      if page.next.None? then [page.symbols] else [page.symbols] + Session(tables[1..], f, page.next, limit)
  }

  predicate Completes(tables: seq<AssetTable>, f: Filters, cursor: Option<string>, limit: int) {
    tables != [] &&
    (var page := ListPage(tables[0], f, cursor, limit);
     page.next.None? || Completes(tables[1..], f, page.next, limit))
  }

  ghost predicate AllAfter(cursor: Option<string>, xs: seq<string>) {
    forall s :: s in xs ==> After(cursor, s)
  }

  lemma AscendingJoin(xs: seq<string>, ys: seq<string>)
    requires AscendingSymbols(xs) && AscendingSymbols(ys)
    requires forall x, y :: x in xs && y in ys ==> Below(x, y)
    ensures AscendingSymbols(xs + ys)
  {
    forall i, j | 0 <= i < j < |xs + ys| ensures Below((xs + ys)[i], (xs + ys)[j]) {
      if i < |xs| <= j { assert (xs + ys)[i] in xs && (xs + ys)[j] in ys; }
    }
  }

  lemma PageAscends(t: AssetTable, f: Filters, cursor: Option<string>, limit: int)
    ensures AscendingSymbols(ListPage(t, f, cursor, limit).symbols)
    ensures AllAfter(cursor, ListPage(t, f, cursor, limit).symbols)
  {
    ListPageIs(t, f, cursor, limit);
    SelectedIs(t, f, cursor);
    var found := Selected(t, f, cursor);
    assert forall s :: s in ListPage(t, f, cursor, limit).symbols ==> s in found;
  }

  // The rest of a session lies strictly beyond its first page.
  lemma RestBeyond(t: AssetTable, f: Filters, cursor: Option<string>, limit: int, rest: seq<string>)
    requires !EndsAtEmpty(t, f, cursor, limit) && ListPage(t, f, cursor, limit).next.Some?
    requires AllAfter(ListPage(t, f, cursor, limit).next, rest)
    ensures forall x, y :: x in ListPage(t, f, cursor, limit).symbols && y in rest ==> Below(x, y)
    ensures AllAfter(cursor, rest)
  {
    var page := ListPage(t, f, cursor, limit);
    NextIsLast(t, f, cursor, limit);
    forall x, y | x in page.symbols && y in rest ensures Below(x, y) {
      if x != page.next.value { BelowTransitive(x, page.next.value, y); }
    }
    forall y | y in rest ensures After(cursor, y) {
      if Given(cursor) { BelowTransitive(cursor.value, page.next.value, y); }
    }
  }

  // However the catalog changes between pages, the pages together strictly ascend: nothing
  // is listed twice.
  lemma {:induction false} SessionAscends(tables: seq<AssetTable>, f: Filters, cursor: Option<string>, limit: int)
    requires tables != [] ==> !EndsAtEmpty(tables[0], f, cursor, limit)
    ensures AscendingSymbols(Concat(Session(tables, f, cursor, limit)))
    ensures AllAfter(cursor, Concat(Session(tables, f, cursor, limit)))
  {
    if tables != [] {
      var page := ListPage(tables[0], f, cursor, limit);
      PageAscends(tables[0], f, cursor, limit);
      if page.next.None? {
        ConcatOne(page.symbols);
      } else {
        var rest := Session(tables[1..], f, page.next, limit);
        NextIsLast(tables[0], f, cursor, limit);
        SessionAscends(tables[1..], f, page.next, limit);
        ConcatCons(page.symbols, rest);
        RestBeyond(tables[0], f, cursor, limit, Concat(rest));
        AscendingJoin(page.symbols, Concat(rest));
      }
    }
  }

  lemma PrefixBelow(xs: seq<string>, n: nat)
    requires AscendingSymbols(xs) && 1 <= n <= |xs|
    ensures forall x :: x in xs[..n] ==> x == xs[n - 1] || Below(x, xs[n - 1])
    ensures forall x :: x in xs && x !in xs[..n] ==> Below(xs[n - 1], x)
  {
    forall j | 0 <= j < n ensures xs[j] in xs[..n] {
      assert xs[..n][j] == xs[j];
    }
    forall x | x in xs && x !in xs[..n] ensures Below(xs[n - 1], x) {
      var j :| 0 <= j < |xs| && xs[j] == x;
      assert j >= n;
    }
  }

  lemma NextIsLast(t: AssetTable, f: Filters, cursor: Option<string>, limit: int)
    requires !EndsAtEmpty(t, f, cursor, limit) && ListPage(t, f, cursor, limit).next.Some?
    ensures var page := ListPage(t, f, cursor, limit);
            && Given(page.next) && page.next.value in page.symbols && After(cursor, page.next.value)
            && (forall x :: x in page.symbols ==> x == page.next.value || Below(x, page.next.value))
            && (forall s :: s in Selected(t, f, cursor) && s !in page.symbols ==> Below(page.next.value, s))
  {
    var found := Selected(t, f, cursor);
    var n := ClampLimit(limit);
    NextIsAt(t, f, cursor, limit);
    NextIsGiven(t, f, cursor, limit);
    LastOfPrefix(found, n);
    assert found[n - 1] in t && After(cursor, found[n - 1]) by { SelectedIs(t, f, cursor); }
    assert AscendingSymbols(found) by { SelectedIs(t, f, cursor); }
    PrefixBelow(found, n);
  }

  lemma NextIsAt(t: AssetTable, f: Filters, cursor: Option<string>, limit: int)
    requires ListPage(t, f, cursor, limit).next.Some?
    ensures var found := Selected(t, f, cursor);
            var n := ClampLimit(limit);
            |found| > n && ListPage(t, f, cursor, limit) == Page(found[..n], Some(found[n - 1]))
  {
    ListPageIs(t, f, cursor, limit);
  }

  lemma LastOfPrefix(xs: seq<string>, n: nat)
    requires 1 <= n <= |xs|
    ensures xs[n - 1] in xs[..n] && xs[n - 1] in xs
  {
    assert xs[..n][n - 1] == xs[n - 1];
  }

  // And an asset that matches throughout is listed, whatever is added or changed around it.
  lemma {:induction false} SessionMissesNothing(tables: seq<AssetTable>, f: Filters, cursor: Option<string>, limit: int, s: string)
    requires forall t :: t in tables ==> s in t && Matches(f, t[s])
    requires Completes(tables, f, cursor, limit) && After(cursor, s)
    requires !EndsAtEmpty(tables[0], f, cursor, limit)
    ensures s in Concat(Session(tables, f, cursor, limit))
  {
    var page := ListPage(tables[0], f, cursor, limit);
    ListPageIs(tables[0], f, cursor, limit);
    SelectedIs(tables[0], f, cursor);
    assert s in Selected(tables[0], f, cursor);
    if page.next.None? {
      ConcatOne(page.symbols);
    } else {
      var rest := Session(tables[1..], f, page.next, limit);
      ConcatCons(page.symbols, rest);
      if s !in page.symbols {
        NextIsLast(tables[0], f, cursor, limit);
        SessionMissesNothing(tables[1..], f, page.next, limit, s);
      }
    }
  }

  // Once a page ends at an empty symbol, the next request returns the same page, and so on.
  lemma EmptyCursorRepeats(t: AssetTable, f: Filters, cursor: Option<string>, limit: int)
    requires EndsAtEmpty(t, f, cursor, limit)
    ensures var page := ListPage(t, f, cursor, limit);
            page == Page([""], Some("")) && ListPage(t, f, page.next, limit) == page && EndsAtEmpty(t, f, page.next, limit)
  {
    var found := Selected(t, f, cursor);
    EmptyCursorIff(t, f, cursor, limit);
    ListPageIs(t, f, cursor, limit);
    assert found[..1] == [found[0]];
    SelectedIs(t, f, cursor);
    SelectedIs(t, f, Some(""));
    SymbolsDetermined(Selected(t, f, Some("")), found);
    ListPageIs(t, f, Some(""), limit);
  }

  // A client that follows next_cursor is done after at most n requests.
  predicate EndsWithin(n: nat, t: AssetTable, f: Filters, cursor: Option<string>, limit: int) {
    n > 0 &&
    var next := ListPage(t, f, cursor, limit).next;
    next.None? || EndsWithin(n - 1, t, f, next, limit)
  }

  // Some number of requests is enough.
  ghost predicate Ends(t: AssetTable, f: Filters, cursor: Option<string>, limit: int) {
    exists n: nat :: EndsWithin(n, t, f, cursor, limit)
  }

  // Paging a fixed catalog comes to an end exactly when its first page does not end there.
  lemma PagingEndsIff(t: AssetTable, f: Filters, cursor: Option<string>, limit: int)
    ensures Ends(t, f, cursor, limit) <==> !EndsAtEmpty(t, f, cursor, limit)
  {
    if EndsAtEmpty(t, f, cursor, limit) {
      forall n: nat ensures !EndsWithin(n, t, f, cursor, limit) { NeverEnds(n, t, f, cursor, limit); }
    } else {
      EndsAfterFollow(t, f, cursor, limit);
    }
  }

  lemma {:induction false} NeverEnds(n: nat, t: AssetTable, f: Filters, cursor: Option<string>, limit: int)
    requires EndsAtEmpty(t, f, cursor, limit)
    ensures !EndsWithin(n, t, f, cursor, limit)
  {
    if n > 0 {
      EmptyCursorRepeats(t, f, cursor, limit);
      NeverEnds(n - 1, t, f, Some(""), limit);
    }
  }

  lemma {:induction false} EndsAfterFollow(t: AssetTable, f: Filters, cursor: Option<string>, limit: int)
    requires !EndsAtEmpty(t, f, cursor, limit)
    ensures EndsWithin(|Follow(t, f, cursor, limit)|, t, f, cursor, limit)
    decreases |Selected(t, f, cursor)|
  {
    var found := Selected(t, f, cursor);
    if |found| > ClampLimit(limit) {
      MorePages(t, f, cursor, limit);
      NextIsGiven(t, f, cursor, limit);
      EndsAfterFollow(t, f, Some(found[ClampLimit(limit) - 1]), limit);
    } else {
      LastPage(t, f, cursor, limit);
      ListPageIs(t, f, cursor, limit);
    }
  }

  // The smallest catalog that never ends, listed one row at a time.
  lemma EmptySymbolRestarts(t: AssetTable, f: Filters, s: string)
    requires t.Keys == {"", s} && s != "" && Matches(f, t[""]) && Matches(f, t[s])
    ensures EndsAtEmpty(t, f, None, 1)
    ensures var page := ListPage(t, f, None, 1);
            page == Page([""], Some("")) && ListPage(t, f, page.next, 1) == page
  {
    SelectsBoth(t, f, None, s);
    EmptyCursorRepeats(t, f, None, 1);
  }

  lemma SelectsBoth(t: AssetTable, f: Filters, cursor: Option<string>, s: string)
    requires t.Keys == {"", s} && s != "" && !Given(cursor)
    requires Matches(f, t[""]) && Matches(f, t[s])
    ensures Selected(t, f, cursor) == ["", s]
  {
    SelectedIs(t, f, cursor);
    SymbolsDetermined(Selected(t, f, cursor), ["", s]);
  }

  // ---------------------------------------------------------------- the catalog tables

  // INSERT ... ON CONFLICT DO UPDATE, keeping the onboarding time of an existing row.
  function UpsertAsset(t: AssetTable, row: AssetRow, now: int): AssetTable {
    t[row.symbol := row.(addedAt := if row.symbol in t then t[row.symbol].addedAt else now)]
  }

  function UpsertAssets(t: AssetTable, rows: seq<AssetRow>, now: int): AssetTable {
    if rows == [] then t else UpsertAsset(UpsertAssets(t, rows[..|rows| - 1], now), rows[|rows| - 1], now)
  }

  function SymbolsOf(rows: seq<AssetRow>): set<string> {
    set r | r in rows :: r.symbol
  }

  lemma SymbolsSnoc(rows: seq<AssetRow>, r: AssetRow)
    ensures SymbolsOf(rows + [r]) == SymbolsOf(rows) + {r.symbol}
  {
    assert forall x :: x in rows + [r] <==> x in rows || x == r;
  }

  // t' has the assets of t and the added symbols; only the new ones were onboarded now.
  ghost predicate Carries(t: AssetTable, t': AssetTable, added: set<string>, now: int) {
    && t'.Keys == t.Keys + added
    && forall k :: k in t' ==> t'[k].addedAt == if k in t then t[k].addedAt else now
  }

  lemma UpsertCarries(t: AssetTable, t': AssetTable, added: set<string>, row: AssetRow, now: int)
    requires Carries(t, t', added, now)
    ensures Carries(t, UpsertAsset(t', row, now), added + {row.symbol}, now)
  {
  }

  lemma UpsertSnoc(t: AssetTable, rows: seq<AssetRow>, r: AssetRow, now: int)
    requires Carries(t, UpsertAssets(t, rows, now), SymbolsOf(rows), now)
    ensures Carries(t, UpsertAssets(t, rows + [r], now), SymbolsOf(rows + [r]), now)
  {
    assert (rows + [r])[..|rows|] == rows;
    UpsertCarries(t, UpsertAssets(t, rows, now), SymbolsOf(rows), r, now);
    SymbolsSnoc(rows, r);
  }

  lemma NothingCarried(t: AssetTable, now: int)
    ensures Carries(t, UpsertAssets(t, [], now), SymbolsOf([]), now)
  {
  }

  // Loading the catalog never drops an asset, and an asset's onboarding time is set once.
  lemma {:induction false} UpsertKeepsAssets(t: AssetTable, rows: seq<AssetRow>, now: int)
    ensures Carries(t, UpsertAssets(t, rows, now), SymbolsOf(rows), now)
  {
    if rows == [] {
      NothingCarried(t, now);
      return;
    }
    var init, last := rows[..|rows| - 1], rows[|rows| - 1];
    UpsertKeepsAssets(t, init, now);
    assert init + [last] == rows;
    UpsertSnoc(t, init, last, now);
  }

  // The last row loaded for a symbol is what the catalog then holds, but for the onboarding
  // time; assets not loaded are as they were.
  ghost predicate LastLoaded(t: AssetTable, t': AssetTable, rows: seq<AssetRow>, now: int) {
    && (forall k :: k in t && k !in SymbolsOf(rows) ==> k in t' && t'[k] == t[k])
    && (forall i :: LastOfSymbol(rows, i) ==> HoldsLoaded(t, t', rows[i], now))
  }

  ghost predicate LastOfSymbol(rows: seq<AssetRow>, i: int) {
    0 <= i < |rows| && forall j :: i < j < |rows| ==> rows[j].symbol != rows[i].symbol
  }

  ghost predicate HoldsLoaded(t: AssetTable, t': AssetTable, row: AssetRow, now: int) {
    && row.symbol in t'
    && t'[row.symbol] == row.(addedAt := if row.symbol in t then t[row.symbol].addedAt else now)
  }

  lemma {:induction false} UpsertLoadsLast(t: AssetTable, rows: seq<AssetRow>, now: int)
    ensures LastLoaded(t, UpsertAssets(t, rows, now), rows, now)
  {
    if rows == [] {
      NothingLoaded(t, now);
      return;
    }
    var init, last := rows[..|rows| - 1], rows[|rows| - 1];
    UpsertLoadsLast(t, init, now);
    assert init + [last] == rows;
    LoadsSnoc(t, init, last, now);
  }

  lemma NothingLoaded(t: AssetTable, now: int)
    ensures LastLoaded(t, UpsertAssets(t, [], now), [], now)
  {
  }

  lemma LoadsSnoc(t: AssetTable, rows: seq<AssetRow>, r: AssetRow, now: int)
    requires LastLoaded(t, UpsertAssets(t, rows, now), rows, now)
    ensures LastLoaded(t, UpsertAssets(t, rows + [r], now), rows + [r], now)
  {
    assert (rows + [r])[..|rows|] == rows;
    UpsertKeepsAssets(t, rows, now);
    SymbolsSnoc(rows, r);
    LoadOneMore(t, UpsertAssets(t, rows, now), rows, r, now);
  }

  lemma LoadOneMore(t: AssetTable, mid: AssetTable, init: seq<AssetRow>, last: AssetRow, now: int)
    requires LastLoaded(t, mid, init, now) && Carries(t, mid, SymbolsOf(init), now)
    requires SymbolsOf(init + [last]) == SymbolsOf(init) + {last.symbol}
    ensures LastLoaded(t, UpsertAsset(mid, last, now), init + [last], now)
  {
    var t', rows := UpsertAsset(mid, last, now), init + [last];
    LastRowLoaded(t, mid, init, last, now);
    forall i | LastOfSymbol(rows, i) ensures HoldsLoaded(t, t', rows[i], now) {
      if i < |init| { EarlierRowKept(t, mid, init, last, now, i); }
    }
  }

  lemma LastRowLoaded(t: AssetTable, mid: AssetTable, init: seq<AssetRow>, last: AssetRow, now: int)
    requires Carries(t, mid, SymbolsOf(init), now)
    ensures var t' := UpsertAsset(mid, last, now);
            && HoldsLoaded(t, t', last, now)
            && (forall k :: k in mid && k != last.symbol ==> k in t' && t'[k] == mid[k])
  {
  }

  lemma EarlierRowKept(t: AssetTable, mid: AssetTable, init: seq<AssetRow>, last: AssetRow, now: int, i: int)
    requires LastLoaded(t, mid, init, now) && 0 <= i < |init| && LastOfSymbol(init + [last], i)
    ensures last.symbol != init[i].symbol && HoldsLoaded(t, mid, init[i], now)
  {
    var rows := init + [last];
    assert rows[|init|] == last;
    assert LastOfSymbol(init, i) by {
      assert forall j :: i < j < |init| ==> init[j] == rows[j];
    }
  }

  class AssetsRepo {
    var assets: AssetTable

    constructor ()
      ensures assets == map[]
    {
      assets := map[];
    }

    method UpsertMany(rows: seq<AssetRow>, now: int) returns (written: nat)
      modifies this
      ensures assets == UpsertAssets(old(assets), rows, now)
      ensures written == |rows|
    {
      for i := 0 to |rows|
        invariant assets == UpsertAssets(old(assets), rows[..i], now)
      {
        assert rows[..i + 1][..i] == rows[..i];
        assets := UpsertAsset(assets, rows[i], now);
      }
      assert rows[..|rows|] == rows;
      written := |rows|;
    }

    // A new symbol gets its row and one pending feed per timeframe in one transaction; an
    // existing symbol is returned as it is and nothing changes.
    method CreateWithFeeds(asset: AssetRow, timeframes: seq<string>, tvSymbol: string, repo: Feeds.FeedsRepo, now: int)
      returns (row: AssetRow, created: bool)
      modifies this, repo
      ensures created <==> asset.symbol !in old(assets)
      ensures assets == if created then old(assets)[asset.symbol := row] else old(assets)
      ensures row == if created then asset.(addedAt := now) else old(assets)[asset.symbol]
      ensures repo.feeds == if created then Feeds.CreateFeeds(old(repo.feeds), asset.storageSymbol, timeframes, tvSymbol, now)
                            else old(repo.feeds)
    {
      if asset.symbol in assets {
        return assets[asset.symbol], false;
      }
      row, created := asset.(addedAt := now), true;
      assets := assets[asset.symbol := row];
      repo.AddFeeds(asset.storageSymbol, timeframes, tvSymbol, now);
    }
  }
}
