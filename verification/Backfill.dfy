// The backwards pager of the historical backfill: a loop over pages of an exchange API that
// amounts to "the last N bars".

module Backfilling {
  import opened Rows
  import Timeframes
  import Normalization

  const MAX_PER_CALL := 1000

  // The exchange: call number, latest opening time wanted (ms), page limit. None: the call
  // failed. Rows carry millisecond timestamps here.
  type Pages = (nat, int, int) -> Option<seq<Row>>

  function Seconds(r: Row): Row { r.(time := r.time / 1000) }

  function AllSeconds(rows: seq<Row>): (out: seq<Row>)
    ensures |out| == |rows| && forall i :: 0 <= i < |rows| ==> out[i] == Seconds(rows[i])
  {
    seq(|rows|, i requires 0 <= i < |rows| => Seconds(rows[i]))
  }

  function LastOf(rows: seq<Row>, n: int): seq<Row> {
    rows[|rows| - Min(Max(n, 0), |rows|)..]
  }

  // The bars the loop gathers from its current state on; None when a call fails.
  function Gather(pages: Pages, call: nat, cursor: int, bars: seq<Row>, total: int): Option<seq<Row>>
    decreases total - |bars|
  {
    if |bars| >= total then Some(bars)
    else
      var limit := Min(MAX_PER_CALL, total - |bars|);
      match pages(call, cursor, limit)
      case None => None
      case Some(page) =>
        if page == [] then Some(bars)
        else if |page| < limit then Some(bars + AllSeconds(page))
        else Gather(pages, call + 1, page[0].time - 1, bars + AllSeconds(page), total)
  }

  function History(pages: Pages, nowMs: int, total: int): Option<seq<Row>> {
    match Gather(pages, 0, nowMs, [], total)
    case None => None
    case Some(bars) => Some(LastOf(Sorted(LastWins(bars)), total))
  }

  method FetchHistory(timeframe: string, pages: Pages, nowMs: int, total: int) returns (bars: Option<seq<Row>>)
    ensures Timeframes.TfSeconds(timeframe).None? ==> bars.None?
    ensures Timeframes.TfSeconds(timeframe).Some? ==> bars == History(pages, nowMs, total)
  {
    if Timeframes.TfSeconds(timeframe).None? {
      return None;
    }
    var all: seq<Row> := [];
    var cursor := nowMs;
    var call: nat := 0;
    while |all| < total
      invariant Gather(pages, call, cursor, all, total) == Gather(pages, 0, nowMs, [], total)
      decreases total - |all|
    {
      var limit := Min(MAX_PER_CALL, total - |all|);
      var answer := pages(call, cursor, limit);
      if answer.None? {
        return None;
      }
      var page := answer.value;
      if page == [] {
        return Some(LastOf(Sorted(LastWins(all)), total));
      }
      all := all + AllSeconds(page);
      cursor := page[0].time - 1;
      call := call + 1;
      if |page| < limit {
        return Some(LastOf(Sorted(LastWins(all)), total));
      }
    }
    bars := Some(LastOf(Sorted(LastWins(all)), total));
  }

  // ---------------------------------------------------------------- any server

  // Whatever the server answers, the result is sorted, free of duplicates and at most N long.
  lemma HistoryIsBounded(pages: Pages, nowMs: int, total: int)
    requires History(pages, nowMs, total).Some?
    ensures Ascending(History(pages, nowMs, total).value)
    ensures |History(pages, nowMs, total).value| <= Max(total, 0)
  {
    SortedAscending(LastWins(Gather(pages, 0, nowMs, [], total).value));
  }

  // ---------------------------------------------------------------- a faithful server

  // How many bars of an ascending history opened at or before a time.
  function UpTo(history: seq<Row>, t: int): (n: nat)
    ensures n <= |history|
  {
    if history == [] then 0
    else if history[|history| - 1].time <= t then |history|
    else UpTo(history[..|history| - 1], t)
  }

  lemma {:induction false} UpToIs(history: seq<Row>, t: int)
    requires Ascending(history)
    ensures forall i :: 0 <= i < |history| ==> (history[i].time <= t <==> i < UpTo(history, t))
  {
    if history != [] && history[|history| - 1].time > t {
      UpToIs(history[..|history| - 1], t);
    }
  }

  lemma UpToBefore(history: seq<Row>, k: int)
    requires Ascending(history) && 0 <= k < |history|
    ensures UpTo(history, history[k].time - 1) == k
  {
    var n := UpTo(history, history[k].time - 1);
    UpToIs(history, history[k].time - 1);
    assert k >= n;
    assert k > 0 ==> history[k - 1].time < history[k].time;
  }

  // Bars open on whole, distinct seconds; a call may fail, and otherwise returns the newest
  // `limit` bars that opened at or before the cursor, oldest first.
  ghost predicate Faithful(pages: Pages, history: seq<Row>) {
    && Ascending(AllSeconds(history))
    && (forall call: nat, cursor: int, limit: int {:trigger pages(call, cursor, limit)} ::
          limit >= 1 && pages(call, cursor, limit).Some? ==>
            pages(call, cursor, limit).value == LastOf(history[..UpTo(history, cursor)], limit))
  }

  lemma SecondsAscend(history: seq<Row>)
    requires Ascending(AllSeconds(history))
    ensures Ascending(history)
  {
    forall i, j | 0 <= i < j < |history| ensures history[i].time < history[j].time {
      assert AllSeconds(history)[i].time < AllSeconds(history)[j].time;
    }
  }

  // The gathered bars are history[k..n], in some page order.
  ghost predicate Gathered(bars: seq<Row>, history: seq<Row>, k: int, n: int) {
    && 0 <= k <= n <= |history|
    && |bars| == n - k
    && LastWins(bars) == LastWins(AllSeconds(history)[k..n])
  }

  // One page extends the gathered stretch downwards without a gap.
  lemma PageExtends(bars: seq<Row>, page: seq<Row>, history: seq<Row>, k': int, k: int, n: int)
    requires Ascending(AllSeconds(history)) && Gathered(bars, history, k, n)
    requires 0 <= k' <= k && page == history[k'..k]
    ensures Gathered(bars + AllSeconds(page), history, k', n)
  {
    var secs := AllSeconds(history);
    assert AllSeconds(page) == secs[k'..k];
    LastWinsAppend(bars, secs[k'..k]);
    assert secs[k'..n] == secs[k'..k] + secs[k..n];
    LastWinsAppend(secs[k'..k], secs[k..n]);
    DisjointSlices(secs, k', k, n);
  }

  lemma DisjointSlices(secs: seq<Row>, k': int, k: int, n: int)
    requires Ascending(secs) && 0 <= k' <= k <= n <= |secs|
    ensures LastWins(secs[k'..k]).Keys !! LastWins(secs[k..n]).Keys
    ensures LastWins(secs[k'..k]) + LastWins(secs[k..n]) == LastWins(secs[k..n]) + LastWins(secs[k'..k])
  {
    Normalization.TimesAreKeys(secs[k'..k]);
    Normalization.TimesAreKeys(secs[k..n]);
    SlicesApart(secs, k', k, n);
  }

  lemma SlicesApart(secs: seq<Row>, k': int, k: int, n: int)
    requires Ascending(secs) && 0 <= k' <= k <= n <= |secs|
    ensures Times(secs[k'..k]) !! Times(secs[k..n])
  {
    forall x, y | x in secs[k'..k] && y in secs[k..n] ensures x.time < y.time {
      var i :| k' <= i < k && secs[i] == x;
      var j :| k <= j < n && secs[j] == y;
    }
  }

  lemma NewestPage(history: seq<Row>, k: int, limit: int)
    requires 0 <= k <= |history| && limit >= 1
    ensures LastOf(history[..k], limit) == history[k - Min(limit, k)..k]
  {
  }

  // What one answered call contributes: the stretch just below what is gathered, after which
  // the cursor stands right below it.
  lemma PageTaken(pages: Pages, history: seq<Row>, call: nat, cursor: int, bars: seq<Row>, limit: int, k: int, n: int)
    returns (k': int)
    requires Faithful(pages, history) && Gathered(bars, history, k, n) && UpTo(history, cursor) == k
    requires limit >= 1 && pages(call, cursor, limit).Some?
    ensures var page := pages(call, cursor, limit).value;
            && |page| == Min(limit, k) && k' == k - |page|
            && Gathered(bars + AllSeconds(page), history, k', n)
            && (page != [] ==> UpTo(history, page[0].time - 1) == k')
  {
    k' := k - Min(limit, k);
    NewestPage(history, k, limit);
    PageExtends(bars, history[k'..k], history, k', k, n);
    if k' < k {
      SecondsAscend(history);
      UpToBefore(history, k');
    }
  }

  // The loop stops with total bars or with the history exhausted.
  lemma Enough(bars: seq<Row>, history: seq<Row>, k: int, n: int, total: int)
    requires Gathered(bars, history, k, n) && |bars| <= Max(total, 0)
    requires |bars| >= total || k == 0
    ensures Gathered(bars, history, n - Min(Max(total, 0), n), n)
  {
    assert k == n - Min(Max(total, 0), n);
  }

  lemma GatherStep(pages: Pages, call: nat, cursor: int, bars: seq<Row>, total: int)
    requires |bars| < total
    ensures var limit := Min(MAX_PER_CALL, total - |bars|);
            var answer := pages(call, cursor, limit);
            Gather(pages, call, cursor, bars, total) ==
              if answer.None? then None
              else if answer.value == [] then Some(bars)
              else if |answer.value| < limit then Some(bars + AllSeconds(answer.value))
              else Gather(pages, call + 1, answer.value[0].time - 1, bars + AllSeconds(answer.value), total)
  {
  }

  // The loop invariant: history[k..n] is gathered and the cursor stands right below it.
  ghost predicate Reached(bars: seq<Row>, history: seq<Row>, cursor: int, k: int, n: int, total: int) {
    Gathered(bars, history, k, n) && UpTo(history, cursor) == k && |bars| <= Max(total, 0)
  }

  ghost predicate Complete(bars: seq<Row>, history: seq<Row>, n: int, total: int) {
    0 <= n && Gathered(bars, history, n - Min(Max(total, 0), n), n)
  }

  lemma OneCall(pages: Pages, history: seq<Row>, call: nat, cursor: int, bars: seq<Row>, total: int, k: int, n: int)
    returns (k': int)
    requires Faithful(pages, history)
    requires Reached(bars, history, cursor, k, n, total) && |bars| < total
    requires pages(call, cursor, Min(MAX_PER_CALL, total - |bars|)).Some?
    ensures var limit := Min(MAX_PER_CALL, total - |bars|);
            var page := pages(call, cursor, limit).value;
            var bars' := bars + AllSeconds(page);
            && (page == [] ==> Complete(bars, history, n, total))
            && (|page| < limit ==> Complete(bars', history, n, total))
            && (page != [] && |page| >= limit ==> Reached(bars', history, page[0].time - 1, k', n, total))
  {
    var limit := Min(MAX_PER_CALL, total - |bars|);
    var page := pages(call, cursor, limit).value;
    k' := PageTaken(pages, history, call, cursor, bars, limit, k, n);
    if page == [] {
      Enough(bars, history, k, n, total);
    }
    if |page| < limit {
      Enough(bars + AllSeconds(page), history, k', n, total);
    }
  }

  lemma {:induction false} GatherReaches(pages: Pages, history: seq<Row>, call: nat, cursor: int, bars: seq<Row>,
                                         total: int, k: int, n: int)
    requires Faithful(pages, history)
    requires Reached(bars, history, cursor, k, n, total)
    requires Gather(pages, call, cursor, bars, total).Some?
    ensures Complete(Gather(pages, call, cursor, bars, total).value, history, n, total)
    decreases total - |bars|
  {
    if |bars| >= total {
      Enough(bars, history, k, n, total);
    } else {
      GatherStep(pages, call, cursor, bars, total);
      var limit := Min(MAX_PER_CALL, total - |bars|);
      var page := pages(call, cursor, limit).value;
      var bars' := bars + AllSeconds(page);
      var k' := OneCall(pages, history, call, cursor, bars, total, k, n);
      if page == [] || |page| < limit {
        return;
      }
      GatherReaches(pages, history, call + 1, page[0].time - 1, bars', total, k', n);
    }
  }

  // Against a faithful server the loop returns exactly the last min(N, available) bars that
  // opened by now, oldest first, whatever the number of pages; it never returns a result with
  // a page missing, because a failed call fails the whole fetch.
  lemma HistoryIsLastN(pages: Pages, history: seq<Row>, nowMs: int, total: int)
    requires Faithful(pages, history)
    requires History(pages, nowMs, total).Some?
    ensures History(pages, nowMs, total).value == AllSeconds(LastOf(history[..UpTo(history, nowMs)], total))
  {
    var n := UpTo(history, nowMs);
    assert Gathered([], history, n, n) by { assert AllSeconds(history)[n..n] == []; }
    GatherReaches(pages, history, 0, nowMs, [], total, n, n);
    GatheredEnds(Gather(pages, 0, nowMs, [], total).value, history, n, total);
  }

  // Sorting and trimming what was gathered.
  lemma GatheredEnds(bars: seq<Row>, history: seq<Row>, n: int, total: int)
    requires Ascending(AllSeconds(history)) && 0 <= n <= |history|
    requires Gathered(bars, history, n - Min(Max(total, 0), n), n)
    ensures LastOf(Sorted(LastWins(bars)), total) == AllSeconds(LastOf(history[..n], total))
  {
    var k := n - Min(Max(total, 0), n);
    SliceAscends(AllSeconds(history), k, n);
    SortedOf(LastWins(bars), AllSeconds(history)[k..n]);
    TrimmedSlice(history, k, n, total);
  }

  lemma SliceAscends(rows: seq<Row>, k: int, n: int)
    requires Ascending(rows) && 0 <= k <= n <= |rows|
    ensures Ascending(rows[k..n])
  {
  }

  // An ascending series is what sorting its last-wins map gives back.
  lemma SortedOf(m: map<int, Row>, rows: seq<Row>)
    requires Ascending(rows) && m == LastWins(rows)
    ensures Sorted(m) == rows
  {
    SortedIs(m);
    AscendingDetermined(Sorted(m), rows);
  }

  lemma TrimmedSlice(history: seq<Row>, k: int, n: int, total: int)
    requires 0 <= n <= |history| && k == n - Min(Max(total, 0), n)
    ensures LastOf(AllSeconds(history)[k..n], total) == AllSeconds(LastOf(history[..n], total))
  {
    assert LastOf(history[..n], total) == history[k..n];
    assert AllSeconds(history[k..n]) == AllSeconds(history)[k..n];
  }

  // Said outright: of the bars that opened by now, the newest N, oldest first, each with its
  // own prices and volume and the second it opened in.
  lemma HistoryRows(pages: Pages, history: seq<Row>, nowMs: int, total: int) returns (n: nat)
    requires Faithful(pages, history)
    requires History(pages, nowMs, total).Some?
    ensures n <= |history| && forall j :: 0 <= j < |history| ==> (history[j].time <= nowMs <==> j < n)
    ensures var out := History(pages, nowMs, total).value;
            && |out| == (if total <= 0 then 0 else if total < n then total else n)
            && forall j :: 0 <= j < |out| ==>
                 var bar := history[n - |out| + j];
                 && out[j].time * 1000 <= bar.time < out[j].time * 1000 + 1000
                 && out[j] == bar.(time := out[j].time)
  {
    n := UpTo(history, nowMs);
    assert forall j :: 0 <= j < |history| ==> (history[j].time <= nowMs <==> j < n) by {
      SecondsAscend(history);
      UpToIs(history, nowMs);
    }
    HistoryIsLastN(pages, history, nowMs, total);
    NewestRows(history, n, total);
    var out := AllSeconds(LastOf(history[..n], total));
    forall j | 0 <= j < |out|
      ensures out[j].time * 1000 <= history[n - |out| + j].time < out[j].time * 1000 + 1000
      ensures out[j] == history[n - |out| + j].(time := out[j].time)
    {
      SecondsIs(history[n - |out| + j]);
    }
  }

  lemma SecondsIs(r: Row)
    ensures Seconds(r).time * 1000 <= r.time < Seconds(r).time * 1000 + 1000
    ensures Seconds(r) == r.(time := Seconds(r).time)
  {
  }

  lemma NewestRows(history: seq<Row>, n: nat, total: int)
    requires n <= |history|
    ensures var out := AllSeconds(LastOf(history[..n], total));
            && |out| == (if total <= 0 then 0 else if total < n then total else n)
            && forall j :: 0 <= j < |out| ==> out[j] == Seconds(history[n - |out| + j])
  {
  }

  // A fetch succeeds when no call fails, and fails when its first call does.
  lemma {:induction false} GatherAnswers(pages: Pages, call: nat, cursor: int, bars: seq<Row>, total: int)
    requires forall c: nat, t: int, l: int {:trigger pages(c, t, l)} :: pages(c, t, l).Some?
    ensures Gather(pages, call, cursor, bars, total).Some?
    decreases total - |bars|
  {
    if |bars| < total {
      var limit := Min(MAX_PER_CALL, total - |bars|);
      var page := pages(call, cursor, limit).value;
      if page != [] && |page| >= limit {
        GatherAnswers(pages, call + 1, page[0].time - 1, bars + AllSeconds(page), total);
      }
    }
  }

  lemma HistoryAnswers(pages: Pages, nowMs: int, total: int)
    ensures (forall c: nat, t: int, l: int {:trigger pages(c, t, l)} :: pages(c, t, l).Some?) ==>
              History(pages, nowMs, total).Some?
    ensures total > 0 && pages(0, nowMs, if total < 1000 then total else 1000).None? ==> History(pages, nowMs, total).None?
    ensures total <= 0 ==> History(pages, nowMs, total) == Some([])
  {
    if forall c: nat, t: int, l: int {:trigger pages(c, t, l)} :: pages(c, t, l).Some? {
      GatherAnswers(pages, 0, nowMs, [], total);
    }
  }
}
