// Re-running the aggregation on a window each cycle and upserting the result over what is
// stored, against aggregating the whole series.

module Incremental {
  import opened Rows
  import opened Normalization
  import opened Buckets
  import BucketLaws
  import Calendar
  import opened Aggregation
  import opened CacheModel

  // What an aggregated frame leaves in the table, by bucket time.
  function Stored(base: seq<Row>, b: Bucketing): map<int, Row> {
    LastWins(Fold(Normalize(base), b))
  }

  // later starts in a bucket after every bucket of earlier.
  ghost predicate Separated(earlier: seq<Row>, later: seq<Row>, b: Bucketing) {
    forall x, y :: x in earlier && y in later ==> x.time < y.time && b.key(x.time) != b.key(y.time)
  }

  lemma FoldSplits(earlier: seq<Row>, later: seq<Row>, b: Bucketing)
    requires Proper(b) && Separated(earlier, later, b)
    ensures Fold(Normalize(earlier + later), b) == Fold(Normalize(earlier), b) + Fold(Normalize(later), b)
    ensures Stored(earlier + later, b) == Stored(earlier, b) + Stored(later, b)
    ensures Stored(earlier, b).Keys !! Stored(later, b).Keys
  {
    var xs, ys := Normalize(earlier), Normalize(later);
    NormalizeConcat(earlier, later);
    NormalizeMembers(earlier);
    NormalizeMembers(later);
    if xs != [] && ys != [] {
      assert xs[|xs| - 1] in earlier && ys[0] in later;
    }
    BucketLaws.FoldConcat(xs, ys, b);
    LastWinsAppend(Fold(xs, b), Fold(ys, b));
    NormalizeIs(earlier + later);
    BucketLaws.BucketIsFold(xs + ys, b);
    AscendingHalvesDiffer(Fold(xs, b), Fold(ys, b));
  }

  lemma AscendingHalvesDiffer(xs: seq<Row>, ys: seq<Row>)
    requires Ascending(xs + ys)
    ensures LastWins(xs).Keys !! LastWins(ys).Keys
  {
    LastWinsMembers(xs);
    LastWinsMembers(ys);
    forall x, y | x in xs && y in ys ensures x.time < y.time {
      var i :| 0 <= i < |xs| && xs[i] == x;
      var j :| 0 <= j < |ys| && ys[j] == y;
      assert (xs + ys)[i] == x && (xs + ys)[|xs| + j] == y;
    }
  }

  lemma UpsertRows(bars: Series, rows: seq<Row>, now: int)
    ensures RowsOf(Upsert(bars, rows, now)) == RowsOf(bars) + LastWins(rows)
    ensures forall t :: t in bars && t !in LastWins(rows) ==> t in Upsert(bars, rows, now) && Upsert(bars, rows, now)[t] == bars[t]
  {
    UpsertIs(bars, rows, now);
    RowsOfStamped(rows, now);
    RowsOfMerge(bars, Stamped(rows, now));
  }

  lemma RowsOfStamped(rows: seq<Row>, now: int)
    ensures RowsOf(Stamped(rows, now)) == LastWins(rows)
  {
    assert forall t :: t in LastWins(rows) ==> RowOf(t, BarOf(LastWins(rows)[t], now)) == LastWins(rows)[t];
  }

  lemma RowsOfMerge(a: Series, b: Series)
    ensures RowsOf(a + b) == RowsOf(a) + RowsOf(b)
  {
  }

  // The table holds the aggregation of closed + oldWindow; the base series now ends in window
  // instead. Upserting the aggregation of the window alone gives the aggregation of the whole
  // series exactly when every bucket time of the old window is one of the new window; bars of
  // earlier buckets keep their rows and write stamps.
  lemma WindowUpsertIff(bars: Series, closed: seq<Row>, oldWindow: seq<Row>, window: seq<Row>, b: Bucketing, now: int)
    requires Proper(b) && Separated(closed, oldWindow, b) && Separated(closed, window, b)
    requires RowsOf(bars) == Stored(closed + oldWindow, b)
    ensures var bars' := Upsert(bars, Fold(Normalize(window), b), now);
            && (RowsOf(bars') == Stored(closed + window, b)
                <==> Stored(oldWindow, b).Keys <= Stored(window, b).Keys)
            && (forall t :: t in Stored(closed, b) ==> t in bars && t in bars' && bars'[t] == bars[t])
  {
    FoldSplits(closed, oldWindow, b);
    FoldSplits(closed, window, b);
    UpsertRows(bars, Fold(Normalize(window), b), now);
    OverwriteIff(Stored(closed, b), Stored(oldWindow, b), Stored(window, b));
    assert RowsOf(bars).Keys == bars.Keys;
  }

  lemma OverwriteIff(kept: map<int, Row>, old': map<int, Row>, new': map<int, Row>)
    requires kept.Keys !! old'.Keys && kept.Keys !! new'.Keys
    ensures kept + old' + new' == kept + new' <==> old'.Keys <= new'.Keys
  {
    if kept + old' + new' == kept + new' {
      forall t | t in old' ensures t in new' {
        assert t in kept + old' + new';
      }
    }
  }

  // Re-running a cycle on unchanged data changes no row.
  lemma RerunIsIdempotent(bars: Series, closed: seq<Row>, window: seq<Row>, b: Bucketing, now: int)
    requires Proper(b) && Separated(closed, window, b)
    requires RowsOf(bars) == Stored(closed + window, b)
    ensures RowsOf(Upsert(bars, Fold(Normalize(window), b), now)) == RowsOf(bars)
  {
    WindowUpsertIff(bars, closed, window, window, b, now);
  }

  // ---------------------------------------------------------------- the condition for fixed-width targets

  lemma {:induction false} IntradayFoldTimes(rows: seq<Row>, width: int)
    requires 0 < width
    ensures forall t :: t in Times(Fold(rows, Intraday(width))) <==> exists r :: r in rows && t == FloorTo(r.time, width)
    ensures forall r :: r in Fold(rows, Intraday(width)) ==> FloorTo(r.time, width) == r.time
  {
    var b := Intraday(width);
    if rows != [] {
      var init, last := rows[..|rows| - 1], rows[|rows| - 1];
      IntradayFoldTimes(init, width);
      AbsorbTimes(Fold(init, b), last, width);
      assert forall r :: r in rows <==> r in init || r == last;
    }
  }

  lemma AbsorbTimes(acc: seq<Row>, r: Row, width: int)
    requires 0 < width
    requires forall x :: x in acc ==> FloorTo(x.time, width) == x.time
    ensures var out := Absorb(acc, r, Intraday(width));
            && Times(out) == Times(acc) + {FloorTo(r.time, width)}
            && (forall x :: x in out ==> FloorTo(x.time, width) == x.time)
  {
    var b := Intraday(width);
    var out := Absorb(acc, r, b);
    FloorOfFloor(r.time, width);
    if acc != [] && b.key(acc[|acc| - 1].time) == b.key(r.time) {
      var init, last := acc[..|acc| - 1], acc[|acc| - 1];
      assert last in acc && last.time == FloorTo(r.time, width);
      assert forall x :: x in acc <==> x in init || x == last;
      assert forall x :: x in out <==> x in init || x == Merge(last, r);
      assert Merge(last, r) in out;
    } else {
      var first := r.(time := b.stamp(r.time));
      assert forall x :: x in out <==> x in acc || x == first;
      assert first in out;
    }
  }

  // Some row of window lies in the fixed-width bucket of each row of oldWindow.
  ghost predicate CoversBuckets(window: seq<Row>, oldWindow: seq<Row>, width: int)
    requires 0 < width
  {
    forall v :: v in oldWindow ==> exists w :: w in window && FloorTo(w.time, width) == FloorTo(v.time, width)
  }

  // A window repairs a fixed-width table exactly when it covers every old bucket: then late,
  // corrected or additional minute bars all converge to the full aggregation, and if not, an
  // old bucket stays behind.
  lemma IntradayWindowUpsert(bars: Series, closed: seq<Row>, oldWindow: seq<Row>, window: seq<Row>, width: int, now: int)
    requires 0 < width
    requires Separated(closed, oldWindow, Intraday(width)) && Separated(closed, window, Intraday(width))
    requires RowsOf(bars) == Stored(closed + oldWindow, Intraday(width))
    ensures RowsOf(Upsert(bars, Fold(Normalize(window), Intraday(width)), now)) == Stored(closed + window, Intraday(width))
            <==> CoversBuckets(window, oldWindow, width)
  {
    IntradayProper(width);
    CoveredKeys(window, oldWindow, width);
    WindowUpsertIff(bars, closed, oldWindow, window, Intraday(width), now);
  }

  lemma CoveredKeys(window: seq<Row>, oldWindow: seq<Row>, width: int)
    requires 0 < width
    ensures Stored(oldWindow, Intraday(width)).Keys <= Stored(window, Intraday(width)).Keys
            <==> CoversBuckets(window, oldWindow, width)
  {
    var b := Intraday(width);
    StoredTimes(oldWindow, width);
    StoredTimes(window, width);
    if Stored(oldWindow, b).Keys <= Stored(window, b).Keys {
      forall v | v in oldWindow ensures exists w :: w in window && FloorTo(w.time, width) == FloorTo(v.time, width) {
        assert FloorTo(v.time, width) in Stored(oldWindow, b).Keys;
        assert FloorTo(v.time, width) in Stored(window, b);
      }
    }
  }

  lemma StoredTimes(base: seq<Row>, width: int)
    requires 0 < width
    ensures forall t :: t in Stored(base, Intraday(width)) <==> exists r :: r in base && t == FloorTo(r.time, width)
  {
    var rows := Normalize(base);
    IntradayFoldTimes(rows, width);
    TimesAreKeys(Fold(rows, Intraday(width)));
    NormalizeTimes(base);
    NormalizeMembers(base);
    forall r | r in base ensures exists x :: x in rows && x.time == r.time {
      assert r.time in Times(rows);
    }
  }

  // ---------------------------------------------------------------- the condition for calendar targets

  // t is a session of base, and no session of its group is earlier.
  ghost predicate Opens(t: int, base: seq<Row>, b: Bucketing) {
    t in Times(base) && forall u :: u in Times(base) && b.key(u) == b.key(t) ==> t <= u
  }

  // A window repairs a calendar table exactly when each session that opened a group of the
  // old window still opens one: a session that arrives late before it, or its removal,
  // moves the bucket's time and leaves the old row behind.
  lemma CalendarWindowUpsert(bars: Series, closed: seq<Row>, oldWindow: seq<Row>, window: seq<Row>, target: Calendar.DailyTarget,
                             dayOf: DayOf, now: int)
    requires CalendarDays(dayOf)
    requires Separated(closed, oldWindow, Daily(target, dayOf)) && Separated(closed, window, Daily(target, dayOf))
    requires RowsOf(bars) == Stored(closed + oldWindow, Daily(target, dayOf))
    ensures var b := Daily(target, dayOf);
            RowsOf(Upsert(bars, Fold(Normalize(window), b), now)) == Stored(closed + window, b)
            <==> forall t :: Opens(t, oldWindow, b) ==> Opens(t, window, b)
  {
    var b := Daily(target, dayOf);
    DailyProper(target, dayOf);
    StoredOpens(oldWindow, b);
    StoredOpens(window, b);
    WindowUpsertIff(bars, closed, oldWindow, window, b, now);
    OpeningKeys(Stored(oldWindow, b), Stored(window, b), oldWindow, window, b);
  }

  lemma OpeningKeys(old': map<int, Row>, new': map<int, Row>, oldWindow: seq<Row>, window: seq<Row>, b: Bucketing)
    requires forall t :: t in old' <==> Opens(t, oldWindow, b)
    requires forall t :: t in new' <==> Opens(t, window, b)
    ensures old'.Keys <= new'.Keys <==> forall t :: Opens(t, oldWindow, b) ==> Opens(t, window, b)
  {
    if old'.Keys <= new'.Keys {
      forall t | Opens(t, oldWindow, b) ensures Opens(t, window, b) {
        assert t in old'.Keys;
        assert t in new'.Keys;
      }
    }
    if forall t :: Opens(t, oldWindow, b) ==> Opens(t, window, b) {
      forall t | t in old' ensures t in new' {
        assert Opens(t, oldWindow, b);
      }
    }
  }

  // Buckets named by their first session are stored under exactly the opening sessions.
  lemma StoredOpens(base: seq<Row>, b: Bucketing)
    requires Proper(b) && forall t :: b.stamp(t) == t
    ensures forall t :: t in Stored(base, b) <==> Opens(t, base, b)
  {
    var rows := Normalize(base);
    assert Ascending(rows) by { NormalizeIs(base); }
    assert Times(rows) == Times(base) by { NormalizeTimes(base); }
    assert Stored(base, b).Keys == Times(Fold(rows, b)) by { TimesAreKeys(Fold(rows, b)); }
    forall t ensures t in Stored(base, b) <==> Opens(t, base, b) {
      FoldOpens(rows, b, t);
      assert t in Stored(base, b) <==> t in Times(Fold(rows, b));
      assert Opens(t, rows, b) <==> Opens(t, base, b);
    }
  }

  lemma FoldOpens(rows: seq<Row>, b: Bucketing, t: int)
    requires Proper(b) && Ascending(rows) && forall u :: b.stamp(u) == u
    ensures t in Times(Fold(rows, b)) <==> Opens(t, rows, b)
  {
    GroupsAreRuns(rows, b);
    SummaryTimes(Groups(rows, b), rows, b, t);
  }

  lemma SummaryTimes(groups: seq<Run>, rows: seq<Row>, b: Bucketing, t: int)
    requires AreRuns(groups, rows, b) && forall u :: b.stamp(u) == u
    ensures t in Times(Summaries(groups, b)) <==> Opens(t, rows, b)
  {
    if t in Times(Summaries(groups, b)) {
      var i :| 0 <= i < |groups| && Summaries(groups, b)[i].time == t;
      RunOpens(groups, rows, b, i);
    }
    if Opens(t, rows, b) {
      var i := OpeningRun(groups, rows, b, t);
      assert Summaries(groups, b)[i] in Summaries(groups, b);
    }
  }

  lemma {:induction false} FlattenHas(groups: seq<Run>, x: Row) returns (i: int)
    requires x in Flatten(groups)
    ensures 0 <= i < |groups| && x in groups[i]
  {
    var n := |groups| - 1;
    if x in groups[n] {
      i := n;
    } else {
      i := FlattenHas(groups[..n], x);
    }
  }

  lemma RunOpens(groups: seq<Run>, rows: seq<Row>, b: Bucketing, i: int)
    requires AreRuns(groups, rows, b) && 0 <= i < |groups|
    ensures Opens(groups[i][0].time, rows, b)
  {
    var t := groups[i][0].time;
    FlattenMembers(groups, i);
    BucketLaws.MinTimeLeast(groups[i]);
    forall u | u in Times(rows) && b.key(u) == b.key(t) ensures t <= u {
      var x :| x in rows && x.time == u;
      var j := FlattenHas(groups, x);
      assert b.key(groups[j][0].time) == b.key(u);
      assert j == i;
    }
  }

  lemma OpeningRun(groups: seq<Run>, rows: seq<Row>, b: Bucketing, t: int) returns (i: int)
    requires AreRuns(groups, rows, b) && Opens(t, rows, b)
    ensures 0 <= i < |groups| && MinTime(groups[i]) == t
  {
    var x :| x in rows && x.time == t;
    i := FlattenHas(groups, x);
    FlattenMembers(groups, i);
    BucketLaws.MinTimeLeast(groups[i]);
    assert groups[i][0].time in Times(rows);
  }

  // A session that arrives late and precedes the stored first session of its group moves the
  // bucket's time, and the old bucket row stays behind.
  lemma LateSessionLeavesStaleBucket(bars: Series, early: Row, late: Row, target: Calendar.DailyTarget, dayOf: DayOf, now: int)
    requires CalendarDays(dayOf)
    requires early.time < late.time
    requires Daily(target, dayOf).key(early.time) == Daily(target, dayOf).key(late.time)
    requires RowsOf(bars) == Stored([late], Daily(target, dayOf))
    ensures RowsOf(Upsert(bars, Fold(Normalize([early, late]), Daily(target, dayOf)), now))
            != Stored([early, late], Daily(target, dayOf))
  {
    DailyProper(target, dayOf);
    LateRowLeavesStaleBucket(bars, early, late, Daily(target, dayOf), now);
  }

  lemma LateRowLeavesStaleBucket(bars: Series, early: Row, late: Row, b: Bucketing, now: int)
    requires Proper(b) && early.time < late.time && b.key(early.time) == b.key(late.time)
    requires b.stamp(early.time) == early.time && b.stamp(late.time) == late.time
    requires RowsOf(bars) == Stored([late], b)
    ensures RowsOf(Upsert(bars, Fold(Normalize([early, late]), b), now)) != Stored([early, late], b)
  {
    StoredOne(late, b);
    StoredTwo(early, late, b);
    assert [] + [late] == [late] && [] + [early, late] == [early, late];
    WindowUpsertIff(bars, [], [late], [early, late], b, now);
    assert late.time in Stored([late], b).Keys;
  }

  lemma StoredOne(r: Row, b: Bucketing)
    requires b.stamp(r.time) == r.time
    ensures Fold([r], b) == [r] && Stored([r], b).Keys == {r.time}
  {
    NormalizeAscending([r]);
    assert [r][..0] == [];
    TimesAreKeys([r]);
    assert Times([r]) == {r.time} by { assert [r][0] in [r]; }
  }

  lemma StoredTwo(r: Row, r': Row, b: Bucketing)
    requires b.stamp(r.time) == r.time && r.time < r'.time && b.key(r.time) == b.key(r'.time)
    ensures Stored([r, r'], b).Keys == {r.time}
  {
    NormalizeAscending([r, r']);
    StoredOne(r, b);
    assert [r, r'][..1] == [r];
    var merged := [Merge(r, r')];
    assert Fold([r, r'], b) == merged;
    TimesAreKeys(merged);
    assert Times(merged) == {r.time} by { assert merged[0] in merged; }
  }
}
