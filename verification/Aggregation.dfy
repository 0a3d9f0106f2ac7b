// The aggregation entry point and its guarantees on arbitrary input frames.

module Aggregation {
  import opened Rows
  import opened Timeframes
  import opened Normalization
  import opened Buckets
  import opened BucketLaws
  import opened Calendar

  function IntradayWidth(tf: string): Option<int> {
    if tf == "5" then Some(300)
    else if tf == "15" then Some(900)
    else if tf == "30" then Some(1800)
    else if tf == "1h" then Some(3600)
    else if tf == "2h" then Some(7200)
    else if tf == "4h" then Some(14400)
    else if tf == "8h" then Some(28800)
    else None
  }

  function DailyTargetOf(tf: string): Option<DailyTarget> {
    if tf == "3D" then Some(ThreeDay)
    else if tf == "1W" then Some(Week)
    else if tf == "1M" then Some(Month)
    else None
  }

  function FloorTo(t: int, width: int): int
    requires 0 < width
  {
    t / width * width
  }

  // Fixed UTC windows named by their opening second.
  function Intraday(width: int): Bucketing
    requires 0 < width
  {
    Bucketing(t => Single(FloorTo(t, width)), t => FloorTo(t, width))
  }

  // Timestamp to US/Eastern day number; the time-zone rules enter only through this.
  type DayOf = int -> int

  // Calendar groups named by their first session.
  function Daily(target: DailyTarget, dayOf: DayOf): Bucketing {
    Bucketing(t => DateKey(target, Max(1, dayOf(t))), t => t)
  }

  ghost predicate CalendarDays(dayOf: DayOf) {
    forall s, t :: s <= t ==> dayOf(s) <= dayOf(t)
  }

  datatype Plan = PassThrough | Group(b: Bucketing) | Unknown

  function PlanFor(tf: string, dayOf: DayOf): Plan {
    if tf == "1" || tf == "1D" then PassThrough
    else if IntradayWidth(tf).Some? then Group(Intraday(IntradayWidth(tf).value))
    else if DailyTargetOf(tf).Some? then Group(Daily(DailyTargetOf(tf).value, dayOf))
    else Unknown
  }

  // None: unknown timeframe. An empty frame is answered before the timeframe is looked at.
  function Aggregate(base: seq<Row>, tf: string, dayOf: DayOf): Option<seq<Row>> {
    var rows := Normalize(base);
    match PlanFor(tf, dayOf)
    case PassThrough => Some(rows)
    case Group(b) => Some(if rows == [] then [] else Bucket(rows, b))
    case Unknown => if rows == [] then Some([]) else None
  }

  // ---------------------------------------------------------------- the bucketings are proper

  lemma FloorOrder(s: int, t: int, width: int)
    requires 0 < width && s <= t
    ensures FloorTo(s, width) <= FloorTo(t, width)
  {
    QuotientOrder(s, t, width);
    MulOrder(s / width, t / width, width);
  }

  lemma QuotientOrder(s: int, t: int, d: int)
    requires 0 < d && s <= t
    ensures s / d <= t / d
  {
    var q, r, q', r' := s / d, s % d, t / d, t % d;
    assert s == q * d + r && t == q' * d + r';
    MulOrder(q', q, d);
  }

  lemma FloorOfFloor(t: int, width: int)
    requires 0 < width
    ensures FloorTo(FloorTo(t, width), width) == FloorTo(t, width)
  {
    DivModUnique(t / width * width, width, t / width, 0);
  }

  lemma WindowsConvex(s: int, t: int, u: int, width: int)
    requires 0 < width && s <= t <= u && FloorTo(s, width) == FloorTo(u, width)
    ensures FloorTo(t, width) == FloorTo(s, width)
  {
    FloorOrder(s, t, width);
    FloorOrder(t, u, width);
  }

  lemma WindowsOrdered(s: int, t: int, width: int)
    requires 0 < width && s < t && FloorTo(s, width) != FloorTo(t, width)
    ensures FloorTo(s, width) < FloorTo(t, width)
  {
    FloorOrder(s, t, width);
  }

  lemma IntradayContiguous(width: int)
    requires 0 < width
    ensures Contiguous(Intraday(width))
  {
    var b := Intraday(width);
    forall s, t, u | s <= t <= u && b.key(s) == b.key(u) ensures b.key(t) == b.key(s) {
      WindowsConvex(s, t, u, width);
    }
  }

  lemma IntradayStampsStay(width: int)
    requires 0 < width
    ensures StampsStay(Intraday(width))
  {
    forall t ensures Intraday(width).key(Intraday(width).stamp(t)) == Intraday(width).key(t) {
      FloorOfFloor(t, width);
    }
  }

  lemma IntradayStampsFollow(width: int)
    requires 0 < width
    ensures StampsFollow(Intraday(width))
  {
    var b := Intraday(width);
    forall s, t | s < t && b.key(s) != b.key(t) ensures b.stamp(s) < b.stamp(t) {
      WindowsOrdered(s, t, width);
    }
  }

  lemma IntradayProper(width: int)
    requires 0 < width
    ensures Proper(Intraday(width))
  {
    IntradayContiguous(width);
    IntradayStampsStay(width);
    IntradayStampsFollow(width);
  }

  lemma DailyConvex(target: DailyTarget, dayOf: DayOf, s: int, t: int, u: int)
    requires CalendarDays(dayOf) && s <= t <= u
    requires DateKey(target, Max(1, dayOf(s))) == DateKey(target, Max(1, dayOf(u)))
    ensures DateKey(target, Max(1, dayOf(t))) == DateKey(target, Max(1, dayOf(s)))
  {
    assert dayOf(s) <= dayOf(t) && dayOf(t) <= dayOf(u);
    DateKeyConvex(target, Max(1, dayOf(s)), Max(1, dayOf(t)), Max(1, dayOf(u)));
  }

  lemma DailyProper(target: DailyTarget, dayOf: DayOf)
    requires CalendarDays(dayOf)
    ensures Proper(Daily(target, dayOf))
  {
    var b := Daily(target, dayOf);
    forall s, t, u | s <= t <= u && b.key(s) == b.key(u) ensures b.key(t) == b.key(s) {
      DailyConvex(target, dayOf, s, t, u);
    }
  }

  lemma PlanProper(tf: string, dayOf: DayOf)
    requires CalendarDays(dayOf) && PlanFor(tf, dayOf).Group?
    ensures Proper(PlanFor(tf, dayOf).b)
  {
    if IntradayWidth(tf).Some? {
      IntradayProper(IntradayWidth(tf).value);
    } else {
      DailyProper(DailyTargetOf(tf).value, dayOf);
    }
  }

  lemma GroupedIsFold(base: seq<Row>, b: Bucketing)
    requires Proper(b)
    ensures (if Normalize(base) == [] then [] else Bucket(Normalize(base), b)) == Fold(Normalize(base), b)
    ensures Ascending(Fold(Normalize(base), b))
  {
    NormalizeIs(base);
    BucketIsFold(Normalize(base), b);
  }

  // A grouped answer is the fold of the normalised input.
  lemma AggregateIsFold(base: seq<Row>, tf: string, dayOf: DayOf)
    requires CalendarDays(dayOf) && PlanFor(tf, dayOf).Group?
    ensures var b := PlanFor(tf, dayOf).b;
            && Proper(b)
            && Aggregate(base, tf, dayOf) == Some(Fold(Normalize(base), b))
            && Ascending(Fold(Normalize(base), b))
  {
    PlanProper(tf, dayOf);
    GroupedIsFold(base, PlanFor(tf, dayOf).b);
  }

  // ---------------------------------------------------------------- guarantees on any frame

  // Only the last-wins map of the input matters: row order and superseded duplicates do not.
  lemma DependsOnLastWins(base: seq<Row>, base': seq<Row>, tf: string, dayOf: DayOf)
    requires LastWins(base) == LastWins(base')
    ensures Aggregate(base, tf, dayOf) == Aggregate(base', tf, dayOf)
  {
    NormalizeIs(base);
    NormalizeIs(base');
  }

  // In particular any reordering that keeps the order of rows with equal timestamps.
  lemma StableReorderingIsHarmless(base: seq<Row>, base': seq<Row>, tf: string, dayOf: DayOf)
    requires forall t :: RowsAt(base, t) == RowsAt(base', t)
    ensures Aggregate(base, tf, dayOf) == Aggregate(base', tf, dayOf)
  {
    forall t ensures t in LastWins(base) <==> t in LastWins(base')
             ensures t in LastWins(base) ==> LastWins(base)[t] == LastWins(base')[t] {
      LastWinsOfTime(base, t);
      LastWinsOfTime(base', t);
    }
    assert LastWins(base) == LastWins(base');
    DependsOnLastWins(base, base', tf, dayOf);
  }

  // The deduplicated rows are partitioned into contiguous runs, each output row is the
  // summary of its run, output times strictly ascend and volume is conserved.
  lemma AggregatePartitions(base: seq<Row>, tf: string, dayOf: DayOf) returns (runs: seq<Run>)
    requires CalendarDays(dayOf) && PlanFor(tf, dayOf).Group?
    ensures var b := PlanFor(tf, dayOf).b;
            && Aggregate(base, tf, dayOf).Some?
            && var out := Aggregate(base, tf, dayOf).value;
            && AreRuns(runs, Normalize(base), b)
            && |out| == |runs|
            && (forall i :: 0 <= i < |runs| ==> Summarises(out[i], runs[i], b))
            && Ascending(out)
            && Volume(out) == Volume(Normalize(base))
            && (AllSane(Normalize(base)) ==> AllSane(out))
  {
    var b := PlanFor(tf, dayOf).b;
    AggregateIsFold(base, tf, dayOf);
    NormalizeIs(base);
    BucketIsFold(Normalize(base), b);
    runs := BucketPartitions(Normalize(base), b);
    FoldConservesVolume(Normalize(base), b);
    if AllSane(Normalize(base)) { FoldKeepsSane(Normalize(base), b); }
  }

  // ---------------------------------------------------------------- what the answer is, target by target

  lemma IntradayIsSpelled(tf: string)
    ensures IntradayWidth(tf).Some? <==> tf in {"5", "15", "30", "1h", "2h", "4h", "8h"}
    ensures IntradayWidth(tf).Some? ==> IntradayWidth(tf) == Spelled(tf)
  {
    TableIsSpelled();
  }

  // Native targets pass through, nothing else but the seven widths and three calendar targets
  // is known, and an unknown target raises unless the frame is empty.
  lemma AggregateAnswers(base: seq<Row>, tf: string, dayOf: DayOf)
    ensures tf in {"1", "1D"} ==> Aggregate(base, tf, dayOf) == Some(Normalize(base))
    ensures base == [] ==> Aggregate(base, tf, dayOf) == Some([])
    ensures base != [] ==>
              (Aggregate(base, tf, dayOf).None?
               <==> tf !in {"1", "1D", "5", "15", "30", "1h", "2h", "4h", "8h", "3D", "1W", "1M"})
  {
    NormalizeTimes(base);
    assert base != [] ==> base[0].time in Times(base);
  }

  // out summarises the fixed windows of a width: each row is stamped with the opening second
  // of its window, holds exactly the rows inside it, and no window repeats.
  ghost predicate FixedWindows(out: seq<Row>, runs: seq<Run>, width: int)
    requires 0 < width
  {
    && |out| == |runs|
    && Ascending(out)
    && (forall i :: 0 <= i < |runs| ==> out[i].time % width == 0)
    && (forall i, r :: 0 <= i < |runs| && r in runs[i] ==> out[i].time <= r.time < out[i].time + width)
  }

  lemma FloorBounds(t: int, width: int)
    requires 0 < width
    ensures FloorTo(t, width) % width == 0 && FloorTo(t, width) <= t < FloorTo(t, width) + width
  {
    DivModUnique(t / width * width, width, t / width, 0);
  }

  lemma RunInWindow(row: Row, run: Run, width: int, r: Row)
    requires 0 < width && Summarises(row, run, Intraday(width)) && r in run
    requires Intraday(width).key(r.time) == Intraday(width).key(run[0].time)
    ensures row.time % width == 0 && row.time <= r.time < row.time + width
  {
    FloorBounds(run[0].time, width);
    FloorBounds(r.time, width);
  }

  // An intraday target, said outright: the normalised rows cut into runs, one output row per
  // run with its open, close, extremes and volume, stamped with the opening second of the
  // window the run fills.
  lemma IntradayAnswer(base: seq<Row>, tf: string, dayOf: DayOf) returns (runs: seq<Run>)
    requires IntradayWidth(tf).Some?
    ensures var b := Intraday(IntradayWidth(tf).value);
            && Aggregate(base, tf, dayOf).Some?
            && var out := Aggregate(base, tf, dayOf).value;
            && AreRuns(runs, Normalize(base), b)
            && FixedWindows(out, runs, IntradayWidth(tf).value)
            && (forall i :: 0 <= i < |runs| ==> Summarises(out[i], runs[i], b))
  {
    AggregateIntraday(base, tf, dayOf);
    NormalizeIs(base);
    runs := WindowsOf(Normalize(base), IntradayWidth(tf).value);
  }

  lemma WindowsOf(rows: seq<Row>, width: int) returns (runs: seq<Run>)
    requires 0 < width && Ascending(rows)
    ensures var b := Intraday(width);
            && AreRuns(runs, rows, b)
            && FixedWindows(Fold(rows, b), runs, width)
            && (forall i :: 0 <= i < |runs| ==> Summarises(Fold(rows, b)[i], runs[i], b))
  {
    var b := Intraday(width);
    IntradayProper(width);
    BucketIsFold(rows, b);
    runs := BucketPartitions(rows, b);
    InWindows(Fold(rows, b), runs, rows, width);
  }

  lemma InWindows(out: seq<Row>, runs: seq<Run>, rows: seq<Row>, width: int)
    requires 0 < width && AreRuns(runs, rows, Intraday(width)) && Ascending(out) && |out| == |runs|
    requires forall i :: 0 <= i < |runs| ==> Summarises(out[i], runs[i], Intraday(width))
    ensures FixedWindows(out, runs, width)
  {
    forall i, r | 0 <= i < |runs| && r in runs[i]
      ensures out[i].time % width == 0 && out[i].time <= r.time < out[i].time + width
    {
      RunInWindow(out[i], runs[i], width, r);
    }
    forall i | 0 <= i < |runs| ensures out[i].time % width == 0 {
      assert runs[i][0] in runs[i];
    }
  }

  // Every bucket time of an intraday target the cache knows is a slot of its grid, and every
  // slot is its own bucket time: the engine and the cache agree on where bars open.
  lemma BucketsOnCacheGrid(base: seq<Row>, tf: string, dayOf: DayOf, ts: int)
    requires IntradayWidth(tf).Some? && GridOf(tf).Some?
    ensures Aggregate(base, tf, dayOf).Some?
    ensures forall row :: row in Aggregate(base, tf, dayOf).value ==> OnGrid(row.time, GridOf(tf).value)
    ensures OnGrid(ts, GridOf(tf).value) <==> Aggregate([Row(ts, 0.0, 0.0, 0.0, 0.0, 0.0)], tf, dayOf)
                                              == Some([Row(ts, 0.0, 0.0, 0.0, 0.0, 0.0)])
  {
    var runs := IntradayAnswer(base, tf, dayOf);
    forall row | row in Aggregate(base, tf, dayOf).value ensures OnGrid(row.time, GridOf(tf).value) {
      SlotsOfWidth(tf, row.time);
    }
    SlotsOfWidth(tf, ts);
    OneRowAggregates(Row(ts, 0.0, 0.0, 0.0, 0.0, 0.0), tf, dayOf);
    OwnFloor(ts, IntradayWidth(tf).value);
  }

  lemma SlotsOfWidth(tf: string, ts: int)
    requires IntradayWidth(tf).Some? && GridOf(tf).Some?
    ensures OnGrid(ts, GridOf(tf).value) <==> ts % IntradayWidth(tf).value == 0
  {
    IntradayIsSpelled(tf);
    SecondsAreSpelled(tf);
    GridIsSpelled(tf, ts);
  }

  lemma OwnFloor(ts: int, width: int)
    requires 0 < width
    ensures FloorTo(ts, width) == ts <==> ts % width == 0
  {
    assert ts == ts / width * width + ts % width;
  }

  lemma OneRowAggregates(r: Row, tf: string, dayOf: DayOf)
    requires IntradayWidth(tf).Some?
    ensures Aggregate([r], tf, dayOf) == Some([r.(time := FloorTo(r.time, IntradayWidth(tf).value))])
  {
    AggregateIntraday([r], tf, dayOf);
    NormalizeAscending([r]);
    assert [r][..0] == [];
  }

  // Two sessions share a bucket exactly when they lie in one Monday to Sunday week, one month,
  // or one three-day group counted from 0001-01-01 (days below the first count as the first).
  lemma CalendarGroups(tf: string, dayOf: DayOf, s: int, t: int)
    requires DailyTargetOf(tf).Some?
    ensures tf in {"3D", "1W", "1M"} && PlanFor(tf, dayOf).Group?
    ensures var b := PlanFor(tf, dayOf).b;
            var d, d' := Max(1, dayOf(s)), Max(1, dayOf(t));
            b.key(s) == b.key(t)
            <==> if tf == "1W" then MondayOf(d) == MondayOf(d')
                 else if tf == "1M" then MonthKey(d) == MonthKey(d')
                 else d / 3 == d' / 3
  {
    var d, d' := Max(1, dayOf(s)), Max(1, dayOf(t));
    IsoWeekExact(d, d');
    ThreeDayExact(d, d');
  }

  // A calendar target, said outright: each output row carries the time of the earliest session
  // of its run.
  lemma CalendarAnswer(base: seq<Row>, tf: string, dayOf: DayOf) returns (runs: seq<Run>)
    requires CalendarDays(dayOf) && DailyTargetOf(tf).Some?
    ensures var b := Daily(DailyTargetOf(tf).value, dayOf);
            && Aggregate(base, tf, dayOf).Some?
            && var out := Aggregate(base, tf, dayOf).value;
            && AreRuns(runs, Normalize(base), b)
            && |out| == |runs|
            && (forall i :: 0 <= i < |runs| ==>
                  && Summarises(out[i], runs[i], b)
                  && out[i].time == runs[i][0].time
                  && forall r :: r in runs[i] ==> out[i].time <= r.time)
  {
    PlanForDaily(tf, dayOf);
    runs := AggregatePartitions(base, tf, dayOf);
    forall i | 0 <= i < |runs| ensures forall r :: r in runs[i] ==> runs[i][0].time <= r.time {
      MinTimeLeast(runs[i]);
    }
  }

  lemma PlanForDaily(tf: string, dayOf: DayOf)
    requires DailyTargetOf(tf).Some?
    ensures PlanFor(tf, dayOf) == Group(Daily(DailyTargetOf(tf).value, dayOf))
  {
  }

  // ---------------------------------------------------------------- composition of widths

  lemma NestedFloors(t: int, width: int, factor: int)
    requires 0 < width && 0 < factor
    ensures t / width * width / (factor * width) == t / (factor * width)
  {
    var q, r := t / width, t % width;
    var big := factor * width;
    var q2, r2 := q / factor, q % factor;
    assert big > 0 by { MulOrder(1, factor, width); }
    assert q * width == q2 * big + r2 * width by {
      assert q == q2 * factor + r2;
      assert q * width == (q2 * factor) * width + r2 * width;
      assert (q2 * factor) * width == q2 * big;
    }
    MulOrder(r2, factor, width);
    MulOrder(0, r2, width);
    DivModUnique(q * width, big, q2, r2 * width);
    DivModUnique(t, big, q2, r2 * width + r);
  }

  lemma WidthsNest(width: int, factor: int)
    requires 0 < width && 0 < factor
    ensures factor * width > 0 && Nests(Intraday(width), Intraday(factor * width))
  {
    MulOrder(1, factor, width);
    var fine, coarse := Intraday(width), Intraday(factor * width);
    forall t ensures coarse.key(fine.stamp(t)) == coarse.key(t) && coarse.stamp(fine.stamp(t)) == coarse.stamp(t) {
      NestedFloors(t, width, factor);
    }
    forall s, t | fine.key(s) == fine.key(t) ensures coarse.key(s) == coarse.key(t) {
      NestedFloors(s, width, factor);
      NestedFloors(t, width, factor);
    }
  }

  // The seven intraday widths form a chain under division.
  function WidthFactor(tf: string, tf': string): int
    requires IntradayWidth(tf).Some? && IntradayWidth(tf').Some?
    requires IntradayWidth(tf).value <= IntradayWidth(tf').value
    ensures WidthFactor(tf, tf') >= 1
    ensures WidthFactor(tf, tf') * IntradayWidth(tf).value == IntradayWidth(tf').value
  {
    IntradayWidth(tf').value / IntradayWidth(tf).value
  }

  lemma PlanForIntraday(tf: string, dayOf: DayOf)
    requires IntradayWidth(tf).Some?
    ensures PlanFor(tf, dayOf) == Group(Intraday(IntradayWidth(tf).value))
  {
  }

  lemma AggregateIntraday(base: seq<Row>, tf: string, dayOf: DayOf)
    requires IntradayWidth(tf).Some?
    ensures Aggregate(base, tf, dayOf) == Some(Fold(Normalize(base), Intraday(IntradayWidth(tf).value)))
    ensures Ascending(Fold(Normalize(base), Intraday(IntradayWidth(tf).value)))
  {
    var b := Intraday(IntradayWidth(tf).value);
    assert Proper(b) by { IntradayProper(IntradayWidth(tf).value); }
    PlanForIntraday(tf, dayOf);
    GroupedIsFold(base, b);
  }

  // Aggregating to one intraday width and then to a wider one is aggregating to the wider
  // one directly, in every field; aggregating twice to one width is aggregating once.
  lemma AggregateComposes(base: seq<Row>, tf: string, tf': string, dayOf: DayOf)
    requires IntradayWidth(tf).Some? && IntradayWidth(tf').Some?
    requires IntradayWidth(tf).value <= IntradayWidth(tf').value
    ensures Aggregate(base, tf, dayOf).Some?
    ensures Aggregate(Aggregate(base, tf, dayOf).value, tf', dayOf) == Aggregate(base, tf', dayOf)
  {
    var fine, coarse := IntradayWidth(tf).value, IntradayWidth(tf').value;
    AggregateIntraday(base, tf, dayOf);
    AggregateIntraday(base, tf', dayOf);
    var mid := Fold(Normalize(base), Intraday(fine));
    AggregateIntraday(mid, tf', dayOf);
    NormalizeAscending(mid);
    IntradayProper(coarse);
    WidthsNest(fine, WidthFactor(tf, tf'));
    FoldComposes(Normalize(base), Intraday(fine), Intraday(coarse));
  }
}
