// Grouping an ascending bar series into buckets: the group-by the engine performs, the
// one-pass fold it amounts to, and the algebra of the fold.

module Buckets {
  import opened Rows
  import Normalization

  // Bucket identities: a number (fixed windows, three-day grid) or a pair (ISO year and week,
  // year and month).
  datatype BucketKey = Single(n: int) | Pair(major: int, minor: int)

  // key says which bucket a timestamp belongs to; stamp turns the first timestamp of a bucket
  // into the bucket's own time.
  datatype Bucketing = Bucketing(key: int -> BucketKey, stamp: int -> int)

  // Buckets are contiguous in time, ...
  ghost predicate Contiguous(b: Bucketing) {
    forall s, t, u :: s <= t <= u && b.key(s) == b.key(u) ==> b.key(t) == b.key(s)
  }

  // ... stamps stay in their bucket ...
  ghost predicate StampsStay(b: Bucketing) {
    forall t :: b.key(b.stamp(t)) == b.key(t)
  }

  // ... and follow bucket order.
  ghost predicate StampsFollow(b: Bucketing) {
    forall s, t :: s < t && b.key(s) != b.key(t) ==> b.stamp(s) < b.stamp(t)
  }

  ghost predicate Proper(b: Bucketing) {
    Contiguous(b) && StampsStay(b) && StampsFollow(b)
  }

  // ---------------------------------------------------------------- the group-by

  function RMax(x: real, y: real): real { if x < y then y else x }

  function RMin(x: real, y: real): real { if y < x then y else x }

  // The rows of one bucket.
  type Run = rows: seq<Row> | rows != [] witness [Row(0, 0.0, 0.0, 0.0, 0.0, 0.0)]

  function MinTime(rows: Run): int {
    if |rows| == 1 then rows[0].time else Min(MinTime(rows[..|rows| - 1]), rows[|rows| - 1].time)
  }

  function MaxHigh(rows: Run): real {
    if |rows| == 1 then rows[0].high else RMax(MaxHigh(rows[..|rows| - 1]), rows[|rows| - 1].high)
  }

  function MinLow(rows: Run): real {
    if |rows| == 1 then rows[0].low else RMin(MinLow(rows[..|rows| - 1]), rows[|rows| - 1].low)
  }

  function Volume(rows: seq<Row>): real {
    if rows == [] then 0.0 else Volume(rows[..|rows| - 1]) + rows[|rows| - 1].volume
  }

  // open first, high max, low min, close last, volume sum.
  function Summary(rows: Run, b: Bucketing): Row {
    Row(b.stamp(MinTime(rows)), rows[0].open, MaxHigh(rows), MinLow(rows), rows[|rows| - 1].close, Volume(rows))
  }

  lemma {:induction false} FilterDrops(rows: seq<Row>, p: Row -> bool, r: Row)
    requires r in rows && !p(r)
    ensures |Filter(rows, p)| < |rows|
  {
    var init, last := rows[..|rows| - 1], rows[|rows| - 1];
    if r in init {
      FilterDrops(init, p, r);
    } else {
      assert r == last;
    }
  }

  lemma FilterHead(rows: seq<Row>, p: Row -> bool)
    requires rows != [] && p(rows[0])
    ensures Filter(rows, p) != [] && Filter(rows, p)[0] == rows[0]
  {
    assert rows == [rows[0]] + rows[1..];
    FilterAppend([rows[0]], rows[1..], p);
    assert Filter([rows[0]], p) == [rows[0]] by { assert [rows[0]][..0] == []; }
  }

  function InBucket(b: Bucketing, k: BucketKey): Row -> bool {
    (r: Row) => b.key(r.time) == k
  }

  function OutOfBucket(b: Bucketing, k: BucketKey): Row -> bool {
    (r: Row) => b.key(r.time) != k
  }

  // groupby: the buckets in order of first appearance, each with all its rows in order.
  function Groups(rows: seq<Row>, b: Bucketing): seq<Run>
    decreases |rows|
  {
    if rows == [] then []
    else
      var k := b.key(rows[0].time);
      FilterDrops(rows, OutOfBucket(b, k), rows[0]);
      FilterHead(rows, InBucket(b, k));
      [Filter(rows, InBucket(b, k))] + Groups(Filter(rows, OutOfBucket(b, k)), b)
  }

  function Summaries(groups: seq<Run>, b: Bucketing): (out: seq<Row>)
    ensures |out| == |groups|
    ensures forall i :: 0 <= i < |groups| ==> out[i] == Summary(groups[i], b)
  {
    if groups == [] then []
    else Summaries(groups[..|groups| - 1], b) + [Summary(groups[|groups| - 1], b)]
  }

  // One summary row per bucket, sorted by bucket time.
  function Bucket(rows: seq<Row>, b: Bucketing): seq<Row> {
    Normalization.StableSort(Summaries(Groups(rows, b), b))
  }

  // ---------------------------------------------------------------- the fold

  function Merge(a: Row, r: Row): Row {
    Row(a.time, a.open, RMax(a.high, r.high), RMin(a.low, r.low), r.close, a.volume + r.volume)
  }

  function Absorb(acc: seq<Row>, r: Row, b: Bucketing): seq<Row> {
    if acc != [] && b.key(acc[|acc| - 1].time) == b.key(r.time)
    then acc[..|acc| - 1] + [Merge(acc[|acc| - 1], r)]
    else acc + [r.(time := b.stamp(r.time))]
  }

  // Reading the series once, extending the newest bucket or opening the next.
  function Fold(rows: seq<Row>, b: Bucketing): seq<Row> {
    if rows == [] then [] else Absorb(Fold(rows[..|rows| - 1], b), rows[|rows| - 1], b)
  }

  // ---------------------------------------------------------------- group-by = fold

  // Where a further row lands among existing groups.
  function Place(groups: seq<Run>, r: Row, b: Bucketing): seq<Run> {
    if groups == [] then [[r]]
    else if b.key(groups[0][0].time) == b.key(r.time) then [groups[0] + [r]] + groups[1..]
    else [groups[0]] + Place(groups[1..], r, b)
  }

  // The group list after one more row, when only the last run can take it.
  function Snoc(groups: seq<Run>, r: Row, b: Bucketing): seq<Run> {
    if groups != [] && b.key(groups[|groups| - 1][0].time) == b.key(r.time)
    then groups[..|groups| - 1] + [groups[|groups| - 1] + [r]]
    else groups + [[r]]
  }

  lemma PlaceCons(g: Run, rest: seq<Run>, r: Row, b: Bucketing)
    ensures Place([g] + rest, r, b) ==
            if b.key(g[0].time) == b.key(r.time) then [g + [r]] + rest else [g] + Place(rest, r, b)
  {
    assert ([g] + rest)[1..] == rest;
  }

  lemma GroupsOne(r: Row, b: Bucketing)
    ensures Groups([r], b) == [[r]]
  {
    var k := b.key(r.time);
    FilterAll([r], InBucket(b, k));
    FilterNone([r], OutOfBucket(b, k));
  }

  lemma GroupsUnfold(rows: seq<Row>, b: Bucketing)
    requires rows != []
    ensures var k := b.key(rows[0].time);
            && Filter(rows, InBucket(b, k)) != [] && Filter(rows, InBucket(b, k))[0] == rows[0]
            && |Filter(rows, OutOfBucket(b, k))| < |rows|
            && Groups(rows, b) == [Filter(rows, InBucket(b, k))] + Groups(Filter(rows, OutOfBucket(b, k)), b)
  {
    FilterHead(rows, InBucket(b, b.key(rows[0].time)));
    FilterDrops(rows, OutOfBucket(b, b.key(rows[0].time)), rows[0]);
  }

  lemma {:induction false} GroupsSnoc(rows: seq<Row>, r: Row, b: Bucketing)
    ensures Groups(rows + [r], b) == Place(Groups(rows, b), r, b)
    decreases |rows|
  {
    if rows == [] {
      assert rows + [r] == [r];
      GroupsOne(r, b);
    } else {
      var k := b.key(rows[0].time);
      GroupsUnfold(rows, b);
      GroupsUnfold(rows + [r], b);
      FilterSnoc(rows, r, InBucket(b, k));
      FilterSnoc(rows, r, OutOfBucket(b, k));
      var own: Run := Filter(rows, InBucket(b, k));
      var rest := Filter(rows, OutOfBucket(b, k));
      PlaceCons(own, Groups(rest, b), r, b);
      if b.key(r.time) == k {
        assert rest + [] == rest;
      } else {
        assert own + [] == own;
        GroupsSnoc(rest, r, b);
      }
    }
  }

  lemma {:induction false} PlaceAtEnd(groups: seq<Run>, r: Row, b: Bucketing)
    requires forall i :: 0 <= i < |groups| - 1 ==> b.key(groups[i][0].time) != b.key(r.time)
    ensures Place(groups, r, b) == Snoc(groups, r, b)
  {
    if |groups| > 1 {
      PlaceAtEnd(groups[1..], r, b);
      assert groups == [groups[0]] + groups[1..];
      assert groups[..|groups| - 1] == [groups[0]] + groups[1..][..|groups[1..]| - 1];
    }
  }

  function Flatten(groups: seq<Run>): seq<Row> {
    if groups == [] then [] else Flatten(groups[..|groups| - 1]) + groups[|groups| - 1]
  }

  ghost predicate UniformKeys(groups: seq<Run>, b: Bucketing) {
    forall i, r :: 0 <= i < |groups| && r in groups[i] ==> b.key(r.time) == b.key(groups[i][0].time)
  }

  ghost predicate DistinctKeys(groups: seq<Run>, b: Bucketing) {
    forall i, j :: 0 <= i < j < |groups| ==> b.key(groups[i][0].time) != b.key(groups[j][0].time)
  }

  ghost predicate StartsAscend(groups: seq<Run>) {
    forall i, j :: 0 <= i < j < |groups| ==> groups[i][0].time < groups[j][0].time
  }

  ghost predicate StartsAreLeast(groups: seq<Run>) {
    forall i :: 0 <= i < |groups| ==> MinTime(groups[i]) == groups[i][0].time
  }

  // groups cuts rows into contiguous runs, one per bucket, in time order.
  ghost predicate AreRuns(groups: seq<Run>, rows: seq<Row>, b: Bucketing) {
    && Flatten(groups) == rows
    && UniformKeys(groups, b)
    && DistinctKeys(groups, b)
    && StartsAscend(groups)
    && StartsAreLeast(groups)
  }

  // The next row extends the last run ...
  lemma ExtendRun(groups: seq<Run>, rows: seq<Row>, r: Row, b: Bucketing)
    requires AreRuns(groups, rows, b) && groups != []
    requires b.key(groups[|groups| - 1][0].time) == b.key(r.time) && groups[|groups| - 1][0].time < r.time
    ensures AreRuns(groups[..|groups| - 1] + [groups[|groups| - 1] + [r]], rows + [r], b)
  {
    var n := |groups|;
    var longer: Run := groups[n - 1] + [r];
    var groups' := groups[..n - 1] + [longer];
    assert groups'[..n - 1] == groups[..n - 1];
    assert Flatten(groups') == rows + [r];
    assert longer[..|groups[n - 1]|] == groups[n - 1];
    assert longer[0] == groups[n - 1][0];
    assert MinTime(longer) == longer[0].time;
  }

  // ... or starts one of its own.
  lemma OpenRun(groups: seq<Run>, rows: seq<Row>, r: Row, b: Bucketing)
    requires AreRuns(groups, rows, b)
    requires forall i :: 0 <= i < |groups| ==> b.key(groups[i][0].time) != b.key(r.time) && groups[i][0].time < r.time
    ensures AreRuns(groups + [[r]], rows + [r], b)
  {
    var own: Run := [r];
    assert (groups + [own])[..|groups|] == groups;
  }

  lemma {:induction false} FlattenMembers(groups: seq<Run>, i: int)
    requires 0 <= i < |groups|
    ensures groups[i][0] in Flatten(groups)
  {
    if i < |groups| - 1 {
      assert groups[i] == groups[..|groups| - 1][i];
      FlattenMembers(groups[..|groups| - 1], i);
    }
  }

  lemma StartsBefore(groups: seq<Run>, rows: seq<Row>, t: int, b: Bucketing)
    requires AreRuns(groups, rows, b) && (forall x :: x in rows ==> x.time < t)
    ensures forall i :: 0 <= i < |groups| ==> groups[i][0].time < t
  {
    forall i | 0 <= i < |groups| ensures groups[i][0].time < t {
      FlattenMembers(groups, i);
    }
  }

  // Only the last run can share a bucket with a later row.
  lemma OnlyLastMatches(groups: seq<Run>, r: Row, b: Bucketing)
    requires Proper(b) && DistinctKeys(groups, b) && StartsAscend(groups)
    requires forall i :: 0 <= i < |groups| ==> groups[i][0].time < r.time
    ensures forall i :: 0 <= i < |groups| - 1 ==> b.key(groups[i][0].time) != b.key(r.time)
  {
    forall i | 0 <= i < |groups| - 1 ensures b.key(groups[i][0].time) != b.key(r.time) {
      var last := |groups| - 1;
      assert groups[i][0].time < groups[last][0].time;
      assert b.key(groups[i][0].time) != b.key(groups[last][0].time);
    }
  }

  lemma SummaryMerges(run: Run, r: Row, b: Bucketing)
    requires MinTime(run) <= r.time
    ensures Summary(run + [r], b) == Merge(Summary(run, b), r)
  {
    var longer: Run := run + [r];
    assert longer[..|run|] == run;
  }

  lemma SummaryOpens(r: Row, b: Bucketing)
    ensures Summary([r], b) == r.(time := b.stamp(r.time))
  {
    assert [r][..0] == [];
    assert Volume([r]) == r.volume;
  }

  lemma SummariesAppend(groups: seq<Run>, g: Run, b: Bucketing)
    ensures Summaries(groups + [g], b) == Summaries(groups, b) + [Summary(g, b)]
  {
    assert (groups + [g])[..|groups|] == groups;
  }

  lemma AbsorbIntoLast(acc: seq<Row>, x: Row, r: Row, b: Bucketing)
    requires b.key(x.time) == b.key(r.time)
    ensures Absorb(acc + [x], r, b) == acc + [Merge(x, r)]
  {
    assert (acc + [x])[..|acc|] == acc;
  }

  lemma SummaryKey(run: Run, b: Bucketing)
    requires Proper(b) && MinTime(run) == run[0].time
    ensures b.key(Summary(run, b).time) == b.key(run[0].time)
  {
  }

  lemma SummariesSnoc(groups: seq<Run>, r: Row, b: Bucketing)
    requires Proper(b) && StartsAreLeast(groups)
    requires forall i :: 0 <= i < |groups| ==> groups[i][0].time < r.time
    ensures Summaries(Snoc(groups, r, b), b) == Absorb(Summaries(groups, b), r, b)
  {
    if groups == [] {
      SummaryOpens(r, b);
      SummariesAppend([], [r], b);
    } else {
      var init, last := groups[..|groups| - 1], groups[|groups| - 1];
      assert groups == init + [last];
      SnocSummaries(init, last, r, b);
    }
  }

  lemma SnocSummaries(init: seq<Run>, last: Run, r: Row, b: Bucketing)
    requires Proper(b) && MinTime(last) == last[0].time && last[0].time < r.time
    ensures Summaries(Snoc(init + [last], r, b), b) == Absorb(Summaries(init + [last], b), r, b)
  {
    SummariesAppend(init, last, b);
    SummaryKey(last, b);
    assert (init + [last])[..|init|] == init;
    if b.key(last[0].time) == b.key(r.time) {
      SummariesAppend(init, last + [r], b);
      SummaryMerges(last, r, b);
      AbsorbIntoLast(Summaries(init, b), Summary(last, b), r, b);
    } else {
      SummariesAppend(init + [last], [r], b);
      SummaryOpens(r, b);
    }
  }

  lemma NextRow(groups: seq<Run>, rows: seq<Row>, r: Row, b: Bucketing)
    requires Proper(b) && AreRuns(groups, rows, b)
    requires forall x :: x in rows ==> x.time < r.time
    ensures AreRuns(Place(groups, r, b), rows + [r], b)
    ensures Summaries(Place(groups, r, b), b) == Absorb(Summaries(groups, b), r, b)
  {
    StartsBefore(groups, rows, r.time, b);
    OnlyLastMatches(groups, r, b);
    PlaceAtEnd(groups, r, b);
    SummariesSnoc(groups, r, b);
    if groups != [] && b.key(groups[|groups| - 1][0].time) == b.key(r.time) {
      ExtendRun(groups, rows, r, b);
    } else {
      OpenRun(groups, rows, r, b);
    }
  }

  // Over an ascending series the group-by yields contiguous runs, and its summaries are what
  // the one-pass fold computes.
  lemma {:induction false} GroupsAreRuns(rows: seq<Row>, b: Bucketing)
    requires Proper(b) && Ascending(rows)
    ensures AreRuns(Groups(rows, b), rows, b)
    ensures Summaries(Groups(rows, b), b) == Fold(rows, b)
  {
    if rows != [] {
      var init, r := rows[..|rows| - 1], rows[|rows| - 1];
      assert rows == init + [r];
      GroupsAreRuns(init, b);
      GroupsSnoc(init, r, b);
      NextRow(Groups(init, b), init, r, b);
    }
  }
}
