// What bucketing guarantees: the meaning of each output row, conservation of volume,
// composition of widths, and incremental maintenance.

module BucketLaws {
  import opened Rows
  import Normalization
  import opened Buckets

  // ---------------------------------------------------------------- output order

  lemma SummariesAscend(groups: seq<Run>, b: Bucketing)
    requires Proper(b) && DistinctKeys(groups, b) && StartsAscend(groups) && StartsAreLeast(groups)
    ensures Ascending(Summaries(groups, b))
  {
    forall i, j | 0 <= i < j < |groups| ensures Summaries(groups, b)[i].time < Summaries(groups, b)[j].time {
      assert groups[i][0].time < groups[j][0].time;
    }
  }

  // Over an ascending series, bucketing is the one-pass fold and its times strictly ascend.
  lemma BucketIsFold(rows: seq<Row>, b: Bucketing)
    requires Proper(b) && Ascending(rows)
    ensures Bucket(rows, b) == Fold(rows, b)
    ensures Ascending(Fold(rows, b))
  {
    GroupsAreRuns(rows, b);
    SummariesAscend(Groups(rows, b), b);
    Normalization.SortOfAscending(Summaries(Groups(rows, b), b));
  }

  // ---------------------------------------------------------------- the meaning of an output row

  // row summarises run: opens with its first row, closes with its last, spans exactly its
  // extremes (each attained by a constituent), and carries its whole volume.
  ghost predicate Summarises(row: Row, run: Run, b: Bucketing) {
    && row.time == b.stamp(run[0].time)
    && row.open == run[0].open
    && row.close == run[|run| - 1].close
    && (forall r :: r in run ==> r.high <= row.high && row.low <= r.low)
    && (exists r :: r in run && r.high == row.high)
    && (exists r :: r in run && r.low == row.low)
    && row.volume == Volume(run)
  }

  lemma {:induction false} HighLow(run: Run)
    ensures forall r :: r in run ==> r.high <= MaxHigh(run) && MinLow(run) <= r.low
    ensures exists r :: r in run && r.high == MaxHigh(run)
    ensures exists r :: r in run && r.low == MinLow(run)
  {
    if |run| == 1 {
      assert run[0] in run;
    } else {
      var init: Run := run[..|run| - 1];
      var last := run[|run| - 1];
      HighLow(init);
      assert forall r :: r in run <==> r in init || r == last;
    }
  }

  // The output rows are the summaries of contiguous runs that partition the series, one run
  // per bucket in time order.
  lemma BucketPartitions(rows: seq<Row>, b: Bucketing) returns (runs: seq<Run>)
    requires Proper(b) && Ascending(rows)
    ensures AreRuns(runs, rows, b)
    ensures |Bucket(rows, b)| == |runs|
    ensures forall i :: 0 <= i < |runs| ==> Summarises(Bucket(rows, b)[i], runs[i], b)
  {
    runs := Groups(rows, b);
    GroupsAreRuns(rows, b);
    BucketIsFold(rows, b);
    forall i | 0 <= i < |runs| ensures Summarises(Bucket(rows, b)[i], runs[i], b) {
      HighLow(runs[i]);
    }
  }

  lemma {:induction false} MinTimeLeast(run: Run)
    ensures forall x :: x in run ==> MinTime(run) <= x.time
  {
    if |run| > 1 {
      var init: Run := run[..|run| - 1];
      MinTimeLeast(init);
      assert forall x :: x in run <==> x in init || x == run[|run| - 1];
    }
  }

  lemma VolumeSnoc(rows: seq<Row>, r: Row)
    ensures Volume(rows + [r]) == Volume(rows) + r.volume
  {
    assert (rows + [r])[..|rows|] == rows;
  }

  lemma AbsorbVolume(acc: seq<Row>, r: Row, b: Bucketing)
    ensures Volume(Absorb(acc, r, b)) == Volume(acc) + r.volume
  {
    if acc != [] && b.key(acc[|acc| - 1].time) == b.key(r.time) {
      var init, last := acc[..|acc| - 1], acc[|acc| - 1];
      VolumeSnoc(init, Merge(last, r));
    } else {
      VolumeSnoc(acc, r.(time := b.stamp(r.time)));
    }
  }

  // No volume appears or disappears.
  lemma {:induction false} FoldConservesVolume(rows: seq<Row>, b: Bucketing)
    ensures Volume(Fold(rows, b)) == Volume(rows)
  {
    if rows != [] {
      FoldConservesVolume(rows[..|rows| - 1], b);
      AbsorbVolume(Fold(rows[..|rows| - 1], b), rows[|rows| - 1], b);
    }
  }

  // A candle whose extremes bracket its open and close.
  ghost predicate Sane(r: Row) {
    r.low <= r.open <= r.high && r.low <= r.close <= r.high
  }

  ghost predicate AllSane(rows: seq<Row>) {
    forall i :: 0 <= i < |rows| ==> Sane(rows[i])
  }

  lemma {:induction false} FoldKeepsSane(rows: seq<Row>, b: Bucketing)
    requires AllSane(rows)
    ensures AllSane(Fold(rows, b))
  {
    if rows != [] {
      FoldKeepsSane(rows[..|rows| - 1], b);
    }
  }

  // ---------------------------------------------------------------- splitting at a bucket boundary

  lemma {:induction false} FoldLastKey(rows: seq<Row>, b: Bucketing)
    requires Proper(b) && rows != []
    ensures Fold(rows, b) != []
    ensures b.key(Fold(rows, b)[|Fold(rows, b)| - 1].time) == b.key(rows[|rows| - 1].time)
  {
  }

  lemma AbsorbConcat(xs: seq<Row>, acc: seq<Row>, r: Row, b: Bucketing)
    requires acc != [] || (xs != [] ==> b.key(xs[|xs| - 1].time) != b.key(r.time))
    ensures Absorb(xs + acc, r, b) == xs + Absorb(acc, r, b)
  {
    if acc == [] {
      assert xs + acc == xs;
    } else {
      assert (xs + acc)[..|xs + acc| - 1] == xs + acc[..|acc| - 1];
    }
  }

  lemma FoldConcatStep(xs: seq<Row>, init: seq<Row>, r: Row, b: Bucketing)
    requires Proper(b) && Fold(xs + init, b) == Fold(xs, b) + Fold(init, b)
    requires xs != [] && init == [] ==> b.key(xs[|xs| - 1].time) != b.key(r.time)
    ensures Fold((xs + init) + [r], b) == Fold(xs, b) + Fold(init + [r], b)
  {
    FoldSnoc(xs + init, r, b);
    FoldSnoc(init, r, b);
    if init != [] { FoldLastKey(init, b); }
    if xs != [] { FoldLastKey(xs, b); }
    AbsorbConcat(Fold(xs, b), Fold(init, b), r, b);
  }

  // A series cut where the bucket changes folds piece by piece.
  lemma {:induction false} FoldConcat(xs: seq<Row>, ys: seq<Row>, b: Bucketing)
    requires Proper(b)
    requires xs != [] && ys != [] ==> b.key(xs[|xs| - 1].time) != b.key(ys[0].time)
    ensures Fold(xs + ys, b) == Fold(xs, b) + Fold(ys, b)
  {
    if ys == [] {
      assert xs + ys == xs;
      assert Fold(xs, b) + [] == Fold(xs, b);
    } else {
      var init, r := ys[..|ys| - 1], ys[|ys| - 1];
      assert xs + ys == (xs + init) + [r] && ys == init + [r];
      FoldConcat(xs, init, b);
      FoldConcatStep(xs, init, r, b);
    }
  }

  // ---------------------------------------------------------------- composition

  // Every fine bucket lies in one coarse bucket.
  ghost predicate Nests(fine: Bucketing, coarse: Bucketing) {
    && (forall t :: coarse.key(fine.stamp(t)) == coarse.key(t) && coarse.stamp(fine.stamp(t)) == coarse.stamp(t))
    && (forall s, t :: fine.key(s) == fine.key(t) ==> coarse.key(s) == coarse.key(t))
  }

  lemma AbsorbLastKey(acc: seq<Row>, r: Row, b: Bucketing)
    requires Proper(b)
    ensures Absorb(acc, r, b) != [] && b.key(Absorb(acc, r, b)[|Absorb(acc, r, b)| - 1].time) == b.key(r.time)
  {
  }

  lemma MergeAssociative(p: Row, a: Row, r: Row)
    ensures Merge(Merge(p, a), r) == Merge(p, Merge(a, r))
  {
  }

  // Merging before or after bucketing is the same.
  lemma AbsorbMerged(acc: seq<Row>, a: Row, r: Row, b: Bucketing)
    requires Proper(b) && b.key(a.time) == b.key(r.time)
    ensures Absorb(acc, Merge(a, r), b) == Absorb(Absorb(acc, a, b), r, b)
  {
    var one := Absorb(acc, a, b);
    AbsorbLastKey(acc, a, b);
    if acc != [] && b.key(acc[|acc| - 1].time) == b.key(a.time) {
      assert one[..|one| - 1] == acc[..|acc| - 1];
      MergeAssociative(acc[|acc| - 1], a, r);
    } else {
      assert one[..|one| - 1] == acc;
    }
  }

  lemma FoldSnoc(rows: seq<Row>, r: Row, b: Bucketing)
    ensures Fold(rows + [r], b) == Absorb(Fold(rows, b), r, b)
  {
    assert (rows + [r])[..|rows|] == rows;
  }

  lemma ComposeStep(acc: seq<Row>, r: Row, fine: Bucketing, coarse: Bucketing)
    requires Proper(coarse) && Nests(fine, coarse)
    ensures Fold(Absorb(acc, r, fine), coarse) == Absorb(Fold(acc, coarse), r, coarse)
  {
    if acc != [] && fine.key(acc[|acc| - 1].time) == fine.key(r.time) {
      var front, a := acc[..|acc| - 1], acc[|acc| - 1];
      assert acc == front + [a];
      FoldSnoc(front, a, coarse);
      FoldSnoc(front, Merge(a, r), coarse);
      AbsorbMerged(Fold(front, coarse), a, r, coarse);
    } else {
      FoldSnoc(acc, r.(time := fine.stamp(r.time)), coarse);
      AbsorbRestamped(Fold(acc, coarse), r, fine.stamp(r.time), coarse);
    }
  }

  // Bucketing finely and then coarsely is bucketing coarsely.
  lemma {:induction false} FoldComposes(rows: seq<Row>, fine: Bucketing, coarse: Bucketing)
    requires Proper(coarse) && Nests(fine, coarse)
    ensures Fold(Fold(rows, fine), coarse) == Fold(rows, coarse)
  {
    if rows != [] {
      FoldComposes(rows[..|rows| - 1], fine, coarse);
      ComposeStep(Fold(rows[..|rows| - 1], fine), rows[|rows| - 1], fine, coarse);
    }
  }

  // Absorbing a row only looks at its bucket and stamp, not at the exact time within it.
  lemma AbsorbRestamped(acc: seq<Row>, r: Row, t: int, b: Bucketing)
    requires b.key(t) == b.key(r.time) && b.stamp(t) == b.stamp(r.time)
    ensures Absorb(acc, r.(time := t), b) == Absorb(acc, r, b)
  {
  }
}
