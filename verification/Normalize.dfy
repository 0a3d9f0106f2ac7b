// Normalisation of a bar frame: stable sort by time, then the last row of each timestamp.

module Normalization {
  import opened Rows

  ghost predicate Nondecreasing(rows: seq<Row>) {
    forall i, j :: 0 <= i < j < |rows| ==> rows[i].time <= rows[j].time
  }

  // Behind every row that is not later.
  function InsertStable(rows: seq<Row>, r: Row): seq<Row> {
    if rows == [] || rows[|rows| - 1].time <= r.time then rows + [r]
    else InsertStable(rows[..|rows| - 1], r) + [rows[|rows| - 1]]
  }

  function StableSort(rows: seq<Row>): seq<Row> {
    if rows == [] then []
    else InsertStable(StableSort(rows[..|rows| - 1]), rows[|rows| - 1])
  }

  // drop_duplicates(keep="last"): a row stays unless a later one has its timestamp.
  function KeepLast(rows: seq<Row>): seq<Row> {
    if rows == [] then []
    else if exists r :: r in rows[1..] && r.time == rows[0].time then KeepLast(rows[1..])
    else [rows[0]] + KeepLast(rows[1..])
  }

  function Normalize(rows: seq<Row>): seq<Row> {
    KeepLast(StableSort(rows))
  }

  // ---------------------------------------------------------------- the sort

  lemma {:induction false} InsertStableIs(rows: seq<Row>, r: Row)
    requires Nondecreasing(rows)
    ensures Nondecreasing(InsertStable(rows, r))
    ensures forall x :: x in InsertStable(rows, r) <==> x in rows || x == r
  {
    if rows != [] && rows[|rows| - 1].time > r.time {
      var init, last := rows[..|rows| - 1], rows[|rows| - 1];
      InsertStableIs(init, r);
      assert rows == init + [last];
      assert forall x :: x in init ==> x.time <= last.time;
    } else {
      assert rows != [] ==> forall x :: x in rows ==> x.time <= rows[|rows| - 1].time;
    }
  }

  lemma InsertBefore(rows: seq<Row>, last: Row, r: Row)
    requires r.time < last.time
    ensures InsertStable(rows + [last], r) == InsertStable(rows, r) + [last]
  {
    assert (rows + [last])[..|rows|] == rows;
  }

  lemma SwapTails(xs: seq<Row>, a: seq<Row>, b: seq<Row>)
    requires a == [] || b == []
    ensures xs + a + b == xs + b + a
  {
  }

  lemma {:induction false} InsertStableOrder(rows: seq<Row>, r: Row, t: int)
    ensures RowsAt(InsertStable(rows, r), t) == RowsAt(rows, t) + (if r.time == t then [r] else [])
  {
    if rows == [] || rows[|rows| - 1].time <= r.time {
      FilterSnoc(rows, r, AtTime(t));
    } else {
      var init, last := rows[..|rows| - 1], rows[|rows| - 1];
      InsertStableOrder(init, r, t);
      assert rows == init + [last];
      InsertBefore(init, last, r);
      FilterSnoc(InsertStable(init, r), last, AtTime(t));
      FilterSnoc(init, last, AtTime(t));
      SwapTails(RowsAt(init, t), if r.time == t then [r] else [], if last.time == t then [last] else []);
    }
  }

  lemma {:induction false} InsertStableLastWins(rows: seq<Row>, r: Row)
    ensures LastWins(InsertStable(rows, r)) == LastWins(rows)[r.time := r]
  {
    if rows == [] || rows[|rows| - 1].time <= r.time {
      assert (rows + [r])[..|rows|] == rows;
    } else {
      var init, last := rows[..|rows| - 1], rows[|rows| - 1];
      InsertStableLastWins(init, r);
      var rest := InsertStable(init, r);
      assert (rest + [last])[..|rest|] == rest;
    }
  }

  lemma {:induction false} StableSortSorts(rows: seq<Row>)
    ensures Nondecreasing(StableSort(rows))
    ensures forall x :: x in StableSort(rows) <==> x in rows
  {
    if rows != [] {
      var init, last := rows[..|rows| - 1], rows[|rows| - 1];
      StableSortSorts(init);
      InsertStableIs(StableSort(init), last);
      assert forall x :: x in rows <==> x in init || x == last;
    }
  }

  lemma {:induction false} StableSortKeepsOrder(rows: seq<Row>, t: int)
    ensures RowsAt(StableSort(rows), t) == RowsAt(rows, t)
  {
    if rows != [] {
      StableSortKeepsOrder(rows[..|rows| - 1], t);
      InsertStableOrder(StableSort(rows[..|rows| - 1]), rows[|rows| - 1], t);
    }
  }

  // The sort is a sort and it is stable: rows of equal time keep their order.
  lemma StableSortIs(rows: seq<Row>, t: int)
    ensures Nondecreasing(StableSort(rows))
    ensures forall x :: x in StableSort(rows) <==> x in rows
    ensures RowsAt(StableSort(rows), t) == RowsAt(rows, t)
  {
    StableSortSorts(rows);
    StableSortKeepsOrder(rows, t);
  }

  lemma {:induction false} StableSortLastWins(rows: seq<Row>)
    ensures LastWins(StableSort(rows)) == LastWins(rows)
  {
    if rows != [] {
      StableSortLastWins(rows[..|rows| - 1]);
      InsertStableLastWins(StableSort(rows[..|rows| - 1]), rows[|rows| - 1]);
    }
  }

  lemma InsertAtEnd(rows: seq<Row>, r: Row)
    requires rows != [] ==> rows[|rows| - 1].time <= r.time
    ensures InsertStable(rows, r) == rows + [r]
  {
  }

  lemma {:induction false} SortOfAscending(rows: seq<Row>)
    requires Ascending(rows)
    ensures StableSort(rows) == rows
  {
    if rows != [] {
      var init, last := rows[..|rows| - 1], rows[|rows| - 1];
      SortOfAscending(init);
      InsertAtEnd(init, last);
      assert rows == init + [last];
    }
  }

  // ---------------------------------------------------------------- the deduplication

  lemma PrependAscending(head: Row, rows: seq<Row>)
    requires Ascending(rows)
    ensures (forall x :: x in rows ==> head.time < x.time) ==> Ascending([head] + rows)
  {
    assert forall i :: 0 <= i < |rows| ==> rows[i] in rows;
  }

  lemma {:induction false} KeepLastAscending(rows: seq<Row>)
    requires Nondecreasing(rows)
    ensures Ascending(KeepLast(rows))
    ensures forall x :: x in KeepLast(rows) ==> x in rows
  {
    if rows != [] {
      var tail := rows[1..];
      KeepLastAscending(tail);
      assert forall x :: x in tail ==> rows[0].time <= x.time;
      PrependAscending(rows[0], KeepLast(tail));
    }
  }

  lemma LastWinsPrepend(head: Row, tail: seq<Row>)
    ensures LastWins([head] + tail) == map[head.time := head] + LastWins(tail)
  {
    LastWinsAppend([head], tail);
    assert LastWins([head]) == map[head.time := head] by { assert [head][..0] == []; }
  }

  lemma {:induction false} KeepLastLastWins(rows: seq<Row>)
    ensures LastWins(KeepLast(rows)) == LastWins(rows)
  {
    if rows != [] {
      var head, tail := rows[0], rows[1..];
      KeepLastLastWins(tail);
      assert rows == [head] + tail;
      LastWinsPrepend(head, tail);
      LastWinsPrepend(head, KeepLast(tail));
      if exists r :: r in tail && r.time == head.time {
        assert head.time in LastWins(tail) by { LastWinsMembers(tail); }
      }
    }
  }

  // Whatever its input, normalisation returns the strictly ascending enumeration of the
  // last-wins map.
  lemma NormalizeIs(rows: seq<Row>)
    ensures Ascending(Normalize(rows))
    ensures LastWins(Normalize(rows)) == LastWins(rows)
    ensures Normalize(rows) == Sorted(LastWins(rows))
  {
    StableSortSorts(rows);
    StableSortLastWins(rows);
    KeepLastAscending(StableSort(rows));
    KeepLastLastWins(StableSort(rows));
    SortedIs(LastWins(rows));
    AscendingDetermined(Normalize(rows), Sorted(LastWins(rows)));
  }

  lemma NormalizeAscending(rows: seq<Row>)
    requires Ascending(rows)
    ensures Normalize(rows) == rows
  {
    NormalizeIs(rows);
    AscendingDetermined(Normalize(rows), rows);
  }

  lemma NormalizeMembers(rows: seq<Row>)
    ensures forall x :: x in Normalize(rows) ==> x in rows
  {
    StableSortSorts(rows);
    KeepLastAscending(StableSort(rows));
  }

  lemma NormalizeTimes(rows: seq<Row>)
    ensures Times(Normalize(rows)) == Times(rows)
  {
    NormalizeIs(rows);
    TimesAreKeys(rows);
    TimesAreKeys(Normalize(rows));
  }

  lemma TimesAreKeys(rows: seq<Row>)
    ensures Times(rows) == LastWins(rows).Keys
  {
    LastWinsMembers(rows);
  }

  lemma AscendingConcat(xs: seq<Row>, ys: seq<Row>)
    requires Ascending(xs) && Ascending(ys)
    requires forall x, y :: x in xs && y in ys ==> x.time < y.time
    ensures Ascending(xs + ys)
  {
    forall i, j | 0 <= i < j < |xs + ys| ensures (xs + ys)[i].time < (xs + ys)[j].time {
      if i < |xs| && |xs| <= j {
        assert (xs + ys)[i] in xs && (xs + ys)[j] in ys;
      }
    }
  }

  // Two blocks in time order normalise independently.
  lemma NormalizeConcat(xs: seq<Row>, ys: seq<Row>)
    requires forall x, y :: x in xs && y in ys ==> x.time < y.time
    ensures Normalize(xs + ys) == Normalize(xs) + Normalize(ys)
  {
    NormalizeIs(xs);
    NormalizeIs(ys);
    NormalizeIs(xs + ys);
    NormalizeMembers(xs);
    NormalizeMembers(ys);
    AscendingConcat(Normalize(xs), Normalize(ys));
    LastWinsAppend(xs, ys);
    LastWinsAppend(Normalize(xs), Normalize(ys));
    AscendingDetermined(Normalize(xs + ys), Normalize(xs) + Normalize(ys));
  }
}
