// OHLCV rows and the sequence/map vocabulary shared by every component: filtering,
// "last row per timestamp wins" maps, and the ascending enumeration of a finite map
// that stands for ORDER BY ts.

module Rows {

  datatype Option<+T> = None | Some(value: T)

  datatype Row = Row(time: int, open: real, high: real, low: real, close: real, volume: real)

  function Min(a: int, b: int): int { if a < b then a else b }

  function Max(a: int, b: int): int { if a < b then b else a }

  function Abs(x: real): real { if x < 0.0 then -x else x }

  // ---------------------------------------------------------------- filtering

  function Filter<T(!new)>(xs: seq<T>, p: T -> bool): (ys: seq<T>)
    ensures forall y :: y in ys <==> y in xs && p(y)
    ensures |ys| <= |xs|
  {
    if xs == [] then []
    else if p(xs[|xs| - 1]) then Filter(xs[..|xs| - 1], p) + [xs[|xs| - 1]]
    else Filter(xs[..|xs| - 1], p)
  }

  lemma FilterSnoc<T(!new)>(xs: seq<T>, x: T, p: T -> bool)
    ensures Filter(xs + [x], p) == Filter(xs, p) + (if p(x) then [x] else [])
  {
    assert (xs + [x])[..|xs|] == xs;
  }

  lemma {:induction false} FilterAppend<T(!new)>(xs: seq<T>, ys: seq<T>, p: T -> bool)
    ensures Filter(xs + ys, p) == Filter(xs, p) + Filter(ys, p)
  {
    if ys == [] {
      assert xs + ys == xs;
    } else {
      var init := ys[..|ys| - 1];
      assert (xs + ys)[..|xs + ys| - 1] == xs + init;
      FilterAppend(xs, init, p);
    }
  }

  lemma {:induction false} FilterAll<T(!new)>(xs: seq<T>, p: T -> bool)
    requires forall x :: x in xs ==> p(x)
    ensures Filter(xs, p) == xs
  {
    if xs != [] {
      FilterAll(xs[..|xs| - 1], p);
      assert xs == xs[..|xs| - 1] + [xs[|xs| - 1]];
    }
  }

  lemma {:induction false} FilterNone<T(!new)>(xs: seq<T>, p: T -> bool)
    requires forall x :: x in xs ==> !p(x)
    ensures Filter(xs, p) == []
  {
    if xs != [] {
      FilterNone(xs[..|xs| - 1], p);
    }
  }

  lemma {:induction false} FilterTwice<T(!new)>(xs: seq<T>, p: T -> bool, q: T -> bool)
    requires forall x :: q(x) ==> p(x)
    ensures Filter(Filter(xs, p), q) == Filter(xs, q)
  {
    if xs != [] {
      var init, last := xs[..|xs| - 1], xs[|xs| - 1];
      FilterTwice(init, p, q);
      if p(last) { FilterSnoc(Filter(init, p), last, q); }
    }
  }

  // ---------------------------------------------------------------- last wins

  function Times(rows: seq<Row>): set<int> {
    set r | r in rows :: r.time
  }

  function AtTime(t: int): Row -> bool {
    (r: Row) => r.time == t
  }

  // The rows of one timestamp, in order.
  function RowsAt(rows: seq<Row>, t: int): seq<Row> {
    Filter(rows, AtTime(t))
  }

  // The map left by writing the rows in order: a later row replaces an earlier one.
  function LastWins(rows: seq<Row>): (m: map<int, Row>)
    ensures forall t :: t in m ==> m[t].time == t
  {
    if rows == [] then map[]
    else
      var last := rows[|rows| - 1];
      LastWins(rows[..|rows| - 1])[last.time := last]
  }

  lemma {:induction false} LastWinsMembers(rows: seq<Row>)
    ensures forall t :: t in LastWins(rows) ==> LastWins(rows)[t] in rows
    ensures forall r :: r in rows ==> r.time in LastWins(rows)
  {
    if rows != [] {
      LastWinsMembers(rows[..|rows| - 1]);
    }
  }

  lemma {:induction false} LastWinsOfTime(rows: seq<Row>, t: int)
    ensures var own := RowsAt(rows, t);
            if t in LastWins(rows) then own != [] && LastWins(rows)[t] == own[|own| - 1] else own == []
  {
    if rows != [] {
      LastWinsOfTime(rows[..|rows| - 1], t);
    }
  }

  lemma {:induction false} LastWinsAppend(xs: seq<Row>, ys: seq<Row>)
    ensures LastWins(xs + ys) == LastWins(xs) + LastWins(ys)
  {
    if ys == [] {
      assert xs + ys == xs;
    } else {
      var init := ys[..|ys| - 1];
      assert (xs + ys)[..|xs + ys| - 1] == xs + init;
      LastWinsAppend(xs, init);
    }
  }

  ghost predicate DistinctTimes(rows: seq<Row>) {
    forall i, j :: 0 <= i < j < |rows| ==> rows[i].time != rows[j].time
  }

  // With distinct timestamps every row survives.
  lemma {:induction false} LastWinsDistinct(rows: seq<Row>)
    requires DistinctTimes(rows)
    ensures forall r :: r in rows ==> r.time in LastWins(rows) && LastWins(rows)[r.time] == r
  {
    if rows != [] {
      LastWinsDistinct(rows[..|rows| - 1]);
    }
  }

  // ---------------------------------------------------------------- ascending order

  ghost predicate Ascending(rows: seq<Row>) {
    forall i, j :: 0 <= i < j < |rows| ==> rows[i].time < rows[j].time
  }

  lemma AscendingSnoc(rows: seq<Row>, r: Row)
    requires Ascending(rows) && forall x :: x in rows ==> x.time < r.time
    ensures Ascending(rows + [r])
  {
    assert forall i :: 0 <= i < |rows| ==> rows[i] in rows;
  }

  lemma {:induction false} AscendingLast(rows: seq<Row>)
    requires Ascending(rows) && rows != []
    ensures forall t :: t in LastWins(rows) ==> t <= rows[|rows| - 1].time
    ensures rows[|rows| - 1].time !in LastWins(rows[..|rows| - 1])
  {
    var init := rows[..|rows| - 1];
    if init != [] {
      AscendingLast(init);
      assert init[|init| - 1].time < rows[|rows| - 1].time;
    }
  }

  // An ascending sequence is determined by its last-wins map.
  lemma {:induction false} AscendingDetermined(a: seq<Row>, b: seq<Row>)
    requires Ascending(a) && Ascending(b)
    requires LastWins(a) == LastWins(b)
    ensures a == b
  {
    assert a != [] ==> a[|a| - 1].time in LastWins(a);
    assert b != [] ==> b[|b| - 1].time in LastWins(b);
    if a != [] {
      var a', x := a[..|a| - 1], a[|a| - 1];
      var b', y := b[..|b| - 1], b[|b| - 1];
      AscendingLast(a);
      AscendingLast(b);
      assert LastWins(a) == LastWins(a')[x.time := x];
      assert LastWins(b) == LastWins(b')[y.time := y];
      assert y.time in LastWins(a) && x.time in LastWins(b);
      assert LastWins(a)[x.time] == x && LastWins(b)[y.time] == y;
      assert LastWins(a') == LastWins(a) - {x.time};
      assert LastWins(b') == LastWins(b) - {y.time};
      AscendingDetermined(a', b');
      assert a == a' + [x] && b == b' + [y];
    }
  }

  // ---------------------------------------------------------------- enumeration of a finite set of timestamps

  lemma {:induction false} MaxExists(s: set<int>)
    requires s != {}
    ensures exists m :: m in s && forall x :: x in s ==> x <= m
  {
    assert (forall x :: x !in s) ==> s == {};
    var x :| x in s;
    var rest := s - {x};
    assert s == rest + {x};
    if rest == {} {
      assert x in s && forall y :: y in s ==> y <= x;
    } else {
      MaxExists(rest);
      var m :| m in rest && forall y :: y in rest ==> y <= m;
      var top := Max(x, m);
      assert top in s && forall y :: y in s ==> y <= top;
    }
  }

  function MaxOf(s: set<int>): (m: int)
    requires s != {}
    ensures m in s && forall x :: x in s ==> x <= m
  {
    MaxExists(s);
    var m :| m in s && forall x :: x in s ==> x <= m;
    m
  }

  lemma {:induction false} MinExists(s: set<int>)
    requires s != {}
    ensures exists m :: m in s && forall x :: x in s ==> m <= x
  {
    assert (forall x :: x !in s) ==> s == {};
    var x :| x in s;
    var rest := s - {x};
    assert s == rest + {x};
    if rest == {} {
      assert x in s && forall y :: y in s ==> x <= y;
    } else {
      MinExists(rest);
      var m :| m in rest && forall y :: y in rest ==> m <= y;
      var low := Min(x, m);
      assert low in s && forall y :: y in s ==> low <= y;
    }
  }

  function MinOf(s: set<int>): (m: int)
    requires s != {}
    ensures m in s && forall x :: x in s ==> m <= x
  {
    MinExists(s);
    var m :| m in s && forall x :: x in s ==> m <= x;
    m
  }

  // ORDER BY ts: the ascending enumeration of a map's rows.
  function Sorted(m: map<int, Row>): (rows: seq<Row>)
    requires forall t :: t in m ==> m[t].time == t
    ensures |rows| == |m|
    decreases |m|
  {
    if m == map[] then []
    else
      var top := MaxOf(m.Keys);
      var rest := m - {top};
      SmallerWithout(m, top);
      Sorted(rest) + [m[top]]
  }

  lemma SmallerWithout(m: map<int, Row>, k: int)
    requires k in m
    ensures |m - {k}| == |m| - 1
    ensures (m - {k})[k := m[k]] == m
  {
    assert (m - {k}).Keys == m.Keys - {k};
    assert |m - {k}| == |(m - {k}).Keys| && |m| == |m.Keys|;
  }

  // The enumeration ends with the newest row.
  lemma SortedStep(m: map<int, Row>) returns (rest: map<int, Row>, last: Row)
    requires m != map[] && forall t :: t in m ==> m[t].time == t
    ensures last.time in m && m[last.time] == last && rest == m - {last.time}
    ensures forall t :: t in rest ==> t < last.time && rest[t].time == t
    ensures |rest| < |m| && rest[last.time := last] == m
    ensures Sorted(m) == Sorted(rest) + [last]
  {
    var top := MaxOf(m.Keys);
    SmallerWithout(m, top);
    rest, last := m - {top}, m[top];
  }

  lemma {:induction false} SortedMembers(m: map<int, Row>)
    requires forall t :: t in m ==> m[t].time == t
    ensures forall r :: r in Sorted(m) ==> r.time in m && m[r.time] == r
    ensures forall t :: t in m ==> m[t] in Sorted(m)
    decreases |m|
  {
    if m != map[] {
      var rest, last := SortedStep(m);
      SortedMembers(rest);
      assert forall r :: r in Sorted(m) <==> r in Sorted(rest) || r == last;
    }
  }

  lemma {:induction false} SortedAscending(m: map<int, Row>)
    requires forall t :: t in m ==> m[t].time == t
    ensures Ascending(Sorted(m))
    decreases |m|
  {
    if m != map[] {
      var rest, last := SortedStep(m);
      SortedAscending(rest);
      SortedMembers(rest);
      AscendingSnoc(Sorted(rest), last);
    }
  }

  lemma LastWinsSnoc(rows: seq<Row>, r: Row)
    ensures LastWins(rows + [r]) == LastWins(rows)[r.time := r]
  {
    assert (rows + [r])[..|rows|] == rows;
  }

  lemma {:induction false} SortedLastWins(m: map<int, Row>)
    requires forall t :: t in m ==> m[t].time == t
    ensures LastWins(Sorted(m)) == m
    decreases |m|
  {
    if m != map[] {
      var rest, last := SortedStep(m);
      SortedLastWins(rest);
      LastWinsSnoc(Sorted(rest), last);
    }
  }

  lemma SortedIs(m: map<int, Row>)
    requires forall t :: t in m ==> m[t].time == t
    ensures Ascending(Sorted(m)) && LastWins(Sorted(m)) == m
  {
    SortedAscending(m);
    SortedLastWins(m);
  }
}
