// Counting the slots of a bar grid: the pigeonhole behind every gap count.

module Slots {
  import opened Rows
  import opened Timeframes

  predicate Spaced(a: int, b: int, g: Grid) {
    (b - a) % g.secs == 0
  }

  // The slots from lo to hi, spaced by the bar width.
  function SlotsBetween(lo: int, hi: int, g: Grid): set<int> {
    set ts | lo <= ts <= hi && Spaced(lo, ts, g)
  }

  // The slots between the oldest and newest stored timestamp that are not stored.
  function Absent(keys: set<int>, g: Grid): set<int>
    requires keys != {}
  {
    SlotsBetween(MinOf(keys), MaxOf(keys), g) - keys
  }

  // How many bars the span from the oldest to the newest timestamp has room for.
  function SpanCount(keys: set<int>, g: Grid): int
    requires keys != {}
  {
    (MaxOf(keys) - MinOf(keys)) / g.secs + 1
  }

  lemma {:induction false} SlotsCount(lo: int, n: nat, g: Grid)
    ensures |SlotsBetween(lo, lo + n * g.secs, g)| == n + 1
  {
    var all := SlotsBetween(lo, lo + n * g.secs, g);
    var top := lo + n * g.secs;
    DivModUnique(top - lo, g.secs, n, 0);
    if n == 0 {
      assert all == {lo};
    } else {
      SlotsCount(lo, n - 1, g);
      var rest := SlotsBetween(lo, lo + (n - 1) * g.secs, g);
      assert lo + (n - 1) * g.secs == top - g.secs;
      forall ts | ts in all && ts != top ensures ts in rest {
        SlotAtMost(ts, lo, n, g);
      }
      assert all == rest + {top};
    }
  }

  lemma SlotAtMost(ts: int, lo: int, n: nat, g: Grid)
    requires Spaced(lo, ts, g) && ts < lo + n * g.secs
    ensures ts <= lo + n * g.secs - g.secs
  {
    var k := (ts - lo) / g.secs;
    assert ts == lo + k * g.secs;
    MulOrder(n, k, g.secs);
    MulOrder(k, n, g.secs);
  }

  lemma PartCount(all: set<int>, part: set<int>)
    requires part <= all
    ensures |all - part| + |part| == |all|
  {
    assert all == (all - part) + part;
  }

  // For timestamps on one grid, the span count minus the row count is exactly the number
  // of absent slots; so the two agree exactly when no slot is missing.
  lemma AbsentCount(keys: set<int>, g: Grid)
    requires keys != {}
    requires forall ts :: ts in keys ==> OnGrid(ts, g)
    ensures SpanCount(keys, g) - |keys| == |Absent(keys, g)|
  {
    var lo, hi := MinOf(keys), MaxOf(keys);
    var n := (hi - lo) / g.secs;
    GridDistance(lo, hi, g);
    SlotsCount(lo, n, g);
    var all := SlotsBetween(lo, hi, g);
    forall ts | ts in keys ensures ts in all {
      GridDistance(lo, ts, g);
    }
    PartCount(all, keys);
  }
}
