// Timeframe table and the arithmetic of the natural bar grid.

module Timeframes {
  import opened Rows

  datatype RawGrid = RawGrid(secs: int, offset: int)

  // Slots are offset, offset + secs, offset + 2 * secs, ... in both directions.
  type Grid = g: RawGrid | 0 < g.secs && 0 <= g.offset < g.secs witness RawGrid(60, 0)

  function TfSeconds(tf: string): Option<int> {
    if tf == "1" then Some(60)
    else if tf == "3" then Some(180)
    else if tf == "5" then Some(300)
    else if tf == "15" then Some(900)
    else if tf == "30" then Some(1800)
    else if tf == "60" || tf == "1h" then Some(3600)
    else if tf == "2h" then Some(7200)
    else if tf == "4h" then Some(14400)
    else if tf == "D" || tf == "1D" then Some(86400)
    else if tf == "W" || tf == "1W" then Some(604800)
    else None
  }

  // Weekly bars open Monday 00:00 UTC; the epoch is a Thursday.
  function EpochOffset(tf: string): int {
    if tf == "W" || tf == "1W" then 345600 else 0
  }

  function GridOf(tf: string): (g: Option<Grid>) {
    match TfSeconds(tf)
    case None => None
    case Some(secs) => Some(RawGrid(secs, EpochOffset(tf)))
  }

  predicate OnGrid(ts: int, g: Grid) {
    (ts - g.offset) % g.secs == 0
  }

  // The slot a reading of the clock falls in: the open time of the forming bar.
  function SlotAt(now: int, g: Grid): int {
    now - (now - g.offset) % g.secs
  }

  // ---------------------------------------------------------------- what a name spells

  predicate AllDigits(s: string) {
    forall i :: 0 <= i < |s| ==> '0' <= s[i] <= '9'
  }

  function Decimal(s: string): nat
    requires AllDigits(s)
  {
    if s == "" then 0 else 10 * Decimal(s[..|s| - 1]) + (s[|s| - 1] - '0') as int
  }

  function UnitSeconds(unit: char): Option<int> {
    if unit == 'h' then Some(60 * 60)
    else if unit == 'D' then Some(24 * 60 * 60)
    else if unit == 'W' then Some(7 * 24 * 60 * 60)
    else None
  }

  // A number counts minutes; with a unit behind it, or alone, it counts hours, days or weeks.
  function Spelled(tf: string): Option<int> {
    if tf == "" then None
    else if AllDigits(tf) then Some(60 * Decimal(tf))
    else
      var number, unit := tf[..|tf| - 1], UnitSeconds(tf[|tf| - 1]);
      if unit.None? || !AllDigits(number) then None
      else Some(unit.value * if number == "" then 1 else Decimal(number))
  }

  lemma OneDigit(a: char)
    requires '0' <= a <= '9'
    ensures AllDigits([a]) && Decimal([a]) == (a - '0') as int
  {
    assert [a][..0] == [];
  }

  lemma TwoDigits(a: char, b: char)
    requires '0' <= a <= '9' && '0' <= b <= '9'
    ensures AllDigits([a, b]) && Decimal([a, b]) == 10 * (a - '0') as int + (b - '0') as int
  {
    OneDigit(a);
    assert [a, b][..1] == [a];
  }

  lemma SpelledMinutes(a: char)
    requires '0' <= a <= '9'
    ensures Spelled([a]) == Some(60 * (a - '0') as int)
  {
    OneDigit(a);
  }

  lemma SpelledTwoDigits(a: char, b: char)
    requires '0' <= a <= '9' && '0' <= b <= '9'
    ensures Spelled([a, b]) == Some(60 * (10 * (a - '0') as int + (b - '0') as int))
  {
    TwoDigits(a, b);
  }

  lemma SpelledUnit(a: char, unit: char)
    requires '0' <= a <= '9' && UnitSeconds(unit).Some?
    ensures Spelled([a, unit]) == Some(UnitSeconds(unit).value * (a - '0') as int)
    ensures Spelled([unit]) == Some(UnitSeconds(unit).value)
  {
    OneDigit(a);
    assert [a, unit][..1] == [a] && [unit][..0] == [];
    assert !('0' <= [a, unit][1] <= '9') && !('0' <= [unit][0] <= '9');
  }

  lemma TableIsSpelled()
    ensures Spelled("1") == Some(60) && Spelled("3") == Some(180) && Spelled("5") == Some(300)
    ensures Spelled("15") == Some(900) && Spelled("30") == Some(1800) && Spelled("60") == Some(3600)
    ensures Spelled("1h") == Some(3600) && Spelled("2h") == Some(7200) && Spelled("4h") == Some(14400)
    ensures Spelled("8h") == Some(28800)
    ensures Spelled("D") == Some(86400) && Spelled("1D") == Some(86400)
    ensures Spelled("W") == Some(604800) && Spelled("1W") == Some(604800)
  {
    SpelledMinutes('1');
    SpelledMinutes('3');
    SpelledMinutes('5');
    SpelledTwoDigits('1', '5');
    SpelledTwoDigits('3', '0');
    SpelledTwoDigits('6', '0');
    SpelledUnit('1', 'h');
    SpelledUnit('2', 'h');
    SpelledUnit('4', 'h');
    SpelledUnit('8', 'h');
    SpelledUnit('1', 'D');
    SpelledUnit('1', 'W');
  }

  // The timeframes the system knows, and how long a bar of each is: what its name spells.
  lemma SecondsAreSpelled(tf: string)
    ensures TfSeconds(tf).Some? <==> tf in {"1", "3", "5", "15", "30", "60", "1h", "2h", "4h", "D", "1D", "W", "1W"}
    ensures TfSeconds(tf).Some? ==> TfSeconds(tf) == Spelled(tf)
  {
    KnownTimeframes(tf);
    TableIsSpelled();
  }

  lemma KnownTimeframes(tf: string)
    ensures TfSeconds(tf).Some? <==> tf in {"1", "3", "5", "15", "30", "60", "1h", "2h", "4h", "D", "1D", "W", "1W"}
  {
  }

  // Except for weeks, whose bars open on Mondays, the slots are the multiples of that length.
  lemma GridIsSpelled(tf: string, ts: int)
    requires GridOf(tf).Some? && tf != "W" && tf != "1W"
    ensures Spelled(tf).Some? && Spelled(tf).value > 0
    ensures OnGrid(ts, GridOf(tf).value) <==> ts % Spelled(tf).value == 0
  {
    SecondsAreSpelled(tf);
  }

  // ---------------------------------------------------------------- division and the grid

  // A multiple of d strictly between -d and d is zero.
  lemma SmallMultiple(k: int, d: int)
    requires -d < k * d < d
    ensures k == 0
  {
    assert k >= 1 ==> k * d >= d;
    assert k <= -1 ==> k * d <= -d;
  }

  lemma MulOrder(a: int, b: int, d: int)
    requires 0 < d
    ensures a <= b <==> a * d <= b * d
    ensures a < b ==> a * d + d <= b * d
  {
    assert (b - a) * d == b * d - a * d;
    assert b - a >= 1 ==> (b - a) * d >= d;
    assert b - a <= -1 ==> (b - a) * d <= -d;
    assert b - a == 0 ==> (b - a) * d == 0;
  }

  lemma DivModUnique(x: int, d: int, q: int, r: int)
    requires 0 < d && 0 <= r < d && x == q * d + r
    ensures x / d == q && x % d == r
  {
    var q', r' := x / d, x % d;
    assert x == q' * d + r';
    assert (q' - q) * d == q' * d - q * d;
    SmallMultiple(q' - q, d);
  }

  lemma GridShift(ts: int, k: int, g: Grid)
    ensures OnGrid(ts + k * g.secs, g) == OnGrid(ts, g)
  {
    var x := ts - g.offset;
    DivModUnique(x + k * g.secs, g.secs, x / g.secs + k, x % g.secs) by {
      assert (x / g.secs + k) * g.secs == x / g.secs * g.secs + k * g.secs;
    }
  }

  lemma GridDistance(a: int, b: int, g: Grid)
    requires OnGrid(a, g)
    ensures OnGrid(b, g) <==> (b - a) % g.secs == 0
    ensures OnGrid(b, g) ==> b == a + (b - a) / g.secs * g.secs
    ensures OnGrid(b, g) && a < b ==> a + g.secs <= b
  {
    var k := (b - a) / g.secs;
    var qa := (a - g.offset) / g.secs;
    DivModUnique(b - g.offset, g.secs, qa + k, (b - a) % g.secs) by {
      assert (qa + k) * g.secs == qa * g.secs + k * g.secs;
    }
    if OnGrid(b, g) && a < b {
      assert k * g.secs == b - a;
      assert k >= 1;
    }
  }

  lemma SlotBounds(now: int, g: Grid)
    ensures OnGrid(SlotAt(now, g), g)
    ensures SlotAt(now, g) <= now < SlotAt(now, g) + g.secs
  {
    var x := now - g.offset;
    DivModUnique(x - x % g.secs, g.secs, x / g.secs, 0);
  }

  // Only the slot the clock falls in has opened but not closed.
  lemma SlotUnique(slot: int, now: int, g: Grid)
    requires OnGrid(slot, g) && slot <= now < slot + g.secs
    ensures slot == SlotAt(now, g)
  {
    SlotBounds(now, g);
    if slot < SlotAt(now, g) {
      GridDistance(slot, SlotAt(now, g), g);
    } else {
      GridDistance(SlotAt(now, g), slot, g);
    }
  }
}
