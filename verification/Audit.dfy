// The daily integrity audit: it compares a row count with a span count per (symbol,
// timeframe), and what that comparison means on tables the writer keeps.

module Audit {
  import opened Rows
  import opened Timeframes
  import CacheModel
  import opened CacheStore
  import opened Slots

  datatype Group = Group(symbol: string, timeframe: string)

  type RowId = (Key, int)

  function GroupOf(k: Key): Group { Group(k.symbol, k.timeframe) }

  // The rows of one group; providers are not told apart.
  function GroupRows(s: Store, gr: Group): set<RowId> {
    set k, ts | k in s.bars && GroupOf(k) == gr && ts in s.bars[k] :: (k, ts)
  }

  function TimesOf(rows: set<RowId>): set<int> {
    set r | r in rows :: r.1
  }

  function Actual(s: Store, gr: Group): nat { |GroupRows(s, gr)| }

  // A group the queries report: its timeframe is known and it has rows.
  ghost predicate Reported(s: Store, gr: Group) {
    GridOf(gr.timeframe).Some? && GroupRows(s, gr) != {}
  }

  lemma ReportedTimes(s: Store, gr: Group)
    requires GroupRows(s, gr) != {}
    ensures TimesOf(GroupRows(s, gr)) != {}
  {
    var r :| r in GroupRows(s, gr);
    assert r.1 in TimesOf(GroupRows(s, gr));
  }

  function Expected(s: Store, gr: Group): int
    requires Reported(s, gr)
  {
    ReportedTimes(s, gr);
    SpanCount(TimesOf(GroupRows(s, gr)), GridOf(gr.timeframe).value)
  }

  // Rows that do not sit a whole number of bars after the group's first one.
  function OffGridRows(s: Store, gr: Group): set<RowId>
    requires Reported(s, gr)
  {
    ReportedTimes(s, gr);
    var rows := GroupRows(s, gr);
    set r | r in rows && !Spaced(MinOf(TimesOf(rows)), r.1, GridOf(gr.timeframe).value)
  }

  // ---------------------------------------------------------------- the report

  // One row of the audit queries.
  datatype Combo = Combo(group: Group, actual: nat, expected: int, offGrid: nat)

  function ComboOf(s: Store, gr: Group): Combo
    requires Reported(s, gr)
  {
    Combo(gr, Actual(s, gr), Expected(s, gr), |OffGridRows(s, gr)|)
  }

  ghost predicate AreCombos(s: Store, combos: seq<Combo>) {
    && (forall i, j :: 0 <= i < j < |combos| ==> combos[i].group != combos[j].group)
    && (forall c :: c in combos ==> Reported(s, c.group) && c == ComboOf(s, c.group))
    && (forall gr :: Reported(s, gr) ==> exists c :: c in combos && c.group == gr)
  }

  datatype Kind = Gaps | Extras | OffGridBars

  datatype Problem = Problem(group: Group, kind: Kind, count: int)

  datatype Report = Report(totalCombos: nat, gapFree: nat, withGaps: nat, withExtras: nat, offGridBars: nat,
                           totalBars: nat, problems: seq<Problem>)

  function CountProblem(c: Combo): seq<Problem> {
    if c.expected > c.actual then [Problem(c.group, Gaps, c.expected - c.actual)]
    else if c.expected < c.actual then [Problem(c.group, Extras, c.actual - c.expected)]
    else []
  }

  function OffGridProblem(c: Combo): seq<Problem> {
    if c.offGrid == 0 then [] else [Problem(c.group, OffGridBars, c.offGrid)]
  }

  // Count findings of every combo first, then the off-grid ones.
  function CountProblems(combos: seq<Combo>): seq<Problem> {
    if combos == [] then []
    else CountProblems(combos[..|combos| - 1]) + CountProblem(combos[|combos| - 1])
  }

  function OffGridProblems(combos: seq<Combo>): seq<Problem> {
    if combos == [] then []
    else OffGridProblems(combos[..|combos| - 1]) + OffGridProblem(combos[|combos| - 1])
  }

  function SumActual(combos: seq<Combo>): nat {
    if combos == [] then 0 else SumActual(combos[..|combos| - 1]) + combos[|combos| - 1].actual
  }

  function SumOffGrid(combos: seq<Combo>): nat {
    if combos == [] then 0 else SumOffGrid(combos[..|combos| - 1]) + combos[|combos| - 1].offGrid
  }

  lemma {:induction false} EveryComboClassified(combos: seq<Combo>)
    ensures |Filter(combos, (c: Combo) => c.expected == c.actual)|
          + |Filter(combos, (c: Combo) => c.expected > c.actual)|
          + |Filter(combos, (c: Combo) => c.expected < c.actual)| == |combos|
  {
    if combos != [] {
      EveryComboClassified(combos[..|combos| - 1]);
    }
  }

  method ListProblems(combos: seq<Combo>) returns (problems: seq<Problem>)
    ensures problems == CountProblems(combos) + OffGridProblems(combos)
  {
    problems := [];
    for i := 0 to |combos|
      invariant problems == CountProblems(combos[..i])
    {
      var c := combos[i];
      assert combos[..i + 1][..i] == combos[..i];
      if c.expected > c.actual {
        problems := problems + [Problem(c.group, Gaps, c.expected - c.actual)];
      } else if c.expected < c.actual {
        problems := problems + [Problem(c.group, Extras, c.actual - c.expected)];
      }
    }
    assert combos[..|combos|] == combos;
    for i := 0 to |combos|
      invariant problems == CountProblems(combos) + OffGridProblems(combos[..i])
    {
      assert combos[..i + 1][..i] == combos[..i];
      if combos[i].offGrid != 0 {
        problems := problems + [Problem(combos[i].group, OffGridBars, combos[i].offGrid)];
      }
    }
  }

  method AuditReport(combos: seq<Combo>) returns (report: Report)
    ensures report.totalCombos == |combos| == report.gapFree + report.withGaps + report.withExtras
    ensures report.gapFree == |Filter(combos, (c: Combo) => c.expected == c.actual)|
    ensures report.withGaps == |Filter(combos, (c: Combo) => c.expected > c.actual)|
    ensures report.offGridBars == SumOffGrid(combos) && report.totalBars == SumActual(combos)
    ensures report.problems == CountProblems(combos) + OffGridProblems(combos)
  {
    EveryComboClassified(combos);
    var problems := ListProblems(combos);
    report := Report(|combos|,
                     |Filter(combos, (c: Combo) => c.expected == c.actual)|,
                     |Filter(combos, (c: Combo) => c.expected > c.actual)|,
                     |Filter(combos, (c: Combo) => c.expected < c.actual)|,
                     SumOffGrid(combos), SumActual(combos), problems);
  }

  // ---------------------------------------------------------------- what the counts mean

  lemma GroupRowSound(s: Store, gr: Group, r: RowId)
    requires StoreInv(s) && r in GroupRows(s, gr) && GridOf(gr.timeframe).Some?
    ensures OnGrid(r.1, GridOf(gr.timeframe).value)
  {
    assert KeyInv(s, r.0);
    assert At(s, r.0).bars == s.bars[r.0];
    assert CacheModel.BarSound(r.0.symbol, GridOf(gr.timeframe).value, r.1, s.bars[r.0][r.1]);
  }

  // No row repeats another's timestamp: no two providers store the same slot.
  ghost predicate NoSharedTimes(rows: set<RowId>) {
    forall a, b :: a in rows && b in rows && a.1 == b.1 ==> a == b
  }

  lemma {:induction false} TimesCount(rows: set<RowId>)
    ensures |TimesOf(rows)| <= |rows|
    ensures |TimesOf(rows)| == |rows| <==> NoSharedTimes(rows)
  {
    if rows == {} {
      assert TimesOf(rows) == {};
    } else {
      var r :| r in rows;
      var rest := rows - {r};
      TimesCount(rest);
      assert rows == rest + {r};
      if r.1 in TimesOf(rest) {
        var q :| q in rest && q.1 == r.1;
        assert q in rows && q != r;
        assert TimesOf(rows) == TimesOf(rest);
      } else {
        assert TimesOf(rows) == TimesOf(rest) + {r.1};
        assert NoSharedTimes(rest) ==> NoSharedTimes(rows) by {
          forall q | q in rest ensures q.1 != r.1 { assert q.1 in TimesOf(rest); }
        }
        assert NoSharedTimes(rows) ==> NoSharedTimes(rest);
      }
    }
  }

  // On tables the writer keeps, no row is off grid, and expected - actual is the number of
  // absent slots less the number of rows that repeat a timestamp; so the audit's count is
  // exact precisely when no slot is stored under two providers.
  lemma AuditCounts(s: Store, gr: Group)
    requires StoreInv(s) && Reported(s, gr)
    ensures var ts := TimesOf(GroupRows(s, gr));
            var g := GridOf(gr.timeframe).value;
            && OffGridRows(s, gr) == {}
            && ts != {}
            && Expected(s, gr) - Actual(s, gr) == |Absent(ts, g)| - (Actual(s, gr) - |ts|)
            && (Expected(s, gr) - Actual(s, gr) == |Absent(ts, g)| <==> NoSharedTimes(GroupRows(s, gr)))
  {
    ReportedTimes(s, gr);
    GroupTimesOnGrid(s, gr);
    NothingOffGrid(s, gr);
    SpanLessRows(GroupRows(s, gr), GridOf(gr.timeframe).value);
  }

  lemma SpanLessRows(rows: set<RowId>, g: Grid)
    requires TimesOf(rows) != {} && forall t :: t in TimesOf(rows) ==> OnGrid(t, g)
    ensures var ts := TimesOf(rows);
            var d := SpanCount(ts, g) - |rows|;
            && d == |Absent(ts, g)| - (|rows| - |ts|)
            && (d == |Absent(ts, g)| <==> NoSharedTimes(rows))
  {
    AbsentCount(TimesOf(rows), g);
    TimesCount(rows);
  }

  lemma GroupTimesOnGrid(s: Store, gr: Group)
    requires StoreInv(s) && Reported(s, gr)
    ensures forall t :: t in TimesOf(GroupRows(s, gr)) ==> OnGrid(t, GridOf(gr.timeframe).value)
  {
    forall t | t in TimesOf(GroupRows(s, gr)) ensures OnGrid(t, GridOf(gr.timeframe).value) {
      var r :| r in GroupRows(s, gr) && r.1 == t;
      GroupRowSound(s, gr, r);
    }
  }

  lemma NothingOffGrid(s: Store, gr: Group)
    requires StoreInv(s) && Reported(s, gr)
    ensures OffGridRows(s, gr) == {}
  {
    var rows := GroupRows(s, gr);
    var g := GridOf(gr.timeframe).value;
    ReportedTimes(s, gr);
    GroupTimesOnGrid(s, gr);
    forall r | r in rows ensures Spaced(MinOf(TimesOf(rows)), r.1, g) {
      assert r.1 in TimesOf(rows);
      GridDistance(MinOf(TimesOf(rows)), r.1, g);
    }
  }

  // For series kept by one provider the audit is exact: it never reports extras or off-grid
  // bars, the gap count is the number of missing slots, and silence means every slot between
  // the oldest and newest bar is stored.
  lemma AuditExactForOneProvider(s: Store, gr: Group, k: Key)
    requires StoreInv(s) && Reported(s, gr)
    requires forall r :: r in GroupRows(s, gr) ==> r.0 == k
    ensures var c := ComboOf(s, gr);
            var g := GridOf(gr.timeframe).value;
            && k in s.bars && s.bars[k] != map[]
            && c.offGrid == 0
            && c.actual == |s.bars[k]|
            && c.expected - c.actual == |Absent(s.bars[k].Keys, g)|
            && (CountProblem(c) == [] <==> Absent(s.bars[k].Keys, g) == {})
  {
    var rows := GroupRows(s, gr);
    AuditCounts(s, gr);
    var r :| r in rows;
    assert k in s.bars && GroupOf(k) == gr;
    forall t ensures t in TimesOf(rows) <==> t in s.bars[k] {
      if t in s.bars[k] { assert (k, t) in rows; }
    }
    assert TimesOf(rows) == s.bars[k].Keys;
    assert NoSharedTimes(rows);
    TimesCount(rows);
    assert |s.bars[k]| == |s.bars[k].Keys|;
  }

  // ---------------------------------------------------------------- what is reported

  lemma {:induction false} CountProblemsAre(combos: seq<Combo>)
    ensures forall p :: p in CountProblems(combos) <==> exists c :: c in combos && p in CountProblem(c)
  {
    if combos != [] {
      var init, last := combos[..|combos| - 1], combos[|combos| - 1];
      CountProblemsAre(init);
      assert forall c :: c in combos <==> c in init || c == last;
    }
  }

  lemma {:induction false} OffGridProblemsAre(combos: seq<Combo>)
    ensures forall p :: p in OffGridProblems(combos) <==> exists c :: c in combos && p in OffGridProblem(c)
  {
    if combos != [] {
      var init, last := combos[..|combos| - 1], combos[|combos| - 1];
      OffGridProblemsAre(init);
      assert forall c :: c in combos <==> c in init || c == last;
    }
  }

  // As many findings as there are combos with one.
  lemma {:induction false} FindingsCount(combos: seq<Combo>)
    ensures |CountProblems(combos)| == |Filter(combos, (c: Combo) => c.expected != c.actual)|
    ensures |OffGridProblems(combos)| == |Filter(combos, (c: Combo) => c.offGrid > 0)|
  {
    if combos != [] {
      FindingsCount(combos[..|combos| - 1]);
    }
  }

  // The findings about a group are those of its one combo.
  lemma FindingsOfGroup(s: Store, combos: seq<Combo>, gr: Group, p: Problem)
    requires AreCombos(s, combos) && Reported(s, gr) && p.group == gr
    ensures p in CountProblems(combos) <==> p in CountProblem(ComboOf(s, gr))
    ensures p in OffGridProblems(combos) <==> p in OffGridProblem(ComboOf(s, gr))
  {
    CountProblemsAre(combos);
    OffGridProblemsAre(combos);
    var own :| own in combos && own.group == gr;
    assert own == ComboOf(s, gr);
    forall c | c in combos && (p in CountProblem(c) || p in OffGridProblem(c)) ensures c == own {
      assert c.group == gr && c == ComboOf(s, c.group);
    }
  }

  // How many bars fit from a group's oldest to its newest timestamp, less its rows.
  function Shortfall(s: Store, gr: Group): int
    requires Reported(s, gr)
  {
    ReportedTimes(s, gr);
    var ts := TimesOf(GroupRows(s, gr));
    (MaxOf(ts) - MinOf(ts)) / GridOf(gr.timeframe).value.secs + 1 - |GroupRows(s, gr)|
  }

  lemma ShortfallIs(s: Store, gr: Group)
    requires Reported(s, gr)
    ensures Shortfall(s, gr) == Expected(s, gr) - Actual(s, gr)
  {
  }

  // For any store: a group is reported with gaps, and how many, exactly when its span has room
  // for more bars than it has rows; with extras when for fewer; and with nothing else of the
  // kind.
  lemma CountFinding(s: Store, combos: seq<Combo>, gr: Group, p: Problem)
    requires AreCombos(s, combos) && Reported(s, gr) && p.group == gr && p.kind != OffGridBars
    ensures var n := Shortfall(s, gr);
            p in CountProblems(combos) + OffGridProblems(combos)
            <==> (n > 0 && p == Problem(gr, Gaps, n)) || (n < 0 && p == Problem(gr, Extras, -n))
  {
    FindingsOfGroup(s, combos, gr, p);
    ShortfallIs(s, gr);
    CountProblemIs(ComboOf(s, gr), p);
  }

  lemma CountProblemIs(c: Combo, p: Problem)
    requires p.kind != OffGridBars
    ensures var n := c.expected - c.actual;
            p in CountProblem(c) <==> (n > 0 && p == Problem(c.group, Gaps, n)) || (n < 0 && p == Problem(c.group, Extras, -n))
    ensures p !in OffGridProblem(c)
  {
  }

  // On tables the writer keeps, that number is the absent slots less the repeated timestamps.
  lemma ShortfallMeans(s: Store, gr: Group)
    requires StoreInv(s) && Reported(s, gr)
    ensures var ts := TimesOf(GroupRows(s, gr));
            ts != {} && Shortfall(s, gr) == |Absent(ts, GridOf(gr.timeframe).value)| - (|GroupRows(s, gr)| - |ts|)
  {
    ShortfallIs(s, gr);
    AuditCounts(s, gr);
  }

  // For any store: a group is reported with n off-grid bars exactly when n > 0 of its rows do
  // not lie a whole number of bars after its oldest timestamp.
  lemma OffGridFinding(s: Store, combos: seq<Combo>, gr: Group, n: int)
    requires AreCombos(s, combos) && Reported(s, gr)
    ensures Problem(gr, OffGridBars, n) in CountProblems(combos) + OffGridProblems(combos)
            <==> n > 0 && n == |OffGridRows(s, gr)|
    ensures TimesOf(GroupRows(s, gr)) != {}
    ensures forall r: RowId :: r in OffGridRows(s, gr)
              <==> && r.0 in s.bars && r.0.symbol == gr.symbol && r.0.timeframe == gr.timeframe
                   && r.1 in s.bars[r.0]
                   && (r.1 - MinOf(TimesOf(GroupRows(s, gr)))) % GridOf(gr.timeframe).value.secs != 0
  {
    ReportedTimes(s, gr);
    FindingsOfGroup(s, combos, gr, Problem(gr, OffGridBars, n));
  }

  // ---------------------------------------------------------------- a gap the audit does not see

  // One provider misses the slot at 60, another repeats the one at 0: three rows over a span
  // of three.
  const A_BAR := CacheModel.Bar(1.0, 1.0, 1.0, 1.0, 1.0, 180)
  const TV_KEY := Key("X", "1", TRADINGVIEW)
  const YAHOO_KEY := Key("X", "1", YAHOO)
  const SHARED_SLOT := Store(map[TV_KEY := map[0 := A_BAR, 120 := A_BAR], YAHOO_KEY := map[0 := A_BAR]],
                             map[TV_KEY := CacheModel.Meta(120, 2, 180), YAHOO_KEY := CacheModel.Meta(0, 1, 180)])

  lemma SharedSlotInv()
    ensures StoreInv(SHARED_SLOT)
  {
    assert TRADINGVIEW[0] != YAHOO[0];
    SharedSeriesSound();
    forall k ensures KeyInv(SHARED_SLOT, k) {
      if k == TV_KEY || k == YAHOO_KEY {
        assert GridOf(k.timeframe) == Some(RawGrid(60, 0));
      }
    }
  }

  lemma SharedSeriesSound()
    ensures CacheModel.SeriesInv("X", RawGrid(60, 0), At(SHARED_SLOT, TV_KEY))
    ensures CacheModel.SeriesInv("X", RawGrid(60, 0), At(SHARED_SLOT, YAHOO_KEY))
  {
    assert TRADINGVIEW[0] != YAHOO[0];
    TwoBarsCount();
    assert CacheModel.BarSound("X", RawGrid(60, 0), 0, A_BAR) && CacheModel.BarSound("X", RawGrid(60, 0), 120, A_BAR);
  }

  lemma TwoBarsCount()
    ensures |map[0 := A_BAR, 120 := A_BAR]| == 2 && |map[0 := A_BAR]| == 1
  {
    var two, one := map[0 := A_BAR, 120 := A_BAR], map[0 := A_BAR];
    assert two.Keys == {0, 120} && one.Keys == {0};
    assert |two| == |two.Keys| && |one| == |one.Keys|;
  }

  lemma SharedSlotRows()
    ensures GroupRows(SHARED_SLOT, Group("X", "1")) == {(TV_KEY, 0), (TV_KEY, 120), (YAHOO_KEY, 0)}
    ensures |GroupRows(SHARED_SLOT, Group("X", "1"))| == 3
    ensures TimesOf(GroupRows(SHARED_SLOT, Group("X", "1"))) == {0, 120}
  {
    assert TRADINGVIEW[0] != YAHOO[0];
    var rows := {(TV_KEY, 0), (TV_KEY, 120), (YAHOO_KEY, 0)};
    assert GroupRows(SHARED_SLOT, Group("X", "1")) == rows;
    assert |rows| == 3;
    forall t ensures t in TimesOf(rows) <==> t in {0, 120} {
      assert (TV_KEY, 0) in rows && (TV_KEY, 120) in rows;
    }
  }

  lemma SpanOfThree()
    ensures SpanCount({0, 120}, RawGrid(60, 0)) == 3
    ensures Absent({0, 120}, RawGrid(60, 0)) == {60}
  {
    assert MinOf({0, 120}) == 0 && MaxOf({0, 120}) == 120;
  }

  lemma SharedSlotHidesGap()
    ensures var gr := Group("X", "1");
            && StoreInv(SHARED_SLOT) && Reported(SHARED_SLOT, gr)
            && CountProblem(ComboOf(SHARED_SLOT, gr)) == [] && OffGridProblem(ComboOf(SHARED_SLOT, gr)) == []
            && TimesOf(GroupRows(SHARED_SLOT, gr)) != {}
            && Absent(TimesOf(GroupRows(SHARED_SLOT, gr)), GridOf("1").value) == {60}
  {
    SharedSlotInv();
    SharedSlotRows();
    SpanOfThree();
    assert GridOf("1") == Some(RawGrid(60, 0));
    NothingOffGrid(SHARED_SLOT, Group("X", "1"));
  }

  // ---------------------------------------------------------------- the whole report

  lemma {:induction false} CountProblemsEmpty(combos: seq<Combo>)
    ensures CountProblems(combos) == [] <==> forall c :: c in combos ==> CountProblem(c) == []
  {
    if combos != [] {
      var init, last := combos[..|combos| - 1], combos[|combos| - 1];
      CountProblemsEmpty(init);
      assert combos == init + [last];
    }
  }

  lemma {:induction false} OffGridProblemsEmpty(combos: seq<Combo>)
    ensures OffGridProblems(combos) == [] <==> forall c :: c in combos ==> OffGridProblem(c) == []
  {
    if combos != [] {
      var init, last := combos[..|combos| - 1], combos[|combos| - 1];
      OffGridProblemsEmpty(init);
      assert combos == init + [last];
    }
  }

  ghost predicate NoSharedSlots(s: Store) {
    forall gr :: Reported(s, gr) ==> NoSharedTimes(GroupRows(s, gr))
  }

  // The report of a sound store without shared slots is clean exactly when no group misses
  // a slot.
  lemma CleanReportMeansGapFree(s: Store, combos: seq<Combo>)
    requires StoreInv(s) && NoSharedSlots(s) && AreCombos(s, combos)
    ensures CountProblems(combos) + OffGridProblems(combos) == []
            <==> forall gr :: Reported(s, gr) ==>
                   TimesOf(GroupRows(s, gr)) != {} && Absent(TimesOf(GroupRows(s, gr)), GridOf(gr.timeframe).value) == {}
  {
    CountProblemsEmpty(combos);
    OffGridProblemsEmpty(combos);
    forall gr | Reported(s, gr)
      ensures TimesOf(GroupRows(s, gr)) != {}
      ensures var c := ComboOf(s, gr);
              CountProblem(c) + OffGridProblem(c) == []
              <==> Absent(TimesOf(GroupRows(s, gr)), GridOf(gr.timeframe).value) == {}
    {
      AuditCounts(s, gr);
    }
  }

  // ---------------------------------------------------------------- totals

  // Every stored row.
  ghost function AllRows(s: Store): set<RowId> {
    set k, ts | k in s.bars && ts in s.bars[k] :: (k, ts)
  }

  ghost function SumCounts(m: map<Key, CacheModel.Meta>): nat
    decreases |m|
  {
    if m == map[] then 0
    else
      var k :| k in m;
      var rest := m - {k};
      assert rest.Keys == m.Keys - {k};
      assert |rest| == |rest.Keys| && |m| == |m.Keys|;
      m[k].barCount + SumCounts(rest)
  }

  // Both the audit's total and the sum of the meta rows count every stored row once.
  lemma TotalsAgree(s: Store, combos: seq<Combo>)
    requires StoreInv(s) && AreCombos(s, combos)
    ensures SumActual(combos) == |AllRows(s)| == SumCounts(s.meta)
  {
    forall k ensures k in s.meta <==> k in s.bars { AtInvOf(s, k); }
    CountedByMeta(s, s.meta);
    assert RowsOfKeys(s, s.meta.Keys) == AllRows(s);
    CountedByGroups(s, combos);
    forall r ensures r in RowsOfCombos(s, combos) <==> r in AllRows(s) {
      if r in AllRows(s) {
        assert KeyInv(s, r.0);
        assert r in GroupRows(s, GroupOf(r.0));
        assert Reported(s, GroupOf(r.0));
      }
    }
    assert RowsOfCombos(s, combos) == AllRows(s);
  }

  ghost function RowsOfKeys(s: Store, keys: set<Key>): set<RowId> {
    set r | r in AllRows(s) && r.0 in keys
  }

  lemma {:induction false} CountedByMeta(s: Store, m: map<Key, CacheModel.Meta>)
    requires StoreInv(s)
    requires forall k :: k in m ==> k in s.meta && m[k] == s.meta[k]
    ensures SumCounts(m) == |RowsOfKeys(s, m.Keys)|
    decreases |m|
  {
    if m == map[] {
      assert RowsOfKeys(s, m.Keys) == {};
    } else {
      var k :| k in m && SumCounts(m) == m[k].barCount + SumCounts(m - {k});
      var rest := m - {k};
      assert rest.Keys == m.Keys - {k};
      assert |rest| == |rest.Keys| && |m| == |m.Keys|;
      CountedByMeta(s, rest);
      AtInvOf(s, k);
      KeyRowCount(s, k);
      assert RowsOfKeys(s, m.Keys) == RowsOfKeys(s, rest.Keys) + RowsOfKeys(s, {k});
    }
  }

  lemma KeyRowCount(s: Store, k: Key)
    requires k in s.bars
    ensures |RowsOfKeys(s, {k})| == |s.bars[k]|
  {
    var rows := RowsOfKeys(s, {k});
    TimesCount(rows);
    forall t ensures t in TimesOf(rows) <==> t in s.bars[k] {
      if t in s.bars[k] { assert (k, t) in rows; }
    }
    assert TimesOf(rows) == s.bars[k].Keys;
    assert |s.bars[k]| == |s.bars[k].Keys|;
  }

  ghost function RowsOfCombos(s: Store, combos: seq<Combo>): set<RowId> {
    set r | r in AllRows(s) && exists c :: c in combos && c.group == GroupOf(r.0)
  }

  lemma {:induction false} CountedByGroups(s: Store, combos: seq<Combo>)
    requires forall i, j :: 0 <= i < j < |combos| ==> combos[i].group != combos[j].group
    requires forall c :: c in combos ==> c.actual == Actual(s, c.group)
    ensures SumActual(combos) == |RowsOfCombos(s, combos)|
  {
    if combos == [] {
      assert RowsOfCombos(s, combos) == {};
    } else {
      var init, last := combos[..|combos| - 1], combos[|combos| - 1];
      CountedByGroups(s, init);
      assert forall c :: c in combos <==> c in init || c == last;
      assert last in combos;
      assert RowsOfCombos(s, combos) == RowsOfCombos(s, init) + GroupRows(s, last.group);
      forall r | r in RowsOfCombos(s, init) ensures r !in GroupRows(s, last.group) {
        var c :| c in init && c.group == GroupOf(r.0);
      }
    }
  }

  // A row that does not lie a whole number of bars after its group's oldest timestamp.
  ghost predicate IsOffGrid(s: Store, r: RowId) {
    Reported(s, GroupOf(r.0)) && r in OffGridRows(s, GroupOf(r.0))
  }

  ghost function OffGridOfCombos(s: Store, combos: seq<Combo>): set<RowId> {
    set r | r in RowsOfCombos(s, combos) && IsOffGrid(s, r)
  }

  lemma {:induction false} OffGridCounted(s: Store, combos: seq<Combo>)
    requires forall i, j :: 0 <= i < j < |combos| ==> combos[i].group != combos[j].group
    requires forall c :: c in combos ==> Reported(s, c.group) && c.offGrid == |OffGridRows(s, c.group)|
    ensures SumOffGrid(combos) == |OffGridOfCombos(s, combos)|
  {
    if combos == [] {
      assert OffGridOfCombos(s, combos) == {};
    } else {
      var init, last := combos[..|combos| - 1], combos[|combos| - 1];
      assert combos == init + [last];
      assert last in combos;
      OffGridCounted(s, init);
      OneMoreGroup(s, init, last);
      UnionCount(OffGridOfCombos(s, init), OffGridRows(s, last.group));
    }
  }

  lemma UnionCount(a: set<RowId>, b: set<RowId>)
    requires a !! b
    ensures |a + b| == |a| + |b|
  {
  }

  lemma OneMoreGroup(s: Store, init: seq<Combo>, last: Combo)
    requires Reported(s, last.group) && forall c :: c in init ==> c.group != last.group
    ensures OffGridOfCombos(s, init + [last]) == OffGridOfCombos(s, init) + OffGridRows(s, last.group)
    ensures OffGridOfCombos(s, init) !! OffGridRows(s, last.group)
  {
    var combos := init + [last];
    assert forall c :: c in combos <==> c in init || c == last;
    assert last in combos;
    forall r | r in OffGridRows(s, last.group) ensures r in OffGridOfCombos(s, combos) && r !in OffGridOfCombos(s, init) {
      assert GroupOf(r.0) == last.group;
    }
  }

  // off_grid_bars counts every stored row that is off its group's grid, on any store.
  lemma OffGridTotal(s: Store, combos: seq<Combo>)
    requires AreCombos(s, combos)
    ensures SumOffGrid(combos) == |set r | r in AllRows(s) && IsOffGrid(s, r)|
  {
    OffGridCounted(s, combos);
    var all := set r | r in AllRows(s) && IsOffGrid(s, r);
    forall r ensures r in all <==> r in OffGridOfCombos(s, combos) {
      if r in all {
        var c :| c in combos && c.group == GroupOf(r.0);
      }
    }
    assert all == OffGridOfCombos(s, combos);
  }
}
