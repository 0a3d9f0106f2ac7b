// The order of symbols and the ascending enumeration of a symbol-keyed table.

module Symbols {

  predicate Below(a: string, b: string) {
    if b == "" then false
    else if a == "" then true
    else a[0] < b[0] || (a[0] == b[0] && Below(a[1..], b[1..]))
  }

  // Code unit by code unit: the first difference decides, and a proper prefix comes first.
  ghost predicate FirstDifference(a: string, b: string, i: int) {
    && 0 <= i <= |a| && i < |b|
    && a[..i] == b[..i]
    && (i < |a| ==> a[i] < b[i])
  }

  lemma {:induction false} BelowIs(a: string, b: string)
    ensures Below(a, b) <==> exists i :: FirstDifference(a, b, i)
  {
    if a == "" || b == "" {
      assert b != "" ==> FirstDifference(a, b, 0);
    } else {
      BelowIs(a[1..], b[1..]);
      if Below(a, b) {
        if a[0] < b[0] {
          assert FirstDifference(a, b, 0);
        } else {
          var i :| FirstDifference(a[1..], b[1..], i);
          DifferenceAfterHead(a, b, i);
        }
      }
      if i :| FirstDifference(a, b, i) {
        if i > 0 {
          assert a[0] == a[..i][0] == b[..i][0] == b[0];
          DifferenceWithoutHead(a, b, i);
        }
      }
    }
  }

  lemma DifferenceAfterHead(a: string, b: string, i: int)
    requires a != "" && b != "" && a[0] == b[0] && FirstDifference(a[1..], b[1..], i)
    ensures FirstDifference(a, b, i + 1)
  {
    assert a[..i + 1] == [a[0]] + a[1..][..i] && b[..i + 1] == [b[0]] + b[1..][..i];
  }

  lemma DifferenceWithoutHead(a: string, b: string, i: int)
    requires i > 0 && FirstDifference(a, b, i)
    ensures FirstDifference(a[1..], b[1..], i - 1)
  {
    assert a[1..][..i - 1] == a[..i][1..] && b[1..][..i - 1] == b[..i][1..];
  }

  lemma {:induction false} BelowIrreflexive(a: string)
    ensures !Below(a, a)
  {
    if a != "" { BelowIrreflexive(a[1..]); }
  }

  lemma {:induction false} BelowTransitive(a: string, b: string, c: string)
    requires Below(a, b) && Below(b, c)
    ensures Below(a, c)
  {
    if a != "" && a[0] == b[0] == c[0] { BelowTransitive(a[1..], b[1..], c[1..]); }
  }

  lemma {:induction false} BelowTotal(a: string, b: string)
    ensures a == b || Below(a, b) || Below(b, a)
  {
    if a != "" && b != "" && a[0] == b[0] {
      BelowTotal(a[1..], b[1..]);
      assert a == [a[0]] + a[1..] && b == [b[0]] + b[1..];
    }
  }

  predicate IsGreatest(s: set<string>, m: string) {
    m in s && forall x :: x in s && x != m ==> Below(x, m)
  }

  lemma {:induction false} GreatestExists(s: set<string>)
    requires s != {}
    ensures exists m :: IsGreatest(s, m)
  {
    assert (forall x :: x !in s) ==> s == {};
    var x :| x in s;
    var rest := s - {x};
    assert s == rest + {x};
    if rest == {} {
      assert IsGreatest(s, x);
    } else {
      GreatestExists(rest);
      var m :| IsGreatest(rest, m);
      BelowTotal(x, m);
      if Below(x, m) {
        assert IsGreatest(s, m);
      } else {
        forall y | y in rest && y != m ensures Below(y, x) { BelowTransitive(y, m, x); }
        assert IsGreatest(s, x);
      }
    }
  }

  lemma GreatestUnique(s: set<string>, m: string, m': string)
    requires IsGreatest(s, m) && IsGreatest(s, m')
    ensures m == m'
  {
    if m != m' {
      BelowTransitive(m, m', m);
      BelowIrreflexive(m);
    }
  }

  ghost predicate AscendingSymbols(xs: seq<string>) {
    forall i, j :: 0 <= i < j < |xs| ==> Below(xs[i], xs[j])
  }

  function GreatestOf(s: set<string>): (m: string)
    requires s != {}
    ensures IsGreatest(s, m)
  {
    GreatestExists(s);
    assert forall m, m' :: IsGreatest(s, m) && IsGreatest(s, m') ==> m == m' by {
      forall m, m' | IsGreatest(s, m) && IsGreatest(s, m') ensures m == m' { GreatestUnique(s, m, m'); }
    }
    var m :| m in s && IsGreatest(s, m);
    m
  }

  // ORDER BY symbol.
  function SortedSymbols(s: set<string>): (xs: seq<string>)
    ensures AscendingSymbols(xs)
    ensures forall x :: x in xs <==> x in s
    decreases s
  {
    if s == {} then []
    else
      var m := GreatestOf(s);
      SortedSymbols(s - {m}) + [m]
  }

  lemma LastIsGreatest(xs: seq<string>)
    requires AscendingSymbols(xs) && xs != []
    ensures forall x :: x in xs && x != xs[|xs| - 1] ==> Below(x, xs[|xs| - 1])
    ensures xs[|xs| - 1] !in xs[..|xs| - 1]
  {
    var init, last := xs[..|xs| - 1], xs[|xs| - 1];
    BelowIrreflexive(last);
    assert forall i :: 0 <= i < |init| ==> Below(init[i], last);
  }

  lemma SameGreatest(xs: seq<string>, ys: seq<string>)
    requires xs != [] && ys != [] && AscendingSymbols(xs) && AscendingSymbols(ys)
    requires forall s :: s in xs <==> s in ys
    ensures xs[|xs| - 1] == ys[|ys| - 1]
  {
    var x, y := xs[|xs| - 1], ys[|ys| - 1];
    LastIsGreatest(xs);
    LastIsGreatest(ys);
    assert x in ys && y in xs;
    if x != y { BelowTransitive(x, y, x); BelowIrreflexive(x); }
  }

  lemma SameBelowGreatest(xs: seq<string>, ys: seq<string>, last: string)
    requires AscendingSymbols(xs + [last]) && AscendingSymbols(ys + [last])
    requires forall s :: s in xs + [last] <==> s in ys + [last]
    ensures forall s :: s in xs <==> s in ys
  {
    LastIsGreatest(xs + [last]);
    LastIsGreatest(ys + [last]);
    assert (xs + [last])[..|xs|] == xs && (ys + [last])[..|ys|] == ys;
    forall s ensures s in xs <==> s in ys {
      assert s in xs <==> s in xs + [last] && s != last;
      assert s in ys <==> s in ys + [last] && s != last;
    }
  }

  // An ascending list is determined by its members.
  lemma {:induction false} SymbolsDetermined(xs: seq<string>, ys: seq<string>)
    requires AscendingSymbols(xs) && AscendingSymbols(ys)
    requires forall s :: s in xs <==> s in ys
    ensures xs == ys
  {
    assert xs != [] ==> xs[0] in ys;
    assert ys != [] ==> ys[0] in xs;
    if xs != [] {
      var xs', ys' := xs[..|xs| - 1], ys[..|ys| - 1];
      SameGreatest(xs, ys);
      var last := xs[|xs| - 1];
      assert xs == xs' + [last] && ys == ys' + [last];
      SameBelowGreatest(xs', ys', last);
      SymbolsDetermined(xs', ys');
    }
  }
}
