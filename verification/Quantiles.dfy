/** Twenty-one evenly spaced quantiles of a list of numbers, in exact arithmetic. */
module Quantiles {

  const COUNT: nat := 21

  // ----- ordering numbers -----

  predicate Ascending(s: seq<real>) { forall i, j :: 0 <= i < j < |s| ==> s[i] <= s[j] }

  function Insert(x: real, s: seq<real>): seq<real> {
    if s == [] || x <= s[0] then [x] + s else [s[0]] + Insert(x, s[1..])
  }

  /** `[...values].sort((a, b) => a - b)` */
  function Sort(values: seq<real>): (r: seq<real>)
    ensures |r| == |values|
  {
    if values == [] then [] else
      var rest := Sort(values[1..]);
      InsertGrows(values[0], rest);
      Insert(values[0], rest)
  }

  lemma {:induction false} InsertGrows(x: real, s: seq<real>)
    ensures |Insert(x, s)| == |s| + 1 && multiset(Insert(x, s)) == multiset(s) + multiset{x}
  {
    if s != [] && !(x <= s[0]) {
      InsertGrows(x, s[1..]);
      assert s == [s[0]] + s[1..];
    }
  }

  lemma {:induction false} InsertHas(x: real, s: seq<real>, y: real)
    requires y in Insert(x, s)
    ensures y == x || y in s
  {
    if s != [] && !(x <= s[0]) && y != s[0] { InsertHas(x, s[1..], y); }
  }

  lemma {:induction false} InsertAscending(x: real, s: seq<real>)
    requires Ascending(s)
    ensures Ascending(Insert(x, s))
  {
    if s != [] && !(x <= s[0]) {
      var rest := Insert(x, s[1..]);
      InsertAscending(x, s[1..]);
      forall y | y in rest ensures s[0] <= y { InsertHas(x, s[1..], y); }
      OneBeforeAscends(s[0], rest);
      assert Insert(x, s) == [s[0]] + rest;
    }
  }

  lemma OneBeforeAscends(x: real, s: seq<real>)
    requires Ascending(s) && forall y :: y in s ==> x <= y
    ensures Ascending([x] + s)
  {
    var t := [x] + s;
    forall i, j | 0 <= i < j < |t| ensures t[i] <= t[j] {
      assert t[j] == s[j - 1] && s[j - 1] in s;
      if i > 0 { assert t[i] == s[i - 1]; }
    }
  }

  lemma {:induction false} SortIsAscendingRearrangement(values: seq<real>)
    ensures Ascending(Sort(values)) && multiset(Sort(values)) == multiset(values)
  {
    if values != [] {
      SortIsAscendingRearrangement(values[1..]);
      InsertAscending(values[0], Sort(values[1..]));
      InsertGrows(values[0], Sort(values[1..]));
      assert values == [values[0]] + values[1..];
    }
  }

  lemma FirstIsLeast(s: seq<real>, x: real)
    requires Ascending(s) && x in multiset(s)
    ensures s != [] && s[0] <= x
  {
    var k :| 0 <= k < |s| && s[k] == x;
  }

  lemma WithoutFirst(s: seq<real>)
    requires s != [] && Ascending(s)
    ensures multiset(s[1..]) == multiset(s) - multiset{s[0]} && Ascending(s[1..])
  {
    assert s == [s[0]] + s[1..];
  }

  lemma SameFirst(a: seq<real>, b: seq<real>)
    requires Ascending(a) && Ascending(b) && multiset(a) == multiset(b) && a != [] && b != []
    ensures a[0] == b[0] && multiset(a[1..]) == multiset(b[1..])
  {
    FirstIsLeast(b, a[0]);
    FirstIsLeast(a, b[0]);
    WithoutFirst(a);
    WithoutFirst(b);
  }

  lemma {:induction false} AscendingIsUnique(a: seq<real>, b: seq<real>)
    requires Ascending(a) && Ascending(b) && multiset(a) == multiset(b)
    ensures a == b
  {
    SameLength(a, b);
    if a != [] {
      SameFirst(a, b);
      WithoutFirst(a);
      WithoutFirst(b);
      AscendingIsUnique(a[1..], b[1..]);
      FirstAndRest(a, b);
    }
  }

  lemma SameLength(a: seq<real>, b: seq<real>)
    requires multiset(a) == multiset(b)
    ensures |a| == |b|
  {
    assert |multiset(a)| == |a| && |multiset(b)| == |b|;
  }

  lemma FirstAndRest<T>(a: seq<T>, b: seq<T>)
    requires a != [] && b != [] && a[0] == b[0] && a[1..] == b[1..]
    ensures a == b
  {
    assert a == [a[0]] + a[1..] && b == [b[0]] + b[1..];
  }

  // ----- the quantiles -----

  function Ceiling(x: real): int { -((-x).Floor) }

  /** `Math.round(x * 100) / 100` */
  function Cents(x: real): real { (x * 100.0 + 0.5).Floor as real / 100.0 }

  function Part(whole: real, share: real): real { share * whole }

  lemma PartMonotone(whole: real, s: real, t: real)
    requires whole >= 0.0 && 0.0 <= s <= t <= 1.0
    ensures 0.0 <= Part(whole, s) <= Part(whole, t) <= whole
  {
    assert (t - s) * whole >= 0.0 && s * whole >= 0.0 && (1.0 - t) * whole >= 0.0;
  }

  /** How far along a sorted list of `n` the i-th of them lies. */
  function Along(i: nat, n: nat): (at: real)
    requires i < COUNT && n > 0
    ensures 0.0 <= at <= (n - 1) as real
  {
    PartMonotone((n - 1) as real, 0.0, i as real / 20.0);
    Part((n - 1) as real, i as real / 20.0)
  }

  /** Between two neighbours, in proportion. */
  function Interpolated(sorted: seq<real>, at: real): real
    requires 0.0 <= at <= (|sorted| - 1) as real
  {
    var low, high := at.Floor, Ceiling(at);
    sorted[low] + Part(sorted[high] - sorted[low], at - low as real)
  }

  function Quantiles(values: seq<real>): seq<real> {
    if values == [] then []
    else
      var sorted := Sort(values);
      seq(COUNT, i requires 0 <= i < COUNT => Cents(Interpolated(sorted, Along(i, |sorted|))))
  }

  // ----- their properties -----

  lemma CentsMonotone(x: real, y: real)
    requires x <= y
    ensures Cents(x) <= Cents(y)
  {
    assert (x * 100.0 + 0.5).Floor <= (y * 100.0 + 0.5).Floor;
  }

  lemma BetweenNeighbours(sorted: seq<real>, at: real)
    requires Ascending(sorted) && 0.0 <= at <= (|sorted| - 1) as real
    ensures sorted[at.Floor] <= Interpolated(sorted, at) <= sorted[Ceiling(at)]
  {
    var low, high := at.Floor, Ceiling(at);
    PartMonotone(sorted[high] - sorted[low], 0.0, at - low as real);
  }

  lemma InterpolatedMonotone(sorted: seq<real>, p: real, q: real)
    requires Ascending(sorted) && 0.0 <= p <= q <= (|sorted| - 1) as real
    ensures Interpolated(sorted, p) <= Interpolated(sorted, q)
  {
    BetweenNeighbours(sorted, p);
    BetweenNeighbours(sorted, q);
    if p.Floor == q.Floor {
      if p != p.Floor as real {
        assert Ceiling(p) == Ceiling(q);
        PartMonotone(sorted[Ceiling(p)] - sorted[p.Floor], p - p.Floor as real, q - q.Floor as real);
      }
    } else {
      assert Ceiling(p) <= q.Floor;
    }
  }

  lemma AlongMonotone(i: nat, j: nat, n: nat)
    requires i <= j < COUNT && n > 0
    ensures Along(i, n) <= Along(j, n)
  {
    PartMonotone((n - 1) as real, i as real / 20.0, j as real / 20.0);
  }

  /** The quantiles never fall. */
  lemma QuantilesAscend(values: seq<real>)
    ensures |Quantiles(values)| == (if values == [] then 0 else COUNT) && Ascending(Quantiles(values))
  {
    if values != [] {
      SortIsAscendingRearrangement(values);
      var sorted := Sort(values);
      forall i, j | 0 <= i < j < COUNT ensures Quantiles(values)[i] <= Quantiles(values)[j] {
        AlongMonotone(i, j, |sorted|);
        InterpolatedMonotone(sorted, Along(i, |sorted|), Along(j, |sorted|));
        CentsMonotone(Interpolated(sorted, Along(i, |sorted|)), Interpolated(sorted, Along(j, |sorted|)));
      }
    }
  }

  lemma {:induction false} ProductOfReals(i: nat, m: nat)
    ensures Part(m as real, i as real / 20.0) == (i * m) as real / 20.0
  {
    if i > 0 {
      ProductOfReals(i - 1, m);
      assert i * m == (i - 1) * m + m;
      assert i as real / 20.0 == (i - 1) as real / 20.0 + 1.0 / 20.0;
      assert Part(m as real, i as real / 20.0) == Part(m as real, (i - 1) as real / 20.0) + Part(m as real, 1.0 / 20.0);
    }
  }

  lemma QuantileAlong(values: seq<real>, i: nat, k: nat, r: nat) returns (at: real)
    requires values != [] && i < COUNT && i * (|values| - 1) == 20 * k + r
    ensures at == k as real + r as real / 20.0
    ensures 0.0 <= at <= (|Sort(values)| - 1) as real && Quantiles(values)[i] == Cents(Interpolated(Sort(values), at))
  {
    at := Along(i, |values|);
    ProductOfReals(i, |values| - 1);
  }

  lemma InterpolatedAt(s: seq<real>, at: real, k: nat, share: real)
    requires k + 1 < |s| && 0.0 <= share < 1.0 && at == k as real + share
    ensures 0.0 <= at <= (|s| - 1) as real && Interpolated(s, at) == s[k] + (s[k + 1] - s[k]) * share
  {
    assert at.Floor == k && Ceiling(at) == if share == 0.0 then k else k + 1;
    assert Part(s[k + 1] - s[k], share) == (s[k + 1] - s[k]) * share;
  }

  lemma ProportionAt(s: seq<real>, q: real, at: real, k: nat, share: real)
    requires k + 1 < |s| && 0.0 <= share < 1.0 && at == k as real + share
    requires 0.0 <= at <= (|s| - 1) as real && q == Cents(Interpolated(s, at))
    ensures q == Cents(s[k] + (s[k + 1] - s[k]) * share)
  {
    InterpolatedAt(s, at, k, share);
  }

  /** A quantile between two neighbours lies between them in proportion, by so many twentieths. */
  lemma InProportion(values: seq<real>, s: seq<real>, q: seq<real>, i: nat, k: nat, r: nat, share: real)
    requires s == Sort(values) && q == Quantiles(values) && share == r as real / 20.0
    requires i < 21 && i * (|values| - 1) == 20 * k + r && r < 20 && k + 1 < |values|
    ensures q[i] == Cents(s[k] + (s[k + 1] - s[k]) * share)
  {
    var at := QuantileAlong(values, i, k, r);
    ProportionAt(s, q[i], at, k, share);
  }

  /** Rounding gives a whole number of hundredths, the nearest there is, and the upper one of two as near. */
  lemma CentsIsNearest(x: real)
    ensures Cents(x) * 100.0 == (Cents(x) * 100.0).Floor as real
    ensures x - 0.005 < Cents(x) <= x + 0.005
  {
    var n := (x * 100.0 + 0.5).Floor;
    assert Cents(x) * 100.0 == n as real;
  }

  lemma InterpolatedOn(s: seq<real>, at: real, k: nat)
    requires k < |s| && at == k as real
    ensures Interpolated(s, at) == s[k]
  {
    assert at.Floor == k && Ceiling(at) == k;
  }

  /** Where a quantile falls on an element it is that element, rounded. */
  lemma OnAnElement(values: seq<real>, i: nat, k: nat)
    requires values != [] && i < COUNT && i * (|values| - 1) == 20 * k && k < |values|
    ensures Quantiles(values)[i] == Cents(Sort(values)[k])
  {
    var at := QuantileAlong(values, i, k, 0);
    InterpolatedOn(Sort(values), at, k);
  }

  /** They begin at the smallest value and end at the largest, rounded. */
  lemma EndsAreExtremes(values: seq<real>, x: real)
    requires x in values
    ensures var q := Quantiles(values);
            && (exists m :: m in values && q[0] == Cents(m) && m <= x)
            && (exists m :: m in values && q[COUNT - 1] == Cents(m) && x <= m)
  {
    var sorted := Sort(values);
    SortIsAscendingRearrangement(values);
    OnAnElement(values, 0, 0);
    OnAnElement(values, 20, |values| - 1);
    assert x in multiset(sorted) && sorted[0] in multiset(values) && sorted[|sorted| - 1] in multiset(values);
    var k :| 0 <= k < |sorted| && sorted[k] == x;
    assert sorted[0] <= x <= sorted[|sorted| - 1];
  }

  /** The order the values come in does not matter. */
  lemma OrderDoesNotMatter(a: seq<real>, b: seq<real>)
    requires multiset(a) == multiset(b)
    ensures Quantiles(a) == Quantiles(b)
  {
    SameLength(a, b);
    SortIsAscendingRearrangement(a);
    SortIsAscendingRearrangement(b);
    AscendingIsUnique(Sort(a), Sort(b));
  }
}
