/** The order a script's `.sort()` puts strings in, and what sorting a listing without repeats gives.

    Strings are compared code unit by code unit and a proper prefix comes first. A directory
    listing arrives in no particular order; everything proved about a sorted listing therefore
    goes through `Sorted`, which is a function of the set of names alone. */
module Ordering {

  predicate Less(a: string, b: string) {
    b != "" && (a == "" || a[0] < b[0] || (a[0] == b[0] && Less(a[1..], b[1..])))
  }

  /** Strictly ascending: the order, and no name twice. */
  ghost predicate Ascending(s: seq<string>) {
    forall i, j :: 0 <= i < j < |s| ==> Less(s[i], s[j])
  }

  ghost predicate NoRepeats<T>(s: seq<T>) {
    forall i, j :: 0 <= i < j < |s| ==> s[i] != s[j]
  }

  ghost function Elements<T(!new)>(s: seq<T>): (r: set<T>)
    ensures forall x :: x in r <==> x in s
  {
    set x | x in s
  }

  lemma {:induction false} LessIrreflexive(a: string)
    ensures !Less(a, a)
  {
    if a != "" { LessIrreflexive(a[1..]); }
  }

  lemma {:induction false} LessTransitive(a: string, b: string, c: string)
    requires Less(a, b) && Less(b, c)
    ensures Less(a, c)
  {
    if a != "" && a[0] == b[0] && b[0] == c[0] { LessTransitive(a[1..], b[1..], c[1..]); }
  }

  lemma {:induction false} LessTotal(a: string, b: string)
    ensures a == b || Less(a, b) || Less(b, a)
  {
    if a == "" || b == "" {
    } else if a[0] == b[0] {
      LessTotal(a[1..], b[1..]);
      assert a == [a[0]] + a[1..] && b == [b[0]] + b[1..];
    }
  }

  lemma LessAsymmetric(a: string, b: string)
    requires Less(a, b)
    ensures a != b && !Less(b, a)
  {
    LessIrreflexive(a);
    if Less(b, a) { LessTransitive(a, b, a); }
  }

  /** Names that begin with stamps of one length are ordered by the stamps. */
  lemma {:induction false} LessByStamp(x: string, y: string, a: string, b: string)
    requires |x| == |y| && Less(x, y)
    ensures Less(x + a, y + b)
  {
    assert (x + a)[0] == x[0] && (y + b)[0] == y[0];
    if x[0] == y[0] {
      LessByStamp(x[1..], y[1..], a, b);
      assert (x + a)[1..] == x[1..] + a && (y + b)[1..] == y[1..] + b;
    }
  }

  /** A common beginning does not decide. */
  lemma {:induction false} LessAfterPrefix(p: string, a: string, b: string)
    ensures Less(p + a, p + b) <==> Less(a, b)
  {
    if p == "" {
      assert p + a == a && p + b == b;
    } else {
      assert (p + a)[1..] == p[1..] + a && (p + b)[1..] == p[1..] + b;
      LessAfterPrefix(p[1..], a, b);
    }
  }

  // ----- the sorted listing of a set -----

  ghost predicate IsLeast(m: string, s: set<string>) {
    m in s && forall x :: x in s && x != m ==> Less(m, x)
  }

  lemma {:induction false} LeastExists(s: set<string>) returns (m: string)
    requires s != {}
    ensures IsLeast(m, s)
  {
    m :| m in s;
    if s == {m} {
      assert forall x :: x in s ==> x == m;
    } else {
      var l := LeastExists(s - {m});
      LessTotal(m, l);
      if Less(m, l) { LeastWith(m, l, s); } else { m := l; }
    }
  }

  lemma LeastWith(a: string, m: string, s: set<string>)
    requires a in s && IsLeast(m, s - {a}) && Less(a, m)
    ensures IsLeast(a, s)
  {
    forall x | x in s && x != a ensures Less(a, x) {
      if x != m { LessTransitive(a, m, x); }
    }
  }

  ghost function Least(s: set<string>): (m: string)
    requires s != {}
    ensures IsLeast(m, s)
  {
    assert exists m :: IsLeast(m, s) by { var m := LeastExists(s); }
    var m :| IsLeast(m, s);
    m
  }

  /** The names of a set in order. */
  ghost function Sorted(s: set<string>): (r: seq<string>)
    ensures Ascending(r) && |r| == |s| && forall x :: x in r <==> x in s
  {
    if s == {} then [] else
      var m := Least(s);
      [m] + Sorted(s - {m})
  }

  lemma AscendingHasNoRepeats(s: seq<string>)
    requires Ascending(s)
    ensures NoRepeats(s)
  {
    forall i, j | 0 <= i < j < |s| ensures s[i] != s[j] { LessAsymmetric(s[i], s[j]); }
  }

  /** Only one ascending list has a given set of names. */
  lemma {:induction false} AscendingIsUnique(a: seq<string>, b: seq<string>)
    requires Ascending(a) && Ascending(b)
    requires forall x :: x in a <==> x in b
    ensures a == b
  {
    assert (a != [] ==> a[0] in a) && (b != [] ==> b[0] in b);
    if a == [] || b == [] {
    } else {
      var i :| 0 <= i < |b| && b[i] == a[0];
      var j :| 0 <= j < |a| && a[j] == b[0];
      if i != 0 && j != 0 { LessAsymmetric(a[0], a[j]); }
      assert a[0] == b[0];
      forall x
        ensures x in a[1..] <==> x in b[1..]
      {
        if x in a[1..] {
          var k :| 1 <= k < |a| && a[k] == x;
          LessAsymmetric(a[0], a[k]);
          assert x in b;
        }
        if x in b[1..] {
          var k :| 1 <= k < |b| && b[k] == x;
          LessAsymmetric(b[0], b[k]);
          assert x in a;
        }
      }
      AscendingIsUnique(a[1..], b[1..]);
    }
  }

  lemma SortedIs(s: set<string>, r: seq<string>)
    requires Ascending(r) && forall x :: x in r <==> x in s
    ensures r == Sorted(s)
  {
    AscendingIsUnique(r, Sorted(s));
  }

  lemma AscendingConcat(a: seq<string>, b: seq<string>)
    requires Ascending(a) && Ascending(b)
    requires forall x, y :: x in a && y in b ==> Less(x, y)
    ensures Ascending(a + b)
  {
    var r := a + b;
    forall i, j | 0 <= i < j < |r| ensures Less(r[i], r[j]) {
      if i < |a| && |a| <= j {
        assert r[i] == a[i] && r[i] in a;
        assert r[j] == b[j - |a|] && r[j] in b;
      } else if j < |a| {
        assert r[i] == a[i] && r[j] == a[j];
      } else {
        assert r[i] == b[i - |a|] && r[j] == b[j - |a|];
      }
    }
  }

  /** Every name of one set before every name of another. */
  ghost predicate Before(low: set<string>, high: set<string>) {
    forall a, b :: a in low && b in high ==> Less(a, b)
  }

  /** Names are appended to a set's sorted list exactly when they all come after it. */
  lemma SortedAppends(low: set<string>, high: set<string>)
    ensures Sorted(low + high) == Sorted(low) + Sorted(high) <==> Before(low, high)
  {
    AppendedIff(Sorted(low), Sorted(high), Sorted(low + high));
    ListedBefore(low, Sorted(low), high, Sorted(high));
  }

  ghost predicate AllBefore(s: seq<string>, t: seq<string>) { forall a, b :: a in s && b in t ==> Less(a, b) }

  lemma ListedBefore(low: set<string>, s: seq<string>, high: set<string>, t: seq<string>)
    requires (forall x :: x in s <==> x in low) && (forall x :: x in t <==> x in high)
    ensures Before(low, high) <==> AllBefore(s, t)
  {
    if AllBefore(s, t) {
      forall a, b | a in low && b in high ensures Less(a, b) { assert a in s && b in t; }
    }
  }

  lemma AppendedIff(s: seq<string>, t: seq<string>, r: seq<string>)
    requires Ascending(s) && Ascending(t) && Ascending(r)
    requires forall x :: x in r <==> x in s || x in t
    ensures r == s + t <==> AllBefore(s, t)
  {
    if AllBefore(s, t) {
      AscendingConcat(s, t);
      forall x ensures x in s + t <==> x in r { InConcat(s, t, x); }
      AscendingIsUnique(s + t, r);
    }
    if r == s + t {
      forall a, b | a in s && b in t ensures Less(a, b) { ConcatApart(s, t, a, b); }
    }
  }

  lemma LaterOnesContinue(low: set<string>, high: set<string>)
    requires Before(low, high)
    ensures Continues(Sorted(low), Sorted(low + high))
  {
    SortedAppends(low, high);
  }

  lemma ContinuesBehind(s: seq<string>, r: seq<string>, low: set<string>, all: set<string>)
    requires Ascending(r) && Continues(s, r)
    requires (forall x :: x in s <==> x in low) && (forall x :: x in r <==> x in all)
    ensures low <= all && Before(low, all - low)
  {
    forall a | a in low ensures a in all { OneContinues(s, r, a); }
    forall a, b | a in low && b in all - low ensures Less(a, b) { OneBehind(s, r, a, b); }
  }

  lemma OneContinues(s: seq<string>, r: seq<string>, a: string)
    requires Continues(s, r) && a in s
    ensures a in r && exists i :: 0 <= i < |s| && r[i] == a
  {
    var i :| 0 <= i < |s| && s[i] == a;
    assert r[..|s|][i] == r[i];
  }

  lemma OneBehind(s: seq<string>, r: seq<string>, a: string, b: string)
    requires Ascending(r) && Continues(s, r) && a in s && b in r && b !in s
    ensures Less(a, b)
  {
    OneContinues(s, r, a);
    var i :| 0 <= i < |s| && r[i] == a;
    var j :| 0 <= j < |r| && r[j] == b;
    assert forall k :: 0 <= k < |s| ==> r[k] == r[..|s|][k] && r[k] in s;
  }

  /** A sorted list begins with another exactly when it has all its names, and its others after them. */
  lemma SortedContinuesIff(low: set<string>, all: set<string>)
    ensures Continues(Sorted(low), Sorted(all)) <==> low <= all && Before(low, all - low)
  {
    if low <= all && Before(low, all - low) {
      LaterOnesContinue(low, all - low);
      assert low + (all - low) == all;
    }
    if Continues(Sorted(low), Sorted(all)) { ContinuesBehind(Sorted(low), Sorted(all), low, all); }
  }

  /** One list is the beginning of another. */
  ghost predicate Continues<T>(s: seq<T>, r: seq<T>) { |s| <= |r| && r[..|s|] == s }

  lemma InConcat(s: seq<string>, t: seq<string>, x: string)
    ensures x in s + t <==> x in s || x in t
  {
  }

  lemma ConcatApart(s: seq<string>, t: seq<string>, a: string, b: string)
    requires Ascending(s + t) && a in s && b in t
    ensures Less(a, b)
  {
    var i :| 0 <= i < |s| && s[i] == a;
    var j :| 0 <= j < |t| && t[j] == b;
    assert (s + t)[i] == a && (s + t)[|s| + j] == b;
  }

  lemma NoRepeatsTail<T>(s: seq<T>)
    requires NoRepeats(s) && s != []
    ensures NoRepeats(s[1..]) && s[0] !in s[1..]
  {
  }

  lemma ApartHaveNoRepeats<T>(a: seq<T>, b: seq<T>)
    requires NoRepeats(a) && NoRepeats(b) && forall x :: x in a ==> x !in b
    ensures NoRepeats(a + b)
  {
    forall i, j | 0 <= i < j < |a + b| ensures (a + b)[i] != (a + b)[j] {
      if i < |a| <= j { assert a[i] in a && b[j - |a|] in b; }
    }
  }

  // ----- sorting a listing -----

  function Insert(x: string, s: seq<string>): seq<string> {
    if s == [] || !Less(s[0], x) then [x] + s else [s[0]] + Insert(x, s[1..])
  }

  /** `listing.sort()` */
  function SortNames(listing: seq<string>): seq<string> {
    if listing == [] then [] else Insert(listing[0], SortNames(listing[1..]))
  }

  lemma {:induction false} InsertAscending(x: string, s: seq<string>)
    requires Ascending(s) && x !in s
    ensures Ascending(Insert(x, s)) && forall y :: y in Insert(x, s) <==> y == x || y in s
  {
    if s == [] {
    } else if !Less(s[0], x) {
      LessTotal(s[0], x);
      forall j | 0 <= j < |s| ensures Less(x, s[j]) {
        if j > 0 { LessTransitive(x, s[0], s[j]); }
      }
    } else {
      InsertAscending(x, s[1..]);
      var t := Insert(x, s[1..]);
      forall y | y in t ensures Less(s[0], y) {
        if y != x { var k :| 0 <= k < |s[1..]| && s[1..][k] == y; assert y == s[k + 1]; }
      }
      assert s == [s[0]] + s[1..];
    }
  }

  /** However a directory lists its entries, the sorted listing is the same. */
  lemma {:induction false} SortingAListing(listing: seq<string>)
    requires NoRepeats(listing)
    ensures SortNames(listing) == Sorted(Elements(listing))
  {
    if listing == [] {
      SortedIs(Elements(listing), []);
    } else {
      var rest := listing[1..];
      SortingAListing(rest);
      assert listing == [listing[0]] + rest;
      assert listing[0] !in rest;
      InsertAscending(listing[0], SortNames(rest));
      SortedIs(Elements(listing), SortNames(listing));
    }
  }
}
