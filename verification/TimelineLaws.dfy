/** What the rewrite of a seeding run promises of the values it moves. */
module TimelineLaws {
  import opened Options
  import opened TimelineColumns
  import opened Timeline

  lemma OneWindow(ws: seq<Window>, k: Clock, t: int, i: int, j: int)
    requires Ordered(ws, k) && 0 <= i < |ws| && 0 <= j < |ws| && Holds(ws[i], k, t) && Holds(ws[j], k, t)
    ensures i == j
  {
  }

  lemma PlacedIsPast(ws: seq<Window>, started: int, k: Clock, i: int, t: int)
    requires Past(ws, started) && 0 <= i < |ws| && Holds(ws[i], k, t)
    ensures Place(ws[i], k, t) < started
  {
    assert Place(ws[i], k, End(ws[i], k)) < started;
  }

  /** A value of a moved column, written in a step's window, ends at the step's moment plus its
      offset in the window, whatever the later passes do. */
  lemma WindowedValueMovesOnce(plan: Plan, ws: seq<Window>, started: int, lo: int, hi: int,
                               before: Cells, after: Cells, c: Column, r: nat, i: nat)
    requires Fits(plan, before) && Sound(plan) && Rewritten(plan, ws, started, lo, hi, before, after)
    requires Ordered(ws, ClockOf(plan, c)) && Past(ws, started)
    requires c in plan.moved && r < |before[c]| && before[c][r].Some?
    requires i < |ws| && Holds(ws[i], ClockOf(plan, c), before[c][r].value)
    ensures after[c][r] == Some(Place(ws[i], ClockOf(plan, c), before[c][r].value))
  {
    var k, v := ClockOf(plan, c), before[c][r];
    assert !IsCompanion(plan, c);
    assert Rewrites(plan, ws, started, lo, hi, before, c, r, after[c][r]);
    var mid :| Moves(ws, k, v, mid)
      && (if c in plan.trailing then LooksOrStays(Trailing, ws, started, lo, hi, mid, after[c][r])
          else if c in plan.leading then LooksOrStays(Leading, ws, started, lo, hi, mid, after[c][r])
          else after[c][r] == mid);
    var j :| 0 <= j < |ws| && Holds(ws[j], k, v.value) && mid == Some(Place(ws[j], k, v.value));
    OneWindow(ws, k, v.value, i, j);
    PlacedIsPast(ws, started, k, i, v.value);
  }

  /** Two values of one window keep their distance. */
  lemma WindowKeepsDistances(plan: Plan, ws: seq<Window>, started: int, lo: int, hi: int,
                             before: Cells, after: Cells, c: Column, r: nat, d: Column, s: nat, i: nat)
    requires Fits(plan, before) && Sound(plan) && Rewritten(plan, ws, started, lo, hi, before, after)
    requires ClockOf(plan, c) == ClockOf(plan, d) && Ordered(ws, ClockOf(plan, c)) && Past(ws, started) && i < |ws|
    requires c in plan.moved && r < |before[c]| && before[c][r].Some?
    requires d in plan.moved && s < |before[d]| && before[d][s].Some?
    requires Holds(ws[i], ClockOf(plan, c), before[c][r].value) && Holds(ws[i], ClockOf(plan, d), before[d][s].value)
    ensures after[c][r].Some? && after[d][s].Some?
    ensures after[c][r].value - after[d][s].value == before[c][r].value - before[d][s].value
  {
    WindowedValueMovesOnce(plan, ws, started, lo, hi, before, after, c, r, i);
    WindowedValueMovesOnce(plan, ws, started, lo, hi, before, after, d, s, i);
  }

  /** A companion stays as far from the time it follows as it was. */
  lemma CompanionKeepsDistance(plan: Plan, ws: seq<Window>, started: int, lo: int, hi: int,
                               before: Cells, after: Cells, c: Column, f: Column, r: nat)
    requires Fits(plan, before) && Sound(plan) && Rewritten(plan, ws, started, lo, hi, before, after)
    requires IsCompanion(plan, c) && f == FollowedBy(plan, c) && r < |before[c]|
    requires Ordered(ws, ClockOf(plan, f)) && Past(ws, started) && InWindow(ws, ClockOf(plan, f), before[f][r])
    ensures after[f][r].Some? && (after[c][r].Some? <==> before[c][r].Some?)
    ensures before[c][r].Some? ==>
              after[c][r].value - after[f][r].value == before[c][r].value - before[f][r].value
  {
    var k, t := ClockOf(plan, f), before[f][r].value;
    var i :| 0 <= i < |ws| && Holds(ws[i], k, t);
    WindowedValueMovesOnce(plan, ws, started, lo, hi, before, after, f, r, i);
    assert Follows(ws, k, before[f][r], before[c][r], after[c][r]) by {
      assert Rewrites(plan, ws, started, lo, hi, before, c, r, after[c][r]);
    }
    FollowsOneWindow(ws, k, before[f][r], before[c][r], after[c][r], i);
  }

  lemma FollowsOneWindow(ws: seq<Window>, k: Clock, f: Cell, v: Cell, v': Cell, i: int)
    requires Ordered(ws, k) && Follows(ws, k, f, v, v')
    requires f.Some? && 0 <= i < |ws| && Holds(ws[i], k, f.value)
    ensures v' == if v.Some? then Some(v.value + (Place(ws[i], k, f.value) - f.value)) else None
  {
    if v.Some? {
      var j :| 0 <= j < |ws| && Holds(ws[j], k, f.value) && v' == Some(v.value + (ws[j].at - Start(ws[j], k)));
      OneWindow(ws, k, f.value, i, j);
    }
  }

  // ----- the same in the readings themselves, clock by clock -----

  /** Steps one after the other on either clock, each told long enough before the run began. */
  ghost predicate Told(ws: seq<Window>, started: int) {
    && (forall w :: w in ws ==> w.startedAt <= w.endedAt && w.at + (w.endedAt - w.startedAt) < started)
    && (forall w :: w in ws ==> w.nodeStartedAt <= w.nodeEndedAt && w.at + (w.nodeEndedAt - w.nodeStartedAt) < started)
    && (forall i, j :: 0 <= i < j < |ws| ==> ws[i].endedAt < ws[j].startedAt && ws[i].nodeEndedAt < ws[j].nodeStartedAt)
  }

  lemma ToldIsPast(ws: seq<Window>, started: int)
    requires Told(ws, started)
    ensures Ordered(ws, Db) && Ordered(ws, Node) && Past(ws, started)
  {
    assert forall i :: 0 <= i < |ws| ==> ws[i] in ws;
  }

  /** A value stamped from the process's clock goes with the step that was under way on that clock. */
  lemma NodeValueMoves(plan: Plan, ws: seq<Window>, started: int, lo: int, hi: int,
                       before: Cells, after: Cells, c: Column, r: nat, t: int, i: nat)
    requires Fits(plan, before) && Sound(plan) && Rewritten(plan, ws, started, lo, hi, before, after)
    requires Told(ws, started) && i < |ws| && ws[i].nodeStartedAt <= t <= ws[i].nodeEndedAt
    requires c in plan.moved && c in plan.node && r < |before[c]| && before[c][r] == Some(t)
    ensures after[c][r] == Some(ws[i].at + (t - ws[i].nodeStartedAt))
  {
    ToldIsPast(ws, started);
    WindowedValueMovesOnce(plan, ws, started, lo, hi, before, after, c, r, i);
  }

  /** And any other with the step under way on the database's. */
  lemma DatabaseValueMoves(plan: Plan, ws: seq<Window>, started: int, lo: int, hi: int,
                           before: Cells, after: Cells, c: Column, r: nat, t: int, i: nat)
    requires Fits(plan, before) && Sound(plan) && Rewritten(plan, ws, started, lo, hi, before, after)
    requires Told(ws, started) && i < |ws| && ws[i].startedAt <= t <= ws[i].endedAt
    requires c in plan.moved && c !in plan.node && r < |before[c]| && before[c][r] == Some(t)
    ensures after[c][r] == Some(ws[i].at + (t - ws[i].startedAt))
  {
    ToldIsPast(ws, started);
    WindowedValueMovesOnce(plan, ws, started, lo, hi, before, after, c, r, i);
  }

  /** A companion is shifted with the step that was under way when the time it follows was stamped, by the
      process's clock if that one is stamped by it. */
  lemma NodeCompanionShifts(plan: Plan, ws: seq<Window>, started: int, lo: int, hi: int,
                            before: Cells, after: Cells, c: Column, f: Column, r: nat, v: int, t: int, i: nat)
    requires Fits(plan, before) && Sound(plan) && Rewritten(plan, ws, started, lo, hi, before, after)
    requires Told(ws, started) && i < |ws| && ws[i].nodeStartedAt <= t <= ws[i].nodeEndedAt
    requires Companion(c, f) in plan.companions && f in plan.node
    requires r < |before[c]| && before[c][r] == Some(v) && before[f][r] == Some(t)
    ensures after[c][r] == Some(v + (ws[i].at - ws[i].nodeStartedAt))
  {
    ToldIsPast(ws, started);
    CompanionFollows(plan, ws, started, lo, hi, before, after, c, f, r);
    FollowsOneWindow(ws, Node, before[f][r], before[c][r], after[c][r], i);
  }

  /** And else by the database's. */
  lemma DatabaseCompanionShifts(plan: Plan, ws: seq<Window>, started: int, lo: int, hi: int,
                                before: Cells, after: Cells, c: Column, f: Column, r: nat, v: int, t: int, i: nat)
    requires Fits(plan, before) && Sound(plan) && Rewritten(plan, ws, started, lo, hi, before, after)
    requires Told(ws, started) && i < |ws| && ws[i].startedAt <= t <= ws[i].endedAt
    requires Companion(c, f) in plan.companions && f !in plan.node
    requires r < |before[c]| && before[c][r] == Some(v) && before[f][r] == Some(t)
    ensures after[c][r] == Some(v + (ws[i].at - ws[i].startedAt))
  {
    ToldIsPast(ws, started);
    CompanionFollows(plan, ws, started, lo, hi, before, after, c, f, r);
    FollowsOneWindow(ws, Db, before[f][r], before[c][r], after[c][r], i);
  }

  /** With nothing to shift, nothing to follow, or no step under way then, it stays as it is. */
  lemma CompanionStays(plan: Plan, ws: seq<Window>, started: int, lo: int, hi: int,
                       before: Cells, after: Cells, c: Column, f: Column, r: nat)
    requires Fits(plan, before) && Sound(plan) && Rewritten(plan, ws, started, lo, hi, before, after)
    requires Companion(c, f) in plan.companions && r < |before[c]|
    requires before[c][r] == None || before[f][r] == None || OutsideAll(ws, f in plan.node, before[f][r].value)
    ensures after[c][r] == before[c][r]
  {
    CompanionFollows(plan, ws, started, lo, hi, before, after, c, f, r);
  }

  lemma CompanionFollows(plan: Plan, ws: seq<Window>, started: int, lo: int, hi: int,
                         before: Cells, after: Cells, c: Column, f: Column, r: nat)
    requires Fits(plan, before) && Sound(plan) && Rewritten(plan, ws, started, lo, hi, before, after)
    requires Companion(c, f) in plan.companions && r < |before[c]|
    ensures Follows(ws, ClockOf(plan, f), before[f][r], before[c][r], after[c][r])
  {
    OneFollowed(plan, c, f);
    assert Rewrites(plan, ws, started, lo, hi, before, c, r, after[c][r]);
  }

  /** No step was under way then, by the process's clock or by the database's. */
  ghost predicate OutsideAll(ws: seq<Window>, node: bool, t: int) {
    forall w :: w in ws ==>
      if node then t < w.nodeStartedAt || w.nodeEndedAt < t else t < w.startedAt || w.endedAt < t
  }

  lemma OutsideIs(ws: seq<Window>, t: int)
    requires OutsideAll(ws, false, t)
    ensures !InWindow(ws, Db, Some(t))
  {
  }

  lemma OneFollowed(plan: Plan, c: Column, f: Column)
    requires Sound(plan) && Companion(c, f) in plan.companions
    ensures IsCompanion(plan, c) && FollowedBy(plan, c) == f && f in plan.moved && c != f
  {
    var i :| 0 <= i < |plan.companions| && plan.companions[i] == Companion(c, f);
    FollowedIs(plan, i);
  }

  /** A moved value no step was under way at stays, unless its column gets a second look. */
  lemma OutsideValueStays(plan: Plan, ws: seq<Window>, started: int, lo: int, hi: int,
                          before: Cells, after: Cells, c: Column, r: nat, t: int)
    requires Fits(plan, before) && Sound(plan) && Rewritten(plan, ws, started, lo, hi, before, after)
    requires c in plan.moved && c !in plan.trailing && c !in plan.leading && r < |before[c]|
    requires before[c][r] == Some(t) && OutsideAll(ws, c in plan.node, t)
    ensures after[c][r] == Some(t)
  {
    assert Rewrites(plan, ws, started, lo, hi, before, c, r, after[c][r]);
  }

  /** A second look at a trailing value of the run goes by the database's clock to the last step begun. */
  lemma TrailingValueMoves(plan: Plan, ws: seq<Window>, started: int, lo: int, hi: int,
                           before: Cells, after: Cells, c: Column, r: nat, t: int, n: nat)
    requires Fits(plan, before) && Sound(plan) && Rewritten(plan, ws, started, lo, hi, before, after)
    requires Told(ws, started) && c in plan.trailing && r < |before[c]| && before[c][r] == Some(t)
    requires started <= t <= lo && OutsideAll(ws, false, t)
    requires n <= |ws| && forall j :: 0 <= j < |ws| ==> (ws[j].startedAt <= t <==> j < n)
    ensures after[c][r] == if n == 0 then None else Some(ws[n - 1].at + (t - ws[n - 1].startedAt))
  {
    ToldIsPast(ws, started);
    OutsideIs(ws, t);
    BegunByCount(ws, t, n);
    TrailingValueGoes(plan, ws, started, lo, hi, before, after, c, r, t, n);
  }

  lemma TrailingValueGoes(plan: Plan, ws: seq<Window>, started: int, lo: int, hi: int,
                          before: Cells, after: Cells, c: Column, r: nat, t: int, n: nat)
    requires Fits(plan, before) && Sound(plan) && Rewritten(plan, ws, started, lo, hi, before, after)
    requires c in plan.trailing && r < |before[c]| && Ordered(ws, Db) && n <= |ws|
    requires before[c][r] == Some(t) && Taken(started, lo, before[c][r]) && !InWindow(ws, Db, before[c][r])
    requires if n == 0 then forall i :: !LastBegun(ws, t, i) else LastBegun(ws, t, n - 1)
    ensures after[c][r] == if n == 0 then None else Some(ws[n - 1].at + (t - ws[n - 1].startedAt))
  {
    TrailingValueFollowsItsStep(plan, ws, started, lo, hi, before, after, c, r);
  }

  lemma BegunByCount(ws: seq<Window>, t: int, n: nat)
    requires Ordered(ws, Db)
    requires n <= |ws| && forall j :: 0 <= j < |ws| ==> (ws[j].startedAt <= t <==> j < n)
    ensures if n == 0 then forall i :: !LastBegun(ws, t, i) else LastBegun(ws, t, n - 1)
  {
    forall w | w in ws && w.startedAt <= t ensures n > 0 && w.startedAt <= ws[n - 1].startedAt {
      var j :| 0 <= j < |ws| && ws[j] == w;
      assert j < n && Start(ws[j], Db) <= End(ws[j], Db);
    }
  }

  /** And at a leading one to the next step to begin. */
  lemma LeadingValueMoves(plan: Plan, ws: seq<Window>, started: int, lo: int, hi: int,
                          before: Cells, after: Cells, c: Column, r: nat, t: int, n: nat)
    requires Fits(plan, before) && Sound(plan) && Rewritten(plan, ws, started, lo, hi, before, after)
    requires Told(ws, started) && c in plan.leading && r < |before[c]| && before[c][r] == Some(t)
    requires started <= t <= lo && OutsideAll(ws, false, t)
    requires n <= |ws| && forall j :: 0 <= j < |ws| ==> (t <= ws[j].startedAt <==> n <= j)
    ensures after[c][r] == if n == |ws| then None else Some(ws[n].at)
  {
    ToldIsPast(ws, started);
    OutsideIs(ws, t);
    LeadingValueFollowsItsStep(plan, ws, started, lo, hi, before, after, c, r);
    LeftByCount(ws, t, n);
  }

  lemma LeftByCount(ws: seq<Window>, t: int, n: nat)
    requires Ordered(ws, Db)
    requires n <= |ws| && forall j :: 0 <= j < |ws| ==> (t <= ws[j].startedAt <==> n <= j)
    ensures if n == |ws| then forall i :: !NextBegun(ws, t, i) else NextBegun(ws, t, n)
  {
    forall w | w in ws && t <= w.startedAt ensures n < |ws| && ws[n].startedAt <= w.startedAt {
      var j :| 0 <= j < |ws| && ws[j] == w;
      assert n <= j && Start(ws[n], Db) <= End(ws[n], Db);
    }
  }

  // ----- the order of the story -----

  /** Steps told in the order they ran, each after the length of the one before. */
  ghost predicate Spaced(ws: seq<Window>, k: Clock) {
    forall i, j :: 0 <= i < j < |ws| ==> Place(ws[i], k, End(ws[i], k)) <= ws[j].at
  }

  ghost predicate KeepsOrder(ws: seq<Window>, k: Clock) {
    forall i, j, t, u :: 0 <= i < |ws| && 0 <= j < |ws| && Holds(ws[i], k, t) && Holds(ws[j], k, u) && t <= u
      ==> Place(ws[i], k, t) <= Place(ws[j], k, u)
  }

  /** The order of everything written inside windows survives exactly when the story leaves each
      step room for its window. */
  lemma OrderSurvivesIffSpaced(ws: seq<Window>, k: Clock)
    requires Ordered(ws, k)
    ensures KeepsOrder(ws, k) <==> Spaced(ws, k)
  {
    if Spaced(ws, k) {
      forall i, j, t, u | 0 <= i < |ws| && 0 <= j < |ws| && Holds(ws[i], k, t) && Holds(ws[j], k, u) && t <= u
        ensures Place(ws[i], k, t) <= Place(ws[j], k, u)
      {
        if i < j {
          assert Place(ws[i], k, End(ws[i], k)) <= ws[j].at;
        }
      }
    }
    if KeepsOrder(ws, k) {
      forall i, j | 0 <= i < j < |ws| ensures Place(ws[i], k, End(ws[i], k)) <= ws[j].at {
        assert Holds(ws[i], k, End(ws[i], k)) && Holds(ws[j], k, Start(ws[j], k));
      }
    }
  }

  /** A stored value of a column on a clock, written in one of the clock's windows. */
  ghost predicate Stored(plan: Plan, ws: seq<Window>, k: Clock, cells: Cells, c: Column, r: nat) {
    c in plan.moved && c in cells && r < |cells[c]| && ClockOf(plan, c) == k && InWindow(ws, k, cells[c][r])
  }

  /** The rewrite keeps the order of every two values stored in windows of one clock, in whichever columns,
      if the story leaves each step room. */
  lemma StoredOrderSurvives(plan: Plan, ws: seq<Window>, k: Clock, started: int, lo: int, hi: int,
                            before: Cells, after: Cells, c: Column, r: nat, d: Column, s: nat)
    requires Fits(plan, before) && Sound(plan) && Rewritten(plan, ws, started, lo, hi, before, after)
    requires Ordered(ws, k) && Past(ws, started) && Spaced(ws, k)
    requires Stored(plan, ws, k, before, c, r) && Stored(plan, ws, k, before, d, s)
    requires before[c][r].value <= before[d][s].value
    ensures after[c][r].Some? && after[d][s].Some? && after[c][r].value <= after[d][s].value
  {
    var i :| 0 <= i < |ws| && Holds(ws[i], k, before[c][r].value);
    var j :| 0 <= j < |ws| && Holds(ws[j], k, before[d][s].value);
    WindowedValueMovesOnce(plan, ws, started, lo, hi, before, after, c, r, i);
    WindowedValueMovesOnce(plan, ws, started, lo, hi, before, after, d, s, j);
    OrderSurvivesIffSpaced(ws, k);
  }

  /** The end of a step's window and the start of a later one's. */
  ghost predicate At(ws: seq<Window>, k: Clock, i: nat, j: nat, v: Cell, u: Cell) {
    i < j < |ws| && v == Some(End(ws[i], k)) && u == Some(Start(ws[j], k))
  }

  /** If it does not, between two of its steps, then what is stored at the end of the one and at the start of
      the other is turned round. */
  lemma UnspacedStepsTurnRound(plan: Plan, ws: seq<Window>, k: Clock, started: int, lo: int, hi: int,
                               before: Cells, after: Cells, c: Column, r: nat, d: Column, s: nat, i: nat, j: nat)
    requires Fits(plan, before) && Sound(plan) && Rewritten(plan, ws, started, lo, hi, before, after)
    requires Ordered(ws, k) && Past(ws, started) && i < j < |ws| && Place(ws[i], k, End(ws[i], k)) > ws[j].at
    requires Stored(plan, ws, k, before, c, r) && Stored(plan, ws, k, before, d, s)
    requires At(ws, k, i, j, before[c][r], before[d][s])
    ensures before[c][r].value < before[d][s].value
    ensures after[c][r].Some? && after[d][s].Some? && after[c][r].value > after[d][s].value
  {
    WindowedValueMovesOnce(plan, ws, started, lo, hi, before, after, c, r, i);
    WindowedValueMovesOnce(plan, ws, started, lo, hi, before, after, d, s, j);
  }

  // ----- values between two windows -----

  /** A trailing value goes with the last step begun before it, and is lost when there is none. */
  lemma TrailingValueFollowsItsStep(plan: Plan, ws: seq<Window>, started: int, lo: int, hi: int,
                                    before: Cells, after: Cells, c: Column, r: nat)
    requires Fits(plan, before) && Sound(plan) && Rewritten(plan, ws, started, lo, hi, before, after)
    requires c in plan.trailing && r < |before[c]| && Ordered(ws, Db)
    requires Taken(started, lo, before[c][r]) && !InWindow(ws, Db, before[c][r])
    ensures after[c][r].Some? <==> exists i :: LastBegun(ws, before[c][r].value, i)
    ensures forall i :: LastBegun(ws, before[c][r].value, i) ==>
              after[c][r] == Some(Place(ws[i], Db, before[c][r].value))
  {
    assert Rewrites(plan, ws, started, lo, hi, before, c, r, after[c][r]);
    var t := before[c][r].value;
    assert Trails(ws, t, after[c][r]);
    forall i, j | LastBegun(ws, t, i) && LastBegun(ws, t, j) ensures i == j {
      assert ws[i] in ws && ws[j] in ws;
      assert ws[i].startedAt == ws[j].startedAt;
      assert Start(ws[i], Db) <= End(ws[i], Db) && Start(ws[j], Db) <= End(ws[j], Db);
    }
  }

  /** A leading value goes with the next step to begin, and is erased when there is none: a
      revocation that lands after the last step began is undone without a word. */
  lemma LeadingValueFollowsItsStep(plan: Plan, ws: seq<Window>, started: int, lo: int, hi: int,
                                   before: Cells, after: Cells, c: Column, r: nat)
    requires Fits(plan, before) && Sound(plan) && Rewritten(plan, ws, started, lo, hi, before, after)
    requires c in plan.leading && r < |before[c]| && Ordered(ws, Db)
    requires Taken(started, lo, before[c][r]) && !InWindow(ws, Db, before[c][r])
    ensures after[c][r].Some? <==> exists i :: NextBegun(ws, before[c][r].value, i)
    ensures forall i :: NextBegun(ws, before[c][r].value, i) ==> after[c][r] == Some(ws[i].at)
  {
    assert c !in plan.trailing;
    assert Rewrites(plan, ws, started, lo, hi, before, c, r, after[c][r]);
    var t := before[c][r].value;
    assert Leads(ws, t, after[c][r]);
    forall i, j | NextBegun(ws, t, i) && NextBegun(ws, t, j) ensures i == j {
      assert ws[i] in ws && ws[j] in ws;
      assert ws[i].startedAt == ws[j].startedAt;
      assert Start(ws[i], Db) <= End(ws[i], Db) && Start(ws[j], Db) <= End(ws[j], Db);
    }
  }

  // ----- what the closing check finds -----

  /** A run-time value in a column no list names, or in a listed one outside every window, is still
      there afterwards - except in the columns that are given a second look. */
  lemma StrayValueStays(plan: Plan, ws: seq<Window>, started: int, lo: int, hi: int,
                        before: Cells, after: Cells, c: Column, r: nat)
    requires Fits(plan, before) && Sound(plan) && Rewritten(plan, ws, started, lo, hi, before, after)
    requires c in before && r < |before[c]| && Taken(started, lo, before[c][r])
    requires !IsCompanion(plan, c) && c !in plan.trailing && c !in plan.leading
    requires c in plan.moved ==> !InWindow(ws, ClockOf(plan, c), before[c][r])
    ensures after[c][r] == before[c][r]
  {
    assert Rewrites(plan, ws, started, lo, hi, before, c, r, after[c][r]);
  }
}
