/** The rewrite as a whole: one transaction of four passes, and the check that nothing written during
    the run was left where it was. */
module TimelineRun {
  import opened Options
  import opened TimelineColumns
  import opened Timeline
  import opened TimelineRewrite
  import opened TimelinePasses
  import opened TimelineLaws

  datatype Outcome =
    | Done(moved: nat)
    | Refused                          // a statement failed, and the transaction was rolled back
    | LeftBehind(columns: set<Column>) // found after the commit, so the tables stay as rewritten

  /** The tables between the passes, the clock between the last two, and the cells each updated. */
  datatype Trace = Trace(followed: Cells, moved: Cells, trailed: Cells, read: int,
                         companions: set<Spot>, placed: set<Spot>, trailers: set<Spot>, leaders: set<Spot>)

  ghost predicate ThreePassed(plan: Plan, ws: seq<Window>, started: int, lo: int, read: int, notNull: set<Column>,
                              before: Cells, x: Trace)
  {
    && lo <= x.read == read
    && PassedBy(CompanionColumns(plan), before, x.followed, FollowPass(plan, ws, before))
    && PassedBy(plan.moved, x.followed, x.moved, MovePass(plan, ws))
    && PassedBy(plan.trailing, x.moved, x.trailed, LookPass(Trailing, ws, started, lo, x.read, notNull))
    && TouchedBy(CompanionColumns(plan), before, FollowHit(plan, ws, before), FollowHit(plan, ws, before), x.companions)
    && TouchedBy(plan.moved, x.followed, MoveHit(plan, ws, x.followed), MoveHit(plan, ws, x.followed), x.placed)
    && TouchedBy(plan.trailing, x.moved, TakenHit(started, lo, x.moved), TakenHit(started, x.read, x.moved), x.trailers)
  }

  ghost predicate Passed(plan: Plan, ws: seq<Window>, started: int, lo: int, hi: int, notNull: set<Column>,
                         before: Cells, x: Trace, after: Cells)
  {
    && ThreePassed(plan, ws, started, lo, x.read, notNull, before, x) && x.read <= hi
    && PassedBy(plan.leading, x.trailed, after, LookPass(Leading, ws, started, x.read, hi, notNull))
    && TouchedBy(plan.leading, x.trailed, TakenHit(started, x.read, x.trailed), TakenHit(started, hi, x.trailed),
                 x.leaders)
  }

  lemma CompanionColumnsAre(plan: Plan, c: Column)
    ensures c in CompanionColumns(plan) <==> IsCompanion(plan, c)
  {
    if c in CompanionColumns(plan) {
      var i :| 0 <= i < |plan.companions| && CompanionColumns(plan)[i] == c;
      assert plan.companions[i] in plan.companions;
    }
    if IsCompanion(plan, c) {
      var p :| p in plan.companions && p.column == c;
      var i :| 0 <= i < |plan.companions| && plan.companions[i] == p;
      assert CompanionColumns(plan)[i] == c;
    }
  }

  /** Four passes make of every cell what the rewrite may make of it. */
  lemma PassesRewrite(plan: Plan, ws: seq<Window>, started: int, lo: int, hi: int, notNull: set<Column>,
                      before: Cells, x: Trace, after: Cells)
    requires Sound(plan) && Fits(plan, before) && Passed(plan, ws, started, lo, hi, notNull, before, x, after)
    ensures Rewritten(plan, ws, started, lo, hi, before, after)
  {
    forall c, r | c in before && 0 <= r < |before[c]|
      ensures Rewrites(plan, ws, started, lo, hi, before, c, r, after[c][r])
    {
      CompanionColumnsAre(plan, c);
      if IsCompanion(plan, c) {
        assert FollowPass(plan, ws, before)(c, before[c], x.followed[c]);
        assert after[c] == x.followed[c];
      } else if c in plan.moved {
        MovedCellRewrites(plan, ws, started, lo, hi, notNull, before, x, after, c, r);
      }
    }
  }

  lemma MovedCellRewrites(plan: Plan, ws: seq<Window>, started: int, lo: int, hi: int, notNull: set<Column>,
                          before: Cells, x: Trace, after: Cells, c: Column, r: nat)
    requires Sound(plan) && Fits(plan, before) && Passed(plan, ws, started, lo, hi, notNull, before, x, after)
    requires c in plan.moved && !IsCompanion(plan, c) && c in before && r < |before[c]|
    ensures Rewrites(plan, ws, started, lo, hi, before, c, r, after[c][r])
  {
    CompanionColumnsAre(plan, c);
    assert x.followed[c] == before[c];
    assert MovePass(plan, ws)(c, before[c], x.moved[c]);
    var mid := x.moved[c][r];
    assert Moves(ws, ClockOf(plan, c), before[c][r], mid);
    if c in plan.trailing {
      assert LookPass(Trailing, ws, started, lo, x.read, notNull)(c, x.moved[c], x.trailed[c]);
      assert after[c] == x.trailed[c];
      LookWidens(Trailing, ws, started, lo, lo, x.read, hi, x.moved[c], x.trailed[c]);
    } else if c in plan.leading {
      assert x.trailed[c] == x.moved[c];
      assert LookPass(Leading, ws, started, x.read, hi, notNull)(c, x.trailed[c], after[c]);
      LookWidens(Leading, ws, started, lo, x.read, hi, hi, x.trailed[c], after[c]);
    }
  }

  /** No cell is updated twice, so the number of updates is the number of values moved. */
  lemma EachMovedOnce(plan: Plan, ws: seq<Window>, started: int, lo: int, hi: int, notNull: set<Column>,
                      before: Cells, x: Trace, after: Cells)
    requires Sound(plan) && Fits(plan, before) && Passed(plan, ws, started, lo, hi, notNull, before, x, after)
    requires Past(ws, started)
    ensures x.companions !! x.placed !! x.trailers !! x.leaders
    ensures |x.companions| + |x.placed| + |x.trailers| + |x.leaders|
              == |x.companions + x.placed + x.trailers + x.leaders|
  {
    forall s | s in x.companions ensures s !in x.placed && s !in x.trailers && s !in x.leaders {
      CompanionColumnsAre(plan, s.column);
    }
    forall s | s in x.placed ensures s !in x.trailers && s !in x.leaders {
      var c, k := s.column, ClockOf(plan, s.column);
      assert MoveHit(plan, ws, x.followed)(s);
      assert MovePass(plan, ws)(c, x.followed[c], x.moved[c]);
      var v := x.followed[c][s.row];
      var i :| 0 <= i < |ws| && Holds(ws[i], k, v.value) && x.moved[c][s.row] == Some(Place(ws[i], k, v.value));
      PlacedIsPast(ws, started, k, i, v.value);
      assert !TakenHit(started, x.read, x.moved)(s);
      if c in plan.leading {
        assert x.trailed[c] == x.moved[c];
        assert !TakenHit(started, hi, x.trailed)(s);
      }
    }
    assert forall s :: s in x.trailers ==> s !in x.leaders;
  }

  /** The cells of a column the clock has already passed, and that the run wrote. */
  ghost predicate Holding(cells: Cells, c: Column, started: int, until: int) {
    c in cells && exists r :: 0 <= r < |cells[c]| && Taken(started, until, cells[c][r])
  }

  /** The rows of one column counted, the clock read for each. */
  method CountLeft(clock: Clockwork, rows: seq<Cell>, started: int) returns (n: nat)
    modifies clock
    ensures clock.reading >= old(clock.reading)
    ensures n == 0 ==> forall r :: 0 <= r < |rows| ==> !Taken(started, old(clock.reading), rows[r])
    ensures n > 0 ==> exists r :: 0 <= r < |rows| && Taken(started, clock.reading, rows[r])
  {
    n := 0;
    ghost var found := 0;
    for i := 0 to |rows|
      invariant old(clock.reading) <= clock.reading
      invariant n == 0 ==> forall r :: 0 <= r < i ==> !Taken(started, old(clock.reading), rows[r])
      invariant n > 0 ==> 0 <= found < i && Taken(started, clock.reading, rows[found])
    {
      var now := clock.Now();
      if rows[i].Some? && started <= rows[i].value <= now {
        n, found := n + 1, i;
      }
    }
  }

  /** Every timestamp column there is, asked whether it still holds a value of the run. */
  method RequireNothingLeftBehind(clock: Clockwork, cells: Cells, started: int) returns (left: set<Column>)
    modifies clock
    ensures clock.reading >= old(clock.reading)
    ensures forall c :: Holding(cells, c, started, old(clock.reading)) ==> c in left
    ensures forall c :: c in left ==> Holding(cells, c, started, clock.reading)
  {
    left := {};
    var todo := cells.Keys;
    while todo != {}
      invariant todo <= cells.Keys && old(clock.reading) <= clock.reading
      invariant forall c :: Holding(cells, c, started, old(clock.reading)) ==> c in left || c in todo
      invariant forall c :: c in left ==> Holding(cells, c, started, clock.reading)
      decreases |todo|
    {
      var c :| c in todo;
      ghost var before := clock.reading;
      var n := CountLeft(clock, cells[c], started);
      HeldOn(cells, left, started, before, clock.reading);
      if n > 0 { left := left + {c}; }
      todo := todo - {c};
    }
  }

  lemma HeldOn(cells: Cells, left: set<Column>, started: int, until: int, later: int)
    requires until <= later && forall c :: c in left ==> Holding(cells, c, started, until)
    ensures forall c :: c in left ==> Holding(cells, c, started, later)
  {
    forall c | c in left ensures Holding(cells, c, started, later) {
      var r :| 0 <= r < |cells[c]| && Taken(started, until, cells[c][r]);
      assert Taken(started, later, cells[c][r]);
    }
  }

  /** A value of the run that no list places makes the check find its column. */
  lemma StrayValueIsCaught(plan: Plan, ws: seq<Window>, started: int, lo: int, hi: int,
                           before: Cells, after: Cells, c: Column, r: nat)
    requires Fits(plan, before) && Sound(plan) && Rewritten(plan, ws, started, lo, hi, before, after) && lo <= hi
    requires c in before && r < |before[c]| && Taken(started, lo, before[c][r])
    requires !IsCompanion(plan, c) && c !in plan.trailing && c !in plan.leading
    requires c in plan.moved ==> !InWindow(ws, ClockOf(plan, c), before[c][r])
    ensures Holding(after, c, started, hi)
  {
    StrayValueStays(plan, ws, started, lo, hi, before, after, c, r);
    assert Taken(started, hi, after[c][r]);
  }

  /** What the rewrite leaves of a value outside every window of its own is one the check counts: it was left
      and the database's clock has it in the run; or it was in the run and its second look gave it a moment not
      past; or, a companion's, it was carried with the value it follows to a moment not past. */
  ghost predicate StillOfRun(plan: Plan, ws: seq<Window>, started: int, until: int, before: Cells, c: Column, r: nat)
    requires Fits(plan, before) && c in before && r < |before[c]| && before[c][r].Some?
  {
    var t := before[c][r].value;
    if IsCompanion(plan, c) && InWindow(ws, ClockOf(plan, FollowedBy(plan, c)), before[FollowedBy(plan, c)][r]) then
      var f := FollowedBy(plan, c);
      var k := ClockOf(plan, f);
      exists i :: 0 <= i < |ws| && Holds(ws[i], k, before[f][r].value)
                  && started <= t + (ws[i].at - Start(ws[i], k)) <= until
    else
      && started <= t <= until
      && (c in plan.trailing ==> exists i :: LastBegun(ws, t, i) && started <= Place(ws[i], Db, t) <= until)
      && (c in plan.leading ==> exists i :: NextBegun(ws, t, i) && started <= ws[i].at <= until)
  }

  /** For every column there is, on whichever clock: exactly when a value that no window of its own places is
      one the check counts afterwards. Only a value written to a column with a second look while that look was
      going on is left open. */
  lemma StrayValueIsCaughtIff(plan: Plan, ws: seq<Window>, started: int, lo: int, hi: int,
                              before: Cells, after: Cells, c: Column, r: nat)
    requires Fits(plan, before) && Sound(plan) && Rewritten(plan, ws, started, lo, hi, before, after) && lo <= hi
    requires Ordered(ws, Db) && Ordered(ws, Node)
    requires c in before && r < |before[c]| && before[c][r].Some?
    requires c in plan.moved ==> !InWindow(ws, ClockOf(plan, c), before[c][r])
    requires c in plan.trailing || c in plan.leading ==> !(lo < before[c][r].value <= hi)
    ensures Taken(started, hi, after[c][r]) <==> StillOfRun(plan, ws, started, hi, before, c, r)
  {
    if IsCompanion(plan, c) {
      CompanionIsCaughtIff(plan, ws, started, lo, hi, before, after, c, r);
    } else if (c in plan.trailing || c in plan.leading) && Taken(started, lo, before[c][r]) {
      if c in plan.trailing {
        TrailingValueFollowsItsStep(plan, ws, started, lo, hi, before, after, c, r);
      } else {
        LeadingValueFollowsItsStep(plan, ws, started, lo, hi, before, after, c, r);
      }
    } else {
      UntakenValueStays(plan, ws, started, lo, hi, before, after, c, r);
    }
  }

  lemma UntakenValueStays(plan: Plan, ws: seq<Window>, started: int, lo: int, hi: int,
                          before: Cells, after: Cells, c: Column, r: nat)
    requires Fits(plan, before) && Rewritten(plan, ws, started, lo, hi, before, after)
    requires c in before && r < |before[c]| && !IsCompanion(plan, c)
    requires c in plan.moved ==> !InWindow(ws, ClockOf(plan, c), before[c][r])
    requires c in plan.trailing || c in plan.leading ==> !Taken(started, hi, before[c][r])
    ensures after[c][r] == before[c][r]
  {
    assert Rewrites(plan, ws, started, lo, hi, before, c, r, after[c][r]);
  }

  lemma CompanionIsCaughtIff(plan: Plan, ws: seq<Window>, started: int, lo: int, hi: int,
                             before: Cells, after: Cells, c: Column, r: nat)
    requires Fits(plan, before) && Sound(plan) && Rewritten(plan, ws, started, lo, hi, before, after) && lo <= hi
    requires Ordered(ws, Db) && Ordered(ws, Node) && IsCompanion(plan, c)
    requires c in before && r < |before[c]| && before[c][r].Some?
    ensures Taken(started, hi, after[c][r]) <==> StillOfRun(plan, ws, started, hi, before, c, r)
  {
    var f := FollowedBy(plan, c);
    var k := ClockOf(plan, f);
    OneFollowed(plan, c, f);
    assert Rewrites(plan, ws, started, lo, hi, before, c, r, after[c][r]);
    if InWindow(ws, k, before[f][r]) {
      var i :| 0 <= i < |ws| && Holds(ws[i], k, before[f][r].value);
      FollowsOneWindow(ws, k, before[f][r], before[c][r], after[c][r], i);
      forall j | 0 <= j < |ws| && Holds(ws[j], k, before[f][r].value) ensures j == i {
        OneWindow(ws, k, before[f][r].value, i, j);
      }
    }
  }

  // ----- stray values the check does not find -----

  /** One step of the story, a long time ago. */
  const STEP := Window(1, 2, 1, 2, -10)

  /** The same, the database's clock ten ahead of the process's own. */
  const SKEWED := Window(10, 12, 0, 2, -10)

  /** A column holds nothing later than the start of either clock. */
  ghost predicate Bygone(cells: Cells, d: Column) {
    d in cells ==> forall r :: 0 <= r < |cells[d]| && cells[d][r].Some? ==> cells[d][r].value < 0
  }

  lemma BygoneStays(plan: Plan, w: Window, started: int, at: int, before: Cells, after: Cells, d: Column)
    requires w == STEP || w == SKEWED
    requires started >= 0 && Fits(plan, before) && Rewritten(plan, [w], started, at, at, before, after)
    requires Bygone(before, d)
    ensures Bygone(after, d) && !Holding(after, d, started, at)
  {
    if d in before {
      forall r | 0 <= r < |before[d]| && after[d][r].Some? ensures after[d][r].value < 0 {
        assert Rewrites(plan, [w], started, at, at, before, d, r, after[d][r]);
      }
    }
  }

  /** A leading value that lands after the last step began is erased, and nothing is found. */
  lemma LateLeadingValueIsErased(plan: Plan, before: Cells, after: Cells, c: Column)
    requires Sound(plan) && Fits(plan, before) && c in plan.leading && before[c] == [Some(3)]
    requires (forall d :: d != c ==> Bygone(before, d)) && Rewritten(plan, [STEP], 0, 5, 5, before, after)
    ensures Taken(0, 5, before[c][0]) && !InWindow([STEP], Db, before[c][0]) && after[c] == [None]
    ensures forall d :: !Holding(after, d, 0, 5)
  {
    LeadingValueFollowsItsStep(plan, [STEP], 0, 5, 5, before, after, c, 0);
    assert after[c][0] == None;
    forall d ensures !Holding(after, d, 0, 5) { if d != c { BygoneStays(plan, STEP, 0, 5, before, after, d); } }
  }

  /** So is a companion's value written outside every step, when the value it follows was not. */
  lemma StrayCompanionIsCarried(plan: Plan, before: Cells, after: Cells, c: Column, f: Column)
    requires Sound(plan) && Fits(plan, before) && Companion(c, f) in plan.companions
    requires before[f] == [Some(1)] && before[c] == [Some(4)]
    requires (forall d :: d != c && d != f ==> Bygone(before, d)) && Rewritten(plan, [STEP], 0, 5, 5, before, after)
    ensures Taken(0, 5, before[c][0]) && !InWindow([STEP], Db, before[c][0]) && !InWindow([STEP], Node, before[c][0])
    ensures after[c] == [Some(-7)] && forall d :: !Holding(after, d, 0, 5)
  {
    OneFollowed(plan, c, f);
    assert Holds([STEP][0], ClockOf(plan, f), 1) && InWindow([STEP], ClockOf(plan, f), before[f][0]);
    assert Past([STEP], 0) && Ordered([STEP], Db) && Ordered([STEP], Node);
    CompanionKeepsDistance(plan, [STEP], 0, 5, 5, before, after, c, f, 0);
    WindowedValueMovesOnce(plan, [STEP], 0, 5, 5, before, after, f, 0, 0);
    assert after[c] == [after[c][0]] && after[f] == [after[f][0]];
    forall d ensures !Holding(after, d, 0, 5) {
      if d != c && d != f { BygoneStays(plan, STEP, 0, 5, before, after, d); }
    }
  }

  /** And a value stamped from the process's own clock after its step there is left where it was, and not
      found, when that reading lies before the run on the database's clock. */
  lemma StrayReadingIsMissed(plan: Plan, before: Cells, after: Cells, c: Column)
    requires Sound(plan) && Fits(plan, before) && c in plan.moved && c in plan.node && before[c] == [Some(4)]
    requires (forall d :: d != c ==> Bygone(before, d)) && Rewritten(plan, [SKEWED], 9, 20, 20, before, after)
    ensures End(SKEWED, Node) < 4 && !InWindow([SKEWED], Node, before[c][0]) && !InWindow([SKEWED], Db, before[c][0])
    ensures after[c] == [Some(4)] && forall d :: !Holding(after, d, 9, 20)
  {
    assert !IsCompanion(plan, c) && c !in plan.trailing && c !in plan.leading;
    UntakenValueStays(plan, [SKEWED], 9, 20, 20, before, after, c, 0);
    assert after[c] == [after[c][0]];
    forall d ensures !Holding(after, d, 9, 20) { if d != c { BygoneStays(plan, SKEWED, 9, 20, before, after, d); } }
  }

  /** By the lists as they stand: a role grant revoked after the last step began is not revoked any more. */
  lemma LateRevocationIsErased(plan: Plan, c: Column, before: Cells, after: Cells)
    requires plan == LISTS && c == Column(RoleGrants, RevokedAt)
    requires Fits(plan, before) && c in before && before[c] == [Some(3)] && forall d :: d != c ==> Bygone(before, d)
    requires Rewritten(plan, [STEP], 0, 5, 5, before, after)
    ensures c in after && after[c] == [None] && forall d :: !Holding(after, d, 0, 5)
  {
    ListsAreSound();
    assert LISTS.leading[0] == c;
    LateLeadingValueIsErased(plan, before, after, c);
  }

  /** And an upload reservation whose clean-up is put off between two steps has it put off to the past. */
  lemma LateCleanupIsCarried(plan: Plan, c: Column, f: Column, before: Cells, after: Cells)
    requires plan == LISTS
    requires c == Column(StorageUploadReservations, CleanupAfter) && f == Column(StorageUploadReservations, CreatedAt)
    requires Fits(plan, before) && c in before && f in before && before[c] == [Some(4)] && before[f] == [Some(1)]
    requires (forall d :: d != c && d != f ==> Bygone(before, d)) && Rewritten(plan, [STEP], 0, 5, 5, before, after)
    ensures c in after && after[c] == [Some(-7)] && forall d :: !Holding(after, d, 0, 5)
  {
    ListsAreSound();
    assert LISTS.companions[3] == Companion(c, f);
    StrayCompanionIsCarried(plan, before, after, c, f);
  }

  /** And an attachment bound after its step, by a process whose clock is behind the database's, stays so. */
  lemma LateBindingIsMissed(plan: Plan, c: Column, before: Cells, after: Cells)
    requires plan == LISTS && c == Column(StorageAttachments, BoundAt)
    requires Fits(plan, before) && c in before && before[c] == [Some(4)] && forall d :: d != c ==> Bygone(before, d)
    requires Rewritten(plan, [SKEWED], 9, 20, 20, before, after)
    ensures c in after && after[c] == [Some(4)] && forall d :: !Holding(after, d, 9, 20)
  {
    ListsAreSound();
    BoundAtIsListed();
    StrayReadingIsMissed(plan, before, after, c);
  }

  lemma BoundAtIsListed()
    ensures Column(StorageAttachments, BoundAt) in LISTS.moved && Column(StorageAttachments, BoundAt) in LISTS.node
  {
    assert TABLES[43] == StorageAttachments && MovedColumns(StorageAttachments)[1] == BoundAt;
    MovedOfHas(TABLES, Column(StorageAttachments, BoundAt));
  }

  /** The process's clock ten behind the database's: what the one says is in the second step the other says
      is in the first. */
  const TWO_STEPS := [Window(10, 12, 0, 2, -100), Window(20, 22, 10, 12, -50)]

  lemma EachByItsClock(plan: Plan, bound: Column, created: Column, lo: int, hi: int, before: Cells, after: Cells)
    requires Sound(plan) && bound in plan.moved && bound in plan.node && created in plan.moved && created !in plan.node
    requires Fits(plan, before) && Rewritten(plan, TWO_STEPS, 9, lo, hi, before, after)
    requires before[bound] == [Some(11)] && before[created] == [Some(11)]
    ensures after[bound] == [Some(-49)] && after[created] == [Some(-99)]
  {
    NodeValueMoves(plan, TWO_STEPS, 9, lo, hi, before, after, bound, 0, 11, 1);
    DatabaseValueMoves(plan, TWO_STEPS, 9, lo, hi, before, after, created, 0, 11, 0);
    assert after[bound] == [after[bound][0]] && after[created] == [after[created][0]];
  }

  /** Of two values alike in the tables, each goes with the step of its own clock. */
  lemma EachByItsOwnClock(plan: Plan, bound: Column, created: Column, lo: int, hi: int, before: Cells, after: Cells)
    requires plan == LISTS && bound == Column(StorageAttachments, BoundAt) && created == Column(Tenants, CreatedAt)
    requires Fits(plan, before) && Rewritten(plan, TWO_STEPS, 9, lo, hi, before, after)
    requires bound in before && created in before && before[bound] == [Some(11)] && before[created] == [Some(11)]
    ensures bound in after && created in after && after[bound] == [Some(-49)] && after[created] == [Some(-99)]
  {
    ListsAreSound();
    BoundAtIsListed();
    CreatedAtIsListed();
    EachByItsClock(plan, bound, created, lo, hi, before, after);
  }

  lemma CreatedAtIsListed()
    ensures Column(Tenants, CreatedAt) in LISTS.moved && Column(Tenants, CreatedAt) !in LISTS.node
  {
    assert TABLES[0] == Tenants && MovedColumns(Tenants)[0] == CreatedAt;
    MovedOfHas(TABLES, Column(Tenants, CreatedAt));
  }

  // ----- the transaction -----

  function Again(plan: Plan, look: Look): seq<Column> { if look.Trailing? then plan.trailing else plan.leading }

  /** A value of a required column is of the run once moved with its window, and no step is there to take it. */
  ghost predicate Unplaceable(plan: Plan, ws: seq<Window>, started: int, until: int, notNull: set<Column>,
                              before: Cells)
  {
    exists look, c, r, mid ::
      && c in Again(plan, look) && c in notNull && c in before && 0 <= r < |before[c]|
      && Moves(ws, ClockOf(plan, c), before[c][r], mid) && Taken(started, until, mid) && Unplaced(look, ws, mid.value)
  }

  /** The companions and the moved columns done, and no column touched since that is looked at now. */
  ghost predicate BeforeLook(plan: Plan, ws: seq<Window>, before: Cells, followed: Cells, moved: Cells, at: Cells,
                             look: Look)
  {
    && PassedBy(CompanionColumns(plan), before, followed, FollowPass(plan, ws, before))
    && PassedBy(plan.moved, followed, moved, MovePass(plan, ws))
    && at.Keys == moved.Keys && forall c :: c in Again(plan, look) && c in at ==> at[c] == moved[c]
  }

  lemma RefusedForUnplaceable(plan: Plan, ws: seq<Window>, started: int, until: int, notNull: set<Column>,
                              before: Cells, followed: Cells, moved: Cells, at: Cells, look: Look)
    requires Sound(plan) && BeforeLook(plan, ws, before, followed, moved, at, look)
    requires NullWanted(look, Again(plan, look), notNull, ws, started, until, at)
    ensures Unplaceable(plan, ws, started, until, notNull, before)
  {
    var c :| c in Again(plan, look) && c in notNull && c in at && SomeUnplaced(look, ws, started, until, at[c]);
    CompanionColumnsAre(plan, c);
    assert c in plan.moved && !IsCompanion(plan, c) && followed[c] == before[c];
    assert MovePass(plan, ws)(c, followed[c], moved[c]);
    var r :| 0 <= r < |moved[c]| && Taken(started, until, moved[c][r]) && Unplaced(look, ws, moved[c][r].value);
    assert Moves(ws, ClockOf(plan, c), before[c][r], moved[c][r]);
  }

  lemma TrailingLeavesLeading(plan: Plan, ws: seq<Window>, before: Cells, followed: Cells, moved: Cells,
                              trailed: Cells, rule: (Column, seq<Cell>, seq<Cell>) -> bool)
    requires Sound(plan) && BeforeLook(plan, ws, before, followed, moved, moved, Trailing)
    requires PassedBy(plan.trailing, moved, trailed, rule)
    ensures BeforeLook(plan, ws, before, followed, moved, trailed, Leading)
  {}

  /** The first three passes: what they make of the tables, or why they stop. */
  method PassThree(db: Database, plan: Plan, ws: seq<Window>, started: int)
    returns (ok: bool, n: nat, ghost x: Trace)
    requires Sound(plan) && Fits(plan, db.cells)
    modifies db`cells, db.clock
    ensures db.clock.reading >= old(db.clock.reading)
    ensures !ok ==> Unplaceable(plan, ws, started, db.clock.reading, db.notNull, old(db.cells))
    ensures ok ==> ThreePassed(plan, ws, started, old(db.clock.reading), db.clock.reading, db.notNull, old(db.cells), x)
                   && db.cells == x.trailed && n == |x.companions| + |x.placed| + |x.trailers|
    ensures ok ==> BeforeLook(plan, ws, old(db.cells), x.followed, x.moved, x.trailed, Leading)
  {
    ghost var begun, lo := db.cells, db.clock.reading;
    var n1, t1 := db.PassCompanions(plan, ws);
    ghost var followed := db.cells;
    var n2, t2 := db.PassMoved(plan, ws);
    ghost var moved := db.cells;
    var done, n3, t3 := db.PassLook(Trailing, plan.trailing, ws, started);
    ok, n, x := done, n1 + n2 + n3, Trace(followed, moved, db.cells, db.clock.reading, t1, t2, t3, {});
    if !ok {
      RefusedForUnplaceable(plan, ws, started, db.clock.reading, db.notNull, begun, followed, moved, moved, Trailing);
    } else {
      TrailingLeavesLeading(plan, ws, begun, followed, moved, db.cells,
                            LookPass(Trailing, ws, started, lo, db.clock.reading, db.notNull));
    }
  }

  /** The transaction: all four passes, or the tables as they were. */
  method Transact(db: Database, plan: Plan, ws: seq<Window>, started: int)
    returns (ok: bool, n: nat, ghost x: Trace)
    requires Sound(plan) && Fits(plan, db.cells)
    modifies db, db.clock
    ensures db.clock.reading >= old(db.clock.reading)
    ensures !ok ==> db.cells == old(db.cells)
                    && Unplaceable(plan, ws, started, db.clock.reading, db.notNull, old(db.cells))
    ensures ok ==> Passed(plan, ws, started, old(db.clock.reading), db.clock.reading, db.notNull,
                          old(db.cells), x, db.cells)
    ensures ok ==> n == |x.companions| + |x.placed| + |x.trailers| + |x.leaders|
  {
    var begun := db.cells;
    ok, n, x := PassThree(db, plan, ws, started);
    if ok {
      ghost var trailed := db.cells;
      var done, more, leaders := db.PassLook(Leading, plan.leading, ws, started);
      ok, n := done, n + more;
      if !ok {
        RefusedForUnplaceable(
          plan, ws, started, db.clock.reading, db.notNull, begun, x.followed, x.moved, trailed, Leading);
      }
      x := x.(leaders := leaders);
    }
    if !ok { db.cells := begun; }
  }

  /** `rewrite`: a count of what moved, or a refusal. `committed` is the clock when the check began. */
  method Rewrite(db: Database, timeline: Recorder, plan: Plan)
    returns (outcome: Outcome, ghost x: Trace, ghost committed: int)
    requires Sound(plan) && Fits(plan, db.cells)
    modifies db, db.clock
    ensures old(db.clock.reading) <= committed <= db.clock.reading
    ensures outcome.Refused? ==>
              && db.cells == old(db.cells)
              && Unplaceable(plan, timeline.windows, timeline.started, committed, db.notNull, old(db.cells))
    ensures !outcome.Refused? ==>
              && Passed(plan, timeline.windows, timeline.started, old(db.clock.reading), committed, db.notNull,
                        old(db.cells), x, db.cells)
              && Rewritten(plan, timeline.windows, timeline.started, old(db.clock.reading), committed,
                           old(db.cells), db.cells)
    ensures outcome.Done? ==>
              && outcome.moved == |x.companions| + |x.placed| + |x.trailers| + |x.leaders|
              && forall c :: !Holding(db.cells, c, timeline.started, committed)
    ensures outcome.LeftBehind? ==>
              && outcome.columns != {}
              && forall c :: c in outcome.columns ==> Holding(db.cells, c, timeline.started, db.clock.reading)
  {
    var ok, n, trace := Transact(db, plan, timeline.windows, timeline.started);
    x, committed := trace, db.clock.reading;
    if !ok { return Refused, x, committed; }
    PassesRewrite(plan, timeline.windows, timeline.started, old(db.clock.reading), committed, db.notNull,
                  old(db.cells), x, db.cells);
    var left := RequireNothingLeftBehind(db.clock, db.cells, timeline.started);
    outcome := if left == {} then Done(n) else LeftBehind(left);
  }
}
