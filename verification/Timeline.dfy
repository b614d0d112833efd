/** Placing a seeding run in the past: every step's real window is recorded with the moment it stands
    for, and afterwards the stored times are moved from their windows to those moments. */
module Timeline {
  import opened Options
  import opened TimelineColumns

  datatype Window = Window(startedAt: int, endedAt: int, nodeStartedAt: int, nodeEndedAt: int, at: int)

  function Start(w: Window, k: Clock): int { if k.Node? then w.nodeStartedAt else w.startedAt }

  function End(w: Window, k: Clock): int { if k.Node? then w.nodeEndedAt else w.endedAt }

  /** `between` takes both ends. */
  predicate Holds(w: Window, k: Clock, t: int) { Start(w, k) <= t <= End(w, k) }

  /** A time at the step's own distance from its moment. */
  function Place(w: Window, k: Clock, t: int): int { w.at + (t - Start(w, k)) }

  class Recorder {
    var windows: seq<Window>
    var started: int

    constructor ()
      ensures windows == [] && started == 0
    {
      windows, started := [], 0;
    }

    method Begin(now: int)
      modifies this`started
      ensures started == now
    {
      started := now;
    }

    /** The readings are this process's clock, the database's, the work, the database's, this
        process's. A step that fails records nothing; one that succeeds after every window so far
        keeps the windows of a clock apart. */
    method Step(at: int, nodeStartedAt: int, startedAt: int, succeeded: bool, endedAt: int, nodeEndedAt: int)
      modifies this`windows
      ensures windows == old(windows) +
                         if succeeded then [Window(startedAt, endedAt, nodeStartedAt, nodeEndedAt, at)] else []
      ensures old(Ordered(windows, Db)) && startedAt <= endedAt
              && (forall w :: w in old(windows) ==> w.endedAt < startedAt)
              ==> Ordered(windows, Db)
      ensures old(Ordered(windows, Node)) && nodeStartedAt <= nodeEndedAt
              && (forall w :: w in old(windows) ==> w.nodeEndedAt < nodeStartedAt)
              ==> Ordered(windows, Node)
    {
      if succeeded {
        windows := windows + [Window(startedAt, endedAt, nodeStartedAt, nodeEndedAt, at)];
      }
    }
  }

  /** Windows of one clock that do not touch, in the order they were recorded. */
  ghost predicate Ordered(ws: seq<Window>, k: Clock) {
    && (forall i :: 0 <= i < |ws| ==> Start(ws[i], k) <= End(ws[i], k))
    && (forall i, j :: 0 <= i < j < |ws| ==> End(ws[i], k) < Start(ws[j], k))
  }

  /** Every step's moment, and the length of its window after it, lies before the run. */
  ghost predicate Past(ws: seq<Window>, started: int) {
    forall w, k :: w in ws ==> Place(w, k, End(w, k)) < started
  }

  // ----- what one statement may do to one cell -----

  type Cell = Option<int>

  ghost predicate InWindow(ws: seq<Window>, k: Clock, v: Cell) {
    v.Some? && exists i :: 0 <= i < |ws| && Holds(ws[i], k, v.value)
  }

  /** Moved with a window that holds it - any one, should several - or left alone. */
  ghost predicate Moves(ws: seq<Window>, k: Clock, v: Cell, v': Cell) {
    if InWindow(ws, k, v)
    then exists i :: 0 <= i < |ws| && Holds(ws[i], k, v.value) && v' == Some(Place(ws[i], k, v.value))
    else v' == v
  }

  /** Shifted by the distance the time it follows will move. */
  ghost predicate Follows(ws: seq<Window>, k: Clock, f: Cell, v: Cell, v': Cell) {
    if InWindow(ws, k, f) && v.Some?
    then exists i :: 0 <= i < |ws| && Holds(ws[i], k, f.value) && v' == Some(v.value + (ws[i].at - Start(ws[i], k)))
    else v' == v
  }

  /** The latest window begun by then, on the database's clock. */
  ghost predicate LastBegun(ws: seq<Window>, t: int, i: int) {
    0 <= i < |ws| && ws[i].startedAt <= t && forall w :: w in ws && w.startedAt <= t ==> w.startedAt <= ws[i].startedAt
  }

  /** The earliest window still to begin. */
  ghost predicate NextBegun(ws: seq<Window>, t: int, i: int) {
    0 <= i < |ws| && t <= ws[i].startedAt && forall w :: w in ws && t <= w.startedAt ==> ws[i].startedAt <= w.startedAt
  }

  ghost predicate Trails(ws: seq<Window>, t: int, v': Cell) {
    if exists w :: w in ws && w.startedAt <= t
    then exists i :: LastBegun(ws, t, i) && v' == Some(Place(ws[i], Db, t))
    else v' == None
  }

  ghost predicate Leads(ws: seq<Window>, t: int, v': Cell) {
    if exists w :: w in ws && t <= w.startedAt
    then exists i :: NextBegun(ws, t, i) && v' == Some(ws[i].at)
    else v' == None
  }

  /** The two lists that are given a second look once their windows have been moved. */
  datatype Look = Trailing | Leading

  ghost predicate Looks(look: Look, ws: seq<Window>, t: int, v': Cell) {
    if look.Trailing? then Trails(ws, t, v') else Leads(ws, t, v')
  }

  /** No window to take the value. */
  ghost predicate Unplaced(look: Look, ws: seq<Window>, t: int) {
    forall w :: w in ws ==> if look.Trailing? then t < w.startedAt else w.startedAt < t
  }

  /** A statement over `between started and clock_timestamp()`, the clock read row by row somewhere
      from `lo` to `hi`: it must take what is at most `lo` and cannot take what is beyond `hi`. */
  ghost predicate Taken(started: int, until: int, v: Cell) {
    v.Some? && started <= v.value <= until
  }

  ghost predicate LooksAt(look: Look, ws: seq<Window>, started: int, now: int, v: Cell, v': Cell) {
    if Taken(started, now, v) then Looks(look, ws, v.value, v') else v' == v
  }

  ghost predicate LooksOrStays(look: Look, ws: seq<Window>, started: int, lo: int, hi: int, v: Cell, v': Cell) {
    exists now :: lo <= now <= hi && LooksAt(look, ws, started, now, v, v')
  }

  // ----- the whole rewrite, cell by cell -----

  type Cells = map<Column, seq<Cell>>

  ghost predicate SameShape(before: Cells, after: Cells) {
    && before.Keys == after.Keys
    && forall c :: c in before ==> |before[c]| == |after[c]|
  }

  /** The tables hold every column the plan names, and a companion has a cell for each row of the
      column it follows. */
  ghost predicate Fits(plan: Plan, cells: Cells) {
    && (forall c :: c in plan.moved ==> c in cells)
    && (forall p :: p in plan.companions ==>
          p.column in cells && p.follows in cells && |cells[p.column]| == |cells[p.follows]|)
  }

  /** What a rewrite between `lo` and `hi` on the database's clock may make of one cell. */
  ghost predicate Rewrites(plan: Plan, ws: seq<Window>, started: int, lo: int, hi: int,
                           before: Cells, c: Column, r: nat, v': Cell)
    requires Fits(plan, before) && c in before && r < |before[c]|
  {
    if IsCompanion(plan, c) then
      var f := FollowedBy(plan, c);
      Follows(ws, ClockOf(plan, f), before[f][r], before[c][r], v')
    else if c in plan.moved then
      exists mid ::
        && Moves(ws, ClockOf(plan, c), before[c][r], mid)
        && (if c in plan.trailing then LooksOrStays(Trailing, ws, started, lo, hi, mid, v')
            else if c in plan.leading then LooksOrStays(Leading, ws, started, lo, hi, mid, v')
            else v' == mid)
    else v' == before[c][r]
  }

  ghost predicate Rewritten(plan: Plan, ws: seq<Window>, started: int, lo: int, hi: int, before: Cells, after: Cells)
    requires Fits(plan, before)
  {
    && SameShape(before, after)
    && forall c, r :: c in before && 0 <= r < |before[c]| ==>
         Rewrites(plan, ws, started, lo, hi, before, c, r, after[c][r])
  }
}
