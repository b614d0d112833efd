/** The statements of the rewrite, one column each: loops over the stored rows. */
module TimelineRewrite {
  import opened Options
  import opened TimelineColumns
  import opened Timeline

  // ----- rows done one by one -----

  /** What a statement did with a row: when it read the clock, whether the row was updated, and what
      the cell holds now. */
  datatype Did = Did(now: int, hit: bool, cell: Cell)

  ghost predicate DoneBy<A>(rule: (A, Did) -> bool, rows: seq<A>, did: seq<Did>) {
    |did| <= |rows| && forall r :: 0 <= r < |did| ==> rule(rows[r], did[r])
  }

  lemma OneMoreDone<A>(rule: (A, Did) -> bool, rows: seq<A>, did: seq<Did>, d: Did)
    requires DoneBy(rule, rows, did) && |did| < |rows| && rule(rows[|did|], d)
    ensures DoneBy(rule, rows, did + [d])
  {
  }

  /** How many rows a statement says it updated. */
  ghost function Hits(did: seq<Did>): nat {
    if did == [] then 0 else Hits(did[..|did| - 1]) + if did[|did| - 1].hit then 1 else 0
  }

  lemma OneMoreHit(did: seq<Did>, d: Did)
    ensures Hits(did + [d]) == Hits(did) + if d.hit then 1 else 0
  {
    assert (did + [d])[..|did|] == did;
  }

  ghost function Held(did: seq<Did>): (r: seq<Cell>)
    ensures |r| == |did| && forall i :: 0 <= i < |did| ==> r[i] == did[i].cell
  {
    seq(|did|, i requires 0 <= i < |did| => did[i].cell)
  }

  lemma OneMoreHeld(did: seq<Did>, d: Did)
    ensures Held(did + [d]) == Held(did) + [d.cell]
  {
  }

  // ----- one row -----

  /** Joined with a window that holds the time: any one, as a join has it. */
  method MoveRow(v: Cell, k: Clock, ws: seq<Window>) returns (hit: bool, v': Cell)
    ensures hit == InWindow(ws, k, v) && Moves(ws, k, v, v')
  {
    hit, v' := false, v;
    if v.Some? {
      if i :| 0 <= i < |ws| && Holds(ws[i], k, v.value) {
        hit, v' := true, Some(Place(ws[i], k, v.value));
      }
    }
  }

  method CompanionRow(f: Cell, v: Cell, k: Clock, ws: seq<Window>) returns (hit: bool, v': Cell)
    ensures hit == (InWindow(ws, k, f) && v.Some?) && Follows(ws, k, f, v, v')
  {
    hit, v' := false, v;
    if v.Some? && f.Some? {
      if i :| 0 <= i < |ws| && Holds(ws[i], k, f.value) {
        hit, v' := true, Some(v.value + (ws[i].at - Start(ws[i], k)));
      }
    }
  }

  /** `where started_at <= t order by started_at desc limit 1` */
  method FindLastBegun(ws: seq<Window>, t: int) returns (w: Option<Window>)
    ensures w.None? <==> forall u :: u in ws ==> t < u.startedAt
    ensures w.Some? ==> exists i :: LastBegun(ws, t, i) && ws[i] == w.value
  {
    w := None;
    ghost var at := -1;
    var n := 0;
    while n < |ws|
      invariant 0 <= n <= |ws|
      invariant w.None? <==> forall j :: 0 <= j < n ==> t < ws[j].startedAt
      invariant w.Some? ==> 0 <= at < n && ws[at] == w.value && w.value.startedAt <= t
      invariant w.Some? ==> forall j :: 0 <= j < n && ws[j].startedAt <= t ==> ws[j].startedAt <= w.value.startedAt
    {
      if ws[n].startedAt <= t && (w.None? || w.value.startedAt < ws[n].startedAt) {
        w, at := Some(ws[n]), n;
      }
      n := n + 1;
    }
    if w.Some? { assert LastBegun(ws, t, at); }
  }

  /** `where started_at >= t order by started_at limit 1` */
  method FindNextBegun(ws: seq<Window>, t: int) returns (w: Option<Window>)
    ensures w.None? <==> forall u :: u in ws ==> u.startedAt < t
    ensures w.Some? ==> exists i :: NextBegun(ws, t, i) && ws[i] == w.value
  {
    w := None;
    ghost var at := -1;
    var n := 0;
    while n < |ws|
      invariant 0 <= n <= |ws|
      invariant w.None? <==> forall j :: 0 <= j < n ==> ws[j].startedAt < t
      invariant w.Some? ==> 0 <= at < n && ws[at] == w.value && t <= w.value.startedAt
      invariant w.Some? ==> forall j :: 0 <= j < n && t <= ws[j].startedAt ==> w.value.startedAt <= ws[j].startedAt
    {
      if t <= ws[n].startedAt && (w.None? || ws[n].startedAt < w.value.startedAt) {
        w, at := Some(ws[n]), n;
      }
      n := n + 1;
    }
    if w.Some? { assert NextBegun(ws, t, at); }
  }

  method TrailRow(v: Cell, now: int, ws: seq<Window>, started: int) returns (hit: bool, v': Cell)
    ensures hit == Taken(started, now, v) && LooksAt(Trailing, ws, started, now, v, v')
    ensures hit && v'.None? ==> Unplaced(Trailing, ws, v.value)
  {
    hit, v' := v.Some? && started <= v.value <= now, v;
    if hit {
      var placed := FindLastBegun(ws, v.value);
      v' := if placed.Some? then Some(Place(placed.value, Db, v.value)) else None;
    }
  }

  method LeadRow(v: Cell, now: int, ws: seq<Window>, started: int) returns (hit: bool, v': Cell)
    ensures hit == Taken(started, now, v) && LooksAt(Leading, ws, started, now, v, v')
    ensures hit && v'.None? ==> Unplaced(Leading, ws, v.value)
  {
    hit, v' := v.Some? && started <= v.value <= now, v;
    if hit {
      var placed := FindNextBegun(ws, v.value);
      v' := if placed.Some? then Some(placed.value.at) else None;
    }
  }

  // ----- one statement -----

  class Clockwork {
    var reading: int

    constructor (reading: int)
      ensures this.reading == reading
    {
      this.reading := reading;
    }

    /** `clock_timestamp()`: never earlier than it was. */
    method Now() returns (t: int)
      modifies this
      ensures t == reading >= old(reading)
    {
      t :| t >= reading;
      reading := t;
    }
  }

  ghost function CompanionRule(ws: seq<Window>, k: Clock): ((Cell, Cell), Did) -> bool {
    (a: (Cell, Cell), d: Did) => d.hit == (InWindow(ws, k, a.0) && a.1.Some?) && Follows(ws, k, a.0, a.1, d.cell)
  }

  ghost function MoveRule(ws: seq<Window>, k: Clock): (Cell, Did) -> bool {
    (v, d: Did) => d.hit == InWindow(ws, k, v) && Moves(ws, k, v, d.cell)
  }

  /** The clock is read between `lo` and `hi`, and a column that may not be null never becomes so. */
  ghost function LookRule(look: Look, ws: seq<Window>, started: int, lo: int, required: bool): (Cell, Did) -> bool {
    (v, d: Did) => lo <= d.now && d.hit == Taken(started, d.now, v) && LooksAt(look, ws, started, d.now, v, d.cell)
      && (required && d.hit ==> d.cell.Some?)
  }

  ghost predicate ReadBy(did: seq<Did>, hi: int) {
    forall r :: 0 <= r < |did| ==> did[r].now <= hi
  }

  lemma OneMoreRead(did: seq<Did>, d: Did, hi: int)
    requires ReadBy(did, hi) && hi <= d.now
    ensures ReadBy(did + [d], d.now)
  {
  }

  ghost function Paired(f: seq<Cell>, v: seq<Cell>): (r: seq<(Cell, Cell)>)
    requires |f| == |v|
    ensures |r| == |v| && forall i :: 0 <= i < |v| ==> r[i] == (f[i], v[i])
  {
    seq(|v|, i requires 0 <= i < |v| => (f[i], v[i]))
  }

  method UpdateCompanion(followed: seq<Cell>, was: seq<Cell>, k: Clock, ws: seq<Window>)
    returns (rows: seq<Cell>, n: nat, ghost did: seq<Did>)
    requires |followed| == |was|
    ensures |did| == |was| && rows == Held(did) && n == Hits(did)
    ensures DoneBy(CompanionRule(ws, k), Paired(followed, was), did)
    ensures |rows| == |was| && forall r :: 0 <= r < |was| ==> Follows(ws, k, followed[r], was[r], rows[r])
  {
    ghost var rule, pairs := CompanionRule(ws, k), Paired(followed, was);
    rows, n, did := [], 0, [];
    while |rows| < |was|
      invariant |rows| <= |was| && |did| == |rows| && rows == Held(did) && n == Hits(did)
      invariant DoneBy(rule, pairs, did)
    {
      var hit, v := CompanionRow(followed[|rows|], was[|rows|], k, ws);
      ghost var d := Did(0, hit, v);
      OneMoreDone(rule, pairs, did, d);
      OneMoreHit(did, d);
      OneMoreHeld(did, d);
      rows, n, did := rows + [v], n + (if hit then 1 else 0), did + [d];
    }
    forall r | 0 <= r < |was| ensures Follows(ws, k, followed[r], was[r], rows[r]) { assert rule(pairs[r], did[r]); }
  }

  method UpdateMoved(was: seq<Cell>, k: Clock, ws: seq<Window>)
    returns (rows: seq<Cell>, n: nat, ghost did: seq<Did>)
    ensures |did| == |was| && rows == Held(did) && n == Hits(did)
    ensures DoneBy(MoveRule(ws, k), was, did)
    ensures |rows| == |was| && forall r :: 0 <= r < |was| ==> Moves(ws, k, was[r], rows[r])
  {
    ghost var rule := MoveRule(ws, k);
    rows, n, did := [], 0, [];
    while |rows| < |was|
      invariant |rows| <= |was| && |did| == |rows| && rows == Held(did) && n == Hits(did)
      invariant DoneBy(rule, was, did)
    {
      var hit, v := MoveRow(was[|rows|], k, ws);
      ghost var d := Did(0, hit, v);
      OneMoreDone(rule, was, did, d);
      OneMoreHit(did, d);
      OneMoreHeld(did, d);
      rows, n, did := rows + [v], n + (if hit then 1 else 0), did + [d];
    }
    forall r | 0 <= r < |was| ensures Moves(ws, k, was[r], rows[r]) { assert rule(was[r], did[r]); }
  }

  /** A row's value has no window to take it. */
  ghost predicate SomeUnplaced(look: Look, ws: seq<Window>, started: int, until: int, rows: seq<Cell>) {
    exists r :: 0 <= r < |rows| && Taken(started, until, rows[r]) && Unplaced(look, ws, rows[r].value)
  }

  /** Not ok when a row that must not be null would have become so. */
  method UpdateLook(look: Look, clock: Clockwork, was: seq<Cell>, ws: seq<Window>, started: int, required: bool)
    returns (ok: bool, rows: seq<Cell>, n: nat, ghost did: seq<Did>)
    modifies clock
    ensures clock.reading >= old(clock.reading)
    ensures !ok ==> required && SomeUnplaced(look, ws, started, clock.reading, was)
    ensures ok ==> |did| == |was| && rows == Held(did) && n == Hits(did) && ReadBy(did, clock.reading)
    ensures ok ==> DoneBy(LookRule(look, ws, started, old(clock.reading), required), was, did)
  {
    ghost var rule := LookRule(look, ws, started, clock.reading, required);
    ok, rows, n, did := true, [], 0, [];
    while |rows| < |was|
      invariant |rows| <= |was| && |did| == |rows| && rows == Held(did) && n == Hits(did)
      invariant old(clock.reading) <= clock.reading && ReadBy(did, clock.reading)
      invariant DoneBy(rule, was, did)
    {
      ghost var before := clock.reading;
      var now := clock.Now();
      var hit, v;
      if look.Trailing? {
        hit, v := TrailRow(was[|rows|], now, ws, started);
      } else {
        hit, v := LeadRow(was[|rows|], now, ws, started);
      }
      if hit && v.None? && required { return false, [], 0, []; }
      ghost var d := Did(now, hit, v);
      OneMoreDone(rule, was, did, d);
      OneMoreRead(did, d, before);
      OneMoreHit(did, d);
      OneMoreHeld(did, d);
      rows, n, did := rows + [v], n + (if hit then 1 else 0), did + [d];
    }
  }
}
