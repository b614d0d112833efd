/** The four passes, the transaction around them and the check that follows it. */
module TimelinePasses {
  import opened TimelineColumns
  import opened Timeline
  import opened TimelineRewrite

  /** A cell by its column and row. */
  datatype Spot = Spot(column: Column, row: nat)

  ghost function Spots(c: Column, did: seq<Did>): set<Spot> {
    set r | 0 <= r < |did| && did[r].hit :: Spot(c, r)
  }

  lemma {:induction false} HitsCountSpots(c: Column, did: seq<Did>)
    ensures Hits(did) == |Spots(c, did)|
  {
    if did == [] {
      assert Spots(c, did) == {};
    } else {
      var n := |did| - 1;
      var rest := did[..n];
      HitsCountSpots(c, rest);
      assert Spots(c, did) == Spots(c, rest) + if did[n].hit then {Spot(c, n)} else {};
      assert Spot(c, n) !in Spots(c, rest);
    }
  }

  // ----- one column after a statement -----

  ghost predicate FollowedColumn(ws: seq<Window>, k: Clock, f: seq<Cell>, was: seq<Cell>, became: seq<Cell>) {
    |f| == |was| == |became| && forall r :: 0 <= r < |was| ==> Follows(ws, k, f[r], was[r], became[r])
  }

  ghost predicate MovedColumn(ws: seq<Window>, k: Clock, was: seq<Cell>, became: seq<Cell>) {
    |was| == |became| && forall r :: 0 <= r < |was| ==> Moves(ws, k, was[r], became[r])
  }

  ghost predicate LookedColumn(look: Look, ws: seq<Window>, started: int, lo: int, hi: int,
                               was: seq<Cell>, became: seq<Cell>)
  {
    |was| == |became| && forall r :: 0 <= r < |was| ==> LooksOrStays(look, ws, started, lo, hi, was[r], became[r])
  }

  /** No null where none was. */
  ghost predicate KeepsValues(was: seq<Cell>, became: seq<Cell>) {
    |was| == |became| && forall r :: 0 <= r < |was| && was[r].Some? ==> became[r].Some?
  }

  lemma MovedBy(ws: seq<Window>, k: Clock, was: seq<Cell>, did: seq<Did>)
    requires |did| == |was| && DoneBy(MoveRule(ws, k), was, did)
    ensures MovedColumn(ws, k, was, Held(did))
    ensures forall r :: 0 <= r < |was| ==> (did[r].hit <==> InWindow(ws, k, was[r]))
  {
    forall r | 0 <= r < |was| ensures Moves(ws, k, was[r], Held(did)[r]) && (did[r].hit <==> InWindow(ws, k, was[r])) {
      assert MoveRule(ws, k)(was[r], did[r]);
    }
  }

  lemma CompanionBy(ws: seq<Window>, k: Clock, f: seq<Cell>, was: seq<Cell>, did: seq<Did>)
    requires |did| == |was| == |f| && DoneBy(CompanionRule(ws, k), Paired(f, was), did)
    ensures FollowedColumn(ws, k, f, was, Held(did))
    ensures forall r :: 0 <= r < |was| ==> (did[r].hit <==> InWindow(ws, k, f[r]) && was[r].Some?)
  {
    forall r | 0 <= r < |was|
      ensures Follows(ws, k, f[r], was[r], Held(did)[r]) && (did[r].hit <==> InWindow(ws, k, f[r]) && was[r].Some?)
    {
      assert CompanionRule(ws, k)(Paired(f, was)[r], did[r]);
    }
  }

  lemma LookedBy(look: Look, ws: seq<Window>, started: int, lo: int, hi: int, required: bool,
                 was: seq<Cell>, did: seq<Did>)
    requires |did| == |was| && DoneBy(LookRule(look, ws, started, lo, required), was, did) && ReadBy(did, hi)
    ensures LookedColumn(look, ws, started, lo, hi, was, Held(did)) && (required ==> KeepsValues(was, Held(did)))
    ensures forall r :: 0 <= r < |was| ==>
              (did[r].hit ==> Taken(started, hi, was[r])) && (Taken(started, lo, was[r]) ==> did[r].hit)
  {
    forall r | 0 <= r < |was|
      ensures LooksOrStays(look, ws, started, lo, hi, was[r], Held(did)[r])
      ensures required && was[r].Some? ==> Held(did)[r].Some?
      ensures (did[r].hit ==> Taken(started, hi, was[r])) && (Taken(started, lo, was[r]) ==> did[r].hit)
    {
      assert LookRule(look, ws, started, lo, required)(was[r], did[r]);
    }
  }

  // ----- the passes -----

  /** The columns of `cs` before and after a pass, each by its own rule; every other column as it was. */
  ghost predicate PassedBy(cs: seq<Column>, was: Cells, became: Cells, rule: (Column, seq<Cell>, seq<Cell>) -> bool) {
    && was.Keys == became.Keys
    && (forall c :: c in was ==> |became[c]| == |was[c]|)
    && (forall c :: c in was && c !in cs ==> became[c] == was[c])
    && (forall c :: c in was && c in cs ==> rule(c, was[c], became[c]))
  }

  lemma OneMorePassed(cs: seq<Column>, n: nat, was: Cells, mid: Cells, rows: seq<Cell>,
                      rule: (Column, seq<Cell>, seq<Cell>) -> bool)
    requires n < |cs| && Distinct(cs) && cs[n] in was && PassedBy(cs[..n], was, mid, rule)
    requires |rows| == |was[cs[n]]| && rule(cs[n], was[cs[n]], rows)
    ensures PassedBy(cs[..n + 1], was, mid[cs[n] := rows], rule)
  {
    assert cs[..n + 1] == cs[..n] + [cs[n]];
    assert cs[n] !in cs[..n];
  }

  lemma NotYetPassed(cs: seq<Column>, n: nat, was: Cells, mid: Cells, rule: (Column, seq<Cell>, seq<Cell>) -> bool)
    requires n < |cs| && Distinct(cs) && cs[n] in was && PassedBy(cs[..n], was, mid, rule)
    ensures mid[cs[n]] == was[cs[n]]
  {
    assert cs[n] !in cs[..n];
  }

  /** The cells a pass updated: all it had to, and none it may not. */
  ghost predicate TouchedBy(cs: seq<Column>, was: Cells, must: Spot -> bool, may: Spot -> bool, touched: set<Spot>) {
    && (forall s :: s in touched ==> s.column in cs && s.column in was && s.row < |was[s.column]| && may(s))
    && (forall s: Spot :: s.column in cs && s.column in was && s.row < |was[s.column]| && must(s) ==> s in touched)
  }

  lemma OneMoreTouched(cs: seq<Column>, n: nat, was: Cells, must: Spot -> bool, may: Spot -> bool,
                       touched: set<Spot>, did: seq<Did>)
    requires n < |cs| && Distinct(cs) && cs[n] in was && TouchedBy(cs[..n], was, must, may, touched)
    requires |did| == |was[cs[n]]|
    requires forall r :: 0 <= r < |did| && did[r].hit ==> may(Spot(cs[n], r))
    requires forall r :: 0 <= r < |did| && must(Spot(cs[n], r)) ==> did[r].hit
    ensures TouchedBy(cs[..n + 1], was, must, may, touched + Spots(cs[n], did))
    ensures |touched + Spots(cs[n], did)| == |touched| + Hits(did)
  {
    var c := cs[n];
    assert cs[..n + 1] == cs[..n] + [c] && c !in cs[..n];
    CountedApart(c, touched, did);
    TouchedAlso(cs[..n], c, was, must, may, touched, did);
  }

  lemma TouchedAlso(cs: seq<Column>, c: Column, was: Cells, must: Spot -> bool, may: Spot -> bool,
                    touched: set<Spot>, did: seq<Did>)
    requires c in was && |did| == |was[c]| && TouchedBy(cs, was, must, may, touched)
    requires forall r :: 0 <= r < |did| && did[r].hit ==> may(Spot(c, r))
    requires forall r :: 0 <= r < |did| && must(Spot(c, r)) ==> did[r].hit
    ensures TouchedBy(cs + [c], was, must, may, touched + Spots(c, did))
  {
    forall s: Spot | s.column in cs + [c] && s.column in was && s.row < |was[s.column]| && must(s)
      ensures s in touched + Spots(c, did)
    {
      if s.column == c { assert s == Spot(c, s.row); }
    }
  }

  lemma CountedApart(c: Column, touched: set<Spot>, did: seq<Did>)
    requires forall s :: s in touched ==> s.column != c
    ensures |touched + Spots(c, did)| == |touched| + Hits(did)
  {
    HitsCountSpots(c, did);
    assert touched !! Spots(c, did);
  }

  // what each pass makes of a column, and which rows it updates

  ghost function FollowPass(plan: Plan, ws: seq<Window>, cells: Cells): (Column, seq<Cell>, seq<Cell>) -> bool {
    (c, was, became) => IsCompanion(plan, c) && FollowedBy(plan, c) in cells
      && FollowedColumn(ws, ClockOf(plan, FollowedBy(plan, c)), cells[FollowedBy(plan, c)], was, became)
  }

  ghost function FollowHit(plan: Plan, ws: seq<Window>, cells: Cells): Spot -> bool {
    (s: Spot) =>
      IsCompanion(plan, s.column) && s.column in cells && s.row < |cells[s.column]| && cells[s.column][s.row].Some?
      && var f := FollowedBy(plan, s.column);
         f in cells && s.row < |cells[f]| && InWindow(ws, ClockOf(plan, f), cells[f][s.row])
  }

  ghost function MovePass(plan: Plan, ws: seq<Window>): (Column, seq<Cell>, seq<Cell>) -> bool {
    (c, was, became) => MovedColumn(ws, ClockOf(plan, c), was, became)
  }

  ghost function MoveHit(plan: Plan, ws: seq<Window>, cells: Cells): Spot -> bool {
    (s: Spot) =>
      s.column in cells && s.row < |cells[s.column]| && InWindow(ws, ClockOf(plan, s.column), cells[s.column][s.row])
  }

  ghost function LookPass(look: Look, ws: seq<Window>, started: int, lo: int, hi: int, notNull: set<Column>):
    (Column, seq<Cell>, seq<Cell>) -> bool
  {
    (c, was, became) =>
      LookedColumn(look, ws, started, lo, hi, was, became) && (c in notNull ==> KeepsValues(was, became))
  }

  ghost function TakenHit(started: int, until: int, cells: Cells): Spot -> bool {
    (s: Spot) => s.column in cells && s.row < |cells[s.column]| && Taken(started, until, cells[s.column][s.row])
  }

  lemma CompanionStep(plan: Plan, ws: seq<Window>, was: Cells, i: nat, did: seq<Did>)
    requires Sound(plan) && Fits(plan, was) && i < |plan.companions|
    requires var p := plan.companions[i];
             && p in plan.companions && |did| == |was[p.column]|
             && DoneBy(CompanionRule(ws, ClockOf(plan, p.follows)), Paired(was[p.follows], was[p.column]), did)
    ensures var c := plan.companions[i].column;
            && FollowPass(plan, ws, was)(c, was[c], Held(did))
            && forall r :: 0 <= r < |did| ==> (did[r].hit <==> FollowHit(plan, ws, was)(Spot(c, r)))
  {
    var p := plan.companions[i];
    FollowedIs(plan, i);
    CompanionBy(ws, ClockOf(plan, p.follows), was[p.follows], was[p.column], did);
  }

  lemma LookWidens(look: Look, ws: seq<Window>, started: int, lo: int, lo': int, hi: int, hi': int,
                   was: seq<Cell>, became: seq<Cell>)
    requires LookedColumn(look, ws, started, lo', hi, was, became) && lo <= lo' && hi <= hi'
    ensures LookedColumn(look, ws, started, lo, hi', was, became)
  {
    forall r | 0 <= r < |was| ensures LooksOrStays(look, ws, started, lo, hi', was[r], became[r]) {
      var now :| lo' <= now <= hi && LooksAt(look, ws, started, now, was[r], became[r]);
      assert lo <= now <= hi';
    }
  }

  lemma LookLater(look: Look, ws: seq<Window>, started: int, lo: int, hi: int, hi': int, notNull: set<Column>,
                  cs: seq<Column>, was: Cells, became: Cells, touched: set<Spot>)
    requires hi <= hi' && PassedBy(cs, was, became, LookPass(look, ws, started, lo, hi, notNull))
    requires TouchedBy(cs, was, TakenHit(started, lo, was), TakenHit(started, hi, was), touched)
    ensures PassedBy(cs, was, became, LookPass(look, ws, started, lo, hi', notNull))
    ensures TouchedBy(cs, was, TakenHit(started, lo, was), TakenHit(started, hi', was), touched)
  {
    forall c | c in was && c in cs ensures LookPass(look, ws, started, lo, hi', notNull)(c, was[c], became[c]) {
      assert LookPass(look, ws, started, lo, hi, notNull)(c, was[c], became[c]);
      LookWidens(look, ws, started, lo, lo, hi, hi', was[c], became[c]);
    }
    forall s | s in touched ensures TakenHit(started, hi', was)(s) {
      var may := TakenHit(started, hi, was);
      assert may(s);
    }
  }

  /** A required column holds a value no step is there to take. */
  ghost predicate NullWanted(look: Look, cs: seq<Column>, notNull: set<Column>, ws: seq<Window>,
                             started: int, until: int, cells: Cells)
  {
    exists c :: c in cs && c in notNull && c in cells && SomeUnplaced(look, ws, started, until, cells[c])
  }

  class Database {
    var cells: Cells
    const clock: Clockwork
    const notNull: set<Column>

    constructor (cells: Cells, clock: Clockwork, notNull: set<Column>)
      ensures this.cells == cells && this.clock == clock && this.notNull == notNull
    {
      this.cells, this.clock, this.notNull := cells, clock, notNull;
    }

    method PassCompanions(plan: Plan, ws: seq<Window>) returns (n: nat, ghost touched: set<Spot>)
      requires Sound(plan) && Fits(plan, cells)
      modifies this`cells
      ensures PassedBy(CompanionColumns(plan), old(cells), cells, FollowPass(plan, ws, old(cells))) && n == |touched|
      ensures TouchedBy(CompanionColumns(plan), old(cells), FollowHit(plan, ws, old(cells)),
                        FollowHit(plan, ws, old(cells)), touched)
    {
      ghost var was, rule, hit := cells, FollowPass(plan, ws, cells), FollowHit(plan, ws, cells);
      ghost var cs := CompanionColumns(plan);
      n, touched := 0, {};
      var i := 0;
      while i < |plan.companions|
        invariant 0 <= i <= |plan.companions| && n == |touched|
        invariant PassedBy(cs[..i], was, cells, rule)
        invariant TouchedBy(cs[..i], was, hit, hit, touched)
      {
        var p := plan.companions[i];
        var k := ClockOf(plan, p.follows);
        FollowedIs(plan, i);
        NotYetPassed(cs, i, was, cells, rule);
        assert cells[p.follows] == was[p.follows] && cells[p.column] == was[p.column];
        var rows, hits, did := UpdateCompanion(cells[p.follows], cells[p.column], k, ws);
        CompanionStep(plan, ws, was, i, did);
        OneMorePassed(cs, i, was, cells, rows, rule);
        OneMoreTouched(cs, i, was, hit, hit, touched, did);
        cells := cells[p.column := rows];
        n, touched := n + hits, touched + Spots(p.column, did);
        i := i + 1;
      }
      assert cs[..i] == cs;
    }

    method PassMoved(plan: Plan, ws: seq<Window>) returns (n: nat, ghost touched: set<Spot>)
      requires Distinct(plan.moved) && forall c :: c in plan.moved ==> c in cells
      modifies this`cells
      ensures PassedBy(plan.moved, old(cells), cells, MovePass(plan, ws)) && n == |touched|
      ensures TouchedBy(plan.moved, old(cells), MoveHit(plan, ws, old(cells)), MoveHit(plan, ws, old(cells)), touched)
    {
      ghost var was, rule, hit := cells, MovePass(plan, ws), MoveHit(plan, ws, cells);
      n, touched := 0, {};
      var i := 0;
      while i < |plan.moved|
        invariant 0 <= i <= |plan.moved| && n == |touched|
        invariant PassedBy(plan.moved[..i], was, cells, rule)
        invariant TouchedBy(plan.moved[..i], was, hit, hit, touched)
      {
        var c := plan.moved[i];
        NotYetPassed(plan.moved, i, was, cells, rule);
        var rows, hits, did := UpdateMoved(cells[c], ClockOf(plan, c), ws);
        MovedBy(ws, ClockOf(plan, c), was[c], did);
        OneMorePassed(plan.moved, i, was, cells, rows, rule);
        OneMoreTouched(plan.moved, i, was, hit, hit, touched, did);
        cells := cells[c := rows];
        n, touched := n + hits, touched + Spots(c, did);
        i := i + 1;
      }
      assert plan.moved[..i] == plan.moved;
    }

    /** The trailing columns or the leading ones. */
    method PassLook(look: Look, cs: seq<Column>, ws: seq<Window>, started: int)
      returns (ok: bool, n: nat, ghost touched: set<Spot>)
      requires Distinct(cs) && forall c :: c in cs ==> c in cells
      modifies this`cells, clock
      ensures clock.reading >= old(clock.reading) && cells.Keys == old(cells.Keys)
      ensures !ok ==> NullWanted(look, cs, notNull, ws, started, clock.reading, old(cells))
      ensures ok ==> n == |touched| && PassedBy(cs, old(cells), cells,
                       LookPass(look, ws, started, old(clock.reading), clock.reading, notNull))
      ensures ok ==> TouchedBy(cs, old(cells), TakenHit(started, old(clock.reading), old(cells)),
                       TakenHit(started, clock.reading, old(cells)), touched)
    {
      ghost var was, lo := cells, clock.reading;
      ok, n, touched := true, 0, {};
      var i := 0;
      while i < |cs|
        invariant 0 <= i <= |cs| && n == |touched| && lo <= clock.reading
        invariant PassedBy(cs[..i], was, cells, LookPass(look, ws, started, lo, clock.reading, notNull))
        invariant TouchedBy(cs[..i], was, TakenHit(started, lo, was), TakenHit(started, clock.reading, was), touched)
      {
        var c := cs[i];
        ghost var before := clock.reading;
        NotYetPassed(cs, i, was, cells, LookPass(look, ws, started, lo, before, notNull));
        var done, rows, hits, did := UpdateLook(look, clock, cells[c], ws, started, c in notNull);
        if !done { return false, 0, {}; }
        LookedBy(look, ws, started, before, clock.reading, c in notNull, was[c], did);
        LookLater(look, ws, started, lo, before, clock.reading, notNull, cs[..i], was, cells, touched);
        LookWidens(look, ws, started, lo, before, clock.reading, clock.reading, was[c], rows);
        OneMorePassed(cs, i, was, cells, rows, LookPass(look, ws, started, lo, clock.reading, notNull));
        OneMoreTouched(cs, i, was, TakenHit(started, lo, was), TakenHit(started, clock.reading, was), touched, did);
        cells := cells[c := rows];
        n, touched := n + hits, touched + Spots(c, did);
        i := i + 1;
      }
      assert cs[..i] == cs;
    }
  }
}
