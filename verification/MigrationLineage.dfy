/** The lineage a tree holds, and databases brought forward along it. */
module MigrationLineage {
  import opened Ordering
  import opened MigrationGate

  /** The files the migrator lists: directly in the folder, and `.sql`. */
  ghost function Names(t: Tree): set<string> {
    set p | p in t && Flat(p) && IsSql(p)
  }

  /** Oldest first. */
  ghost function Lineage(t: Tree): (r: seq<string>)
    ensures Ascending(r) && forall n :: n in r <==> n in Names(t)
  {
    Sorted(Names(t))
  }

  /** `readdirSync(folder).filter(endsWith('.sql')).sort()` */
  function CommittedLineage(listing: seq<string>): seq<string> {
    SortNames(SqlOnly(listing))
  }

  function SqlOnly(listing: seq<string>): (r: seq<string>)
    ensures forall n :: n in r <==> n in listing && IsSql(n)
  {
    if listing == [] then []
    else (if IsSql(listing[0]) then [listing[0]] else []) + SqlOnly(listing[1..])
  }

  lemma {:induction false} SqlOnlyKeepsApart(listing: seq<string>)
    requires NoRepeats(listing)
    ensures NoRepeats(SqlOnly(listing))
  {
    if listing != [] {
      SqlOnlyKeepsApart(listing[1..]);
      assert listing[0] !in listing[1..];
    }
  }

  /** Whatever order the folder lists its files in, the committed lineage is the tree's. */
  lemma CommittedLineageIsLineage(t: Tree, listing: seq<string>)
    requires NoRepeats(listing) && forall p :: p in listing <==> p in t && Flat(p)
    ensures CommittedLineage(listing) == Lineage(t)
  {
    SqlOnlyKeepsApart(listing);
    SortingAListing(SqlOnly(listing));
    assert Elements(SqlOnly(listing)) == Names(t);
  }

  // ----- the lineage grows at its end -----

  ghost function NewNames(lines: set<Line>, b: Tree, h: Tree): set<string> {
    Names(Additions(lines, b, h))
  }

  lemma NewNamesAreLate(policy: Policy, lines: set<Line>, b: Tree, h: Tree, had: string, gained: string)
    requires Gate(policy, lines, b, h).Accepted?
    requires had in Names(b) && MigrationFile(had) && gained in NewNames(lines, b, h)
    ensures MigrationFile(gained) && Less(had, gained)
  {
    AddedIsLate(policy, lines, b, h, had, gained);
  }

  /** The merged lineage is the base's with the added names behind it, exactly when no file on the
      base that the naming rule would refuse sorts after an added one. */
  lemma LineageGrowsAtEnd(policy: Policy, lines: set<Line>, b: Tree, h: Tree)
    requires Gate(policy, lines, b, h).Accepted?
    ensures Lineage(b + Additions(lines, b, h)) == Lineage(b) + Sorted(NewNames(lines, b, h))
            <==> forall p, q :: p in Names(b) && !MigrationFile(p) && q in NewNames(lines, b, h) ==> Less(p, q)
  {
    NamesOfSum(b, Additions(lines, b, h));
    SortedAppends(Names(b), NewNames(lines, b, h));
    OnlyMisnamedMatter(policy, lines, b, h);
  }

  lemma NamesOfSum(b: Tree, more: Tree)
    ensures Names(b + more) == Names(b) + Names(more)
  {}

  lemma OnlyMisnamedMatter(policy: Policy, lines: set<Line>, b: Tree, h: Tree)
    requires Gate(policy, lines, b, h).Accepted?
    ensures Before(Names(b), NewNames(lines, b, h))
            <==> forall p, q :: p in Names(b) && !MigrationFile(p) && q in NewNames(lines, b, h) ==> Less(p, q)
  {
    forall p, q | p in Names(b) && MigrationFile(p) && q in NewNames(lines, b, h) ensures Less(p, q) {
      NewNamesAreLate(policy, lines, b, h, p, q);
    }
  }

  // ----- databases -----

  /** One ledger entry, with the SQL that ran under the name. The ledger itself keeps the name. */
  datatype Applied = Applied(name: string, sql: Blob)

  type History = seq<Applied>

  ghost function Ledger(d: History): (r: seq<string>)
    ensures |r| == |d| && forall i :: 0 <= i < |d| ==> r[i] == d[i].name
  {
    seq(|d|, i requires 0 <= i < |d| => d[i].name)
  }

  /** Applies what is pending, in the order of the names. */
  ghost function Bring(d: History, t: Tree, names: seq<string>): History
    requires forall n :: n in names ==> n in t
    decreases names
  {
    if names == [] then d
    else if names[0] in Ledger(d) then Bring(d, t, names[1..])
    else Bring(d + [Applied(names[0], t[names[0]])], t, names[1..])
  }

  ghost function Deploy(d: History, t: Tree): History {
    Bring(d, t, Lineage(t))
  }

  ghost function Runs(t: Tree, names: seq<string>): (r: History)
    requires forall n :: n in names ==> n in t
    ensures |r| == |names|
  {
    seq(|names|, i requires 0 <= i < |names| => Applied(names[i], t[names[i]]))
  }

  /** What a database built today has run. */
  ghost function Fresh(t: Tree): History {
    Runs(t, Lineage(t))
  }

  ghost predicate Prefix(a: History, b: History) {
    |a| <= |b| && b[..|a|] == a
  }

  /** A history that is the beginning of a list of names is brought to the whole of it. */
  lemma {:induction false} BringFromPrefix(d: History, t: Tree, names: seq<string>, done: seq<string>)
    requires NoRepeats(done + names) && forall n :: n in names + done ==> n in t
    requires Prefix(d, Runs(t, done + names)) && |d| >= |done|
    ensures Bring(d, t, names) == Runs(t, done + names)
    decreases names
  {
    var all := done + names;
    if names == [] {
      assert d == Runs(t, all);
    } else {
      assert done + [names[0]] + names[1..] == all;
      assert all[|done|] == names[0];
      if |d| > |done| {
        assert d[|done|] == Runs(t, all)[|done|];
        assert Ledger(d)[|done|] == names[0];
        BringFromPrefix(d, t, names[1..], done + [names[0]]);
      } else {
        assert forall i :: 0 <= i < |d| ==> Ledger(d)[i] == Runs(t, all)[i].name == all[i];
        assert names[0] !in Ledger(d);
        var next := d + [Applied(names[0], t[names[0]])];
        assert Prefix(next, Runs(t, all));
        BringFromPrefix(next, t, names[1..], done + [names[0]]);
      }
    }
  }

  /** A database somewhere along the lineage is brought to where a fresh one is. */
  lemma DeployReachesFresh(d: History, t: Tree)
    requires Prefix(d, Fresh(t))
    ensures Deploy(d, t) == Fresh(t)
  {
    AscendingHasNoRepeats(Lineage(t));
    assert [] + Lineage(t) == Lineage(t);
    BringFromPrefix(d, t, Lineage(t), []);
  }

  lemma PrefixTransitive(a: History, b: History, c: History)
    requires Prefix(a, b) && Prefix(b, c)
    ensures Prefix(a, c)
  {
    assert c[..|a|] == c[..|b|][..|a|];
  }

  // ----- what a merge makes of the lineage -----

  function RenameTargets(lines: set<Line>): set<string> { set l | l in lines && l.Renamed? :: l.to }

  /** The names a change brings to a trunk, those it renames to included. */
  ghost function GainedNames(lines: set<Line>, b: Tree): set<string> {
    set n | n in AddedPaths(lines) + RenameTargets(lines) && n !in b && Flat(n) && IsSql(n)
  }

  /** No migration of the trunk is renamed away, and all that is gained sorts after all that is there. */
  ghost predicate KeepsOrder(lines: set<Line>, b: Tree) {
    && (forall l :: l in lines && l.Renamed? ==> l.from !in Names(b))
    && Before(Names(b), GainedNames(lines, b))
  }

  /** One path after a clean merge of a change accepted against any base: kept as the trunk has it, lost
      when renamed away, or gained. */
  lemma MergedAt(policy: Policy, lines: set<Line>, judged: Tree, m: Tree, b: Tree, h: Tree, t: Tree, p: string)
    requires Describes(lines, m, h) && Gate(policy, lines, judged, h).Accepted? && Merge(m, b, h) == Clean(t)
    ensures p in b && p in t ==> t[p] == b[p]
    ensures p in b ==> (p !in t <==> exists l :: l in lines && l.Renamed? && l.from == p)
    ensures p !in b ==> (p in t <==> p in AddedPaths(lines) + RenameTargets(lines))
  {
    AcceptedIffAcceptable(policy, lines, judged, h);
    MergeIs(m, b, h, t);
    assert !Torn(m, b, h, p) && Resolve(m, b, h, p) == At(t, p);
    AddedPathsAre(lines, m, h);
    assert p in RenameTargets(lines) <==> exists l :: l in lines && l.Renamed? && l.to == p;
  }

  lemma MergedNames(policy: Policy, lines: set<Line>, judged: Tree, m: Tree, b: Tree, h: Tree, t: Tree)
    requires Describes(lines, m, h) && Gate(policy, lines, judged, h).Accepted? && Merge(m, b, h) == Clean(t)
    ensures Names(t) - Names(b) == GainedNames(lines, b)
    ensures Names(b) <= Names(t) <==> forall l :: l in lines && l.Renamed? ==> l.from !in Names(b)
    ensures forall n :: n in Names(b) && n in t ==> t[n] == b[n]
  {
    forall p
      ensures p in b && p in t ==> t[p] == b[p]
      ensures p in b ==> (p !in t <==> exists l :: l in lines && l.Renamed? && l.from == p)
      ensures p !in b ==> (p in t <==> p in AddedPaths(lines) + RenameTargets(lines))
    {
      MergedAt(policy, lines, judged, m, b, h, t, p);
    }
  }

  lemma RunsContinueIff(b: Tree, xs: seq<string>, t: Tree, ys: seq<string>)
    requires (forall n :: n in xs ==> n in b) && (forall n :: n in ys ==> n in t)
    ensures Prefix(Runs(b, xs), Runs(t, ys)) <==> Continues(xs, ys) && forall n :: n in xs ==> At(t, n) == At(b, n)
  {
    if Continues(xs, ys) && forall n :: n in xs ==> At(t, n) == At(b, n) {
      forall i | 0 <= i < |xs| ensures Runs(t, ys)[i] == Runs(b, xs)[i] {
        assert xs[i] in xs && ys[..|xs|][i] == xs[i] == ys[i] && ys[i] in ys;
      }
    }
    if Prefix(Runs(b, xs), Runs(t, ys)) {
      forall i | 0 <= i < |xs| ensures ys[i] == xs[i] && At(t, xs[i]) == At(b, xs[i]) {
        assert Runs(t, ys)[..|xs|][i] == Runs(b, xs)[i] && ys[i] in ys;
      }
    }
  }

  /** A database that was up to date is brought to the fresh one exactly when it has run its beginning. */
  lemma UpgradedIsFreshIff(b: Tree, t: Tree)
    ensures Deploy(Fresh(b), t) == Fresh(t) <==> Prefix(Fresh(b), Fresh(t))
  {
    if Prefix(Fresh(b), Fresh(t)) { DeployReachesFresh(Fresh(b), t); }
    BringKeeps(Fresh(b), t, Lineage(t));
  }

  /** The names a merge brings: HEAD's, of those neither the merge base nor the trunk has. */
  ghost function Brought(m: Tree, b: Tree, h: Tree): set<string> {
    set n | n in Names(h) && n !in m && n !in b
  }

  /** HEAD keeps what the merge base and the trunk agree on of the trunk's migrations, and all the merge brings
      sorts after all that are there. */
  ghost predicate KeepsTrunk(m: Tree, b: Tree, h: Tree) {
    && (forall n :: n in Names(b) && At(m, n) == At(b, n) ==> At(h, n) == At(b, n))
    && Before(Names(b), Brought(m, b, h))
  }

  lemma MergeKeeps(m: Tree, b: Tree, h: Tree, t: Tree)
    requires Merge(m, b, h) == Clean(t)
    ensures forall n :: n in b ==> (At(t, n) == At(b, n) <==> (At(m, n) == At(b, n) ==> At(h, n) == At(b, n)))
    ensures Names(t) - Names(b) == Brought(m, b, h)
  {
    MergeIs(m, b, h, t);
    forall n ensures !Torn(m, b, h, n) && Resolve(m, b, h, n) == At(t, n) {}
  }

  /** Of any clean merge at all, whatever the gate saw of it: a database that was up to date before and one
      built after agree - the same files in the same order - exactly when the merge keeps the trunk so. */
  lemma MergedAgreesIff(m: Tree, b: Tree, h: Tree, t: Tree)
    requires Merge(m, b, h) == Clean(t)
    ensures Prefix(Fresh(b), Fresh(t)) <==> KeepsTrunk(m, b, h)
    ensures Deploy(Fresh(b), t) == Fresh(t) <==> KeepsTrunk(m, b, h)
  {
    MergeKeeps(m, b, h, t);
    FreshContinuesIff(b, t, Names(b), Names(t));
    UpgradedIsFreshIff(b, t);
    forall n | n in Names(b)
      ensures At(t, n) == At(b, n) <==> (At(m, n) == At(b, n) ==> At(h, n) == At(b, n))
    {
      assert n in b;
    }
  }

  lemma FreshContinuesIff(b: Tree, t: Tree, had: set<string>, has: set<string>)
    requires had == Names(b) && has == Names(t)
    ensures Prefix(Fresh(b), Fresh(t)) <==> (forall n :: n in had ==> At(t, n) == At(b, n)) && Before(had, has - had)
  {
    SortedContinuesIff(had, has);
    RunsContinueIff(b, Lineage(b), t, Lineage(t));
    if forall n :: n in had ==> At(t, n) == At(b, n) { NamesKept(b, t); }
    assert forall n :: n in Lineage(b) <==> n in had;
  }

  lemma NamesKept(b: Tree, t: Tree)
    requires forall n :: n in Names(b) ==> At(t, n) == At(b, n)
    ensures Names(b) <= Names(t)
  {
    forall n | n in Names(b) ensures n in Names(t) { assert At(t, n) == At(b, n); }
  }

  /** Whatever base it was judged against, an accepted change that merges cleanly from the merge base it was
      judged from does so exactly when no migration of the trunk is renamed away and every name gained sorts
      after all that were there. */
  lemma UpgradedAgreesIff(policy: Policy, lines: set<Line>, judged: Tree, m: Tree, b: Tree, h: Tree, t: Tree)
    requires Describes(lines, m, h) && Gate(policy, lines, judged, h).Accepted? && Merge(m, b, h) == Clean(t)
    ensures KeepsTrunk(m, b, h) <==> KeepsOrder(lines, b)
    ensures Prefix(Fresh(b), Fresh(t)) <==> KeepsOrder(lines, b)
    ensures Deploy(Fresh(b), t) == Fresh(t) <==> KeepsOrder(lines, b)
  {
    MergedAgreesIff(m, b, h, t);
    MergedNames(policy, lines, judged, m, b, h, t);
    MergeKeeps(m, b, h, t);
    KeptIffNamed(m, b, h, t);
  }

  lemma KeptIffNamed(m: Tree, b: Tree, h: Tree, t: Tree)
    requires forall n :: n in Names(b) && n in t ==> t[n] == b[n]
    requires forall n :: n in b ==> (At(t, n) == At(b, n) <==> (At(m, n) == At(b, n) ==> At(h, n) == At(b, n)))
    ensures Names(b) <= Names(t) <==> forall n :: n in Names(b) && At(m, n) == At(b, n) ==> At(h, n) == At(b, n)
  {
    if Names(b) <= Names(t) {
      forall n | n in Names(b) ensures At(t, n) == At(b, n) { assert n in t; }
    }
  }

  // ----- what the gate does not see -----

  /** A base on which the gate has nothing to say of the overrides. */
  ghost predicate OverridesHold(policy: Policy, b: Tree) {
    policy.overrides == policy.acknowledged && forall n :: n in policy.overrides ==> n in b && !policy.declares(b[n])
  }

  /** A new file the gate has nothing to say of. */
  ghost predicate Welcome(policy: Policy, b: Tree, name: string, sql: Blob) {
    name !in b && Flat(name) && MigrationFile(name) && policy.declares(sql)
    && forall s :: s in Stamps(b) ==> Less(s, Stamp(name))
  }

  lemma AddingOneIsAccepted(policy: Policy, b: Tree, name: string, sql: Blob)
    requires OverridesHold(policy, b) && Welcome(policy, b, name, sql)
    ensures Describes({Added(name)}, b, b[name := sql])
    ensures Gate(policy, {Added(name)}, b, b[name := sql]).Accepted?
  {
    var lines, h := {Added(name)}, b[name := sql];
    AddedPathsAre(lines, b, h);
    assert Base(name) == name && AcceptableFile(policy, b, h, name);
    OneIsAcceptable(policy, b, h, name);
    AcceptedIffAcceptable(policy, lines, b, h);
  }

  lemma OneIsAcceptable(policy: Policy, b: Tree, h: Tree, name: string)
    requires policy.overrides == policy.acknowledged && name !in b && AcceptableFile(policy, b, h, Base(name))
    requires forall n :: n in policy.overrides ==> n in h && !policy.declares(h[n])
    ensures Acceptable(policy, {Added(name)}, b, h)
  {
    assert AddedPaths({Added(name)}) == {name} && NewPaths({Added(name)}, b) == {name};
  }

  lemma AddingOneMerges(m: Tree, b: Tree, n: string, sql: Blob)
    requires n !in m && n !in b && forall p :: p in m ==> p in b && b[p] == m[p]
    ensures Merge(m, b, m[n := sql]) == Clean(b[n := sql])
  {
    MergeIs(m, b, m[n := sql], b[n := sql]);
  }

  /** A name brought to a trunk that has one it does not sort after. */
  lemma PartsAt(m: Tree, b: Tree, h: Tree, t: Tree, o: string, n: string)
    requires Merge(m, b, h) == Clean(t) && o in Names(b) && n in Brought(m, b, h) && !Less(o, n)
    ensures Deploy(Fresh(b), t) != Fresh(t)
  {
    MergedAgreesIff(m, b, h, t);
  }

  /** A misnamed file on the base is possible - the gate judges only what is added - and any one that sorts
      after an added name puts that name in front of it: upgraded and fresh databases part. On every base the
      overrides hold on, and with every file welcome there. */
  lemma MisnamedBaseFileBreaksOrder(policy: Policy, b: Tree, odd: string, late: string, sql: Blob)
    requires OverridesHold(policy, b) && Welcome(policy, b, late, sql)
    requires odd in Names(b) && !MigrationFile(odd) && !Less(odd, late)
    ensures var lines, h := {Added(late)}, b[late := sql];
            && Describes(lines, b, h) && Gate(policy, lines, b, h).Accepted? && Merge(b, b, h) == Clean(h)
            && Lineage(b + Additions(lines, b, h)) != Lineage(b) + Sorted(NewNames(lines, b, h))
            && Deploy(Fresh(b), h) != Fresh(h)
  {
    var h := b[late := sql];
    AddingOneIsAccepted(policy, b, late, sql);
    AddingOneMerges(b, b, late, sql);
    LineageIsNotAppended(policy, {Added(late)}, b, h, odd, late);
    assert late in Names(h);
    PartsAt(b, b, h, h, odd, late);
  }

  lemma LineageIsNotAppended(policy: Policy, lines: set<Line>, b: Tree, h: Tree, odd: string, late: string)
    requires Gate(policy, lines, b, h).Accepted? && odd in Names(b) && !MigrationFile(odd) && !Less(odd, late)
    requires lines == {Added(late)} && late !in b && late in h && Flat(late) && MigrationFile(late)
    ensures Lineage(b + Additions(lines, b, h)) != Lineage(b) + Sorted(NewNames(lines, b, h))
  {
    LineageGrowsAtEnd(policy, lines, b, h);
    OneIsNew(b, h, late);
  }

  lemma OneIsNew(b: Tree, h: Tree, name: string)
    requires name !in b && name in h && Flat(name) && IsSql(name)
    ensures name in NewNames({Added(name)}, b, h)
  {
    assert Added(name).path in AddedPaths({Added(name)});
    assert name in Additions({Added(name)}, b, h);
  }

  /** There are such names: this one sorts after every migration, for a digit comes before a letter. */
  lemma MisnamedFileBreaksOrder(policy: Policy, b: Tree, late: string, sql: Blob)
    requires OverridesHold(policy, b) && Welcome(policy, b, late, sql) && "zz.sql" in b
    ensures var lines, h := {Added(late)}, b[late := sql];
            && Gate(policy, lines, b, h).Accepted? && Merge(b, b, h) == Clean(h) && Deploy(Fresh(b), h) != Fresh(h)
  {
    assert late[..STAMP_LENGTH][0] == late[0] && late[0] in late[..STAMP_LENGTH];
    MisnamedBaseFileBreaksOrder(policy, b, "zz.sql", late, sql);
  }

  /** So does a base that is no longer the trunk: two files, each welcome on one base, are both accepted against
      it and merge cleanly one after the other; when the second sorts first the databases part. */
  lemma StaleBaseBreaksOrder(policy: Policy, base: Tree, early: string, sqlEarly: Blob, late: string, sqlLate: Blob)
    requires OverridesHold(policy, base)
    requires Welcome(policy, base, early, sqlEarly) && Welcome(policy, base, late, sqlLate)
    requires Less(early, late)
    ensures var first, second := base[late := sqlLate], base[early := sqlEarly];
            var both := first[early := sqlEarly];
            && Describes({Added(late)}, base, first) && Gate(policy, {Added(late)}, base, first).Accepted?
            && Describes({Added(early)}, base, second) && Gate(policy, {Added(early)}, base, second).Accepted?
            && Merge(base, base, first) == Clean(first) && Merge(base, first, second) == Clean(both)
            && Deploy(Fresh(first), both) != Fresh(both)
  {
    var first, second := base[late := sqlLate], base[early := sqlEarly];
    LessAsymmetric(early, late);
    AddingOneIsAccepted(policy, base, late, sqlLate);
    AddingOneIsAccepted(policy, base, early, sqlEarly);
    AddingOneMerges(base, base, late, sqlLate);
    AddingOneMerges(base, first, early, sqlEarly);
    assert late in Names(first) && early in Names(second);
    PartsAt(base, first, second, first[early := sqlEarly], late, early);
  }

  ghost predicate WellNamed(t: Tree) { forall n :: n in Names(t) ==> MigrationFile(n) }

  /** What the gate leaves open of a change judged against the well-named trunk it lands on: its renames. */
  ghost predicate RenamesKeepOrder(lines: set<Line>, b: Tree) {
    forall l :: l in lines && l.Renamed? ==>
      l.from !in Names(b)
      && (l.to in GainedNames(lines, b) ==> forall o :: o in Names(b) ==> Less(o, l.to))
  }

  lemma CurrentBaseKeepsOrderIff(policy: Policy, lines: set<Line>, b: Tree, h: Tree)
    requires Gate(policy, lines, b, h).Accepted? && WellNamed(b)
    ensures KeepsOrder(lines, b) <==> RenamesKeepOrder(lines, b)
  {
    if RenamesKeepOrder(lines, b) {
      forall o, n | o in Names(b) && n in GainedNames(lines, b) ensures Less(o, n) {
        if n in AddedPaths(lines) {
          AddedIsLate(policy, lines, b, h, o, n);
        } else {
          var l :| l in lines && l.Renamed? && l.to == n;
        }
      }
    }
    if KeepsOrder(lines, b) {
      forall l | l in lines && l.Renamed? && l.to in GainedNames(lines, b)
        ensures forall o :: o in Names(b) ==> Less(o, l.to) {}
    }
  }

  /** So of a change judged against the well-named trunk it lands on: the databases agree exactly when its
      renames leave the trunk's names alone and bring none that sorts before one of them. */
  lemma CurrentBaseAgreesIff(policy: Policy, lines: set<Line>, m: Tree, b: Tree, h: Tree, t: Tree)
    requires Describes(lines, m, h) && Gate(policy, lines, b, h).Accepted? && Merge(m, b, h) == Clean(t) && WellNamed(b)
    ensures Deploy(Fresh(b), t) == Fresh(t) <==> RenamesKeepOrder(lines, b)
  {
    CurrentBaseKeepsOrderIff(policy, lines, b, h);
    UpgradedAgreesIff(policy, lines, b, m, b, h, t);
  }

  lemma AddedIsLate(policy: Policy, lines: set<Line>, b: Tree, h: Tree, had: string, gained: string)
    requires Gate(policy, lines, b, h).Accepted? && had in Names(b) && MigrationFile(had)
    requires gained in AddedPaths(lines) && gained !in b && Flat(gained)
    ensures MigrationFile(gained) && Less(had, gained)
  {
    AcceptedIffAcceptable(policy, lines, b, h);
    assert gained in NewPaths(lines, b) && AcceptableFile(policy, b, h, Base(gained));
    assert Base(had) == had && Base(gained) == gained;
    assert Stamp(had) in Stamps(b);
    LaterStampSortsAfter(had, gained);
  }

  // ----- runs -----

  /** A trunk and the databases deployed from it. */
  datatype World = World(trunk: Tree, databases: map<nat, History>)

  /** A change is judged by its diff from a merge base, against a base that may be older than the trunk it lands
      on; its merge base with the trunk may be another by then. */
  datatype Event =
    | Propose(lines: set<Line>, judged: Tree, diffBase: Tree, mergeBase: Tree, head: Tree)
    | DeployTo(database: nat)

  ghost predicate Lands(policy: Policy, w: World, e: Event) {
    e.Propose? && Gate(policy, e.lines, e.judged, e.head).Accepted? && Merge(e.mergeBase, w.trunk, e.head).Clean?
  }

  ghost function Step(policy: Policy, w: World, e: Event): World {
    match e
    case Propose(_, _, _, m, h) => if Lands(policy, w, e) then w.(trunk := Merge(m, w.trunk, h).tree) else w
    case DeployTo(i) =>
      var d := if i in w.databases then w.databases[i] else [];
      w.(databases := w.databases[i := Deploy(d, w.trunk)])
  }

  /** Any change at all may be proposed; one that lands must keep the trunk. */
  ghost predicate Possible(policy: Policy, w: World, e: Event) {
    e.Propose? ==>
      Describes(e.lines, e.diffBase, e.head) && (Lands(policy, w, e) ==> KeepsTrunk(e.mergeBase, w.trunk, e.head))
  }

  ghost predicate AllPossible(policy: Policy, w: World, es: seq<Event>)
    decreases es
  {
    es != [] ==> Possible(policy, w, es[0]) && AllPossible(policy, Step(policy, w, es[0]), es[1..])
  }

  ghost function Run(policy: Policy, w: World, es: seq<Event>): World
    decreases es
  {
    if es == [] then w else Run(policy, Step(policy, w, es[0]), es[1..])
  }

  /** Every database is somewhere along the lineage. */
  ghost predicate Sound(w: World) {
    forall i :: i in w.databases ==> Prefix(w.databases[i], Fresh(w.trunk))
  }

  lemma StepKeepsSound(policy: Policy, w: World, e: Event)
    requires Sound(w) && Possible(policy, w, e)
    ensures Sound(Step(policy, w, e))
    ensures Prefix(Fresh(w.trunk), Fresh(Step(policy, w, e).trunk))
    ensures e.DeployTo? ==> Step(policy, w, e).databases[e.database] == Fresh(w.trunk)
  {
    match e
    case Propose(_, _, _, m, h) =>
      if Lands(policy, w, e) {
        var t := Merge(m, w.trunk, h).tree;
        MergedAgreesIff(m, w.trunk, h, t);
        forall i | i in w.databases ensures Prefix(w.databases[i], Fresh(t)) {
          PrefixTransitive(w.databases[i], Fresh(w.trunk), Fresh(t));
        }
      }
    case DeployTo(i) =>
      DeployKeepsSound(policy, w, i);
  }

  lemma DeployKeepsSound(policy: Policy, w: World, i: nat)
    requires Sound(w)
    ensures Sound(Step(policy, w, DeployTo(i)))
    ensures Step(policy, w, DeployTo(i)).databases[i] == Fresh(w.trunk)
  {
    var d := if i in w.databases then w.databases[i] else [];
    DeployReachesFresh(d, w.trunk);
    var next := Step(policy, w, DeployTo(i));
    forall j | j in next.databases ensures Prefix(next.databases[j], Fresh(next.trunk)) {
      if j != i { assert next.databases[j] == w.databases[j]; }
    }
  }

  /** Over every run: histories are beginnings of one another. A database deployed at any points of
      it is a beginning of what a fresh database runs at the end, names and contents alike, and a
      last deployment makes the two equal. */
  lemma {:induction false} RunsShareOneHistory(policy: Policy, w: World, es: seq<Event>)
    requires Sound(w) && AllPossible(policy, w, es)
    ensures Sound(Run(policy, w, es))
    ensures Prefix(Fresh(w.trunk), Fresh(Run(policy, w, es).trunk))
    ensures forall i :: i in Run(policy, w, es).databases ==>
              Deploy(Run(policy, w, es).databases[i], Run(policy, w, es).trunk) == Fresh(Run(policy, w, es).trunk)
    decreases es
  {
    if es == [] {
    } else {
      var next := Step(policy, w, es[0]);
      StepKeepsSound(policy, w, es[0]);
      RunsShareOneHistory(policy, next, es[1..]);
      PrefixTransitive(Fresh(w.trunk), Fresh(next.trunk), Fresh(Run(policy, w, es).trunk));
    }
    var end := Run(policy, w, es);
    forall i | i in end.databases ensures Deploy(end.databases[i], end.trunk) == Fresh(end.trunk) {
      DeployReachesFresh(end.databases[i], end.trunk);
    }
  }

  /** A change judged against the trunk it lands on by the merge that lands it, its renames made already or
      harmless and well named. */
  ghost predicate Current(policy: Policy, w: World, e: Event) {
    e.Propose? ==>
      && Describes(e.lines, e.diffBase, e.head) && e.judged == w.trunk && e.diffBase == e.mergeBase
      && (Lands(policy, w, e) ==>
            && RenamesKeepOrder(e.lines, w.trunk)
            && forall n :: n in RenameTargets(e.lines) * GainedNames(e.lines, w.trunk) ==> MigrationFile(n))
  }

  ghost predicate AllCurrent(policy: Policy, w: World, es: seq<Event>)
    decreases es
  {
    es != [] ==> Current(policy, w, es[0]) && AllCurrent(policy, Step(policy, w, es[0]), es[1..])
  }

  lemma CurrentStep(policy: Policy, w: World, e: Event)
    requires WellNamed(w.trunk) && Current(policy, w, e)
    ensures Possible(policy, w, e) && WellNamed(Step(policy, w, e).trunk)
  {
    if Lands(policy, w, e) {
      var b, t := w.trunk, Merge(e.mergeBase, w.trunk, e.head).tree;
      CurrentBaseKeepsOrderIff(policy, e.lines, b, e.head);
      UpgradedAgreesIff(policy, e.lines, b, e.mergeBase, b, e.head, t);
      MergedNames(policy, e.lines, b, e.mergeBase, b, e.head, t);
      GainedAreNamed(policy, e.lines, b, e.head, Names(b), Names(t));
    }
  }

  lemma GainedAreNamed(policy: Policy, lines: set<Line>, b: Tree, h: Tree, had: set<string>, has: set<string>)
    requires Gate(policy, lines, b, h).Accepted? && has - had == GainedNames(lines, b)
    requires forall n :: n in had + RenameTargets(lines) * GainedNames(lines, b) ==> MigrationFile(n)
    ensures forall n :: n in has ==> MigrationFile(n)
  {
    forall n | n in has ensures MigrationFile(n) {
      if n !in had {
        assert n in GainedNames(lines, b);
        if n !in RenameTargets(lines) { AddedIsNamed(policy, lines, b, h, n); }
      }
    }
  }

  lemma AddedIsNamed(policy: Policy, lines: set<Line>, b: Tree, h: Tree, n: string)
    requires Gate(policy, lines, b, h).Accepted? && n in AddedPaths(lines) && n !in b && Flat(n)
    ensures MigrationFile(n)
  {
    AcceptedIffAcceptable(policy, lines, b, h);
    assert n in NewPaths(lines, b) && AcceptableFile(policy, b, h, Base(n));
  }

  /** When every change is judged against the very trunk it lands on, and no unmade rename is used, the
      gate is enough: from a well-named trunk on, every run keeps all databases on one history. */
  lemma {:induction false} CurrentRunsArePossible(policy: Policy, w: World, es: seq<Event>)
    requires WellNamed(w.trunk) && AllCurrent(policy, w, es)
    ensures AllPossible(policy, w, es) && WellNamed(Run(policy, w, es).trunk)
    decreases es
  {
    if es != [] {
      CurrentStep(policy, w, es[0]);
      CurrentRunsArePossible(policy, Step(policy, w, es[0]), es[1..]);
    }
  }

  // ----- an acknowledged rename that has not landed -----

  /** It is accepted without a look at its new name, and a database that ran the old name runs the
      same SQL again under the new one, while a fresh database runs it once. */
  lemma UnlandedRenameRunsTwice(policy: Policy, lines: set<Line>, judged: Tree, m: Tree, b: Tree, h: Tree, l: Line)
    requires Describes(lines, m, h) && Gate(policy, lines, judged, h).Accepted? && Merge(m, b, h).Clean?
    requires l in lines && l.Renamed? && l.from in Names(b) && l.to in GainedNames(lines, b)
    ensures var t := Merge(m, b, h).tree;
            && Applied(l.from, b[l.from]) in Deploy(Fresh(b), t)
            && Applied(l.to, b[l.from]) in Deploy(Fresh(b), t)
            && l.from !in Ledger(Fresh(t)) && Deploy(Fresh(b), t) != Fresh(t)
  {
    AcceptedIffAcceptable(policy, lines, judged, h);
    var t := Merge(m, b, h).tree;
    MergeIs(m, b, h, t);
    assert !Torn(m, b, h, l.from) && Resolve(m, b, h, l.from) == At(t, l.from) && Resolve(m, b, h, l.to) == At(t, l.to);
    MergedNames(policy, lines, judged, m, b, h, t);
    UpgradedAgreesIff(policy, lines, judged, m, b, h, t);
    MergedAt(policy, lines, judged, m, b, h, t, l.from);
    RunsAgain(b, t, l.from, l.to);
  }

  lemma RunsAgain(b: Tree, t: Tree, had: string, gained: string)
    requires had in Names(b) && had !in t && gained in Names(t) && gained !in b && t[gained] == b[had]
    ensures Applied(had, b[had]) in Deploy(Fresh(b), t) && Applied(gained, b[had]) in Deploy(Fresh(b), t)
    ensures had !in Ledger(Fresh(t))
  {
    var i :| 0 <= i < |Lineage(b)| && Lineage(b)[i] == had;
    assert Fresh(b)[i] == Applied(had, b[had]);
    BringKeeps(Fresh(b), t, Lineage(t));
    assert Deploy(Fresh(b), t)[..|Fresh(b)|][i] == Applied(had, b[had]);
    LedgerOfFresh(b);
    BringAdds(Fresh(b), t, Lineage(t), gained);
    LedgerOfFresh(t);
  }

  const COMMITTED_WITHOUT_NAME := "20260916143334.sql"
  const NAMED_LATER := "20260916143334_administrative-imports.sql"

  /** The one rename the gate acknowledges is such a rename, on every trunk that still has the old name. */
  lemma AcknowledgedRenameRunsTwice(policy: Policy, rest: Tree, sql: Blob) returns (lines: set<Line>, b: Tree, h: Tree)
    requires (COMMITTED_WITHOUT_NAME, NAMED_LATER) in policy.renames
    requires COMMITTED_WITHOUT_NAME !in rest && NAMED_LATER !in rest
    requires policy.overrides == policy.acknowledged
    requires forall n :: n in policy.overrides ==> n in rest && !policy.declares(rest[n])
    ensures lines == {Renamed(COMMITTED_WITHOUT_NAME, NAMED_LATER, 100)}
    ensures b == rest[COMMITTED_WITHOUT_NAME := sql] && h == rest[NAMED_LATER := sql]
    ensures Describes(lines, b, h) && Gate(policy, lines, b, h).Accepted? && Merge(b, b, h) == Clean(h)
    ensures Deploy(Fresh(b), h) != Fresh(h) && Applied(NAMED_LATER, sql) in Deploy(Fresh(b), h)
  {
    var l := Renamed(COMMITTED_WITHOUT_NAME, NAMED_LATER, 100);
    lines, b, h := {l}, rest[COMMITTED_WITHOUT_NAME := sql], rest[NAMED_LATER := sql];
    NamesOfThePair();
    assert AddedPaths(lines) == {} && NewPaths(lines, b) == {};
    AcceptedIffAcceptable(policy, lines, b, h);
    MergeIs(b, b, h, h);
    assert NAMED_LATER in RenameTargets(lines);
    UnlandedRenameRunsTwice(policy, lines, b, b, b, h, l);
  }

  lemma NamesOfThePair()
    ensures Flat(COMMITTED_WITHOUT_NAME) && IsSql(COMMITTED_WITHOUT_NAME)
    ensures Flat(NAMED_LATER) && IsSql(NAMED_LATER) && NAMED_LATER != COMMITTED_WITHOUT_NAME
  {
    assert COMMITTED_WITHOUT_NAME[|COMMITTED_WITHOUT_NAME| - 4..] == ".sql";
    assert NAMED_LATER[|NAMED_LATER| - 4..] == ".sql" && |NAMED_LATER| != |COMMITTED_WITHOUT_NAME|;
  }

  lemma LedgerOfFresh(t: Tree)
    ensures Ledger(Fresh(t)) == Lineage(t)
  {
  }

  lemma {:induction false} BringKeeps(d: History, t: Tree, names: seq<string>)
    requires forall n :: n in names ==> n in t
    ensures Prefix(d, Bring(d, t, names))
    decreases names
  {
    if names != [] {
      var next := if names[0] in Ledger(d) then d else d + [Applied(names[0], t[names[0]])];
      BringKeeps(next, t, names[1..]);
      PrefixTransitive(d, next, Bring(d, t, names));
    }
  }

  lemma {:induction false} BringAdds(d: History, t: Tree, names: seq<string>, n: string)
    requires forall x :: x in names ==> x in t
    requires n in names && n !in Ledger(d)
    ensures Applied(n, t[n]) in Bring(d, t, names)
    decreases names
  {
    if names[0] == n {
      var next := d + [Applied(n, t[n])];
      BringKeeps(next, t, names[1..]);
      assert Bring(d, t, names)[..|next|][|d|] == Applied(n, t[n]);
    } else {
      var next := if names[0] in Ledger(d) then d else d + [Applied(names[0], t[names[0]])];
      assert forall k :: 0 <= k < |d| ==> Ledger(next)[k] == Ledger(d)[k];
      BringAdds(next, t, names[1..], n);
    }
  }

  // ----- a restored ledger against a checkout -----

  datatype Standing = Standing(foreign: seq<string>, behind: int)

  function Outside<T(==)>(applied: seq<T>, known: set<T>): seq<T> {
    if applied == [] then []
    else if applied[0] in known then Outside(applied[1..], known)
    else [applied[0]] + Outside(applied[1..], known)
  }

  function Inside<T(==)>(applied: seq<T>, known: set<T>): seq<T> {
    if applied == [] then []
    else if applied[0] in known then [applied[0]] + Inside(applied[1..], known)
    else Inside(applied[1..], known)
  }

  function LedgerAgainst(applied: seq<string>, lineage: seq<string>): Standing {
    var known := set n | n in lineage;
    Standing(Outside(applied, known), |lineage| - |Inside(applied, known)|)
  }

  lemma {:induction false} KnownThenForeign<T>(applied: seq<T>, known: set<T>, n: nat)
    requires n <= |applied|
    requires forall i :: 0 <= i < |applied| ==> (applied[i] in known <==> i < n)
    ensures Outside(applied, known) == applied[n..] && |Inside(applied, known)| == n
  {
    if applied != [] {
      var rest := applied[1..];
      assert forall i :: 0 <= i < |rest| ==> rest[i] == applied[i + 1];
      if n == 0 {
        KnownThenForeign(rest, known, 0);
        assert applied == [applied[0]] + rest;
      } else {
        KnownThenForeign(rest, known, n - 1);
      }
    }
  }

  /** Of two points of one accepted history, each given as the lineage there, the ledger of either
      stands against the other exactly by the names between them: behind by that many when the
      ledger is the earlier, those very names foreign when it is the later. */
  lemma LedgerAgainstHistory(earlier: History, later: History)
    requires NoRepeats(Ledger(later)) && Prefix(earlier, later)
    ensures LedgerAgainst(Ledger(earlier), Ledger(later)) == Standing([], |later| - |earlier|)
    ensures LedgerAgainst(Ledger(later), Ledger(earlier)) == Standing(Ledger(later)[|earlier|..], 0)
  {
    var a, b := Ledger(earlier), Ledger(later);
    assert forall i :: 0 <= i < |a| ==> a[i] == b[i];
    var known := set n | n in b;
    KnownThenForeign(a, known, |a|);
    var few := set n | n in a;
    forall i | 0 <= i < |b| ensures b[i] in few <==> i < |a| {
      if b[i] in few { var j :| 0 <= j < |a| && a[j] == b[i]; }
    }
    KnownThenForeign(b, few, |a|);
  }

  /** So every database of an accepted run is restorable against the trunk, behind by exactly the
      migrations a deployment would then apply. */
  lemma LedgerAgainstTrunk(policy: Policy, w: World, es: seq<Event>, i: nat)
    requires Sound(w) && AllPossible(policy, w, es) && i in Run(policy, w, es).databases
    ensures var end := Run(policy, w, es);
            var d := end.databases[i];
            && LedgerAgainst(Ledger(d), Lineage(end.trunk)) == Standing([], |Deploy(d, end.trunk)| - |d|)
            && Prefix(d, Deploy(d, end.trunk))
  {
    RunsShareOneHistory(policy, w, es);
    var end := Run(policy, w, es);
    LedgerOfFresh(end.trunk);
    AscendingHasNoRepeats(Lineage(end.trunk));
    LedgerAgainstHistory(end.databases[i], Fresh(end.trunk));
  }

  /** For any ledger and lineage without repeats: nothing is foreign exactly when every applied name
      is of the lineage, and `behind` counts the lineage names that were not applied. */
  lemma LedgerAgainstCounts(applied: seq<string>, lineage: seq<string>)
    requires NoRepeats(applied) && NoRepeats(lineage)
    ensures var s := LedgerAgainst(applied, lineage);
            && (s.foreign == [] <==> forall n :: n in applied ==> n in lineage)
            && s.behind == |Elements(lineage) - Elements(applied)|
  {
    var known := set n | n in lineage;
    assert known == Elements(lineage);
    InsideCounts(applied, known);
    NothingOutside(applied, known);
    CountOf(lineage);
    assert |known - Elements(applied)| == |known| - |known * Elements(applied)|;
  }

  lemma {:induction false} CountOf<T(!new)>(s: seq<T>)
    requires NoRepeats(s)
    ensures |Elements(s)| == |s|
  {
    if s == [] {
      assert Elements(s) == {};
    } else {
      CountOf(s[1..]);
      assert s[0] !in s[1..] && Elements(s) == {s[0]} + Elements(s[1..]);
    }
  }

  lemma InsideCons<T>(known: set<T>, first: T, rest: set<T>)
    requires first !in rest
    ensures |known * ({first} + rest)| == |known * rest| + if first in known then 1 else 0
  {
    assert known * ({first} + rest) == if first in known then {first} + known * rest else known * rest;
  }

  lemma ElementsOfCons<T(!new)>(first: T, rest: seq<T>)
    ensures Elements([first] + rest) == {first} + Elements(rest)
  {
  }

  lemma {:induction false} InsideCounts<T(!new)>(applied: seq<T>, known: set<T>)
    requires NoRepeats(applied)
    ensures |Inside(applied, known)| == |known * Elements(applied)|
  {
    if applied == [] {
      assert known * Elements(applied) == {};
    } else {
      var first, rest := applied[0], applied[1..];
      NoRepeatsTail(applied);
      InsideCounts(rest, known);
      ElementsOfCons(first, rest);
      assert applied == [first] + rest;
      InsideCons(known, first, Elements(rest));
    }
  }

  lemma {:induction false} NothingOutside<T(!new)>(applied: seq<T>, known: set<T>)
    ensures Outside(applied, known) == [] <==> forall n :: n in applied ==> n in known
  {
    if applied != [] {
      NothingOutside(applied[1..], known);
      assert applied == [applied[0]] + applied[1..];
    }
  }
}
