/** The gate on committed migrations, and what it buys: a database brought forward release by release
    and one built today run the same files in the same order.

    A tree maps each path under the migrations folder to the blob it holds. Three trees meet: the
    merge base M, the base B a change lands on, and the change's own HEAD H. */
module MigrationGate {
  import opened Options
  import opened Ordering
  import opened Text

  type Blob = string
  type Tree = map<string, Blob>

  function At(t: Tree, p: string): Option<Blob> {
    if p in t then Some(t[p]) else None
  }

  // ----- names -----

  predicate Flat(p: string) { '/' !in p }

  /** `path.posix.basename` */
  function Base(p: string): string {
    if Flat(p) then p else Base(p[1..])
  }

  predicate IsSql(name: string) {
    |name| >= 4 && name[|name| - 4..] == ".sql"
  }

  predicate Digits(s: string) {
    forall c :: c in s ==> '0' <= c <= '9'
  }

  /** Words of lowercase letters and digits, joined by single dashes. */
  predicate Slug(s: string) {
    && s != "" && s[0] != '-' && s[|s| - 1] != '-'
    && (forall c :: c in s ==> 'a' <= c <= 'z' || '0' <= c <= '9' || c == '-')
    && (forall i :: 0 <= i < |s| - 1 ==> !(s[i] == '-' && s[i + 1] == '-'))
  }

  const STAMP_LENGTH := 14

  /** `^(\d{14})(?:_[a-z0-9]+(?:-[a-z0-9]+)*)?\.sql$` */
  predicate MigrationFile(name: string) {
    && |name| >= STAMP_LENGTH + 4
    && Digits(name[..STAMP_LENGTH])
    && IsSql(name)
    && var middle := name[STAMP_LENGTH..|name| - 4];
       middle == "" || (middle[0] == '_' && Slug(middle[1..]))
  }

  /** Some lowercase letters and digits, at least one. */
  predicate Word(w: string) {
    w != "" && forall i :: 0 <= i < |w| ==> 'a' <= w[i] <= 'z' || '0' <= w[i] <= '9'
  }

  /** A name put together: fourteen digits, and words behind them if there are any. */
  ghost predicate Spells(stamp: string, words: seq<string>, name: string) {
    && |stamp| == 14 && (forall i :: 0 <= i < 14 ==> '0' <= stamp[i] <= '9')
    && (forall i :: 0 <= i < |words| ==> Word(words[i]))
    && name == stamp + (if words == [] then "" else "_" + Join(words, '-')) + ".sql"
  }

  /** The naming rule admits just the names that can be put together so. */
  lemma NamedAsSpelled(name: string)
    ensures MigrationFile(name) <==> exists stamp, words :: Spells(stamp, words, name)
  {
    if MigrationFile(name) {
      var stamp, middle := name[..STAMP_LENGTH], name[STAMP_LENGTH..|name| - 4];
      assert forall i :: 0 <= i < |stamp| ==> stamp[i] in stamp;
      assert name == stamp + middle + name[|name| - 4..];
      if middle == "" {
        assert stamp + "" == stamp && Spells(stamp, [], name);
      } else {
        WordsOfSlug(middle[1..]);
        JoinOfSplit(middle[1..], '-');
        assert middle == "_" + middle[1..] && Spells(stamp, Split(middle[1..], '-'), name);
      }
    }
    if stamp, words :| Spells(stamp, words, name) {
      var middle := if words == [] then "" else "_" + Join(words, '-');
      assert name[..STAMP_LENGTH] == stamp && name[STAMP_LENGTH..|name| - 4] == middle;
      assert name[|name| - 4..] == ".sql";
      if words != [] {
        SlugOfWords(words);
        assert middle[1..] == Join(words, '-');
      }
    }
  }

  ghost predicate SlugTail(s: string) {
    && s != "" && s[|s| - 1] != '-'
    && (forall i :: 0 <= i < |s| ==> 'a' <= s[i] <= 'z' || '0' <= s[i] <= '9' || s[i] == '-')
    && (forall i :: 0 <= i < |s| - 1 ==> !(s[i] == '-' && s[i + 1] == '-'))
  }

  lemma {:induction false} WordsOfTail(s: string)
    requires SlugTail(s)
    ensures var parts := Split(s, '-');
            && (forall i :: 1 <= i < |parts| ==> Word(parts[i])) && (s[0] == '-' <==> parts[0] == "")
            && (forall i :: 0 <= i < |parts[0]| ==> 'a' <= parts[0][i] <= 'z' || '0' <= parts[0][i] <= '9')
  {
    if |s| == 1 {
      assert s[1..] == "" && s[0] != '-' && [s[0]] + "" == [s[0]];
    } else {
      WordsOfTail(s[1..]);
    }
  }

  lemma WordsOfSlug(s: string)
    requires Slug(s)
    ensures forall i :: 0 <= i < |Split(s, '-')| ==> Word(Split(s, '-')[i])
  {
    assert forall i :: 0 <= i < |s| ==> s[i] in s;
    WordsOfTail(s);
  }

  lemma {:induction false} SlugOfWords(words: seq<string>)
    requires words != [] && forall i :: 0 <= i < |words| ==> Word(words[i])
    ensures Slug(Join(words, '-'))
  {
    if |words| > 1 {
      var rest := Join(words[1..], '-');
      SlugOfWords(words[1..]);
      SlugBehind(words[0], rest);
    } else {
      SlugIs(words[0]);
    }
  }

  lemma SlugIs(w: string)
    requires Word(w)
    ensures Slug(w)
  {
  }

  lemma SlugBehind(w: string, rest: string)
    requires Word(w) && Slug(rest)
    ensures Slug(w + ['-'] + rest)
  {
    var s := w + ['-'] + rest;
    assert s[|s| - 1] == rest[|rest| - 1] && s[0] == w[0];
    forall i | 0 <= i < |s| - 1 ensures !(s[i] == '-' && s[i + 1] == '-') {
      if i > |w| { assert s[i] == rest[i - |w| - 1] && s[i + 1] == rest[i - |w|]; }
    }
  }

  /** `endsWith('.sql')`, whatever stands before it, nothing included. */
  lemma SqlIsAnEnding(name: string)
    ensures IsSql(name) <==> exists stem :: name == stem + ".sql"
  {
    if IsSql(name) { assert name == name[..|name| - 4] + ".sql"; }
  }

  /** What stands behind the last slash. */
  lemma {:induction false} BaseIsLast(folder: string, name: string)
    requires Flat(name)
    ensures Base(name) == name && Base(folder + "/" + name) == name
  {
    var p := folder + "/" + name;
    assert p[|folder|] == '/' && p[|folder|] in p;
    if folder == "" {
      assert p[1..] == name;
    } else {
      assert p[1..] == folder[1..] + "/" + name;
      BaseIsLast(folder[1..], name);
    }
  }

  function Stamp(name: string): (s: string)
    requires MigrationFile(name)
    ensures |s| == STAMP_LENGTH
  {
    name[..STAMP_LENGTH]
  }

  lemma LaterStampSortsAfter(a: string, b: string)
    requires MigrationFile(a) && MigrationFile(b) && Less(Stamp(a), Stamp(b))
    ensures Less(a, b)
  {
    LessByStamp(Stamp(a), Stamp(b), a[STAMP_LENGTH..], b[STAMP_LENGTH..]);
    assert a == Stamp(a) + a[STAMP_LENGTH..] && b == Stamp(b) + b[STAMP_LENGTH..];
  }

  // ----- what git says -----

  datatype Line =
    | Modified(path: string)
    | TypeChanged(path: string)
    | Deleted(path: string)
    | Renamed(from: string, to: string, similarity: nat)
    | Added(path: string)

  /** What git promises of a diff with rename detection: which deletion it pairs with which
      addition is its own choice, and every difference is told exactly one way. */
  ghost predicate Describes(lines: set<Line>, m: Tree, h: Tree) {
    && (forall p :: p in m && p in h && m[p] != h[p] ==> Modified(p) in lines || TypeChanged(p) in lines)
    && (forall p :: p in m && p !in h ==> Deleted(p) in lines || exists l :: l in lines && l.Renamed? && l.from == p)
    && (forall p :: p in h && p !in m ==> Added(p) in lines || exists l :: l in lines && l.Renamed? && l.to == p)
    && (forall l :: l in lines ==>
          match l
          case Modified(p) => p in m && p in h
          case TypeChanged(p) => p in m && p in h
          case Deleted(p) => p in m && p !in h
          case Added(p) => p in h && p !in m
          case Renamed(f, t, s) =>
            f in m && f !in h && t in h && t !in m && Added(t) !in lines && (s == 100 ==> m[f] == h[t]))
  }

  /** The diff without any rename: one there is between any two trees. */
  function PlainDiff(m: Tree, h: Tree): set<Line> {
    (set p | p in m && p in h && m[p] != h[p] :: Modified(p)) + (set p | p in m && p !in h :: Deleted(p))
    + set p | p in h && p !in m :: Added(p)
  }

  predicate Differs(m: Tree, h: Tree, l: Line) {
    || (l.Modified? && l.path in m && l.path in h && m[l.path] != h[l.path])
    || (l.Deleted? && l.path in m && l.path !in h)
    || (l.Added? && l.path in h && l.path !in m)
  }

  lemma InPlainDiff(m: Tree, h: Tree, l: Line)
    ensures l in PlainDiff(m, h) <==> Differs(m, h, l)
  {
    var changed, gone, come := set p | p in m && p in h && m[p] != h[p] :: Modified(p),
                               set p | p in m && p !in h :: Deleted(p), set p | p in h && p !in m :: Added(p);
    assert PlainDiff(m, h) == changed + gone + come;
    assert l.Modified? ==> l == Modified(l.path);
    assert l.Deleted? ==> l == Deleted(l.path);
    assert l.Added? ==> l == Added(l.path);
  }

  lemma PlainDiffDescribes(m: Tree, h: Tree)
    ensures Describes(PlainDiff(m, h), m, h)
  {
    var lines := PlainDiff(m, h);
    forall l ensures l in lines <==> Differs(m, h, l) { InPlainDiff(m, h, l); }
    DescribedBy(lines, m, h);
  }

  lemma DescribedBy(lines: set<Line>, m: Tree, h: Tree)
    requires forall l :: l in lines <==> Differs(m, h, l)
    ensures Describes(lines, m, h)
  {
    forall p ensures p in m && p in h && m[p] != h[p] ==> Modified(p) in lines { assert Modified(p).path == p; }
  }

  // ----- the gate -----

  /** The renames acknowledged by name, the rollouts told outside the SQL and those of them that are
      acknowledged, and how a blob's SQL declares its rollout. */
  datatype Policy = Policy(renames: set<(string, string)>, overrides: map<string, string>,
                           acknowledged: map<string, string>, declares: Blob -> bool)

  datatype Verdict =
    | Accepted
    | Unacknowledged
    | Changed(lines: set<Line>)
    | Overridden(names: set<string>)
    | Rewritten(paths: set<string>)
    | Misnamed(paths: set<string>)
    | Early(paths: set<string>)
    | Unreadable(paths: set<string>)
    | Silent(paths: set<string>)

  predicate Acknowledged(policy: Policy, l: Line) {
    l.Renamed? && l.similarity == 100 && (l.from, l.to) in policy.renames
  }

  function AddedPaths(lines: set<Line>): set<string> {
    set l | l in lines && l.Added? :: l.path
  }

  /** The additions the base has not got. */
  function NewPaths(lines: set<Line>, b: Tree): set<string> {
    set p | p in AddedPaths(lines) && p !in b
  }

  function Stamps(b: Tree): set<string> {
    set p | p in b && MigrationFile(Base(p)) :: Stamp(Base(p))
  }

  /** The last stamp the base already has. */
  ghost function Head(b: Tree): (r: Option<string>)
    ensures r == None <==> Stamps(b) == {}
    ensures r.Some? ==> r.value in Stamps(b) && forall s :: s in Stamps(b) ==> s == r.value || Less(s, r.value)
  {
    var stamps := Sorted(Stamps(b));
    if stamps == [] then assert forall s :: s in Stamps(b) ==> s in stamps; None
    else
      assert stamps[|stamps| - 1] in stamps;
      assert forall s :: s in Stamps(b) ==> s in stamps;
      Some(stamps[|stamps| - 1])
  }

  ghost predicate IsEarly(b: Tree, p: string) {
    Head(b).Some? && MigrationFile(Base(p)) && !Less(Head(b).value, Stamp(Base(p)))
  }

  // the refusals, in the order they are made

  function ChangedLines(policy: Policy, lines: set<Line>): set<Line> {
    set l | l in lines && !l.Added? && !Acknowledged(policy, l)
  }

  /** An override must name a migration of HEAD that says nothing itself, and no new one. */
  function OverriddenNames(policy: Policy, b: Tree, h: Tree): set<string> {
    set n | n in policy.overrides &&
            (n !in h || policy.declares(h[n]) || (n !in b && n !in policy.acknowledged))
  }

  /** Additions the base has got with another content. */
  function RewrittenPaths(lines: set<Line>, b: Tree, h: Tree): set<string> {
    set p | p in AddedPaths(lines) && p in b && At(b, p) != At(h, p)
  }

  function MisnamedPaths(lines: set<Line>, b: Tree): set<string> {
    set p | p in NewPaths(lines, b) && !MigrationFile(Base(p))
  }

  ghost function EarlyPaths(lines: set<Line>, b: Tree): set<string> {
    set p | p in NewPaths(lines, b) && IsEarly(b, p)
  }

  /** The content is asked for by file name alone, and asking for a file that is not there fails. */
  function UnreadablePaths(lines: set<Line>, b: Tree, h: Tree): set<string> {
    set p | p in NewPaths(lines, b) && Base(p) !in h
  }

  function SilentPaths(policy: Policy, lines: set<Line>, b: Tree, h: Tree): set<string> {
    set p | p in NewPaths(lines, b) && Base(p) in h && !policy.declares(h[Base(p)]) && Base(p) !in policy.overrides
  }

  ghost function Gate(policy: Policy, lines: set<Line>, b: Tree, h: Tree): Verdict {
    if policy.overrides != policy.acknowledged then Unacknowledged
    else if ChangedLines(policy, lines) != {} then Changed(ChangedLines(policy, lines))
    else if OverriddenNames(policy, b, h) != {} then Overridden(OverriddenNames(policy, b, h))
    else if RewrittenPaths(lines, b, h) != {} then Rewritten(RewrittenPaths(lines, b, h))
    else if MisnamedPaths(lines, b) != {} then Misnamed(MisnamedPaths(lines, b))
    else if EarlyPaths(lines, b) != {} then Early(EarlyPaths(lines, b))
    else if UnreadablePaths(lines, b, h) != {} then Unreadable(UnreadablePaths(lines, b, h))
    else if SilentPaths(policy, lines, b, h) != {} then Silent(SilentPaths(policy, lines, b, h))
    else Accepted
  }

  /** Exactly what an acceptance says: one clause a refusal. */
  ghost predicate Acceptable(policy: Policy, lines: set<Line>, b: Tree, h: Tree) {
    && policy.overrides == policy.acknowledged
    && (forall l :: l in lines ==> l.Added? || exists f, t :: (f, t) in policy.renames && l == Renamed(f, t, 100))
    && (forall n :: n in policy.overrides ==> n in h && !policy.declares(h[n]))
    && (forall p :: p in AddedPaths(lines) && p in b ==> At(b, p) == At(h, p))
    && (forall p :: p in NewPaths(lines, b) ==> AcceptableFile(policy, b, h, Base(p)))
  }

  ghost predicate AcceptableFile(policy: Policy, b: Tree, h: Tree, name: string) {
    && MigrationFile(name)
    && (forall s :: s in Stamps(b) ==> Less(s, Stamp(name)))
    && name in h && (policy.declares(h[name]) || name in policy.overrides)
  }

  lemma AfterHeadIsAfterAll(b: Tree, p: string)
    requires MigrationFile(Base(p))
    ensures !IsEarly(b, p) <==> forall s :: s in Stamps(b) ==> Less(s, Stamp(Base(p)))
  {
    if Head(b).Some? {
      var head := Head(b).value;
      forall s | s in Stamps(b) && Less(head, Stamp(Base(p))) ensures Less(s, Stamp(Base(p))) {
        if s != head { LessTransitive(s, head, Stamp(Base(p))); }
      }
    }
  }

  lemma PassesFileChecks(policy: Policy, lines: set<Line>, b: Tree, h: Tree, p: string)
    requires p in NewPaths(lines, b)
    ensures AcceptableFile(policy, b, h, Base(p)) <==>
            && p !in MisnamedPaths(lines, b) && p !in EarlyPaths(lines, b)
            && p !in UnreadablePaths(lines, b, h) && p !in SilentPaths(policy, lines, b, h)
  {
    if MigrationFile(Base(p)) { AfterHeadIsAfterAll(b, p); }
  }

  lemma AcceptedIffAcceptable(policy: Policy, lines: set<Line>, b: Tree, h: Tree)
    ensures Gate(policy, lines, b, h).Accepted? <==> Acceptable(policy, lines, b, h)
  {
    ChangeChecks(policy, lines, b, h);
    if policy.overrides == policy.acknowledged { OverrideChecks(policy, b, h); }
    FileChecks(policy, lines, b, h);
  }

  lemma AcknowledgedIs(policy: Policy, l: Line)
    ensures Acknowledged(policy, l) <==> exists f, t :: (f, t) in policy.renames && l == Renamed(f, t, 100)
  {
    if Acknowledged(policy, l) { assert (l.from, l.to) in policy.renames && l == Renamed(l.from, l.to, 100); }
  }

  /** An accepted change leaves every file of its merge base as it was, save one that an acknowledged pair
      moves, content and all; with no pair acknowledged every line of it is an addition. */
  lemma AcceptedKeepsCommitted(policy: Policy, lines: set<Line>, m: Tree, b: Tree, h: Tree)
    requires Describes(lines, m, h) && Gate(policy, lines, b, h).Accepted?
    ensures forall p :: p in m ==>
              || At(h, p) == Some(m[p])
              || (p !in h && exists t :: (p, t) in policy.renames && t !in m && At(h, t) == Some(m[p]))
    ensures policy.renames == {} ==> forall l :: l in lines ==> l.Added?
  {
    AcceptedIffAcceptable(policy, lines, b, h);
    forall p | p in m && At(h, p) != Some(m[p])
      ensures p !in h && exists t :: (p, t) in policy.renames && t !in m && At(h, t) == Some(m[p])
    {
      AcceptedAt(policy, lines, m, b, h, p);
      var l :| l in lines && l.Renamed? && l.from == p;
      assert (p, l.to) in policy.renames && l.similarity == 100;
    }
  }

  lemma ChangeChecks(policy: Policy, lines: set<Line>, b: Tree, h: Tree)
    ensures ChangedLines(policy, lines) == {} <==>
            forall l :: l in lines ==> l.Added? || exists f, t :: (f, t) in policy.renames && l == Renamed(f, t, 100)
    ensures RewrittenPaths(lines, b, h) == {} <==> forall p :: p in AddedPaths(lines) && p in b ==> At(b, p) == At(h, p)
  {
    var changed, rewritten := ChangedLines(policy, lines), RewrittenPaths(lines, b, h);
    assert changed != {} ==> exists l :: l in changed;
    forall l | l in lines
      ensures l in changed <==>
              !(l.Added? || exists f, t :: (f, t) in policy.renames && l == Renamed(f, t, 100))
    {
      AcknowledgedIs(policy, l);
    }
    assert rewritten != {} ==> exists p :: p in rewritten;
    forall p | p in AddedPaths(lines) && p in b ensures p in rewritten <==> At(b, p) != At(h, p) {}
  }

  lemma OverrideChecks(policy: Policy, b: Tree, h: Tree)
    requires policy.overrides == policy.acknowledged
    ensures OverriddenNames(policy, b, h) == {} <==>
            forall n :: n in policy.overrides ==> n in h && !policy.declares(h[n])
  {
    var refused := OverriddenNames(policy, b, h);
    assert refused != {} ==> exists n :: n in refused;
    forall n | n in policy.overrides ensures n in refused <==> !(n in h && !policy.declares(h[n])) {}
  }

  lemma FileChecks(policy: Policy, lines: set<Line>, b: Tree, h: Tree)
    ensures MisnamedPaths(lines, b) + EarlyPaths(lines, b) + UnreadablePaths(lines, b, h)
              + SilentPaths(policy, lines, b, h) == {}
            <==> forall p :: p in NewPaths(lines, b) ==> AcceptableFile(policy, b, h, Base(p))
  {
    var refused := MisnamedPaths(lines, b) + EarlyPaths(lines, b) + UnreadablePaths(lines, b, h)
      + SilentPaths(policy, lines, b, h);
    forall p | p in NewPaths(lines, b)
      ensures p in refused <==> !AcceptableFile(policy, b, h, Base(p))
    {
      PassesFileChecks(policy, lines, b, h, p);
    }
    assert refused != {} ==> exists p :: p in refused;
    assert forall p :: p in refused ==> p in NewPaths(lines, b);
  }

  // ----- the merge -----

  datatype MergeResult = Clean(tree: Tree) | Conflict(paths: set<string>)

  /** Both sides moved a path, and apart. */
  predicate Torn(m: Tree, b: Tree, h: Tree, p: string) {
    At(b, p) != At(h, p) && At(m, p) != At(b, p) && At(m, p) != At(h, p)
  }

  /** Otherwise the side that moved wins. */
  function Resolve(m: Tree, b: Tree, h: Tree, p: string): Option<Blob> {
    if At(m, p) == At(b, p) then At(h, p) else At(b, p)
  }

  function Merge(m: Tree, b: Tree, h: Tree): MergeResult {
    var paths := m.Keys + b.Keys + h.Keys;
    var torn := set p | p in paths && Torn(m, b, h, p);
    if torn != {} then Conflict(torn)
    else Clean(map p | p in paths && Resolve(m, b, h, p).Some? :: Resolve(m, b, h, p).value)
  }

  lemma MergeIs(m: Tree, b: Tree, h: Tree, t: Tree)
    ensures Merge(m, b, h) == Clean(t) <==>
            forall p :: !Torn(m, b, h, p) && Resolve(m, b, h, p) == At(t, p)
  {
    var paths := m.Keys + b.Keys + h.Keys;
    var torn := set p | p in paths && Torn(m, b, h, p);
    var u: Tree := map p | p in paths && Resolve(m, b, h, p).Some? :: Resolve(m, b, h, p).value;
    if torn == {} {
      forall p ensures !Torn(m, b, h, p) && Resolve(m, b, h, p) == At(u, p) {
        assert p !in torn;
      }
      if forall p :: Resolve(m, b, h, p) == At(t, p) {
        forall p ensures At(u, p) == At(t, p) { assert Resolve(m, b, h, p) == At(t, p); }
        SameEverywhere(u, t);
      }
    } else {
      var p :| p in torn;
      assert Torn(m, b, h, p);
    }
  }

  lemma SameEverywhere(u: Tree, t: Tree)
    requires forall p :: At(u, p) == At(t, p)
    ensures u == t
  {
    forall p ensures (p in u <==> p in t) && (p in u ==> u[p] == t[p]) {
      assert At(u, p) == At(t, p);
    }
  }

  function Additions(lines: set<Line>, b: Tree, h: Tree): Tree {
    map p | p in NewPaths(lines, b) && p in h :: h[p]
  }

  /** Every rename the diff reports is already on the base, as HEAD has it. */
  ghost predicate RenamesLanded(lines: set<Line>, b: Tree, h: Tree) {
    forall l :: l in lines && l.Renamed? ==> l.from !in b && l.to in b && At(b, l.to) == At(h, l.to)
  }

  lemma AddedPathsAre(lines: set<Line>, m: Tree, h: Tree)
    requires Describes(lines, m, h)
    ensures forall p :: p in AddedPaths(lines) <==> Added(p) in lines
    ensures forall p :: p in AddedPaths(lines) ==> p in h && p !in m
  {
    forall p | p in AddedPaths(lines) ensures Added(p) in lines && p in h && p !in m {
      var l :| l in lines && l.Added? && l.path == p;
      assert l == Added(p);
    }
  }

  /** Where each path of the three trees can stand after an acceptance. */
  lemma AcceptedAt(policy: Policy, lines: set<Line>, m: Tree, b: Tree, h: Tree, p: string)
    requires Describes(lines, m, h) && Gate(policy, lines, b, h).Accepted?
    ensures p in m && p in h ==> m[p] == h[p]
    ensures p in h && p !in m && Added(p) !in lines ==> exists l :: l in lines && l.Renamed? && l.to == p
    ensures p in m && p !in h ==> exists l :: l in lines && l.Renamed? && l.from == p
    ensures At(Additions(lines, b, h), p) == if Added(p) in lines && p !in b then At(h, p) else None
    ensures Added(p) in lines && p in b ==> At(b, p) == At(h, p)
  {
    AcceptedIffAcceptable(policy, lines, b, h);
    AddedPathsAre(lines, m, h);
  }

  lemma PlusAddedAt(policy: Policy, lines: set<Line>, m: Tree, b: Tree, h: Tree, p: string)
    requires Describes(lines, m, h) && Gate(policy, lines, b, h).Accepted?
    ensures At(b + Additions(lines, b, h), p) == if Added(p) in lines && p !in b then At(h, p) else At(b, p)
  {
    AcceptedAt(policy, lines, m, b, h, p);
    var t := b + Additions(lines, b, h);
    assert At(t, p) == if p in Additions(lines, b, h) then At(Additions(lines, b, h), p) else At(b, p);
    AddedPathsAre(lines, m, h);
  }

  /** An accepted change merges without conflict into the base plus what was added - unless it
      uses an acknowledged rename the base has not already made. */
  lemma AcceptedMergeIsBasePlusAdded(policy: Policy, lines: set<Line>, m: Tree, b: Tree, h: Tree)
    requires Describes(lines, m, h) && Gate(policy, lines, b, h).Accepted?
    ensures Merge(m, b, h) == Clean(b + Additions(lines, b, h)) <==> RenamesLanded(lines, b, h)
  {
    MergeIs(m, b, h, b + Additions(lines, b, h));
    if RenamesLanded(lines, b, h) {
      forall p ensures !Torn(m, b, h, p) && Resolve(m, b, h, p) == At(b + Additions(lines, b, h), p) {
        PlusAddedAt(policy, lines, m, b, h, p);
        LandedResolves(policy, lines, m, b, h, p);
      }
    }
    if Merge(m, b, h) == Clean(b + Additions(lines, b, h)) {
      forall l | l in lines && l.Renamed?
        ensures l.from !in b && l.to in b && At(b, l.to) == At(h, l.to)
      {
        PlusAddedAt(policy, lines, m, b, h, l.from);
        PlusAddedAt(policy, lines, m, b, h, l.to);
        assert !Torn(m, b, h, l.from) && !Torn(m, b, h, l.to);
        UnlandedDiffers(lines, m, b, h, l);
      }
    }
  }

  lemma LandedResolves(policy: Policy, lines: set<Line>, m: Tree, b: Tree, h: Tree, p: string)
    requires Describes(lines, m, h) && Gate(policy, lines, b, h).Accepted? && RenamesLanded(lines, b, h)
    ensures !Torn(m, b, h, p)
    ensures Resolve(m, b, h, p) == if Added(p) in lines && p !in b then At(h, p) else At(b, p)
  {
    AcceptedAt(policy, lines, m, b, h, p);
    assert Added(p) in lines ==> p in h && p !in m;
  }

  lemma UnlandedDiffers(lines: set<Line>, m: Tree, b: Tree, h: Tree, l: Line)
    requires Describes(lines, m, h) && l in lines && l.Renamed?
    requires !Torn(m, b, h, l.from) && Resolve(m, b, h, l.from) == At(b, l.from)
    requires !Torn(m, b, h, l.to) && Resolve(m, b, h, l.to) == At(b, l.to)
    ensures l.from !in b && l.to in b && At(b, l.to) == At(h, l.to)
  {
  }

  /** HEAD alone, as a push without a merge makes it the trunk, is the base plus what was added
      exactly when it was grown from the base: a push that drops base files is not refused. */
  lemma AcceptedHeadIsBasePlusAdded(policy: Policy, lines: set<Line>, m: Tree, b: Tree, h: Tree)
    requires Describes(lines, m, h) && Gate(policy, lines, b, h).Accepted? && RenamesLanded(lines, b, h)
    ensures h == b + Additions(lines, b, h) <==>
            (forall p :: p in b ==> p in h) && (forall p :: p in m && p in h ==> At(b, p) == At(m, p))
  {
    var t := b + Additions(lines, b, h);
    forall p
      ensures p in h && p !in m ==> At(h, p) == At(t, p)
      ensures p in m || p !in h ==> At(t, p) == At(b, p)
      ensures p in m && p in h ==> m[p] == h[p]
    {
      AcceptedAt(policy, lines, m, b, h, p);
      assert At(t, p) == if p in Additions(lines, b, h) then At(Additions(lines, b, h), p) else At(b, p);
    }
    if (forall p :: p in b ==> p in h) && (forall p :: p in m && p in h ==> At(b, p) == At(m, p)) {
      SameEverywhere(h, t);
    }
    if h == t {
      forall p | p in m && p in h ensures At(b, p) == At(m, p) { assert At(t, p) == At(h, p); }
    }
  }
}
