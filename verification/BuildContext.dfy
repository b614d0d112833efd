/** What an image build reads of a working directory: the ignore rules, and the walk that applies them
    to every step below a path. */
module BuildContext {
  import opened Options
  import opened Text
  import opened Ordering
  import opened DirectoryTree

  /** `!` puts back what an earlier rule left out. */
  datatype Rule = Rule(negate: bool, pattern: string)

  /** Whether a path matches a pattern. */
  type Glob = (string, string) -> bool

  // ----- the matcher -----

  /** A path and its ancestors, shortest first. */
  function Candidates(file: string): (r: seq<string>)
    ensures |r| == |Split(file, SEP)|
    ensures forall k :: 0 <= k < |r| ==> r[k] == Join(Split(file, SEP)[..k + 1], SEP)
  {
    var parts := Split(file, SEP);
    seq(|parts|, k requires 0 <= k < |parts| => Join(parts[..k + 1], SEP))
  }

  predicate Hits(glob: Glob, pattern: string, file: string) {
    var candidates := Candidates(file);
    exists k :: 0 <= k < |candidates| && glob(candidates[k], pattern)
  }

  /** The last rule that matches the path or an ancestor of it is one that leaves out. */
  predicate Excludes(rules: seq<Rule>, glob: Glob, file: string) {
    exists i ::
      && 0 <= i < |rules| && Hits(glob, rules[i].pattern, file) && !rules[i].negate
      && forall j :: i < j < |rules| ==> !Hits(glob, rules[j].pattern, file)
  }

  method ContextExcludes(rules: seq<Rule>, glob: Glob, file: string) returns (excluded: bool)
    ensures excluded <==> Excludes(rules, glob, file)
  {
    var candidates := Candidates(file);
    excluded := false;
    for i := 0 to |rules|
      invariant excluded <==> Excludes(rules[..i], glob, file)
    {
      OneMoreRule(rules, i, glob, file);
      if exists k :: 0 <= k < |candidates| && glob(candidates[k], rules[i].pattern) {
        excluded := !rules[i].negate;
      }
    }
    assert rules[..|rules|] == rules;
  }

  lemma OneMoreRule(rules: seq<Rule>, n: nat, glob: Glob, file: string)
    requires n < |rules|
    ensures Excludes(rules[..n + 1], glob, file)
            <==> if Hits(glob, rules[n].pattern, file) then !rules[n].negate else Excludes(rules[..n], glob, file)
  {
    var shorter, longer := rules[..n], rules[..n + 1];
    assert forall i :: 0 <= i < n ==> shorter[i] == longer[i];
    if Hits(glob, rules[n].pattern, file) {
      assert longer[n] == rules[n];
    } else if Excludes(shorter, glob, file) {
      var i :| 0 <= i < n && Hits(glob, shorter[i].pattern, file) && !shorter[i].negate
               && forall j :: i < j < n ==> !Hits(glob, shorter[j].pattern, file);
      assert Hits(glob, longer[i].pattern, file);
    }
  }

  /** The rule that decides of a path. */
  ghost predicate Decides(rules: seq<Rule>, glob: Glob, file: string, i: nat) {
    && i < |rules| && Hits(glob, rules[i].pattern, file)
    && forall j :: i < j < |rules| ==> !Hits(glob, rules[j].pattern, file)
  }

  /** A rule hits a path by one of the paths down to it, the path itself among them; where no rule does, it stays
      in; else the last rule that does has its way. */
  lemma LastRuleDecides(rules: seq<Rule>, glob: Glob, ns: seq<string>, i: nat)
    requires ns != [] && AllFree(ns, '/')
    ensures var file := Join(ns, '/');
            && (forall p :: Hits(glob, p, file) <==> HitsOnTheWay(glob, p, ns))
            && ((forall j :: 0 <= j < |rules| ==> !HitsOnTheWay(glob, rules[j].pattern, ns)) ==>
                  !Excludes(rules, glob, file))
            && (Decides(rules, glob, file, i) ==> (Excludes(rules, glob, file) <==> !rules[i].negate))
  {
    var file := Join(ns, '/');
    SplitOfJoin(ns, '/');
    forall p ensures Hits(glob, p, file) <==> HitsOnTheWay(glob, p, ns) {
      if k :| 1 <= k <= |ns| && glob(Join(ns[..k], '/'), p) {
        assert Candidates(file)[k - 1] == Join(ns[..k], '/');
      }
    }
  }

  ghost predicate HitsOnTheWay(glob: Glob, pattern: string, ns: seq<string>) {
    exists k :: 1 <= k <= |ns| && glob(Join(ns[..k], '/'), pattern)
  }

  /** A rule that matches a path matches everything under it. */
  lemma HitsBelow(glob: Glob, pattern: string, file: string, below: string)
    requires Hits(glob, pattern, file)
    ensures Hits(glob, pattern, file + [SEP] + below)
  {
    var parts, more := Split(file, SEP), Split(file + [SEP] + below, SEP);
    SplitMore(file, SEP, below);
    var k :| 0 <= k < |parts| && glob(Candidates(file)[k], pattern);
    assert more[..k + 1] == parts[..k + 1];
    assert Candidates(file + [SEP] + below)[k] == Candidates(file)[k];
  }

  predicate PutsNothingBack(rules: seq<Rule>) { forall i :: 0 <= i < |rules| ==> !rules[i].negate }

  lemma {:induction false} LastHit(rules: seq<Rule>, glob: Glob, file: string, i: nat)
    requires i < |rules| && Hits(glob, rules[i].pattern, file) && PutsNothingBack(rules)
    ensures Excludes(rules, glob, file)
    decreases |rules| - i
  {
    if j :| i < j < |rules| && Hits(glob, rules[j].pattern, file) { LastHit(rules, glob, file, j); }
  }

  /** Without a `!` rule what is left out stays out all the way down. */
  lemma ExcludedBelow(rules: seq<Rule>, glob: Glob, file: string, below: string)
    requires PutsNothingBack(rules) && Excludes(rules, glob, file)
    ensures Excludes(rules, glob, file + [SEP] + below)
  {
    var i :| 0 <= i < |rules| && Hits(glob, rules[i].pattern, file);
    HitsBelow(glob, rules[i].pattern, file, below);
    LastHit(rules, glob, file + [SEP] + below, i);
  }

  // ----- the walk -----

  /** The entries of a directory that are not left out, as paths. */
  function Kept(excluded: string -> bool, entries: seq<Entry>, name: string): seq<string> {
    if entries == [] then []
    else
      var path := name + [SEP] + entries[0].name;
      (if excluded(path) then [] else [path]) + Kept(excluded, entries[1..], name)
  }

  /** Every file under a path that a build would read. */
  function FilesUnder(excluded: string -> bool, node: Node, name: string): seq<string>
    decreases node, 1, 0
  {
    if !node.Dir? then [name] else Each(excluded, node, SortNames(Kept(excluded, node.entries, name)), name)
  }

  function Each(excluded: string -> bool, dir: Node, paths: seq<string>, name: string): seq<string>
    requires dir.Dir?
    decreases dir, 0, |paths|
  {
    if paths == [] then []
    else Child(excluded, dir, paths[0], name) + Each(excluded, dir, paths[1..], name)
  }

  function Child(excluded: string -> bool, dir: Node, path: string, name: string): seq<string>
    requires dir.Dir?
    decreases dir, 0, 0
  {
    if |path| <= |name| then []
    else
      var found := Find(dir.entries, path[|name| + 1..]);
      if found.None? then [] else FilesUnder(excluded, found.value, path)
  }

  /** Starting at a name in the working directory; nothing there gives nothing. */
  function FilesUnderName(excluded: string -> bool, root: seq<Entry>, name: string): seq<string> {
    match At(root, Split(name, SEP))
    case None => []
    case Some(node) => FilesUnder(excluded, node, name)
  }

  // ----- what the walk gives -----

  ghost predicate ValidNode(node: Node) { node.Dir? ==> Valid(node.entries) }

  function NodeAt(node: Node, ns: seq<string>): Option<Node> {
    if ns == [] then Some(node) else if node.Dir? then At(node.entries, ns) else None
  }

  /** The path of what stands at `ns` below a name. */
  function Below(name: string, ns: seq<string>): string {
    if ns == [] then name else name + ['/'] + Join(ns, '/')
  }

  /** There is a file at `ns`, and no step on the way to it is left out. */
  ghost predicate Reached(excluded: string -> bool, node: Node, name: string, ns: seq<string>) {
    && NodeAt(node, ns).Some? && !NodeAt(node, ns).value.Dir?
    && forall k :: 1 <= k <= |ns| ==> !excluded(Below(name, ns[..k]))
  }

  lemma BelowStep(name: string, e: string, rest: seq<string>)
    ensures Below(name + [SEP] + e, rest) == Below(name, [e] + rest)
  {
    assert rest != [] ==> ([e] + rest)[1..] == rest;
    if rest != [] {
      assert name + [SEP] + e + [SEP] + Join(rest, SEP) == name + [SEP] + (e + [SEP] + Join(rest, SEP));
    }
  }

  lemma ReachedStep(excluded: string -> bool, dir: Node, i: nat, name: string, rest: seq<string>)
    requires dir.Dir? && ValidNode(dir) && i < |dir.entries|
    ensures var e := dir.entries[i]; var path := name + [SEP] + e.name;
            Reached(excluded, dir, name, [e.name] + rest) <==> !excluded(path) && Reached(excluded, e.node, path, rest)
  {
    var e := dir.entries[i];
    var path, ns := name + [SEP] + e.name, [e.name] + rest;
    FindAt(dir.entries, i);
    assert ns[1..] == rest && NodeAt(dir, ns) == NodeAt(e.node, rest);
    assert Below(name, ns[..1]) == path by { assert ns[..1] == [e.name]; }
    forall k | 1 <= k <= |rest| ensures Below(path, rest[..k]) == Below(name, ns[..k + 1]) {
      assert ns[..k + 1] == [e.name] + rest[..k];
      BelowStep(name, e.name, rest[..k]);
    }
    assert forall k :: 2 <= k <= |ns| ==> Below(path, rest[..k - 1]) == Below(name, ns[..k]);
  }

  lemma {:induction false} KeptHas(excluded: string -> bool, entries: seq<Entry>, name: string, i: nat)
    requires i < |entries| && !excluded(name + [SEP] + entries[i].name)
    ensures name + [SEP] + entries[i].name in Kept(excluded, entries, name)
  {
    if i > 0 { KeptHas(excluded, entries[1..], name, i - 1); }
  }

  lemma {:induction false} KeptFrom(excluded: string -> bool, entries: seq<Entry>, name: string, path: string)
    returns (i: nat)
    requires path in Kept(excluded, entries, name)
    ensures i < |entries| && path == name + [SEP] + entries[i].name && !excluded(path)
  {
    if path in Kept(excluded, entries[1..], name) {
      i := KeptFrom(excluded, entries[1..], name, path);
      i := i + 1;
    } else {
      i := 0;
    }
  }

  lemma SameEntry(name: string, a: string, b: string)
    requires name + [SEP] + a == name + [SEP] + b
    ensures a == b
  {
    assert (name + [SEP] + a)[|name| + 1..] == a && (name + [SEP] + b)[|name| + 1..] == b;
  }

  lemma {:induction false} KeptOnce(excluded: string -> bool, entries: seq<Entry>, name: string)
    requires forall i, j :: 0 <= i < j < |entries| ==> entries[i].name != entries[j].name
    ensures NoRepeats(Kept(excluded, entries, name))
  {
    if entries != [] {
      var path, rest := name + [SEP] + entries[0].name, Kept(excluded, entries[1..], name);
      KeptOnce(excluded, entries[1..], name);
      if path in rest {
        var i := KeptFrom(excluded, entries[1..], name, path);
        SameEntry(name, entries[0].name, entries[1..][i].name);
      }
      if !excluded(path) { ApartHaveNoRepeats([path], rest); }
    }
  }

  lemma KeptIs(excluded: string -> bool, entries: seq<Entry>, name: string)
    requires forall i, j :: 0 <= i < j < |entries| ==> entries[i].name != entries[j].name
    ensures NoRepeats(Kept(excluded, entries, name))
    ensures forall i :: 0 <= i < |entries| && !excluded(name + [SEP] + entries[i].name) ==>
                          name + [SEP] + entries[i].name in Kept(excluded, entries, name)
    ensures forall path :: path in Kept(excluded, entries, name) ==>
                             exists i :: 0 <= i < |entries| && path == name + [SEP] + entries[i].name && !excluded(path)
  {
    KeptOnce(excluded, entries, name);
    forall i | 0 <= i < |entries| && !excluded(name + [SEP] + entries[i].name)
      ensures name + [SEP] + entries[i].name in Kept(excluded, entries, name)
    {
      KeptHas(excluded, entries, name, i);
    }
    forall path | path in Kept(excluded, entries, name)
      ensures exists i :: 0 <= i < |entries| && path == name + [SEP] + entries[i].name && !excluded(path)
    {
      var i := KeptFrom(excluded, entries, name, path);
    }
  }

  /** The paths walked below a directory are those of its kept entries, in order and once each. */
  lemma SortedKept(excluded: string -> bool, dir: Node, name: string)
    requires dir.Dir? && ValidNode(dir)
    ensures var paths := SortNames(Kept(excluded, dir.entries, name));
            && paths == Sorted(Elements(Kept(excluded, dir.entries, name)))
            && NoRepeats(paths)
            && forall path :: path in paths <==> path in Kept(excluded, dir.entries, name)
  {
    KeptIs(excluded, dir.entries, name);
    SortingAListing(Kept(excluded, dir.entries, name));
    AscendingHasNoRepeats(SortNames(Kept(excluded, dir.entries, name)));
  }

  lemma ChildOfEntry(excluded: string -> bool, dir: Node, i: nat, name: string)
    requires dir.Dir? && ValidNode(dir) && i < |dir.entries|
    ensures var path := name + [SEP] + dir.entries[i].name;
            Child(excluded, dir, path, name) == FilesUnder(excluded, dir.entries[i].node, path)
  {
    var path := name + [SEP] + dir.entries[i].name;
    assert path[|name| + 1..] == dir.entries[i].name;
    FindAt(dir.entries, i);
  }

  lemma {:induction false} EachHas(excluded: string -> bool, dir: Node, paths: seq<string>, name: string, q: string)
    requires dir.Dir?
    ensures q in Each(excluded, dir, paths, name) <==>
            exists i :: 0 <= i < |paths| && q in Child(excluded, dir, paths[i], name)
  {
    if paths != [] {
      EachHas(excluded, dir, paths[1..], name, q);
      if i :| 0 <= i < |paths[1..]| && q in Child(excluded, dir, paths[1..][i], name) {
        assert q in Child(excluded, dir, paths[i + 1], name);
      }
      if i :| 1 <= i < |paths| && q in Child(excluded, dir, paths[i], name) {
        assert q in Child(excluded, dir, paths[1..][i - 1], name);
      }
    }
  }

  /** One step down: what is walked below a directory is walked below one of its kept entries. */
  lemma WalkStep(excluded: string -> bool, dir: Node, name: string, q: string)
    requires dir.Dir? && ValidNode(dir)
    ensures q in FilesUnder(excluded, dir, name) <==>
            exists i :: 0 <= i < |dir.entries| && !excluded(name + [SEP] + dir.entries[i].name)
                        && q in FilesUnder(excluded, dir.entries[i].node, name + [SEP] + dir.entries[i].name)
  {
    var paths := SortNames(Kept(excluded, dir.entries, name));
    KeptIs(excluded, dir.entries, name);
    SortedKept(excluded, dir, name);
    EachHas(excluded, dir, paths, name, q);
    if k :| 0 <= k < |paths| && q in Child(excluded, dir, paths[k], name) {
      assert paths[k] in paths;
      var i :| 0 <= i < |dir.entries| && paths[k] == name + [SEP] + dir.entries[i].name && !excluded(paths[k]);
      ChildOfEntry(excluded, dir, i, name);
    }
    if i :| 0 <= i < |dir.entries| && !excluded(name + [SEP] + dir.entries[i].name)
            && q in FilesUnder(excluded, dir.entries[i].node, name + [SEP] + dir.entries[i].name) {
      ChildOfEntry(excluded, dir, i, name);
      assert name + [SEP] + dir.entries[i].name in paths;
      var k :| 0 <= k < |paths| && paths[k] == name + [SEP] + dir.entries[i].name;
      assert q in Child(excluded, dir, paths[k], name);
    }
  }

  lemma {:induction false} WalkedIsReached(excluded: string -> bool, node: Node, name: string, q: string)
    returns (ns: seq<string>)
    requires ValidNode(node) && q in FilesUnder(excluded, node, name)
    ensures Reached(excluded, node, name, ns) && q == Below(name, ns)
    decreases node
  {
    if !node.Dir? {
      ns := [];
    } else {
      WalkStep(excluded, node, name, q);
      var i :| 0 <= i < |node.entries| && !excluded(name + [SEP] + node.entries[i].name)
               && q in FilesUnder(excluded, node.entries[i].node, name + [SEP] + node.entries[i].name);
      var rest := WalkedIsReached(excluded, node.entries[i].node, name + [SEP] + node.entries[i].name, q);
      ReachedStep(excluded, node, i, name, rest);
      BelowStep(name, node.entries[i].name, rest);
      ns := [node.entries[i].name] + rest;
    }
  }

  lemma {:induction false} ReachedIsWalked(excluded: string -> bool, node: Node, name: string, ns: seq<string>)
    requires ValidNode(node) && Reached(excluded, node, name, ns)
    ensures Below(name, ns) in FilesUnder(excluded, node, name)
    decreases |ns|
  {
    if ns != [] {
      var i :| 0 <= i < |node.entries| && node.entries[i].name == ns[0];
      assert ns == [ns[0]] + ns[1..];
      ReachedStep(excluded, node, i, name, ns[1..]);
      ReachedIsWalked(excluded, node.entries[i].node, name + [SEP] + ns[0], ns[1..]);
      BelowStep(name, ns[0], ns[1..]);
      WalkStep(excluded, node, name, Below(name, ns));
    }
  }

  /** The walk gives exactly the files with no step below the start left out. */
  lemma WalkIsEveryReachedFile(excluded: string -> bool, node: Node, name: string, q: string)
    requires ValidNode(node)
    ensures q in FilesUnder(excluded, node, name)
            <==> exists ns :: Reached(excluded, node, name, ns) && q == Below(name, ns)
  {
    if q in FilesUnder(excluded, node, name) {
      var ns := WalkedIsReached(excluded, node, name, q);
    }
    if ns :| Reached(excluded, node, name, ns) && q == Below(name, ns) {
      ReachedIsWalked(excluded, node, name, ns);
    }
  }

  lemma BelowIsInjective(name: string, node: Node, ms: seq<string>, ns: seq<string>)
    requires ValidNode(node) && NodeAt(node, ms).Some? && NodeAt(node, ns).Some?
    requires Below(name, ms) == Below(name, ns)
    ensures ms == ns
  {
    if ms != [] && ns != [] {
      PathsAreFree(node.entries, ms);
      PathsAreFree(node.entries, ns);
      assert Below(name, ms)[|name| + 1..] == Join(ms, SEP) && Below(name, ns)[|name| + 1..] == Join(ns, SEP);
      JoinIsInjective(ms, ns, SEP);
    }
  }

  // ----- once each -----

  lemma EntriesApart(excluded: string -> bool, dir: Node, i: nat, j: nat, name: string, q: string)
    requires dir.Dir? && ValidNode(dir) && i < |dir.entries| && j < |dir.entries|
    requires var path := name + [SEP] + dir.entries[i].name; !excluded(path) && q in Child(excluded, dir, path, name)
    requires var path := name + [SEP] + dir.entries[j].name; !excluded(path) && q in Child(excluded, dir, path, name)
    ensures i == j
  {
    var a, b := dir.entries[i], dir.entries[j];
    ChildOfEntry(excluded, dir, i, name);
    ChildOfEntry(excluded, dir, j, name);
    var ms := WalkedIsReached(excluded, a.node, name + [SEP] + a.name, q);
    var ns := WalkedIsReached(excluded, b.node, name + [SEP] + b.name, q);
    ReachedStep(excluded, dir, i, name, ms);
    ReachedStep(excluded, dir, j, name, ns);
    BelowStep(name, a.name, ms);
    BelowStep(name, b.name, ns);
    BelowIsInjective(name, dir, [a.name] + ms, [b.name] + ns);
    assert ([a.name] + ms)[0] == ([b.name] + ns)[0];
  }

  /** No file is given twice. */
  lemma {:induction false} WalkedOnce(excluded: string -> bool, node: Node, name: string)
    requires ValidNode(node)
    ensures NoRepeats(FilesUnder(excluded, node, name))
    decreases node
  {
    if node.Dir? {
      KeptIs(excluded, node.entries, name);
      SortedKept(excluded, node, name);
      forall i | 0 <= i < |node.entries|
        ensures NoRepeats(Child(excluded, node, name + [SEP] + node.entries[i].name, name))
      {
        ChildOfEntry(excluded, node, i, name);
        WalkedOnce(excluded, node.entries[i].node, name + [SEP] + node.entries[i].name);
      }
      EachOnce(excluded, node, SortNames(Kept(excluded, node.entries, name)), name);
    }
  }

  lemma OneEntryEach(excluded: string -> bool, dir: Node, name: string, p: string, q: string, file: string)
    requires dir.Dir? && ValidNode(dir) && EntryPath(excluded, dir, name, p) && EntryPath(excluded, dir, name, q)
    requires file in Child(excluded, dir, p, name) && file in Child(excluded, dir, q, name)
    ensures p == q
  {
    var i :| 0 <= i < |dir.entries| && p == name + [SEP] + dir.entries[i].name;
    var j :| 0 <= j < |dir.entries| && q == name + [SEP] + dir.entries[j].name;
    EntriesApart(excluded, dir, i, j, name, file);
  }

  lemma {:induction false} EachOnce(excluded: string -> bool, dir: Node, paths: seq<string>, name: string)
    requires dir.Dir? && ValidNode(dir) && NoRepeats(paths)
    requires forall p :: p in paths ==> EntryPath(excluded, dir, name, p)
    requires forall p :: p in paths ==> NoRepeats(Child(excluded, dir, p, name))
    ensures NoRepeats(Each(excluded, dir, paths, name))
  {
    if paths != [] {
      var first, rest := Child(excluded, dir, paths[0], name), Each(excluded, dir, paths[1..], name);
      NoRepeatsTail(paths);
      EachOnce(excluded, dir, paths[1..], name);
      forall q | q in first ensures q !in rest {
        EachHas(excluded, dir, paths[1..], name, q);
        if k :| 0 <= k < |paths[1..]| && q in Child(excluded, dir, paths[1..][k], name) {
          assert paths[0] in paths && paths[1..][k] in paths;
          OneEntryEach(excluded, dir, name, paths[0], paths[1..][k], q);
        }
      }
      ApartHaveNoRepeats(first, rest);
    }
  }

  ghost predicate EntryPath(excluded: string -> bool, dir: Node, name: string, path: string)
    requires dir.Dir?
  {
    !excluded(path) && exists i :: 0 <= i < |dir.entries| && path == name + [SEP] + dir.entries[i].name
  }

  // ----- whatever the order -----

  /** The same directories and files under the same names, in whatever order they are listed. */
  ghost predicate Alike(a: Node, b: Node)
    decreases a
  {
    && a.Dir? == b.Dir?
    && (a.Dir? ==>
          && (forall i :: 0 <= i < |a.entries| ==> Find(b.entries, a.entries[i].name).Some?)
          && (forall j :: 0 <= j < |b.entries| ==> Find(a.entries, b.entries[j].name).Some?)
          && forall i, j :: 0 <= i < |a.entries| && 0 <= j < |b.entries| && a.entries[i].name == b.entries[j].name ==>
                              Alike(a.entries[i].node, b.entries[j].node))
  }

  lemma KeptAlike(excluded: string -> bool, a: Node, b: Node, name: string, p: string)
    requires a.Dir? && b.Dir? && ValidNode(a) && ValidNode(b) && Alike(a, b)
    requires p in Kept(excluded, a.entries, name)
    ensures p in Kept(excluded, b.entries, name)
  {
    KeptIs(excluded, a.entries, name);
    KeptIs(excluded, b.entries, name);
    var i :| 0 <= i < |a.entries| && p == name + [SEP] + a.entries[i].name && !excluded(p);
    var j :| 0 <= j < |b.entries| && b.entries[j].name == a.entries[i].name;
  }

  lemma {:induction false} AlikeBack(a: Node, b: Node)
    requires Alike(a, b)
    ensures Alike(b, a)
    decreases a
  {
    if a.Dir? {
      forall i, j | 0 <= i < |a.entries| && 0 <= j < |b.entries| && a.entries[i].name == b.entries[j].name
        ensures Alike(b.entries[j].node, a.entries[i].node)
      {
        AlikeBack(a.entries[i].node, b.entries[j].node);
      }
    }
  }

  /** The order directories are listed in decides nothing, not even the order of the result. */
  lemma {:induction false} ListingOrderDoesNotMatter(excluded: string -> bool, a: Node, b: Node, name: string)
    requires ValidNode(a) && ValidNode(b) && Alike(a, b)
    ensures FilesUnder(excluded, a, name) == FilesUnder(excluded, b, name)
    decreases a
  {
    if a.Dir? {
      SortedAlike(excluded, a, b, name);
      KeptIs(excluded, a.entries, name);
      forall p | p in Kept(excluded, a.entries, name)
        ensures Child(excluded, a, p, name) == Child(excluded, b, p, name)
      {
        var i :| 0 <= i < |a.entries| && p == name + [SEP] + a.entries[i].name && !excluded(p);
        var j :| 0 <= j < |b.entries| && b.entries[j].name == a.entries[i].name;
        ChildOfEntry(excluded, a, i, name);
        ChildOfEntry(excluded, b, j, name);
        ListingOrderDoesNotMatter(excluded, a.entries[i].node, b.entries[j].node, p);
      }
      EachAlike(excluded, a, b, SortNames(Kept(excluded, a.entries, name)), name);
    }
  }

  lemma SortedAlike(excluded: string -> bool, a: Node, b: Node, name: string)
    requires a.Dir? && b.Dir? && ValidNode(a) && ValidNode(b) && Alike(a, b)
    ensures SortNames(Kept(excluded, a.entries, name)) == SortNames(Kept(excluded, b.entries, name))
    ensures forall p :: p in SortNames(Kept(excluded, a.entries, name)) ==> p in Kept(excluded, a.entries, name)
  {
    var ka, kb := Kept(excluded, a.entries, name), Kept(excluded, b.entries, name);
    AlikeBack(a, b);
    forall p | p in ka ensures p in kb { KeptAlike(excluded, a, b, name, p); }
    forall p | p in kb ensures p in ka { KeptAlike(excluded, b, a, name, p); }
    assert Elements(ka) == Elements(kb);
    SortedKept(excluded, a, name);
    SortedKept(excluded, b, name);
  }

  lemma {:induction false} EachAlike(excluded: string -> bool, a: Node, b: Node, paths: seq<string>, name: string)
    requires a.Dir? && b.Dir?
    requires forall p :: p in paths ==> Child(excluded, a, p, name) == Child(excluded, b, p, name)
    ensures Each(excluded, a, paths, name) == Each(excluded, b, paths, name)
  {
    if paths != [] { EachAlike(excluded, a, b, paths[1..], name); }
  }

  // ----- walking against filtering -----

  /** Every file under a path, whatever the rules say. */
  function AllUnder(node: Node, name: string): seq<string> { FilesUnder(_ => false, node, name) }

  lemma AllUnderIs(node: Node, name: string, q: string)
    requires ValidNode(node)
    ensures q in AllUnder(node, name)
            <==> exists ns :: NodeAt(node, ns).Some? && !NodeAt(node, ns).value.Dir? && q == Below(name, ns)
  {
    WalkIsEveryReachedFile(_ => false, node, name, q);
    if ns :| NodeAt(node, ns).Some? && !NodeAt(node, ns).value.Dir? && q == Below(name, ns) {
      assert Reached(_ => false, node, name, ns);
    }
    if ns :| Reached(_ => false, node, name, ns) && q == Below(name, ns) {
      assert NodeAt(node, ns).Some?;
    }
  }

  /** A file the rules keep, below a directory they leave out. */
  ghost predicate Pruned(excluded: string -> bool, node: Node, name: string, ns: seq<string>, k: nat) {
    && NodeAt(node, ns).Some? && !NodeAt(node, ns).value.Dir? && !excluded(Below(name, ns))
    && 1 <= k < |ns| && excluded(Below(name, ns[..k]))
  }

  /** From a start that is kept, the walk gives the files that are kept, all but those below a
      directory that is left out. */
  lemma WalkIsFilterWithoutPruned(excluded: string -> bool, node: Node, name: string, q: string)
    requires ValidNode(node) && (node.Dir? || !excluded(name))
    ensures q in FilesUnder(excluded, node, name)
            <==> q in AllUnder(node, name) && !excluded(q)
                 && !exists ns, k :: Pruned(excluded, node, name, ns, k) && q == Below(name, ns)
  {
    WalkIsEveryReachedFile(excluded, node, name, q);
    AllUnderIs(node, name, q);
    if q in FilesUnder(excluded, node, name) {
      var ns :| Reached(excluded, node, name, ns) && q == Below(name, ns);
      assert ns[..|ns|] == ns;
      assert NodeAt(node, ns).Some?;
      forall ms, k | Pruned(excluded, node, name, ms, k) ensures q != Below(name, ms) {
        if q == Below(name, ms) { BelowIsInjective(name, node, ms, ns); }
      }
    } else if q in AllUnder(node, name) && !excluded(q) {
      var ns :| NodeAt(node, ns).Some? && !NodeAt(node, ns).value.Dir? && q == Below(name, ns);
      var k :| 1 <= k <= |ns| && excluded(Below(name, ns[..k]));
      assert ns[..|ns|] == ns;
      assert Pruned(excluded, node, name, ns, k);
    }
  }

  lemma BelowBelow(name: string, ns: seq<string>, k: nat)
    requires 1 <= k < |ns|
    ensures Below(name, ns) == Below(name, ns[..k]) + [SEP] + Join(ns[k..], SEP)
  {
    assert ns[..k] + ns[k..] == ns;
    JoinMore(ns[..k], ns[k..], SEP);
  }

  /** With no rule that puts back, walking is filtering. */
  lemma WalkIsFilter(rules: seq<Rule>, glob: Glob, excluded: string -> bool, node: Node, name: string, q: string)
    requires PutsNothingBack(rules) && forall f :: excluded(f) == Excludes(rules, glob, f)
    requires ValidNode(node) && (node.Dir? || !excluded(name))
    ensures q in FilesUnder(excluded, node, name) <==> q in AllUnder(node, name) && !excluded(q)
  {
    WalkIsFilterWithoutPruned(excluded, node, name, q);
    forall ns, k: nat ensures !Pruned(excluded, node, name, ns, k) {
      if 1 <= k < |ns| && excluded(Below(name, ns[..k])) {
        BelowBelow(name, ns, k);
        ExcludedBelow(rules, glob, Below(name, ns[..k]), Join(ns[k..], SEP));
      }
    }
  }

  /** A directory holding one directory holding one file. */
  function OneBelow(b: string, c: string, content: string): Node {
    Dir([Entry(b, Dir([Entry(c, File(content))]))])
  }

  lemma OneBelowIs(b: string, c: string, content: string)
    requires Free(b, SEP) && Free(b, NUL) && Free(c, SEP) && Free(c, NUL)
    ensures ValidNode(OneBelow(b, c, content)) && NodeAt(OneBelow(b, c, content), [b, c]) == Some(File(content))
  {
    var inner := [Entry(c, File(content))];
    assert [b, c][1..] == [c] && At(inner, [c]) == Some(File(content));
    assert Valid(inner);
  }

  /** With one, it need not be: where a rule that leaves out decides of a directory, and one that puts back of
      a file in it, the file is kept and not found. */
  lemma PutBackBelowIsMissed(rules: seq<Rule>, glob: Glob, name: string, b: string, c: string, content: string,
                             out: nat, back: nat)
    requires Free(b, SEP) && Free(b, NUL) && Free(c, SEP) && Free(c, NUL)
    requires Decides(rules, glob, Below(name, [b]), out) && !rules[out].negate
    requires Decides(rules, glob, Below(name, [b, c]), back) && rules[back].negate
    ensures var file := Below(name, [b, c]);
            var excluded := f => Excludes(rules, glob, f);
            var start := OneBelow(b, c, content);
            && ValidNode(start) && file in AllUnder(start, name) && !excluded(file)
            && file !in FilesUnder(excluded, start, name)
  {
    var ns, file := [b, c], Below(name, [b, c]);
    var excluded := f => Excludes(rules, glob, f);
    var start := OneBelow(b, c, content);
    OneBelowIs(b, c, content);
    assert ns[..1] == [b] && excluded(Below(name, ns[..1]));
    assert Pruned(excluded, start, name, ns, 1);
    AllUnderIs(start, name, file);
    WalkIsFilterWithoutPruned(excluded, start, name, file);
  }

  /** So it is with two literal patterns, for any matcher that takes those two literally. */
  lemma LiteralPutBackIsMissed(glob: Glob, name: string, b: string, c: string, content: string)
    requires Free(b, SEP) && Free(b, NUL) && Free(c, SEP) && Free(c, NUL)
    requires forall path :: glob(path, Below(name, [b])) <==> path == Below(name, [b])
    requires forall path :: glob(path, Below(name, [b, c])) <==> path == Below(name, [b, c])
    ensures var dir, file := Below(name, [b]), Below(name, [b, c]);
            var excluded := f => Excludes([Rule(false, dir), Rule(true, file)], glob, f);
            var start := OneBelow(b, c, content);
            file in AllUnder(start, name) && !excluded(file) && file !in FilesUnder(excluded, start, name)
  {
    var dir, file := Below(name, [b]), Below(name, [b, c]);
    var rules := [Rule(false, dir), Rule(true, file)];
    assert [b, c][..1] == [b];
    BelowBelow(name, [b, c], 1);
    LiteralHits(glob, file, file);
    LiteralHits(glob, dir, dir);
    LiteralHits(glob, file, dir);
    assert rules[0].pattern == dir && rules[1].pattern == file;
    PutBackBelowIsMissed(rules, glob, name, b, c, content, 0, 1);
  }

  /** A literal pattern matches its own path, and no shorter one. */
  lemma LiteralHits(glob: Glob, pattern: string, file: string)
    requires forall path :: glob(path, pattern) <==> path == pattern
    ensures pattern == file ==> Hits(glob, pattern, file)
    ensures |pattern| > |file| ==> !Hits(glob, pattern, file)
  {
    var parts := Split(file, SEP);
    JoinOfSplit(file, SEP);
    assert parts[..|parts|] == parts;
    assert Candidates(file)[|parts| - 1] == file;
    forall k | 0 <= k < |parts| ensures |Candidates(file)[k]| <= |file| {
      if k + 1 < |parts| {
        JoinMore(parts[..k + 1], parts[k + 1..], SEP);
        assert parts[..k + 1] + parts[k + 1..] == parts;
      }
    }
  }

  /** The repository's own rules. */
  const RULES: seq<Rule> := LEFT_OUT_FIRST + [Rule(true, "**/.env.example")] + LEFT_OUT_LAST

  const LEFT_OUT_FIRST: seq<Rule> :=
    LeaveOut([".git", "node_modules", "**/node_modules", "apps/web/dist", "apps/web/.qualy",
              "packages/plugins/infra/web/client-dist", ".qualy", "legacy", "repos", "docs", "coverage", ".vitest",
              "**/.vitest", "**/__screenshots__", "*.log", "**/.env", "**/.env.*"])

  const LEFT_OUT_LAST: seq<Rule> :=
    LeaveOut(["data", "db/data", ".claude", ".codex", "AGENTS.md", "CLAUDE.md", ".agents", ".mcp.json", ".vscode",
              ".idea", "STATUS.md", "**/.DS_Store", "ops/observability/collector.env", "deploy/*.env",
              "tools/brand/out", "packages/**/.qualy", "packages/**/project.inlang"])

  function LeaveOut(patterns: seq<string>): (rules: seq<Rule>)
    ensures |rules| == |patterns| && forall i :: 0 <= i < |rules| ==> rules[i] == Rule(false, patterns[i])
  {
    seq(|patterns|, i requires 0 <= i < |patterns| => Rule(false, patterns[i]))
  }

  // By these: when "**/node_modules" decides of a directory's node_modules, and "!**/.env.example" of the example
  // in it, as the patterns are meant, then the example is kept and not found.
  lemma ExampleInModulesIsMissed(rules: seq<Rule>, glob: Glob, name: string, content: string)
    requires rules == RULES
    requires Decides(rules, glob, Below(name, ["node_modules"]), 2)
    requires Decides(rules, glob, Below(name, ["node_modules", ".env.example"]), 17)
    ensures var file := Below(name, ["node_modules", ".env.example"]);
            var excluded := f => Excludes(rules, glob, f);
            var start := OneBelow("node_modules", ".env.example", content);
            && rules[2] == Rule(false, "**/node_modules") && rules[17] == Rule(true, "**/.env.example")
            && file in AllUnder(start, name) && !excluded(file) && file !in FilesUnder(excluded, start, name)
  {
    assert rules[2] == LEFT_OUT_FIRST[2] && rules[17] == Rule(true, "**/.env.example");
    PutBackBelowIsMissed(rules, glob, name, "node_modules", ".env.example", content, 2, 17);
  }

  // ----- from a name in the working directory -----

  lemma {:induction false} AtIsValid(root: seq<Entry>, path: seq<string>)
    requires Valid(root) && At(root, path).Some?
    ensures ValidNode(At(root, path).value)
    decreases |path|
  {
    var i :| 0 <= i < |root| && root[i].name == path[0];
    FindAt(root, i);
    if |path| > 1 { AtIsValid(root[i].node.entries, path[1..]); }
  }

  /** A name gives the files under what stands there, and nothing when nothing does. */
  lemma NameGivesReachedFiles(excluded: string -> bool, root: seq<Entry>, name: string, q: string)
    requires Valid(root)
    ensures q in FilesUnderName(excluded, root, name) <==>
            At(root, Split(name, SEP)).Some?
            && exists ns :: Reached(excluded, At(root, Split(name, SEP)).value, name, ns) && q == Below(name, ns)
  {
    if At(root, Split(name, SEP)).Some? {
      AtIsValid(root, Split(name, SEP));
      WalkIsEveryReachedFile(excluded, At(root, Split(name, SEP)).value, name, q);
    }
  }
}
