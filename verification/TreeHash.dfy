/** The bytes a vendored tree's hash is taken over: every file's path, a zero byte and the digest of
    its content, in path order. */
module TreeHash {
  import opened Options
  import opened Text
  import opened Ordering
  import opened DirectoryTree

  /** What the inner hash gives: 32 bytes. */
  type Digest = s: string | |s| == 32 witness seq(32, _ => '\0')

  // ----- the walk -----

  /** The paths of the files below a directory, in the order met. */
  function Visited(entries: seq<Entry>, at: seq<string>): seq<seq<string>>
    decreases entries
  {
    if entries == [] then [] else VisitedOne(entries[0], at) + Visited(entries[1..], at)
  }

  function VisitedOne(e: Entry, at: seq<string>): seq<seq<string>>
    decreases e
  {
    match e.node
    case File(_) => [at + [e.name]]
    case Dir(below) => Visited(below, at + [e.name])
    case Special => []
  }

  lemma {:induction false} OneMoreVisited(entries: seq<Entry>, n: nat, at: seq<string>)
    requires n < |entries|
    ensures Visited(entries[..n + 1], at) == Visited(entries[..n], at) + VisitedOne(entries[n], at)
  {
    if n == 0 {
      assert entries[..1][1..] == [] && entries[..1][0] == entries[0];
    } else {
      assert entries[..n + 1][1..] == entries[1..][..n] && entries[..n][1..] == entries[1..][..n - 1];
      OneMoreVisited(entries[1..], n - 1, at);
    }
  }

  class Walker {
    var files: seq<seq<string>>

    constructor ()
      ensures files == []
    {
      files := [];
    }

    method Walk(entries: seq<Entry>, at: seq<string>)
      modifies this
      ensures files == old(files) + Visited(entries, at)
      decreases entries
    {
      for i := 0 to |entries|
        invariant files == old(files) + Visited(entries[..i], at)
      {
        OneMoreVisited(entries, i, at);
        match entries[i].node
        case Dir(below) => Walk(below, at + [entries[i].name]);
        case File(_) => files := files + [at + [entries[i].name]];
        case Special =>
      }
      assert entries[..|entries|] == entries;
    }
  }

  // ----- what it visits -----

  /** The content of the file at a path, if there is a file there. */
  function Content(entries: seq<Entry>, path: seq<string>): Option<string> {
    match At(entries, path)
    case Some(File(content)) => Some(content)
    case _ => None
  }

  lemma {:induction false} VisitedIsFile(entries: seq<Entry>, at: seq<string>, path: seq<string>)
    requires Valid(entries) && path in Visited(entries, at)
    ensures at <= path && Content(entries, path[|at|..]).Some?
    decreases entries
  {
    var i := VisitedBy(entries, at, path);
    FindAt(entries, i);
    var e := entries[i];
    if e.node.Dir? {
      VisitedIsFile(e.node.entries, at + [e.name], path);
      assert path[|at|..] == [e.name] + path[|at| + 1..];
    } else {
      assert path[|at|..] == [e.name];
    }
  }

  lemma {:induction false} FileIsVisited(entries: seq<Entry>, at: seq<string>, p: seq<string>)
    requires Valid(entries) && Content(entries, p).Some?
    ensures at + p in Visited(entries, at)
    decreases |p|
  {
    var i :| 0 <= i < |entries| && entries[i].name == p[0];
    FindAt(entries, i);
    VisitedHas(entries, at, i);
    if |p| > 1 {
      assert at + p == (at + [p[0]]) + p[1..];
      FileIsVisited(entries[i].node.entries, at + [p[0]], p[1..]);
    } else {
      assert p == [p[0]];
    }
  }

  /** The walk meets exactly the paths of files. */
  lemma VisitedIsEveryFile(entries: seq<Entry>, path: seq<string>)
    requires Valid(entries)
    ensures path in Visited(entries, []) <==> Content(entries, path).Some?
  {
    if path in Visited(entries, []) {
      VisitedIsFile(entries, [], path);
      assert path[0..] == path;
    }
    if Content(entries, path).Some? {
      FileIsVisited(entries, [], path);
      assert [] + path == path;
    }
  }

  lemma {:induction false} VisitedBy(entries: seq<Entry>, at: seq<string>, path: seq<string>) returns (i: nat)
    requires path in Visited(entries, at)
    ensures i < |entries| && path in VisitedOne(entries[i], at)
  {
    if path in VisitedOne(entries[0], at) {
      i := 0;
    } else {
      i := VisitedBy(entries[1..], at, path);
      i := i + 1;
    }
  }

  lemma {:induction false} VisitedHas(entries: seq<Entry>, at: seq<string>, i: nat)
    requires i < |entries|
    ensures forall path :: path in VisitedOne(entries[i], at) ==> path in Visited(entries, at)
  {
    if i > 0 { VisitedHas(entries[1..], at, i - 1); }
  }

  lemma {:induction false} VisitedUnder(e: Entry, at: seq<string>, path: seq<string>)
    requires path in VisitedOne(e, at)
    ensures at + [e.name] <= path
    decreases e
  {
    if e.node.Dir? {
      var i := VisitedBy(e.node.entries, at + [e.name], path);
      VisitedUnder(e.node.entries[i], at + [e.name], path);
    }
  }

  lemma {:induction false} VisitedOnce(entries: seq<Entry>, at: seq<string>)
    requires Valid(entries)
    ensures NoRepeats(Visited(entries, at))
    decreases entries
  {
    if entries != [] {
      var e, first, rest := entries[0], VisitedOne(entries[0], at), Visited(entries[1..], at);
      if e.node.Dir? { VisitedOnce(e.node.entries, at + [e.name]); }
      assert Valid(entries[1..]);
      VisitedOnce(entries[1..], at);
      forall path | path in first ensures path !in rest {
        VisitedUnder(e, at, path);
        if path in rest {
          var j := VisitedBy(entries[1..], at, path);
          VisitedUnder(entries[1..][j], at, path);
          SameNext(at, e.name, entries[1..][j].name, path);
        }
      }
      ApartHaveNoRepeats(first, rest);
    }
  }

  lemma SameNext(at: seq<string>, x: string, y: string, path: seq<string>)
    requires at + [x] <= path && at + [y] <= path
    ensures x == y
  {
    assert path[|at|] == (at + [x])[|at|] == (at + [y])[|at|];
  }

  // ----- the bytes -----

  /** The content of the file at a path given as one string. */
  function Read(entries: seq<Entry>, path: string): Option<string> { Content(entries, Split(path, SEP)) }

  function Hashed(content: Option<string>, sha: string -> Digest): Option<Digest> {
    match content
    case None => None
    case Some(bytes) => Some(sha(bytes))
  }

  /** The paths of the files, as strings. */
  ghost function Paths(entries: seq<Entry>): (paths: set<string>)
    ensures forall p :: p in Visited(entries, []) ==> Join(p, SEP) in paths
    ensures forall s :: s in paths ==> exists p :: p in Visited(entries, []) && s == Join(p, SEP)
  {
    set p | p in Elements(Visited(entries, [])) :: Join(p, SEP)
  }

  lemma PathOfFile(entries: seq<Entry>, p: seq<string>)
    requires Valid(entries) && p != [] && AllFree(p, SEP)
    ensures Join(p, SEP) in Paths(entries) <==> Content(entries, p).Some?
    ensures Read(entries, Join(p, SEP)) == Content(entries, p)
  {
    VisitedIsEveryFile(entries, p);
    SplitOfJoin(p, SEP);
    if Join(p, SEP) in Paths(entries) {
      var q :| q in Visited(entries, []) && Join(q, SEP) == Join(p, SEP);
      PathOfVisited(entries, q);
      JoinIsInjective(p, q, SEP);
    }
  }

  lemma PathOfVisited(entries: seq<Entry>, p: seq<string>)
    requires Valid(entries) && p in Visited(entries, [])
    ensures p != [] && AllFree(p, SEP) && AllFree(p, NUL) && Content(entries, p).Some?
    ensures Read(entries, Join(p, SEP)) == Content(entries, p)
  {
    VisitedIsEveryFile(entries, p);
    PathsAreFree(entries, p);
    SplitOfJoin(p, SEP);
  }

  /** The files in a given order: path, zero byte, digest. */
  function Render(paths: seq<string>, digestOf: string -> Digest): string {
    if paths == [] then ""
    else paths[0] + ['\0'] + digestOf(paths[0]) + Render(paths[1..], digestOf)
  }

  function DigestAt(entries: seq<Entry>, sha: string -> Digest, path: string): Digest {
    match Read(entries, path)
    case Some(content) => sha(content)
    case None => sha("")
  }

  function DigestOf(entries: seq<Entry>, sha: string -> Digest): string -> Digest {
    path => DigestAt(entries, sha, path)
  }

  /** What the tree's digest is taken over. */
  ghost function Stream(entries: seq<Entry>, sha: string -> Digest): string {
    Render(Sorted(Paths(entries)), DigestOf(entries, sha))
  }

  lemma {:induction false} FreeJoin(p: seq<string>, sep: char, other: char)
    requires AllFree(p, other) && sep != other
    ensures Free(Join(p, sep), other)
  {
    if |p| > 1 { FreeJoin(p[1..], sep, other); }
  }

  lemma ListedPath(entries: seq<Entry>, s: string)
    requires Valid(entries) && s in Paths(entries)
    ensures Free(s, NUL) && Read(entries, s).Some?
  {
    var p :| p in Visited(entries, []) && s == Join(p, SEP);
    PathOfVisited(entries, p);
    FreeJoin(p, SEP, NUL);
  }

  lemma FirstRecord(x: string, dx: Digest, tx: string, y: string, dy: Digest, ty: string)
    requires Free(x, NUL) && Free(y, NUL) && x + [NUL] + dx + tx == y + [NUL] + dy + ty
    ensures x == y && dx == dy && tx == ty
  {
    assert x + [NUL] + (dx + tx) == x + [NUL] + dx + tx && y + [NUL] + (dy + ty) == y + [NUL] + dy + ty;
    FirstSeparator(x, dx + tx, y, dy + ty, NUL);
    assert (dx + tx)[..32] == dx && (dy + ty)[..32] == dy;
    assert (dx + tx)[32..] == tx && (dy + ty)[32..] == ty;
  }

  /** The bytes tell where each record ends, so they tell the records. */
  lemma {:induction false} RenderIsInjective(xs: seq<string>, f: string -> Digest, ys: seq<string>, g: string -> Digest)
    requires (forall x :: x in xs ==> Free(x, NUL)) && (forall y :: y in ys ==> Free(y, NUL))
    requires Render(xs, f) == Render(ys, g)
    ensures xs == ys && forall x :: x in xs ==> f(x) == g(x)
  {
    if xs != [] && ys != [] {
      FirstRecord(xs[0], f(xs[0]), Render(xs[1..], f), ys[0], g(ys[0]), Render(ys[1..], g));
      RenderIsInjective(xs[1..], f, ys[1..], g);
      assert xs == [xs[0]] + xs[1..] && ys == [ys[0]] + ys[1..];
    }
  }

  lemma {:induction false} RenderDependsOnDigests(xs: seq<string>, f: string -> Digest, g: string -> Digest)
    requires forall x :: x in xs ==> f(x) == g(x)
    ensures Render(xs, f) == Render(xs, g)
  {
    if xs != [] { RenderDependsOnDigests(xs[1..], f, g); }
  }

  ghost predicate SameFiles(a: seq<Entry>, b: seq<Entry>, sha: string -> Digest) {
    forall p :: Hashed(Content(a, p), sha) == Hashed(Content(b, p), sha)
  }

  /** Two trees give the same bytes exactly when they have files at the same paths with the same
      digests: nothing else about them, the order their directories are listed in included, has any
      part in it. */
  lemma SameBytesIffSameFiles(a: seq<Entry>, b: seq<Entry>, sha: string -> Digest)
    requires Valid(a) && Valid(b)
    ensures Stream(a, sha) == Stream(b, sha) <==> SameFiles(a, b, sha)
  {
    if Stream(a, sha) == Stream(b, sha) { SameBytesSameFiles(a, b, sha); }
    if SameFiles(a, b, sha) {
      SamePaths(a, b, sha);
      RenderDependsOnDigests(Sorted(Paths(a)), DigestOf(a, sha), DigestOf(b, sha));
    }
  }

  lemma SameBytesSameFiles(a: seq<Entry>, b: seq<Entry>, sha: string -> Digest)
    requires Valid(a) && Valid(b) && Stream(a, sha) == Stream(b, sha)
    ensures SameFiles(a, b, sha)
  {
    var xs, ys := Sorted(Paths(a)), Sorted(Paths(b));
    forall s | s in xs ensures Free(s, NUL) { ListedPath(a, s); }
    forall s | s in ys ensures Free(s, NUL) { ListedPath(b, s); }
    RenderIsInjective(xs, DigestOf(a, sha), ys, DigestOf(b, sha));
    forall s ensures s in Paths(a) <==> s in Paths(b) {
      assert s in Paths(a) <==> s in xs;
      assert s in Paths(b) <==> s in ys;
    }
    forall p ensures Hashed(Content(a, p), sha) == Hashed(Content(b, p), sha) { SameAt(a, b, sha, p); }
  }

  lemma SameAt(a: seq<Entry>, b: seq<Entry>, sha: string -> Digest, p: seq<string>)
    requires Valid(a) && Valid(b) && forall s :: s in Paths(a) <==> s in Paths(b)
    requires forall s :: s in Paths(a) ==> DigestAt(a, sha, s) == DigestAt(b, sha, s)
    ensures Hashed(Content(a, p), sha) == Hashed(Content(b, p), sha)
  {
    if Content(a, p).Some? { PathsAreFree(a, p); }
    if Content(b, p).Some? { PathsAreFree(b, p); }
    if Content(a, p).Some? || Content(b, p).Some? {
      PathOfFile(a, p);
      PathOfFile(b, p);
    }
  }

  lemma SamePaths(a: seq<Entry>, b: seq<Entry>, sha: string -> Digest)
    requires Valid(a) && Valid(b) && SameFiles(a, b, sha)
    ensures Paths(a) == Paths(b)
    ensures forall s :: s in Paths(a) ==> DigestAt(a, sha, s) == DigestAt(b, sha, s)
  {
    forall s | s in Paths(a) ensures s in Paths(b) && DigestAt(a, sha, s) == DigestAt(b, sha, s) {
      PathsOneWay(a, b, sha, s);
    }
    forall s | s in Paths(b) ensures s in Paths(a) { PathsOneWay(b, a, sha, s); }
  }

  lemma PathsOneWay(a: seq<Entry>, b: seq<Entry>, sha: string -> Digest, s: string)
    requires Valid(a) && Valid(b) && SameFiles(a, b, sha) && s in Paths(a)
    ensures s in Paths(b) && DigestAt(a, sha, s) == DigestAt(b, sha, s)
  {
    var p :| p in Visited(a, []) && s == Join(p, SEP);
    PathOfVisited(a, p);
    assert Hashed(Content(a, p), sha) == Hashed(Content(b, p), sha);
    PathOfFile(b, p);
  }

  // ----- the whole of it -----

  function JoinAll(paths: seq<seq<string>>): (r: seq<string>)
    ensures |r| == |paths| && forall i :: 0 <= i < |paths| ==> r[i] == Join(paths[i], SEP)
  {
    seq(|paths|, i requires 0 <= i < |paths| => Join(paths[i], SEP))
  }

  lemma ListingHasNoRepeats(root: seq<Entry>)
    requires Valid(root)
    ensures NoRepeats(JoinAll(Visited(root, [])))
  {
    var files := Visited(root, []);
    var listing := JoinAll(files);
    VisitedOnce(root, []);
    forall i, j | 0 <= i < j < |listing| ensures listing[i] != listing[j] {
      PathOfVisited(root, files[i]);
      PathOfVisited(root, files[j]);
      JoinIsInjective(files[i], files[j], SEP);
    }
  }

  lemma ListingIsPaths(root: seq<Entry>)
    ensures Elements(JoinAll(Visited(root, []))) == Paths(root)
  {
    var files := Visited(root, []);
    var listing := JoinAll(files);
    forall s | s in Paths(root) ensures s in listing {
      var p :| p in files && s == Join(p, SEP);
      var i :| 0 <= i < |files| && files[i] == p;
      assert listing[i] == s;
    }
  }

  lemma SortedListing(root: seq<Entry>)
    requires Valid(root)
    ensures SortNames(JoinAll(Visited(root, []))) == Sorted(Paths(root))
  {
    ListingHasNoRepeats(root);
    SortingAListing(JoinAll(Visited(root, [])));
    ListingIsPaths(root);
  }

  lemma {:induction false} OneMoreRendered(files: seq<string>, n: nat, digestOf: string -> Digest)
    requires n < |files|
    ensures Render(files[..n + 1], digestOf) == Render(files[..n], digestOf) + files[n] + [NUL] + digestOf(files[n])
  {
    if n == 0 {
      assert files[..1][1..] == [] && files[..1][0] == files[0];
    } else {
      assert files[..n + 1][1..] == files[1..][..n] && files[..n][1..] == files[1..][..n - 1];
      OneMoreRendered(files[1..], n - 1, digestOf);
    }
  }

  // ----- the whole of it, from the root's own path -----

  /** The paths of files under a root, as the walk holds them. */
  function FullPaths(at: string, paths: seq<string>): (r: seq<string>)
    ensures |r| == |paths| && forall i :: 0 <= i < |r| ==> r[i] == at + [SEP] + paths[i]
  {
    if paths == [] then [] else [at + ['/'] + paths[0]] + FullPaths(at, paths[1..])
  }

  lemma {:induction false} InsertFull(at: string, x: string, s: seq<string>)
    ensures Insert(at + [SEP] + x, FullPaths(at, s)) == FullPaths(at, Insert(x, s))
  {
    if s != [] {
      LessAfterPrefix(at + [SEP], s[0], x);
      InsertFull(at, x, s[1..]);
    }
  }

  /** Full paths under one root sort as the paths below it do. */
  lemma {:induction false} SortingFullPaths(at: string, paths: seq<string>)
    ensures SortNames(FullPaths(at, paths)) == FullPaths(at, SortNames(paths))
  {
    if paths != [] {
      SortingFullPaths(at, paths[1..]);
      InsertFull(at, paths[0], SortNames(paths[1..]));
    }
  }

  method RenderFiles(at: string, root: seq<Entry>, files: seq<string>, ghost paths: seq<string>, sha: string -> Digest)
    returns (stream: string)
    requires files == FullPaths(at, paths) && forall s :: s in paths ==> Read(root, s).Some?
    ensures stream == Render(paths, DigestOf(root, sha))
  {
    stream := "";
    for i := 0 to |files|
      invariant stream == Render(paths[..i], DigestOf(root, sha))
    {
      OneMoreRendered(paths, i, DigestOf(root, sha));
      var relative := files[i][|at| + 1..];
      assert relative == paths[i];
      stream := stream + relative;
      stream := stream + [NUL];
      stream := stream + sha(Read(root, relative).value);
    }
    assert paths[..|paths|] == paths;
  }

  method TreeContentBytes(at: string, root: seq<Entry>, sha: string -> Digest) returns (stream: string)
    requires Valid(root)
    ensures stream == Stream(root, sha)
  {
    var walker := new Walker();
    walker.Walk(root, []);
    assert walker.files == Visited(root, []);
    ghost var paths := SortNames(JoinAll(walker.files));
    SortedListing(root);
    SortingFullPaths(at, JoinAll(walker.files));
    var files := SortNames(FullPaths(at, JoinAll(walker.files)));
    forall s | s in paths ensures Read(root, s).Some? { ListedPath(root, s); }
    stream := RenderFiles(at, root, files, paths, sha);
  }
}
