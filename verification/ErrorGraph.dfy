/** Everything an error has to say, walked over a graph of errors that may run in circles. */
module ErrorGraph {
  import opened Options

  /** What was thrown or is referred to: an Error object, or anything else by what it prints as. */
  datatype Value = Error(id: nat) | Other(text: string)

  /** `inner` is what an AggregateError carries, `text` what printing the error itself gives. */
  datatype Node = Node(name: string, message: string, text: string, inner: seq<Value>, cause: Option<Value>)

  type Heap = map<nat, Node>

  /** Every Error a value of the heap refers to is on it. */
  ghost predicate Closed(heap: Heap) {
    forall id :: id in heap ==> forall v :: v in Edges(heap[id]) ==> v.Error? ==> v.id in heap
  }

  function Edges(n: Node): seq<Value> { n.inner + if n.cause.Some? then [n.cause.value] else [] }

  function Heading(n: Node): string { if n.message == "" then n.name else n.message }

  /** One line: an error's heading, or a value printed as it is. */
  datatype Said = Heads(id: nat) | Prints(value: Value)

  datatype Told = Told(said: seq<Said>, seen: set<nat>)

  // ----- the walk as a function -----

  ghost function Tell(heap: Heap, v: Value, seen: set<nat>): (r: Told)
    requires Closed(heap) && (v.Error? ==> v.id in heap)
    ensures seen <= r.seen
    decreases heap.Keys - seen, 0
  {
    if v.Other? || v.id in seen then Told([Prints(v)], seen)
    else
      assert heap.Keys - (seen + {v.id}) < heap.Keys - seen by {
        assert v.id in heap.Keys - seen;
      }
      var edges := Edges(heap[v.id]);
      var rest := TellFirst(heap, edges, |edges|, seen + {v.id});
      Told([Heads(v.id)] + rest.said, rest.seen)
  }

  ghost predicate Known(heap: Heap, vs: seq<Value>) { forall v :: v in vs && v.Error? ==> v.id in heap }

  /** The first `n` of some references, one after the other. */
  ghost function TellFirst(heap: Heap, vs: seq<Value>, n: nat, seen: set<nat>): (r: Told)
    requires Closed(heap) && Known(heap, vs) && n <= |vs|
    ensures seen <= r.seen
    decreases heap.Keys - seen, n + 1
  {
    if n == 0 then Told([], seen)
    else
      var first := TellFirst(heap, vs, n - 1, seen);
      var last := Tell(heap, vs[n - 1], first.seen);
      Told(first.said + last.said, last.seen)
  }

  function Print(heap: Heap, s: Said): string {
    match s
    case Heads(id) => if id !in heap then "" else if heap[id].message != "" then heap[id].message else heap[id].name
    case Prints(Other(text)) => text
    case Prints(Error(id)) => if id in heap then heap[id].text else ""
  }

  function Printed(heap: Heap, said: seq<Said>): (lines: seq<string>)
    ensures |lines| == |said|
  {
    seq(|said|, i requires 0 <= i < |said| => Print(heap, said[i]))
  }

  lemma PrintedAppends(heap: Heap, a: seq<Said>, b: seq<Said>)
    ensures Printed(heap, a + b) == Printed(heap, a) + Printed(heap, b)
  {}

  lemma PrintedOne(heap: Heap, s: Said)
    ensures Printed(heap, [s]) == [Print(heap, s)]
  {}

  /** An error not seen yet tells its heading and then all it refers to. */
  lemma TellsEdges(heap: Heap, id: nat, seen: set<nat>)
    requires Closed(heap) && id in heap && id !in seen
    ensures var edges := Edges(heap[id]);
            var rest := TellFirst(heap, edges, |edges|, seen + {id});
            Tell(heap, Error(id), seen) == Told([Heads(id)] + rest.said, rest.seen)
  {}

  /** What a value says of itself, in one line. */
  lemma LineOf(heap: Heap, v: Value, seen: set<nat>)
    requires Closed(heap) && (v.Error? ==> v.id in heap)
    ensures v.Other? ==> Printed(heap, Tell(heap, v, seen).said) == [v.text]
    ensures v.Error? && v.id in seen ==> Printed(heap, Tell(heap, v, seen).said) == [heap[v.id].text]
    ensures v.Error? && v.id !in seen ==> Printed(heap, [Heads(v.id)]) == [Heading(heap[v.id])]
  {
    PrintedOne(heap, if v.Other? || v.id in seen then Prints(v) else Heads(v.id));
  }

  // ----- the walk as the program does it -----

  class Describer {
    const heap: Heap
    var seen: set<nat>

    constructor (heap: Heap)
      ensures this.heap == heap && seen == {}
    {
      this.heap := heap;
      seen := {};
    }

    method DescribeError(v: Value) returns (lines: seq<string>)
      requires Closed(heap) && (v.Error? ==> v.id in heap)
      modifies this`seen
      ensures lines == Printed(heap, Tell(heap, v, old(seen)).said)
      ensures seen == Tell(heap, v, old(seen)).seen
      decreases heap.Keys - seen
    {
      LineOf(heap, v, seen);
      if v.Other? { return [v.text]; }
      if v.id in seen { return [heap[v.id].text]; }
      var error := heap[v.id];
      TellsEdges(heap, v.id, seen);
      ghost var before := seen;
      seen := seen + {v.id};
      assert heap.Keys - seen < heap.Keys - before by { assert v.id in heap.Keys - before; }
      ghost var start, edges := seen, Edges(error);
      lines := [Heading(error)];
      for i := 0 to |error.inner|
        invariant start <= seen && seen == TellFirst(heap, edges, i, start).seen
        invariant lines == ToldSoFar(heap, v.id, edges, i, start)
      {
        assert edges[i] == error.inner[i];
        OneMoreTold(heap, v.id, edges, i, start);
        var more := DescribeError(error.inner[i]);
        lines := lines + more;
      }
      if error.cause.Some? {
        assert edges[|error.inner|] == error.cause.value;
        OneMoreTold(heap, v.id, edges, |error.inner|, start);
        var more := DescribeError(error.cause.value);
        lines := lines + more;
      }
    }
  }

  /** The lines of an error's heading and of the first `n` it refers to. */
  ghost function ToldSoFar(heap: Heap, id: nat, vs: seq<Value>, n: nat, seen: set<nat>): seq<string>
    requires Closed(heap) && Known(heap, vs) && n <= |vs|
  {
    Printed(heap, [Heads(id)] + TellFirst(heap, vs, n, seen).said)
  }

  lemma OneMoreTold(heap: Heap, id: nat, vs: seq<Value>, n: nat, seen: set<nat>)
    requires Closed(heap) && Known(heap, vs) && n < |vs|
    ensures var told := Tell(heap, vs[n], TellFirst(heap, vs, n, seen).seen);
            && TellFirst(heap, vs, n + 1, seen).seen == told.seen
            && ToldSoFar(heap, id, vs, n + 1, seen) == ToldSoFar(heap, id, vs, n, seen) + Printed(heap, told.said)
  {
    var first := TellFirst(heap, vs, n, seen);
    var told := Tell(heap, vs[n], first.seen);
    PrintedAppends(heap, [Heads(id)] + first.said, told.said);
    assert [Heads(id)] + first.said + told.said == [Heads(id)] + (first.said + told.said);
  }

  // ----- the order of the lines -----

  /** An error not told of yet begins with its message, or its name when that is empty; all else is one line. */
  lemma FirstLine(heap: Heap, v: Value, seen: set<nat>)
    requires Closed(heap) && (v.Error? ==> v.id in heap)
    ensures var lines := Printed(heap, Tell(heap, v, seen).said);
            if v.Other? then lines == [v.text]
            else if v.id in seen then lines == [heap[v.id].text]
            else |lines| > 0 && lines[0] == if heap[v.id].message == "" then heap[v.id].name else heap[v.id].message
  {
    if v.Error? && v.id !in seen { TellsEdges(heap, v.id, seen); }
  }

  /** What is told in one line: no error, or one told of already. */
  predicate Short(v: Value, seen: set<nat>) { v.Error? ==> v.id in seen }

  /** Errors each the cause of the one before, carrying none themselves; the last one's own cause is given. */
  ghost predicate Wraps(heap: Heap, p: seq<nat>, tail: Option<Value>) {
    && p != [] && (forall i :: 0 <= i < |p| ==> p[i] in heap && heap[p[i]].inner == [])
    && (forall i :: 0 <= i < |p| - 1 ==> heap[p[i]].cause == Some(Error(p[i + 1])))
    && heap[p[|p| - 1]].cause == tail
  }

  function HeadsOf(p: seq<nat>): seq<Said> { if p == [] then [] else [Heads(p[0])] + HeadsOf(p[1..]) }

  function PrintsOf(vs: seq<Value>): (r: seq<Said>)
    ensures |r| == |vs| && forall i :: 0 <= i < |r| ==> r[i] == Prints(vs[i])
  {
    seq(|vs|, i requires 0 <= i < |vs| => Prints(vs[i]))
  }

  lemma ShortTells(heap: Heap, v: Value, seen: set<nat>)
    requires Closed(heap) && (v.Error? ==> v.id in heap) && Short(v, seen)
    ensures Tell(heap, v, seen) == Told([Prints(v)], seen)
  {
  }

  lemma {:induction false} ShortOnesTell(heap: Heap, vs: seq<Value>, n: nat, seen: set<nat>)
    requires Closed(heap) && Known(heap, vs) && n <= |vs| && forall v :: v in vs ==> Short(v, seen)
    ensures TellFirst(heap, vs, n, seen) == Told(PrintsOf(vs[..n]), seen)
  {
    if n == 0 {
      assert PrintsOf(vs[..0]) == [];
    } else {
      ShortOnesTell(heap, vs, n - 1, seen);
      ShortTells(heap, vs[n - 1], seen);
      assert PrintsOf(vs[..n]) == PrintsOf(vs[..n - 1]) + [Prints(vs[n - 1])];
    }
  }

  /** An error that carries only what takes a line each tells its heading, those in order, and its cause last. */
  lemma CarriedBeforeCause(heap: Heap, id: nat, seen: set<nat>)
    requires Closed(heap) && id in heap && id !in seen
    requires forall v :: v in heap[id].inner ==> Short(v, seen + {id})
    requires heap[id].cause.Some? ==> Short(heap[id].cause.value, seen + {id})
    ensures var n := heap[id];
            Tell(heap, Error(id), seen).said
              == [Heads(id)] + PrintsOf(n.inner) + if n.cause.Some? then [Prints(n.cause.value)] else []
  {
    var n := heap[id];
    var edges := Edges(n);
    TellsEdges(heap, id, seen);
    ShortOnesTell(heap, edges, |edges|, seen + {id});
    assert edges[..|edges|] == edges;
    assert PrintsOf(edges) == PrintsOf(n.inner) + if n.cause.Some? then [Prints(n.cause.value)] else [];
  }

  /** Errors wrapped in one another are headed from the outside in, and then what the innermost was caused by is
      told, if it takes a line: nothing else, even where that is one of them again. */
  lemma {:induction false} WrappedAreToldInOrder(heap: Heap, p: seq<nat>, tail: Option<Value>, seen: set<nat>)
    requires Closed(heap) && Wraps(heap, p, tail)
    requires (forall i, j :: 0 <= i < j < |p| ==> p[i] != p[j]) && forall id :: id in p ==> id !in seen
    requires tail.Some? && tail.value.Error? ==> tail.value.id in seen || tail.value.id in p
    ensures Tell(heap, Error(p[0]), seen).said == HeadsOf(p) + if tail.Some? then [Prints(tail.value)] else []
    decreases |p|
  {
    if |p| == 1 {
      CarriedBeforeCause(heap, p[0], seen);
      assert HeadsOf(p[1..]) == [] && PrintsOf([]) == [];
    } else {
      OneEdgeTells(heap, p[0], Error(p[1]), seen);
      assert Wraps(heap, p[1..], tail);
      WrappedAreToldInOrder(heap, p[1..], tail, seen + {p[0]});
    }
  }

  lemma OneEdgeTells(heap: Heap, id: nat, cause: Value, seen: set<nat>)
    requires Closed(heap) && id in heap && id !in seen && heap[id].inner == [] && heap[id].cause == Some(cause)
    requires cause.Error? ==> cause.id in heap
    ensures Tell(heap, Error(id), seen).said == [Heads(id)] + Tell(heap, cause, seen + {id}).said
  {
    TellsEdges(heap, id, seen);
    assert Edges(heap[id]) == [cause];
    assert TellFirst(heap, [cause], 0, seen + {id}) == Told([], seen + {id});
  }

  // ----- what it reaches -----

  /** A chain of errors, each carried or caused by the one before. */
  ghost predicate Chain(heap: Heap, p: seq<nat>) {
    && p != []
    && (forall i :: 0 <= i < |p| ==> p[i] in heap)
    && forall i :: 0 < i < |p| ==> Error(p[i]) in Edges(heap[p[i - 1]])
  }

  ghost predicate Reaches(heap: Heap, a: nat, b: nat) {
    exists p :: Chain(heap, p) && p[0] == a && p[|p| - 1] == b
  }

  lemma ReachesOn(heap: Heap, a: nat, b: nat, c: nat)
    requires a in heap && Error(b) in Edges(heap[a]) && Reaches(heap, b, c)
    ensures Reaches(heap, a, c)
  {
    var p :| Chain(heap, p) && p[0] == b && p[|p| - 1] == c;
    var longer := [a] + p;
    assert longer[|longer| - 1] == c;
    assert forall i :: 0 < i < |longer| ==> longer[i] == p[i - 1];
    assert Chain(heap, longer);
  }

  /** Only what can be reached is seen. */
  lemma {:induction false} SeenIsReached(heap: Heap, v: Value, seen: set<nat>, n: nat)
    requires Closed(heap) && (v.Error? ==> v.id in heap)
    requires n in Tell(heap, v, seen).seen && n !in seen
    ensures v.Error? && n in heap && Reaches(heap, v.id, n)
    decreases heap.Keys - seen, 0
  {
    if n == v.id {
      assert Chain(heap, [n]);
    } else {
      assert heap.Keys - (seen + {v.id}) < heap.Keys - seen by { assert v.id in heap.Keys - seen; }
      SeenAllIsReached(heap, v.id, |Edges(heap[v.id])|, seen + {v.id}, n);
    }
  }

  lemma {:induction false} SeenAllIsReached(heap: Heap, id: nat, k: nat, seen: set<nat>, n: nat)
    requires Closed(heap) && id in heap && k <= |Edges(heap[id])|
    requires n in TellFirst(heap, Edges(heap[id]), k, seen).seen && n !in seen
    ensures n in heap && Reaches(heap, id, n)
    decreases heap.Keys - seen, k + 1
  {
    var edges := Edges(heap[id]);
    var first := TellFirst(heap, edges, k - 1, seen);
    if n in first.seen {
      SeenAllIsReached(heap, id, k - 1, seen, n);
    } else {
      SeenIsReached(heap, edges[k - 1], first.seen, n);
      ReachesOn(heap, id, edges[k - 1].id, n);
    }
  }

  /** What is seen leads only to what is seen. */
  ghost predicate Followed(heap: Heap, news: set<nat>, seen: set<nat>) {
    forall id, v :: id in news && id in heap && v in Edges(heap[id]) && v.Error? ==> v.id in seen
  }

  lemma {:induction false} SeenIsFollowed(heap: Heap, v: Value, seen: set<nat>)
    requires Closed(heap) && (v.Error? ==> v.id in heap)
    ensures v.Error? ==> v.id in Tell(heap, v, seen).seen
    ensures Followed(heap, Tell(heap, v, seen).seen - seen, Tell(heap, v, seen).seen)
    decreases heap.Keys - seen, 0
  {
    if v.Error? && v.id !in seen {
      assert heap.Keys - (seen + {v.id}) < heap.Keys - seen by { assert v.id in heap.Keys - seen; }
      SeenAllIsFollowed(heap, Edges(heap[v.id]), |Edges(heap[v.id])|, seen + {v.id});
    }
  }

  lemma {:induction false} SeenAllIsFollowed(heap: Heap, vs: seq<Value>, n: nat, seen: set<nat>)
    requires Closed(heap) && Known(heap, vs) && n <= |vs|
    ensures forall i :: 0 <= i < n && vs[i].Error? ==> vs[i].id in TellFirst(heap, vs, n, seen).seen
    ensures Followed(heap, TellFirst(heap, vs, n, seen).seen - seen, TellFirst(heap, vs, n, seen).seen)
    decreases heap.Keys - seen, n + 1
  {
    if n > 0 {
      SeenAllIsFollowed(heap, vs, n - 1, seen);
      SeenIsFollowed(heap, vs[n - 1], TellFirst(heap, vs, n - 1, seen).seen);
    }
  }

  lemma {:induction false} ChainStaysSeen(heap: Heap, p: seq<nat>, seen: set<nat>)
    requires Chain(heap, p) && p[0] in seen && Followed(heap, seen, seen)
    ensures p[|p| - 1] in seen
  {
    if |p| > 1 {
      var but := p[..|p| - 1];
      assert Chain(heap, but);
      ChainStaysSeen(heap, but, seen);
      assert Error(p[|p| - 1]) in Edges(heap[p[|p| - 2]]);
    }
  }

  /** Started with nothing seen, the walk has seen in the end exactly the errors that can be reached,
      however they refer to one another. */
  lemma SeenIsExactlyReachable(heap: Heap, id: nat, n: nat)
    requires Closed(heap) && id in heap
    ensures n in Tell(heap, Error(id), {}).seen <==> Reaches(heap, id, n)
  {
    var seen := Tell(heap, Error(id), {}).seen;
    if n in seen {
      SeenIsReached(heap, Error(id), {}, n);
    }
    if Reaches(heap, id, n) {
      var p :| Chain(heap, p) && p[0] == id && p[|p| - 1] == n;
      SeenIsFollowed(heap, Error(id), {});
      assert seen - {} == seen;
      ChainStaysSeen(heap, p, seen);
    }
  }

  // ----- what it says -----

  /** The errors whose own heading is among the lines, in order. */
  function Headed(said: seq<Said>): seq<nat> {
    if said == [] then []
    else Headed(said[..|said| - 1]) + if said[|said| - 1].Heads? then [said[|said| - 1].id] else []
  }

  lemma {:induction false} HeadedAppends(a: seq<Said>, b: seq<Said>)
    ensures Headed(a + b) == Headed(a) + Headed(b)
  {
    if b == [] {
      assert a + b == a;
    } else {
      assert (a + b)[..|a + b| - 1] == a + b[..|b| - 1];
      HeadedAppends(a, b[..|b| - 1]);
    }
  }

  lemma UnionOfDisjoint(a: set<nat>, b: set<nat>)
    requires a !! b
    ensures multiset(a + b) == multiset(a) + multiset(b)
  {}

  function References(heap: Heap, id: nat): nat { if id in heap then |Edges(heap[id])| else 0 }

  /** How many references the errors of a set hold. */
  ghost function Degree(heap: Heap, ids: set<nat>): nat {
    if ids == {} then 0
    else
      var id :| id in ids;
      References(heap, id) + Degree(heap, ids - {id})
  }

  lemma {:induction false} DegreeWithout(heap: Heap, ids: set<nat>, x: nat)
    requires x in ids
    ensures Degree(heap, ids) == References(heap, x) + Degree(heap, ids - {x})
  {
    var id :| id in ids && Degree(heap, ids) == References(heap, id) + Degree(heap, ids - {id});
    if id != x {
      DegreeWithout(heap, ids - {id}, x);
      DegreeWithout(heap, ids - {x}, id);
      assert ids - {id} - {x} == ids - {x} - {id};
    }
  }

  lemma {:induction false} DegreeOfUnion(heap: Heap, a: set<nat>, b: set<nat>)
    requires a !! b
    ensures Degree(heap, a + b) == Degree(heap, a) + Degree(heap, b)
  {
    if a == {} {
      assert a + b == b;
    } else {
      var x :| x in a;
      DegreeWithout(heap, a, x);
      DegreeWithout(heap, a + b, x);
      assert (a + b) - {x} == (a - {x}) + b;
      DegreeOfUnion(heap, a - {x}, b);
    }
  }

  /** The lines head each of these errors once, and are `given` more than the references they hold. */
  ghost predicate Accounts(heap: Heap, said: seq<Said>, news: set<nat>, given: int) {
    && multiset(Headed(said)) == multiset(news)
    && |said| == given + Degree(heap, news)
  }

  lemma AccountsAppend(heap: Heap, a: seq<Said>, b: seq<Said>, s0: set<nat>, s1: set<nat>, s2: set<nat>, m: int, n: int)
    requires s0 <= s1 <= s2 && Accounts(heap, a, s1 - s0, m) && Accounts(heap, b, s2 - s1, n)
    ensures Accounts(heap, a + b, s2 - s0, m + n)
  {
    HeadedAppends(a, b);
    assert s2 - s0 == (s1 - s0) + (s2 - s1);
    UnionOfDisjoint(s1 - s0, s2 - s1);
    DegreeOfUnion(heap, s1 - s0, s2 - s1);
  }

  /** Every error newly seen has its heading said once, and every reference such an error holds gives
      exactly one line. */
  lemma {:induction false} SaidOnce(heap: Heap, v: Value, seen: set<nat>)
    requires Closed(heap) && (v.Error? ==> v.id in heap)
    ensures Accounts(heap, Tell(heap, v, seen).said, Tell(heap, v, seen).seen - seen, 1)
    decreases heap.Keys - seen, 0
  {
    if v.Other? || v.id in seen {
      assert seen - seen == {};
    } else {
      assert heap.Keys - (seen + {v.id}) < heap.Keys - seen by { assert v.id in heap.Keys - seen; }
      var edges := Edges(heap[v.id]);
      var rest := TellFirst(heap, edges, |edges|, seen + {v.id});
      OneHeading(heap, v.id, seen);
      AllSaidOnce(heap, edges, |edges|, seen + {v.id});
      AccountsAppend(heap, [Heads(v.id)], rest.said, seen, seen + {v.id}, rest.seen, 1 - |edges|, |edges|);
    }
  }

  lemma OneHeading(heap: Heap, id: nat, seen: set<nat>)
    requires id in heap && id !in seen
    ensures Accounts(heap, [Heads(id)], (seen + {id}) - seen, 1 - |Edges(heap[id])|)
  {
    assert (seen + {id}) - seen == {id} && {id} - {id} == {};
    assert Headed([Heads(id)]) == [id];
    DegreeWithout(heap, {id}, id);
  }

  lemma {:induction false} AllSaidOnce(heap: Heap, vs: seq<Value>, n: nat, seen: set<nat>)
    requires Closed(heap) && Known(heap, vs) && n <= |vs|
    ensures Accounts(heap, TellFirst(heap, vs, n, seen).said, TellFirst(heap, vs, n, seen).seen - seen, n)
    decreases heap.Keys - seen, n + 1
  {
    if n == 0 {
      assert seen - seen == {};
    } else {
      var first := TellFirst(heap, vs, n - 1, seen);
      var last := Tell(heap, vs[n - 1], first.seen);
      AllSaidOnce(heap, vs, n - 1, seen);
      SaidOnce(heap, vs[n - 1], first.seen);
      AccountsAppend(heap, first.said, last.said, seen, first.seen, last.seen, n - 1, 1);
    }
  }

  /** From the top: the lines head every error that can be reached exactly once, and there is one line
      more than those errors hold references. */
  lemma EveryReachableErrorIsHeadedOnce(heap: Heap, id: nat, n: nat)
    requires Closed(heap) && id in heap
    ensures var r := Tell(heap, Error(id), {});
            && multiset(Headed(r.said))[n] == (if Reaches(heap, id, n) then 1 else 0)
            && |r.said| == 1 + Degree(heap, r.seen)
  {
    SaidOnce(heap, Error(id), {});
    SeenIsExactlyReachable(heap, id, n);
    assert Tell(heap, Error(id), {}).seen - {} == Tell(heap, Error(id), {}).seen;
  }
}
