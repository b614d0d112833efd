/** Two pools of workers that share one counter, over every interleaving of their steps. A step is what
    runs between two awaits: taking the next task, or a task's end. */
module Pools {
  import opened Ordering

  /** A worker is at the top of its loop, awaits a task, has returned, or has thrown. */
  datatype Worker = Ready | Busy(task: nat) | Returned | Threw

  /** `Pooled` takes a number first and checks it then, and a task's failure is the worker's own;
      `Laned` checks first, and notes a failure and goes on. */
  datatype Form = Pooled | Laned

  datatype Event = Takes(worker: nat) | Ends(worker: nat, ok: bool)

  /** `ended` are the tasks that came to their end, in that order, `bad` those that failed. */
  datatype State = State(next: nat, workers: seq<Worker>, started: seq<nat>, ended: seq<nat>, bad: seq<nat>)

  function Initial(width: nat): State { State(0, seq(width, _ => Ready), [], [], []) }

  predicate Enabled(s: State, e: Event) {
    && e.worker < |s.workers|
    && match e
       case Takes(w) => s.workers[w].Ready?
       case Ends(w, _) => s.workers[w].Busy?
  }

  function Step(form: Form, tasks: nat, s: State, e: Event): State {
    if !Enabled(s, e) then s
    else match e
      case Takes(w) =>
        if s.next < tasks then
          s.(next := s.next + 1, workers := s.workers[w := Busy(s.next)], started := s.started + [s.next])
        else
          s.(next := if form.Pooled? then s.next + 1 else s.next, workers := s.workers[w := Returned])
      case Ends(w, ok) =>
        var task := s.workers[w].task;
        s.(workers := s.workers[w := if ok || form.Laned? then Ready else Threw],
           ended := s.ended + [task], bad := if ok then s.bad else s.bad + [task])
  }

  function Run(form: Form, tasks: nat, width: nat, es: seq<Event>): State {
    if es == [] then Initial(width) else Step(form, tasks, Run(form, tasks, width, es[..|es| - 1]), es[|es| - 1])
  }

  // ----- the programs' own variables -----

  /** `pooled`: the workers share `next`; the rest is where each of them is. */
  class Pool {
    const tasks: nat
    const width: nat
    var next: nat
    var workers: seq<Worker>
    ghost var started: seq<nat>
    ghost var ended: seq<nat>
    ghost var bad: seq<nat>
    ghost var history: seq<Event>

    ghost function Now(): State
      reads this
    {
      State(next, workers, started, ended, bad)
    }

    /** The variables are what the steps so far make of them. */
    ghost predicate Valid()
      reads this
    {
      Now() == Run(Pooled, tasks, width, history)
    }

    constructor (tasks: nat, limit: int)
      ensures this.tasks == tasks && width >= 1 && width >= limit && (limit >= 1 ==> width == limit)
      ensures history == [] && Valid()
    {
      this.tasks, width := tasks, if limit < 1 then 1 else limit;
      next := 0;
      workers := seq(if limit < 1 then 1 else limit, _ => Ready);
      started, ended, bad, history := [], [], [], [];
    }

    /** Starts the first task not yet started; with none left the worker returns. */
    method Take(w: nat)
      requires Valid() && w < |workers| && workers[w].Ready?
      modifies this
      ensures Valid() && history == old(history) + [Takes(w)]
      ensures var k := |old(started)|;
              if k < tasks then started == old(started) + [k] && workers == old(workers)[w := Busy(k)]
              else started == old(started) && workers == old(workers)[w := Returned]
    {
      RunKeeps(Pooled, tasks, width, history);
      RunOneMore(Pooled, tasks, width, history, Takes(w));
      history := history + [Takes(w)];
      var index := next;
      next := next + 1;
      if index >= tasks {
        workers := workers[w := Returned];
        return;
      }
      workers := workers[w := Busy(index)];
      started := started + [index];
    }

    /** The task ends, and had not ended before; its failure is its worker's end. */
    method End(w: nat, ok: bool)
      requires Valid() && w < |workers| && workers[w].Busy?
      modifies this
      ensures Valid() && history == old(history) + [Ends(w, ok)]
      ensures var task := old(workers)[w].task;
              && task !in old(ended) && ended == old(ended) + [task]
              && workers == old(workers)[w := if ok then Ready else Threw]
    {
      RunKeeps(Pooled, tasks, width, history);
      RunOneMore(Pooled, tasks, width, history, Ends(w, ok));
      history := history + [Ends(w, ok)];
      ended := ended + [workers[w].task];
      if !ok { bad := bad + [workers[w].task]; }
      workers := workers[w := if ok then Ready else Threw];
    }
  }

  /** `lane`: beside `next` the lanes share what was said and which projects failed. */
  class Lanes {
    const tasks: nat
    const lanes: nat
    const name: nat -> string
    const output: nat -> string
    var next: nat
    var workers: seq<Worker>
    var said: seq<string>
    var failed: seq<nat>
    ghost var started: seq<nat>
    ghost var ended: seq<nat>
    ghost var history: seq<Event>

    ghost function Now(): State
      reads this
    {
      State(next, workers, started, ended, failed)
    }

    /** The variables are what the steps so far make of them, and what is said is said of the ended. */
    ghost predicate Valid()
      reads this
    {
      Now() == Run(Laned, tasks, lanes, history) && said == Said(name, output, ended)
    }

    constructor (tasks: nat, lanes: nat, name: nat -> string, output: nat -> string)
      ensures this.tasks == tasks && this.lanes == lanes && this.name == name && this.output == output
      ensures history == [] && Valid()
    {
      this.tasks, this.lanes, this.name, this.output := tasks, lanes, name, output;
      next, said, failed := 0, [], [];
      workers := seq(lanes, _ => Ready);
      started, ended, history := [], [], [];
    }

    method Take(w: nat)
      requires Valid() && w < |workers| && workers[w].Ready?
      modifies this`next, this`workers, this`started, this`history
      ensures Valid() && history == old(history) + [Takes(w)]
      ensures var k := |old(started)|;
              if k < tasks then started == old(started) + [k] && workers == old(workers)[w := Busy(k)]
              else started == old(started) && workers == old(workers)[w := Returned]
    {
      RunKeeps(Laned, tasks, lanes, history);
      RunOneMore(Laned, tasks, lanes, history, Takes(w));
      history := history + [Takes(w)];
      if next < tasks {
        workers := workers[w := Busy(next)];
        started := started + [next];
        next := next + 1;
      } else {
        workers := workers[w := Returned];
      }
    }

    /** The project's two lines are said together, and the lane goes on whatever came of it. */
    method End(w: nat, ok: bool)
      requires Valid() && w < |workers| && workers[w].Busy?
      modifies this
      ensures Valid() && history == old(history) + [Ends(w, ok)]
      ensures var task := old(workers)[w].task;
              && task !in old(ended) && ended == old(ended) + [task] && workers == old(workers)[w := Ready]
              && failed == old(failed) + if ok then [] else [task]
    {
      RunKeeps(Laned, tasks, lanes, history);
      RunOneMore(Laned, tasks, lanes, history, Ends(w, ok));
      history := history + [Ends(w, ok)];
      var task := workers[w].task;
      said := said + [name(task), output(task)];
      if !ok { failed := failed + [task]; }
      ended := ended + [task];
      workers := workers[w := Ready];
      assert ended[..|ended| - 1] == old(ended);
    }
  }

  lemma RunOneMore(form: Form, tasks: nat, width: nat, es: seq<Event>, e: Event)
    ensures Run(form, tasks, width, es + [e]) == Step(form, tasks, Run(form, tasks, width, es), e)
  {
    assert (es + [e])[..|es|] == es;
  }

  /** What is said when tasks end in a given order. */
  function Said(name: nat -> string, output: nat -> string, ended: seq<nat>): seq<string> {
    if ended == [] then []
    else Said(name, output, ended[..|ended| - 1]) + [name(ended[|ended| - 1]), output(ended[|ended| - 1])]
  }

  /** Each task's two lines stand together, in the order the tasks ended. */
  lemma {:induction false} SaidTogether(name: nat -> string, output: nat -> string, ended: seq<nat>, k: nat)
    requires k < |ended|
    ensures |Said(name, output, ended)| == 2 * |ended|
    ensures Said(name, output, ended)[2 * k..2 * k + 2] == [name(ended[k]), output(ended[k])]
  {
    var but := ended[..|ended| - 1];
    if k < |but| {
      SaidTogether(name, output, but, k);
      var short, long := Said(name, output, but), Said(name, output, ended);
      assert long[2 * k..2 * k + 2] == short[2 * k..2 * k + 2];
    } else if |but| > 0 {
      SaidTogether(name, output, but, 0);
    }
  }

  // ----- what every run keeps -----

  function Lesser(a: nat, b: nat): nat { if a < b then a else b }

  function FirstTasks(n: nat): seq<nat> { seq(n, i => i) }

  predicate IsBusy(w: Worker) { w.Busy? }
  predicate HasReturned(w: Worker) { w.Returned? }
  predicate HasThrown(w: Worker) { w.Threw? }

  function Count(workers: seq<Worker>, counts: Worker -> bool): (n: nat)
    ensures n <= |workers|
  {
    if workers == [] then 0
    else (if counts(workers[0]) then 1 else 0) + Count(workers[1..], counts)
  }

  lemma {:induction false} CountUpdated(workers: seq<Worker>, i: nat, to: Worker, counts: Worker -> bool)
    requires i < |workers|
    ensures Count(workers[i := to], counts)
              == Count(workers, counts) + (if counts(to) then 1 else 0) - (if counts(workers[i]) then 1 else 0)
  {
    if i == 0 {
      assert workers[0 := to][1..] == workers[1..];
    } else {
      assert workers[i := to][1..] == workers[1..][i - 1 := to];
      CountUpdated(workers[1..], i - 1, to, counts);
    }
  }

  lemma {:induction false} CountOf(workers: seq<Worker>, counts: Worker -> bool)
    ensures Count(workers, counts) == 0 <==> forall i :: 0 <= i < |workers| ==> !counts(workers[i])
    ensures Count(workers, counts) == |workers| <==> forall i :: 0 <= i < |workers| ==> counts(workers[i])
  {
    if workers != [] {
      CountOf(workers[1..], counts);
      assert forall i :: 1 <= i < |workers| ==> workers[i] == workers[1..][i - 1];
    }
  }

  /** Tasks are started in order; a started one has one worker or has ended, and never both. */
  ghost predicate Kept(form: Form, tasks: nat, s: State) {
    && s.started == FirstTasks(Lesser(s.next, tasks))
    && NoRepeats(s.ended)
    && (forall t :: t in s.ended ==> t < Lesser(s.next, tasks))
    && (forall w :: 0 <= w < |s.workers| && s.workers[w].Busy? ==>
          s.workers[w].task < Lesser(s.next, tasks) && s.workers[w].task !in s.ended)
    && (forall v, w :: 0 <= v < w < |s.workers| && s.workers[v].Busy? && s.workers[w].Busy? ==>
          s.workers[v].task != s.workers[w].task)
    && (forall t :: 0 <= t < Lesser(s.next, tasks) ==> t in s.ended || Busy(t) in s.workers)
    && (forall w :: 0 <= w < |s.workers| && s.workers[w].Returned? ==> s.next >= tasks)
    && (form.Laned? ==> s.next <= tasks)
  }

  ghost predicate Counted(form: Form, s: State) {
    && |s.started| == |s.ended| + Count(s.workers, IsBusy)
    && (form.Pooled? ==> |s.bad| == Count(s.workers, HasThrown))
    && (form.Laned? ==> Count(s.workers, HasThrown) == 0)
  }

  lemma TakingKeeps(form: Form, tasks: nat, s: State, w: nat)
    requires Kept(form, tasks, s) && w < |s.workers| && s.workers[w].Ready? && s.next < tasks
    ensures Kept(form, tasks, Step(form, tasks, s, Takes(w)))
  {
    var t := Step(form, tasks, s, Takes(w));
    assert FirstTasks(s.next + 1) == FirstTasks(s.next) + [s.next];
    assert t.workers[w] == Busy(s.next);
    forall i | 0 <= i < s.next && i !in s.ended ensures Busy(i) in t.workers {
      var v :| 0 <= v < |s.workers| && s.workers[v] == Busy(i);
      assert t.workers[v] == Busy(i);
    }
  }

  lemma LeavingKeeps(form: Form, tasks: nat, s: State, w: nat)
    requires Kept(form, tasks, s) && w < |s.workers| && s.workers[w].Ready? && s.next >= tasks
    ensures Kept(form, tasks, Step(form, tasks, s, Takes(w)))
  {
    var t := Step(form, tasks, s, Takes(w));
    forall i | 0 <= i < Lesser(s.next, tasks) && i !in s.ended ensures Busy(i) in t.workers {
      var v :| 0 <= v < |s.workers| && s.workers[v] == Busy(i);
      assert t.workers[v] == Busy(i);
    }
  }

  lemma EndingKeeps(form: Form, tasks: nat, s: State, w: nat, ok: bool)
    requires Kept(form, tasks, s) && w < |s.workers| && s.workers[w].Busy?
    ensures Kept(form, tasks, Step(form, tasks, s, Ends(w, ok)))
  {
    var t, task := Step(form, tasks, s, Ends(w, ok)), s.workers[w].task;
    assert t.ended[|s.ended|] == task;
    forall i | 0 <= i < Lesser(s.next, tasks) ensures i in t.ended || Busy(i) in t.workers {
      if i in s.ended {
        var k :| 0 <= k < |s.ended| && s.ended[k] == i;
        assert t.ended[k] == i;
      } else if i != task {
        var v :| 0 <= v < |s.workers| && s.workers[v] == Busy(i);
        assert t.workers[v] == Busy(i);
      }
    }
  }

  lemma StepKeeps(form: Form, tasks: nat, s: State, e: Event)
    requires Kept(form, tasks, s)
    ensures Kept(form, tasks, Step(form, tasks, s, e))
  {
    if Enabled(s, e) {
      match e
      case Takes(w) => if s.next < tasks { TakingKeeps(form, tasks, s, w); } else { LeavingKeeps(form, tasks, s, w); }
      case Ends(w, ok) => EndingKeeps(form, tasks, s, w, ok);
    }
  }

  lemma StepCounts(form: Form, tasks: nat, s: State, e: Event)
    requires Counted(form, s)
    ensures Counted(form, Step(form, tasks, s, e))
  {
    if Enabled(s, e) {
      var to := Step(form, tasks, s, e).workers[e.worker];
      CountUpdated(s.workers, e.worker, to, IsBusy);
      CountUpdated(s.workers, e.worker, to, HasThrown);
    }
  }

  lemma {:induction false} RunKeeps(form: Form, tasks: nat, width: nat, es: seq<Event>)
    ensures Kept(form, tasks, Run(form, tasks, width, es)) && Counted(form, Run(form, tasks, width, es))
    ensures |Run(form, tasks, width, es).workers| == width
  {
    if es == [] {
      CountOf(Initial(width).workers, IsBusy);
      CountOf(Initial(width).workers, HasThrown);
    } else {
      var but := es[..|es| - 1];
      RunKeeps(form, tasks, width, but);
      StepKeeps(form, tasks, Run(form, tasks, width, but), es[|es| - 1]);
      StepCounts(form, tasks, Run(form, tasks, width, but), es[|es| - 1]);
    }
  }

  // ----- over every interleaving -----

  /** Tasks start in the order they were submitted, each once, and end once, having started; those in
      flight are never more than the workers. */
  lemma StartsInOrderWithinWidth(form: Form, tasks: nat, width: nat, es: seq<Event>)
    ensures var s := Run(form, tasks, width, es);
            && s.started == FirstTasks(|s.started|) && |s.started| <= tasks
            && NoRepeats(s.ended) && (forall t :: t in s.ended ==> t in s.started)
            && |s.ended| <= |s.started| <= |s.ended| + width
  {
    RunKeeps(form, tasks, width, es);
    var s := Run(form, tasks, width, es);
    forall t | t in s.ended ensures t in s.started { assert s.started[t] == t; }
  }

  predicate Stopped(s: State) { forall w :: 0 <= w < |s.workers| ==> s.workers[w].Returned? || s.workers[w].Threw? }

  predicate AllRan(tasks: nat, s: State) { |s.ended| == tasks && forall t :: 0 <= t < tasks ==> t in s.ended }

  /** Once no worker is left to go on, every task has run, and once, exactly when some worker came to
      the end of the list or the list had been handed out by then. */
  lemma StoppedHasRanAllIff(form: Form, tasks: nat, width: nat, es: seq<Event>)
    requires Stopped(Run(form, tasks, width, es))
    ensures var s := Run(form, tasks, width, es);
            && (AllRan(tasks, s) <==> s.next >= tasks)
            && (Returned in s.workers ==> AllRan(tasks, s))
  {
    RunKeeps(form, tasks, width, es);
    var s := Run(form, tasks, width, es);
    CountOf(s.workers, IsBusy);
    assert forall t :: Busy(t) !in s.workers;
    if |s.ended| == tasks { assert |s.started| == tasks; }
  }

  /** So the pool's promise of all its workers, when it is kept, means that every task has run once;
      and as each failure costs one worker, fewer failures than workers mean so too. */
  lemma PoolRunsAll(tasks: nat, width: nat, es: seq<Event>)
    requires Stopped(Run(Pooled, tasks, width, es))
    ensures var s := Run(Pooled, tasks, width, es);
            && (Returned in s.workers <==> |s.bad| < width)
            && (|s.bad| < width ==> AllRan(tasks, s))
  {
    RunKeeps(Pooled, tasks, width, es);
    StoppedHasRanAllIff(Pooled, tasks, width, es);
    CountOf(Run(Pooled, tasks, width, es).workers, HasThrown);
  }

  /** A lane never gives up: whatever fails, all projects are checked once the lanes have returned. */
  lemma LanesRunAll(tasks: nat, lanes: nat, es: seq<Event>)
    requires lanes > 0 && Stopped(Run(Laned, tasks, lanes, es))
    ensures AllRan(tasks, Run(Laned, tasks, lanes, es))
  {
    RunKeeps(Laned, tasks, lanes, es);
    StoppedHasRanAllIff(Laned, tasks, lanes, es);
    var s := Run(Laned, tasks, lanes, es);
    CountOf(s.workers, HasThrown);
    assert s.workers[0].Returned?;
  }

  /** Every step of a run could be taken. */
  predicate Taken(form: Form, tasks: nat, width: nat, es: seq<Event>) {
    es == [] || (Taken(form, tasks, width, es[..|es| - 1])
                 && Enabled(Run(form, tasks, width, es[..|es| - 1]), es[|es| - 1]))
  }

  /** No run goes on for ever: it is two steps a task and one a worker long at the most, and until the
      workers have stopped there is a step to take. */
  lemma {:induction false} RunIsAsLongAsItsWork(form: Form, tasks: nat, width: nat, es: seq<Event>)
    requires Taken(form, tasks, width, es)
    ensures var s := Run(form, tasks, width, es);
            && |es| == |s.started| + |s.ended| + Count(s.workers, HasReturned)
            && |es| <= 2 * tasks + width
            && (Stopped(s) <==> forall e :: !Enabled(s, e))
  {
    var s := Run(form, tasks, width, es);
    StartsInOrderWithinWidth(form, tasks, width, es);
    if es == [] {
      CountOf(s.workers, HasReturned);
    } else {
      var but, last := es[..|es| - 1], es[|es| - 1];
      RunIsAsLongAsItsWork(form, tasks, width, but);
      CountUpdated(Run(form, tasks, width, but).workers, last.worker, s.workers[last.worker], HasReturned);
    }
    RunKeeps(form, tasks, width, es);
    if !Stopped(s) {
      var w :| 0 <= w < |s.workers| && !(s.workers[w].Returned? || s.workers[w].Threw?);
      assert Enabled(s, if s.workers[w].Ready? then Takes(w) else Ends(w, true));
    }
  }
}
