/** How many compilations are let in: a counter of those pending, and one permit to run, over every
    interleaving of arrivals, permits, ends and interruptions. */
module CompileAdmission {

  const MAX_PENDING_COMPILES := 8

  /** `Settles` is the end of the compilation itself, well or not. A request may be interrupted while it
      waits or while its compilation runs; the promise it waited for is then nobody's, and ends by itself. */
  datatype Event =
    | Arrives(id: nat)
    | IsPermitted(id: nat)
    | Settles(id: nat)
    | IsInterrupted(id: nat)
    | EndsAlone(id: nat)

  /** The counter and the semaphore's free permits, and where each request let in stands. */
  datatype State = State(pending: int, permits: int, waiting: set<nat>, running: set<nat>, alone: set<nat>)

  function Initial(): State { State(0, 1, {}, {}, {}) }

  predicate Fresh(s: State, id: nat) { id !in s.waiting && id !in s.running && id !in s.alone }

  predicate Enabled(s: State, e: Event) {
    match e
    case Arrives(id) => Fresh(s, id)
    case IsPermitted(id) => id in s.waiting && s.permits > 0
    case Settles(id) => id in s.running
    case IsInterrupted(id) => id in s.waiting || id in s.running
    case EndsAlone(id) => id in s.alone
  }

  predicate Refuses(s: State, e: Event) { e.Arrives? && s.pending >= 8 }

  function Step(s: State, e: Event): State {
    match e
    case Arrives(id) =>
      if Refuses(s, e) then s else s.(pending := s.pending + 1, waiting := s.waiting + {id})
    case IsPermitted(id) =>
      s.(permits := s.permits - 1, waiting := s.waiting - {id}, running := s.running + {id})
    case Settles(id) =>
      s.(pending := s.pending - 1, permits := s.permits + 1, running := s.running - {id})
    case IsInterrupted(id) =>
      if id in s.waiting then s.(pending := s.pending - 1, waiting := s.waiting - {id})
      else s.(pending := s.pending - 1, permits := s.permits + 1, running := s.running - {id}, alone := s.alone + {id})
    case EndsAlone(id) => s.(alone := s.alone - {id})
  }

  /** Histories of steps that could be taken. */
  predicate Possible(es: seq<Event>) {
    es == [] || (Possible(es[..|es| - 1]) && Enabled(Run(es[..|es| - 1]), es[|es| - 1]))
  }

  function Run(es: seq<Event>): State {
    if es == [] then Initial() else Step(Run(es[..|es| - 1]), es[|es| - 1])
  }

  // ----- the program's own variables -----

  class Authoring {
    var pendingCompiles: int
    var permits: int
    var waiting: set<nat>
    var running: set<nat>
    var alone: set<nat>
    ghost var history: seq<Event>

    ghost function Now(): State
      reads this
    {
      State(pendingCompiles, permits, waiting, running, alone)
    }

    /** The variables are what a possible history makes of them. */
    ghost predicate Valid()
      reads this
    {
      Possible(history) && Now() == Run(history)
    }

    constructor ()
      ensures Valid() && history == []
    {
      pendingCompiles, permits, history := 0, 1, [];
      waiting, running, alone := {}, {}, {};
    }

    /** Refused exactly when eight are waiting or running. */
    method Compile(id: nat) returns (busy: bool)
      requires Valid() && Fresh(Now(), id)
      modifies this`pendingCompiles, this`waiting, this`history
      ensures Valid() && history == old(history) + [Arrives(id)]
      ensures busy <==> |old(waiting + running)| == 8
      ensures waiting == old(waiting) + if busy then {} else {id}
    {
      RefusedExactlyWhenFull(history, id);
      RunOneMore(history, Arrives(id));
      history := history + [Arrives(id)];
      if pendingCompiles >= MAX_PENDING_COMPILES { return true; }
      pendingCompiles := pendingCompiles + 1;
      waiting := waiting + {id};
      return false;
    }

    /** Given to one that waits, and only when none runs. */
    method TakePermit(id: nat)
      requires Valid() && id in waiting && permits > 0
      modifies this`permits, this`waiting, this`running, this`history
      ensures Valid() && history == old(history) + [IsPermitted(id)]
      ensures old(running) == {} && running == {id}
    {
      RunKeeps(history);
      RunOneMore(history, IsPermitted(id));
      history := history + [IsPermitted(id)];
      permits := permits - 1;
      waiting, running := waiting - {id}, running + {id};
    }

    /** The permit is given back and then the counter is taken down, however the compilation ended. */
    method Settle(id: nat)
      requires Valid() && id in running
      modifies this
      ensures Valid() && history == old(history) + [Settles(id)]
      ensures running == {} && waiting == old(waiting) && alone == old(alone)
    {
      RunKeeps(history);
      RunOneMore(history, Settles(id));
      assert |running - {id}| == 0;
      history := history + [Settles(id)];
      running := running - {id};
      permits := permits + 1;
      pendingCompiles := pendingCompiles - 1;
    }

    method Interrupt(id: nat)
      requires Valid() && (id in waiting || id in running)
      modifies this
      ensures Valid() && history == old(history) + [IsInterrupted(id)]
      ensures UnderWay(Now()) == old(UnderWay(Now())) && id !in waiting + running
    {
      RunKeeps(history);
      RunOneMore(history, IsInterrupted(id));
      history := history + [IsInterrupted(id)];
      if id in waiting {
        waiting := waiting - {id};
      } else {
        running, alone := running - {id}, alone + {id};
        permits := permits + 1;
      }
      pendingCompiles := pendingCompiles - 1;
    }

    /** A promise nobody waits for ends; the program has nothing to do about it. */
    method EndAlone(id: nat)
      requires Valid() && id in alone
      modifies this`alone, this`history
      ensures Valid() && history == old(history) + [EndsAlone(id)]
    {
      RunOneMore(history, EndsAlone(id));
      history, alone := history + [EndsAlone(id)], alone - {id};
    }
  }

  // ----- over every history -----

  /** The counter is the number of requests waiting or running, never above its limit; the permit is
      free or held by one; and nothing is in two places. */
  ghost predicate Kept(s: State) {
    && s.pending == |s.waiting| + |s.running| && s.pending <= 8
    && s.permits == 1 - |s.running| && 0 <= s.permits
    && s.waiting !! s.running && s.waiting !! s.alone && s.running !! s.alone
  }

  lemma StepKeeps(s: State, e: Event)
    requires Kept(s) && Enabled(s, e)
    ensures Kept(Step(s, e))
  {}

  lemma {:induction false} RunKeeps(es: seq<Event>)
    requires Possible(es)
    ensures Kept(Run(es))
  {
    if es != [] {
      RunKeeps(es[..|es| - 1]);
      StepKeeps(Run(es[..|es| - 1]), es[|es| - 1]);
    }
  }

  /** A request is refused exactly when eight are waiting or running; with none of them the counter is
      back at nought. */
  lemma RefusedExactlyWhenFull(es: seq<Event>, id: nat)
    requires Possible(es)
    ensures Refuses(Run(es), Arrives(id)) <==> |Run(es).waiting + Run(es).running| == 8
    ensures Run(es).pending == 0 <==> Run(es).waiting + Run(es).running == {}
  {
    RunKeeps(es);
    var s := Run(es);
    assert |s.waiting + s.running| == |s.waiting| + |s.running|;
  }

  /** Compilations under way, whether or not anyone still waits for them. */
  function UnderWay(s: State): set<nat> { s.running + s.alone }

  /** Whenever a request was given the permit nothing was going on alone. */
  predicate NoneAloneWhenPermitted(es: seq<Event>) {
    forall i :: 0 <= i < |es| && es[i].IsPermitted? ==> Run(es[..i]).alone == {}
  }

  predicate OneAtMost(es: seq<Event>) { |UnderWay(Run(es))| <= 1 }

  predicate AlwaysOneAtMost(es: seq<Event>) { forall n :: 0 <= n <= |es| ==> OneAtMost(es[..n]) }

  /** The permit keeps compilations to one at a time throughout a history exactly when it was never given
      while a compilation was going on alone: that is all it fails to look at. */
  lemma {:induction false} OneAtATimeIff(es: seq<Event>)
    requires Possible(es)
    ensures AlwaysOneAtMost(es) <==> NoneAloneWhenPermitted(es)
  {
    if es == [] {
      assert es[..0] == es && UnderWay(Run(es)) == {};
    } else {
      var but := es[..|es| - 1];
      OneAtATimeIff(but);
      AlwaysOneMore(es);
      NoneAloneOneMore(es);
      RunKeeps(but);
      if |UnderWay(Run(but))| <= 1 { OneMoreUnderWay(Run(but), es[|es| - 1]); }
      if AlwaysOneAtMost(but) { assert but[..|but|] == but; }
    }
  }

  lemma AlwaysOneMore(es: seq<Event>)
    requires es != []
    ensures AlwaysOneAtMost(es) <==> AlwaysOneAtMost(es[..|es| - 1]) && OneAtMost(es)
  {
    var but := es[..|es| - 1];
    assert es[..|es|] == es;
    forall n | 0 <= n <= |but| ensures OneAtMost(es[..n]) == OneAtMost(but[..n]) { assert es[..n] == but[..n]; }
  }

  lemma NoneAloneOneMore(es: seq<Event>)
    requires es != []
    ensures var but, last := es[..|es| - 1], es[|es| - 1];
            NoneAloneWhenPermitted(es) <==>
            NoneAloneWhenPermitted(but) && (last.IsPermitted? ==> Run(but).alone == {})
  {
    var but := es[..|es| - 1];
    assert forall i :: 0 <= i < |but| ==> es[..i] == but[..i] && es[i] == but[i];
  }

  lemma OneMoreUnderWay(s: State, e: Event)
    requires Kept(s) && Enabled(s, e) && |UnderWay(s)| <= 1
    ensures |UnderWay(Step(s, e))| <= 1 <==> (e.IsPermitted? ==> s.alone == {})
  {
    StepKeeps(s, e);
    var t := Step(s, e);
    assert |UnderWay(s)| == |s.running| + |s.alone| && |UnderWay(t)| == |t.running| + |t.alone|;
  }

  lemma {:induction false} AloneWasInterrupted(es: seq<Event>, id: nat)
    requires Possible(es) && id in Run(es).alone
    ensures IsInterrupted(id) in es
  {
    var but, last := es[..|es| - 1], es[|es| - 1];
    if id in Run(but).alone { AloneWasInterrupted(but, id); }
  }

  /** Without interruptions there is never more than one compilation under way. */
  lemma UninterruptedOneAtATime(es: seq<Event>)
    requires Possible(es) && forall e :: e in es ==> !e.IsInterrupted?
    ensures |UnderWay(Run(es))| <= 1
  {
    RunKeeps(es);
    forall id ensures id !in Run(es).alone {
      if id in Run(es).alone { AloneWasInterrupted(es, id); }
    }
    assert UnderWay(Run(es)) == Run(es).running;
  }

  /** Callers who come and go leave compilations behind. */
  function ComeAndGo(n: nat): seq<Event> {
    if n == 0 then [] else ComeAndGo(n - 1) + [Arrives(n), IsPermitted(n), IsInterrupted(n)]
  }

  lemma RunOneMore(es: seq<Event>, e: Event)
    requires Possible(es) && Enabled(Run(es), e)
    ensures Possible(es + [e]) && Run(es + [e]) == Step(Run(es), e)
  {
    assert (es + [e])[..|es|] == es;
  }

  lemma OneMoreLeftBehind(es: seq<Event>, id: nat)
    requires Possible(es) && Fresh(Run(es), id) && Run(es).pending == 0 && Run(es).permits == 1
    ensures var more := es + [Arrives(id), IsPermitted(id), IsInterrupted(id)];
            && Possible(more) && Run(more).pending == 0 && Run(more).permits == 1
            && Run(more).running == Run(es).running && Run(more).alone == Run(es).alone + {id}
  {
    RunOneMore(es, Arrives(id));
    RunOneMore(es + [Arrives(id)], IsPermitted(id));
    RunOneMore(es + [Arrives(id)] + [IsPermitted(id)], IsInterrupted(id));
    assert es + [Arrives(id), IsPermitted(id), IsInterrupted(id)]
        == es + [Arrives(id)] + [IsPermitted(id)] + [IsInterrupted(id)];
  }

  /** With them there is no bound: for every number there is a history after which that many
      compilations are under way, though none of them is pending. */
  lemma {:induction false} InterruptedWithoutBound(n: nat)
    ensures Possible(ComeAndGo(n)) && Run(ComeAndGo(n)).pending == 0 && Run(ComeAndGo(n)).permits == 1
    ensures |UnderWay(Run(ComeAndGo(n)))| == n && forall id :: id in Run(ComeAndGo(n)).alone ==> id <= n
  {
    if n > 0 {
      var es := ComeAndGo(n - 1);
      InterruptedWithoutBound(n - 1);
      RunKeeps(es);
      OneMoreLeftBehind(es, n);
      assert UnderWay(Run(ComeAndGo(n))) == UnderWay(Run(es)) + {n};
    }
  }
}
