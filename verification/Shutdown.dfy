/** Stopping a server process: signals, a supervisor's channel, a deadline and the graceful end race
    one another. */
module Shutdown {
  import opened Options

  datatype Signal = SIGINT | SIGTERM

  function Code(s: Signal): int { if s.SIGINT? then 130 else 143 }

  /** How the runtime's own unwinding ended. */
  datatype Ending = Succeeded | OnlyInterrupted | Failed

  /** `teardown`: a requested stop is a normal outcome. */
  function TeardownCode(e: Ending): int { if e.Failed? then 1 else 0 }

  /** `at` is the event loop's time; a signal also reads the wall clock. */
  datatype Event =
    | Registers(at: int, drain: nat)
    | Signalled(at: int, signal: Signal, wall: int)
    | ChannelStops(at: int)
    | TimerFires(at: int)
    | Unwinds(at: int, ending: Ending)

  datatype Exit = Exit(code: int, at: int)

  datatype State = State(
    drains: seq<nat>, stopping: bool, ran: seq<nat>,
    stoppingSince: Option<int>, timedOutExitCode: int, deadline: Option<int>,
    exited: Option<Exit>)

  /** The drain that arms the deadline is registered before the runtime is launched. */
  const ARM: nat := 0

  const DISTINCT_PRESS_MS := 1000

  function Initial(): State {
    State([ARM], false, [], None, 1, None, None)
  }

  // ----- the process, as its handlers change it -----

  class Process {
    const forceExitAfter: nat
    var drains: seq<nat>
    var stopping: bool
    var ran: seq<nat>
    var stoppingSince: Option<int>
    var timedOutExitCode: int
    var deadline: Option<int>
    var exited: Option<Exit>
    ghost var history: seq<Event>

    ghost function Now(): State
      reads this
    {
      State(drains, stopping, ran, stoppingSince, timedOutExitCode, deadline, exited)
    }

    /** The variables are what the events so far make of them. */
    ghost predicate Valid()
      reads this
    {
      Now() == Run(forceExitAfter, history)
    }

    constructor (forceExitAfter: nat)
      ensures this.forceExitAfter == forceExitAfter && history == [] && Valid()
    {
      this.forceExitAfter := forceExitAfter;
      drains, stopping, ran := [ARM], false, [];
      stoppingSince, timedOutExitCode, deadline, exited := None, 1, None, None;
      history := [];
    }

    method OnShutdownRequested(at: int, drain: nat)
      requires Valid() && exited.None?
      modifies this`drains, this`history
      ensures Valid() && history == old(history) + [Registers(at, drain)]
    {
      OneMoreEvent(forceExitAfter, history, Registers(at, drain));
      drains, history := drains + [drain], history + [Registers(at, drain)];
    }

    method RequestShutdown(at: int)
      modifies this`stopping, this`ran, this`deadline
      ensures Now() == Requested(forceExitAfter, old(Now()), at)
    {
      if stopping { return; }
      stopping := true;
      ghost var before := ran;
      for i := 0 to |drains|
        invariant stopping && ran == before + drains[..i]
        invariant deadline == if forceExitAfter > 0 && ARM in drains[..i]
                              then Some(at + forceExitAfter) else old(deadline)
      {
        assert drains[..i + 1] == drains[..i] + [drains[i]];
        if drains[i] == ARM && forceExitAfter > 0 { deadline := Some(at + forceExitAfter); }
        ran := ran + [drains[i]];
      }
      assert drains[..|drains|] == drains;
    }

    method OnChannelStop(at: int)
      requires Valid() && exited.None?
      modifies this
      ensures Valid() && history == old(history) + [ChannelStops(at)] && exited.None?
    {
      OneMoreEvent(forceExitAfter, history, ChannelStops(at));
      RequestShutdown(at);
      history := history + [ChannelStops(at)];
    }

    /** It exits exactly when the history says that this signal is a distinct later one. */
    method OnSignal(at: int, signal: Signal, wall: int)
      requires Valid() && exited.None?
      modifies this
      ensures Valid() && history == old(history) + [Signalled(at, signal, wall)]
      ensures exited == Ends(forceExitAfter, old(history), Signalled(at, signal, wall))
    {
      EventEndsIt(forceExitAfter, history, Signalled(at, signal, wall));
      OneMoreEvent(forceExitAfter, history, Signalled(at, signal, wall));
      history := history + [Signalled(at, signal, wall)];
      if stoppingSince.Some? {
        if wall - stoppingSince.value < DISTINCT_PRESS_MS { return; }
        exited := Some(Exit(Code(signal), at));
        return;
      }
      stoppingSince := Some(wall);
      timedOutExitCode := Code(signal);
      RequestShutdown(at);
    }

    /** It exits exactly when the first request is a deadline ago, with the first signal's code. */
    method OnTimer(at: int)
      requires Valid() && exited.None?
      modifies this`exited, this`history
      ensures Valid() && history == old(history) + [TimerFires(at)]
      ensures exited == Ends(forceExitAfter, old(history), TimerFires(at))
    {
      EventEndsIt(forceExitAfter, history, TimerFires(at));
      OneMoreEvent(forceExitAfter, history, TimerFires(at));
      history := history + [TimerFires(at)];
      if deadline.Some? && deadline.value <= at { exited := Some(Exit(timedOutExitCode, at)); }
    }

    method OnUnwound(at: int, ending: Ending)
      requires Valid() && exited.None?
      modifies this`exited, this`history
      ensures Valid() && history == old(history) + [Unwinds(at, ending)]
      ensures exited == Some(Exit(if ending.Failed? then 1 else 0, at))
    {
      OneMoreEvent(forceExitAfter, history, Unwinds(at, ending));
      history := history + [Unwinds(at, ending)];
      exited := Some(Exit(TeardownCode(ending), at));
    }
  }

  lemma OneMoreEvent(force: nat, es: seq<Event>, e: Event)
    ensures Run(force, es + [e]) == Step(force, Run(force, es), e)
  {
    assert (es + [e])[..|es|] == es;
  }

  // ----- the same, as a step -----

  function Requested(force: nat, s: State, at: int): State {
    if s.stopping then s
    else s.(stopping := true, ran := s.ran + s.drains,
            deadline := if force > 0 && ARM in s.drains then Some(at + force) else s.deadline)
  }

  function Step(force: nat, s: State, e: Event): State {
    if s.exited.Some? then s
    else match e
      case Registers(_, drain) => s.(drains := s.drains + [drain])
      case ChannelStops(at) => Requested(force, s, at)
      case Signalled(at, signal, wall) =>
        if s.stoppingSince.None? then
          Requested(force, s.(stoppingSince := Some(wall), timedOutExitCode := Code(signal)), at)
        else if wall - s.stoppingSince.value < DISTINCT_PRESS_MS then s
        else s.(exited := Some(Exit(Code(signal), at)))
      case TimerFires(at) =>
        if s.deadline.Some? && s.deadline.value <= at then s.(exited := Some(Exit(s.timedOutExitCode, at))) else s
      case Unwinds(at, ending) => s.(exited := Some(Exit(TeardownCode(ending), at)))
  }

  function Run(force: nat, es: seq<Event>): State {
    if es == [] then Initial() else Step(force, Run(force, es[..|es| - 1]), es[|es| - 1])
  }

  // ----- what a history says, without the machine -----

  predicate Asks(e: Event) { e.ChannelStops? || e.Signalled? }

  /** When a stop was first asked for, by anyone. */
  function FirstRequest(es: seq<Event>): Option<int> {
    if es == [] then None else if Asks(es[0]) then Some(es[0].at) else FirstRequest(es[1..])
  }

  /** A signal, and the wall clock when it came. */
  datatype Press = Press(signal: Signal, wall: int)

  /** The first signal among the events. */
  function FirstSignal(es: seq<Event>): Option<Press> {
    if es == [] then None
    else if es[0].Signalled? then Some(Press(es[0].signal, es[0].wall))
    else FirstSignal(es[1..])
  }

  function Registered(es: seq<Event>): seq<nat> {
    if es == [] then []
    else (if es[0].Registers? then [es[0].drain] else []) + Registered(es[1..])
  }

  /** The drains registered before anyone asked. */
  function RegisteredInTime(es: seq<Event>): seq<nat> {
    if es == [] || Asks(es[0]) then []
    else (if es[0].Registers? then [es[0].drain] else []) + RegisteredInTime(es[1..])
  }

  function CodeAsked(es: seq<Event>): int {
    match FirstSignal(es)
    case None => 1
    case Some(press) => if press.signal.SIGINT? then 130 else 143
  }

  /** The state a history amounts to while the process is still there. */
  function Account(force: nat, es: seq<Event>): State {
    var asked, press := FirstRequest(es), FirstSignal(es);
    State(
      [ARM] + Registered(es),
      asked.Some?,
      if asked.Some? then [ARM] + RegisteredInTime(es) else [],
      if press.Some? then Some(press.value.wall) else None,
      CodeAsked(es),
      if asked.Some? && force > 0 then Some(asked.value + force) else None,
      None)
  }

  /** Whether an event after a history ends the process, and how. */
  function Ends(force: nat, es: seq<Event>, e: Event): Option<Exit> {
    match e
    case Signalled(at, signal, wall) =>
      if FirstSignal(es).Some? && wall - FirstSignal(es).value.wall >= 1000
      then Some(Exit(if signal.SIGINT? then 130 else 143, at)) else None
    case TimerFires(at) =>
      if FirstRequest(es).Some? && force > 0 && FirstRequest(es).value + force <= at
      then Some(Exit(CodeAsked(es), at)) else None
    case Unwinds(at, ending) => Some(Exit(if ending.Failed? then 1 else 0, at))
    case _ => None
  }

  lemma {:induction false} OneMoreAsked(es: seq<Event>, e: Event)
    ensures FirstSignal(es + [e]) == if FirstSignal(es).Some? then FirstSignal(es)
                                     else if e.Signalled? then Some(Press(e.signal, e.wall)) else None
    ensures FirstRequest(es + [e]) == if FirstRequest(es).Some? then FirstRequest(es)
                                      else if Asks(e) then Some(e.at) else None
    ensures FirstSignal(es).Some? ==> FirstRequest(es).Some?
  {
    if es == [] {
      assert es + [e] == [e];
    } else {
      assert (es + [e])[1..] == es[1..] + [e] && (es + [e])[0] == es[0];
      OneMoreAsked(es[1..], e);
    }
  }

  lemma {:induction false} OneMoreRegistered(es: seq<Event>, e: Event)
    ensures Registered(es + [e]) == Registered(es) + if e.Registers? then [e.drain] else []
  {
    if es == [] {
      assert es + [e] == [e];
    } else {
      assert (es + [e])[1..] == es[1..] + [e] && (es + [e])[0] == es[0];
      OneMoreRegistered(es[1..], e);
    }
  }

  lemma {:induction false} OneMoreInTime(es: seq<Event>, e: Event)
    ensures RegisteredInTime(es + [e]) == RegisteredInTime(es)
              + if FirstRequest(es).None? && e.Registers? then [e.drain] else []
    ensures FirstRequest(es).None? ==> RegisteredInTime(es) == Registered(es)
  {
    if es == [] {
      assert es + [e] == [e];
    } else {
      assert (es + [e])[1..] == es[1..] + [e] && (es + [e])[0] == es[0];
      OneMoreInTime(es[1..], e);
    }
  }

  lemma AccountOfQuiet(force: nat, es: seq<Event>, e: Event)
    requires e.TimerFires? || e.Unwinds?
    ensures Account(force, es + [e]) == Account(force, es)
  {
    OneMoreAsked(es, e);
    OneMoreRegistered(es, e);
    OneMoreInTime(es, e);
  }

  lemma AccountOfRegisters(force: nat, es: seq<Event>, e: Event)
    requires e.Registers?
    ensures Account(force, es + [e]) == Account(force, es).(drains := Account(force, es).drains + [e.drain])
  {
    OneMoreAsked(es, e);
    OneMoreRegistered(es, e);
    OneMoreInTime(es, e);
    assert [ARM] + (Registered(es) + [e.drain]) == [ARM] + Registered(es) + [e.drain];
  }

  /** What a first signal leaves behind before it asks for the stop. */
  function Heard(s: State, e: Event): State {
    if e.Signalled? && s.stoppingSince.None?
    then s.(stoppingSince := Some(e.wall), timedOutExitCode := Code(e.signal)) else s
  }

  lemma AccountOfFirstAsking(force: nat, es: seq<Event>, e: Event)
    requires Asks(e) && FirstRequest(es).None?
    ensures Account(force, es + [e]) == Requested(force, Heard(Account(force, es), e), e.at)
  {
    OneMoreAsked(es, e);
    OneMoreRegistered(es, e);
    OneMoreInTime(es, e);
    var was, next := Account(force, es), Account(force, es + [e]);
    assert next.drains == was.drains && next.ran == was.drains;
  }

  lemma AccountOfLaterAsking(force: nat, es: seq<Event>, e: Event)
    requires Asks(e) && FirstRequest(es).Some?
    ensures Account(force, es + [e]) == Heard(Account(force, es), e)
  {
    OneMoreAsked(es, e);
    OneMoreRegistered(es, e);
    OneMoreInTime(es, e);
    var was, next := Account(force, es), Account(force, es + [e]);
    assert next.drains == was.drains && next.ran == was.ran;
  }

  lemma AccountOfAsking(force: nat, es: seq<Event>, e: Event)
    requires Asks(e)
    ensures Account(force, es + [e]) == Requested(force, Heard(Account(force, es), e), e.at)
  {
    if FirstRequest(es).None? {
      AccountOfFirstAsking(force, es, e);
    } else {
      AccountOfLaterAsking(force, es, e);
    }
  }

  /** One event more, on the account of a history. */
  lemma StepOfAccount(force: nat, es: seq<Event>, e: Event)
    ensures Step(force, Account(force, es), e)
              == if Ends(force, es, e).Some? then Account(force, es).(exited := Ends(force, es, e))
                 else Account(force, es + [e])
  {
    match e
    case Registers(_, _) => AccountOfRegisters(force, es, e);
    case ChannelStops(_) => AccountOfAsking(force, es, e);
    case Signalled(_, _, _) =>
      AccountOfAsking(force, es, e);
      OneMoreAsked(es, e);
    case TimerFires(_) => AccountOfQuiet(force, es, e);
    case Unwinds(_, _) => AccountOfQuiet(force, es, e);
  }

  /** Over every history: while the process is there its state is the account of the history, and each
      event ends it exactly when, and with the code, the history says. */
  lemma {:induction false} RunIsAccount(force: nat, es: seq<Event>)
    ensures Run(force, es).exited.None? ==> Run(force, es) == Account(force, es)
  {
    if es != [] {
      var n := |es| - 1;
      assert es == es[..n] + [es[n]];
      RunIsAccount(force, es[..n]);
      StepOfAccount(force, es[..n], es[n]);
    }
  }

  lemma EventEndsIt(force: nat, es: seq<Event>, e: Event)
    ensures Run(force, es).exited.None? ==> Run(force, es + [e]).exited == Ends(force, es, e)
    ensures Run(force, es).exited.Some? ==> Run(force, es + [e]) == Run(force, es)
  {
    assert (es + [e])[..|es|] == es;
    RunIsAccount(force, es);
    StepOfAccount(force, es, e);
  }

  /** Every drain registered before the first request has run once, in that order; none registered
      later runs at all. */
  lemma DrainsRunOnce(force: nat, es: seq<Event>)
    requires Run(force, es).exited.None?
    ensures Run(force, es).ran == if FirstRequest(es).Some? then [ARM] + RegisteredInTime(es) else []
  {
    RunIsAccount(force, es);
  }

  /** A process that is gone went at one event, for what its history said then, and nothing has
      changed since. */
  lemma {:induction false} GoneAt(force: nat, es: seq<Event>) returns (live: nat)
    requires Run(force, es).exited.Some?
    ensures live < |es| && Run(force, es[..live]) == Account(force, es[..live])
    ensures Run(force, es) == Account(force, es[..live]).(exited := Ends(force, es[..live], es[live]))
  {
    var n := |es| - 1;
    assert es == es[..n] + [es[n]];
    RunIsAccount(force, es[..n]);
    if Run(force, es[..n]).exited.None? {
      live := n;
      StepOfAccount(force, es[..n], es[n]);
    } else {
      live := GoneAt(force, es[..n]);
      assert es[..n][..live] == es[..live];
    }
  }

  /** A signal within a second of the first one changes nothing; the forced exit is the doing of a
      later one, with that one's own code. */
  lemma OnlyADistinctPressForces(force: nat, es: seq<Event>, signal: Signal, at: int, wall: int)
    requires Run(force, es).exited.None?
    ensures var next := Run(force, es + [Signalled(at, signal, wall)]);
            match FirstSignal(es)
            case None => next.exited.None?
            case Some(press) =>
              if wall - press.wall < 1000 then next == Run(force, es)
              else next.exited == Some(Exit(if signal.SIGINT? then 130 else 143, at))
  {
    assert (es + [Signalled(at, signal, wall)])[..|es|] == es;
    RunIsAccount(force, es);
    EventEndsIt(force, es, Signalled(at, signal, wall));
  }

  // ----- in time -----

  /** What is asked of the surroundings alone: time goes forward, and a timer that is due fires at most `late`
      after it was due, before anything later is heard of. What the timer does is the program's affair. */
  ghost predicate Timely(force: nat, late: nat, es: seq<Event>) {
    && Forward(es)
    && forall i :: 0 <= i < |es| && PastDeadline(force, late, es[..i], es[i].at) ==>
                     exists j :: 0 <= j < i && Fires(force, late, es[..i], es[j])
  }

  /** The timer armed by the first request, no earlier than it is due and no later than it may be. */
  predicate Fires(force: nat, late: nat, es: seq<Event>, e: Event) {
    e.TimerFires? && FirstRequest(es).Some? && Due(force, es) <= e.at <= Due(force, es) + late
  }

  ghost predicate Forward(es: seq<Event>) { forall i, j :: 0 <= i < j < |es| ==> es[i].at <= es[j].at }

  /** When a deadline armed by the first request is due. */
  function Due(force: nat, es: seq<Event>): int
    requires FirstRequest(es).Some?
  {
    FirstRequest(es).value + force
  }

  predicate PastDeadline(force: nat, late: nat, es: seq<Event>, at: int) {
    FirstRequest(es).Some? && at > Due(force, es) + late
  }

  /** The first request has its place, and is the first of every beginning that holds it. */
  lemma {:induction false} RequestAt(es: seq<Event>) returns (r: nat)
    requires FirstRequest(es).Some?
    ensures r < |es| && Asks(es[r]) && es[r].at == FirstRequest(es).value
    ensures forall n :: r < n <= |es| ==> FirstRequest(es[..n]) == FirstRequest(es)
  {
    if Asks(es[0]) {
      r := 0;
      assert forall n :: 0 < n <= |es| ==> es[..n][0] == es[0];
    } else {
      r := RequestAt(es[1..]);
      r := r + 1;
      forall n | r < n <= |es| ensures FirstRequest(es[..n]) == FirstRequest(es) {
        assert es[..n][1..] == es[1..][..n - 1];
      }
    }
  }

  lemma {:induction false} StaysGone(force: nat, es: seq<Event>, n: nat)
    requires n <= |es| && Run(force, es[..n]).exited.Some?
    ensures Run(force, es) == Run(force, es[..n])
  {
    if n == |es| {
      assert es[..n] == es;
    } else {
      var but := es[..|es| - 1];
      assert but[..n] == es[..n];
      StaysGone(force, but, n);
    }
  }

  lemma FiringEndsIt(force: nat, es: seq<Event>, j: nat)
    requires force > 0 && Forward(es) && j < |es| && es[j].TimerFires?
    requires FirstRequest(es[..j]).Some? && es[j].at >= Due(force, es[..j])
    ensures Run(force, es[..j + 1]).exited.Some? && Run(force, es[..j + 1]).exited.value.at <= es[j].at
    ensures Run(force, es[..j]).exited.None? ==>
              Run(force, es[..j + 1]).exited == Some(Exit(CodeAsked(es[..j]), es[j].at))
  {
    assert es[..j + 1] == es[..j] + [es[j]];
    EventEndsIt(force, es[..j], es[j]);
    if Run(force, es[..j]).exited.Some? { var live := GoneAt(force, es[..j]); }
  }

  /** The timer's own doing: once it has fired, when due or later, the process is gone, and went by then - at
      the timer itself with the first signal's code, or with 1 if none came, or at an event before it. */
  lemma FiredTimerEndsIt(force: nat, es: seq<Event>, j: nat)
    requires force > 0 && Forward(es) && FirstRequest(es).Some?
    requires j < |es| && es[j].TimerFires? && es[j].at >= Due(force, es)
    ensures Run(force, es).exited.Some? && Run(force, es).exited.value.at <= es[j].at
    ensures Run(force, es[..j]).exited.None? ==> Run(force, es).exited == Some(Exit(CodeAsked(es[..j]), es[j].at))
  {
    var r := RequestAt(es);
    assert r < j;
    FiringEndsIt(force, es, j);
    StaysGone(force, es, j + 1);
  }

  /** Whatever comes after the deadline, and what the timer may be late, finds the process gone by then. */
  lemma GoneByDeadline(force: nat, late: nat, es: seq<Event>, n: nat)
    requires force > 0 && Timely(force, late, es) && n < |es| && PastDeadline(force, late, es[..n], es[n].at)
    ensures Run(force, es[..n]).exited.Some? && Run(force, es[..n]).exited.value.at <= Due(force, es[..n]) + late
    ensures Run(force, es).exited == Run(force, es[..n]).exited
  {
    var j :| 0 <= j < n && Fires(force, late, es[..n], es[j]);
    FiredTimerEndsIt(force, es[..n], j);
    StaysGone(force, es, n);
  }

  /** So no event finds the process alive later than that, and the timer fired when due or later ends it:
      with the first signal's code if any signal came, even after a channel asked first, and with 1 if none
      did. */
  lemma NothingAfterDeadline(force: nat, late: nat, es: seq<Event>, e: Event)
    requires force > 0 && Timely(force, late, es + [e]) && FirstRequest(es).Some? && Run(force, es).exited.None?
    ensures e.at <= Due(force, es) + late
    ensures e.TimerFires? && e.at >= Due(force, es) ==> Run(force, es + [e]).exited == Some(Exit(CodeAsked(es), e.at))
  {
    assert (es + [e])[..|es|] == es && (es + [e])[|es|] == e;
    EventEndsIt(force, es, e);
    if e.at > Due(force, es) + late { GoneByDeadline(force, late, es + [e], |es|); }
  }

  /** And every exit of a process that was asked to stop comes in time. */
  lemma ExitInTime(force: nat, late: nat, es: seq<Event>) returns (live: nat)
    requires force > 0 && Timely(force, late, es) && Run(force, es).exited.Some?
    ensures live < |es| && Run(force, es).exited == Ends(force, es[..live], es[live])
    ensures FirstRequest(es[..live]).Some? ==> Run(force, es).exited.value.at <= Due(force, es[..live]) + late
  {
    live := GoneAt(force, es);
    if PastDeadline(force, late, es[..live], es[live].at) { GoneByDeadline(force, late, es, live); }
  }

  /** The first request stays the first, so the deadline is armed once and never moved. */
  lemma {:induction false} ArmedOnce(force: nat, es: seq<Event>, more: seq<Event>)
    requires Run(force, es).deadline.Some?
    ensures Run(force, es + more).deadline == Run(force, es).deadline
    ensures Run(force, es + more).ran == Run(force, es).ran
  {
    if more == [] {
      assert es + more == es;
    } else {
      var n := |more| - 1;
      assert (es + more)[..|es| + n] == es + more[..n];
      ArmedOnce(force, es, more[..n]);
      DeadlineMeansStopping(force, es + more[..n]);
    }
  }

  lemma {:induction false} DeadlineMeansStopping(force: nat, es: seq<Event>)
    ensures Run(force, es).deadline.Some? ==> Run(force, es).stopping
  {
    if es != [] { DeadlineMeansStopping(force, es[..|es| - 1]); }
  }
}
