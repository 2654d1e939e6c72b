/** The shutdown coordinator of backend/lib/gracefulShutdown.js as interleaved steps. */
module Shutdown {
  datatype Status = Running | Draining | Closed

  /** Where runGracefulShutdown is suspended; Cleaning(k) is before the k-th task or after the last. */
  datatype Phase = Idle | ClosingServer | Waiting | Cleaning(k: nat) | Done

  /** `exitEnds` tells whether the exit function ends the process, as the default one does, or returns. `timeout`
      is the one given when the shutdown began: the force timer and the deadline both use it. */
  datatype State = State(
    exitEnds: bool, timeout: nat,
    accepted: set<int>, released: set<int>, inFlight: int,
    shuttingDown: bool, status: Status, phase: Phase,
    tasks: seq<string>, ran: seq<string>,
    now: int, deadline: int, forceAt: int, timerArmed: bool, forced: bool,
    exits: seq<int>)

  /** Requests and response events name a request; a signal starts the shutdown, which resumes when the server
      has closed, at each poll and after each task; the clock and the force timer run on their own. */
  datatype Action =
    | Register(task: string)
    | Request(id: int)
    | ResponseEvent(id: int)
    | Signal(hasServer: bool, timeoutMs: nat)
    | ServerClosed
    | Poll
    | NextTask
    | TimerFires
    | Tick(ms: nat)

  function Start(exitEnds: bool): State {
    State(exitEnds, 0, {}, {}, 0, false, Running, Idle, [], [], 0, 0, 0, false, false, [])
  }

  /** The process is gone. */
  predicate Ended(s: State) {
    s.exitEnds && s.exits != []
  }

  function Accept(s: State, id: int): State {
    if s.status != Running || id in s.accepted then s
    else s.(accepted := s.accepted + {id}, inFlight := s.inFlight + 1)
  }

  /** finish and close both run the release callback, which acts once. */
  function Release(s: State, id: int): State {
    if id !in s.accepted || id in s.released then s
    else s.(released := s.released + {id}, inFlight := s.inFlight - 1)
  }

  function Begin(s: State, hasServer: bool, timeoutMs: nat): State {
    if s.shuttingDown then s
    else s.(shuttingDown := true, status := Draining, timeout := timeoutMs, timerArmed := true,
            forceAt := s.now + timeoutMs,
            phase := if hasServer then ClosingServer else Waiting, deadline := s.now + timeoutMs)
  }

  /** The deadline is computed only now, so it is no earlier than the force timer. */
  function AfterServer(s: State): State {
    if s.phase == ClosingServer then s.(phase := Waiting, deadline := s.now + s.timeout) else s
  }

  function PollRequests(s: State): State {
    if s.phase != Waiting || (s.inFlight > 0 && s.now < s.deadline) then s else s.(phase := Cleaning(0))
  }

  function RunTask(s: State): State {
    if !s.phase.Cleaning? then s
    else if s.phase.k < |s.tasks| then s.(ran := s.ran + [s.tasks[s.phase.k]], phase := Cleaning(s.phase.k + 1))
    else s.(timerArmed := false, status := Closed, phase := Done, exits := if s.forced then s.exits else s.exits + [0])
  }

  function Fire(s: State): State {
    if !s.timerArmed || s.now < s.forceAt then s
    else s.(timerArmed := false, forced := true, exits := s.exits + [1])
  }

  function Alive(s: State, a: Action): State {
    match a
    case Register(task) => s.(tasks := s.tasks + [task])
    case Request(id) => Accept(s, id)
    case ResponseEvent(id) => Release(s, id)
    case Signal(hasServer, timeoutMs) => Begin(s, hasServer, timeoutMs)
    case ServerClosed => AfterServer(s)
    case Poll => PollRequests(s)
    case NextTask => RunTask(s)
    case TimerFires => Fire(s)
    case Tick(ms) => s.(now := s.now + ms)
  }

  function Step(s: State, a: Action): State {
    if Ended(s) then s else Alive(s, a)
  }

  function Run(s: State, actions: seq<Action>): State {
    if actions == [] then s else Step(Run(s, actions[..|actions| - 1]), actions[|actions| - 1])
  }

  /** The module's variables, the locals of runGracefulShutdown between its awaits, and what has been observed:
      the requests, the cleanups that ran, the exit calls. Each method is what runs without yielding. */
  class Coordinator {
    var inFlightRequests: int
    var shuttingDown: bool
    var status: Status
    var cleanupTasks: seq<string>
    var accepted: set<int>
    var released: set<int>
    var phase: Phase
    var deadline: int
    var forceAt: int
    var timerArmed: bool
    var forced: bool
    var ran: seq<string>
    var exits: seq<int>
    var now: int
    var timeout: nat
    const exitEnds: bool

    constructor (exitEnds: bool)
      ensures Value() == Start(exitEnds)
    {
      this.exitEnds, timeout := exitEnds, 0;
      inFlightRequests, shuttingDown, status, cleanupTasks, accepted, released := 0, false, Running, [], {}, {};
      phase, deadline, forceAt, timerArmed, forced, ran, exits, now := Idle, 0, 0, false, false, [], [], 0;
    }

    ghost function Value(): State
      reads this
    {
      State(exitEnds, timeout, accepted, released, inFlightRequests, shuttingDown, status, phase, cleanupTasks, ran,
            now, deadline, forceAt, timerArmed, forced, exits)
    }

    method RegisterCleanup(name: string)
      modifies this
      ensures Value() == Alive(old(Value()), Register(name))
    {
      cleanupTasks := cleanupTasks + [name];
    }

    /** True where the middleware calls next, false where it answers 503. */
    method TrackInFlightRequests(id: int) returns (next: bool)
      requires id !in accepted
      modifies this
      ensures Value() == Accept(old(Value()), id) && (next <==> old(status) == Running)
    {
      if status != Running {
        return false;
      }
      inFlightRequests := inFlightRequests + 1;
      accepted := accepted + {id};
      return true;
    }

    /** The release callback of an accepted request, on finish and on close. */
    method OnResponseEvent(id: int)
      requires id in accepted
      modifies this
      ensures Value() == Release(old(Value()), id)
    {
      if id in released {
        return;
      }
      released := released + {id};
      inFlightRequests := inFlightRequests - 1;
    }

    method ArmForceTimer(timeoutMs: nat)
      modifies this
      ensures Value() == old(Value()).(timeout := timeoutMs, timerArmed := true, forceAt := old(now) + timeoutMs)
    {
      timeout, forceAt, timerArmed := timeoutMs, now + timeoutMs, true;
    }

    /** runGracefulShutdown up to its first await. */
    method BeginShutdown(hasServer: bool, timeoutMs: nat)
      modifies this
      ensures Value() == Begin(old(Value()), hasServer, timeoutMs)
    {
      if shuttingDown {
        return;
      }
      ArmForceTimer(timeoutMs);
      shuttingDown, status := true, Draining;
      deadline := now + timeoutMs;
      phase := if hasServer then ClosingServer else Waiting;
    }

    method OnServerClosed()
      modifies this
      ensures Value() == AfterServer(old(Value()))
    {
      if phase == ClosingServer {
        phase, deadline := Waiting, now + timeout;
      }
    }

    /** One test of the wait loop. */
    method PollLoop()
      modifies this
      ensures Value() == PollRequests(old(Value()))
    {
      if phase == Waiting {
        if inFlightRequests > 0 && now < deadline {
          return;
        }
        phase := Cleaning(0);
      }
    }

    /** One turn of the cleanup loop, whose task may fail, or what follows the loop. */
    method CleanUpNext()
      modifies this
      ensures Value() == RunTask(old(Value()))
    {
      if phase.Cleaning? {
        if phase.k < |cleanupTasks| {
          ran := ran + [cleanupTasks[phase.k]];
          phase := Cleaning(phase.k + 1);
        } else {
          timerArmed, status, phase := false, Closed, Done;
          if !forced {
            exits := exits + [0];
          }
        }
      }
    }

    method OnForceTimer()
      modifies this
      ensures Value() == Fire(old(Value()))
    {
      if timerArmed && now >= forceAt {
        timerArmed, forced := false, true;
        exits := exits + [1];
      }
    }
  }

  // ---- What every interleaving keeps ----

  ghost predicate Inv(s: State) {
    && s.released <= s.accepted && s.inFlight == |s.accepted - s.released|
    && (s.status == Running <==> !s.shuttingDown) && (s.phase == Idle <==> !s.shuttingDown)
    && (s.status == Closed <==> s.phase == Done)
    && |s.ran| <= |s.tasks| && s.ran == s.tasks[..|s.ran|]
    && (s.phase.Cleaning? ==> |s.ran| == s.phase.k)
    && (s.ran != [] ==> s.phase.Cleaning? || s.phase.Done?)
    && (s.phase.Cleaning? || s.phase.Done? ==> s.inFlight == 0 || s.deadline <= s.now)
    && (s.forced ==> s.shuttingDown)
    && (s.shuttingDown ==> s.forceAt <= s.now + s.timeout && s.forceAt <= s.deadline)
    && s.exits == (if s.forced then [1] else if s.phase.Done? then [0] else [])
    && (s.timerArmed <==> s.shuttingDown && !s.forced && !s.phase.Done?)
  }

  lemma AcceptKeepsInv(s: State, id: int)
    requires Inv(s)
    ensures Inv(Accept(s, id))
  {
    if s.status == Running && id !in s.accepted {
      assert (s.accepted + {id}) - s.released == (s.accepted - s.released) + {id};
    }
  }

  lemma ReleaseKeepsInv(s: State, id: int)
    requires Inv(s)
    ensures Inv(Release(s, id))
  {
    if id in s.accepted && id !in s.released {
      assert s.accepted - (s.released + {id}) == (s.accepted - s.released) - {id};
    }
  }

  lemma TaskKeepsInv(s: State)
    requires Inv(s)
    ensures Inv(RunTask(s))
  {
    if s.phase.Cleaning? && s.phase.k < |s.tasks| {
      LongerPrefix(s.tasks, s.phase.k);
      assert |RunTask(s).ran| == s.phase.k + 1;
    } else if s.phase.Cleaning? {
      assert RunTask(s).ran == s.ran && [] + [0] == [0];
    }
  }

  lemma LongerPrefix(tasks: seq<string>, k: nat)
    requires k < |tasks|
    ensures tasks[..k] + [tasks[k]] == tasks[..k + 1]
  {
  }

  lemma StepKeepsInv(s: State, a: Action)
    requires Inv(s)
    ensures Inv(Step(s, a))
  {
    match a
    case Request(id) => AcceptKeepsInv(s, id);
    case ResponseEvent(id) => ReleaseKeepsInv(s, id);
    case Register(task) => assert (s.tasks + [task])[..|s.ran|] == s.tasks[..|s.ran|];
    case NextTask => TaskKeepsInv(s);
    case _ =>
  }

  lemma {:induction false} RunKeepsInv(s: State, actions: seq<Action>)
    requires Inv(s)
    ensures Inv(Run(s, actions))
    decreases |actions|
  {
    if actions != [] {
      RunKeepsInv(s, actions[..|actions| - 1]);
      StepKeepsInv(Run(s, actions[..|actions| - 1]), actions[|actions| - 1]);
    }
  }

  /** In every interleaving from the start: the counter is the number of accepted requests not yet released,
      the cleanups that ran are the first registered ones in order and ran only with no request in flight or
      after the deadline, and exit is called at most once. */
  lemma EveryRunIsOrderly(exitEnds: bool, actions: seq<Action>)
    ensures var s := Run(Start(exitEnds), actions);
            && s.inFlight == |s.accepted - s.released|
            && s.ran <= s.tasks
            && (s.ran != [] ==> s.inFlight == 0 || s.deadline <= s.now)
            && |s.exits| <= 1
            && (s.status == Closed ==> |s.exits| == 1 && (s.exits == [0] <==> !s.forced))
            && (s.shuttingDown ==> s.forceAt <= s.deadline)
  {
    RunKeepsInv(Start(exitEnds), actions);
  }

  lemma DrainingStep(s: State, a: Action)
    requires Inv(s) && s.shuttingDown
    ensures Step(s, a).shuttingDown && Step(s, a).accepted == s.accepted && Step(s, a).inFlight <= s.inFlight
  {
  }

  /** Once a shutdown has begun no request is accepted and the counter never grows. */
  lemma {:induction false} NothingAcceptedWhileDraining(s: State, actions: seq<Action>)
    requires Inv(s) && s.shuttingDown
    ensures Run(s, actions).shuttingDown
    ensures Run(s, actions).accepted == s.accepted && Run(s, actions).inFlight <= s.inFlight
    decreases |actions|
  {
    if actions != [] {
      NothingAcceptedWhileDraining(s, actions[..|actions| - 1]);
      RunKeepsInv(s, actions[..|actions| - 1]);
      DrainingStep(Run(s, actions[..|actions| - 1]), actions[|actions| - 1]);
    }
  }

  /** A begun shutdown that has not exited can always still be ended by its force timer. */
  lemma ForceTimerEnds(s: State)
    requires Inv(s) && s.shuttingDown && s.exits == []
    ensures Run(s, [Tick(Until(s.now, s.forceAt)), TimerFires]).exits == [1]
  {
    RunTwo(s, Tick(Until(s.now, s.forceAt)), TimerFires);
  }

  function Until(now: int, time: int): nat {
    if time > now then time - now else 0
  }

  lemma RunTwo(s: State, a: Action, b: Action)
    ensures Run(s, [a, b]) == Step(Step(s, a), b)
  {
    assert [a, b][..1] == [a] && [a][..0] == [];
    assert Run(s, []) == s && Run(s, [a]) == Step(s, a);
  }

  lemma RunSnoc(s: State, actions: seq<Action>, a: Action)
    ensures Run(s, actions + [a]) == Step(Run(s, actions), a)
  {
    assert (actions + [a])[..|actions|] == actions;
  }

  lemma {:induction false} RunSplits(s: State, a: seq<Action>, b: seq<Action>)
    ensures Run(s, a + b) == Run(Run(s, a), b)
  {
    if b == [] {
      assert a + b == a;
    } else {
      var front, last := b[..|b| - 1], b[|b| - 1];
      RunSplits(s, a, front);
      RunSnoc(s, a + front, last);
      assert (a + front) + [last] == a + b;
    }
  }

  // ---- With a force timer that fires when it is due ----

  /** A due timer fires before anything else happens. */
  predicate Prompt(s: State, a: Action) {
    s.timerArmed && !Ended(s) ==>
      if s.now >= s.forceAt then a.TimerFires? else (a.Tick? ==> s.now + a.ms <= s.forceAt)
  }

  predicate PromptRun(s: State, actions: seq<Action>) {
    actions == [] ||
    (PromptRun(s, actions[..|actions| - 1]) && Prompt(Run(s, actions[..|actions| - 1]), actions[|actions| - 1]))
  }

  /** As the deadline is never earlier than the timer, cleanups run only after the count has reached 0. */
  ghost predicate OnTime(s: State) {
    && Inv(s) && s.exitEnds
    && (s.phase.Cleaning? || s.phase.Done? ==> s.inFlight == 0)
    && (s.phase.Done? ==> s.ran == s.tasks && s.exits == [0] && s.now < s.forceAt)
    && (s.exits == [1] ==> s.now >= s.forceAt)
  }

  lemma StepStaysOnTime(s: State, a: Action)
    requires OnTime(s) && Prompt(s, a)
    ensures OnTime(Step(s, a))
  {
    StepKeepsInv(s, a);
  }

  lemma {:induction false} RunStaysOnTime(actions: seq<Action>)
    requires PromptRun(Start(true), actions)
    ensures OnTime(Run(Start(true), actions))
    decreases |actions|
  {
    if actions != [] {
      RunStaysOnTime(actions[..|actions| - 1]);
      StepStaysOnTime(Run(Start(true), actions[..|actions| - 1]), actions[|actions| - 1]);
    }
  }

  /** When exit ends the process and the timer is prompt, a run that has exited did so with 0 if and only if it
      finished before the timer was due; and then no request was left and every registered cleanup had run. */
  lemma ExitZeroIff(actions: seq<Action>)
    requires PromptRun(Start(true), actions) && Run(Start(true), actions).exits != []
    ensures var s := Run(Start(true), actions);
            && (s.exits == [0] || s.exits == [1])
            && (s.exits == [0] <==> s.now < s.forceAt)
            && (s.exits == [0] ==> s.inFlight == 0 && s.ran == s.tasks)
  {
    RunStaysOnTime(actions);
  }

  /** A request that is never released keeps every cleanup from running, and the process from exiting with 0. */
  lemma HangingRequestStopsCleanup(actions: seq<Action>)
    requires PromptRun(Start(true), actions) && Run(Start(true), actions).inFlight > 0
    ensures var s := Run(Start(true), actions); s.ran == [] && 0 !in s.exits
  {
    RunStaysOnTime(actions);
  }

  /** One request hangs: the timer ends the process with a registered cleanup not run. */
  lemma HangingRun(timeoutMs: nat)
    ensures var actions := [Signal(false, timeoutMs), Tick(timeoutMs)] + [TimerFires, Poll];
            var s := Run(Start(true), [Register("db"), Request(1)] + actions);
            s.exits == [1] && s.tasks == ["db"] && s.ran == [] && s.inFlight == 1
  {
    var first, second := [Register("db"), Request(1)], [Signal(false, timeoutMs), Tick(timeoutMs)];
    var third := [TimerFires, Poll];
    RunSplits(Start(true), first, second + third);
    var s := OneTaskOneRequest();
    RunSplits(s, second, third);
    var t := SignalAndWait(s, timeoutMs);
    TimerEndsIt(t);
  }

  /** A late event loop instead polls after the deadline before it runs the timer: a cleanup starts with the
      request still in flight. */
  lemma LateLoopCleansUp(timeoutMs: nat)
    ensures var actions := [Signal(false, timeoutMs), Tick(timeoutMs)] + [Poll, NextTask];
            var s := Run(Start(true), [Register("db"), Request(1)] + actions);
            s.exits == [] && s.ran == ["db"] && s.inFlight == 1 && s.timerArmed && s.now >= s.forceAt
  {
    var first, second := [Register("db"), Request(1)], [Signal(false, timeoutMs), Tick(timeoutMs)];
    var third := [Poll, NextTask];
    RunSplits(Start(true), first, second + third);
    var s := OneTaskOneRequest();
    RunSplits(s, second, third);
    var t := SignalAndWait(s, timeoutMs);
    PollFirst(t);
  }

  lemma PollFirst(s: State)
    requires s.phase == Waiting && s.now >= s.deadline && s.exits == [] && s.tasks == ["db"] && s.ran == []
    ensures Run(s, [Poll, NextTask]) == s.(ran := ["db"], phase := Cleaning(1))
  {
    RunTwo(s, Poll, NextTask);
    assert [] + ["db"] == ["db"];
  }

  lemma OneTaskOneRequest() returns (s: State)
    ensures s == Run(Start(true), [Register("db"), Request(1)])
    ensures s.inFlight == 1 && s.tasks == ["db"] && s.status == Running && !s.shuttingDown && s.ran == []
    ensures s.exits == [] && s.exitEnds
  {
    RunTwo(Start(true), Register("db"), Request(1));
    s := Run(Start(true), [Register("db"), Request(1)]);
  }

  lemma SignalAndWait(s: State, timeoutMs: nat) returns (t: State)
    requires s.status == Running && !s.shuttingDown && s.exits == []
    ensures t == Run(s, [Signal(false, timeoutMs), Tick(timeoutMs)])
    ensures t.timerArmed && t.now >= t.forceAt && t.exits == [] && t.exitEnds == s.exitEnds
    ensures t.phase == Waiting && t.now >= t.deadline
    ensures t.tasks == s.tasks && t.ran == s.ran && t.inFlight == s.inFlight
  {
    RunTwo(s, Signal(false, timeoutMs), Tick(timeoutMs));
    t := Run(s, [Signal(false, timeoutMs), Tick(timeoutMs)]);
  }

  lemma TimerEndsIt(s: State)
    requires s.timerArmed && s.now >= s.forceAt && s.exits == [] && s.exitEnds
    ensures var t := Run(s, [TimerFires, Poll]); t == s.(exits := [1], forced := true, timerArmed := t.timerArmed)
  {
    RunTwo(s, TimerFires, Poll);
  }

  function Sum(durations: seq<nat>): nat {
    if durations == [] then 0 else durations[0] + Sum(durations[1..])
  }

  /** The cleanup loop with tasks that take these times, under a prompt timer. */
  function Schedule(now: int, forceAt: int, durations: seq<nat>): seq<Action>
    requires now < forceAt
    decreases |durations|
  {
    if durations == [] then [NextTask]
    else if now + durations[0] < forceAt then
      [NextTask, Tick(durations[0])] + Schedule(now + durations[0], forceAt, durations[1..])
    else [NextTask, Tick(forceAt - now)] + [TimerFires]
  }

  ghost predicate Ready(s: State, durations: seq<nat>) {
    && Inv(s) && s.phase.Cleaning? && s.exits == [] && s.now < s.forceAt
    && s.phase.k + |durations| == |s.tasks|
  }

  lemma TaskTakes(s: State, durations: seq<nat>, ms: nat)
    requires Ready(s, durations) && durations != []
    ensures var t := Run(s, [NextTask, Tick(ms)]);
            && t == s.(ran := s.ran + [s.tasks[s.phase.k]], phase := Cleaning(s.phase.k + 1), now := s.now + ms)
            && Inv(t)
  {
    RunTwo(s, NextTask, Tick(ms));
    RunKeepsInv(s, [NextTask, Tick(ms)]);
  }

  lemma RunOne(s: State, a: Action)
    ensures Run(s, [a]) == Step(s, a)
  {
    assert [a][..0] == [] && Run(s, []) == s;
  }

  lemma LastTurn(s: State)
    requires Ready(s, [])
    ensures var t := Run(s, [NextTask]); t.exits == [0] && t.ran == s.tasks && t.tasks == s.tasks
  {
    RunOne(s, NextTask);
    assert s.ran == s.tasks[..|s.tasks|] == s.tasks;
  }

  lemma TaskTakesTooLong(s: State, durations: seq<nat>)
    requires Ready(s, durations) && durations != []
    ensures var t := Run(s, [NextTask, Tick(s.forceAt - s.now)] + [TimerFires]); t.exits == [1] && t.tasks == s.tasks
  {
    var wait := s.forceAt - s.now;
    TaskTakes(s, durations, wait);
    RunSplits(s, [NextTask, Tick(wait)], [TimerFires]);
    RunOne(Run(s, [NextTask, Tick(wait)]), TimerFires);
  }

  lemma TaskInTime(s: State, durations: seq<nat>) returns (t: State)
    requires Ready(s, durations) && durations != [] && s.now + durations[0] < s.forceAt
    ensures t == Run(s, [NextTask, Tick(durations[0])])
    ensures Ready(t, durations[1..]) && t.now == s.now + durations[0] && t.forceAt == s.forceAt && t.tasks == s.tasks
  {
    TaskTakes(s, durations, durations[0]);
    t := Run(s, [NextTask, Tick(durations[0])]);
  }

  lemma RunGoesOn(s: State, first: seq<Action>, t: State, rest: seq<Action>, whole: seq<Action>)
    requires whole == first + rest && t == Run(s, first)
    ensures Run(s, whole) == Run(t, rest)
  {
    RunSplits(s, first, rest);
  }

  lemma OneTurn(s: State, durations: seq<nat>, t: State, rest: seq<Action>) returns (actions: seq<Action>)
    requires durations != [] && s.now + durations[0] < s.forceAt && t == Run(s, [NextTask, Tick(durations[0])])
    requires rest == Schedule(s.now + durations[0], s.forceAt, durations[1..])
    ensures actions == Schedule(s.now, s.forceAt, durations) && Run(s, actions) == Run(t, rest)
  {
    actions := [NextTask, Tick(durations[0])] + rest;
    RunGoesOn(s, [NextTask, Tick(durations[0])], t, rest, actions);
  }

  /** How the loop must end with this much work left. */
  predicate EndsAs(t: State, tasks: seq<string>, finish: int, forceAt: int) {
    if finish < forceAt then t.exits == [0] && t.ran == tasks else t.exits == [1]
  }

  lemma {:induction false} CleaningOutcome(s: State, durations: seq<nat>) returns (actions: seq<Action>, end: State)
    requires Ready(s, durations)
    ensures actions == Schedule(s.now, s.forceAt, durations) && end == Run(s, actions)
    ensures EndsAs(end, s.tasks, s.now + Sum(durations), s.forceAt)
    decreases |durations|
  {
    if durations == [] {
      LastTurn(s);
      actions := [NextTask];
      end := Run(s, actions);
    } else if s.now + durations[0] < s.forceAt {
      var t := TaskInTime(s, durations);
      var rest;
      rest, end := CleaningOutcome(t, durations[1..]);
      actions := OneTurn(s, durations, t, rest);
    } else {
      TaskTakesTooLong(s, durations);
      actions := [NextTask, Tick(s.forceAt - s.now)] + [TimerFires];
      end := Run(s, actions);
    }
  }

  lemma {:induction false} PromptSplits(s: State, a: seq<Action>, b: seq<Action>)
    ensures PromptRun(s, a + b) <==> PromptRun(s, a) && PromptRun(Run(s, a), b)
  {
    if b == [] {
      assert a + b == a;
    } else {
      var front, last := b[..|b| - 1], b[|b| - 1];
      PromptSplits(s, a, front);
      RunSplits(s, a, front);
      assert (a + b)[..|a + b| - 1] == a + front;
    }
  }

  lemma PromptOne(s: State, a: Action)
    ensures PromptRun(s, [a]) <==> Prompt(s, a)
  {
    assert [a][..0] == [] && Run(s, []) == s;
  }

  lemma PromptTwo(s: State, a: Action, b: Action)
    ensures PromptRun(s, [a, b]) <==> Prompt(s, a) && Prompt(Step(s, a), b)
  {
    assert [a, b] == [a] + [b];
    PromptSplits(s, [a], [b]);
    PromptOne(s, a);
    PromptOne(Step(s, a), b);
    RunOne(s, a);
  }

  lemma TurnIsPrompt(s: State, durations: seq<nat>, ms: nat)
    requires Ready(s, durations) && durations != [] && s.now + ms <= s.forceAt
    ensures PromptRun(s, [NextTask, Tick(ms)])
  {
    PromptTwo(s, NextTask, Tick(ms));
  }

  lemma ScheduleGoesOn(now: int, forceAt: int, durations: seq<nat>, rest: seq<Action>) returns (actions: seq<Action>)
    requires now < forceAt && durations != [] && now + durations[0] < forceAt
    requires rest == Schedule(now + durations[0], forceAt, durations[1..])
    ensures actions == [NextTask, Tick(durations[0])] + rest && actions == Schedule(now, forceAt, durations)
  {
    actions := [NextTask, Tick(durations[0])] + rest;
  }

  lemma PromptGoesOn(s: State, first: seq<Action>, t: State, rest: seq<Action>, whole: seq<Action>)
    requires whole == first + rest && t == Run(s, first) && PromptRun(s, first) && PromptRun(t, rest)
    ensures PromptRun(s, whole)
  {
    PromptSplits(s, first, rest);
  }

  lemma TurnThenRest(s: State, durations: seq<nat>, t: State, rest: seq<Action>) returns (actions: seq<Action>)
    requires Ready(s, durations) && durations != [] && s.now + durations[0] < s.forceAt
    requires t == Run(s, [NextTask, Tick(durations[0])]) && PromptRun(t, rest)
    requires rest == Schedule(s.now + durations[0], s.forceAt, durations[1..])
    ensures actions == Schedule(s.now, s.forceAt, durations) && PromptRun(s, actions)
  {
    actions := ScheduleGoesOn(s.now, s.forceAt, durations, rest);
    TurnIsPrompt(s, durations, durations[0]);
    PromptGoesOn(s, [NextTask, Tick(durations[0])], t, rest, actions);
  }

  lemma TooLongIsPrompt(s: State, durations: seq<nat>) returns (actions: seq<Action>)
    requires Ready(s, durations) && durations != [] && s.now + durations[0] >= s.forceAt
    ensures actions == Schedule(s.now, s.forceAt, durations) && PromptRun(s, actions)
  {
    var wait := s.forceAt - s.now;
    actions := [NextTask, Tick(wait)] + [TimerFires];
    TurnIsPrompt(s, durations, wait);
    TaskTakes(s, durations, wait);
    PromptOne(Run(s, [NextTask, Tick(wait)]), TimerFires);
    PromptSplits(s, [NextTask, Tick(wait)], [TimerFires]);
  }

  lemma LastIsPrompt(s: State) returns (actions: seq<Action>)
    requires Ready(s, [])
    ensures actions == Schedule(s.now, s.forceAt, []) && PromptRun(s, actions)
  {
    actions := [NextTask];
    PromptOne(s, NextTask);
  }

  /** The schedule lets a due timer fire first. */
  lemma {:induction false} ScheduleIsPrompt(s: State, durations: seq<nat>) returns (actions: seq<Action>)
    requires Ready(s, durations)
    ensures actions == Schedule(s.now, s.forceAt, durations) && PromptRun(s, actions)
    decreases |durations|, 1
  {
    if durations == [] {
      actions := LastIsPrompt(s);
    } else if s.now + durations[0] < s.forceAt {
      actions := InTimeIsPrompt(s, durations);
    } else {
      actions := TooLongIsPrompt(s, durations);
    }
  }

  lemma {:induction false} InTimeIsPrompt(s: State, durations: seq<nat>) returns (actions: seq<Action>)
    requires Ready(s, durations) && durations != [] && s.now + durations[0] < s.forceAt
    ensures actions == Schedule(s.now, s.forceAt, durations) && PromptRun(s, actions)
    decreases |durations|, 0
  {
    var t := TaskInTime(s, durations);
    var rest := ScheduleIsPrompt(t, durations[1..]);
    actions := TurnThenRest(s, durations, t, rest);
  }

  /** From the wait loop with no request left, before the timer is due, in a run where a due timer fires first:
      every registered cleanup runs and the process exits with 0 if and only if the cleanups take less than the time
      left to the timer. */
  lemma DrainingCompletes(s: State, durations: seq<nat>)
    requires Inv(s) && s.phase == Waiting && s.inFlight == 0 && s.exits == [] && s.now < s.forceAt
    requires |durations| == |s.tasks|
    ensures PromptRun(s, [Poll] + Schedule(s.now, s.forceAt, durations))
    ensures EndsAs(Run(s, [Poll] + Schedule(s.now, s.forceAt, durations)), s.tasks, s.now + Sum(durations), s.forceAt)
  {
    RunOne(s, Poll);
    StepKeepsInv(s, Poll);
    var t := Step(s, Poll);
    var rest, end := CleaningOutcome(t, durations);
    RunGoesOn(s, [Poll], t, rest, [Poll] + rest);
    PromptOne(s, Poll);
    var _ := ScheduleIsPrompt(t, durations);
    PromptSplits(s, [Poll], rest);
  }

  lemma RunThree(s: State, a: Action, b: Action, c: Action)
    ensures Run(s, [a, b, c]) == Step(Step(Step(s, a), b), c)
  {
    RunTwo(s, a, b);
    RunSnoc(s, [a, b], c);
    assert [a, b] + [c] == [a, b, c];
  }

  /** Once the server has closed, a request that stays in flight is waited for during one whole timeout: the first
      cleanup is due exactly then, however long the closing took. */
  lemma WaitLastsTimeout(s: State, ms: nat)
    requires Inv(s) && s.phase == ClosingServer && s.inFlight > 0 && !Ended(s)
    ensures Run(s, [ServerClosed, Tick(ms), Poll]).phase == (if ms >= s.timeout then Cleaning(0) else Waiting)
  {
    RunThree(s, ServerClosed, Tick(ms), Poll);
  }

  /** The whole way from a closed server: with no request left, before the timer is due, every registered cleanup
      runs and the process exits with 0 if and only if the cleanups take less than the time left. */
  lemma ServerClosesThenDrains(s: State, durations: seq<nat>)
    requires Inv(s) && s.phase == ClosingServer && s.inFlight == 0 && s.exits == [] && s.now < s.forceAt
    requires |durations| == |s.tasks|
    ensures var rest := [Poll] + Schedule(s.now, s.forceAt, durations);
            && PromptRun(s, [ServerClosed] + rest)
            && EndsAs(Run(s, [ServerClosed] + rest), s.tasks, s.now + Sum(durations), s.forceAt)
  {
    RunOne(s, ServerClosed);
    StepKeepsInv(s, ServerClosed);
    var t := Step(s, ServerClosed);
    var rest := [Poll] + Schedule(t.now, t.forceAt, durations);
    DrainingCompletes(t, durations);
    RunGoesOn(s, [ServerClosed], t, rest, [ServerClosed] + rest);
    PromptOne(s, ServerClosed);
    PromptSplits(s, [ServerClosed], rest);
  }

  lemma SignalArmsTimer(s: State, hasServer: bool, timeoutMs: nat) returns (t: State)
    requires Inv(s) && s.status == Running
    ensures t == Step(s, Signal(hasServer, timeoutMs))
    ensures t.timerArmed && t.forceAt == t.now + timeoutMs && t.exits == []
  {
    t := Step(s, Signal(hasServer, timeoutMs));
  }

  lemma TimerAfter(s: State, ms: nat)
    requires s.timerArmed && s.exits == []
    ensures Step(Step(s, Tick(ms)), TimerFires).exits == if s.now + ms >= s.forceAt then [1] else []
  {
    assert [] + [1] == [1];
  }

  /** The force timer ends a shutdown exactly when a whole timeout has passed since the signal. */
  lemma ForceTimerWaitsTimeout(s: State, hasServer: bool, timeoutMs: nat, ms: nat)
    requires Inv(s) && s.status == Running
    ensures Run(s, [Signal(hasServer, timeoutMs), Tick(ms), TimerFires]).exits == if ms >= timeoutMs then [1] else []
  {
    RunThree(s, Signal(hasServer, timeoutMs), Tick(ms), TimerFires);
    var t := SignalArmsTimer(s, hasServer, timeoutMs);
    TimerAfter(t, ms);
  }

  function Responses(ids: seq<int>): seq<Action> {
    if ids == [] then [] else Responses(ids[..|ids| - 1]) + [ResponseEvent(ids[|ids| - 1])]
  }

  function Members(ids: seq<int>): set<int> {
    set i | 0 <= i < |ids| :: ids[i]
  }

  lemma MembersSnoc(ids: seq<int>)
    requires ids != []
    ensures Members(ids) == Members(ids[..|ids| - 1]) + {ids[|ids| - 1]}
  {
    var front := ids[..|ids| - 1];
    assert forall i :: 0 <= i < |front| ==> front[i] == ids[i];
    forall x | x in Members(ids)
      ensures x in Members(front) + {ids[|ids| - 1]}
    {
      var i :| 0 <= i < |ids| && ids[i] == x;
      if i < |front| {
        assert front[i] == x;
      }
    }
  }

  lemma OneRelease(s: State, id: int)
    ensures Release(s, id).released == s.released + {id} * s.accepted
    ensures Release(s, id) == s.(released := Release(s, id).released, inFlight := Release(s, id).inFlight)
  {
  }

  lemma OneResponse(s: State, id: int) returns (t: State)
    requires Inv(s) && !Ended(s)
    ensures t == Step(s, ResponseEvent(id)) && Inv(t) && !Ended(t) && t.accepted == s.accepted
    ensures t.released == s.released + {id} * s.accepted
  {
    t := Release(s, id);
    ReleaseKeepsInv(s, id);
    OneRelease(s, id);
  }

  lemma ReleasedMore(released: set<int>, front: set<int>, last: int, accepted: set<int>)
    ensures released + front * accepted + {last} * accepted == released + (front + {last}) * accepted
  {
  }

  lemma {:induction false} ResponsesRelease(s: State, ids: seq<int>)
    requires Inv(s) && !Ended(s)
    ensures var t := Run(s, Responses(ids));
            Inv(t) && !Ended(t) && t.accepted == s.accepted && t.released == s.released + Members(ids) * s.accepted
  {
    if ids != [] {
      var front, last := ids[..|ids| - 1], ids[|ids| - 1];
      ResponsesRelease(s, front);
      MembersSnoc(ids);
      RunSnoc(s, Responses(front), ResponseEvent(last));
      var after := OneResponse(Run(s, Responses(front)), last);
      ReleasedMore(s.released, Members(front), last, s.accepted);
    }
  }

  /** Finished and closed responses take exactly their own requests out of flight, each once however often it is
      reported; when every accepted request has been, none is left. */
  lemma ResponsesDrain(s: State, ids: seq<int>)
    requires Inv(s) && !Ended(s)
    ensures Run(s, Responses(ids)).inFlight == |s.accepted - s.released - Members(ids)|
    ensures s.accepted <= Members(ids) ==> Run(s, Responses(ids)).inFlight == 0
  {
    ResponsesRelease(s, ids);
    var t := Run(s, Responses(ids));
    assert t.accepted - t.released == s.accepted - s.released - Members(ids);
  }

  function Turns(n: nat): seq<Action> {
    if n == 0 then [] else Turns(n - 1) + [NextTask]
  }

  lemma OneTurnOn(s: State, t: State, k: nat)
    requires k < |s.tasks| && !s.exitEnds && t == s.(ran := s.tasks[..k], phase := Cleaning(k)) && Inv(t)
    ensures Step(t, NextTask) == s.(ran := s.tasks[..k + 1], phase := Cleaning(k + 1)) && Inv(Step(t, NextTask))
  {
    StepKeepsInv(t, NextTask);
    LongerPrefix(s.tasks, k);
  }

  /** The state after n turns of the cleanup loop. */
  function AfterTurns(s: State, n: nat): State {
    if n == 0 then s else Step(AfterTurns(s, n - 1), NextTask)
  }

  lemma {:induction false} TurnsAreRun(s: State, n: nat)
    ensures Run(s, Turns(n)) == AfterTurns(s, n)
  {
    if n > 0 {
      TurnsAreRun(s, n - 1);
      RunSnoc(s, Turns(n - 1), NextTask);
    }
  }

  lemma {:induction false} TurnsRunTasks(s: State, n: nat)
    requires Inv(s) && s.phase == Cleaning(0) && !s.exitEnds && n <= |s.tasks|
    ensures AfterTurns(s, n) == s.(ran := s.tasks[..n], phase := Cleaning(n)) && Inv(AfterTurns(s, n))
  {
    if n > 0 {
      TurnsRunTasks(s, n - 1);
      OneTurnOn(s, AfterTurns(s, n - 1), n - 1);
    }
  }

  lemma ForcedLastTurn(s: State)
    requires Inv(s) && !s.exitEnds && s.forced && s.phase == Cleaning(|s.tasks|)
    ensures var t := Step(s, NextTask); t.ran == s.ran && t.status == Closed && t.exits == [1]
  {
  }

  lemma ForcedPoll(s: State)
    requires Inv(s) && !s.exitEnds && s.phase == Waiting && s.now >= s.deadline
    ensures Step(s, Poll) == s.(phase := Cleaning(0)) && Inv(Step(s, Poll))
  {
    StepKeepsInv(s, Poll);
  }

  lemma ForcedTurns(s: State, t: State)
    requires Inv(s) && !s.exitEnds && s.forced && s.phase == Cleaning(0) && t == Run(s, Turns(|s.tasks| + 1))
    ensures t.ran == s.tasks && t.status == Closed && t.exits == [1]
  {
    var n := |s.tasks|;
    TurnsAreRun(s, n + 1);
    TurnsRunTasks(s, n);
    ForcedLastTurn(AfterTurns(s, n));
    assert s.tasks[..n] == s.tasks;
  }

  /** With an exit function that returns, a forced shutdown goes on: at the deadline every cleanup still runs, and
      exit is not called a second time. */
  lemma ForcedShutdownGoesOn(s: State)
    requires Inv(s) && !s.exitEnds && s.forced && s.phase == Waiting && s.now >= s.deadline
    ensures var t := Run(s, [Poll] + Turns(|s.tasks| + 1)); t.ran == s.tasks && t.status == Closed && t.exits == [1]
  {
    ForcedPoll(s);
    RunOne(s, Poll);
    RunSplits(s, [Poll], Turns(|s.tasks| + 1));
    ForcedTurns(Step(s, Poll), Run(s, [Poll] + Turns(|s.tasks| + 1)));
  }
}
