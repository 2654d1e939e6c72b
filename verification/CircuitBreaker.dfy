/** The circuit breaker of backend/lib/circuitBreaker.js: its state changes, and every interleaving
    of overlapping execute calls. */
module CircuitBreaker {
  datatype State = CLOSED | OPEN | HALF_OPEN

  datatype Options = Options(failureThreshold: int, successThreshold: int, timeout: int, windowSize: int) {
    predicate Valid() { failureThreshold >= 1 && successThreshold >= 1 && timeout >= 0 && windowSize >= 0 }
  }

  const DEFAULT_OPTIONS := Options(5, 2, 30_000, 10_000)

  lemma DefaultsAreValid()
    ensures DEFAULT_OPTIONS.Valid()
  {
  }

  datatype Breaker = Breaker(state: State, failures: seq<int>, successCount: int, nextAttemptAt: int)

  const FRESH := Breaker(CLOSED, [], 0, 0)

  /** The timestamps after a cutoff, in order. */
  function Later(times: seq<int>, cutoff: int): seq<int> {
    if times == [] then []
    else Later(times[..|times| - 1], cutoff) + (if times[|times| - 1] > cutoff then [times[|times| - 1]] else [])
  }

  /** The failures inside the sliding window at a clock reading. */
  function InWindow(times: seq<int>, o: Options, now: int): seq<int> {
    Later(times, now - o.windowSize)
  }

  // ---- The private methods, on values ----

  function TransitionTo(b: Breaker, o: Options, newState: State, now: int): Breaker {
    if b.state == newState then b
    else
      match newState
      case OPEN => b.(state := OPEN, nextAttemptAt := now + o.timeout, successCount := 0)
      case HALF_OPEN => b.(state := HALF_OPEN, successCount := 0)
      case CLOSED => Breaker(CLOSED, [], 0, 0)
  }

  function Prune(b: Breaker, o: Options, now: int): Breaker {
    b.(failures := InWindow(b.failures, o, now))
  }

  /** The start of execute: whether the call is admitted. */
  function Begin(b: Breaker, o: Options, now: int): (Breaker, bool) {
    var b1 := if b.state == OPEN && now >= b.nextAttemptAt then TransitionTo(b, o, HALF_OPEN, now) else b;
    (b1, b1.state != OPEN)
  }

  function OnSuccess(b: Breaker, o: Options, now: int): Breaker {
    if b.state == HALF_OPEN then
      var b1 := b.(successCount := b.successCount + 1);
      if b1.successCount >= o.successThreshold then TransitionTo(b1, o, CLOSED, now) else b1
    else Prune(b, o, now)
  }

  function OnFailure(b: Breaker, o: Options, now: int): Breaker {
    var b1 := Prune(b.(failures := b.failures + [now]), o, now);
    if b1.state == HALF_OPEN || |b1.failures| >= o.failureThreshold then TransitionTo(b1, o, OPEN, now) else b1
  }

  function Reset(b: Breaker, o: Options, now: int): Breaker {
    TransitionTo(b, o, CLOSED, now).(failures := [], successCount := 0)
  }

  // ---- The object ----

  class Circuit {
    var state: State
    var failureTimestamps: seq<int>
    var successCount: int
    var nextAttemptAt: int
    const opts: Options

    constructor (opts: Options)
      ensures this.opts == opts && Value() == FRESH
    {
      this.opts := opts;
      state, failureTimestamps, successCount, nextAttemptAt := CLOSED, [], 0, 0;
    }

    ghost function Value(): Breaker
      reads this
    {
      Breaker(state, failureTimestamps, successCount, nextAttemptAt)
    }

    method MoveTo(newState: State, now: int)
      modifies this
      ensures Value() == TransitionTo(old(Value()), opts, newState, now)
    {
      if state == newState {
        return;
      }
      state := newState;
      if newState == OPEN {
        nextAttemptAt := now + opts.timeout;
        successCount := 0;
      } else if newState == HALF_OPEN {
        successCount := 0;
      } else {
        failureTimestamps, successCount, nextAttemptAt := [], 0, 0;
      }
    }

    method PruneFailureWindow(now: int)
      modifies this
      ensures Value() == Prune(old(Value()), opts, now)
    {
      var cutoff := now - opts.windowSize;
      var kept := [];
      for i := 0 to |failureTimestamps|
        invariant kept == Later(failureTimestamps[..i], cutoff)
      {
        assert failureTimestamps[..i + 1][..i] == failureTimestamps[..i];
        if failureTimestamps[i] > cutoff {
          kept := kept + [failureTimestamps[i]];
        }
      }
      assert failureTimestamps[..|failureTimestamps|] == failureTimestamps;
      failureTimestamps := kept;
    }

    /** The part of execute before the protected call. */
    method Start(now: int) returns (admitted: bool)
      modifies this
      ensures (Value(), admitted) == Begin(old(Value()), opts, now)
    {
      if state == OPEN && now >= nextAttemptAt {
        MoveTo(HALF_OPEN, now);
      }
      admitted := state != OPEN;
    }

    method Succeeded(now: int)
      modifies this
      ensures Value() == OnSuccess(old(Value()), opts, now)
    {
      if state == HALF_OPEN {
        successCount := successCount + 1;
        if successCount >= opts.successThreshold {
          MoveTo(CLOSED, now);
        }
      } else {
        PruneFailureWindow(now);
      }
    }

    method Failed(now: int)
      modifies this
      ensures Value() == OnFailure(old(Value()), opts, now)
    {
      failureTimestamps := failureTimestamps + [now];
      PruneTwice(Value(), opts, now);
      PruneFailureWindow(now);
      if state == HALF_OPEN {
        MoveTo(OPEN, now);
      } else {
        var recent := CountRecentFailures(now);
        if recent >= opts.failureThreshold {
          MoveTo(OPEN, now);
        }
      }
    }

    method CountRecentFailures(now: int) returns (n: nat)
      modifies this
      ensures Value() == Prune(old(Value()), opts, now) && n == |failureTimestamps|
    {
      PruneFailureWindow(now);
      n := |failureTimestamps|;
    }

    method Clear(now: int)
      modifies this
      ensures Value() == Reset(old(Value()), opts, now)
    {
      MoveTo(CLOSED, now);
      failureTimestamps, successCount := [], 0;
    }
  }

  // ---- Overlapping calls ----

  /** `history` lists every failure since the last entry to CLOSED or reset; `started` counts the
      calls ever admitted and `inFlight` those not yet completed. */
  datatype Sys = Sys(b: Breaker, history: seq<int>, now: int, started: nat, inFlight: nat)

  datatype Action = Call | Complete(ok: bool) | ResetNow | Snapshot | Advance(dt: nat)

  const START := Sys(FRESH, [], 0, 0, 0)

  function NextHistory(before: Breaker, after: Breaker, history: seq<int>): seq<int> {
    if before.state != CLOSED && after.state == CLOSED then [] else history
  }

  /** `Snapshot` is toJSON, which prunes. A completion needs a call in flight. */
  function Step(s: Sys, o: Options, a: Action): Sys {
    match a
    case Call =>
      var (b, admitted) := Begin(s.b, o, s.now);
      if admitted then s.(b := b, started := s.started + 1, inFlight := s.inFlight + 1) else s.(b := b)
    case Complete(ok) =>
      if s.inFlight == 0 then s
      else if ok then
        var b := OnSuccess(s.b, o, s.now);
        s.(b := b, history := NextHistory(s.b, b, s.history), inFlight := s.inFlight - 1)
      else s.(b := OnFailure(s.b, o, s.now), history := s.history + [s.now], inFlight := s.inFlight - 1)
    case ResetNow => s.(b := Reset(s.b, o, s.now), history := [])
    case Snapshot => s.(b := Prune(s.b, o, s.now))
    case Advance(dt) => s.(now := s.now + dt)
  }

  function Run(s: Sys, o: Options, actions: seq<Action>): Sys
    decreases |actions|
  {
    if actions == [] then s else Run(Step(s, o, actions[0]), o, actions[1..])
  }

  lemma {:induction false} LaterTwice(times: seq<int>, first: int, second: int)
    requires first <= second
    ensures Later(Later(times, first), second) == Later(times, second)
  {
    if times != [] {
      var front, last := times[..|times| - 1], times[|times| - 1];
      LaterTwice(front, first, second);
      var kept := Later(times, first);
      if last > first {
        assert kept[..|kept| - 1] == Later(front, first);
      } else {
        assert kept == Later(front, first);
      }
    }
  }

  lemma LaterSnoc(times: seq<int>, t: int, cutoff: int)
    ensures Later(times + [t], cutoff) == Later(times, cutoff) + (if t > cutoff then [t] else [])
  {
    assert (times + [t])[..|times|] == times;
  }

  lemma PruneTwice(b: Breaker, o: Options, now: int)
    ensures Prune(Prune(b, o, now), o, now) == Prune(b, o, now)
  {
    LaterTwice(b.failures, now - o.windowSize, now - o.windowSize);
  }

  /** From now on the stored list and the full history have the same failures in the window. */
  ghost predicate SameWindow(stored: seq<int>, history: seq<int>, o: Options, now: int) {
    forall t :: t >= now ==> InWindow(stored, o, t) == InWindow(history, o, t)
  }

  ghost predicate BreakerInv(b: Breaker, o: Options) {
    && (b.state == CLOSED ==> |b.failures| < o.failureThreshold && b.nextAttemptAt == 0)
    && (if b.state == HALF_OPEN then 0 <= b.successCount < o.successThreshold else b.successCount == 0)
  }

  ghost predicate Inv(s: Sys, o: Options) {
    BreakerInv(s.b, o) && SameWindow(s.b.failures, s.history, o, s.now)
  }

  lemma PruneKeepsWindow(stored: seq<int>, history: seq<int>, o: Options, now: int)
    requires SameWindow(stored, history, o, now)
    ensures SameWindow(InWindow(stored, o, now), history, o, now)
  {
    forall t | t >= now
      ensures InWindow(InWindow(stored, o, now), o, t) == InWindow(history, o, t)
    {
      LaterTwice(stored, now - o.windowSize, t - o.windowSize);
      assert InWindow(stored, o, t) == InWindow(history, o, t);
    }
  }

  lemma PushKeepsWindow(stored: seq<int>, history: seq<int>, o: Options, now: int)
    requires SameWindow(stored, history, o, now)
    ensures SameWindow(stored + [now], history + [now], o, now)
  {
    forall t | t >= now
      ensures InWindow(stored + [now], o, t) == InWindow(history + [now], o, t)
    {
      assert InWindow(stored, o, t) == InWindow(history, o, t);
      LaterSnoc(stored, now, t - o.windowSize);
      LaterSnoc(history, now, t - o.windowSize);
    }
  }

  lemma {:induction false} LaterShrinks(times: seq<int>, cutoff: int)
    ensures |Later(times, cutoff)| <= |times|
  {
    if times != [] {
      LaterShrinks(times[..|times| - 1], cutoff);
    }
  }

  lemma SuccessKeepsInv(b: Breaker, history: seq<int>, o: Options, now: int)
    requires o.Valid() && BreakerInv(b, o) && SameWindow(b.failures, history, o, now)
    ensures var after := OnSuccess(b, o, now);
            BreakerInv(after, o) && SameWindow(after.failures, NextHistory(b, after, history), o, now)
  {
    PruneKeepsWindow(b.failures, history, o, now);
    LaterShrinks(b.failures, now - o.windowSize);
  }

  lemma FailureKeepsInv(b: Breaker, history: seq<int>, o: Options, now: int)
    requires o.Valid() && BreakerInv(b, o) && SameWindow(b.failures, history, o, now)
    ensures var after := OnFailure(b, o, now);
            BreakerInv(after, o) && SameWindow(after.failures, history + [now], o, now)
  {
    PushKeepsWindow(b.failures, history, o, now);
    PruneKeepsWindow(b.failures + [now], history + [now], o, now);
  }

  lemma StepKeepsInv(s: Sys, o: Options, a: Action)
    requires o.Valid() && Inv(s, o)
    ensures Inv(Step(s, o, a), o)
  {
    match a
    case Complete(ok) =>
      if s.inFlight > 0 {
        if ok { SuccessKeepsInv(s.b, s.history, o, s.now); } else { FailureKeepsInv(s.b, s.history, o, s.now); }
      }
    case Snapshot =>
      PruneKeepsWindow(s.b.failures, s.history, o, s.now);
      LaterShrinks(s.b.failures, s.now - o.windowSize);
    case _ =>
  }

  /** In every run of overlapping calls: the pruned list counts the same failures in the window as the
      full history, CLOSED means fewer than failureThreshold stored failures, HALF_OPEN means fewer
      than successThreshold successes, and every other state means none. */
  lemma {:induction false} RunKeepsInv(s: Sys, o: Options, actions: seq<Action>)
    requires o.Valid() && Inv(s, o)
    ensures Inv(Run(s, o, actions), o)
    decreases |actions|
  {
    if actions != [] {
      StepKeepsInv(s, o, actions[0]);
      RunKeepsInv(Step(s, o, actions[0]), o, actions[1..]);
    }
  }

  /** A closed breaker opens at a failure exactly when the full history holds failureThreshold
      failures inside the window. */
  lemma OpensExactlyAtThreshold(o: Options, actions: seq<Action>)
    requires o.Valid()
    ensures var s := Run(START, o, actions);
            s.b.state == CLOSED && s.inFlight > 0 ==>
              (Step(s, o, Complete(false)).b.state == OPEN
               <==> |InWindow(s.history + [s.now], o, s.now)| >= o.failureThreshold)
  {
    var s := Run(START, o, actions);
    RunKeepsInv(START, o, actions);
    PushKeepsWindow(s.b.failures, s.history, o, s.now);
    assert InWindow(s.b.failures + [s.now], o, s.now) == InWindow(s.history + [s.now], o, s.now);
  }

  lemma {:induction false} TimeMovesForward(s: Sys, o: Options, actions: seq<Action>)
    ensures s.now <= Run(s, o, actions).now
    decreases |actions|
  {
    if actions != [] {
      TimeMovesForward(Step(s, o, actions[0]), o, actions[1..]);
    }
  }

  /** Between opening and nextAttemptAt no call starts and nothing but a reset closes the breaker,
      whatever late calls complete. */
  lemma {:induction false} OpenAdmitsNothing(s: Sys, o: Options, actions: seq<Action>)
    requires s.b.state == OPEN && Run(s, o, actions).now < s.b.nextAttemptAt
    requires forall i :: 0 <= i < |actions| ==> !actions[i].ResetNow?
    ensures var s' := Run(s, o, actions);
            s'.b.state == OPEN && s'.b.nextAttemptAt == s.b.nextAttemptAt && s'.started == s.started
    decreases |actions|
  {
    if actions != [] {
      var s1 := Step(s, o, actions[0]);
      TimeMovesForward(s1, o, actions[1..]);
      TimeMovesForward(s, o, actions);
      OpenAdmitsNothing(s1, o, actions[1..]);
    }
  }

  /** n calls that succeed one after another. */
  function Successes(n: nat): seq<Action> {
    if n == 0 then [] else [Call, Complete(true)] + Successes(n - 1)
  }

  lemma {:induction false} SuccessesClose(s: Sys, o: Options, n: nat)
    requires o.Valid() && s.b.state == HALF_OPEN && s.b.successCount + n == o.successThreshold && n >= 1
    ensures Run(s, o, Successes(n)).b == FRESH
    decreases n
  {
    var actions := Successes(n);
    assert actions[1..] == [Complete(true)] + Successes(n - 1) && actions[1..][1..] == Successes(n - 1);
    var s2 := Step(Step(s, o, Call), o, Complete(true));
    assert Run(s, o, actions) == Run(Step(s, o, Call), o, actions[1..]) == Run(s2, o, actions[1..][1..]);
    if n > 1 {
      SuccessesClose(s2, o, n - 1);
    }
  }

  /** An open breaker whose wait is over recovers through execute: exactly successThreshold
      successful calls close it and clear its failures. */
  lemma RecoversAfterTimeout(s: Sys, o: Options)
    requires o.Valid() && s.b.state == OPEN && s.now >= s.b.nextAttemptAt
    ensures Run(s, o, Successes(o.successThreshold)).b == FRESH
  {
    var half := s.(b := TransitionTo(s.b, o, HALF_OPEN, s.now));
    var actions := Successes(o.successThreshold);
    assert Step(s, o, Call) == Step(half, o, Call);
    assert Run(s, o, actions) == Run(half, o, actions);
    SuccessesClose(half, o, o.successThreshold);
  }

  /** HALF_OPEN puts no limit on the calls it lets through. */
  lemma {:induction false} HalfOpenAdmitsAll(s: Sys, o: Options, n: nat)
    requires s.b.state == HALF_OPEN
    ensures Run(s, o, seq(n, _ => Call)) == s.(started := s.started + n, inFlight := s.inFlight + n)
    decreases n
  {
    if n > 0 {
      assert seq(n, _ => Call)[1..] == seq(n - 1, _ => Call);
      HalfOpenAdmitsAll(Step(s, o, Call), o, n - 1);
    }
  }

  // ---- The window, element by element ----

  /** Pruning keeps the order: it may be done part by part. */
  lemma {:induction false} LaterConcat(a: seq<int>, b: seq<int>, cutoff: int)
    ensures Later(a + b, cutoff) == Later(a, cutoff) + Later(b, cutoff)
  {
    if b == [] {
      assert a + b == a;
    } else {
      var front, last := b[..|b| - 1], b[|b| - 1];
      assert a + b == (a + front) + [last];
      LaterSnoc(a + front, last, cutoff);
      LaterConcat(a, front, cutoff);
    }
  }

  /** It keeps each timestamp after the cutoff as often as it was there and drops all others. */
  lemma {:induction false} LaterIsTheWindow(times: seq<int>, cutoff: int, t: int)
    ensures multiset(Later(times, cutoff))[t] == if t > cutoff then multiset(times)[t] else 0
  {
    if times != [] {
      var front, last := times[..|times| - 1], times[|times| - 1];
      LaterIsTheWindow(front, cutoff, t);
      assert times == front + [last];
    }
  }

  /** After a failure, after a success outside HALF_OPEN and after a snapshot, the stored list is exactly the part
      of the full history that lies inside the window. */
  lemma StoredIsTheWindow(o: Options, actions: seq<Action>, a: Action)
    requires o.Valid()
    ensures var s, s' := Run(START, o, actions), Step(Run(START, o, actions), o, a);
            && (a == Snapshot ==> s'.b.failures == InWindow(s.history, o, s.now))
            && (a == Complete(false) && s.inFlight > 0 ==> s'.b.failures == InWindow(s.history + [s.now], o, s.now))
            && (a == Complete(true) && s.inFlight > 0 && s.b.state != HALF_OPEN ==>
                  s'.b.failures == InWindow(s.history, o, s.now))
  {
    var s := Run(START, o, actions);
    RunKeepsInv(START, o, actions);
    PushKeepsWindow(s.b.failures, s.history, o, s.now);
    assert InWindow(s.b.failures, o, s.now) == InWindow(s.history, o, s.now);
    assert InWindow(s.b.failures + [s.now], o, s.now) == InWindow(s.history + [s.now], o, s.now);
  }

  /** A reset in any reachable state leaves the breaker as it was made. */
  lemma ResetMakesFresh(o: Options, actions: seq<Action>)
    requires o.Valid()
    ensures Step(Run(START, o, actions), o, ResetNow).b == FRESH
  {
    RunKeepsInv(START, o, actions);
  }

  // ---- A breaker that remembers everything ----

  /** The breaker of the module comment: a closed one with every failure since it closed, an open one
      with the reading at which it opened, a half-open one with its successes. */
  datatype Simple = Closed(failures: seq<int>) | Opened(at: int) | HalfOpen(successes: nat)

  function CountAfter(times: seq<int>, cutoff: int): nat {
    if times == [] then 0 else (if times[0] > cutoff then 1 else 0) + CountAfter(times[1..], cutoff)
  }

  predicate Admits(b: Simple, o: Options, now: int) {
    b.Opened? ==> now >= b.at + o.timeout
  }

  function SimpleFailure(b: Simple, o: Options, now: int): Simple {
    match b
    case Closed(failures) =>
      if CountAfter(failures + [now], now - o.windowSize) >= o.failureThreshold then Opened(now)
      else Closed(failures + [now])
    case Opened(_) => b
    case HalfOpen(_) => Opened(now)
  }

  function SimpleSuccess(b: Simple, o: Options): Simple {
    if !b.HalfOpen? then b
    else if b.successes + 1 >= o.successThreshold then Closed([])
    else HalfOpen(b.successes + 1)
  }

  datatype SimpleSys = SimpleSys(b: Simple, now: int, started: nat, inFlight: nat)

  const SIMPLE_START := SimpleSys(Closed([]), 0, 0, 0)

  function SimpleStep(s: SimpleSys, o: Options, a: Action): SimpleSys {
    match a
    case Call =>
      if Admits(s.b, o, s.now)
      then s.(b := if s.b.Opened? then HalfOpen(0) else s.b, started := s.started + 1, inFlight := s.inFlight + 1)
      else s
    case Complete(ok) =>
      if s.inFlight == 0 then s
      else s.(b := if ok then SimpleSuccess(s.b, o) else SimpleFailure(s.b, o, s.now), inFlight := s.inFlight - 1)
    case ResetNow => s.(b := Closed([]))
    case Snapshot => s
    case Advance(dt) => s.(now := s.now + dt)
  }

  function SimpleRun(s: SimpleSys, o: Options, actions: seq<Action>): SimpleSys
    decreases |actions|
  {
    if actions == [] then s else SimpleRun(SimpleStep(s, o, actions[0]), o, actions[1..])
  }

  /** The stored list has the same failures in the window as the whole list, now and from now on. */
  ghost predicate Represents(b: Breaker, a: Simple, o: Options, now: int) {
    match b.state
    case CLOSED => a.Closed? && SameWindow(b.failures, a.failures, o, now)
    case OPEN => a.Opened? && b.nextAttemptAt == a.at + o.timeout
    case HALF_OPEN => a.HalfOpen? && b.successCount == a.successes
  }

  ghost predicate Refines(s: Sys, a: SimpleSys, o: Options) {
    Represents(s.b, a.b, o, s.now) && s.now == a.now && s.started == a.started && s.inFlight == a.inFlight
  }

  lemma {:induction false} CountAfterConcat(a: seq<int>, b: seq<int>, cutoff: int)
    ensures CountAfter(a + b, cutoff) == CountAfter(a, cutoff) + CountAfter(b, cutoff)
  {
    if a == [] {
      assert a + b == b;
    } else {
      assert (a + b)[1..] == a[1..] + b;
      CountAfterConcat(a[1..], b, cutoff);
    }
  }

  lemma {:induction false} LaterCounts(times: seq<int>, cutoff: int)
    ensures |Later(times, cutoff)| == CountAfter(times, cutoff)
  {
    if times != [] {
      var front, last := times[..|times| - 1], times[|times| - 1];
      LaterCounts(front, cutoff);
      assert times == front + [last];
      CountAfterConcat(front, [last], cutoff);
    }
  }

  lemma FailureRefines(b: Breaker, a: Simple, o: Options, now: int)
    requires Represents(b, a, o, now)
    ensures Represents(OnFailure(b, o, now), SimpleFailure(a, o, now), o, now)
  {
    if b.state == CLOSED {
      var all := a.failures + [now];
      PushKeepsWindow(b.failures, a.failures, o, now);
      PruneKeepsWindow(b.failures + [now], all, o, now);
      assert InWindow(b.failures + [now], o, now) == InWindow(all, o, now);
      LaterCounts(all, now - o.windowSize);
    }
  }

  lemma SuccessRefines(b: Breaker, a: Simple, o: Options, now: int)
    requires Represents(b, a, o, now)
    ensures Represents(OnSuccess(b, o, now), SimpleSuccess(a, o), o, now)
  {
    if b.state == CLOSED {
      PruneKeepsWindow(b.failures, a.failures, o, now);
    }
  }

  lemma StepRefines(s: Sys, a: SimpleSys, o: Options, action: Action)
    requires Refines(s, a, o)
    ensures Refines(Step(s, o, action), SimpleStep(a, o, action), o)
  {
    match action
    case Complete(ok) =>
      if ok { SuccessRefines(s.b, a.b, o, s.now); } else { FailureRefines(s.b, a.b, o, s.now); }
    case Snapshot =>
      if s.b.state == CLOSED {
        PruneKeepsWindow(s.b.failures, a.b.failures, o, s.now);
      }
    case _ =>
  }

  lemma {:induction false} RunRefines(s: Sys, a: SimpleSys, o: Options, actions: seq<Action>)
    requires Refines(s, a, o)
    ensures Refines(Run(s, o, actions), SimpleRun(a, o, actions), o)
    decreases |actions|
  {
    if actions != [] {
      StepRefines(s, a, o, actions[0]);
      RunRefines(Step(s, o, actions[0]), SimpleStep(a, o, actions[0]), o, actions[1..]);
    }
  }

  /** In every run of overlapping calls the breaker with its pruned list and stored probe time is in
      the state of the one that remembers everything, and has admitted exactly the same calls. */
  lemma BreakerRefinesSimple(o: Options, actions: seq<Action>)
    ensures Refines(Run(START, o, actions), SimpleRun(SIMPLE_START, o, actions), o)
  {
    RunRefines(START, SIMPLE_START, o, actions);
  }

  // ---- Reopening ----

  /** The reading of the last step of a run that opened the breaker, or `last` if none did. */
  function LastOpening(s: Sys, o: Options, actions: seq<Action>, last: int): int
    decreases |actions|
  {
    if actions == [] then last
    else
      var s1 := Step(s, o, actions[0]);
      LastOpening(s1, o, actions[1..], if s.b.state != OPEN && s1.b.state == OPEN then s.now else last)
  }

  /** Unless the breaker is closed, its next probe is due `timeout` after the last opening of the run. */
  lemma {:induction false} ProbeFollowsLastOpening(s: Sys, o: Options, actions: seq<Action>, last: int)
    requires s.b.state != CLOSED ==> s.b.nextAttemptAt == last + o.timeout
    ensures var s' := Run(s, o, actions);
            s'.b.state != CLOSED ==> s'.b.nextAttemptAt == LastOpening(s, o, actions, last) + o.timeout
    decreases |actions|
  {
    if actions != [] {
      var s1 := Step(s, o, actions[0]);
      ProbeFollowsLastOpening(s1, o, actions[1..], if s.b.state != OPEN && s1.b.state == OPEN then s.now else last);
    }
  }

  /** A single failure in HALF_OPEN opens the breaker again: no call starts until the timeout has
      passed once more, whatever the other calls in flight do, unless it is reset. */
  lemma HalfOpenFailureReopens(s: Sys, o: Options, later: seq<Action>)
    requires s.b.state == HALF_OPEN && s.inFlight > 0
    ensures var s1 := Step(s, o, Complete(false));
            && s1.b.state == OPEN && s1.b.successCount == 0 && s1.b.nextAttemptAt == s.now + o.timeout
            && (Run(s1, o, later).now < s.now + o.timeout && (forall i :: 0 <= i < |later| ==> !later[i].ResetNow?) ==>
                  Run(s1, o, later).started == s.started && Run(s1, o, later).b.state == OPEN)
  {
    var s1 := Step(s, o, Complete(false));
    if Run(s1, o, later).now < s.now + o.timeout && forall i :: 0 <= i < |later| ==> !later[i].ResetNow? {
      OpenAdmitsNothing(s1, o, later);
    }
  }
}

/** The retry loop of backend/lib/retryUtils.js around a breaker. */
module RetryUtils {
  import opened Wrappers
  import opened CircuitBreaker

  datatype Error = Error(code: string, message: Option<string>)

  predicate Contains(text: string, part: string) {
    part <= text || (text != [] && Contains(text[1..], part))
  }

  predicate IsRetryableError(e: Error) {
    || e.code in ["P1001", "P1008", "P1017", "P2028"]
    || e.code in ["ECONNRESET", "ECONNREFUSED", "ETIMEDOUT", "ENOTFOUND"]
    || (e.message.Some? && (Contains(e.message.value, "connection") || Contains(e.message.value, "timeout")))
  }

  /** How one attempt would go if it is admitted: the clock at its start and end, and its error. */
  datatype Attempt = Attempt(startedAt: int, endedAt: int, error: Option<Error>)

  /** `Threw(None)` is the rethrow of an unset lastError when no attempt is allowed. */
  datatype Result = Returned | CircuitOpen | Threw(error: Option<Error>)

  datatype Retried = Retried(b: Breaker, result: Result, calls: nat)

  /** Attempts `k` and later of the loop. */
  function Attempts(b: Breaker, o: Options, script: seq<Attempt>, k: nat): Retried
    decreases |script| - k
  {
    if k >= |script| then Retried(b, Threw(None), 0)
    else
      var (b1, admitted) := Begin(b, o, script[k].startedAt);
      if !admitted then Retried(b1, CircuitOpen, 0)
      else if script[k].error.None? then Retried(OnSuccess(b1, o, script[k].endedAt), Returned, 1)
      else
        var b2 := OnFailure(b1, o, script[k].endedAt);
        if k + 1 == |script| || !IsRetryableError(script[k].error.value) then Retried(b2, Threw(script[k].error), 1)
        else
          var rest := Attempts(b2, o, script, k + 1);
          rest.(calls := rest.calls + 1)
  }

  /** retryDatabaseOperation, with config.attempts attempts scripted. */
  function Retry(b: Breaker, o: Options, script: seq<Attempt>): Retried {
    if b.state == OPEN then Retried(b, CircuitOpen, 0) else Attempts(b, o, script, 0)
  }

  method RetryDatabaseOperation(circuit: Circuit, script: seq<Attempt>) returns (result: Result, calls: nat)
    modifies circuit
    ensures Retried(circuit.Value(), result, calls) == Retry(old(circuit.Value()), circuit.opts, script)
  {
    if circuit.state == OPEN {
      return CircuitOpen, 0;
    }
    calls := 0;
    var k := 0;
    while k < |script|
      invariant k <= |script|
      invariant var rest := Attempts(circuit.Value(), circuit.opts, script, k);
                Attempts(old(circuit.Value()), circuit.opts, script, 0) == rest.(calls := rest.calls + calls)
    {
      var admitted := circuit.Start(script[k].startedAt);
      if !admitted {
        return CircuitOpen, calls;
      }
      calls := calls + 1;
      if script[k].error.None? {
        circuit.Succeeded(script[k].endedAt);
        return Returned, calls;
      }
      circuit.Failed(script[k].endedAt);
      if k + 1 == |script| || !IsRetryableError(script[k].error.value) {
        return Threw(script[k].error), calls;
      }
      k := k + 1;
    }
    result := Threw(None);
  }

  predicate MayRetry(a: Attempt) {
    a.error.Some? && IsRetryableError(a.error.value)
  }

  /** How the loop may have ended after `calls` calls starting at attempt k. */
  ghost predicate EndsProperly(r: Retried, script: seq<Attempt>, k: nat) {
    && k + r.calls <= |script|
    && match r.result
       case Returned => r.calls >= 1 && script[k + r.calls - 1].error.None?
       case Threw(error) =>
         && r.calls >= 1 && error.Some? && error == script[k + r.calls - 1].error
         && (k + r.calls == |script| || !IsRetryableError(error.value))
       case CircuitOpen =>
         k + r.calls < |script| && r.b.state == OPEN && script[k + r.calls].startedAt < r.b.nextAttemptAt
  }

  lemma {:induction false} AttemptsEnd(b: Breaker, o: Options, script: seq<Attempt>, k: nat)
    requires k < |script|
    ensures EndsProperly(Attempts(b, o, script, k), script, k)
    decreases |script| - k
  {
    var (b1, admitted) := Begin(b, o, script[k].startedAt);
    if admitted && k + 1 < |script| && MayRetry(script[k]) {
      AttemptsEnd(OnFailure(b1, o, script[k].endedAt), o, script, k + 1);
    }
  }

  lemma {:induction false} EarlierAttemptsRetryable(b: Breaker, o: Options, script: seq<Attempt>, k: nat)
    requires k < |script|
    ensures forall i :: k <= i < k + Attempts(b, o, script, k).calls - 1 && i < |script| ==> MayRetry(script[i])
    decreases |script| - k
  {
    var (b1, admitted) := Begin(b, o, script[k].startedAt);
    if admitted && k + 1 < |script| && MayRetry(script[k]) {
      EarlierAttemptsRetryable(OnFailure(b1, o, script[k].endedAt), o, script, k + 1);
    }
  }

  /** The result is that of the last call made, the loop stops early only on success, on an error
      that is not retryable or on a rejection, and every earlier call failed with a retryable error. */
  lemma RetryReportsLastCall(b: Breaker, o: Options, script: seq<Attempt>)
    requires |script| >= 1 && b.state != OPEN
    ensures var r := Retry(b, o, script);
            EndsProperly(r, script, 0) && forall i :: 0 <= i < r.calls - 1 ==> MayRetry(script[i])
  {
    AttemptsEnd(b, o, script, 0);
    EarlierAttemptsRetryable(b, o, script, 0);
  }

  function RetryAll(b: Breaker, o: Options, scripts: seq<seq<Attempt>>): Breaker {
    if scripts == [] then b else Retry(RetryAll(b, o, scripts[..|scripts| - 1]), o, scripts[|scripts| - 1]).b
  }

  /** Once the breaker is open, retryDatabaseOperation alone never probes it: however many calls are
      made and however late, each is rejected without a call and the breaker stays as it was. */
  lemma {:induction false} RetryNeverProbes(b: Breaker, o: Options, scripts: seq<seq<Attempt>>, next: seq<Attempt>)
    requires b.state == OPEN
    ensures RetryAll(b, o, scripts) == b
    ensures Retry(RetryAll(b, o, scripts), o, next) == Retried(b, CircuitOpen, 0)
  {
    if scripts != [] {
      RetryNeverProbes(b, o, scripts[..|scripts| - 1], next);
    }
  }

  lemma {:induction false} ContainsIff(text: string, part: string)
    ensures Contains(text, part) <==> exists i :: 0 <= i <= |text| && part <= text[i..]
  {
    if text == [] {
      assert text[0..] == text;
    } else {
      ContainsIff(text[1..], part);
      assert text[0..] == text;
      forall i | 1 <= i <= |text|
        ensures text[i..] == text[1..][i - 1..]
      {
      }
      if Contains(text[1..], part) {
        var i :| 0 <= i <= |text[1..]| && part <= text[1..][i..];
        assert part <= text[i + 1..];
      }
    }
  }

  /** An error is retried if and only if it has one of eight codes or its message has one of two words anywhere. */
  lemma RetryableIff(e: Error)
    ensures IsRetryableError(e) <==>
              || e.code in {"P1001", "P1008", "P1017", "P2028", "ECONNRESET", "ECONNREFUSED", "ETIMEDOUT", "ENOTFOUND"}
              || (e.message.Some? &&
                  exists i :: 0 <= i <= |e.message.value| &&
                    ("connection" <= e.message.value[i..] || "timeout" <= e.message.value[i..]))
  {
    if e.message.Some? {
      ContainsIff(e.message.value, "connection");
      ContainsIff(e.message.value, "timeout");
    }
  }

  /** With no attempt allowed nothing is called, and what is thrown is the unset error. */
  lemma NoAttempts(b: Breaker, o: Options)
    ensures Retry(b, o, []) == Retried(b, if b.state == OPEN then CircuitOpen else Threw(None), 0)
  {
  }
}
