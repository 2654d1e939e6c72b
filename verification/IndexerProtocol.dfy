/** The polling protocol of backend/services/eventIndexer.js: overlapping ticks over one database,
    with failures, crashes and restarts between any two steps. */
module IndexerProtocol {
  import opened Wrappers
  import opened EventTables

  /** Where a running tick is. Positions are indices into the chain. */
  datatype Tick =
    | Started(from: nat)                          // fetchAndProcessEvents(from) was called
    | Fetched(pos: nat, hi: nat)                  // getContractEvents returned chain[pos..hi]
    | Processing(pos: nat, hi: nat, latest: nat)  // getLatestLedger returned; chain[pos..hi] left to dispatch
    | Persisting(value: nat)                      // lastProcessedLedger assigned, indexerState.update in flight

  /** `chain` lists the contract's events from the start ledger on; `cursor` is the persisted
      lastProcessedLedger, `memory` the process's copy (None while the process is down). */
  datatype Sys = Sys(chain: seq<Event>, height: nat, db: Db, cursor: nat, memory: Option<nat>, ticks: map<nat, Tick>)

  datatype Action =
    | CloseLedger(events: seq<Event>)
    | StartTick(t: nat)
    | Fetch(t: nat, hi: nat)
    | ReadLatest(t: nat, latest: nat)
    | Dispatch(t: nat)
    | FailTick(t: nat)
    | FinishTick(t: nat)
    | Persist(t: nat)
    | Crash
    | Restart

  function Init(start: nat): Sys {
    Sys([], start, EMPTY_DB, start, Some(start), map[])
  }

  /** Index of the first event at or above a ledger. */
  function FirstFrom(chain: seq<Event>, from: nat): (i: nat)
    ensures i <= |chain|
    ensures i < |chain| ==> chain[i].ledger >= from
    ensures forall j :: 0 <= j < i ==> chain[j].ledger < from
  {
    if chain == [] then 0
    else
      var front := chain[..|chain| - 1];
      var k := FirstFrom(front, from);
      if k < |front| then k
      else if chain[|chain| - 1].ledger >= from then k else |chain|
  }

  predicate CanDispatch(s: Sys, t: nat) {
    t in s.ticks && s.ticks[t].Processing? && s.ticks[t].pos < s.ticks[t].hi <= |s.chain|
  }

  /** The dispatch loop moves on, or the tick dies with the exception. */
  function Dispatched(s: Sys, t: nat, result: Option<Db>): Sys
    requires CanDispatch(s, t)
  {
    match result
    case None => s.(ticks := s.ticks - {t})
    case Some(d) => s.(db := d, ticks := s.ticks[t := s.ticks[t].(pos := s.ticks[t].pos + 1)])
  }

  /** One atomic step. An action that is not enabled leaves the system as it is. */
  function Step(s: Sys, a: Action): Sys {
    match a
    case CloseLedger(events) =>
      if forall i :: 0 <= i < |events| ==> events[i].ledger == s.height + 1
      then s.(chain := s.chain + events, height := s.height + 1) else s
    case StartTick(t) =>
      if s.memory.Some? && t !in s.ticks then s.(ticks := s.ticks[t := Started(s.memory.value)]) else s
    case Fetch(t, hi) =>
      if t in s.ticks && s.ticks[t].Started? && FirstFrom(s.chain, s.ticks[t].from) <= hi <= |s.chain|
      then s.(ticks := s.ticks[t := Fetched(FirstFrom(s.chain, s.ticks[t].from), hi)]) else s
    case ReadLatest(t, latest) =>
      if t in s.ticks && s.ticks[t].Fetched? && latest <= s.height
      then s.(ticks := s.ticks[t := Processing(s.ticks[t].pos, s.ticks[t].hi, latest)]) else s
    case Dispatch(t) =>
      if CanDispatch(s, t) then Dispatched(s, t, After(s.db, s.chain[s.ticks[t].pos])) else s
    case FailTick(t) =>
      s.(ticks := s.ticks - {t})
    case FinishTick(t) =>
      if t in s.ticks && s.ticks[t].Processing? && s.ticks[t].pos == s.ticks[t].hi && s.memory.Some? then
        if s.ticks[t].latest > s.memory.value
        then s.(memory := Some(s.ticks[t].latest), ticks := s.ticks[t := Persisting(s.ticks[t].latest)])
        else s.(ticks := s.ticks - {t})
      else s
    case Persist(t) =>
      if t in s.ticks && s.ticks[t].Persisting?
      then s.(cursor := s.ticks[t].value, ticks := s.ticks - {t}) else s
    case Crash =>
      s.(memory := None, ticks := map[])
    case Restart =>
      if s.memory.None? then s.(memory := Some(s.cursor)) else s
  }

  /** Every sequence of actions is a run: a disabled action is a no-op. */
  function Run(s: Sys, actions: seq<Action>): Sys
    decreases |actions|
  {
    if actions == [] then s else Run(Step(s, actions[0]), actions[1..])
  }

  /** The environment assumption on a fetch: by the time the latest ledger is read, every event
      strictly below it is among those the fetch returned or was already below the fetch. */
  ghost predicate Complete(s: Sys, a: Action) {
    a.ReadLatest? && a.t in s.ticks && s.ticks[a.t].Fetched? ==>
      forall i :: s.ticks[a.t].hi <= i < |s.chain| ==> s.chain[i].ledger >= a.latest
  }

  ghost predicate CompleteRun(s: Sys, actions: seq<Action>)
    decreases |actions|
  {
    actions == [] || (Complete(s, actions[0]) && CompleteRun(Step(s, actions[0]), actions[1..]))
  }

  // ---- Safety of every run ----

  /** No event from index m on lies below ledger c, now or after more ledgers close. */
  ghost predicate Safe(s: Sys, m: nat, c: nat) {
    && c <= s.height + 1
    && forall i :: m <= i < |s.chain| ==> s.chain[i].ledger >= c
  }

  ghost predicate TickInv(s: Sys, m: nat, tick: Tick) {
    match tick
    case Started(from) => Safe(s, m, from)
    case Fetched(pos, hi) => pos <= hi <= |s.chain| && pos <= m
    case Processing(pos, hi, latest) => pos <= hi <= |s.chain| && pos <= m && Safe(s, hi, latest)
    case Persisting(value) => Safe(s, m, value)
  }

  ghost predicate ChainOrdered(s: Sys) {
    && (forall i, j :: 0 <= i < j < |s.chain| ==> s.chain[i].ledger <= s.chain[j].ledger)
    && (forall i :: 0 <= i < |s.chain| ==> s.chain[i].ledger <= s.height)
  }

  /** Nobody's cursor passes event m. */
  ghost predicate CursorInv(s: Sys, m: nat) {
    && ChainOrdered(s)
    && m <= |s.chain|
    && Safe(s, m, s.cursor)
    && (s.memory.Some? ==> Safe(s, m, s.memory.value))
    && (forall t :: t in s.ticks ==> TickInv(s, m, s.ticks[t]))
  }

  /** The database is the one-by-one replay of the first m chain events. */
  ghost predicate Inv(s: Sys, m: nat) {
    && CursorInv(s, m)
    && Replay(EMPTY_DB, s.chain[..m]) == Some(s.db)
  }

  lemma ReplayMiddle(db: Db, events: seq<Event>, p: nat)
    requires p < |events|
    ensures Replay(db, events[..p + 1])
         == (match Replay(db, events[..p]) case None => None case Some(d) => After(d, events[p]))
  {
    assert events[..p + 1][..p] == events[..p];
  }

  /** Events below m were handled before; event m extends the replayed prefix. */
  lemma DispatchExtendsReplay(db: Db, chain: seq<Event>, m: nat, pos: nat) returns (m': nat)
    requires pos <= m <= |chain| && pos < |chain| && Replay(EMPTY_DB, chain[..m]) == Some(db)
    ensures m <= m' <= |chain|
    ensures After(db, chain[pos]).Some? ==> pos < m' && Replay(EMPTY_DB, chain[..m']) == After(db, chain[pos])
    ensures After(db, chain[pos]).None? ==> m' == m == pos && Replay(EMPTY_DB, chain[..pos + 1]) == None
  {
    m' := m;
    if pos < m {
      SecondDispatchIsNoop(EMPTY_DB, chain[..m], pos);
    } else {
      ReplayMiddle(EMPTY_DB, chain, m);
      if After(db, chain[pos]).Some? {
        m' := m + 1;
      }
    }
  }

  /** A step that moves one tick and neither cursor. */
  lemma TickMoveKeepsCursors(s: Sys, m: nat, t: nat, tick: Tick)
    requires CursorInv(s, m) && TickInv(s, m, tick)
    ensures CursorInv(s.(ticks := s.ticks[t := tick]), m)
  {
    var s' := s.(ticks := s.ticks[t := tick]);
    forall u | u in s'.ticks
      ensures TickInv(s', m, s'.ticks[u])
    {
      assert u != t ==> TickInv(s, m, s.ticks[u]);
    }
  }

  lemma TickEndKeepsCursors(s: Sys, m: nat, t: nat)
    requires CursorInv(s, m)
    ensures CursorInv(s.(ticks := s.ticks - {t}), m)
  {
  }

  lemma DispatchKeepsCursors(s: Sys, m: nat, t: nat, result: Option<Db>, m': nat)
    requires CursorInv(s, m) && CanDispatch(s, t) && m <= m' <= |s.chain|
    requires result.Some? ==> s.ticks[t].pos < m'
    ensures CursorInv(Dispatched(s, t, result), m')
  {
    assert TickInv(s, m, s.ticks[t]);
    CursorsGrow(s, m, m');
    match result
    case None => TickEndKeepsCursors(s, m', t);
    case Some(d) =>
      DbKeepsCursors(s, m', d);
      TickMoveKeepsCursors(s.(db := d), m', t, Processing(s.ticks[t].pos + 1, s.ticks[t].hi, s.ticks[t].latest));
  }

  lemma CursorsGrow(s: Sys, m: nat, m': nat)
    requires CursorInv(s, m) && m <= m' <= |s.chain|
    ensures CursorInv(s, m')
  {
    forall u | u in s.ticks
      ensures TickInv(s, m', s.ticks[u])
    {
      assert TickInv(s, m, s.ticks[u]);
    }
  }

  lemma DbKeepsCursors(s: Sys, m: nat, db: Db)
    requires CursorInv(s, m)
    ensures CursorInv(s.(db := db), m)
  {
  }

  lemma DispatchKeepsInv(s: Sys, m: nat, t: nat) returns (m': nat)
    requires Inv(s, m) && CanDispatch(s, t)
    ensures Inv(Step(s, Dispatch(t)), m') && m <= m'
  {
    var pos := s.ticks[t].pos;
    m' := DispatchExtendsReplay(s.db, s.chain, m, pos);
    DispatchKeepsCursors(s, m, t, After(s.db, s.chain[pos]), m');
  }

  lemma TickOutlivesClose(s: Sys, s': Sys, m: nat, tick: Tick)
    requires ChainOrdered(s) && m <= |s.chain| && s.chain <= s'.chain && s'.height == s.height + 1
    requires forall i :: |s.chain| <= i < |s'.chain| ==> s'.chain[i].ledger == s'.height
    requires TickInv(s, m, tick)
    ensures TickInv(s', m, tick)
  {
  }

  lemma ClosedKeepsCursors(s: Sys, m: nat, s': Sys)
    requires CursorInv(s, m) && s' == s.(chain := s'.chain, height := s.height + 1)
    requires s.chain <= s'.chain && forall i :: |s.chain| <= i < |s'.chain| ==> s'.chain[i].ledger == s'.height
    ensures CursorInv(s', m)
  {
    forall t | t in s'.ticks
      ensures TickInv(s', m, s'.ticks[t])
    {
      TickOutlivesClose(s, s', m, s.ticks[t]);
    }
  }

  lemma CloseKeepsCursors(s: Sys, m: nat, events: seq<Event>)
    requires CursorInv(s, m)
    ensures CursorInv(Step(s, CloseLedger(events)), m)
  {
    if forall i :: 0 <= i < |events| ==> events[i].ledger == s.height + 1 {
      ClosedKeepsCursors(s, m, Step(s, CloseLedger(events)));
    }
  }

  lemma FetchStartsBelow(s: Sys, m: nat, from: nat)
    requires m <= |s.chain| && Safe(s, m, from)
    ensures FirstFrom(s.chain, from) <= m
  {
    if m < |s.chain| {
      assert s.chain[m].ledger >= from;
    }
  }

  lemma CursorMoveKeepsCursors(s: Sys, m: nat, cursor: nat, memory: Option<nat>)
    requires CursorInv(s, m) && Safe(s, m, cursor) && (memory.Some? ==> Safe(s, m, memory.value))
    ensures CursorInv(s.(cursor := cursor, memory := memory), m)
  {
    var s' := s.(cursor := cursor, memory := memory);
    forall u | u in s'.ticks
      ensures TickInv(s', m, s'.ticks[u])
    {
      assert TickInv(s, m, s.ticks[u]);
    }
  }

  lemma StartKeepsCursors(s: Sys, m: nat, t: nat)
    requires CursorInv(s, m)
    ensures CursorInv(Step(s, StartTick(t)), m)
  {
    if s.memory.Some? && t !in s.ticks {
      TickMoveKeepsCursors(s, m, t, Started(s.memory.value));
    }
  }

  lemma FetchKeepsCursors(s: Sys, m: nat, t: nat, hi: nat)
    requires CursorInv(s, m)
    ensures CursorInv(Step(s, Fetch(t, hi)), m)
  {
    if t in s.ticks && s.ticks[t].Started? && FirstFrom(s.chain, s.ticks[t].from) <= hi <= |s.chain| {
      FetchStartsBelow(s, m, s.ticks[t].from);
      TickMoveKeepsCursors(s, m, t, Fetched(FirstFrom(s.chain, s.ticks[t].from), hi));
    }
  }

  lemma ReadKeepsCursors(s: Sys, m: nat, t: nat, latest: nat)
    requires CursorInv(s, m) && Complete(s, ReadLatest(t, latest))
    ensures CursorInv(Step(s, ReadLatest(t, latest)), m)
  {
    if t in s.ticks && s.ticks[t].Fetched? && latest <= s.height {
      assert TickInv(s, m, s.ticks[t]);
      TickMoveKeepsCursors(s, m, t, Processing(s.ticks[t].pos, s.ticks[t].hi, latest));
    }
  }

  lemma FinishKeepsCursors(s: Sys, m: nat, t: nat)
    requires CursorInv(s, m)
    ensures CursorInv(Step(s, FinishTick(t)), m)
  {
    if t in s.ticks && s.ticks[t].Processing? && s.ticks[t].pos == s.ticks[t].hi && s.memory.Some? {
      var latest := s.ticks[t].latest;
      assert TickInv(s, m, s.ticks[t]);
      if latest > s.memory.value {
        TickMoveKeepsCursors(s, m, t, Persisting(latest));
        CursorMoveKeepsCursors(s.(ticks := s.ticks[t := Persisting(latest)]), m, s.cursor, Some(latest));
      } else {
        TickEndKeepsCursors(s, m, t);
      }
    }
  }

  lemma PersistKeepsCursors(s: Sys, m: nat, t: nat)
    requires CursorInv(s, m)
    ensures CursorInv(Step(s, Persist(t)), m)
  {
    if t in s.ticks && s.ticks[t].Persisting? {
      assert TickInv(s, m, s.ticks[t]);
      CursorMoveKeepsCursors(s, m, s.ticks[t].value, s.memory);
      TickEndKeepsCursors(s.(cursor := s.ticks[t].value), m, t);
    }
  }

  lemma ReadingStepsKeepCursors(s: Sys, m: nat, a: Action)
    requires CursorInv(s, m) && Complete(s, a) && (a.StartTick? || a.Fetch? || a.ReadLatest?)
    ensures CursorInv(Step(s, a), m)
  {
    match a
    case StartTick(t) => StartKeepsCursors(s, m, t);
    case Fetch(t, hi) => FetchKeepsCursors(s, m, t, hi);
    case ReadLatest(t, latest) => ReadKeepsCursors(s, m, t, latest);
  }

  lemma OtherStepsKeepCursors(s: Sys, m: nat, a: Action)
    requires CursorInv(s, m) && Complete(s, a) && !a.Dispatch? && !a.CloseLedger?
    ensures CursorInv(Step(s, a), m)
  {
    match a
    case FailTick(t) => TickEndKeepsCursors(s, m, t);
    case FinishTick(t) => FinishKeepsCursors(s, m, t);
    case Persist(t) => PersistKeepsCursors(s, m, t);
    case Crash =>
    case Restart =>
    case _ => ReadingStepsKeepCursors(s, m, a);
  }

  lemma OtherStepsKeepTables(s: Sys, a: Action)
    requires !a.Dispatch? && !a.CloseLedger?
    ensures Step(s, a).db == s.db && Step(s, a).chain == s.chain
  {
  }

  lemma StepKeepsInv(s: Sys, m: nat, a: Action) returns (m': nat)
    requires Inv(s, m) && Complete(s, a)
    ensures Inv(Step(s, a), m') && m <= m'
  {
    m' := m;
    if a.Dispatch? {
      if CanDispatch(s, a.t) {
        m' := DispatchKeepsInv(s, m, a.t);
      }
    } else if a.CloseLedger? {
      CloseKeepsCursors(s, m, a.events);
      assert Step(s, a).chain[..m] == s.chain[..m];
    } else {
      OtherStepsKeepCursors(s, m, a);
      OtherStepsKeepTables(s, a);
    }
  }

  /** In every run of overlapping ticks with failures and crashes at any point, the tables are the
      fold of a prefix of the chain, and the persisted cursor never passes an unindexed event. */
  lemma {:induction false} RunIsSafe(s: Sys, m: nat, actions: seq<Action>) returns (m': nat)
    requires Inv(s, m) && CompleteRun(s, actions)
    ensures Inv(Run(s, actions), m') && m <= m'
    decreases |actions|
  {
    if actions == [] {
      m' := m;
    } else {
      var m1 := StepKeepsInv(s, m, actions[0]);
      m' := RunIsSafe(Step(s, actions[0]), m1, actions[1..]);
    }
  }

  /** The first m chain events are indexed exactly once and in order, the tables are what those
      rows say, and the persisted cursor does not pass event m. */
  ghost predicate IndexedUpTo(s: Sys, m: nat) {
    && m <= |s.chain|
    && Replay(EMPTY_DB, s.chain[..m]) == Some(s.db)
    && Explained(s.db)
    && (UniqueKeys(s.chain) ==> s.db.rows == KnownEvents(s.chain[..m]))
    && (forall i :: m <= i < |s.chain| ==> s.chain[i].ledger >= s.cursor)
  }

  lemma InvIsIndexed(s: Sys, m: nat)
    requires Inv(s, m)
    ensures IndexedUpTo(s, m)
  {
    ReplayIsExplained(s.chain[..m]);
    if UniqueKeys(s.chain) {
      assert UniqueKeys(s.chain[..m]);
      ReplayRecordsEachOnce(s.chain[..m]);
    }
  }

  /** The headline statement: exactly-once indexing, for every run from the initial state. */
  lemma ExactlyOnce(start: nat, actions: seq<Action>)
    requires CompleteRun(Init(start), actions)
    ensures exists m: nat :: IndexedUpTo(Run(Init(start), actions), m)
  {
    var m := RunIsSafe(Init(start), 0, actions);
    InvIsIndexed(Run(Init(start), actions), m);
  }

  lemma UnsoundStops(chain: seq<Event>, k: nat)
    requires k < |chain| && !SoundAt(chain, k)
    ensures Replay(EMPTY_DB, chain[..k + 1]) == None
  {
    PrefixReplaysIff(chain, k + 1);
  }

  lemma ReplayStaysStopped(chain: seq<Event>, m: nat, k: nat)
    requires k <= m <= |chain| && Replay(EMPTY_DB, chain[..k]) == None
    ensures Replay(EMPTY_DB, chain[..m]) == None
  {
    if Replay(EMPTY_DB, chain[..m]).Some? {
      assert chain[..m][..k] == chain[..k];
      ReplayGrows(EMPTY_DB, chain[..m], k);
      assert false;
    }
  }

  /** An event that does not parse, or whose escrow was not created before it, is never passed: the
      cursor stops at its ledger. */
  lemma UnsoundEventStalls(start: nat, actions: seq<Action>, k: nat)
    requires CompleteRun(Init(start), actions)
    requires k < |Run(Init(start), actions).chain| && !SoundAt(Run(Init(start), actions).chain, k)
    ensures Run(Init(start), actions).cursor <= Run(Init(start), actions).chain[k].ledger
  {
    var m := RunIsSafe(Init(start), 0, actions);
    if k < m {
      UnsoundStops(Run(Init(start), actions).chain, k);
      ReplayStaysStopped(Run(Init(start), actions).chain, m, k + 1);
      assert false;
    }
  }

  lemma MalformedEventStalls(start: nat, actions: seq<Action>, k: nat)
    requires CompleteRun(Init(start), actions)
    requires k < |Run(Init(start), actions).chain| && Run(Init(start), actions).chain[k].body.Malformed?
    ensures Run(Init(start), actions).cursor <= Run(Init(start), actions).chain[k].ledger
  {
    UnsoundEventStalls(start, actions, k);
  }

  // ---- A tick that is left alone catches up ----

  lemma DispatchSucceeds(s: Sys, m: nat, t: nat) returns (m': nat, d: Db)
    requires Inv(s, m) && CanDispatch(s, t) && Replay(EMPTY_DB, s.chain).Some?
    ensures After(s.db, s.chain[s.ticks[t].pos]) == Some(d)
    ensures Inv(Dispatched(s, t, Some(d)), m')
  {
    var pos := s.ticks[t].pos;
    m' := DispatchExtendsReplay(s.db, s.chain, m, pos);
    if After(s.db, s.chain[pos]).None? {
      ReplayGrows(EMPTY_DB, s.chain, pos + 1);
      assert false;
    }
    d := After(s.db, s.chain[pos]).value;
    DispatchKeepsCursors(s, m, t, Some(d), m');
  }

  lemma DispatchStep(s: Sys, m: nat, t: nat) returns (m': nat, s1: Sys)
    requires Inv(s, m) && CanDispatch(s, t) && Replay(EMPTY_DB, s.chain).Some?
    ensures Inv(s1, m') && s1 == s.(db := s1.db, ticks := s.ticks[t := s.ticks[t].(pos := s.ticks[t].pos + 1)])
    ensures forall rest :: Run(s, [Dispatch(t)] + rest) == Run(s1, rest)
  {
    var d;
    m', d := DispatchSucceeds(s, m, t);
    s1 := Dispatched(s, t, Some(d));
    forall rest
      ensures Run(s, [Dispatch(t)] + rest) == Run(s1, rest)
    {
      OneStep(s, Dispatch(t), rest);
    }
  }

  lemma {:induction false} DispatchAll(s: Sys, m: nat, t: nat) returns (actions: seq<Action>, db: Db)
    requires Inv(s, m) && t in s.ticks && s.ticks[t].Processing? && s.ticks[t].hi == |s.chain|
    requires Replay(EMPTY_DB, s.chain).Some?
    ensures forall i :: 0 <= i < |actions| ==> actions[i] == Dispatch(t)
    ensures Replay(EMPTY_DB, s.chain[..|s.chain|]) == Some(db)
    ensures Run(s, actions)
         == s.(db := db, ticks := s.ticks[t := Processing(|s.chain|, |s.chain|, s.ticks[t].latest)])
    decreases |s.chain| - s.ticks[t].pos
  {
    assert TickInv(s, m, s.ticks[t]);
    if s.ticks[t].pos == |s.chain| {
      actions, db := [], s.db;
    } else {
      var m1, s1 := DispatchStep(s, m, t);
      var rest;
      rest, db := DispatchAll(s1, m1, t);
      actions := [Dispatch(t)] + rest;
    }
  }

  /** The steps that tick t takes on its own. */
  predicate OfTick(a: Action, t: nat) {
    (a.StartTick? || a.Fetch? || a.ReadLatest? || a.Dispatch? || a.FinishTick? || a.Persist?) && a.t == t
  }

  ghost predicate TickAlone(actions: seq<Action>, t: nat) {
    forall i :: 0 <= i < |actions| ==> OfTick(actions[i], t)
  }

  lemma TickAloneConcat(xs: seq<Action>, ys: seq<Action>, t: nat)
    requires TickAlone(xs, t) && TickAlone(ys, t)
    ensures TickAlone(xs + ys, t)
  {
  }

  /** From every reachable state, one undisturbed tick whose fetch returns everything indexes the
      whole chain and moves the cursor to the chain's height, if every event parses and refers only
      to escrows created before it. `UnsoundEventStalls` is the other case. */
  lemma TickCatchesUp(s: Sys, m: nat, t: nat) returns (actions: seq<Action>)
    requires Inv(s, m) && s.memory.Some? && t !in s.ticks && s.memory.value < s.height
    requires Sound(s.chain)
    ensures TickAlone(actions, t) && CompleteRun(s, actions)
    ensures Replay(EMPTY_DB, s.chain) == Some(Run(s, actions).db)
    ensures Run(s, actions).cursor == s.height && Run(s, actions).chain == s.chain
  {
    ReplaySucceedsIff(s.chain);
    actions := ReplayableTickCatchesUp(s, m, t);
  }

  lemma ReplayableTickCatchesUp(s: Sys, m: nat, t: nat) returns (actions: seq<Action>)
    requires Inv(s, m) && s.memory.Some? && t !in s.ticks && s.memory.value < s.height
    requires Replay(EMPTY_DB, s.chain).Some?
    ensures TickAlone(actions, t) && CompleteRun(s, actions)
    ensures Replay(EMPTY_DB, s.chain) == Some(Run(s, actions).db)
    ensures Run(s, actions).cursor == s.height && Run(s, actions).chain == s.chain
  {
    var n := |s.chain|;
    var s1, s2, s3 := ReadyToDispatch(s, m, t);
    var rest := DispatchAndFinish(s3, m, t);
    assert s3.chain[..n] == s.chain;
    actions := [StartTick(t)] + ([Fetch(t, n)] + ([ReadLatest(t, s.height)] + rest));
    ThreeSteps(s, StartTick(t), s1, Fetch(t, n), s2, ReadLatest(t, s.height), s3, rest);
    TickAloneConcat([ReadLatest(t, s.height)], rest, t);
    TickAloneConcat([Fetch(t, n)], [ReadLatest(t, s.height)] + rest, t);
    TickAloneConcat([StartTick(t)], [Fetch(t, n)] + ([ReadLatest(t, s.height)] + rest), t);
  }

  lemma ReadyToDispatch(s: Sys, m: nat, t: nat) returns (s1: Sys, s2: Sys, s3: Sys)
    requires Inv(s, m) && s.memory.Some? && t !in s.ticks
    ensures s1 == Step(s, StartTick(t)) && s2 == Step(s1, Fetch(t, |s.chain|))
    ensures s3 == Step(s2, ReadLatest(t, s.height))
    ensures s3 == s.(ticks := s.ticks[t := Processing(FirstFrom(s.chain, s.memory.value), |s.chain|, s.height)])
    ensures Inv(s3, m) && Complete(s2, ReadLatest(t, s.height))
  {
    var first := FirstFrom(s.chain, s.memory.value);
    s1 := s.(ticks := s.ticks[t := Started(s.memory.value)]);
    s2 := s.(ticks := s.ticks[t := Fetched(first, |s.chain|)]);
    s3 := s.(ticks := s.ticks[t := Processing(first, |s.chain|, s.height)]);
    assert s1.ticks[t := Fetched(first, |s.chain|)] == s2.ticks;
    assert s2.ticks[t := Processing(first, |s.chain|, s.height)] == s3.ticks;
    FetchStartsBelow(s, m, s.memory.value);
    TickMoveKeepsCursors(s, m, t, Processing(first, |s.chain|, s.height));
  }

  lemma DispatchAndFinish(s: Sys, m: nat, t: nat) returns (actions: seq<Action>)
    requires Inv(s, m) && t in s.ticks && s.ticks[t].Processing? && s.ticks[t].hi == |s.chain|
    requires Replay(EMPTY_DB, s.chain).Some? && s.memory.Some? && s.ticks[t].latest > s.memory.value
    ensures TickAlone(actions, t) && CompleteRun(s, actions)
    ensures Run(s, actions).chain == s.chain && Run(s, actions).cursor == s.ticks[t].latest
    ensures Replay(EMPTY_DB, s.chain[..|s.chain|]) == Some(Run(s, actions).db)
  {
    var middle, db := DispatchAll(s, m, t);
    var tail := [FinishTick(t), Persist(t)];
    actions := middle + tail;
    var s4 := Run(s, middle);
    CursorMoves(s4, t);
    DispatchesComplete(s, middle);
    DispatchesComplete(s4, tail);
    CompleteConcat(s, middle, tail);
    TickAloneConcat(middle, tail, t);
  }

  lemma CursorMoves(s: Sys, t: nat)
    requires t in s.ticks && s.ticks[t].Processing? && s.ticks[t].pos == s.ticks[t].hi
    requires s.memory.Some? && s.ticks[t].latest > s.memory.value
    ensures var s' := Run(s, [FinishTick(t), Persist(t)]);
            && s'.cursor == s.ticks[t].latest && s'.chain == s.chain && s'.db == s.db
            && s' == Step(Step(s, FinishTick(t)), Persist(t))
            && s' == s.(memory := Some(s.ticks[t].latest), cursor := s.ticks[t].latest, ticks := s.ticks - {t})
  {
    TwoSteps(s, FinishTick(t), Persist(t));
  }

  lemma ThreeSteps(s: Sys, a: Action, s1: Sys, b: Action, s2: Sys, c: Action, s3: Sys, rest: seq<Action>)
    requires s1 == Step(s, a) && s2 == Step(s1, b) && s3 == Step(s2, c)
    ensures Run(s, [a] + ([b] + ([c] + rest))) == Run(s3, rest)
    ensures CompleteRun(s, [a] + ([b] + ([c] + rest)))
       <==> Complete(s, a) && Complete(s1, b) && Complete(s2, c) && CompleteRun(s3, rest)
  {
    OneStep(s, a, [b] + ([c] + rest));
    OneStep(s1, b, [c] + rest);
    OneStep(s2, c, rest);
  }

  lemma OneStep(s: Sys, a: Action, rest: seq<Action>)
    ensures Run(s, [a] + rest) == Run(Step(s, a), rest)
    ensures CompleteRun(s, [a] + rest) <==> Complete(s, a) && CompleteRun(Step(s, a), rest)
  {
    assert ([a] + rest)[1..] == rest;
  }

  lemma TwoSteps(s: Sys, a: Action, b: Action)
    ensures Run(s, [a, b]) == Step(Step(s, a), b)
  {
    assert [a, b] == [a] + [b] && [b] == [b] + [];
    OneStep(s, a, [b]);
    OneStep(Step(s, a), b, []);
  }

  lemma DispatchesComplete(s: Sys, actions: seq<Action>)
    requires forall i :: 0 <= i < |actions| ==> !actions[i].ReadLatest?
    ensures CompleteRun(s, actions)
    decreases |actions|
  {
    if actions != [] {
      DispatchesComplete(Step(s, actions[0]), actions[1..]);
    }
  }

  lemma {:induction false} CompleteConcat(s: Sys, xs: seq<Action>, ys: seq<Action>)
    requires CompleteRun(s, xs) && CompleteRun(Run(s, xs), ys)
    ensures Run(s, xs + ys) == Run(Run(s, xs), ys)
    ensures CompleteRun(s, xs + ys)
    decreases |xs|
  {
    if xs == [] {
      assert xs + ys == ys;
    } else {
      assert (xs + ys)[0] == xs[0] && (xs + ys)[1..] == xs[1..] + ys;
      CompleteConcat(Step(s, xs[0]), xs[1..], ys);
    }
  }

  // ---- Ends of ticks, crashes and recovery ----

  /** A dispatch that throws, like any other failure, ends its tick and changes nothing else; so does a tick that has
      read no later ledger than memory holds. A tick that is running is not started again. */
  lemma TickEndsAlone(s: Sys, t: nat)
    requires t in s.ticks
    ensures Step(s, FailTick(t)) == s.(ticks := s.ticks - {t}) && Step(s, StartTick(t)) == s
    ensures CanDispatch(s, t) && After(s.db, s.chain[s.ticks[t].pos]) == None ==>
              Step(s, Dispatch(t)) == s.(ticks := s.ticks - {t})
    ensures s.ticks[t].Processing? && s.ticks[t].pos == s.ticks[t].hi ==>
              s.memory.Some? && s.ticks[t].latest <= s.memory.value ==>
                Step(s, FinishTick(t)) == s.(ticks := s.ticks - {t})
  {
  }

  /** A restarted process knows the persisted cursor and nothing of the ticks it was running; the database is as the
      crash left it. */
  lemma CrashKeepsCursorAndTables(s: Sys)
    ensures Run(s, [Crash, Restart]) == s.(memory := Some(s.cursor), ticks := map[])
  {
    TwoSteps(s, Crash, Restart);
  }

  lemma RestartedInv(s: Sys, m: nat)
    requires Inv(s, m)
    ensures Inv(s.(memory := Some(s.cursor), ticks := map[]), m)
  {
  }

  /** Wherever the process dies, after its restart one undisturbed tick indexes the whole chain, each event once, if
      every event parses and refers only to escrows created before it. */
  lemma RecoversAfterCrash(s: Sys, m: nat, t: nat) returns (actions: seq<Action>)
    requires Inv(s, m) && Sound(s.chain) && s.cursor < s.height
    ensures TickAlone(actions, t)
    ensures var s' := Run(s, [Crash, Restart] + actions);
            Replay(EMPTY_DB, s.chain) == Some(s'.db) && s'.cursor == s.height && s'.chain == s.chain
  {
    var s1 := s.(memory := Some(s.cursor), ticks := map[]);
    CrashKeepsCursorAndTables(s);
    RestartedInv(s, m);
    actions := TickCatchesUp(s1, m, t);
    DispatchesComplete(s, [Crash, Restart]);
    CompleteConcat(s, [Crash, Restart], actions);
  }

  // ---- Without the environment assumption ----

  /** Event i is unindexed and every cursor and every running tick is already past it. */
  ghost predicate Passed(s: Sys, i: nat) {
    && i < |s.chain| && s.chain[i].Known() && !HasKey(s.db.rows, s.chain[i].Key())
    && s.cursor > s.chain[i].ledger
    && (s.memory.Some? ==> s.memory.value > s.chain[i].ledger)
    && (forall t :: t in s.ticks ==>
          match s.ticks[t]
          case Started(from) => from > s.chain[i].ledger
          case Fetched(pos, _) => pos > i
          case Processing(pos, _, latest) => pos > i
          case Persisting(value) => value > s.chain[i].ledger)
  }

  lemma DispatchKeepsPassed(s: Sys, t: nat, i: nat)
    requires Passed(s, i) && CanDispatch(s, t) && UniqueKeys(s.chain)
    ensures Passed(Step(s, Dispatch(t)), i)
  {
    var pos := s.ticks[t].pos;
    var result := After(s.db, s.chain[pos]);
    assert s.chain[i].Key() != s.chain[pos].Key();
    if result.Some? {
      assert result.value.rows == s.db.rows || result.value.rows == s.db.rows + [s.chain[pos]];
      assert !HasKey(result.value.rows, s.chain[i].Key());
    }
    assert Passed(Dispatched(s, t, result), i);
  }

  lemma FetchKeepsPassed(s: Sys, a: Action, i: nat)
    requires ChainOrdered(s) && Passed(s, i) && a.Fetch?
    ensures Passed(Step(s, a), i)
  {
    if a.t in s.ticks && s.ticks[a.t].Started? {
      assert FirstFrom(s.chain, s.ticks[a.t].from) > i;
    }
  }

  lemma OtherStepsKeepPassed(s: Sys, a: Action, i: nat)
    requires ChainOrdered(s) && Passed(s, i) && !a.Fetch? && !a.Dispatch?
    ensures Passed(Step(s, a), i)
  {
  }

  lemma StepKeepsOrder(s: Sys, a: Action)
    requires ChainOrdered(s)
    ensures ChainOrdered(Step(s, a)) && s.chain <= Step(s, a).chain
  {
  }

  lemma PassedStep(s: Sys, a: Action, i: nat)
    requires ChainOrdered(s) && Passed(s, i) && UniqueKeys(s.chain)
    ensures Passed(Step(s, a), i)
  {
    if a.Dispatch? {
      if CanDispatch(s, a.t) {
        DispatchKeepsPassed(s, a.t, i);
      }
    } else if a.Fetch? {
      FetchKeepsPassed(s, a, i);
    } else {
      OtherStepsKeepPassed(s, a, i);
    }
  }

  lemma {:induction false} ChainOnlyGrows(s: Sys, actions: seq<Action>)
    ensures s.chain <= Run(s, actions).chain
    decreases |actions|
  {
    if actions != [] {
      ChainOnlyGrows(Step(s, actions[0]), actions[1..]);
    }
  }

  /** An event that every cursor has passed is never indexed, in any continuation. */
  lemma {:induction false} PassedEventIsLost(s: Sys, actions: seq<Action>, i: nat)
    requires ChainOrdered(s) && Passed(s, i) && UniqueKeys(Run(s, actions).chain)
    ensures Passed(Run(s, actions), i) && Run(s, actions).chain[i] == s.chain[i]
    decreases |actions|
  {
    if actions != [] {
      var s1 := Step(s, actions[0]);
      ChainOnlyGrows(s1, actions[1..]);
      StepKeepsOrder(s, actions[0]);
      PassedStep(s, actions[0], i);
      PassedEventIsLost(s1, actions[1..], i);
    }
  }

  /** A tick that is ready to finish as the only one running keeps the cursor safe exactly when no
      unindexed event lies below the ledger it read; otherwise it loses such an event for good. */
  lemma FinishIsSafeIffComplete(s: Sys, m: nat, t: nat)
    requires ChainOrdered(s) && m <= |s.chain| && Replay(EMPTY_DB, s.chain[..m]) == Some(s.db)
    requires UniqueKeys(s.chain) && (forall i :: 0 <= i < |s.chain| ==> s.chain[i].Known())
    requires s.ticks.Keys == {t} && s.ticks[t].Processing? && s.ticks[t].pos == s.ticks[t].hi
    requires s.memory.Some? && s.ticks[t].latest > s.memory.value
    ensures (exists i :: 0 <= i < |s.chain| && Passed(Step(Step(s, FinishTick(t)), Persist(t)), i))
            <==> !(forall i :: m <= i < |s.chain| ==> s.chain[i].ledger >= s.ticks[t].latest)
  {
    var s' := Step(Step(s, FinishTick(t)), Persist(t));
    assert s' == s.(memory := Some(s.ticks[t].latest), cursor := s.ticks[t].latest, ticks := map[]) by {
      CursorMoves(s, t);
    }
    forall i | 0 <= i < |s.chain|
      ensures HasKey(s.db.rows, s.chain[i].Key()) <==> i < m
    {
      KeyedExactlyBelow(s.chain, m, s.db, i);
    }
    if i :| m <= i < |s.chain| && s.chain[i].ledger < s.ticks[t].latest {
      assert Passed(s', i);
    }
  }

  lemma KeyedExactlyBelow(chain: seq<Event>, m: nat, db: Db, i: nat)
    requires m <= |chain| && i < |chain| && UniqueKeys(chain) && chain[i].Known()
    requires Replay(EMPTY_DB, chain[..m]) == Some(db)
    ensures HasKey(db.rows, chain[i].Key()) <==> i < m
  {
    if i < m {
      ReplayGrows(EMPTY_DB, chain[..m], i + 1);
      ReplayMiddle(EMPTY_DB, chain[..m], i);
      AfterGrows(Replay(EMPTY_DB, chain[..m][..i]).value, chain[i]);
      KeyStays(Replay(EMPTY_DB, chain[..m][..i + 1]).value, db, chain[i].Key());
    } else if HasKey(db.rows, chain[i].Key()) {
      ReplayRecordsEachOnce(chain[..m]);
      var k :| 0 <= k < |db.rows| && db.rows[k].Key() == chain[i].Key();
      KnownEventsAreEvents(chain[..m], db.rows[k]);
      assert false;
    }
  }

  /** The assumption is needed: an event that lands between the two reads of one tick is skipped. */
  lemma LateEventIsSkipped()
    ensures exists actions, e :: LosesEvent(actions, e)
  {
    var e := Event(1, 0, "tx", 0, FundsReleased(7, 5));
    var s, actions := LateRun(e);
    LostState(e, s);
    assert LosesEvent(actions, e);
  }

  lemma LateRun(e: Event) returns (s: Sys, actions: seq<Action>)
    requires e.ledger == 1
    ensures s == Sys([e], 2, EMPTY_DB, 2, Some(2), map[]) && Run(Init(0), actions) == s
  {
    s := Sys([e], 2, EMPTY_DB, 2, Some(2), map[]);
    var s3 := Sys([e], 1, EMPTY_DB, 0, Some(0), map[0 := Fetched(0, 0)]);
    var tail := SkipSecondHalf(e, s3);
    SkipFirstHalf(e, s3, tail);
    actions := [StartTick(0)] + ([Fetch(0, 0)] + ([CloseLedger([e])] + tail));
  }

  ghost predicate LosesEvent(actions: seq<Action>, e: Event) {
    var s := Run(Init(0), actions);
    s.chain == [e] && Passed(s, 0)
  }

  lemma LostState(e: Event, s: Sys)
    requires e.ledger == 1 && e.Known() && s == Sys([e], 2, EMPTY_DB, 2, Some(2), map[])
    ensures s.chain == [e] && Passed(s, 0)
  {
  }

  lemma SkipFirstHalf(e: Event, s3: Sys, rest: seq<Action>)
    requires e.ledger == 1 && s3 == Sys([e], 1, EMPTY_DB, 0, Some(0), map[0 := Fetched(0, 0)])
    ensures Run(Init(0), [StartTick(0)] + ([Fetch(0, 0)] + ([CloseLedger([e])] + rest))) == Run(s3, rest)
  {
    var s1 := Step(Init(0), StartTick(0));
    assert s1.ticks == map[0 := Started(0)];
    var s2 := Step(s1, Fetch(0, 0));
    ThreeSteps(Init(0), StartTick(0), s1, Fetch(0, 0), s2, CloseLedger([e]), s3, rest);
  }

  lemma SkipSecondHalf(e: Event, s: Sys) returns (actions: seq<Action>)
    requires e.ledger == 1 && s == Sys([e], 1, EMPTY_DB, 0, Some(0), map[0 := Fetched(0, 0)])
    ensures Run(s, actions) == Sys([e], 2, EMPTY_DB, 2, Some(2), map[])
  {
    var s4 := Step(s, CloseLedger([]));
    assert [e] + [] == [e];
    var s5 := Step(s4, ReadLatest(0, 2));
    var s6 := Step(s5, FinishTick(0));
    assert s6 == Sys([e], 2, EMPTY_DB, 0, Some(2), map[0 := Persisting(2)]);
    actions := [CloseLedger([])] + ([ReadLatest(0, 2)] + ([FinishTick(0)] + ([Persist(0)] + [])));
    ThreeSteps(s, CloseLedger([]), s4, ReadLatest(0, 2), s5, FinishTick(0), s6, [Persist(0)] + []);
    OneStep(s6, Persist(0), []);
  }
}
