/** The milestone_status_history rows that backend/services/escrowService.js writes, in runs where the chain indexer
    and the import change milestone statuses without writing any. */
module EscrowHistory {
  import opened Wrappers
  import opened EscrowMoney

  /** The history rows of one milestone, oldest first. */
  function RowsOf(history: seq<History>, key: MilestoneKey): seq<History> {
    if history == [] then []
    else
      var last := history[|history| - 1];
      RowsOf(history[..|history| - 1], key) + (if last.milestone == key then [last] else [])
  }

  lemma RowsOfSnoc(history: seq<History>, h: History, key: MilestoneKey)
    ensures RowsOf(history + [h], key) == RowsOf(history, key) + (if h.milestone == key then [h] else [])
  {
    assert (history + [h])[..|history|] == history;
  }

  /** Where the rows end: the last new status, or Pending. */
  function Tip(rows: seq<History>): MilestoneStatus {
    if rows == [] then Pending else rows[|rows| - 1].toStatus
  }

  /** The rows lead from Pending, one into the next. */
  predicate Chained(rows: seq<History>) {
    rows == [] || (Chained(rows[..|rows| - 1]) && rows[|rows| - 1].fromStatus == Tip(rows[..|rows| - 1]))
  }

  /** And into the milestone's current status. */
  predicate Linked(db: Db, key: MilestoneKey)
    requires key in db.milestones
  {
    Chained(RowsOf(db.history, key)) && Tip(RowsOf(db.history, key)) == db.milestones[key]
  }

  /** The row a step writes for the milestone, if any. */
  function RowWritten(s: State, a: Action, key: MilestoneKey): Option<History> {
    match a
    case CommitRelease(call) =>
      if call in s.pending && s.pending[call].Releasing? && s.pending[call].id in s.db.escrows
         && (s.pending[call].id, s.pending[call].index) == key
      then Some(History(key, s.pending[call].existing, Approved, s.pending[call].caller))
      else None
    case Raise(id, raisedBy, target) =>
      if RaiseDispute(s.db, id, raisedBy, target).Done? && target.Some? && (id, target.value) == key
         && key in s.db.milestones
      then Some(History(key, s.db.milestones[key], Rejected, raisedBy))
      else None
    case _ => None
  }

  /** The status that a chain event or an import gives the milestone in a step, if any: neither writes a row. */
  function SilentlySets(s: State, a: Action, key: MilestoneKey): Option<MilestoneStatus> {
    match a
    case Chain(MilestoneSet(id, index, status)) =>
      if (id, index) == key && key in s.db.milestones then Some(status) else None
    case Direct(ImportMilestone(id, index, status)) =>
      if (id, index) == key && id in s.db.escrows then Some(status) else None
    case _ => None
  }

  lemma ChainKeepsHistory(s: State, event: ChainEvent)
    ensures Step(s, Chain(event)).db.history == s.db.history
  {
  }

  lemma OthersKeepHistory(s: State, a: Action)
    requires !a.CommitRelease? && !a.Raise?
    ensures Step(s, a).db.history == s.db.history
  {
    if a.Chain? {
      ChainKeepsHistory(s, a.event);
    }
  }

  lemma RowsAfterRelease(s: State, call: nat, key: MilestoneKey)
    ensures var row := RowWritten(s, CommitRelease(call), key);
            RowsOf(CommitReleaseStep(s, call).db.history, key)
              == RowsOf(s.db.history, key) + (if row.Some? then [row.value] else [])
  {
    if call in s.pending && s.pending[call].Releasing? && s.pending[call].id in s.db.escrows {
      var p := s.pending[call];
      RowsOfSnoc(s.db.history, History((p.id, p.index), p.existing, Approved, p.caller), key);
    }
  }

  lemma RowsAfterDispute(s: State, id: int, raisedBy: string, target: Option<int>, key: MilestoneKey)
    ensures var row := RowWritten(s, Raise(id, raisedBy, target), key);
            RowsOf(OnTables(s, RaiseDispute(s.db, id, raisedBy, target)).db.history, key)
            == RowsOf(s.db.history, key) + (if row.Some? then [row.value] else [])
  {
    if RaiseDispute(s.db, id, raisedBy, target).Done? && target.Some? && (id, target.value) in s.db.milestones {
      var row := History((id, target.value), s.db.milestones[(id, target.value)], Rejected, raisedBy);
      RowsOfSnoc(s.db.history, row, key);
    }
  }

  lemma RowsAfter(s: State, a: Action, key: MilestoneKey)
    ensures var row := RowWritten(s, a, key);
            RowsOf(Step(s, a).db.history, key) == RowsOf(s.db.history, key) + (if row.Some? then [row.value] else [])
  {
    match a
    case CommitRelease(call) => RowsAfterRelease(s, call, key);
    case Raise(id, raisedBy, target) => RowsAfterDispute(s, id, raisedBy, target, key);
    case _ => OthersKeepHistory(s, a);
  }

  /** A pending release has found its milestone, and rows are never deleted. */
  ghost predicate Present(s: State, key: MilestoneKey) {
    forall call :: call in s.pending && s.pending[call].Releasing? ==>
      (s.pending[call].id, s.pending[call].index) == key ==> key in s.db.milestones
  }

  lemma ChainKeepsPresent(s: State, e: ChainEvent, key: MilestoneKey)
    requires Present(s, key)
    ensures Present(ChainStep(s, e), key) && (key in s.db.milestones ==> key in ChainStep(s, e).db.milestones)
  {
  }

  lemma DirectKeepsPresent(s: State, w: DirectWrite, key: MilestoneKey)
    requires Present(s, key)
    ensures Present(DirectStep(s, w), key) && (key in s.db.milestones ==> key in DirectStep(s, w).db.milestones)
  {
  }

  lemma PresentAfter(s: State, a: Action, key: MilestoneKey)
    requires Present(s, key)
    ensures Present(Step(s, a), key) && (key in s.db.milestones ==> key in Step(s, a).db.milestones)
  {
    if a.Chain? {
      ChainKeepsPresent(s, a.event, key);
    } else if a.Direct? {
      DirectKeepsPresent(s, a.write, key);
    }
  }

  ghost predicate StatusSet(s: State, after: State, a: Action, key: MilestoneKey)
    requires key in s.db.milestones
  {
    var row, status := RowWritten(s, a, key), SilentlySets(s, a, key);
    && key in after.db.milestones
    && after.db.milestones[key] == if row.Some? then row.value.toStatus
                                   else if status.Some? then status.value
                                   else s.db.milestones[key]
  }

  lemma StatusAfterChain(s: State, e: ChainEvent, key: MilestoneKey)
    requires key in s.db.milestones
    ensures StatusSet(s, ChainStep(s, e), Chain(e), key)
  {
  }

  lemma StatusAfterDirect(s: State, w: DirectWrite, key: MilestoneKey)
    requires key in s.db.milestones
    ensures StatusSet(s, DirectStep(s, w), Direct(w), key)
  {
  }

  lemma StatusAfterRelease(s: State, call: nat, key: MilestoneKey)
    requires key in s.db.milestones
    ensures StatusSet(s, CommitReleaseStep(s, call), CommitRelease(call), key)
  {
  }

  lemma StatusAfter(s: State, a: Action, key: MilestoneKey)
    requires key in s.db.milestones
    ensures StatusSet(s, Step(s, a), a, key)
  {
    match a
    case Chain(event) => StatusAfterChain(s, event, key);
    case Direct(write) => StatusAfterDirect(s, write, key);
    case CommitRelease(call) => StatusAfterRelease(s, call, key);
    case _ =>
  }

  lemma NewMilestone(s: State, a: Action, key: MilestoneKey)
    requires Present(s, key) && key !in s.db.milestones
    ensures RowWritten(s, a, key) == None
    ensures SilentlySets(s, a, key).Some? ==> key in Step(s, a).db.milestones
    ensures key in Step(s, a).db.milestones ==>
              var status := SilentlySets(s, a, key);
              Step(s, a).db.milestones[key] == if status.Some? then status.value else Pending
  {
  }

  // ---- What every row records ----

  /** The status a row starts from is the one its call read: for a dispute the status just before, for a release
      the status when the release looked. */
  lemma RowRecordsWhatWasRead(s: State, a: Action, key: MilestoneKey)
    requires RowWritten(s, a, key).Some?
    ensures var row := RowWritten(s, a, key).value;
            match a
            case Raise(_, _, _) => key in s.db.milestones && row.fromStatus == s.db.milestones[key]
            case CommitRelease(call) =>
              call in s.pending && s.pending[call].Releasing? && row.fromStatus == s.pending[call].existing
            case _ => false
  {
  }

  lemma ReleaseReadsStatus(s: State, call: nat, id: int, index: int, amount: int, caller: string)
    requires call !in s.pending && call in Step(s, BeginRelease(call, id, index, amount, caller)).pending
    ensures (id, index) in s.db.milestones
    ensures var p := Step(s, BeginRelease(call, id, index, amount, caller)).pending[call];
            p.Releasing? && p.existing == s.db.milestones[(id, index)]
  {
  }

  // ---- When the rows link ----

  /** What a release of the milestone read: whether the silent changes agreed with the rows then, and where the
      last row written since ends. */
  datatype Reading = Reading(agreed: bool, since: Option<MilestoneStatus>)

  /** A run seen from one milestone: `last` is the status silently set since its last history row, `readings` the
      readings of its releases. */
  datatype View = View(s: State, last: Option<MilestoneStatus>, readings: map<nat, Reading>)

  function Rows(v: View, key: MilestoneKey): seq<History> {
    RowsOf(v.s.db.history, key)
  }

  /** The silent changes since the last row, if any, end where that row ended. */
  predicate ChangesAgree(v: View, key: MilestoneKey) {
    v.last.None? || v.last.value == Tip(Rows(v, key))
  }

  /** The call of a release of this milestone that looks in this step. */
  function Reads(s: State, a: Action, key: MilestoneKey): Option<nat> {
    match a
    case BeginRelease(call, id, index, amount, caller) =>
      if call !in s.pending && (id, index) == key && ReadRelease(s.db, id, index, amount, caller).Ready?
      then Some(call) else None
    case _ => None
  }

  function ReadsAfter(v: View, a: Action, key: MilestoneKey): map<nat, Reading> {
    if Reads(v.s, a, key).Some? then v.readings[Reads(v.s, a, key).value := Reading(ChangesAgree(v, key), None)]
    else
      match RowWritten(v.s, a, key)
      case None => v.readings
      case Some(row) => map call | call in v.readings :: v.readings[call].(since := Some(row.toStatus))
  }

  function StepView(v: View, a: Action, key: MilestoneKey): View {
    View(Step(v.s, a),
         if RowWritten(v.s, a, key).Some? then None
         else if SilentlySets(v.s, a, key).Some? then SilentlySets(v.s, a, key)
         else v.last,
         ReadsAfter(v, a, key))
  }

  function RunView(v: View, actions: seq<Action>, key: MilestoneKey): View
    decreases |actions|
  {
    if actions == [] then v else RunView(StepView(v, actions[0], key), actions[1..], key)
  }

  /** A dispute's row follows if the silent changes agree. A release's row follows if they agreed when it looked
      and no row was written since, or if the last row written since ends in the status it read. */
  predicate RowFollows(v: View, a: Action, key: MilestoneKey) {
    RowWritten(v.s, a, key).Some? ==>
      match a
      case CommitRelease(call) =>
        && call in v.readings && call in v.s.pending && v.s.pending[call].Releasing?
        && (match v.readings[call].since
            case None => v.readings[call].agreed
            case Some(status) => status == v.s.pending[call].existing)
      case _ => ChangesAgree(v, key)
  }

  predicate RowsFollow(v: View, actions: seq<Action>, key: MilestoneKey)
    decreases |actions|
  {
    actions == [] || (RowFollows(v, actions[0], key) && RowsFollow(StepView(v, actions[0], key), actions[1..], key))
  }

  /** In every run: the current status is what was silently set since the last row, or else where the rows end. */
  ghost predicate Explained(v: View, key: MilestoneKey) {
    && Present(v.s, key)
    && if key in v.s.db.milestones
       then v.s.db.milestones[key] == (if v.last.Some? then v.last.value else Tip(Rows(v, key)))
       else v.last == None && Rows(v, key) == []
  }

  ghost predicate Releases(s: State, call: nat, key: MilestoneKey) {
    call in s.pending && s.pending[call].Releasing? && (s.pending[call].id, s.pending[call].index) == key
  }

  /** A reading tells whether the status that was read is the one the rows now end in. */
  ghost predicate ReadingTells(v: View, call: nat, key: MilestoneKey)
    requires Releases(v.s, call, key)
  {
    && call in v.readings
    && match v.readings[call].since
       case None => v.readings[call].agreed <==> v.s.pending[call].existing == Tip(Rows(v, key))
       case Some(status) => status == Tip(Rows(v, key))
  }

  ghost predicate ReadingsTell(v: View, key: MilestoneKey) {
    forall call :: Releases(v.s, call, key) ==> ReadingTells(v, call, key)
  }

  lemma RowsAfterRow(s: State, a: Action, key: MilestoneKey)
    ensures RowWritten(s, a, key).None? ==> RowsOf(Step(s, a).db.history, key) == RowsOf(s.db.history, key)
    ensures RowWritten(s, a, key).Some? ==>
              RowsOf(Step(s, a).db.history, key) != [] &&
              Tip(RowsOf(Step(s, a).db.history, key)) == RowWritten(s, a, key).value.toStatus
  {
    RowsAfter(s, a, key);
    assert RowsOf(s.db.history, key) + [] == RowsOf(s.db.history, key);
  }

  lemma KnownStaysExplained(v: View, a: Action, key: MilestoneKey)
    requires Explained(v, key) && key in v.s.db.milestones
    ensures Explained(StepView(v, a, key), key)
  {
    RowsAfterRow(v.s, a, key);
    PresentAfter(v.s, a, key);
    StatusAfter(v.s, a, key);
  }

  lemma NewStaysExplained(v: View, a: Action, key: MilestoneKey)
    requires Explained(v, key) && key !in v.s.db.milestones
    ensures Explained(StepView(v, a, key), key)
  {
    NewMilestone(v.s, a, key);
    RowsAfterRow(v.s, a, key);
    PresentAfter(v.s, a, key);
  }

  lemma StepKeepsExplained(v: View, a: Action, key: MilestoneKey)
    requires Explained(v, key)
    ensures Explained(StepView(v, a, key), key)
  {
    if key in v.s.db.milestones {
      KnownStaysExplained(v, a, key);
    } else {
      NewStaysExplained(v, a, key);
    }
  }

  /** Which releases are pending after a step: those before, and the one that looked. */
  lemma PendingAfter(s: State, a: Action, key: MilestoneKey, call: nat)
    requires Releases(Step(s, a), call, key)
    ensures if Reads(s, a, key) == Some(call)
            then key in s.db.milestones && Step(s, a).pending[call].existing == s.db.milestones[key]
            else Releases(s, call, key) && Step(s, a).pending[call] == s.pending[call]
  {
  }

  lemma StepKeepsReadings(v: View, a: Action, key: MilestoneKey)
    requires Explained(v, key) && ReadingsTell(v, key)
    ensures ReadingsTell(StepView(v, a, key), key)
  {
    var w := StepView(v, a, key);
    RowsAfterRow(v.s, a, key);
    forall call: nat | Releases(w.s, call, key)
      ensures ReadingTells(w, call, key)
    {
      PendingAfter(v.s, a, key, call);
      assert Reads(v.s, a, key) != Some(call) ==> ReadingTells(v, call, key);
    }
  }

  lemma ChainedSnoc(rows: seq<History>, h: History)
    ensures Chained(rows + [h]) <==> Chained(rows) && h.fromStatus == Tip(rows)
  {
    assert (rows + [h])[..|rows|] == rows;
  }

  lemma FollowsMeansLinks(v: View, a: Action, key: MilestoneKey)
    requires Explained(v, key) && ReadingsTell(v, key) && RowWritten(v.s, a, key).Some?
    ensures RowFollows(v, a, key) <==> RowWritten(v.s, a, key).value.fromStatus == Tip(Rows(v, key))
  {
    RowRecordsWhatWasRead(v.s, a, key);
    if a.CommitRelease? {
      assert Releases(v.s, a.call, key);
    }
  }

  lemma StepChained(v: View, a: Action, key: MilestoneKey)
    requires Explained(v, key) && ReadingsTell(v, key)
    ensures Chained(Rows(StepView(v, a, key), key)) <==> Chained(Rows(v, key)) && RowFollows(v, a, key)
  {
    RowsAfter(v.s, a, key);
    if RowWritten(v.s, a, key).Some? {
      ChainedSnoc(Rows(v, key), RowWritten(v.s, a, key).value);
      FollowsMeansLinks(v, a, key);
    } else {
      assert Rows(v, key) + [] == Rows(v, key);
    }
  }

  lemma {:induction false} RunChained(v: View, actions: seq<Action>, key: MilestoneKey)
    requires Explained(v, key) && ReadingsTell(v, key)
    ensures Explained(RunView(v, actions, key), key)
    ensures Chained(Rows(RunView(v, actions, key), key)) <==> Chained(Rows(v, key)) && RowsFollow(v, actions, key)
    decreases |actions|
  {
    if actions != [] {
      StepKeepsExplained(v, actions[0], key);
      StepKeepsReadings(v, actions[0], key);
      StepChained(v, actions[0], key);
      RunChained(StepView(v, actions[0], key), actions[1..], key);
    }
  }

  lemma {:induction false} ViewIsRun(v: View, actions: seq<Action>, key: MilestoneKey)
    ensures RunView(v, actions, key).s == Run(v.s, actions)
    decreases |actions|
  {
    if actions != [] {
      ViewIsRun(StepView(v, actions[0], key), actions[1..], key);
    }
  }

  const FIRST := View(START, None, map[])

  /** In every run of these writers: a milestone's history rows lead from Pending to its current status if and only
      if every row follows when it is written and the silent changes since the last one agree with it. */
  lemma LinkedIff(actions: seq<Action>, key: MilestoneKey)
    requires key in Run(START, actions).db.milestones
    ensures Linked(Run(START, actions).db, key) <==>
            RowsFollow(FIRST, actions, key) && ChangesAgree(RunView(FIRST, actions, key), key)
  {
    RunChained(FIRST, actions, key);
    ViewIsRun(FIRST, actions, key);
  }

  /** For a release that writes right after it looked, its row follows if and only if the silent changes agree. */
  lemma PromptReleaseFollowsIff(v: View, call: nat, id: int, index: int, amount: int, caller: string)
    requires call !in v.s.pending && ReadRelease(v.s.db, id, index, amount, caller).Ready?
    ensures RowsFollow(v, [BeginRelease(call, id, index, amount, caller), CommitRelease(call)], (id, index))
       <==> ChangesAgree(v, (id, index))
  {
    var key, begin := (id, index), BeginRelease(call, id, index, amount, caller);
    var read := StepView(v, begin, key);
    assert [begin, CommitRelease(call)][1..] == [CommitRelease(call)];
    assert RowWritten(v.s, begin, key) == None && read.readings[call] == Reading(ChangesAgree(v, key), None);
    assert RowWritten(read.s, CommitRelease(call), key).Some?;
    assert RowsFollow(StepView(read, CommitRelease(call), key), [CommitRelease(call)][1..], key);
  }

  /** Where the rows link, a chain event breaks the link if and only if it changes the status. */
  lemma ChainEventBreaksLink(s: State, id: int, index: int, status: MilestoneStatus)
    requires (id, index) in s.db.milestones && Linked(s.db, (id, index))
    ensures Linked(Step(s, Chain(MilestoneSet(id, index, status))).db, (id, index))
       <==> status == s.db.milestones[(id, index)]
  {
  }

  /** A milestone added, submitted on the chain and then released: its only row starts at Submitted. */
  lemma FirstRowStartsAtSubmitted()
    ensures var actions := [Fund(1, 100), Chain(MilestoneAdded(1, 0)), Chain(MilestoneSet(1, 0, Submitted)),
                            BeginRelease(1, 1, 0, 40, "c"), CommitRelease(1)];
            var db := Run(START, actions).db;
            db.history == [History((1, 0), Submitted, Approved, "c")] && (1, 0) in db.milestones && !Linked(db, (1, 0))
  {
    var a := [Fund(1, 100), Chain(MilestoneAdded(1, 0))];
    var b := [Chain(MilestoneSet(1, 0, Submitted)), BeginRelease(1, 1, 0, 40, "c"), CommitRelease(1)];
    var s := Step(Step(START, a[0]), a[1]);
    RunFirst(START, a[0], [a[1]]);
    RunFirst(Step(START, a[0]), a[1], []);
    RunFirst(s, b[0], [b[1], b[2]]);
    RunFirst(Step(s, b[0]), b[1], [b[2]]);
    RunFirst(Step(Step(s, b[0]), b[1]), b[2], []);
    SubmittedThenReleased(s);
    RunConcat(START, a, b);
  }

  lemma SubmittedThenReleased(s: State)
    requires s.db == Db(map[1 := Escrow(100, 100, Active)], map[(1, 0) := Pending], map[], []) && s.pending == map[]
    ensures var t := Step(Step(Step(s, Chain(MilestoneSet(1, 0, Submitted))), BeginRelease(1, 1, 0, 40, "c")),
                          CommitRelease(1));
            && t.db.history == [History((1, 0), Submitted, Approved, "c")]
            && (1, 0) in t.db.milestones && !Linked(t.db, (1, 0))
  {
    var read := SubmittedAndRead(s);
    OneRowWritten(read);
    OneRowUnlinked(Step(read, CommitRelease(1)).db);
  }

  lemma SubmittedAndRead(s: State) returns (t: State)
    requires s.db == Db(map[1 := Escrow(100, 100, Active)], map[(1, 0) := Pending], map[], []) && s.pending == map[]
    ensures t == Step(Step(s, Chain(MilestoneSet(1, 0, Submitted))), BeginRelease(1, 1, 0, 40, "c"))
    ensures t.db == s.db.(milestones := map[(1, 0) := Submitted])
    ensures t.pending == map[1 := Releasing(1, 0, 40, "c", 100, Submitted)]
  {
    t := Step(Step(s, Chain(MilestoneSet(1, 0, Submitted))), BeginRelease(1, 1, 0, 40, "c"));
  }

  lemma OneRowWritten(s: State)
    requires 1 in s.db.escrows && (1, 0) in s.db.milestones && s.db.history == []
    requires s.pending == map[1 := Releasing(1, 0, 40, "c", 100, Submitted)]
    ensures var t := Step(s, CommitRelease(1));
            (1, 0) in t.db.milestones && t.db.history == [History((1, 0), Submitted, Approved, "c")]
  {
  }

  lemma OneRowUnlinked(db: Db)
    requires (1, 0) in db.milestones && db.history == [History((1, 0), Submitted, Approved, "c")]
    ensures !Linked(db, (1, 0))
  {
    var row := History((1, 0), Submitted, Approved, "c");
    RowsOfSnoc([], row, (1, 0));
    ChainedSnoc([], row);
    assert [] + [row] == [row];
  }
}
