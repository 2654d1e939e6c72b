/** The tables written by backend/services/eventIndexer.js, its eleven handlers and dispatchEvent. */
module EventTables {
  import opened Wrappers

  datatype EscrowStatus = Active | Completed | Disputed | Cancelled
  datatype MilestoneStatus = Pending | Submitted | Approved | Rejected

  /** `updatedAt` is None until a handler writes a ledger time into it. */
  datatype Escrow = Escrow(client: string, freelancer: string, total: int, remaining: int,
                           status: EscrowStatus, createdAt: int, createdLedger: nat, updatedAt: Option<int>)
  datatype Milestone = Milestone(amount: int, status: MilestoneStatus, submittedAt: Option<int>,
                                 resolvedAt: Option<int>)
  datatype Dispute = Dispute(raisedBy: string, raisedAt: int, resolvedAt: Option<int>,
                             clientAmount: Option<int>, freelancerAmount: Option<int>)
  datatype Reputation = Reputation(score: int, lastUpdated: int)

  /** topic and value of an event after parsing. `Unknown` has no handler; the payload of
      `Malformed` cannot be parsed, so its handler throws before it opens a transaction. */
  datatype Body =
    | EscrowCreated(escrowId: int, client: string, freelancer: string, amount: int)
    | MilestoneAdded(escrowId: int, index: int, amount: int)
    | MilestoneSubmitted(escrowId: int, index: int)
    | MilestoneApproved(escrowId: int, index: int)
    | MilestoneRejected(escrowId: int, index: int)
    | MilestoneDisputed(escrowId: int, index: int)
    | FundsReleased(escrowId: int, amount: int)
    | EscrowCancelled(escrowId: int)
    | DisputeRaised(escrowId: int, raisedBy: string)
    | DisputeResolved(escrowId: int, clientAmount: int, freelancerAmount: int)
    | ReputationUpdated(address: string, score: int)
    | Unknown(eventType: string)
    | Malformed(eventType: string)

  type EventKey = (string, nat)

  datatype Event = Event(ledger: nat, ledgerAt: int, txHash: string, eventIndex: nat, body: Body) {
    /** The unique key of a contract_events row. */
    function Key(): EventKey { (txHash, eventIndex) }

    predicate Known() { !body.Unknown? }
  }

  datatype Tables = Tables(escrows: map<int, Escrow>, milestones: map<(int, int), Milestone>,
                           disputes: map<int, Dispute>, reputations: map<string, Reputation>)

  /** `rows` is the contract_events table in insertion order. */
  datatype Db = Db(tables: Tables, rows: seq<Event>)

  const EMPTY_DB := Db(Tables(map[], map[], map[], map[]), [])

  predicate HasKey(rows: seq<Event>, key: EventKey) {
    exists i :: 0 <= i < |rows| && rows[i].Key() == key
  }

  function SetEscrowStatus(t: Tables, id: int, status: EscrowStatus, at: int): Tables {
    if id in t.escrows then t.(escrows := t.escrows[id := t.escrows[id].(status := status, updatedAt := Some(at))])
    else t
  }

  function SetMilestone(t: Tables, key: (int, int), f: Milestone -> Milestone): Tables {
    if key in t.milestones then t.(milestones := t.milestones[key := f(t.milestones[key])]) else t
  }

  /** The table changes of one handler, or None when a foreign key makes its transaction fail. */
  function Effect(t: Tables, e: Event): Option<Tables> {
    match e.body
    case EscrowCreated(id, client, freelancer, amount) =>
      if id in t.escrows then Some(t)
      else
        var row := Escrow(client, freelancer, amount, amount, Active, e.ledgerAt, e.ledger, None);
        Some(t.(escrows := t.escrows[id := row]))
    case MilestoneAdded(id, index, amount) =>
      if (id, index) in t.milestones then Some(t)
      else if id !in t.escrows then None
      else Some(t.(milestones := t.milestones[(id, index) := Milestone(amount, Pending, None, None)]))
    case MilestoneSubmitted(id, index) =>
      Some(SetMilestone(t, (id, index), (m: Milestone) => m.(status := Submitted, submittedAt := Some(e.ledgerAt))))
    case MilestoneApproved(id, index) =>
      Some(SetMilestone(t, (id, index), (m: Milestone) => m.(status := Approved, resolvedAt := Some(e.ledgerAt))))
    case MilestoneRejected(id, index) =>
      Some(SetMilestone(t, (id, index), (m: Milestone) => m.(status := Rejected, resolvedAt := Some(e.ledgerAt))))
    case MilestoneDisputed(id, index) =>
      Some(SetMilestone(t, (id, index), (m: Milestone) => m.(status := Rejected)))
    case FundsReleased(id, amount) =>
      if id in t.escrows
      then Some(t.(escrows := t.escrows[id := t.escrows[id].(remaining := t.escrows[id].remaining - amount)]))
      else Some(t)
    case EscrowCancelled(id) =>
      Some(SetEscrowStatus(t, id, Cancelled, e.ledgerAt))
    case DisputeRaised(id, raiser) =>
      var t1 := SetEscrowStatus(t, id, Disputed, e.ledgerAt);
      if id in t1.disputes then Some(t1)
      else if id !in t1.escrows then None
      else Some(t1.(disputes := t1.disputes[id := Dispute(raiser, e.ledgerAt, None, None, None)]))
    case DisputeResolved(id, clientAmount, freelancerAmount) =>
      var t1 := SetEscrowStatus(t, id, Completed, e.ledgerAt);
      if id in t1.disputes
      then Some(t1.(disputes := t1.disputes[id := t1.disputes[id].(resolvedAt := Some(e.ledgerAt),
                                                                   clientAmount := Some(clientAmount),
                                                                   freelancerAmount := Some(freelancerAmount))]))
      else Some(t1)
    case ReputationUpdated(address, score) =>
      Some(t.(reputations := t.reputations[address := Reputation(score, e.ledgerAt)]))
    case Unknown(_) => Some(t)
    case Malformed(_) => None
  }

  datatype Outcome = Indexed | Duplicate | Ignored | Failed

  function OutcomeOf(db: Db, e: Event): Outcome {
    if e.body.Unknown? then Ignored
    else if Effect(db.tables, e).None? then Failed
    else if HasKey(db.rows, e.Key()) then Duplicate
    else Indexed
  }

  /** The database after dispatching one event; None when dispatchEvent throws. */
  function After(db: Db, e: Event): Option<Db> {
    match OutcomeOf(db, e)
    case Failed => None
    case Indexed => Some(Db(Effect(db.tables, e).value, db.rows + [e]))
    case _ => Some(db)
  }

  /** Dispatching `events` one at a time, each once and in order. */
  function Replay(db: Db, events: seq<Event>): Option<Db> {
    if events == [] then Some(db)
    else
      match Replay(db, events[..|events| - 1])
      case None => None
      case Some(d) => After(d, events[|events| - 1])
  }

  /** The database rows as an object whose handlers update them in place. */
  class Database {
    var escrows: map<int, Escrow>
    var milestones: map<(int, int), Milestone>
    var disputes: map<int, Dispute>
    var reputations: map<string, Reputation>
    var rows: seq<Event>

    constructor ()
      ensures Contents() == EMPTY_DB
    {
      escrows, milestones, disputes, reputations, rows := map[], map[], map[], map[], [];
    }

    ghost function Contents(): Db
      reads this
    {
      Db(Tables(escrows, milestones, disputes, reputations), rows)
    }

    method UpdateEscrowStatus(id: int, status: EscrowStatus, at: int)
      modifies this`escrows
      ensures Contents().tables == SetEscrowStatus(old(Contents()).tables, id, status, at)
    {
      if id in escrows {
        escrows := escrows[id := escrows[id].(status := status, updatedAt := Some(at))];
      }
    }

    method UpdateMilestone(key: (int, int), f: Milestone -> Milestone)
      modifies this`milestones
      ensures Contents().tables == SetMilestone(old(Contents()).tables, key, f)
    {
      if key in milestones {
        milestones := milestones[key := f(milestones[key])];
      }
    }

    /** The table half of a handler's transaction, in statement order. */
    method RunHandler(e: Event) returns (ok: bool)
      modifies this`escrows, this`milestones, this`disputes, this`reputations
      ensures ok == Effect(old(Contents()).tables, e).Some?
      ensures ok ==> Contents().tables == Effect(old(Contents()).tables, e).value
    {
      ok := true;
      match e.body
      case EscrowCreated(id, client, freelancer, amount) =>
        if id !in escrows {
          escrows := escrows[id := Escrow(client, freelancer, amount, amount, Active, e.ledgerAt, e.ledger, None)];
        }
      case MilestoneAdded(id, index, amount) =>
        if (id, index) !in milestones {
          ok := id in escrows;
          milestones := milestones[(id, index) := Milestone(amount, Pending, None, None)];
        }
      case MilestoneSubmitted(id, index) =>
        UpdateMilestone((id, index), (m: Milestone) => m.(status := Submitted, submittedAt := Some(e.ledgerAt)));
      case MilestoneApproved(id, index) =>
        UpdateMilestone((id, index), (m: Milestone) => m.(status := Approved, resolvedAt := Some(e.ledgerAt)));
      case MilestoneRejected(id, index) =>
        UpdateMilestone((id, index), (m: Milestone) => m.(status := Rejected, resolvedAt := Some(e.ledgerAt)));
      case MilestoneDisputed(id, index) =>
        UpdateMilestone((id, index), (m: Milestone) => m.(status := Rejected));
      case FundsReleased(id, amount) =>
        if id in escrows {
          escrows := escrows[id := escrows[id].(remaining := escrows[id].remaining - amount)];
        }
      case EscrowCancelled(id) =>
        UpdateEscrowStatus(id, Cancelled, e.ledgerAt);
      case DisputeRaised(id, raiser) =>
        UpdateEscrowStatus(id, Disputed, e.ledgerAt);
        if id !in disputes {
          ok := id in escrows;
          disputes := disputes[id := Dispute(raiser, e.ledgerAt, None, None, None)];
        }
      case DisputeResolved(id, clientAmount, freelancerAmount) =>
        UpdateEscrowStatus(id, Completed, e.ledgerAt);
        if id in disputes {
          disputes := disputes[id := disputes[id].(resolvedAt := Some(e.ledgerAt),
                                                   clientAmount := Some(clientAmount),
                                                   freelancerAmount := Some(freelancerAmount))];
        }
      case ReputationUpdated(address, score) =>
        reputations := reputations[address := Reputation(score, e.ledgerAt)];
      case Unknown(_) =>
      case Malformed(_) =>
        ok := false;
    }

    /** dispatchEvent: the handler's transaction commits with its event row or not at all, and a
        unique-key violation is swallowed. */
    method DispatchEvent(e: Event) returns (r: Outcome)
      modifies this
      ensures r == OutcomeOf(old(Contents()), e)
      ensures Contents() == (match After(old(Contents()), e) case Some(d) => d case None => old(Contents()))
    {
      if e.body.Unknown? {
        return Ignored;
      }
      var escrows0, milestones0, disputes0, reputations0 := escrows, milestones, disputes, reputations;
      var ok := RunHandler(e);
      if ok && !HasKey(rows, e.Key()) {
        rows := rows + [e];
        return Indexed;
      }
      escrows, milestones, disputes, reputations := escrows0, milestones0, disputes0, reputations0;
      return if ok then Duplicate else Failed;
    }

    /** The dispatch loop of fetchAndProcessEvents: stops at the first event that throws. */
    method ProcessEvents(events: seq<Event>) returns (done: nat)
      modifies this
      ensures done <= |events|
      ensures Replay(old(Contents()), events[..done]) == Some(Contents())
      ensures done < |events| ==> After(Contents(), events[done]) == None
    {
      done := 0;
      while done < |events|
        invariant done <= |events|
        invariant Replay(old(Contents()), events[..done]) == Some(Contents())
      {
        assert events[..done + 1][..done] == events[..done];
        var r := DispatchEvent(events[done]);
        if r == Failed {
          return;
        }
        done := done + 1;
      }
    }
  }

  function Max(a: nat, b: nat): nat {
    if a < b then b else a
  }

  /** startIndexer's process: the database, the in-memory cursor and the persisted one. */
  class Indexer {
    const db: Database
    var lastProcessedLedger: nat
    var persistedLedger: nat

    constructor (db: Database, persisted: nat)
      ensures this.db == db && lastProcessedLedger == persistedLedger == persisted
    {
      this.db := db;
      lastProcessedLedger, persistedLedger := persisted, persisted;
    }

    /** tick with nothing else running: `latest` is the ledger read after `events` were fetched, and
        `persists` says whether the cursor's row could be written. The cursor moves only when every
        fetched event was dispatched, and never backwards; memory moves before the row is written. */
    method Tick(events: seq<Event>, latest: nat, persists: bool) returns (done: nat)
      modifies this, db
      ensures done <= |events| && Replay(old(db.Contents()), events[..done]) == Some(db.Contents())
      ensures done < |events| ==> After(db.Contents(), events[done]) == None
      ensures lastProcessedLedger == if done == |events| then Max(old(lastProcessedLedger), latest)
                                     else old(lastProcessedLedger)
      ensures persistedLedger == if lastProcessedLedger > old(lastProcessedLedger) && persists
                                 then lastProcessedLedger else old(persistedLedger)
    {
      done := db.ProcessEvents(events);
      if done == |events| && latest > lastProcessedLedger {
        lastProcessedLedger := latest;
        if persists {
          persistedLedger := lastProcessedLedger;
        }
      }
    }
  }

  // ---- What a replay leaves in the tables ----

  ghost predicate TablesGrow(a: Tables, b: Tables) {
    && a.escrows.Keys <= b.escrows.Keys
    && a.milestones.Keys <= b.milestones.Keys
    && a.disputes.Keys <= b.disputes.Keys
  }

  ghost predicate Grows(a: Db, b: Db) {
    TablesGrow(a.tables, b.tables) && a.rows <= b.rows
  }

  predicate OfMilestone(e: Event) {
    e.body.MilestoneAdded? || e.body.MilestoneSubmitted? || e.body.MilestoneApproved? ||
    e.body.MilestoneRejected? || e.body.MilestoneDisputed?
  }

  predicate OfDispute(e: Event) {
    e.body.DisputeRaised? || e.body.DisputeResolved?
  }

  lemma MilestoneEffectGrows(t: Tables, e: Event)
    requires OfMilestone(e) && Effect(t, e).Some?
    ensures TablesGrow(t, Effect(t, e).value)
  {
  }

  lemma DisputeEffectGrows(t: Tables, e: Event)
    requires OfDispute(e) && Effect(t, e).Some?
    ensures TablesGrow(t, Effect(t, e).value)
  {
  }

  lemma OtherEffectGrows(t: Tables, e: Event)
    requires !OfMilestone(e) && !OfDispute(e) && Effect(t, e).Some?
    ensures TablesGrow(t, Effect(t, e).value)
  {
  }

  lemma EffectGrows(t: Tables, e: Event, t': Tables)
    requires Effect(t, e) == Some(t')
    ensures TablesGrow(t, t')
  {
    if OfMilestone(e) {
      MilestoneEffectGrows(t, e);
    } else if OfDispute(e) {
      DisputeEffectGrows(t, e);
    } else {
      OtherEffectGrows(t, e);
    }
  }

  lemma AfterGrows(db: Db, e: Event)
    requires After(db, e).Some?
    ensures Grows(db, After(db, e).value)
    ensures e.Known() ==> HasKey(After(db, e).value.rows, e.Key())
  {
    if OutcomeOf(db, e) == Indexed {
      EffectGrows(db.tables, e, Effect(db.tables, e).value);
      assert After(db, e).value.rows[|db.rows|] == e;
    }
  }

  /** Rows are never deleted, so a foreign key that held once holds ever after. */
  lemma EffectStaysDefined(a: Db, b: Db, e: Event)
    requires Grows(a, b) && Effect(a.tables, e).Some?
    ensures Effect(b.tables, e).Some?
  {
  }

  lemma KeyStays(a: Db, b: Db, key: EventKey)
    requires Grows(a, b) && HasKey(a.rows, key)
    ensures HasKey(b.rows, key)
  {
    var i :| 0 <= i < |a.rows| && a.rows[i].Key() == key;
    assert b.rows[i] == a.rows[i];
  }

  lemma {:induction false} ReplayGrows(db: Db, events: seq<Event>, n: nat)
    requires n <= |events| && Replay(db, events).Some?
    ensures Replay(db, events[..n]).Some?
    ensures Grows(Replay(db, events[..n]).value, Replay(db, events).value)
  {
    if n == |events| {
      assert events[..n] == events;
    } else {
      var front := events[..|events| - 1];
      ReplayGrows(db, front, n);
      assert front[..n] == events[..n];
      AfterGrows(Replay(db, front).value, events[|events| - 1]);
    }
  }

  /** Dispatching an event that an earlier pass already handled changes nothing and does not throw. */
  lemma SecondDispatchIsNoop(db: Db, events: seq<Event>, p: nat)
    requires p < |events| && Replay(db, events).Some?
    ensures After(Replay(db, events).value, events[p]) == Replay(db, events)
  {
    var e := events[p];
    ReplayGrows(db, events, p);
    ReplayGrows(db, events, p + 1);
    assert events[..p + 1][..p] == events[..p];
    var before, after := Replay(db, events[..p]).value, Replay(db, events[..p + 1]).value;
    var final := Replay(db, events).value;
    AfterGrows(before, e);
    if e.Known() {
      EffectStaysDefined(before, final, e);
      KeyStays(after, final, e.Key());
    }
  }

  function KnownEvents(events: seq<Event>): seq<Event> {
    if events == [] then []
    else KnownEvents(events[..|events| - 1]) + (if events[|events| - 1].Known() then [events[|events| - 1]] else [])
  }

  ghost predicate UniqueKeys(events: seq<Event>) {
    forall i, j :: 0 <= i < j < |events| ==> events[i].Key() != events[j].Key()
  }

  lemma {:induction false} KnownEventsAreEvents(events: seq<Event>, r: Event)
    requires r in KnownEvents(events)
    ensures r in events
  {
    var front := events[..|events| - 1];
    if r in KnownEvents(front) {
      KnownEventsAreEvents(front, r);
    }
  }

  /** With distinct keys every known event is recorded exactly once, in order. */
  lemma {:induction false} ReplayRecordsEachOnce(events: seq<Event>)
    requires UniqueKeys(events) && Replay(EMPTY_DB, events).Some?
    ensures Replay(EMPTY_DB, events).value.rows == KnownEvents(events)
  {
    if events != [] {
      var front, last := events[..|events| - 1], events[|events| - 1];
      ReplayRecordsEachOnce(front);
      var rows := Replay(EMPTY_DB, front).value.rows;
      if HasKey(rows, last.Key()) {
        var i :| 0 <= i < |rows| && rows[i].Key() == last.Key();
        KnownEventsAreEvents(front, rows[i]);
        assert false;
      }
    }
  }

  /** Keys in the event table never repeat, whatever the chain delivers. */
  lemma {:induction false} RowKeysStayUnique(events: seq<Event>)
    requires Replay(EMPTY_DB, events).Some?
    ensures UniqueKeys(Replay(EMPTY_DB, events).value.rows)
  {
    if events != [] {
      RowKeysStayUnique(events[..|events| - 1]);
    }
  }

  /** total of the released amounts recorded for an escrow after its creation. */
  function Released(rows: seq<Event>, id: int): int {
    if rows == [] then 0
    else
      var front, last := rows[..|rows| - 1], rows[|rows| - 1].body;
      Released(front, id) +
      if last.FundsReleased? && last.escrowId == id && Created(front, id) then last.amount else 0
  }

  predicate Created(rows: seq<Event>, id: int) {
    exists i :: 0 <= i < |rows| && rows[i].body.EscrowCreated? && rows[i].body.escrowId == id
  }

  /** The first recorded creation of an escrow. */
  function Creation(rows: seq<Event>, id: int): (e: Event)
    requires Created(rows, id)
    ensures e.body.EscrowCreated?
  {
    var front, last := rows[..|rows| - 1], rows[|rows| - 1];
    if Created(front, id) then Creation(front, id) else (CreatedLast(rows, id); last)
  }

  lemma CreatedLast(rows: seq<Event>, id: int)
    requires Created(rows, id) && !Created(rows[..|rows| - 1], id)
    ensures rows[|rows| - 1].body.EscrowCreated?
  {
    var front := rows[..|rows| - 1];
    assert forall i :: 0 <= i < |front| ==> front[i] == rows[i];
  }

  /** The status given to an escrow by the last row that sets it after its creation, and that row's time. */
  function LastEscrowStatus(rows: seq<Event>, id: int): Option<(EscrowStatus, Option<int>)> {
    if rows == [] then None
    else
      var before := LastEscrowStatus(rows[..|rows| - 1], id);
      var e := rows[|rows| - 1];
      var b := e.body;
      if b.EscrowCreated? && b.escrowId == id && before.None? then Some((Active, None))
      else if before.None? then None
      else if b.EscrowCancelled? && b.escrowId == id then Some((Cancelled, Some(e.ledgerAt)))
      else if b.DisputeRaised? && b.escrowId == id then Some((Disputed, Some(e.ledgerAt)))
      else if b.DisputeResolved? && b.escrowId == id then Some((Completed, Some(e.ledgerAt)))
      else before
  }

  /** What the recorded events say of one milestone: its amount and Pending from the first creation,
      then the status, and the times of the last submission and the last verdict. */
  function RecordedMilestone(rows: seq<Event>, key: (int, int)): Option<Milestone> {
    if rows == [] then None
    else MilestoneStep(RecordedMilestone(rows[..|rows| - 1], key), rows[|rows| - 1], key)
  }

  /** The score and time of the last recorded update of an address. */
  function LastReputation(rows: seq<Event>, address: string): Option<Reputation> {
    if rows == [] then None
    else
      var e := rows[|rows| - 1];
      if e.body.ReputationUpdated? && e.body.address == address then Some(Reputation(e.body.score, e.ledgerAt))
      else LastReputation(rows[..|rows| - 1], address)
  }

  /** The first recorded dispute of an escrow, with the last resolution recorded after it. */
  function RecordedDispute(rows: seq<Event>, id: int): Option<Dispute> {
    if rows == [] then None
    else DisputeStep(RecordedDispute(rows[..|rows| - 1], id), rows[|rows| - 1], id)
  }

  function DisputeStep(row: Option<Dispute>, e: Event, id: int): Option<Dispute> {
    match e.body
    case DisputeRaised(i, raiser) =>
      if i == id && row.None? then Some(Dispute(raiser, e.ledgerAt, None, None, None)) else row
    case DisputeResolved(i, clientAmount, freelancerAmount) =>
      if i == id && row.Some?
      then Some(row.value.(resolvedAt := Some(e.ledgerAt), clientAmount := Some(clientAmount),
                           freelancerAmount := Some(freelancerAmount)))
      else row
    case _ => row
  }

  function MilestoneStep(row: Option<Milestone>, e: Event, key: (int, int)): Option<Milestone> {
    match e.body
    case MilestoneAdded(i, k, amount) =>
      if (i, k) == key && row.None? then Some(Milestone(amount, Pending, None, None)) else row
    case MilestoneSubmitted(i, k) =>
      if (i, k) == key && row.Some? then Some(row.value.(status := Submitted, submittedAt := Some(e.ledgerAt))) else row
    case MilestoneApproved(i, k) =>
      if (i, k) == key && row.Some? then Some(row.value.(status := Approved, resolvedAt := Some(e.ledgerAt))) else row
    case MilestoneRejected(i, k) =>
      if (i, k) == key && row.Some? then Some(row.value.(status := Rejected, resolvedAt := Some(e.ledgerAt))) else row
    case MilestoneDisputed(i, k) =>
      if (i, k) == key && row.Some? then Some(row.value.(status := Rejected)) else row
    case _ => row
  }

  /** The reputation table after a handler: one row set by an update, nothing by anything else. */
  function ReputationsAfter(reputations: map<string, Reputation>, e: Event): map<string, Reputation> {
    if e.body.ReputationUpdated? then reputations[e.body.address := Reputation(e.body.score, e.ledgerAt)]
    else reputations
  }

  function Row<K, V>(table: map<K, V>, key: K): Option<V> {
    if key in table then Some(table[key]) else None
  }

  /** What the recorded events say an escrow row must hold. */
  ghost predicate EscrowExplained(row: Option<Escrow>, rows: seq<Event>, id: int) {
    && (row.Some? <==> Created(rows, id))
    && (row.None? ==> LastEscrowStatus(rows, id) == None)
    && (row.Some? ==>
          var e := Creation(rows, id);
          var status := LastEscrowStatus(rows, id);
          && status.Some?
          && row.value == Escrow(e.body.client, e.body.freelancer, e.body.amount, e.body.amount - Released(rows, id),
                                 status.value.0, e.ledgerAt, e.ledger, status.value.1))
  }

  /** Every row of the four tables is what the recorded events say, each of them counted once: an
      escrow's balance is its funding minus each release, every other field is the last one written. */
  ghost predicate Explained(db: Db) {
    && (forall id :: EscrowExplained(Row(db.tables.escrows, id), db.rows, id))
    && (forall key :: Row(db.tables.milestones, key) == RecordedMilestone(db.rows, key))
    && (forall id :: Row(db.tables.disputes, id) == RecordedDispute(db.rows, id))
    && (forall address :: Row(db.tables.reputations, address) == LastReputation(db.rows, address))
  }

  lemma CreatedAppend(rows: seq<Event>, e: Event, id: int)
    ensures Created(rows + [e], id) <==> Created(rows, id) || (e.body.EscrowCreated? && e.body.escrowId == id)
  {
    var all := rows + [e];
    if Created(rows, id) {
      var i :| 0 <= i < |rows| && rows[i].body.EscrowCreated? && rows[i].body.escrowId == id;
      assert all[i] == rows[i];
    }
    assert all[|rows|] == e;
  }

  lemma {:induction false} ReleasedBeforeCreation(rows: seq<Event>, id: int)
    requires !Created(rows, id)
    ensures Released(rows, id) == 0
  {
    if rows != [] {
      var front := rows[..|rows| - 1];
      assert rows == front + [rows[|rows| - 1]];
      CreatedAppend(front, rows[|rows| - 1], id);
      ReleasedBeforeCreation(front, id);
    }
  }

  /** The part of Effect that one escrow row sees. */
  function EscrowStep(row: Option<Escrow>, e: Event, id: int): Option<Escrow> {
    match e.body
    case EscrowCreated(i, client, freelancer, amount) =>
      if i == id && row.None? then Some(Escrow(client, freelancer, amount, amount, Active, e.ledgerAt, e.ledger, None))
      else row
    case FundsReleased(i, amount) =>
      if i == id && row.Some? then Some(row.value.(remaining := row.value.remaining - amount)) else row
    case EscrowCancelled(i) =>
      if i == id && row.Some? then Some(row.value.(status := Cancelled, updatedAt := Some(e.ledgerAt))) else row
    case DisputeRaised(i, _) =>
      if i == id && row.Some? then Some(row.value.(status := Disputed, updatedAt := Some(e.ledgerAt))) else row
    case DisputeResolved(i, _, _) =>
      if i == id && row.Some? then Some(row.value.(status := Completed, updatedAt := Some(e.ledgerAt))) else row
    case _ => row
  }

  /** A handler changes the row its event names as that row's step says, and no other. */
  ghost predicate RowByRow(t: Tables, e: Event, t': Tables) {
    && (forall id :: Row(t'.escrows, id) == EscrowStep(Row(t.escrows, id), e, id))
    && (forall key :: Row(t'.milestones, key) == MilestoneStep(Row(t.milestones, key), e, key))
    && (forall id :: Row(t'.disputes, id) == DisputeStep(Row(t.disputes, id), e, id))
    && t'.reputations == ReputationsAfter(t.reputations, e)
  }

  lemma AddedRowByRow(t: Tables, e: Event)
    requires e.body.MilestoneAdded? && Effect(t, e).Some?
    ensures RowByRow(t, e, Effect(t, e).value)
  {
  }

  lemma MilestoneRowByRow(t: Tables, e: Event)
    requires OfMilestone(e) && !e.body.MilestoneAdded? && Effect(t, e).Some?
    ensures RowByRow(t, e, Effect(t, e).value)
  {
  }

  lemma RaisedRowByRow(t: Tables, e: Event)
    requires e.body.DisputeRaised? && Effect(t, e).Some?
    ensures RowByRow(t, e, Effect(t, e).value)
  {
  }

  lemma ResolvedRowByRow(t: Tables, e: Event)
    requires e.body.DisputeResolved? && Effect(t, e).Some?
    ensures RowByRow(t, e, Effect(t, e).value)
  {
  }

  predicate OfEscrow(e: Event) {
    e.body.EscrowCreated? || e.body.FundsReleased? || e.body.EscrowCancelled?
  }

  lemma EscrowRowByRow(t: Tables, e: Event)
    requires OfEscrow(e) && Effect(t, e).Some?
    ensures RowByRow(t, e, Effect(t, e).value)
  {
  }

  lemma OtherRowByRow(t: Tables, e: Event)
    requires !OfMilestone(e) && !OfDispute(e) && !OfEscrow(e) && Effect(t, e).Some?
    ensures RowByRow(t, e, Effect(t, e).value)
  {
  }

  lemma EffectRowByRow(t: Tables, e: Event, t': Tables)
    requires Effect(t, e) == Some(t')
    ensures RowByRow(t, e, t')
  {
    if e.body.MilestoneAdded? {
      AddedRowByRow(t, e);
    } else if OfMilestone(e) {
      MilestoneRowByRow(t, e);
    } else if e.body.DisputeRaised? {
      RaisedRowByRow(t, e);
    } else if e.body.DisputeResolved? {
      ResolvedRowByRow(t, e);
    } else if OfEscrow(e) {
      EscrowRowByRow(t, e);
    } else {
      OtherRowByRow(t, e);
    }
  }

  lemma EscrowStepExplained(row: Option<Escrow>, rows: seq<Event>, e: Event, id: int)
    requires EscrowExplained(row, rows, id)
    ensures EscrowExplained(EscrowStep(row, e, id), rows + [e], id)
  {
    assert (rows + [e])[..|rows|] == rows;
    CreatedAppend(rows, e, id);
    if !Created(rows, id) {
      ReleasedBeforeCreation(rows, id);
    }
  }

  lemma RecordedAppend(rows: seq<Event>, e: Event)
    ensures forall key :: RecordedMilestone(rows + [e], key) == MilestoneStep(RecordedMilestone(rows, key), e, key)
    ensures forall id :: RecordedDispute(rows + [e], id) == DisputeStep(RecordedDispute(rows, id), e, id)
  {
    assert (rows + [e])[..|rows|] == rows;
  }

  lemma ReputationStepExplained(table: map<string, Reputation>, rows: seq<Event>, e: Event)
    requires forall address :: Row(table, address) == LastReputation(rows, address)
    ensures forall address :: Row(ReputationsAfter(table, e), address) == LastReputation(rows + [e], address)
  {
    assert (rows + [e])[..|rows|] == rows;
  }

  lemma AppendKeepsExplained(db: Db, e: Event, t': Tables)
    requires Explained(db) && Effect(db.tables, e) == Some(t')
    ensures Explained(Db(t', db.rows + [e]))
  {
    EffectRowByRow(db.tables, e, t');
    RecordedAppend(db.rows, e);
    forall id
      ensures EscrowExplained(Row(t'.escrows, id), db.rows + [e], id)
    {
      EscrowStepExplained(Row(db.tables.escrows, id), db.rows, e, id);
    }
    ReputationStepExplained(db.tables.reputations, db.rows, e);
  }

  /** No balance is decremented twice and no replay regresses a milestone, for every event list. */
  lemma {:induction false} ReplayIsExplained(events: seq<Event>)
    requires Replay(EMPTY_DB, events).Some?
    ensures Explained(Replay(EMPTY_DB, events).value)
  {
    if events != [] {
      var front, last := events[..|events| - 1], events[|events| - 1];
      ReplayIsExplained(front);
      var db := Replay(EMPTY_DB, front).value;
      if OutcomeOf(db, last) == Indexed {
        AppendKeepsExplained(db, last, Effect(db.tables, last).value);
      }
    }
  }

  // ---- Which events can be indexed ----

  /** The payload cannot be parsed, or a row to be inserted refers to an escrow that is not stored. */
  predicate Fails(t: Tables, e: Event) {
    match e.body
    case Malformed(_) => true
    case MilestoneAdded(id, index, _) => (id, index) !in t.milestones && id !in t.escrows
    case DisputeRaised(id, _) => id !in t.disputes && id !in t.escrows
    case _ => false
  }

  /** These events, and no others, have no effect but an exception. */
  lemma EffectFailsIff(t: Tables, e: Event)
    ensures Effect(t, e) == None <==> Fails(t, e)
  {
  }

  /** Every milestone and every dispute belongs to a stored escrow. */
  ghost predicate ForeignKeys(t: Tables) {
    && (forall key :: key in t.milestones ==> key.0 in t.escrows)
    && (forall id :: id in t.disputes ==> id in t.escrows)
  }

  lemma MilestoneKeepsForeignKeys(t: Tables, e: Event)
    requires ForeignKeys(t) && OfMilestone(e) && Effect(t, e).Some?
    ensures ForeignKeys(Effect(t, e).value)
  {
  }

  lemma DisputeKeepsForeignKeys(t: Tables, e: Event)
    requires ForeignKeys(t) && OfDispute(e) && Effect(t, e).Some?
    ensures ForeignKeys(Effect(t, e).value)
  {
  }

  lemma OtherKeepsForeignKeys(t: Tables, e: Event)
    requires ForeignKeys(t) && !OfMilestone(e) && !OfDispute(e) && Effect(t, e).Some?
    ensures ForeignKeys(Effect(t, e).value)
  {
  }

  lemma {:induction false} ReplayKeepsForeignKeys(events: seq<Event>)
    requires Replay(EMPTY_DB, events).Some?
    ensures ForeignKeys(Replay(EMPTY_DB, events).value.tables)
  {
    if events != [] {
      var front, last := events[..|events| - 1], events[|events| - 1];
      ReplayKeepsForeignKeys(front);
      var db := Replay(EMPTY_DB, front).value;
      if OutcomeOf(db, last) == Indexed {
        if OfMilestone(last) {
          MilestoneKeepsForeignKeys(db.tables, last);
        } else if OfDispute(last) {
          DisputeKeepsForeignKeys(db.tables, last);
        } else {
          OtherKeepsForeignKeys(db.tables, last);
        }
      }
    }
  }

  /** Event i has a handler and is the first of its key. */
  ghost predicate FirstOfKey(events: seq<Event>, i: nat) {
    && i < |events| && events[i].Known()
    && forall j :: 0 <= j < i && events[j].Known() ==> events[j].Key() != events[i].Key()
  }

  /** Some event creates the escrow under a key that no event before it has. */
  ghost predicate CreatedBy(events: seq<Event>, id: int) {
    exists i: nat :: FirstOfKey(events, i) && events[i].body.EscrowCreated? && events[i].body.escrowId == id
  }

  lemma FirstOfKeyAppend(events: seq<Event>, e: Event, i: nat)
    requires i < |events|
    ensures FirstOfKey(events + [e], i) <==> FirstOfKey(events, i)
  {
    var all := events + [e];
    assert forall j :: 0 <= j <= i ==> all[j] == events[j];
  }

  lemma CreatedByAppend(events: seq<Event>, e: Event, id: int)
    ensures CreatedBy(events + [e], id) <==>
              || CreatedBy(events, id)
              || (FirstOfKey(events + [e], |events|) && e.body.EscrowCreated? && e.body.escrowId == id)
  {
    var all := events + [e];
    forall i: nat | i < |events|
      ensures all[i] == events[i] && (FirstOfKey(all, i) <==> FirstOfKey(events, i))
    {
      FirstOfKeyAppend(events, e, i);
    }
    if CreatedBy(events, id) {
      var i: nat :| FirstOfKey(events, i) && events[i].body.EscrowCreated? && events[i].body.escrowId == id;
      assert FirstOfKey(all, i);
    }
    assert all[|events|] == e;
  }

  /** The event table has the key of every known event dispatched so far. */
  lemma {:induction false} ReplayHasKeys(events: seq<Event>, key: EventKey)
    requires Replay(EMPTY_DB, events).Some?
    ensures HasKey(Replay(EMPTY_DB, events).value.rows, key)
       <==> exists j :: 0 <= j < |events| && events[j].Known() && events[j].Key() == key
  {
    if events != [] {
      var front, last := events[..|events| - 1], events[|events| - 1];
      ReplayHasKeys(front, key);
      var db, db1 := Replay(EMPTY_DB, front).value, Replay(EMPTY_DB, events).value;
      AfterGrows(db, last);
      if HasKey(db.rows, key) {
        KeyStays(db, db1, key);
      } else {
        NewKeyIsLast(db, last, key);
      }
    }
  }

  lemma NewKeyIsLast(db: Db, e: Event, key: EventKey)
    requires !HasKey(db.rows, key) && After(db, e).Some?
    ensures HasKey(After(db, e).value.rows, key) <==> e.Known() && e.Key() == key
  {
    var rows := After(db, e).value.rows;
    if OutcomeOf(db, e) == Indexed {
      assert forall i :: 0 <= i < |db.rows| ==> rows[i] == db.rows[i];
      assert rows[|db.rows|] == e;
    }
  }

  /** The recorded creations are the first deliveries of a creation. */
  lemma {:induction false} RecordedCreations(events: seq<Event>, id: int)
    requires Replay(EMPTY_DB, events).Some?
    ensures Created(Replay(EMPTY_DB, events).value.rows, id) <==> CreatedBy(events, id)
  {
    if events != [] {
      var front, last := events[..|events| - 1], events[|events| - 1];
      assert events == front + [last];
      RecordedCreations(front, id);
      CreatedByAppend(front, last, id);
      ReplayHasKeys(front, last.Key());
      var rows := Replay(EMPTY_DB, front).value.rows;
      assert FirstOfKey(events, |front|) <==> last.Known() && !HasKey(rows, last.Key());
      CreatedAppend(rows, last, id);
    }
  }

  /** With distinct keys any earlier creation counts. */
  lemma UniqueKeysCreate(events: seq<Event>, id: int)
    requires UniqueKeys(events)
    ensures CreatedBy(events, id) <==> Created(events, id)
  {
    if Created(events, id) {
      var i :| 0 <= i < |events| && events[i].body.EscrowCreated? && events[i].body.escrowId == id;
      assert FirstOfKey(events, i);
    }
  }

  /** Event k parses, and the escrow that a new milestone or dispute belongs to was created before it. */
  ghost predicate SoundAt(events: seq<Event>, k: nat)
    requires k < |events|
  {
    match events[k].body
    case Malformed(_) => false
    case MilestoneAdded(id, _, _) => CreatedBy(events[..k], id)
    case DisputeRaised(id, _) => CreatedBy(events[..k], id)
    case _ => true
  }

  ghost predicate Sound(events: seq<Event>) {
    forall k :: 0 <= k < |events| ==> SoundAt(events, k)
  }

  /** What the last event needs in order to be dispatched, said of the events before it. */
  lemma FailsExactlyIfUnsound(events: seq<Event>, n: nat)
    requires n < |events| && Replay(EMPTY_DB, events[..n]).Some?
    ensures After(Replay(EMPTY_DB, events[..n]).value, events[n]) == None <==> !SoundAt(events, n)
  {
    var db := Replay(EMPTY_DB, events[..n]).value;
    EffectFailsIff(db.tables, events[n]);
    if events[n].body.MilestoneAdded? || events[n].body.DisputeRaised? {
      var id := events[n].body.escrowId;
      ReplayKeepsForeignKeys(events[..n]);
      ReplayIsExplained(events[..n]);
      RecordedCreations(events[..n], id);
      assert EscrowExplained(Row(db.tables.escrows, id), db.rows, id);
    }
  }

  lemma ReplayNext(events: seq<Event>, n: nat)
    requires n < |events|
    ensures Replay(EMPTY_DB, events[..n + 1]).Some? <==>
              Replay(EMPTY_DB, events[..n]).Some? && After(Replay(EMPTY_DB, events[..n]).value, events[n]).Some?
  {
    assert events[..n + 1][..n] == events[..n];
  }

  lemma {:induction false} PrefixReplaysIff(events: seq<Event>, n: nat)
    requires n <= |events|
    ensures Replay(EMPTY_DB, events[..n]).Some? <==> forall k :: 0 <= k < n ==> SoundAt(events, k)
    decreases n
  {
    if n > 0 {
      PrefixReplaysIff(events, n - 1);
      ReplayNext(events, n - 1);
      if Replay(EMPTY_DB, events[..n - 1]).Some? {
        FailsExactlyIfUnsound(events, n - 1);
      }
    }
  }

  /** A chain can be indexed from the empty database if and only if every event parses and the
      escrow of every new milestone and dispute was created earlier in the chain. */
  lemma ReplaySucceedsIff(events: seq<Event>)
    ensures Replay(EMPTY_DB, events).Some? <==> Sound(events)
  {
    assert events[..|events|] == events;
    PrefixReplaysIff(events, |events|);
  }
}
