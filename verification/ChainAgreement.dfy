/** The handlers of backend/services/eventIndexer.js are modelled twice, over whole rows in EventTables and over the
    columns of the money flow in EscrowMoney. The two models agree. */
module ChainAgreement {
  import opened Wrappers
  import T = EventTables
  import M = EscrowMoney

  function StatusOf(s: T.EscrowStatus): M.Status {
    match s
    case Active => M.Status.Active
    case Completed => M.Status.Completed
    case Disputed => M.Status.Disputed
    case Cancelled => M.Status.Cancelled
  }

  function MilestoneStatusOf(s: T.MilestoneStatus): M.MilestoneStatus {
    match s
    case Pending => M.MilestoneStatus.Pending
    case Submitted => M.MilestoneStatus.Submitted
    case Approved => M.MilestoneStatus.Approved
    case Rejected => M.MilestoneStatus.Rejected
  }

  function EscrowOf(e: T.Escrow): M.Escrow {
    M.Escrow(e.total, e.remaining, StatusOf(e.status))
  }

  function AmountOf(a: Option<int>): int {
    if a.Some? then a.value else 0
  }

  function DisputeOf(d: T.Dispute): M.Dispute {
    M.Dispute(d.raisedBy, d.resolvedAt.Some?, AmountOf(d.clientAmount), AmountOf(d.freelancerAmount))
  }

  ghost predicate ShowsEscrows(table: map<int, T.Escrow>, columns: map<int, M.Escrow>) {
    forall id :: T.Row(columns, id) == EscrowRow(T.Row(table, id))
  }

  ghost predicate ShowsMilestones(table: map<(int, int), T.Milestone>, columns: map<(int, int), M.MilestoneStatus>) {
    forall key :: T.Row(columns, key) == MilestoneRow(T.Row(table, key))
  }

  ghost predicate ShowsDisputes(table: map<int, T.Dispute>, columns: map<int, M.Dispute>) {
    forall id :: T.Row(columns, id) == DisputeRow(T.Row(table, id))
  }

  /** The columns of the money flow in the indexer's tables. */
  ghost predicate Shows(t: T.Tables, db: M.Db) {
    && ShowsEscrows(t.escrows, db.escrows)
    && ShowsMilestones(t.milestones, db.milestones)
    && ShowsDisputes(t.disputes, db.disputes)
  }

  function EscrowRow(row: Option<T.Escrow>): Option<M.Escrow> {
    match row
    case None => None
    case Some(e) => Some(EscrowOf(e))
  }

  function MilestoneRow(row: Option<T.Milestone>): Option<M.MilestoneStatus> {
    match row
    case None => None
    case Some(m) => Some(MilestoneStatusOf(m.status))
  }

  function DisputeRow(row: Option<T.Dispute>): Option<M.Dispute> {
    match row
    case None => None
    case Some(d) => Some(DisputeOf(d))
  }

  /** An event as the money flow sees it; None where it touches none of its columns. */
  function ChainEventOf(b: T.Body): Option<M.ChainEvent> {
    match b
    case EscrowCreated(id, _, _, amount) => Some(M.ChainEvent.EscrowCreated(id, amount))
    case MilestoneAdded(id, index, _) => Some(M.ChainEvent.MilestoneAdded(id, index))
    case MilestoneSubmitted(id, index) => Some(M.MilestoneSet(id, index, M.MilestoneStatus.Submitted))
    case MilestoneApproved(id, index) => Some(M.MilestoneSet(id, index, M.MilestoneStatus.Approved))
    case MilestoneRejected(id, index) => Some(M.MilestoneSet(id, index, M.MilestoneStatus.Rejected))
    case MilestoneDisputed(id, index) => Some(M.MilestoneSet(id, index, M.MilestoneStatus.Rejected))
    case FundsReleased(id, amount) => Some(M.ChainEvent.FundsReleased(id, amount))
    case EscrowCancelled(id) => Some(M.ChainEvent.EscrowCancelled(id))
    case DisputeRaised(id, raisedBy) => Some(M.ChainEvent.DisputeRaised(id, raisedBy))
    case DisputeResolved(id, client, freelancer) => Some(M.ChainEvent.DisputeResolved(id, client, freelancer))
    case _ => None
  }

  function Columns(s: M.State, b: T.Body): M.Db {
    match ChainEventOf(b)
    case Some(e) => M.ChainStep(s, e).db
    case None => s.db
  }

  /** The tables an event leaves; a handler that fails leaves them as they were. */
  function TablesAfter(t: T.Tables, e: T.Event): T.Tables {
    match T.Effect(t, e)
    case Some(t') => t'
    case None => t
  }

  lemma SameKeys(t: T.Tables, db: M.Db, id: int, index: int)
    requires Shows(t, db)
    ensures id in db.escrows <==> id in t.escrows
    ensures (id, index) in db.milestones <==> (id, index) in t.milestones
    ensures id in db.disputes <==> id in t.disputes
  {
    assert T.Row(db.escrows, id) == EscrowRow(T.Row(t.escrows, id));
    assert T.Row(db.milestones, (id, index)) == MilestoneRow(T.Row(t.milestones, (id, index)));
    assert T.Row(db.disputes, id) == DisputeRow(T.Row(t.disputes, id));
  }

  lemma FundingRowAgrees(row: Option<T.Escrow>, s: M.State, e: T.Event, id: int)
    requires T.Row(s.db.escrows, id) == EscrowRow(row) && (e.body.EscrowCreated? || e.body.FundsReleased?)
    ensures T.Row(Columns(s, e.body).escrows, id) == EscrowRow(T.EscrowStep(row, e, id))
  {
  }

  lemma SetStatusRow(db: M.Db, status: M.Status, on: int, id: int, row: Option<M.Escrow>)
    requires T.Row(db.escrows, id) == row
    ensures T.Row(M.SetEscrowStatus(db, on, status).escrows, id)
         == if on == id && row.Some? then Some(row.value.(status := status)) else row
  {
  }

  lemma DisputeColumns(s: M.State, b: T.Body)
    ensures b.EscrowCancelled? ==>
              Columns(s, b).escrows == M.SetEscrowStatus(s.db, b.escrowId, M.Status.Cancelled).escrows
    ensures b.DisputeRaised? ==>
              Columns(s, b).escrows == M.SetEscrowStatus(s.db, b.escrowId, M.Status.Disputed).escrows
    ensures b.DisputeResolved? ==>
              Columns(s, b).escrows == M.SetEscrowStatus(s.db, b.escrowId, M.Status.Completed).escrows
  {
  }

  lemma StatusRowAgrees(row: Option<T.Escrow>, s: M.State, e: T.Event, id: int)
    requires T.Row(s.db.escrows, id) == EscrowRow(row) && (e.body.EscrowCancelled? || T.OfDispute(e))
    ensures T.Row(Columns(s, e.body).escrows, id) == EscrowRow(T.EscrowStep(row, e, id))
  {
    DisputeColumns(s, e.body);
    match e.body
    case EscrowCancelled(on) => SetStatusRow(s.db, M.Status.Cancelled, on, id, EscrowRow(row));
    case DisputeRaised(on, _) => SetStatusRow(s.db, M.Status.Disputed, on, id, EscrowRow(row));
    case DisputeResolved(on, _, _) => SetStatusRow(s.db, M.Status.Completed, on, id, EscrowRow(row));
  }

  lemma OtherEscrowRow(row: Option<T.Escrow>, s: M.State, e: T.Event, id: int)
    requires !e.body.EscrowCreated? && !e.body.FundsReleased? && !e.body.EscrowCancelled? && !T.OfDispute(e)
    ensures Columns(s, e.body).escrows == s.db.escrows && T.EscrowStep(row, e, id) == row
  {
  }

  lemma EscrowRowAgrees(row: Option<T.Escrow>, s: M.State, e: T.Event, id: int)
    requires T.Row(s.db.escrows, id) == EscrowRow(row)
    ensures T.Row(Columns(s, e.body).escrows, id) == EscrowRow(T.EscrowStep(row, e, id))
  {
    if e.body.EscrowCreated? || e.body.FundsReleased? {
      FundingRowAgrees(row, s, e, id);
    } else if e.body.EscrowCancelled? || T.OfDispute(e) {
      StatusRowAgrees(row, s, e, id);
    } else {
      OtherEscrowRow(row, s, e, id);
    }
  }

  lemma AddedRowAgrees(row: Option<T.Milestone>, s: M.State, e: T.Event, key: (int, int))
    requires T.Row(s.db.milestones, key) == MilestoneRow(row) && e.body.MilestoneAdded?
    requires row.None? && key.0 == e.body.escrowId ==> key.0 in s.db.escrows
    ensures T.Row(Columns(s, e.body).milestones, key) == MilestoneRow(T.MilestoneStep(row, e, key))
  {
  }

  lemma OthersKeepMilestones(s: M.State, e: M.ChainEvent)
    requires !e.MilestoneAdded? && !e.MilestoneSet?
    ensures M.ChainStep(s, e).db.milestones == s.db.milestones
  {
  }

  lemma OtherMilestoneRow(row: Option<T.Milestone>, s: M.State, e: T.Event, key: (int, int))
    requires !T.OfMilestone(e)
    ensures Columns(s, e.body).milestones == s.db.milestones && T.MilestoneStep(row, e, key) == row
  {
    match ChainEventOf(e.body)
    case Some(c) => OthersKeepMilestones(s, c);
    case None =>
  }

  lemma SetRowAgrees(row: Option<T.Milestone>, s: M.State, e: T.Event, key: (int, int))
    requires T.Row(s.db.milestones, key) == MilestoneRow(row) && T.OfMilestone(e) && !e.body.MilestoneAdded?
    ensures T.Row(Columns(s, e.body).milestones, key) == MilestoneRow(T.MilestoneStep(row, e, key))
  {
  }

  lemma MilestoneRowAgrees(row: Option<T.Milestone>, s: M.State, e: T.Event, key: (int, int))
    requires T.Row(s.db.milestones, key) == MilestoneRow(row)
    requires e.body.MilestoneAdded? && row.None? && key.0 == e.body.escrowId ==> key.0 in s.db.escrows
    ensures T.Row(Columns(s, e.body).milestones, key) == MilestoneRow(T.MilestoneStep(row, e, key))
  {
    if e.body.MilestoneAdded? {
      AddedRowAgrees(row, s, e, key);
    } else if T.OfMilestone(e) {
      SetRowAgrees(row, s, e, key);
    } else {
      OtherMilestoneRow(row, s, e, key);
    }
  }

  lemma OthersKeepDisputes(s: M.State, e: M.ChainEvent)
    requires !e.DisputeRaised? && !e.DisputeResolved?
    ensures M.ChainStep(s, e).db.disputes == s.db.disputes
  {
  }

  lemma RaisedRowAgrees(row: Option<T.Dispute>, s: M.State, e: T.Event, id: int)
    requires T.Row(s.db.disputes, id) == DisputeRow(row) && e.body.DisputeRaised?
    requires id == e.body.escrowId ==> id in s.db.escrows
    ensures T.Row(Columns(s, e.body).disputes, id) == DisputeRow(T.DisputeStep(row, e, id))
  {
  }

  lemma ResolvedRowAgrees(row: Option<T.Dispute>, s: M.State, e: T.Event, id: int)
    requires T.Row(s.db.disputes, id) == DisputeRow(row) && e.body.DisputeResolved?
    ensures T.Row(Columns(s, e.body).disputes, id) == DisputeRow(T.DisputeStep(row, e, id))
  {
  }

  lemma DisputeRowAgrees(row: Option<T.Dispute>, s: M.State, e: T.Event, id: int)
    requires T.Row(s.db.disputes, id) == DisputeRow(row)
    requires e.body.DisputeRaised? && id == e.body.escrowId ==> id in s.db.escrows
    ensures T.Row(Columns(s, e.body).disputes, id) == DisputeRow(T.DisputeStep(row, e, id))
  {
    if e.body.DisputeRaised? {
      RaisedRowAgrees(row, s, e, id);
    } else if e.body.DisputeResolved? {
      ResolvedRowAgrees(row, s, e, id);
    } else {
      OtherDisputeRow(row, s, e, id);
    }
  }

  lemma OtherDisputeRow(row: Option<T.Dispute>, s: M.State, e: T.Event, id: int)
    requires !T.OfDispute(e)
    ensures Columns(s, e.body).disputes == s.db.disputes && T.DisputeStep(row, e, id) == row
  {
    match ChainEventOf(e.body)
    case Some(c) => OthersKeepDisputes(s, c);
    case None =>
  }

  lemma FailureAgrees(t: T.Tables, s: M.State, e: T.Event)
    requires Shows(t, s.db) && T.Fails(t, e)
    ensures Columns(s, e.body) == s.db
  {
    match e.body
    case MilestoneAdded(id, index, _) => SameKeys(t, s.db, id, index);
    case DisputeRaised(id, _) => SameKeys(t, s.db, id, 0);
    case _ =>
  }

  lemma EscrowsAgree(t: T.Tables, s: M.State, e: T.Event, t': T.Tables)
    requires ShowsEscrows(t.escrows, s.db.escrows) && T.RowByRow(t, e, t')
    ensures ShowsEscrows(t'.escrows, Columns(s, e.body).escrows)
  {
    forall id
      ensures T.Row(Columns(s, e.body).escrows, id) == EscrowRow(T.Row(t'.escrows, id))
    {
      EscrowRowAgrees(T.Row(t.escrows, id), s, e, id);
    }
  }

  lemma MilestonesAgree(t: T.Tables, s: M.State, e: T.Event, t': T.Tables)
    requires Shows(t, s.db) && T.RowByRow(t, e, t') && !T.Fails(t, e)
    ensures ShowsMilestones(t'.milestones, Columns(s, e.body).milestones)
  {
    forall key: (int, int)
      ensures T.Row(Columns(s, e.body).milestones, key) == MilestoneRow(T.Row(t'.milestones, key))
    {
      SameKeys(t, s.db, key.0, key.1);
      if T.Row(t.milestones, key).None? && e.body.MilestoneAdded? && (e.body.escrowId, e.body.index) != key {
        OtherMilestoneAgrees(s, e, key);
      } else {
        MilestoneRowAgrees(T.Row(t.milestones, key), s, e, key);
      }
    }
  }

  lemma OtherMilestoneAgrees(s: M.State, e: T.Event, key: (int, int))
    requires e.body.MilestoneAdded? && (e.body.escrowId, e.body.index) != key && key !in s.db.milestones
    ensures T.Row(Columns(s, e.body).milestones, key) == None
    ensures T.MilestoneStep(None, e, key) == None
  {
  }

  lemma DisputesAgree(t: T.Tables, s: M.State, e: T.Event, t': T.Tables)
    requires Shows(t, s.db) && T.ForeignKeys(t) && T.RowByRow(t, e, t') && !T.Fails(t, e)
    ensures ShowsDisputes(t'.disputes, Columns(s, e.body).disputes)
  {
    forall id
      ensures T.Row(Columns(s, e.body).disputes, id) == DisputeRow(T.Row(t'.disputes, id))
    {
      SameKeys(t, s.db, id, 0);
      DisputeRowAgrees(T.Row(t.disputes, id), s, e, id);
    }
  }

  lemma SuccessAgrees(t: T.Tables, s: M.State, e: T.Event, t': T.Tables)
    requires Shows(t, s.db) && T.ForeignKeys(t) && T.RowByRow(t, e, t') && !T.Fails(t, e)
    ensures Shows(t', Columns(s, e.body))
  {
    EscrowsAgree(t, s, e, t');
    MilestonesAgree(t, s, e, t');
    DisputesAgree(t, s, e, t');
  }

  /** Each handler does to the money flow's columns exactly what that module says a chain event does, whether it
      goes through or fails. */
  lemma HandlersAgree(t: T.Tables, s: M.State, e: T.Event)
    requires Shows(t, s.db) && T.ForeignKeys(t)
    ensures Shows(TablesAfter(t, e), Columns(s, e.body))
  {
    T.EffectFailsIff(t, e);
    if T.Fails(t, e) {
      FailureAgrees(t, s, e);
    } else {
      var t' := T.Effect(t, e).value;
      T.EffectRowByRow(t, e, t');
      SuccessAgrees(t, s, e, t');
    }
  }

  /** The money flow's state after the chain events of the recorded rows. */
  function Indexed(rows: seq<T.Event>): M.State {
    if rows == [] then M.START
    else
      var before := Indexed(rows[..|rows| - 1]);
      match ChainEventOf(rows[|rows| - 1].body)
      case Some(e) => M.ChainStep(before, e)
      case None => before
  }

  lemma IndexedSnoc(rows: seq<T.Event>, e: T.Event)
    ensures Indexed(rows + [e]).db == Columns(Indexed(rows), e.body)
  {
    assert (rows + [e])[..|rows|] == rows;
  }

  lemma NothingIndexed()
    ensures Shows(T.EMPTY_DB.tables, Indexed([]).db)
  {
  }

  lemma OneMoreAgrees(db: T.Db, rows: seq<T.Event>, e: T.Event)
    requires Shows(db.tables, Indexed(rows).db) && T.ForeignKeys(db.tables)
    requires T.Effect(db.tables, e).Some?
    ensures Shows(T.Effect(db.tables, e).value, Indexed(rows + [e]).db)
  {
    HandlersAgree(db.tables, Indexed(rows), e);
    IndexedSnoc(rows, e);
  }

  lemma DispatchAgrees(db: T.Db, e: T.Event, after: T.Db)
    requires Shows(db.tables, Indexed(db.rows).db) && T.ForeignKeys(db.tables) && T.After(db, e) == Some(after)
    ensures Shows(after.tables, Indexed(after.rows).db)
  {
    if T.OutcomeOf(db, e) == T.Indexed {
      OneMoreAgrees(db, db.rows, e);
    }
  }

  /** So after any deliveries, repeated and failed ones among them, the indexer's tables show exactly what the money
      flow computes from the recorded events. */
  lemma {:induction false} ReplayAgrees(events: seq<T.Event>, db: T.Db)
    requires T.Replay(T.EMPTY_DB, events) == Some(db)
    ensures Shows(db.tables, Indexed(db.rows).db)
  {
    if events == [] {
      NothingIndexed();
    } else {
      var front, last := events[..|events| - 1], events[|events| - 1];
      var before := T.Replay(T.EMPTY_DB, front).value;
      ReplayAgrees(front, before);
      T.ReplayKeepsForeignKeys(front);
      DispatchAgrees(before, last, db);
    }
  }
}
