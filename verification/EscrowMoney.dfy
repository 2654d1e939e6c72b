/** The money flow of backend/services/escrowService.js, checked against the transition table of
    backend/lib/escrowTransitions.js, with everyone else who writes the same columns: the automatic split of
    backend/services/disputeResolution.js, the admin and dispute controllers, the import and the chain indexer. */
module EscrowMoney {
  import opened Wrappers

  datatype Status = Active | Completed | Disputed | Cancelled
  datatype MilestoneStatus = Pending | Submitted | Approved | Rejected

  /** The transition table for admin status changes. */
  function Transitions(from: Status): set<Status> {
    match from
    case Active => {Completed, Disputed, Cancelled}
    case Disputed => {Completed, Cancelled}
    case Completed => {}
    case Cancelled => {}
  }

  predicate IsValidTransition(from: Status, to: Status) {
    to in Transitions(from)
  }

  datatype Escrow = Escrow(totalAmount: int, remainingBalance: int, status: Status)
  datatype Dispute = Dispute(raisedBy: string, resolved: bool, clientAmount: int, freelancerAmount: int)

  type MilestoneKey = (int, int)

  /** A milestone_status_history row. */
  datatype History = History(milestone: MilestoneKey, fromStatus: MilestoneStatus, toStatus: MilestoneStatus,
                             changedBy: string)

  datatype Db = Db(escrows: map<int, Escrow>, milestones: map<MilestoneKey, MilestoneStatus>,
                   disputes: map<int, Dispute>, history: seq<History>)

  datatype Error =
    NotFound | AlreadyExists | NotActive | InsufficientBalance | NotDisputed | AlreadyResolved | AmountsMustSum
  datatype Result = Done(db: Db) | Failed(error: Error)

  /** A call that has read and not yet written. A release holds the balance and the milestone status it read. */
  datatype Pending =
    | Releasing(id: int, index: int, amount: int, caller: string, balance: int, existing: MilestoneStatus)
    | Paying(id: int, clientAmount: int, freelancerAmount: int)

  datatype Read = Ready(call: Pending) | Refused(error: Error)

  // ---- The transactions, on values ----

  function FundEscrow(db: Db, id: int, totalAmount: int): Result {
    if id in db.escrows then Failed(AlreadyExists)
    else Done(db.(escrows := db.escrows[id := Escrow(totalAmount, totalAmount, Active)]))
  }

  /** releaseMilestone up to its writes: it runs at read committed, so others may commit before those. */
  function ReadRelease(db: Db, id: int, index: int, amount: int, caller: string): Read {
    if id !in db.escrows then Refused(NotFound)
    else if db.escrows[id].status != Active then Refused(NotActive)
    else if db.escrows[id].remainingBalance - amount < 0 then Refused(InsufficientBalance)
    else if (id, index) !in db.milestones then Refused(NotFound)
    else Ready(Releasing(id, index, amount, caller, db.escrows[id].remainingBalance, db.milestones[(id, index)]))
  }

  /** Its writes, which set the balance to a number computed from the one that was read. */
  function WriteRelease(db: Db, p: Pending): Db
    requires p.Releasing? && p.id in db.escrows
  {
    var newBalance, e := p.balance - p.amount, db.escrows[p.id];
    db.(milestones := if (p.id, p.index) in db.milestones then db.milestones[(p.id, p.index) := Approved]
                      else db.milestones,
        escrows := db.escrows[p.id := e.(remainingBalance := newBalance,
                                         status := if newBalance == 0 then Completed else e.status)],
        history := db.history + [History((p.id, p.index), p.existing, Approved, p.caller)])
  }

  function RaiseDispute(db: Db, id: int, raisedBy: string, index: Option<int>): Result {
    if id !in db.escrows then Failed(NotFound)
    else if db.escrows[id].status != Active then Failed(NotActive)
    else if id in db.disputes then Failed(AlreadyExists)
    else
      var db1 := db.(escrows := db.escrows[id := db.escrows[id].(status := Disputed)],
                     disputes := db.disputes[id := Dispute(raisedBy, false, 0, 0)]);
      if index.Some? && (id, index.value) in db.milestones then
        var key := (id, index.value);
        Done(db1.(milestones := db.milestones[key := Rejected],
                  history := db.history + [History(key, db.milestones[key], Rejected, raisedBy)]))
      else Done(db1)
  }

  function ResolveDispute(db: Db, id: int, clientAmount: int, freelancerAmount: int): Result {
    if id !in db.escrows then Failed(NotFound)
    else if db.escrows[id].status != Disputed then Failed(NotDisputed)
    else if clientAmount + freelancerAmount != db.escrows[id].remainingBalance then Failed(AmountsMustSum)
    else if id !in db.disputes then Failed(NotFound)
    else Done(db.(
      escrows := db.escrows[id := db.escrows[id].(status := Completed, remainingBalance := 0)],
      disputes := db.disputes[id := db.disputes[id].(resolved := true, clientAmount := clientAmount,
                                                     freelancerAmount := freelancerAmount)]))
  }

  /** The admin controller's resolution, up to its write: it looks at the dispute only. */
  function ReadPayout(db: Db, id: int, clientAmount: int, freelancerAmount: int): Read {
    if id !in db.disputes then Refused(NotFound)
    else if db.disputes[id].resolved then Refused(AlreadyResolved)
    else Ready(Paying(id, clientAmount, freelancerAmount))
  }

  /** runAutomatedResolution, once a rule has fired with its split: it pays out the escrow's original total. */
  function ReadSplit(db: Db, id: int, clientSplit: real): Read {
    if id !in db.disputes then Refused(NotFound)
    else if db.disputes[id].resolved then Refused(AlreadyResolved)
    else if id !in db.escrows then Refused(NotFound)
    else
      var (client, freelancer) := ComputeSplitAmounts(db.escrows[id].totalAmount, clientSplit);
      Ready(Paying(id, client, freelancer))
  }

  /** Writing payouts into a dispute, with no change to the escrow. */
  function WritePayout(db: Db, id: int, clientAmount: int, freelancerAmount: int): Db
    requires id in db.disputes
  {
    db.(disputes := db.disputes[id := db.disputes[id].(resolved := true, clientAmount := clientAmount,
                                                       freelancerAmount := freelancerAmount)])
  }

  /** releaseMilestone with nothing between its reads and its writes. */
  function ReleaseMilestone(db: Db, id: int, index: int, amount: int, caller: string): Result {
    match ReadRelease(db, id, index, amount, caller)
    case Refused(error) => Failed(error)
    case Ready(call) => Done(WriteRelease(db, call))
  }

  function ResolveAutomatically(db: Db, id: int, clientSplit: real): Result {
    match ReadSplit(db, id, clientSplit)
    case Refused(error) => Failed(error)
    case Ready(call) => Done(WritePayout(db, id, call.clientAmount, call.freelancerAmount))
  }

  // ---- The split of a dispute ----

  /** Math.round(clientSplit * 10000): halves round up. */
  function BasisPoints(clientSplit: real): int {
    (clientSplit * 10_000.0 + 0.5).Floor
  }

  /** BigInt division truncates towards zero. */
  function TruncDiv(a: int, b: int): int
    requires b > 0
  {
    if a >= 0 then a / b else -(-a / b)
  }

  function ComputeSplitAmounts(totalAmount: int, clientSplit: real): (r: (int, int)) {
    var client := TruncDiv(totalAmount * BasisPoints(clientSplit), 10_000);
    (client, totalAmount - client)
  }

  lemma TruncatedShare(total: int, bp: int)
    requires total >= 0 && 0 <= bp <= 10_000
    ensures 0 <= TruncDiv(total * bp, 10_000) <= total
    ensures 0 <= total * bp - 10_000 * TruncDiv(total * bp, 10_000) < 10_000
  {
    ProductInRange(total, bp);
    QuotientInRange(total * bp, total);
  }

  lemma ProductInRange(total: int, bp: int)
    requires total >= 0 && 0 <= bp <= 10_000
    ensures 0 <= total * bp <= total * 10_000
  {
  }

  lemma QuotientInRange(p: int, total: int)
    requires 0 <= p <= total * 10_000
    ensures 0 <= p / 10_000 <= total && 0 <= p - 10_000 * (p / 10_000) < 10_000
  {
  }

  /** For a split ratio from 0 to 1 both shares are non-negative, they sum to the total, and the client's
      share is less than one unit below the exact share of the rounded ratio. */
  lemma SplitIsFair(total: int, clientSplit: real)
    requires total >= 0 && 0.0 <= clientSplit <= 1.0
    ensures var (client, freelancer) := ComputeSplitAmounts(total, clientSplit);
            && client >= 0 && freelancer >= 0 && client + freelancer == total
            && 10_000 * client <= total * BasisPoints(clientSplit) < 10_000 * (client + 1)
    ensures clientSplit * 10_000.0 - 0.5 < BasisPoints(clientSplit) as real <= clientSplit * 10_000.0 + 0.5
  {
    TruncatedShare(total, BasisPoints(clientSplit));
  }

  // ---- The service over its tables ----

  class EscrowService {
    var escrows: map<int, Escrow>
    var milestones: map<MilestoneKey, MilestoneStatus>
    var disputes: map<int, Dispute>
    var history: seq<History>

    ghost function Value(): Db
      reads this
    {
      Db(escrows, milestones, disputes, history)
    }

    /** What a transaction does to the tables: all of it, or nothing and an error. */
    ghost predicate Matches(before: Db, spec: Result, error: Option<Error>)
      reads this
    {
      match spec
      case Done(after) => error.None? && Value() == after
      case Failed(e) => error == Some(e) && Value() == before
    }

    method Fund(id: int, totalAmount: int) returns (error: Option<Error>)
      modifies this
      ensures Matches(old(Value()), FundEscrow(old(Value()), id, totalAmount), error)
    {
      if id in escrows {
        return Some(AlreadyExists);
      }
      escrows := escrows[id := Escrow(totalAmount, totalAmount, Active)];
      return None;
    }

    /** The reading part of releaseMilestone. */
    method BeginRelease(id: int, index: int, amount: int, caller: string) returns (r: Read)
      ensures r == ReadRelease(Value(), id, index, amount, caller)
    {
      if id !in escrows {
        return Refused(NotFound);
      }
      var escrow := escrows[id];
      if escrow.status != Active {
        return Refused(NotActive);
      }
      if escrow.remainingBalance - amount < 0 {
        return Refused(InsufficientBalance);
      }
      if (id, index) !in milestones {
        return Refused(NotFound);
      }
      return Ready(Releasing(id, index, amount, caller, escrow.remainingBalance, milestones[(id, index)]));
    }

    /** The writing part; rows are never deleted, so they are still there. */
    method CommitRelease(p: Pending)
      requires p.Releasing? && p.id in escrows && (p.id, p.index) in milestones
      modifies this
      ensures Value() == WriteRelease(old(Value()), p)
    {
      var newBalance := p.balance - p.amount;
      milestones := milestones[(p.id, p.index) := Approved];
      escrows := escrows[p.id := escrows[p.id].(remainingBalance := newBalance)];
      if newBalance == 0 {
        escrows := escrows[p.id := escrows[p.id].(status := Completed)];
      }
      history := history + [History((p.id, p.index), p.existing, Approved, p.caller)];
    }

    /** releaseMilestone with nothing in between. */
    method Release(id: int, index: int, amount: int, caller: string) returns (error: Option<Error>)
      modifies this
      ensures Matches(old(Value()), ReleaseMilestone(old(Value()), id, index, amount, caller), error)
    {
      var r := BeginRelease(id, index, amount, caller);
      if r.Refused? {
        return Some(r.error);
      }
      CommitRelease(r.call);
      return None;
    }

    method Raise(id: int, raisedBy: string, index: Option<int>) returns (error: Option<Error>)
      modifies this
      ensures Matches(old(Value()), RaiseDispute(old(Value()), id, raisedBy, index), error)
    {
      if id !in escrows {
        return Some(NotFound);
      }
      if escrows[id].status != Active {
        return Some(NotActive);
      }
      if id in disputes {
        return Some(AlreadyExists);
      }
      escrows := escrows[id := escrows[id].(status := Disputed)];
      disputes := disputes[id := Dispute(raisedBy, false, 0, 0)];
      if index.Some? && (id, index.value) in milestones {
        var target := milestones[(id, index.value)];
        milestones := milestones[(id, index.value) := Rejected];
        history := history + [History((id, index.value), target, Rejected, raisedBy)];
      }
      return None;
    }

    method Resolve(id: int, clientAmount: int, freelancerAmount: int) returns (error: Option<Error>)
      modifies this
      ensures Matches(old(Value()), ResolveDispute(old(Value()), id, clientAmount, freelancerAmount), error)
    {
      if id !in escrows {
        return Some(NotFound);
      }
      if escrows[id].status != Disputed {
        return Some(NotDisputed);
      }
      if clientAmount + freelancerAmount != escrows[id].remainingBalance {
        return Some(AmountsMustSum);
      }
      if id !in disputes {
        return Some(NotFound);
      }
      escrows := escrows[id := escrows[id].(status := Completed, remainingBalance := 0)];
      disputes := disputes[id := disputes[id].(resolved := true, clientAmount := clientAmount,
                                               freelancerAmount := freelancerAmount)];
      return None;
    }

    /** runAutomatedResolution, once a rule has fired with its split. */
    method AutoResolve(id: int, clientSplit: real) returns (error: Option<Error>)
      modifies this
      ensures Matches(old(Value()), ResolveAutomatically(old(Value()), id, clientSplit), error)
    {
      if id !in disputes {
        return Some(NotFound);
      }
      if disputes[id].resolved {
        return Some(AlreadyResolved);
      }
      if id !in escrows {
        return Some(NotFound);
      }
      var (client, freelancer) := ComputeSplitAmounts(escrows[id].totalAmount, clientSplit);
      disputes := disputes[id := disputes[id].(resolved := true, clientAmount := client,
                                               freelancerAmount := freelancer)];
      return None;
    }
  }

  // ---- Runs of everyone who writes these tables ----

  /** An event of the chain, by what its handler does to these tables. */
  datatype ChainEvent =
    | EscrowCreated(id: int, amount: int)
    | MilestoneAdded(id: int, index: int)
    | MilestoneSet(id: int, index: int, status: MilestoneStatus)
    | FundsReleased(id: int, amount: int)
    | EscrowCancelled(id: int)
    | DisputeRaised(id: int, raisedBy: string)
    | DisputeResolved(id: int, clientAmount: int, freelancerAmount: int)

  /** Single statements elsewhere in the backend: the import of an escrow and of its milestones with any values,
      a dispute opened on an escrow of any status, a dispute marked resolved without amounts. */
  datatype DirectWrite =
    | ImportEscrow(id: int, escrow: Escrow)
    | ImportMilestone(id: int, index: int, status: MilestoneStatus)
    | OpenDispute(id: int, raisedBy: string)
    | MarkResolved(id: int)

  /** `call` names a call between its reads and its writes; Abort ends one before it wrote. */
  datatype Action =
    | Fund(id: int, totalAmount: int)
    | BeginRelease(call: nat, id: int, index: int, amount: int, caller: string)
    | CommitRelease(call: nat)
    | Raise(id: int, raisedBy: string, target: Option<int>)
    | Resolve(id: int, clientAmount: int, freelancerAmount: int)
    | BeginSplit(call: nat, id: int, clientSplit: real)
    | BeginAdminPayout(call: nat, id: int, clientAmount: int, freelancerAmount: int)
    | CommitPayout(call: nat)
    | Abort(call: nat)
    | SetStatus(id: int, status: Status)
    | Chain(event: ChainEvent)
    | Direct(write: DirectWrite)

  /** An amount of money that belongs to an escrow. */
  datatype Amount = Amount(id: int, amount: int)

  /** For the accounting: the releases recorded; the disputes whose payouts were written without taking them
      from the balance; and what each write that ignored the stored value left out of the books. */
  datatype State = State(db: Db, pending: map<nat, Pending>, releases: seq<Amount>, unbacked: set<int>,
                         erased: seq<Amount>)

  const START := State(Db(map[], map[], map[], []), map[], [], {}, [])

  function Sum(amounts: seq<Amount>, id: int): int {
    if amounts == [] then 0
    else
      var last := amounts[|amounts| - 1];
      Sum(amounts[..|amounts| - 1], id) + (if last.id == id then last.amount else 0)
  }

  function Released(s: State, id: int): int { Sum(s.releases, id) }

  function Erased(s: State, id: int): int { Sum(s.erased, id) }

  function PaidOut(db: Db, id: int): int {
    if id in db.disputes then db.disputes[id].clientAmount + db.disputes[id].freelancerAmount else 0
  }

  /** The payouts that were taken from the balance. */
  function Backed(s: State, id: int): int {
    if id in s.unbacked then 0 else PaidOut(s.db, id)
  }

  function Hold(s: State, call: nat, r: Read): State {
    if call in s.pending || r.Refused? then s else s.(pending := s.pending[call := r.call])
  }

  function CommitReleaseStep(s: State, call: nat): State {
    if call !in s.pending || !s.pending[call].Releasing? || s.pending[call].id !in s.db.escrows then s
    else
      var p := s.pending[call];
      State(WriteRelease(s.db, p), s.pending - {call}, s.releases + [Amount(p.id, p.amount)], s.unbacked,
            s.erased + [Amount(p.id, p.balance - s.db.escrows[p.id].remainingBalance)])
  }

  /** Payouts written into a dispute replace whatever stood there. */
  function Pay(s: State, id: int, clientAmount: int, freelancerAmount: int): State
    requires id in s.db.disputes
  {
    s.(db := WritePayout(s.db, id, clientAmount, freelancerAmount), unbacked := s.unbacked + {id},
       erased := s.erased + [Amount(id, -Backed(s, id))])
  }

  function CommitPayoutStep(s: State, call: nat): State {
    if call !in s.pending || !s.pending[call].Paying? || s.pending[call].id !in s.db.disputes then s
    else
      var p := s.pending[call];
      Pay(s, p.id, p.clientAmount, p.freelancerAmount).(pending := s.pending - {call})
  }

  function ResolveStep(s: State, id: int, clientAmount: int, freelancerAmount: int): State {
    match ResolveDispute(s.db, id, clientAmount, freelancerAmount)
    case Failed(_) => s
    case Done(db) => s.(db := db, unbacked := s.unbacked - {id}, erased := s.erased + [Amount(id, -Backed(s, id))])
  }

  function SetEscrowStatus(db: Db, id: int, status: Status): Db {
    if id in db.escrows then db.(escrows := db.escrows[id := db.escrows[id].(status := status)]) else db
  }

  /** The handlers of backend/services/eventIndexer.js on these columns. */
  function ChainStep(s: State, e: ChainEvent): State {
    match e
    case EscrowCreated(id, amount) =>
      if id in s.db.escrows then s else s.(db := s.db.(escrows := s.db.escrows[id := Escrow(amount, amount, Active)]))
    case MilestoneAdded(id, index) =>
      if id !in s.db.escrows || (id, index) in s.db.milestones then s
      else s.(db := s.db.(milestones := s.db.milestones[(id, index) := Pending]))
    case MilestoneSet(id, index, status) =>
      if (id, index) !in s.db.milestones then s
      else s.(db := s.db.(milestones := s.db.milestones[(id, index) := status]))
    case FundsReleased(id, amount) =>
      if id !in s.db.escrows then s
      else
        var e := s.db.escrows[id];
        s.(db := s.db.(escrows := s.db.escrows[id := e.(remainingBalance := e.remainingBalance - amount)]),
           releases := s.releases + [Amount(id, amount)])
    case EscrowCancelled(id) => s.(db := SetEscrowStatus(s.db, id, Cancelled))
    case DisputeRaised(id, raisedBy) =>
      if id !in s.db.escrows then s
      else
        var db := SetEscrowStatus(s.db, id, Disputed);
        s.(db := if id in db.disputes then db else db.(disputes := db.disputes[id := Dispute(raisedBy, false, 0, 0)]))
    case DisputeResolved(id, clientAmount, freelancerAmount) =>
      var s1 := s.(db := SetEscrowStatus(s.db, id, Completed));
      if id in s.db.disputes then Pay(s1, id, clientAmount, freelancerAmount) else s1
  }

  /** What an import brings in counts as erased where its balance is not its total. */
  function DirectStep(s: State, w: DirectWrite): State {
    match w
    case ImportEscrow(id, escrow) =>
      if id in s.db.escrows then s
      else s.(db := s.db.(escrows := s.db.escrows[id := escrow]),
              erased := s.erased + [Amount(id, escrow.remainingBalance - escrow.totalAmount)])
    case ImportMilestone(id, index, status) =>
      if id !in s.db.escrows then s
      else s.(db := s.db.(milestones := s.db.milestones[(id, index) := status]))
    case OpenDispute(id, raisedBy) =>
      if id !in s.db.escrows || id in s.db.disputes then s
      else s.(db := s.db.(disputes := s.db.disputes[id := Dispute(raisedBy, false, 0, 0)]))
    case MarkResolved(id) =>
      if id !in s.db.disputes then s
      else s.(db := s.db.(disputes := s.db.disputes[id := s.db.disputes[id].(resolved := true)]))
  }

  function OnTables(s: State, r: Result): State {
    match r case Failed(_) => s case Done(db) => s.(db := db)
  }

  function Step(s: State, a: Action): State {
    match a
    case Fund(id, totalAmount) => OnTables(s, FundEscrow(s.db, id, totalAmount))
    case BeginRelease(call, id, index, amount, caller) => Hold(s, call, ReadRelease(s.db, id, index, amount, caller))
    case CommitRelease(call) => CommitReleaseStep(s, call)
    case Raise(id, raisedBy, target) => OnTables(s, RaiseDispute(s.db, id, raisedBy, target))
    case Resolve(id, clientAmount, freelancerAmount) => ResolveStep(s, id, clientAmount, freelancerAmount)
    case BeginSplit(call, id, clientSplit) => Hold(s, call, ReadSplit(s.db, id, clientSplit))
    case BeginAdminPayout(call, id, clientAmount, freelancerAmount) =>
      Hold(s, call, ReadPayout(s.db, id, clientAmount, freelancerAmount))
    case CommitPayout(call) => CommitPayoutStep(s, call)
    case Abort(call) => s.(pending := s.pending - {call})
    case SetStatus(id, status) => s.(db := SetEscrowStatus(s.db, id, status))
    case Chain(event) => ChainStep(s, event)
    case Direct(write) => DirectStep(s, write)
  }

  function Run(s: State, actions: seq<Action>): State
    decreases |actions|
  {
    if actions == [] then s else Run(Step(s, actions[0]), actions[1..])
  }

  // ---- Accounting, for every run ----

  /** The books of one escrow: balance, releases and backed payouts make up the total and whatever was erased. */
  ghost predicate Books(s: State, id: int) {
    && (id in s.db.disputes ==> id in s.db.escrows)
    && (id in s.db.disputes && !s.db.disputes[id].resolved ==> PaidOut(s.db, id) == 0 && id !in s.unbacked)
    && (id in s.unbacked ==> id in s.db.disputes)
    && (forall call :: call in s.pending && s.pending[call].id == id ==> id in s.db.escrows)
    && if id in s.db.escrows
       then s.db.escrows[id].remainingBalance + Released(s, id) + Backed(s, id)
         == s.db.escrows[id].totalAmount + Erased(s, id)
       else Released(s, id) == 0 && Erased(s, id) == 0
  }

  lemma SumSnoc(amounts: seq<Amount>, a: Amount, id: int)
    ensures Sum(amounts + [a], id) == Sum(amounts, id) + (if a.id == id then a.amount else 0)
  {
    assert (amounts + [a])[..|amounts|] == amounts;
  }

  lemma PayKeepsBooks(s: State, on: int, clientAmount: int, freelancerAmount: int, id: int)
    requires Books(s, id) && on in s.db.disputes
    ensures Books(Pay(s, on, clientAmount, freelancerAmount), id)
  {
    var t := Pay(s, on, clientAmount, freelancerAmount);
    SumSnoc(s.erased, Amount(on, -Backed(s, on)), id);
    assert t.pending == s.pending && t.db.escrows == s.db.escrows && Released(t, id) == Released(s, id);
    assert Erased(t, id) == Erased(s, id) + (if on == id then -Backed(s, on) else 0);
    assert Backed(t, id) == if on == id then 0 else Backed(s, id);
  }

  lemma ResolveKeepsBooks(s: State, on: int, clientAmount: int, freelancerAmount: int, id: int)
    requires Books(s, id)
    ensures Books(ResolveStep(s, on, clientAmount, freelancerAmount), id)
  {
    SumSnoc(s.erased, Amount(on, -Backed(s, on)), id);
  }

  lemma ReleaseKeepsBooks(s: State, call: nat, id: int)
    requires Books(s, id)
    ensures Books(CommitReleaseStep(s, call), id)
  {
    if call in s.pending && s.pending[call].Releasing? && s.pending[call].id in s.db.escrows {
      var p := s.pending[call];
      SumSnoc(s.releases, Amount(p.id, p.amount), id);
      SumSnoc(s.erased, Amount(p.id, p.balance - s.db.escrows[p.id].remainingBalance), id);
    }
  }

  lemma ChainKeepsBooks(s: State, e: ChainEvent, id: int)
    requires Books(s, id)
    ensures Books(ChainStep(s, e), id)
  {
    if e.FundsReleased? {
      SumSnoc(s.releases, Amount(e.id, e.amount), id);
    } else if e.DisputeResolved? && e.id in s.db.disputes {
      PayKeepsBooks(s.(db := SetEscrowStatus(s.db, e.id, Completed)), e.id, e.clientAmount, e.freelancerAmount, id);
    }
  }

  lemma PayoutKeepsBooks(s: State, call: nat, id: int)
    requires Books(s, id)
    ensures Books(CommitPayoutStep(s, call), id)
  {
    if call in s.pending && s.pending[call].Paying? && s.pending[call].id in s.db.disputes {
      PayKeepsBooks(s, s.pending[call].id, s.pending[call].clientAmount, s.pending[call].freelancerAmount, id);
    }
  }

  lemma TablesKeepBooks(s: State, a: Action, id: int)
    requires Books(s, id) && (a.Fund? || a.Raise? || a.SetStatus?)
    ensures Books(Step(s, a), id)
  {
  }

  lemma DirectKeepsBooks(s: State, w: DirectWrite, id: int)
    requires Books(s, id)
    ensures Books(DirectStep(s, w), id)
  {
    if w.ImportEscrow? {
      SumSnoc(s.erased, Amount(w.id, w.escrow.remainingBalance - w.escrow.totalAmount), id);
    }
  }

  lemma ReadsKeepBooks(s: State, a: Action, id: int)
    requires Books(s, id) && (a.BeginRelease? || a.BeginSplit? || a.BeginAdminPayout? || a.Abort?)
    ensures Books(Step(s, a), id)
  {
  }

  lemma StepKeepsBooks(s: State, a: Action, id: int)
    requires Books(s, id)
    ensures Books(Step(s, a), id)
  {
    match a
    case CommitRelease(call) => ReleaseKeepsBooks(s, call, id);
    case CommitPayout(call) => PayoutKeepsBooks(s, call, id);
    case Resolve(on, clientAmount, freelancerAmount) => ResolveKeepsBooks(s, on, clientAmount, freelancerAmount, id);
    case Chain(event) => ChainKeepsBooks(s, event, id);
    case Direct(write) => DirectKeepsBooks(s, write, id);
    case Fund(_, _) => TablesKeepBooks(s, a, id);
    case Raise(_, _, _) => TablesKeepBooks(s, a, id);
    case SetStatus(_, _) => TablesKeepBooks(s, a, id);
    case _ => ReadsKeepBooks(s, a, id);
  }

  /** Over every interleaving of every writer, with any amounts, the books add up: balance, releases and backed
      payouts are the total plus exactly what stale writes left out. */
  lemma {:induction false} RunKeepsBooks(s: State, actions: seq<Action>, id: int)
    requires Books(s, id)
    ensures Books(Run(s, actions), id)
    decreases |actions|
  {
    if actions != [] {
      StepKeepsBooks(s, actions[0], id);
      RunKeepsBooks(Step(s, actions[0]), actions[1..], id);
    }
  }

  ghost predicate Conserved(s: State, id: int)
    requires id in s.db.escrows
  {
    s.db.escrows[id].totalAmount == s.db.escrows[id].remainingBalance + Released(s, id) + PaidOut(s.db, id)
  }

  lemma StartHasBooks(id: int)
    ensures Books(START, id)
  {
  }

  /** The exact difference, after any run of any writers: conservation fails by the payouts that were not taken
      from the balance plus what stale writes erased, and holds if and only if these cancel. */
  lemma ConservedExactly(actions: seq<Action>, id: int)
    requires id in Run(START, actions).db.escrows
    ensures var s := Run(START, actions);
            var e, unbacked := s.db.escrows[id], if id in s.unbacked then PaidOut(s.db, id) else 0;
            && e.remainingBalance + Released(s, id) + PaidOut(s.db, id) == e.totalAmount + unbacked + Erased(s, id)
            && (Conserved(s, id) <==> unbacked + Erased(s, id) == 0)
  {
    StartHasBooks(id);
    RunKeepsBooks(START, actions, id);
  }

  /** What a release's write does to the sums of its escrow. */
  lemma WriteEffect(s: State, call: nat, p: Pending) returns (t: State)
    requires call in s.pending && s.pending[call] == p && p.Releasing? && p.id in s.db.escrows
    ensures t == Step(s, CommitRelease(call)) && p.id in t.db.escrows && t.pending == s.pending - {call}
    ensures t.db.escrows[p.id]
         == s.db.escrows[p.id].(remainingBalance := p.balance - p.amount,
                                status := if p.balance == p.amount then Completed else s.db.escrows[p.id].status)
    ensures t.db.disputes == s.db.disputes && Released(t, p.id) == Released(s, p.id) + p.amount
  {
    t := Step(s, CommitRelease(call));
    SumSnoc(s.releases, Amount(p.id, p.amount), p.id);
  }

  /** At the write of a release, conservation survives if and only if the balance it read is still stored. */
  lemma ReleaseConservesIff(s: State, call: nat)
    requires call in s.pending && s.pending[call].Releasing? && s.pending[call].id in s.db.escrows
    requires Conserved(s, s.pending[call].id)
    ensures var p := s.pending[call];
            && p.id in Step(s, CommitRelease(call)).db.escrows
            && (Conserved(Step(s, CommitRelease(call)), p.id) <==> p.balance == s.db.escrows[p.id].remainingBalance)
  {
    var p := s.pending[call];
    var t := WriteEffect(s, call, p);
    assert PaidOut(t.db, p.id) == PaidOut(s.db, p.id);
  }

  // ---- Runs in which what was read still holds ----

  /** Everything but the writes that are made without looking at the escrow: an admin's status change, the chain's
      cancellations and disputes, a dispute opened by the controller, and imports of anything but a fresh escrow. */
  predicate GuardedAction(a: Action) {
    && !a.SetStatus?
    && (a.Chain? ==> !a.event.EscrowCancelled? && !a.event.DisputeRaised? && !a.event.DisputeResolved?)
    && (a.Direct? ==> !a.write.OpenDispute? && (a.write.ImportEscrow? ==> Fresh(a.write.escrow)))
  }

  predicate Fresh(e: Escrow) {
    e.status == Active && e.remainingBalance == e.totalAmount
  }

  predicate Guarded(actions: seq<Action>) {
    forall i :: 0 <= i < |actions| ==> GuardedAction(actions[i])
  }

  /** What a call on this escrow read is still so when it writes: the balance, or that the dispute is open. */
  predicate StillAsRead(s: State, a: Action, id: int) {
    (a.CommitRelease? || a.CommitPayout?) && a.call in s.pending && s.pending[a.call].id == id ==>
      match s.pending[a.call]
      case Releasing(_, _, _, _, balance, _) => id in s.db.escrows ==> balance == s.db.escrows[id].remainingBalance
      case Paying(_, _, _) => id in s.db.disputes ==> !s.db.disputes[id].resolved
  }

  predicate ReadsHold(s: State, actions: seq<Action>, id: int)
    decreases |actions|
  {
    actions == [] || (StillAsRead(s, actions[0], id) && ReadsHold(Step(s, actions[0]), actions[1..], id))
  }

  /** What the status of an escrow says about its dispute when all status changes are guarded. */
  ghost predicate Settled(s: State, id: int) {
    id in s.db.escrows ==>
      match s.db.escrows[id].status
      case Active => id !in s.db.disputes
      case Disputed => id in s.db.disputes && Backed(s, id) == 0
      case Completed => true
      case Cancelled => false
  }

  lemma ChainKeepsSettled(s: State, e: ChainEvent, id: int)
    requires Books(s, id) && Settled(s, id) && GuardedAction(Chain(e))
    ensures Settled(ChainStep(s, e), id)
  {
  }

  lemma DirectKeepsSettled(s: State, w: DirectWrite, id: int)
    requires Books(s, id) && Settled(s, id) && GuardedAction(Direct(w))
    ensures Settled(DirectStep(s, w), id)
  {
  }

  lemma CommitsKeepSettled(s: State, a: Action, id: int)
    requires Books(s, id) && Settled(s, id) && (a.CommitRelease? || a.CommitPayout? || a.Resolve?)
    ensures Settled(Step(s, a), id)
  {
  }

  lemma StepKeepsSettled(s: State, a: Action, id: int)
    requires Books(s, id) && Settled(s, id) && GuardedAction(a)
    ensures Settled(Step(s, a), id)
  {
    match a
    case Chain(event) => ChainKeepsSettled(s, event, id);
    case Direct(write) => DirectKeepsSettled(s, write, id);
    case CommitRelease(_) => CommitsKeepSettled(s, a, id);
    case CommitPayout(_) => CommitsKeepSettled(s, a, id);
    case Resolve(_, _, _) => CommitsKeepSettled(s, a, id);
    case _ =>
  }

  lemma StepErasesNothing(s: State, a: Action, id: int)
    requires Books(s, id) && Settled(s, id) && GuardedAction(a) && StillAsRead(s, a, id)
    ensures Erased(Step(s, a), id) == Erased(s, id)
  {
    if a.CommitRelease? && a.call in s.pending && s.pending[a.call].id in s.db.escrows {
      var p := s.pending[a.call];
      if p.Releasing? {
        SumSnoc(s.erased, Amount(p.id, p.balance - s.db.escrows[p.id].remainingBalance), id);
      }
    } else if a.CommitPayout? && a.call in s.pending {
      SumSnoc(s.erased, Amount(s.pending[a.call].id, -Backed(s, s.pending[a.call].id)), id);
    } else if a.Resolve? {
      SumSnoc(s.erased, Amount(a.id, -Backed(s, a.id)), id);
    } else if a.Direct? && a.write.ImportEscrow? {
      SumSnoc(s.erased, Amount(a.write.id, 0), id);
    }
  }

  lemma {:induction false} GuardedRunErasesNothing(s: State, actions: seq<Action>, id: int)
    requires Books(s, id) && Settled(s, id) && Guarded(actions) && ReadsHold(s, actions, id)
    ensures Erased(Run(s, actions), id) == Erased(s, id)
    decreases |actions|
  {
    if actions != [] {
      assert GuardedAction(actions[0]);
      StepErasesNothing(s, actions[0], id);
      StepKeepsBooks(s, actions[0], id);
      StepKeepsSettled(s, actions[0], id);
      GuardedRunErasesNothing(Step(s, actions[0]), actions[1..], id);
    }
  }

  /** Over every interleaving in which each call on the escrow still finds what it read when it writes: total is
      balance plus releases plus payouts, unless the last payouts were written without taking them from the
      balance, and then the excess is exactly those payouts. */
  lemma RunConserves(actions: seq<Action>, id: int)
    requires Guarded(actions) && ReadsHold(START, actions, id) && id in Run(START, actions).db.escrows
    ensures var s := Run(START, actions);
            && s.db.escrows[id].remainingBalance + Released(s, id) + Backed(s, id) == s.db.escrows[id].totalAmount
            && (Conserved(s, id) <==> id !in s.unbacked || PaidOut(s.db, id) == 0)
  {
    StartHasBooks(id);
    GuardedRunErasesNothing(START, actions, id);
    ConservedExactly(actions, id);
    RunKeepsBooks(START, actions, id);
  }

  // ---- The automatic split ----

  /** In every reachable state with an open dispute, the split that runAutomatedResolution writes adds up to the
      original total, so it exceeds the balance by what was released, less what stale writes erased. */
  lemma SplitAgainstBalance(actions: seq<Action>, id: int, clientSplit: real)
    requires var db := Run(START, actions).db; id in db.disputes && !db.disputes[id].resolved
    ensures var s := Run(START, actions);
            var r := ResolveAutomatically(s.db, id, clientSplit);
            && id in s.db.escrows && r.Done? && r.db.escrows == s.db.escrows
            && PaidOut(r.db, id) - s.db.escrows[id].remainingBalance == Released(s, id) - Erased(s, id)
  {
    StartHasBooks(id);
    RunKeepsBooks(START, actions, id);
  }

  /** While reads hold: the recorded payouts equal the balance if and only if nothing was released, and exceed it
      by exactly the releases; and recording them keeps conservation only for an empty escrow. */
  lemma SplitPaysBalanceIff(actions: seq<Action>, id: int, clientSplit: real)
    requires Guarded(actions) && ReadsHold(START, actions, id)
    requires var db := Run(START, actions).db; id in db.disputes && !db.disputes[id].resolved
    ensures var s := Run(START, actions);
            var r := ResolveAutomatically(s.db, id, clientSplit);
            && id in s.db.escrows && r.Done?
            && PaidOut(r.db, id) == s.db.escrows[id].remainingBalance + Released(s, id)
            && (PaidOut(r.db, id) == s.db.escrows[id].remainingBalance <==> Released(s, id) == 0)
            && (Conserved(s.(db := r.db), id) <==> s.db.escrows[id].totalAmount == 0)
  {
    SplitAgainstBalance(actions, id, clientSplit);
    StartHasBooks(id);
    GuardedRunErasesNothing(START, actions, id);
    RunKeepsBooks(START, actions, id);
  }

  /** A split of the balance, had someone fed it to resolveDispute, always passes its sum check and settles. */
  lemma BalanceSplitSettles(db: Db, id: int, clientSplit: real)
    requires id in db.escrows && db.escrows[id].status == Disputed && id in db.disputes
    ensures var e := db.escrows[id];
            var (client, freelancer) := ComputeSplitAmounts(e.remainingBalance, clientSplit);
            var r := ResolveDispute(db, id, client, freelancer);
            r.Done? && r.db.escrows[id] == Escrow(e.totalAmount, 0, Completed)
  {
  }

  // ---- Status and range ----

  ghost predicate ValidChange(s: State, after: State, id: int)
    requires id in s.db.escrows
  {
    && id in after.db.escrows && after.db.escrows[id].totalAmount == s.db.escrows[id].totalAmount
    && (s.db.escrows[id].status == after.db.escrows[id].status
        || IsValidTransition(s.db.escrows[id].status, after.db.escrows[id].status))
  }

  lemma ChainChangesNoStatus(s: State, e: ChainEvent, id: int)
    requires id in s.db.escrows && GuardedAction(Chain(e))
    ensures ValidChange(s, ChainStep(s, e), id)
  {
  }

  lemma DirectChangesNoStatus(s: State, w: DirectWrite, id: int)
    requires id in s.db.escrows
    ensures ValidChange(s, DirectStep(s, w), id)
  {
  }

  lemma CommitIsValidTransition(s: State, call: nat, id: int)
    requires id in s.db.escrows && Settled(s, id)
    ensures ValidChange(s, CommitReleaseStep(s, call), id)
  {
  }

  /** Every status change that is made after a look at the escrow is in the transition table, whatever interleaves. */
  lemma StepsAreValidTransitions(s: State, a: Action, id: int)
    requires id in s.db.escrows && Settled(s, id) && GuardedAction(a)
    ensures ValidChange(s, Step(s, a), id)
  {
    match a
    case Chain(event) => ChainChangesNoStatus(s, event, id);
    case Direct(write) => DirectChangesNoStatus(s, write, id);
    case CommitRelease(call) => CommitIsValidTransition(s, call, id);
    case _ =>
  }

  /** Amounts are not negative, the chain releases no more than is there, and imports are in range. */
  predicate SoundAmounts(s: State, a: Action) {
    match a
    case Fund(_, totalAmount) => totalAmount >= 0
    case BeginRelease(_, _, _, amount, _) => amount >= 0
    case Chain(EscrowCreated(_, amount)) => amount >= 0
    case Chain(FundsReleased(id, amount)) => id in s.db.escrows ==> 0 <= amount <= s.db.escrows[id].remainingBalance
    case Direct(ImportEscrow(_, escrow)) => 0 <= escrow.remainingBalance <= escrow.totalAmount
    case _ => true
  }

  predicate SoundRun(s: State, actions: seq<Action>)
    decreases |actions|
  {
    actions == [] || (SoundAmounts(s, actions[0]) && SoundRun(Step(s, actions[0]), actions[1..]))
  }

  ghost predicate InRange(s: State) {
    && (forall id :: id in s.db.escrows ==> 0 <= s.db.escrows[id].remainingBalance <= s.db.escrows[id].totalAmount)
    && (forall call :: call in s.pending && s.pending[call].Releasing? ==>
          var p := s.pending[call];
          p.id in s.db.escrows && 0 <= p.amount <= p.balance <= s.db.escrows[p.id].totalAmount)
  }

  lemma ChainStaysInRange(s: State, e: ChainEvent)
    requires InRange(s) && SoundAmounts(s, Chain(e))
    ensures InRange(ChainStep(s, e))
  {
  }

  lemma DirectStaysInRange(s: State, w: DirectWrite)
    requires InRange(s) && SoundAmounts(s, Direct(w))
    ensures InRange(DirectStep(s, w))
  {
  }

  lemma TablesStayInRange(s: State, r: Result)
    requires InRange(s)
    requires r.Done? ==> s.db.escrows.Keys <= r.db.escrows.Keys
    requires r.Done? ==> forall id :: id in r.db.escrows ==>
               0 <= r.db.escrows[id].remainingBalance <= r.db.escrows[id].totalAmount &&
               (id in s.db.escrows ==> r.db.escrows[id].totalAmount == s.db.escrows[id].totalAmount)
    ensures InRange(OnTables(s, r))
  {
  }

  lemma HoldStaysInRange(s: State, call: nat, r: Read)
    requires InRange(s)
    requires r.Ready? && r.call.Releasing? ==>
               r.call.id in s.db.escrows && 0 <= r.call.amount <= r.call.balance <= s.db.escrows[r.call.id].totalAmount
    ensures InRange(Hold(s, call, r))
  {
  }

  lemma StepStaysInRange(s: State, a: Action)
    requires InRange(s) && SoundAmounts(s, a)
    ensures InRange(Step(s, a))
  {
    match a
    case Chain(event) => ChainStaysInRange(s, event);
    case Direct(write) => DirectStaysInRange(s, write);
    case Fund(id, totalAmount) => TablesStayInRange(s, FundEscrow(s.db, id, totalAmount));
    case Raise(id, raisedBy, target) => TablesStayInRange(s, RaiseDispute(s.db, id, raisedBy, target));
    case BeginRelease(call, id, index, amount, caller) =>
      HoldStaysInRange(s, call, ReadRelease(s.db, id, index, amount, caller));
    case BeginSplit(call, id, clientSplit) => HoldStaysInRange(s, call, ReadSplit(s.db, id, clientSplit));
    case BeginAdminPayout(call, id, client, freelancer) =>
      HoldStaysInRange(s, call, ReadPayout(s.db, id, client, freelancer));
    case _ => OtherStepsStayInRange(s, a);
  }

  lemma OtherStepsStayInRange(s: State, a: Action)
    requires InRange(s) && (a.CommitRelease? || a.Resolve? || a.CommitPayout? || a.Abort? || a.SetStatus?)
    ensures InRange(Step(s, a))
  {
  }

  /** In every interleaving, stale writes included, no balance goes below zero or above its total: what stale
      writes break is the sum, not the range. */
  lemma {:induction false} BalancesStayInRange(s: State, actions: seq<Action>)
    requires InRange(s) && SoundRun(s, actions)
    ensures InRange(Run(s, actions))
    decreases |actions|
  {
    if actions != [] {
      StepStaysInRange(s, actions[0]);
      BalancesStayInRange(Step(s, actions[0]), actions[1..]);
    }
  }

  ghost predicate CompletedIsEmpty(s: State, id: int) {
    id in s.db.escrows && s.db.escrows[id].status == Completed ==> s.db.escrows[id].remainingBalance == 0
  }

  lemma CompletedStep(s: State, a: Action, id: int)
    requires InRange(s) && CompletedIsEmpty(s, id) && SoundAmounts(s, a) && GuardedAction(a) && StillAsRead(s, a, id)
    ensures CompletedIsEmpty(Step(s, a), id)
    ensures id in s.db.escrows && s.db.escrows[id].status == Completed ==>
              id in Step(s, a).db.escrows && Step(s, a).db.escrows[id] == s.db.escrows[id]
  {
  }

  /** While reads hold and amounts are sound, Completed means a zero balance, and a completed escrow never changes. */
  lemma {:induction false} SettledIsFinal(s: State, actions: seq<Action>, id: int)
    requires InRange(s) && CompletedIsEmpty(s, id) && SoundRun(s, actions) && Guarded(actions)
    requires ReadsHold(s, actions, id)
    ensures CompletedIsEmpty(Run(s, actions), id)
    ensures id in s.db.escrows && s.db.escrows[id].status == Completed ==>
              id in Run(s, actions).db.escrows && Run(s, actions).db.escrows[id] == s.db.escrows[id]
    decreases |actions|
  {
    if actions != [] {
      assert GuardedAction(actions[0]);
      StepStaysInRange(s, actions[0]);
      CompletedStep(s, actions[0], id);
      SettledIsFinal(Step(s, actions[0]), actions[1..], id);
    }
  }

  // ---- Runs in which a read does not hold ----

  lemma RunFirst(s: State, a: Action, rest: seq<Action>)
    ensures Run(s, [a] + rest) == Run(Step(s, a), rest)
  {
    assert ([a] + rest)[1..] == rest;
  }

  /** Two releases that both read before either writes: the second write undoes the first one's subtraction, so
      the releases of `first` come out of nothing. */
  lemma TwoReadersOverspend(s: State, id: int, i: int, j: int, first: int, second: int, caller: string)
    requires id in s.db.escrows && s.db.escrows[id].status == Active && s.pending == map[]
    requires (id, i) in s.db.milestones && (id, j) in s.db.milestones
    requires 0 < first < s.db.escrows[id].remainingBalance && 0 < second < s.db.escrows[id].remainingBalance
    ensures var read := Step(Step(s, BeginRelease(1, id, i, first, caller)), BeginRelease(2, id, j, second, caller));
            var t := Step(Step(read, CommitRelease(1)), CommitRelease(2));
            && Released(t, id) == Released(s, id) + first + second
            && t.db.escrows[id] == s.db.escrows[id].(remainingBalance := s.db.escrows[id].remainingBalance - second)
            && t.db.disputes == s.db.disputes
            && (Conserved(s, id) ==> !Conserved(t, id))
  {
    var t2 := BothRead(s, id, i, j, first, second, caller);
    var t := BothWrite(t2, t2.pending[1], t2.pending[2]);
  }

  lemma BothRead(s: State, id: int, i: int, j: int, first: int, second: int, caller: string) returns (t: State)
    requires id in s.db.escrows && s.db.escrows[id].status == Active && s.pending == map[]
    requires (id, i) in s.db.milestones && (id, j) in s.db.milestones
    requires 0 < first < s.db.escrows[id].remainingBalance && 0 < second < s.db.escrows[id].remainingBalance
    ensures t == Step(Step(s, BeginRelease(1, id, i, first, caller)), BeginRelease(2, id, j, second, caller))
    ensures var balance := s.db.escrows[id].remainingBalance;
            t == s.(pending := map[1 := Releasing(id, i, first, caller, balance, s.db.milestones[(id, i)]),
                                   2 := Releasing(id, j, second, caller, balance, s.db.milestones[(id, j)])])
  {
    t := Step(Step(s, BeginRelease(1, id, i, first, caller)), BeginRelease(2, id, j, second, caller));
  }

  /** A release that does not empty the escrow it read writes its own subtraction, whatever is stored. */
  lemma OneWrite(s: State, call: nat, p: Pending) returns (t: State)
    requires call in s.pending && s.pending[call] == p && p.Releasing? && p.id in s.db.escrows && p.amount < p.balance
    ensures t == Step(s, CommitRelease(call)) && t.pending == s.pending - {call}
    ensures t.db.escrows == s.db.escrows[p.id := s.db.escrows[p.id].(remainingBalance := p.balance - p.amount)]
    ensures t.db.disputes == s.db.disputes && Released(t, p.id) == Released(s, p.id) + p.amount
  {
    t := Step(s, CommitRelease(call));
    SumSnoc(s.releases, Amount(p.id, p.amount), p.id);
  }

  lemma BothWrite(s: State, p: Pending, q: Pending) returns (t: State)
    requires s.pending == map[1 := p, 2 := q] && p.Releasing? && q.Releasing? && p.id == q.id && p.id in s.db.escrows
    requires p.amount < p.balance && q.amount < q.balance == s.db.escrows[q.id].remainingBalance && p.amount != 0
    ensures t == Step(Step(s, CommitRelease(1)), CommitRelease(2))
    ensures Released(t, q.id) == Released(s, q.id) + p.amount + q.amount
    ensures t.db.disputes == s.db.disputes && q.id in t.db.escrows
    ensures t.db.escrows[q.id] == s.db.escrows[q.id].(remainingBalance := q.balance - q.amount)
    ensures Conserved(s, q.id) ==> !Conserved(t, q.id)
  {
    var t1 := OneWrite(s, 1, p);
    t := OneWrite(t1, 2, q);
  }

  /** Eighty and eighty are released from an escrow of one hundred. */
  lemma ReleasesExceedTotal()
    ensures var actions := [Fund(1, 100), Chain(MilestoneAdded(1, 0)), Chain(MilestoneAdded(1, 1)),
                            BeginRelease(1, 1, 0, 80, "c"), BeginRelease(2, 1, 1, 80, "c"), CommitRelease(1),
                            CommitRelease(2)];
            var s := Run(START, actions);
            && s.db.escrows == map[1 := Escrow(100, 20, Active)] && Released(s, 1) == 160 && !Conserved(s, 1)
  {
    var s := FundedWithTwo();
    var a := [Fund(1, 100), Chain(MilestoneAdded(1, 0)), Chain(MilestoneAdded(1, 1))];
    var b := [BeginRelease(1, 1, 0, 80, "c"), BeginRelease(2, 1, 1, 80, "c"), CommitRelease(1), CommitRelease(2)];
    RunFirst(START, a[0], [a[1], a[2]]);
    RunFirst(Step(START, a[0]), a[1], [a[2]]);
    RunFirst(Step(Step(START, a[0]), a[1]), a[2], []);
    RunOfFour(s, b[0], b[1], b[2], b[3]);
    EightyTwice(s);
    RunConcat(START, a, b);
  }

  lemma EightyTwice(s: State)
    requires s.db.escrows == map[1 := Escrow(100, 100, Active)] && s.pending == map[] && s.releases == []
    requires (1, 0) in s.db.milestones && (1, 1) in s.db.milestones && s.db.disputes == map[]
    ensures var t := Step(Step(Step(Step(s, BeginRelease(1, 1, 0, 80, "c")), BeginRelease(2, 1, 1, 80, "c")),
                               CommitRelease(1)), CommitRelease(2));
            t.db.escrows == map[1 := Escrow(100, 20, Active)] && Released(t, 1) == 160 && !Conserved(t, 1)
  {
    TwoReadersOverspend(s, 1, 0, 1, 80, 80, "c");
  }

  lemma FundedWithTwo() returns (s: State)
    ensures s == Step(Step(Step(START, Fund(1, 100)), Chain(MilestoneAdded(1, 0))), Chain(MilestoneAdded(1, 1)))
    ensures s == State(Db(map[1 := Escrow(100, 100, Active)], map[(1, 0) := Pending, (1, 1) := Pending], map[], []),
                       map[], [], {}, [])
  {
    s := Step(Step(Step(START, Fund(1, 100)), Chain(MilestoneAdded(1, 0))), Chain(MilestoneAdded(1, 1)));
  }

  lemma RunOfFour(s: State, a: Action, b: Action, c: Action, d: Action)
    ensures Run(s, [a, b, c, d]) == Step(Step(Step(Step(s, a), b), c), d)
  {
    RunFirst(s, a, [b, c, d]);
    RunFirst(Step(s, a), b, [c, d]);
    RunFirst(Step(Step(s, a), b), c, [d]);
    RunFirst(Step(Step(Step(s, a), b), c), d, []);
  }

  lemma ReadThenRaised(s: State, id: int, index: int, amount: int, caller: string, raiser: string)
    returns (t: State, p: Pending)
    requires id in s.db.escrows && s.db.escrows[id].status == Active && s.pending == map[] && id !in s.db.disputes
    requires (id, index) in s.db.milestones && 0 <= amount <= s.db.escrows[id].remainingBalance
    ensures t == Step(Step(s, BeginRelease(1, id, index, amount, caller)), Raise(id, raiser, None))
    ensures p == Releasing(id, index, amount, caller, s.db.escrows[id].remainingBalance, s.db.milestones[(id, index)])
    ensures t.pending == map[1 := p] && t.releases == s.releases
    ensures t.db.escrows == s.db.escrows[id := s.db.escrows[id].(status := Disputed)]
    ensures t.db.disputes == s.db.disputes[id := Dispute(raiser, false, 0, 0)]
  {
    p := Releasing(id, index, amount, caller, s.db.escrows[id].remainingBalance, s.db.milestones[(id, index)]);
    t := Step(Step(s, BeginRelease(1, id, index, amount, caller)), Raise(id, raiser, None));
  }

  /** A dispute raised between the read and the write of a release keeps the sums. But if the release empties the
      escrow, it ends Completed with its dispute open, and resolveDispute refuses it whatever the amounts. */
  lemma DisputeBetweenReadAndWrite(s: State, id: int, index: int, amount: int, caller: string, raiser: string)
    requires id in s.db.escrows && s.db.escrows[id].status == Active && s.pending == map[] && id !in s.db.disputes
    requires (id, index) in s.db.milestones && 0 <= amount <= s.db.escrows[id].remainingBalance && Conserved(s, id)
    ensures var t := Step(Step(Step(s, BeginRelease(1, id, index, amount, caller)), Raise(id, raiser, None)),
                          CommitRelease(1));
            && id in t.db.escrows && Conserved(t, id) && id in t.db.disputes && !t.db.disputes[id].resolved
            && t.db.escrows[id].status == (if amount == s.db.escrows[id].remainingBalance then Completed else Disputed)
            && (amount == s.db.escrows[id].remainingBalance ==>
                  forall c, f :: ResolveDispute(t.db, id, c, f) == Failed(NotDisputed))
  {
    var raised, p := ReadThenRaised(s, id, index, amount, caller, raiser);
    var t := WriteEffect(raised, 1, p);
  }

  /** A dispute resolved between them: the release writes a balance back into the completed escrow. */
  lemma ReleaseReopensCompleted(s: State, id: int, index: int, amount: int, caller: string, raiser: string, client: int)
    requires id in s.db.escrows && s.db.escrows[id].status == Active && s.pending == map[] && id !in s.db.disputes
    requires (id, index) in s.db.milestones && 0 <= amount < s.db.escrows[id].remainingBalance
    ensures var balance := s.db.escrows[id].remainingBalance;
            var t := Step(Step(Step(Step(s, BeginRelease(1, id, index, amount, caller)), Raise(id, raiser, None)),
                               Resolve(id, client, balance - client)), CommitRelease(1));
            id in t.db.escrows && t.db.escrows[id] == Escrow(s.db.escrows[id].totalAmount, balance - amount, Completed)
  {
  }

  /** After a release of forty the automatic split pays one hundred out of a balance of sixty, and the escrow stays
      disputed with that balance. */
  lemma SplitPaysTooMuch()
    ensures var actions := [Fund(1, 100), Chain(MilestoneAdded(1, 0)), BeginRelease(1, 1, 0, 40, "c"), CommitRelease(1),
                            Raise(1, "f", None), BeginSplit(2, 1, 0.5), CommitPayout(2)];
            var s := Run(START, actions);
            s.db.escrows == map[1 := Escrow(100, 60, Disputed)] && PaidOut(s.db, 1) == 100 && Released(s, 1) == 40
  {
    var a := [Fund(1, 100), Chain(MilestoneAdded(1, 0)), BeginRelease(1, 1, 0, 40, "c"), CommitRelease(1)];
    var b := [Raise(1, "f", None), BeginSplit(2, 1, 0.5), CommitPayout(2)];
    var s := ReleasedForty();
    RunOfFour(START, a[0], a[1], a[2], a[3]);
    SplitAfterForty(s);
    RunConcat(START, a, b);
  }

  lemma SplitAfterForty(s: State)
    requires s.db.escrows == map[1 := Escrow(100, 60, Active)] && s.db.disputes == map[] && s.pending == map[]
    ensures var t := Run(s, [Raise(1, "f", None), BeginSplit(2, 1, 0.5), CommitPayout(2)]);
            && t.db.escrows == map[1 := Escrow(100, 60, Disputed)]
            && PaidOut(t.db, 1) == 100 && t.releases == s.releases
  {
    var raised := RaisedOverSixty(s);
    var read := HalvesRead(raised);
    RunFirst(s, Raise(1, "f", None), [BeginSplit(2, 1, 0.5), CommitPayout(2)]);
    RunFirst(raised, BeginSplit(2, 1, 0.5), [CommitPayout(2)]);
    RunFirst(read, CommitPayout(2), []);
  }

  lemma RaisedOverSixty(s: State) returns (t: State)
    requires s.db.escrows == map[1 := Escrow(100, 60, Active)] && s.db.disputes == map[] && s.pending == map[]
    ensures t == Step(s, Raise(1, "f", None)) && t.pending == map[] && t.releases == s.releases
    ensures t.db.escrows == map[1 := Escrow(100, 60, Disputed)] && t.db.disputes == map[1 := Dispute("f", false, 0, 0)]
  {
    t := Step(s, Raise(1, "f", None));
  }

  lemma HalvesRead(s: State) returns (t: State)
    requires s.db.escrows == map[1 := Escrow(100, 60, Disputed)] && s.db.disputes == map[1 := Dispute("f", false, 0, 0)]
    requires s.pending == map[]
    ensures t == Step(s, BeginSplit(2, 1, 0.5)) && t == s.(pending := map[2 := Paying(1, 50, 50)])
  {
    assert ComputeSplitAmounts(100, 0.5) == (50, 50);
    t := Step(s, BeginSplit(2, 1, 0.5));
  }

  lemma ReleasedForty() returns (s: State)
    ensures s == Step(Step(Step(Step(START, Fund(1, 100)), Chain(MilestoneAdded(1, 0))),
                           BeginRelease(1, 1, 0, 40, "c")), CommitRelease(1))
    ensures s.db.escrows == map[1 := Escrow(100, 60, Active)] && s.db.disputes == map[] && s.pending == map[]
    ensures Released(s, 1) == 40
  {
    s := Step(Step(Step(Step(START, Fund(1, 100)), Chain(MilestoneAdded(1, 0))), BeginRelease(1, 1, 0, 40, "c")),
              CommitRelease(1));
    SumSnoc([], Amount(1, 40), 1);
  }

  lemma {:induction false} RunConcat(s: State, a: seq<Action>, b: seq<Action>)
    ensures Run(s, a + b) == Run(Run(s, a), b)
    decreases |a|
  {
    if a == [] {
      assert a + b == b;
    } else {
      assert (a + b)[1..] == a[1..] + b;
      RunConcat(Step(s, a[0]), a[1..], b);
    }
  }

  // ---- From funding to settlement ----

  /** When a release, run without interruption, goes through, and with which error it does not. */
  lemma ReleaseSucceedsIff(db: Db, id: int, index: int, amount: int, caller: string)
    ensures var r := ReleaseMilestone(db, id, index, amount, caller);
            var open := id in db.escrows && db.escrows[id].status == Active;
            && (r.Done? <==> open && amount <= db.escrows[id].remainingBalance && (id, index) in db.milestones)
            && (r == Failed(InsufficientBalance) <==> open && amount > db.escrows[id].remainingBalance)
            && (r == Failed(NotActive) <==> id in db.escrows && db.escrows[id].status != Active)
            && (r.Done? ==>
                  && r.db.milestones == db.milestones[(id, index) := Approved]
                  && r.db.escrows.Keys == db.escrows.Keys && r.db.disputes == db.disputes
                  && (forall other :: other in db.escrows && other != id ==> r.db.escrows[other] == db.escrows[other]))
  {
  }

  /** Releases of the milestones of one escrow, one after another; None if one of them fails. */
  function ReleaseAll(db: Db, id: int, releases: seq<(int, int)>, caller: string): Option<Db>
    decreases |releases|
  {
    if releases == [] then Some(db)
    else
      match ReleaseMilestone(db, id, releases[0].0, releases[0].1, caller)
      case Failed(_) => None
      case Done(db1) => ReleaseAll(db1, id, releases[1..], caller)
  }

  function Total(releases: seq<(int, int)>): int {
    if releases == [] then 0 else releases[0].1 + Total(releases[1..])
  }

  lemma {:induction false} TotalIsPositive(releases: seq<(int, int)>)
    requires forall i :: 0 <= i < |releases| ==> releases[i].1 > 0
    ensures Total(releases) >= |releases|
  {
    if releases != [] {
      TotalIsPositive(releases[1..]);
    }
  }

  lemma OneRelease(db: Db, id: int, index: int, amount: int, caller: string) returns (db1: Db)
    requires id in db.escrows && db.escrows[id].status == Active && 0 < amount <= db.escrows[id].remainingBalance
    requires (id, index) in db.milestones
    ensures ReleaseMilestone(db, id, index, amount, caller) == Done(db1)
    ensures id in db1.escrows && db1.milestones == db.milestones[(id, index) := Approved]
    ensures var left := db.escrows[id].remainingBalance - amount;
            db1.escrows[id] == Escrow(db.escrows[id].totalAmount, left, if left == 0 then Completed else Active)
    ensures db1.history == db.history + [History((id, index), db.milestones[(id, index)], Approved, caller)]
  {
    db1 := WriteRelease(db, ReadRelease(db, id, index, amount, caller).call);
  }

  /** An escrow whose milestones are released one after another pays out in full: no release is refused while
      positive amounts add up to no more than the balance, and it is Completed exactly when they add up to it. */
  lemma {:induction false} ReleasesSettle(db: Db, id: int, releases: seq<(int, int)>, caller: string) returns (end: Db)
    requires id in db.escrows && db.escrows[id].status == Active && db.escrows[id].remainingBalance > 0
    requires forall i :: 0 <= i < |releases| ==> releases[i].1 > 0 && (id, releases[i].0) in db.milestones
    requires Total(releases) <= db.escrows[id].remainingBalance
    ensures ReleaseAll(db, id, releases, caller) == Some(end) && id in end.escrows
    ensures var left := db.escrows[id].remainingBalance - Total(releases);
            end.escrows[id] == Escrow(db.escrows[id].totalAmount, left, if left == 0 then Completed else Active)
    ensures end.milestones.Keys == db.milestones.Keys && |end.history| == |db.history| + |releases|
    ensures forall i :: 0 <= i < |releases| ==> end.milestones[(id, releases[i].0)] == Approved
    ensures forall key :: key in db.milestones && db.milestones[key] == Approved ==> end.milestones[key] == Approved
    decreases |releases|
  {
    if releases == [] {
      end := db;
    } else {
      TotalIsPositive(releases[1..]);
      var db1 := OneRelease(db, id, releases[0].0, releases[0].1, caller);
      if releases[1..] == [] {
        end := db1;
      } else {
        end := ReleasesSettle(db1, id, releases[1..], caller);
      }
    }
  }

  /** A dispute resolved for the whole balance pays each side its own amount, empties and completes the escrow,
      touches no other row, and can be resolved only once. */
  lemma DisputeSettles(db: Db, id: int, raisedBy: string, client: int, freelancer: int)
    requires id in db.escrows && db.escrows[id].status == Active && id !in db.disputes
    ensures var raised := RaiseDispute(db, id, raisedBy, None);
            raised.Done? &&
            var r := ResolveDispute(raised.db, id, client, freelancer);
            && (r.Done? <==> client + freelancer == db.escrows[id].remainingBalance)
            && (r.Done? ==>
                  && r.db.disputes == db.disputes[id := Dispute(raisedBy, true, client, freelancer)]
                  && r.db.escrows == db.escrows[id := Escrow(db.escrows[id].totalAmount, 0, Completed)]
                  && r.db.milestones == db.milestones && r.db.history == db.history
                  && forall c, f :: ResolveDispute(r.db, id, c, f) == Failed(NotDisputed))
  {
    var raised := RaisedAlone(db, id, raisedBy);
    if client + freelancer == db.escrows[id].remainingBalance {
      var settled := ResolveDispute(raised, id, client, freelancer).db;
      assert settled.escrows == db.escrows[id := Escrow(db.escrows[id].totalAmount, 0, Completed)];
      assert settled.disputes == db.disputes[id := Dispute(raisedBy, true, client, freelancer)];
    }
  }

  lemma RaisedAlone(db: Db, id: int, raisedBy: string) returns (raised: Db)
    requires id in db.escrows && db.escrows[id].status == Active && id !in db.disputes
    ensures RaiseDispute(db, id, raisedBy, None) == Done(raised)
    ensures raised == db.(escrows := db.escrows[id := db.escrows[id].(status := Disputed)],
                          disputes := db.disputes[id := Dispute(raisedBy, false, 0, 0)])
  {
    raised := RaiseDispute(db, id, raisedBy, None).db;
  }

  /** A milestone named in a dispute is rejected, with a history row from the status it had; no other is. */
  lemma DisputedMilestoneIsRejected(db: Db, id: int, raisedBy: string, index: int)
    requires id in db.escrows && db.escrows[id].status == Active && id !in db.disputes && (id, index) in db.milestones
    ensures var r := RaiseDispute(db, id, raisedBy, Some(index));
            && r.Done? && r.db.milestones == db.milestones[(id, index) := Rejected]
            && r.db.history == db.history + [History((id, index), db.milestones[(id, index)], Rejected, raisedBy)]
            && id in r.db.escrows && r.db.escrows[id] == db.escrows[id].(status := Disputed)
  {
  }

  /** The automatic split and the chain's resolution put each side's amount into its own column. */
  lemma PayoutsReachTheirColumns(s: State, id: int, clientSplit: real, client: int, freelancer: int)
    requires id in s.db.disputes && !s.db.disputes[id].resolved && id in s.db.escrows
    ensures var split := ResolveAutomatically(s.db, id, clientSplit);
            var (c, f) := ComputeSplitAmounts(s.db.escrows[id].totalAmount, clientSplit);
            && split.Done? && id in split.db.disputes
            && split.db.disputes[id] == Dispute(s.db.disputes[id].raisedBy, true, c, f)
    ensures var after := ChainStep(s, DisputeResolved(id, client, freelancer)).db;
            && id in after.disputes && id in after.escrows && after.escrows[id].status == Completed
            && after.disputes[id] == Dispute(s.db.disputes[id].raisedBy, true, client, freelancer)
  {
  }

  // ---- What is refused ----

  lemma FundRefusedIff(db: Db, id: int, totalAmount: int)
    ensures FundEscrow(db, id, totalAmount) == Failed(AlreadyExists) <==> id in db.escrows
    ensures id !in db.escrows ==>
              FundEscrow(db, id, totalAmount)
              == Done(db.(escrows := db.escrows[id := Escrow(totalAmount, totalAmount, Active)]))
  {
  }

  /** A dispute is raised on an active escrow that has none; each other case has its own error. */
  lemma RaiseRefusedIff(db: Db, id: int, raisedBy: string, index: Option<int>)
    ensures var r := RaiseDispute(db, id, raisedBy, index);
            && (r == Failed(NotFound) <==> id !in db.escrows)
            && (r == Failed(NotActive) <==> id in db.escrows && db.escrows[id].status != Active)
            && (r == Failed(AlreadyExists) <==>
                  id in db.escrows && db.escrows[id].status == Active && id in db.disputes)
            && (r.Done? <==> id in db.escrows && db.escrows[id].status == Active && id !in db.disputes)
  {
  }

  /** A disputed escrow is resolved for amounts that sum to its balance; each other case has its own error. */
  lemma ResolveRefusedIff(db: Db, id: int, client: int, freelancer: int)
    ensures var r := ResolveDispute(db, id, client, freelancer);
            var disputed := id in db.escrows && db.escrows[id].status == Disputed;
            && (r == Failed(NotDisputed) <==> id in db.escrows && db.escrows[id].status != Disputed)
            && (r == Failed(AmountsMustSum) <==> disputed && client + freelancer != db.escrows[id].remainingBalance)
            && (r.Done? <==> disputed && client + freelancer == db.escrows[id].remainingBalance && id in db.disputes)
            && (id !in db.escrows ==> r == Failed(NotFound))
  {
  }

  /** The admin's resolution and the automatic split take exactly the open disputes. */
  lemma OnlyOpenDisputesArePaid(db: Db, id: int, client: int, freelancer: int, clientSplit: real)
    ensures var open := id in db.disputes && !db.disputes[id].resolved;
            && (ReadPayout(db, id, client, freelancer) == Ready(Paying(id, client, freelancer)) <==> open)
            && (ReadPayout(db, id, client, freelancer) == Refused(AlreadyResolved) <==>
                  id in db.disputes && db.disputes[id].resolved)
            && (ResolveAutomatically(db, id, clientSplit).Done? <==> open && id in db.escrows)
            && (ResolveAutomatically(db, id, clientSplit) == Failed(AlreadyResolved) <==>
                  id in db.disputes && db.disputes[id].resolved)
  {
  }

  /** BigInt division: the quotient keeps the sign of the dividend and the rest is less than the divisor. */
  lemma DivisionTruncates(a: int, b: int)
    requires b > 0
    ensures var q := TruncDiv(a, b);
            && (a >= 0 ==> q >= 0 && 0 <= a - b * q < b)
            && (a <= 0 ==> q <= 0 && -b < a - b * q <= 0)
  {
    if a >= 0 {
      QuotientAndRest(a, b);
    } else {
      QuotientAndRest(-a, b);
      NegatedProduct(b, -a / b);
    }
  }

  lemma QuotientAndRest(x: nat, b: nat)
    requires b > 0
    ensures x / b >= 0 && 0 <= x - b * (x / b) < b
  {
  }

  lemma NegatedProduct(b: int, q: int)
    ensures b * -q == -(b * q)
  {
  }

  lemma TransitionTable(from: Status, to: Status)
    ensures IsValidTransition(from, to) <==>
              (from, to) in {(Active, Completed), (Active, Disputed), (Active, Cancelled), (Disputed, Completed),
                             (Disputed, Cancelled)}
  {
  }

  // ---- What a call holds, and what the other writers write ----

  /** A call that has read keeps what it read until its own write or abort, and then it is over. */
  lemma CallHoldsItsRead(s: State, a: Action, call: nat)
    requires call in s.pending
    ensures var p := s.pending[call];
            var over := || a == Abort(call)
                        || (a == CommitRelease(call) && p.Releasing? && p.id in s.db.escrows)
                        || (a == CommitPayout(call) && p.Paying? && p.id in s.db.disputes);
            if over then call !in Step(s, a).pending
            else call in Step(s, a).pending && Step(s, a).pending[call] == p
  {
    CallStays(s, a, call);
  }

  lemma CallStays(s: State, a: Action, call: nat)
    requires call in s.pending
    ensures !a.Abort? && !a.CommitRelease? && !a.CommitPayout? ==>
              call in Step(s, a).pending && Step(s, a).pending[call] == s.pending[call]
  {
  }

  /** A call begins under a free name, with the answer of its reads. */
  lemma CallBegins(s: State, call: nat, id: int, client: int, freelancer: int)
    requires call !in s.pending
    ensures var t := Step(s, BeginAdminPayout(call, id, client, freelancer));
            && (call in t.pending <==> id in s.db.disputes && !s.db.disputes[id].resolved)
            && (call in t.pending ==> t.pending[call] == Paying(id, client, freelancer))
  {
  }

  lemma StatusIsSet(s: State, id: int, status: Status)
    requires id in s.db.escrows
    ensures var t := Step(s, SetStatus(id, status));
            id in t.db.escrows && t.db.escrows[id] == s.db.escrows[id].(status := status)
  {
  }

  /** Imports and the dispute controller write their row where it may stand, and nothing else. */
  lemma DirectWritesLand(s: State, w: DirectWrite)
    ensures var t := Step(s, Direct(w)).db;
            match w
            case ImportEscrow(id, escrow) =>
              id in t.escrows && t.escrows[id] == (if id in s.db.escrows then s.db.escrows[id] else escrow)
            case ImportMilestone(id, index, status) =>
              id in s.db.escrows ==> (id, index) in t.milestones && t.milestones[(id, index)] == status
            case OpenDispute(id, raisedBy) =>
              id in s.db.escrows ==> id in t.disputes && t.disputes[id] == if id in s.db.disputes then s.db.disputes[id]
                                                                           else Dispute(raisedBy, false, 0, 0)
            case MarkResolved(id) =>
              id in s.db.disputes ==> id in t.disputes && t.disputes[id] == s.db.disputes[id].(resolved := true)
  {
  }
}
