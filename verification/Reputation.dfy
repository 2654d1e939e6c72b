/** The reputation scores of backend/services/reputationService.js: incremental updates with a floor
    after each dispute and cancellation, against recalculation from the event history with one floor at the end. */
module Reputation {
  import opened Wrappers

  datatype EventType = ESCROW_COMPLETED | DISPUTE_WON | DISPUTE_LOST | CANCELLATION

  datatype Event = Event(address: string, eventType: EventType, escrowId: int, scoreDelta: int, tenantId: string)

  datatype Record = Record(totalScore: int, completedEscrows: int, disputesWon: int)

  /** `events` is in creation order. */
  datatype Store = Store(records: map<string, Record>, events: seq<Event>)

  function Max(a: int, b: int): int { if a >= b then a else b }
  function Min(a: int, b: int): int { if a <= b then a else b }

  predicate Recorded(events: seq<Event>, e: Event) {
    exists i :: 0 <= i < |events| && events[i].address == e.address && events[i].eventType == e.eventType
      && events[i].escrowId == e.escrowId
  }

  function RecordedEvents(events: seq<Event>, e: Event): seq<Event> {
    if Recorded(events, e) then events else events + [e]
  }

  /** The record after one event: increments, and a floor at 0 after everything but a completion. */
  function Updated(r: Record, e: Event): Record {
    match e.eventType
    case ESCROW_COMPLETED => r.(completedEscrows := r.completedEscrows + 1, totalScore := r.totalScore + e.scoreDelta)
    case DISPUTE_WON => r.(disputesWon := r.disputesWon + 1, totalScore := Max(0, r.totalScore + e.scoreDelta))
    case _ => r.(totalScore := Max(0, r.totalScore + e.scoreDelta))
  }

  /** One record* call; an address without a record makes it throw before anything is written. */
  function Apply(s: Store, e: Event): Store {
    if e.address !in s.records then s
    else Store(s.records[e.address := Updated(s.records[e.address], e)], RecordedEvents(s.events, e))
  }

  function CompletionEvent(address: string, freelancer: bool, escrowId: int, tenantId: string): Event {
    Event(address, ESCROW_COMPLETED, escrowId, if freelancer then 10 else 5, tenantId)
  }

  function DisputeEvent(address: string, won: bool, escrowId: int, tenantId: string): Event {
    if won then Event(address, DISPUTE_WON, escrowId, 15, tenantId)
    else Event(address, DISPUTE_LOST, escrowId, -5, tenantId)
  }

  function CancellationEvent(address: string, escrowId: int, tenantId: string): Event {
    Event(address, CANCELLATION, escrowId, -8, tenantId)
  }

  /** The deltas the service gives its event types. */
  predicate Genuine(e: Event) {
    match e.eventType
    case ESCROW_COMPLETED => e.scoreDelta == 10 || e.scoreDelta == 5
    case DISPUTE_WON => e.scoreDelta == 15
    case DISPUTE_LOST => e.scoreDelta == -5
    case CANCELLATION => e.scoreDelta == -8
  }

  function EventsOf(events: seq<Event>, address: string): seq<Event> {
    if events == [] then []
    else
      var last := events[|events| - 1];
      EventsOf(events[..|events| - 1], address) + (if last.address == address then [last] else [])
  }

  function Sum(events: seq<Event>): int {
    if events == [] then 0 else Sum(events[..|events| - 1]) + events[|events| - 1].scoreDelta
  }

  function Count(events: seq<Event>, t: EventType): nat {
    if events == [] then 0
    else Count(events[..|events| - 1], t) + (if events[|events| - 1].eventType == t then 1 else 0)
  }

  function Recalculated(events: seq<Event>): Record {
    Record(Max(0, Sum(events)), Count(events, ESCROW_COMPLETED), Count(events, DISPUTE_WON))
  }

  /** Whether recalculation visits an address: it has an event, of the given tenant if one is given. */
  predicate Visited(events: seq<Event>, address: string, tenantId: Option<string>) {
    exists i :: 0 <= i < |events| && events[i].address == address
      && (tenantId.None? || events[i].tenantId == tenantId.value)
  }

  class ReputationService {
    var records: map<string, Record>
    var events: seq<Event>

    ghost function Value(): Store
      reads this
    {
      Store(records, events)
    }

    /** The shared shape of the record* functions: upsert the event, update the record, floor it. */
    method ApplyEvent(e: Event, floored: bool)
      requires floored <==> !e.eventType.ESCROW_COMPLETED?
      modifies this
      ensures Value() == Apply(old(Value()), e)
    {
      if e.address !in records {
        return;
      }
      if !Recorded(events, e) {
        events := events + [e];
      }
      var updated := records[e.address].(totalScore := records[e.address].totalScore + e.scoreDelta);
      if e.eventType.ESCROW_COMPLETED? {
        updated := updated.(completedEscrows := updated.completedEscrows + 1);
      } else if e.eventType.DISPUTE_WON? {
        updated := updated.(disputesWon := updated.disputesWon + 1);
      }
      records := records[e.address := updated];
      if floored && updated.totalScore < 0 {
        records := records[e.address := records[e.address].(totalScore := 0)];
      }
    }

    method RecordEscrowCompletion(address: string, freelancer: bool, escrowId: int, tenantId: string)
      modifies this
      ensures Value() == Apply(old(Value()), CompletionEvent(address, freelancer, escrowId, tenantId))
    {
      ApplyEvent(CompletionEvent(address, freelancer, escrowId, tenantId), false);
    }

    method RecordDisputeOutcome(address: string, won: bool, escrowId: int, tenantId: string)
      modifies this
      ensures Value() == Apply(old(Value()), DisputeEvent(address, won, escrowId, tenantId))
    {
      ApplyEvent(DisputeEvent(address, won, escrowId, tenantId), true);
    }

    method RecordEscrowCancellation(address: string, wasAtFault: bool, escrowId: int, tenantId: string)
      modifies this
      ensures Value() == if wasAtFault then Apply(old(Value()), CancellationEvent(address, escrowId, tenantId))
                         else old(Value())
    {
      if wasAtFault {
        ApplyEvent(CancellationEvent(address, escrowId, tenantId), true);
      }
    }

    /** The loop over one address's events. */
    method Tally(history: seq<Event>) returns (r: Record)
      ensures r == Recalculated(history)
    {
      var totalScore, completedEscrows, disputesWon := 0, 0, 0;
      for i := 0 to |history|
        invariant totalScore == Sum(history[..i])
        invariant completedEscrows == Count(history[..i], ESCROW_COMPLETED)
        invariant disputesWon == Count(history[..i], DISPUTE_WON)
      {
        assert history[..i + 1][..i] == history[..i];
        totalScore := totalScore + history[i].scoreDelta;
        if history[i].eventType == ESCROW_COMPLETED {
          completedEscrows := completedEscrows + 1;
        }
        if history[i].eventType == DISPUTE_WON {
          disputesWon := disputesWon + 1;
        }
      }
      assert history[..|history|] == history;
      r := Record(Max(0, totalScore), completedEscrows, disputesWon);
    }

    /** Every visited address gets the tally of all its events; every other record stays. */
    method RecalculateFromEventHistory(tenantId: Option<string>)
      modifies this`records
      ensures records.Keys == old(records).Keys
      ensures forall a :: a in records ==>
                records[a] == if Visited(events, a, tenantId) then Recalculated(EventsOf(events, a))
                              else old(records)[a]
    {
      var i := 0;
      while i < |events|
        invariant 0 <= i <= |events| && records.Keys == old(records).Keys
        invariant forall a :: a in records ==>
                    records[a] == if Visited(events[..i], a, tenantId) then Recalculated(EventsOf(events, a))
                                  else old(records)[a]
      {
        var e := events[i];
        VisitedSnoc(events, i, tenantId);
        if (tenantId.None? || e.tenantId == tenantId.value) && e.address in records {
          var tally := Tally(EventsOf(events, e.address));
          records := records[e.address := tally];
        }
        i := i + 1;
      }
      assert events[..i] == events;
    }
  }

  lemma VisitedSnoc(events: seq<Event>, i: nat, tenantId: Option<string>)
    requires i < |events|
    ensures forall a :: Visited(events[..i + 1], a, tenantId)
              <==> || Visited(events[..i], a, tenantId)
                   || (events[i].address == a && (tenantId.None? || events[i].tenantId == tenantId.value))
  {
    forall a
      ensures Visited(events[..i + 1], a, tenantId)
         <==> || Visited(events[..i], a, tenantId)
              || (events[i].address == a && (tenantId.None? || events[i].tenantId == tenantId.value))
    {
      assert events[..i + 1][i] == events[i];
      assert forall k :: 0 <= k < i ==> events[..i + 1][k] == events[..i][k];
    }
  }

  // ---- The reflection theorem ----

  /** The incremental score of a call sequence from a starting record. */
  function Walk(start: Record, calls: seq<Event>): Record {
    if calls == [] then start else Updated(Walk(start, calls[..|calls| - 1]), calls[|calls| - 1])
  }

  /** The least of 0 and all sums of a prefix. */
  function LeastPrefix(start: int, calls: seq<Event>): int {
    if calls == [] then Min(0, start)
    else Min(LeastPrefix(start, calls[..|calls| - 1]), start + Sum(calls))
  }

  ghost predicate AllGenuine(calls: seq<Event>) {
    forall i :: 0 <= i < |calls| ==> Genuine(calls[i])
  }

  /** From any non-negative score, flooring after each dispute and penalty gives the plain sum minus the least of
      0 and every score an unfloored walk would have passed through. */
  lemma {:induction false} Reflection(start: Record, calls: seq<Event>)
    requires start.totalScore >= 0 && AllGenuine(calls)
    ensures Walk(start, calls).totalScore == start.totalScore + Sum(calls) - LeastPrefix(start.totalScore, calls)
    ensures Walk(start, calls).totalScore >= 0
  {
    if calls != [] {
      Reflection(start, calls[..|calls| - 1]);
      assert Genuine(calls[|calls| - 1]);
    }
  }

  /** The incremental score is never below the recalculated one, and equals it exactly when the walk
      was never lower below zero than where it ends. */
  lemma IncrementalAgainstRecalculated(calls: seq<Event>)
    requires AllGenuine(calls)
    ensures var score, again := Walk(Record(0, 0, 0), calls).totalScore, Recalculated(calls).totalScore;
            && score >= again
            && (score == again <==> LeastPrefix(0, calls) == Min(0, Sum(calls)))
  {
    Reflection(Record(0, 0, 0), calls);
    LeastPrefixBound(0, calls);
  }

  lemma LeastPrefixBound(start: int, calls: seq<Event>)
    ensures LeastPrefix(start, calls) <= Min(0, start + Sum(calls))
  {
    if calls != [] {
      LeastPrefixBound(start, calls[..|calls| - 1]);
    }
  }

  // ---- Runs over the whole store ----

  function Run(s: Store, calls: seq<Event>): Store {
    if calls == [] then s else Apply(Run(s, calls[..|calls| - 1]), calls[|calls| - 1])
  }

  /** How many calls repeat an earlier (address, type, escrow). */
  function Repeats(calls: seq<Event>, address: string, t: EventType): nat {
    if calls == [] then 0
    else
      var front, last := calls[..|calls| - 1], calls[|calls| - 1];
      Repeats(front, address, t) +
      if last.address == address && last.eventType == t && Recorded(front, last) then 1 else 0
  }

  lemma RecordedSnoc(events: seq<Event>, x: Event, e: Event)
    ensures Recorded(events + [x], e)
       <==> Recorded(events, e) || (x.address == e.address && x.eventType == e.eventType && x.escrowId == e.escrowId)
  {
    var all := events + [x];
    assert all[|events|] == x && forall i :: 0 <= i < |events| ==> all[i] == events[i];
  }

  lemma EventsOfSnoc(events: seq<Event>, e: Event, address: string)
    ensures EventsOf(events + [e], address) == if e.address == address then EventsOf(events, address) + [e]
                                               else EventsOf(events, address)
  {
    assert (events + [e])[..|events|] == events;
  }

  lemma TallySnoc(events: seq<Event>, e: Event, t: EventType)
    ensures Sum(events + [e]) == Sum(events) + e.scoreDelta
    ensures Count(events + [e], t) == Count(events, t) + (if e.eventType == t then 1 else 0)
    ensures Walk(Record(0, 0, 0), events + [e]) == Updated(Walk(Record(0, 0, 0), events), e)
  {
    assert (events + [e])[..|events|] == events;
  }

  ghost predicate AllRegistered(s: Store, calls: seq<Event>) {
    forall i :: 0 <= i < |calls| ==> calls[i].address in s.records
  }

  /** What a run leaves: the record is the walk over the address's calls, and the table knows exactly
      the keys of the calls made. */
  lemma {:induction false} RunFacts(s: Store, calls: seq<Event>, a: string)
    requires a in s.records && s.records[a] == Record(0, 0, 0) && s.events == [] && AllRegistered(s, calls)
    ensures Run(s, calls).records.Keys == s.records.Keys
    ensures Run(s, calls).records[a] == Walk(Record(0, 0, 0), EventsOf(calls, a))
    ensures forall e :: Recorded(Run(s, calls).events, e) <==> Recorded(calls, e)
  {
    if calls != [] {
      var front, last := calls[..|calls| - 1], calls[|calls| - 1];
      RunFacts(s, front, a);
      assert calls == front + [last];
      EventsOfSnoc(front, last, a);
      TallySnoc(EventsOf(front, a), last, ESCROW_COMPLETED);
      forall e
        ensures Recorded(Run(s, calls).events, e) <==> Recorded(calls, e)
      {
        RecordedSnoc(front, last, e);
        RecordedSnoc(Run(s, front).events, last, e);
      }
    }
  }

  lemma {:induction false} WalkCounts(calls: seq<Event>)
    ensures Walk(Record(0, 0, 0), calls).completedEscrows == Count(calls, ESCROW_COMPLETED)
    ensures Walk(Record(0, 0, 0), calls).disputesWon == Count(calls, DISPUTE_WON)
  {
    if calls != [] {
      WalkCounts(calls[..|calls| - 1]);
    }
  }

  lemma CountOfSnoc(events: seq<Event>, e: Event, a: string, t: EventType)
    ensures Count(EventsOf(events + [e], a), t) ==
            Count(EventsOf(events, a), t) + (if e.address == a && e.eventType == t then 1 else 0)
  {
    EventsOfSnoc(events, e, a);
    TallySnoc(EventsOf(events, a), e, t);
  }

  /** One call: an event that is already recorded counts once more for the caller but not in the table. */
  lemma CountStep(front: seq<Event>, events: seq<Event>, last: Event, a: string, t: EventType)
    requires Recorded(events, last) <==> Recorded(front, last)
    ensures Count(EventsOf(front + [last], a), t) - Count(EventsOf(front, a), t) ==
            Count(EventsOf(RecordedEvents(events, last), a), t) - Count(EventsOf(events, a), t) +
            (if last.address == a && last.eventType == t && Recorded(front, last) then 1 else 0)
  {
    CountOfSnoc(front, last, a, t);
    CountOfSnoc(events, last, a, t);
  }

  lemma RunEvents(s: Store, front: seq<Event>, last: Event)
    requires last.address in Run(s, front).records
    ensures Run(s, front + [last]).events == RecordedEvents(Run(s, front).events, last)
  {
    assert (front + [last])[..|front|] == front;
  }

  lemma RepeatsSnoc(front: seq<Event>, last: Event, a: string, t: EventType)
    ensures Repeats(front + [last], a, t) == Repeats(front, a, t) +
              (if last.address == a && last.eventType == t && Recorded(front, last) then 1 else 0)
  {
    assert (front + [last])[..|front|] == front;
  }

  lemma {:induction false} RecordedCount(s: Store, calls: seq<Event>, a: string, t: EventType)
    requires a in s.records && s.records[a] == Record(0, 0, 0) && s.events == [] && AllRegistered(s, calls)
    ensures Count(EventsOf(calls, a), t) == Count(EventsOf(Run(s, calls).events, a), t) + Repeats(calls, a, t)
  {
    if calls != [] {
      var front, last := calls[..|calls| - 1], calls[|calls| - 1];
      RecordedCount(s, front, a, t);
      RunFacts(s, front, a);
      assert calls == front + [last];
      RunEvents(s, front, last);
      RepeatsSnoc(front, last, a, t);
      CountStep(front, Run(s, front).events, last, a, t);
    }
  }

  /** completedEscrows and disputesWon exceed what recalculation finds by exactly the number of
      repeated calls: they agree if and only if no such call was made twice. */
  lemma CountersAgainstRecalculated(s: Store, calls: seq<Event>, a: string)
    requires a in s.records && s.records[a] == Record(0, 0, 0) && s.events == [] && AllRegistered(s, calls)
    ensures var s' := Run(s, calls);
            a in s'.records &&
            var r, again := s'.records[a], Recalculated(EventsOf(s'.events, a));
            && r.completedEscrows == again.completedEscrows + Repeats(calls, a, ESCROW_COMPLETED)
            && r.disputesWon == again.disputesWon + Repeats(calls, a, DISPUTE_WON)
  {
    RunFacts(s, calls, a);
    WalkCounts(EventsOf(calls, a));
    RecordedCount(s, calls, a, ESCROW_COMPLETED);
    RecordedCount(s, calls, a, DISPUTE_WON);
  }

  ghost predicate Distinct(calls: seq<Event>) {
    forall i, j :: 0 <= i < j < |calls| ==>
      || calls[i].address != calls[j].address
      || calls[i].eventType != calls[j].eventType
      || calls[i].escrowId != calls[j].escrowId
  }

  lemma {:induction false} DistinctCallsAreRecorded(s: Store, calls: seq<Event>)
    requires s.events == [] && AllRegistered(s, calls) && Distinct(calls)
    ensures Run(s, calls).events == calls && Run(s, calls).records.Keys == s.records.Keys
  {
    if calls != [] {
      DistinctCallsAreRecorded(s, calls[..|calls| - 1]);
    }
  }

  lemma {:induction false} DistinctNeverRepeats(calls: seq<Event>, a: string, t: EventType)
    requires Distinct(calls)
    ensures Repeats(calls, a, t) == 0
  {
    if calls != [] {
      DistinctNeverRepeats(calls[..|calls| - 1], a, t);
    }
  }

  /** With no call made twice the stored counters are the recalculated ones. */
  lemma DistinctCountersAgree(s: Store, calls: seq<Event>, a: string)
    requires a in s.records && s.records[a] == Record(0, 0, 0) && s.events == [] && AllRegistered(s, calls)
    requires Distinct(calls)
    ensures var s' := Run(s, calls);
            a in s'.records &&
            var r, again := s'.records[a], Recalculated(EventsOf(s'.events, a));
            r.completedEscrows == again.completedEscrows && r.disputesWon == again.disputesWon
  {
    CountersAgainstRecalculated(s, calls, a);
    DistinctNeverRepeats(calls, a, ESCROW_COMPLETED);
    DistinctNeverRepeats(calls, a, DISPUTE_WON);
  }

  lemma {:induction false} GenuineEventsOf(calls: seq<Event>, a: string)
    requires AllGenuine(calls)
    ensures AllGenuine(EventsOf(calls, a))
  {
    if calls != [] {
      GenuineEventsOf(calls[..|calls| - 1], a);
      assert Genuine(calls[|calls| - 1]);
    }
  }

  /** For every sequence of distinct events over any addresses, the stored score is at least the
      recalculated one, with equality exactly when the address's walk ended at its lowest point below
      zero or never went below zero. */
  lemma StoredAgainstRecalculated(s: Store, calls: seq<Event>, a: string)
    requires a in s.records && s.records[a] == Record(0, 0, 0) && s.events == []
    requires AllRegistered(s, calls) && AllGenuine(calls) && Distinct(calls)
    ensures var s' := Run(s, calls);
            a in s'.records &&
            var score, again := s'.records[a].totalScore, Recalculated(EventsOf(s'.events, a)).totalScore;
            var mine := EventsOf(calls, a);
            && score == Sum(mine) - LeastPrefix(0, mine)
            && score >= again
            && (score == again <==> LeastPrefix(0, mine) == Min(0, Sum(mine)))
  {
    RunFacts(s, calls, a);
    DistinctCallsAreRecorded(s, calls);
    GenuineEventsOf(calls, a);
    Reflection(Record(0, 0, 0), EventsOf(calls, a));
    IncrementalAgainstRecalculated(EventsOf(calls, a));
  }

  // ---- Scores in terms of the calls ----

  /** The calls that score: a completed escrow as its freelancer or as its client, a dispute won or lost, a
      cancellation at fault. */
  datatype Call = Delivered | Paid | Won | Lost | AtFault

  function EventFor(c: Call, address: string, escrowId: int, tenantId: string): Event {
    match c
    case Delivered => CompletionEvent(address, true, escrowId, tenantId)
    case Paid => CompletionEvent(address, false, escrowId, tenantId)
    case Won => DisputeEvent(address, true, escrowId, tenantId)
    case Lost => DisputeEvent(address, false, escrowId, tenantId)
    case AtFault => CancellationEvent(address, escrowId, tenantId)
  }

  /** One call for each escrow of a list. */
  function EventsFor(calls: seq<(Call, int)>, address: string, tenantId: string): (events: seq<Event>)
    ensures |events| == |calls|
  {
    if calls == [] then []
    else
      EventsFor(calls[..|calls| - 1], address, tenantId)
      + [EventFor(calls[|calls| - 1].0, address, calls[|calls| - 1].1, tenantId)]
  }

  function HowMany(calls: seq<(Call, int)>, c: Call): nat {
    if calls == [] then 0 else (if calls[0].0 == c then 1 else 0) + HowMany(calls[1..], c)
  }

  lemma {:induction false} HowManySnoc(calls: seq<(Call, int)>, x: (Call, int), c: Call)
    ensures HowMany(calls + [x], c) == HowMany(calls, c) + (if x.0 == c then 1 else 0)
  {
    if calls == [] {
      assert [] + [x] == [x] && [x][1..] == [];
    } else {
      assert (calls + [x])[1..] == calls[1..] + [x];
      HowManySnoc(calls[1..], x, c);
    }
  }

  lemma HowManyLast(calls: seq<(Call, int)>, c: Call)
    requires calls != []
    ensures HowMany(calls, c) == HowMany(calls[..|calls| - 1], c) + (if calls[|calls| - 1].0 == c then 1 else 0)
  {
    HowManySnoc(calls[..|calls| - 1], calls[|calls| - 1], c);
    assert calls == calls[..|calls| - 1] + [calls[|calls| - 1]];
  }

  function Points(c: Call): int {
    match c case Delivered => 10 case Paid => 5 case Won => 15 case Lost => -5 case AtFault => -8
  }

  lemma EventScores(c: Call, address: string, escrowId: int, tenantId: string)
    ensures var e := EventFor(c, address, escrowId, tenantId);
            && e.scoreDelta == Points(c) && e.address == address && Genuine(e)
            && (e.eventType == ESCROW_COMPLETED <==> c == Delivered || c == Paid)
            && (e.eventType == DISPUTE_WON <==> c == Won)
  {
  }

  function Score(calls: seq<(Call, int)>): int {
    10 * HowMany(calls, Delivered) + 5 * HowMany(calls, Paid) + 15 * HowMany(calls, Won)
    - 5 * HowMany(calls, Lost) - 8 * HowMany(calls, AtFault)
  }

  lemma ScoreLast(calls: seq<(Call, int)>)
    requires calls != []
    ensures Score(calls) == Score(calls[..|calls| - 1]) + Points(calls[|calls| - 1].0)
  {
    HowManyLast(calls, Delivered);
    HowManyLast(calls, Paid);
    HowManyLast(calls, Won);
    HowManyLast(calls, Lost);
    HowManyLast(calls, AtFault);
  }

  lemma CountsLast(calls: seq<(Call, int)>)
    requires calls != []
    ensures var front, c := calls[..|calls| - 1], calls[|calls| - 1].0;
            && HowMany(calls, Delivered) + HowMany(calls, Paid)
            == HowMany(front, Delivered) + HowMany(front, Paid) + (if c == Delivered || c == Paid then 1 else 0)
            && HowMany(calls, Won) == HowMany(front, Won) + (if c == Won then 1 else 0)
  {
    HowManyLast(calls, Delivered);
    HowManyLast(calls, Paid);
    HowManyLast(calls, Won);
  }

  lemma {:induction false} CallsAreOwn(calls: seq<(Call, int)>, address: string, tenantId: string)
    ensures var events := EventsFor(calls, address, tenantId);
            AllGenuine(events) && EventsOf(events, address) == events
  {
    if calls != [] {
      var front, last := calls[..|calls| - 1], calls[|calls| - 1];
      CallsAreOwn(front, address, tenantId);
      EventScores(last.0, address, last.1, tenantId);
      EventsOfSnoc(EventsFor(front, address, tenantId), EventFor(last.0, address, last.1, tenantId), address);
    }
  }

  /** The published scoring: ten points for a delivered escrow, five for a paid one, fifteen for a dispute won,
      less five for one lost and eight for a cancellation at fault. */
  lemma {:induction false} ScoreOfCalls(calls: seq<(Call, int)>, address: string, tenantId: string)
    ensures var events := EventsFor(calls, address, tenantId);
            && Sum(events) == 10 * HowMany(calls, Delivered) + 5 * HowMany(calls, Paid) + 15 * HowMany(calls, Won)
                              - 5 * HowMany(calls, Lost) - 8 * HowMany(calls, AtFault)
            && Count(events, ESCROW_COMPLETED) == HowMany(calls, Delivered) + HowMany(calls, Paid)
            && Count(events, DISPUTE_WON) == HowMany(calls, Won)
  {
    if calls != [] {
      var front, last := calls[..|calls| - 1], calls[|calls| - 1];
      var e := EventFor(last.0, address, last.1, tenantId);
      ScoreOfCalls(front, address, tenantId);
      TallySnoc(EventsFor(front, address, tenantId), e, ESCROW_COMPLETED);
      TallySnoc(EventsFor(front, address, tenantId), e, DISPUTE_WON);
      EventScores(last.0, address, last.1, tenantId);
      ScoreLast(calls);
      CountsLast(calls);
    }
  }

  /** What one call makes of any score: everything but a completion leaves at least zero, and a score that can bear
      it loses exactly the points. */
  lemma OneCall(r: Record, c: Call, address: string, escrowId: int, tenantId: string)
    ensures var after := Updated(r, EventFor(c, address, escrowId, tenantId)).totalScore;
            match c
            case Delivered => after == r.totalScore + 10
            case Paid => after == r.totalScore + 5
            case Won => after == if r.totalScore >= -15 then r.totalScore + 15 else 0
            case Lost => after == if r.totalScore >= 5 then r.totalScore - 5 else 0
            case AtFault => after == if r.totalScore >= 8 then r.totalScore - 8 else 0
  {
  }
}
