/** The refresh-token operations of backend/services/refreshTokenService.js with every database statement
    as a step of its own: no statement of one call shares a transaction with the next. */
module RefreshStatements {
  import opened RefreshTokens
  import opened Wrappers

  /** Where createRefreshToken is: before its deletion, count, query, eviction or insertion. The expiry is
      fixed before the first of them. */
  datatype Stage =
    | ToClean
    | ToCount(expiresAt: int)
    | ToChoose(expiresAt: int, count: nat)
    | ToEvict(expiresAt: int, ids: set<TokenId>)
    | ToInsert(expiresAt: int)

  /** A call between two statements. A presented token has been looked up and is found good, reused or expired. */
  datatype Call =
    | Consuming(id: TokenId)
    | Revoking(family: string)
    | Expiring(id: TokenId)
    | Creating(user: User, family: string, stage: Stage)

  datatype Sys = Sys(base: State, calls: map<nat, Call>)

  /** `Single` is an operation of one statement, or the clock. `Next` runs the next statement of a call:
      `newId` names the row if it inserts one, `answer` is what the eviction query finds if it asks. */
  datatype Statement =
    | Single(a: Action)
    | BeginLogin(c: nat, user: User, family: string)
    | Lookup(c: nat, id: TokenId)
    | Next(c: nat, newId: TokenId, answer: set<TokenId>)

  ghost predicate StatementEnabled(s: Sys, x: Statement) {
    match x
    case Single(a) => a.Logout? || a.LogoutAll? || a.Advance?
    case BeginLogin(c, _, family) => c !in s.calls && family !in s.base.families
    case Lookup(c, _) => c !in s.calls
    case Next(c, newId, answer) =>
      c in s.calls && s.calls[c].Creating? ==> StageEnabled(s.base, s.calls[c], newId, answer)
  }

  ghost predicate StageEnabled(s: State, call: Call, newId: TokenId, answer: set<TokenId>)
    requires call.Creating?
  {
    match call.stage
    case ToChoose(_, count) =>
      count >= MAX_ACTIVE_TOKENS_PER_USER && IsOldest(s.rows, call.user, count - MAX_ACTIVE_TOKENS_PER_USER + 1, answer)
    case ToInsert(_) => newId !in s.tokens
    case _ => true
  }

  function WithRows(s: State, rows: Rows): State {
    s.(rows := rows)
  }

  function Inserted(s: State, user: User, family: string, expiresAt: int, newId: TokenId): State {
    s.(rows := s.rows[newId := Row(user, family, false, true, expiresAt, None)], tokens := s.tokens + {newId})
  }

  /** One statement of createRefreshToken. */
  function CreateStatement(s: Sys, c: nat, newId: TokenId, answer: set<TokenId>): Sys
    requires c in s.calls && s.calls[c].Creating?
  {
    var call, rows, now := s.calls[c], s.base.rows, s.base.now;
    match call.stage
    case ToClean =>
      Sys(WithRows(s.base, CleanupExpired(rows, call.user, now)),
          s.calls[c := call.(stage := ToCount(now + REFRESH_EXPIRY_MS))])
    case ToCount(expiresAt) =>
      var count := |Sessions(rows, call.user, now)|;
      s.(calls := s.calls[c := call.(stage := if count >= MAX_ACTIVE_TOKENS_PER_USER then ToChoose(expiresAt, count)
                                              else ToInsert(expiresAt))])
    case ToChoose(expiresAt, _) =>
      s.(calls := s.calls[c := call.(stage := ToEvict(expiresAt, answer))])
    case ToEvict(expiresAt, ids) =>
      Sys(WithRows(s.base, Deactivate(rows, ids)), s.calls[c := call.(stage := ToInsert(expiresAt))])
    case ToInsert(expiresAt) =>
      Sys(Inserted(s.base, call.user, call.family, expiresAt, newId), s.calls - {c})
  }

  function Consumed(s: State, id: TokenId): State
    requires id in s.rows
  {
    s.(rows := Consume(s.rows, id, s.now), rotated := s.rotated + [id])
  }

  /** The next statement of a call; an update by primary key fails when the row is gone. */
  function NextStatement(s: Sys, c: nat, newId: TokenId, answer: set<TokenId>): Sys
    requires c in s.calls
  {
    match s.calls[c]
    case Consuming(id) =>
      if id !in s.base.rows then s.(calls := s.calls - {c})
      else Sys(Consumed(s.base, id), s.calls[c := Creating(s.base.rows[id].user, s.base.rows[id].family, ToClean)])
    case Revoking(family) =>
      Sys(s.base.(rows := RevokeFamily(s.base.rows, family), revoked := s.base.revoked + {family}), s.calls - {c})
    case Expiring(id) =>
      Sys(WithRows(s.base, Deactivate(s.base.rows, {id})), s.calls - {c})
    case Creating(_, _, _) => CreateStatement(s, c, newId, answer)
  }

  function Looked(s: Sys, c: nat, id: TokenId): Sys {
    match OutcomeOf(s.base.rows, true, id, s.base.now)
    case ReuseDetected => s.(calls := s.calls[c := Revoking(s.base.rows[id].family)])
    case Expired => s.(calls := s.calls[c := Expiring(id)])
    case Rotated => s.(calls := s.calls[c := Consuming(id)])
    case _ => s
  }

  function StatementStep(s: Sys, x: Statement): Sys {
    match x
    case Single(a) => s.(base := Step(s.base, a))
    case BeginLogin(c, user, family) =>
      Sys(s.base.(families := s.base.families + {family}), s.calls[c := Creating(user, family, ToClean)])
    case Lookup(c, id) => Looked(s, c, id)
    case Next(c, newId, answer) => if c in s.calls then NextStatement(s, c, newId, answer) else s
  }

  function StatementRun(s: Sys, xs: seq<Statement>): Sys
    decreases |xs|
  {
    if xs == [] then s else StatementRun(StatementStep(s, xs[0]), xs[1..])
  }

  ghost predicate StatementEnabledRun(s: Sys, xs: seq<Statement>)
    decreases |xs|
  {
    xs == [] || (StatementEnabled(s, xs[0]) && StatementEnabledRun(StatementStep(s, xs[0]), xs[1..]))
  }

  // ---- Exactly which statements keep the invariant ----

  ghost predicate CallOk(s: State, call: Call) {
    match call
    case Consuming(id) => id in s.tokens
    case Revoking(family) => family in s.families
    case Expiring(_) => true
    case Creating(_, family, _) => family in s.families
  }

  ghost predicate CallsOk(s: Sys) {
    forall c :: c in s.calls ==> CallOk(s.base, s.calls[c])
  }

  /** A consumption fits if no other call rotated the token, an insertion if its family has no active token and
      has not been revoked. */
  ghost predicate Fits(s: Sys, x: Statement) {
    x.Next? && x.c in s.calls ==>
      match s.calls[x.c]
      case Consuming(id) => id in s.base.rows ==> id !in s.base.rotated
      case Creating(_, family, ToInsert(_)) => NoActive(s.base.rows, family) && family !in s.base.revoked
      case _ => true
  }

  /** Rows deleted or deactivated. */
  ghost predicate Shrinks(rows: Rows, after: Rows) {
    forall k :: k in after ==>
      && k in rows && after[k] == rows[k].(isActive := after[k].isActive)
      && (after[k].isActive ==> rows[k].isActive)
  }

  lemma ShrinkingKeepsInv(s: State, after: Rows)
    requires Inv(s) && Shrinks(s.rows, after)
    ensures Inv(WithRows(s, after))
  {
  }

  lemma RevokingKeepsInv(s: State, family: string)
    requires Inv(s) && family in s.families
    ensures Inv(s.(rows := RevokeFamily(s.rows, family), revoked := s.revoked + {family}))
  {
  }

  lemma ConsumingKeepsInvIff(s: State, id: TokenId)
    requires Inv(s) && id in s.rows
    ensures Inv(Consumed(s, id)) <==> id !in s.rotated
  {
    var t := Consumed(s, id);
    if i :| 0 <= i < |s.rotated| && s.rotated[i] == id {
      assert t.rotated[i] == t.rotated[|s.rotated|];
    } else {
      assert RowsOk(t.rows, t.families, t.revoked);
    }
  }

  lemma InsertingKeepsInvIff(s: State, user: User, family: string, expiresAt: int, newId: TokenId)
    requires Inv(s) && family in s.families && newId !in s.tokens
    ensures Inv(Inserted(s, user, family, expiresAt, newId)) <==> NoActive(s.rows, family) && family !in s.revoked
  {
    var row, t := Row(user, family, false, true, expiresAt, None), Inserted(s, user, family, expiresAt, newId);
    if NoActive(s.rows, family) && family !in s.revoked {
      AddedRowsOk(s.rows, t.rows, newId, row, s.families, s.revoked);
    } else if family !in s.revoked {
      var k :| k in s.rows && s.rows[k].family == family && s.rows[k].isActive;
      assert t.rows[k] == s.rows[k] && t.rows[newId] == row;
    } else {
      assert !RowOk(t.rows[newId], t.families, t.revoked);
    }
  }

  lemma CreatingKeepsInvIff(s: Sys, c: nat, newId: TokenId, answer: set<TokenId>)
    requires Inv(s.base) && CallsOk(s) && c in s.calls && s.calls[c].Creating?
    requires StageEnabled(s.base, s.calls[c], newId, answer)
    ensures Inv(CreateStatement(s, c, newId, answer).base) <==> Fits(s, Next(c, newId, answer))
  {
    var call := s.calls[c];
    assert CallOk(s.base, call);
    match call.stage
    case ToClean => ShrinkingKeepsInv(s.base, CleanupExpired(s.base.rows, call.user, s.base.now));
    case ToEvict(_, ids) => ShrinkingKeepsInv(s.base, Deactivate(s.base.rows, ids));
    case ToInsert(expiresAt) => InsertingKeepsInvIff(s.base, call.user, call.family, expiresAt, newId);
    case _ =>
  }

  lemma NextKeepsInvIff(s: Sys, c: nat, newId: TokenId, answer: set<TokenId>)
    requires Inv(s.base) && CallsOk(s) && c in s.calls && StatementEnabled(s, Next(c, newId, answer))
    ensures Inv(NextStatement(s, c, newId, answer).base) <==> Fits(s, Next(c, newId, answer))
  {
    assert CallOk(s.base, s.calls[c]);
    match s.calls[c]
    case Consuming(id) => if id in s.base.rows { ConsumingKeepsInvIff(s.base, id); }
    case Revoking(family) => RevokingKeepsInv(s.base, family);
    case Expiring(id) => ShrinkingKeepsInv(s.base, Deactivate(s.base.rows, {id}));
    case Creating(_, _, _) => CreatingKeepsInvIff(s, c, newId, answer);
  }

  lemma LoginKeepsInv(s: State, family: string)
    requires Inv(s)
    ensures Inv(s.(families := s.families + {family}))
  {
  }

  lemma StatementKeepsCalls(s: Sys, x: Statement)
    requires Inv(s.base) && CallsOk(s) && StatementEnabled(s, x)
    ensures CallsOk(StatementStep(s, x))
  {
    var t := StatementStep(s, x);
    assert s.base.tokens <= t.base.tokens && s.base.families <= t.base.families;
    forall c | c in t.calls
      ensures CallOk(t.base, t.calls[c])
    {
      assert c in s.calls ==> CallOk(s.base, s.calls[c]);
    }
  }

  /** One statement, exactly: what was invariant stays so if and only if the statement fits. */
  lemma StatementKeepsInvIff(s: Sys, x: Statement)
    requires Inv(s.base) && CallsOk(s) && StatementEnabled(s, x)
    ensures Inv(StatementStep(s, x).base) <==> Fits(s, x)
  {
    match x
    case Single(a) => StepKeepsInv(s.base, a);
    case BeginLogin(_, _, family) => LoginKeepsInv(s.base, family);
    case Lookup(_, _) =>
    case Next(c, newId, answer) => if c in s.calls { NextKeepsInvIff(s, c, newId, answer); }
  }

  ghost predicate FitsRun(s: Sys, xs: seq<Statement>)
    decreases |xs|
  {
    xs == [] || (Fits(s, xs[0]) && FitsRun(StatementStep(s, xs[0]), xs[1..]))
  }

  ghost predicate InvThroughout(s: Sys, xs: seq<Statement>)
    decreases |xs|
  {
    Inv(s.base) && (xs == [] || InvThroughout(StatementStep(s, xs[0]), xs[1..]))
  }

  /** Over every interleaving of statements: a family has at most one active token, a revoked one none, and no
      token is rotated twice, after every statement, if and only if every consumption and insertion fits. */
  lemma {:induction false} InterleavedInvIff(s: Sys, xs: seq<Statement>)
    requires Inv(s.base) && CallsOk(s) && StatementEnabledRun(s, xs)
    ensures InvThroughout(s, xs) <==> FitsRun(s, xs)
    decreases |xs|
  {
    if xs != [] {
      StatementKeepsInvIff(s, xs[0]);
      StatementKeepsCalls(s, xs[0]);
      if Fits(s, xs[0]) {
        InterleavedInvIff(StatementStep(s, xs[0]), xs[1..]);
      } else {
        assert !InvThroughout(StatementStep(s, xs[0]), xs[1..]);
      }
    }
  }

  // ---- Exactly which statements keep the cap ----

  /** An insertion of a token that has not expired finds fewer sessions of its user than the cap. */
  ghost predicate FindsRoom(s: Sys, x: Statement, u: User) {
    x.Next? && x.c in s.calls ==>
      match s.calls[x.c]
      case Creating(user, _, ToInsert(expiresAt)) =>
        user == u && expiresAt > s.base.now ==> |Sessions(s.base.rows, u, s.base.now)| < MAX_ACTIVE_TOKENS_PER_USER
      case _ => true
  }

  lemma InsertedSessions(s: State, user: User, family: string, expiresAt: int, newId: TokenId, u: User)
    requires newId !in s.rows
    ensures |Sessions(Inserted(s, user, family, expiresAt, newId).rows, u, s.now)|
         == |Sessions(s.rows, u, s.now)| + (if user == u && expiresAt > s.now then 1 else 0)
  {
    var before := Sessions(s.rows, u, s.now);
    var after := Sessions(Inserted(s, user, family, expiresAt, newId).rows, u, s.now);
    if user == u && expiresAt > s.now {
      assert after == before + {newId};
    } else {
      assert after == before;
    }
  }

  lemma OthersAddNoSession(s: Sys, x: Statement, u: User)
    requires StatementEnabled(s, x)
    requires !(x.Next? && x.c in s.calls && s.calls[x.c].Creating? && s.calls[x.c].stage.ToInsert?)
    ensures var t := StatementStep(s, x).base;
            Sessions(t.rows, u, t.now) <= Sessions(s.base.rows, u, s.base.now)
  {
  }

  /** One statement, exactly: a user within the cap stays so if and only if an insertion finds room when it
      inserts, whatever was counted before. */
  lemma StatementKeepsCapIff(s: Sys, x: Statement, u: User)
    requires StatementEnabled(s, x) && s.base.rows.Keys <= s.base.tokens && Capped(s.base.rows, u, s.base.now)
    ensures Capped(StatementStep(s, x).base.rows, u, StatementStep(s, x).base.now) <==> FindsRoom(s, x, u)
  {
    if x.Next? && x.c in s.calls && s.calls[x.c].Creating? && s.calls[x.c].stage.ToInsert? {
      var call := s.calls[x.c];
      InsertedSessions(s.base, call.user, call.family, call.stage.expiresAt, x.newId, u);
    } else {
      OthersAddNoSession(s, x, u);
      SubsetSize(Sessions(StatementStep(s, x).base.rows, u, StatementStep(s, x).base.now),
                 Sessions(s.base.rows, u, s.base.now));
    }
  }

  lemma StatementKeepsIssued(s: Sys, x: Statement)
    requires s.base.rows.Keys <= s.base.tokens && StatementEnabled(s, x)
    ensures StatementStep(s, x).base.rows.Keys <= StatementStep(s, x).base.tokens
  {
  }

  ghost predicate RoomRun(s: Sys, xs: seq<Statement>, u: User)
    decreases |xs|
  {
    xs == [] || (FindsRoom(s, xs[0], u) && RoomRun(StatementStep(s, xs[0]), xs[1..], u))
  }

  ghost predicate CappedThroughout(s: Sys, xs: seq<Statement>, u: User)
    decreases |xs|
  {
    Capped(s.base.rows, u, s.base.now) && (xs == [] || CappedThroughout(StatementStep(s, xs[0]), xs[1..], u))
  }

  /** Over every interleaving of statements: a user never has more than five live sessions if and only if every
      insertion of a live token finds fewer than five. */
  lemma {:induction false} InterleavedCapIff(s: Sys, xs: seq<Statement>, u: User)
    requires s.base.rows.Keys <= s.base.tokens && StatementEnabledRun(s, xs) && Capped(s.base.rows, u, s.base.now)
    ensures CappedThroughout(s, xs, u) <==> RoomRun(s, xs, u)
    decreases |xs|
  {
    if xs != [] {
      StatementKeepsCapIff(s, xs[0], u);
      StatementKeepsIssued(s, xs[0]);
      if FindsRoom(s, xs[0], u) {
        InterleavedCapIff(StatementStep(s, xs[0]), xs[1..], u);
      } else {
        assert !CappedThroughout(StatementStep(s, xs[0]), xs[1..], u);
      }
    }
  }

  // ---- Uninterrupted calls are the whole operations ----

  lemma StatementOne(s: Sys, x: Statement, rest: seq<Statement>)
    ensures StatementRun(s, [x] + rest) == StatementRun(StatementStep(s, x), rest)
    ensures StatementEnabledRun(s, [x] + rest)
       <==> StatementEnabled(s, x) && StatementEnabledRun(StatementStep(s, x), rest)
  {
    assert ([x] + rest)[1..] == rest;
  }

  lemma {:induction false} RunConcat(s: Sys, xs: seq<Statement>, ys: seq<Statement>)
    ensures StatementRun(s, xs + ys) == StatementRun(StatementRun(s, xs), ys)
    ensures StatementEnabledRun(s, xs + ys)
       <==> StatementEnabledRun(s, xs) && StatementEnabledRun(StatementRun(s, xs), ys)
    decreases |xs|
  {
    if xs == [] {
      assert xs + ys == ys;
    } else {
      assert xs + ys == [xs[0]] + (xs[1..] + ys) && xs == [xs[0]] + xs[1..];
      StatementOne(s, xs[0], xs[1..] + ys);
      StatementOne(s, xs[0], xs[1..]);
      RunConcat(StatementStep(s, xs[0]), xs[1..], ys);
    }
  }

  /** A run that is known to lead from one state to another. */
  ghost predicate Leads(s: Sys, xs: seq<Statement>, t: Sys) {
    StatementEnabledRun(s, xs) && StatementRun(s, xs) == t
  }

  lemma LeadsOn(s: Sys, xs: seq<Statement>, t: Sys, ys: seq<Statement>, u: Sys)
    requires Leads(s, xs, t) && Leads(t, ys, u)
    ensures Leads(s, xs + ys, u)
  {
    RunConcat(s, xs, ys);
  }

  lemma LeadsOne(s: Sys, x: Statement, t: Sys)
    requires StatementEnabled(s, x) && StatementStep(s, x) == t
    ensures Leads(s, [x], t)
  {
    assert [x] + [] == [x];
    StatementOne(s, x, []);
  }

  lemma LeadsTwo(s: Sys, x: Statement, t: Sys, y: Statement, u: Sys)
    requires StatementEnabled(s, x) && StatementStep(s, x) == t && StatementEnabled(t, y) && StatementStep(t, y) == u
    ensures Leads(s, [x] + [y], u)
  {
    LeadsOne(s, x, t);
    LeadsOne(t, y, u);
    LeadsOn(s, [x], t, [y], u);
  }

  lemma CleanAndCount(s: Sys, c: nat, user: User, family: string, newId: TokenId, answer: set<TokenId>) returns (t: Sys)
    requires c in s.calls && s.calls[c] == Creating(user, family, ToClean)
    ensures Leads(s, [Next(c, newId, answer)] + [Next(c, newId, answer)], t)
    ensures var kept := CleanupExpired(s.base.rows, user, s.base.now);
            var expiresAt, count := s.base.now + REFRESH_EXPIRY_MS, |Sessions(kept, user, s.base.now)|;
            t == Sys(WithRows(s.base, kept),
                     s.calls[c := Creating(user, family, if count >= MAX_ACTIVE_TOKENS_PER_USER
                                                         then ToChoose(expiresAt, count) else ToInsert(expiresAt))])
  {
    var x := Next(c, newId, answer);
    var mid := StatementStep(s, x);
    t := StatementStep(mid, x);
    assert t.calls == s.calls[c := t.calls[c]];
    LeadsTwo(s, x, mid, x, t);
  }

  lemma ChooseAndEvict(s: Sys, c: nat, user: User, family: string, expiresAt: int, count: nat, newId: TokenId,
                       answer: set<TokenId>) returns (t: Sys)
    requires c in s.calls && s.calls[c] == Creating(user, family, ToChoose(expiresAt, count))
    requires StageEnabled(s.base, s.calls[c], newId, answer)
    ensures Leads(s, [Next(c, newId, answer)] + [Next(c, newId, answer)], t)
    ensures t == Sys(WithRows(s.base, Deactivate(s.base.rows, answer)),
                     s.calls[c := Creating(user, family, ToInsert(expiresAt))])
  {
    var x := Next(c, newId, answer);
    var mid := StatementStep(s, x);
    t := StatementStep(mid, x);
    assert t.calls == s.calls[c := t.calls[c]];
    LeadsTwo(s, x, mid, x, t);
  }

  lemma InsertLeads(s: Sys, c: nat, user: User, family: string, expiresAt: int, newId: TokenId, answer: set<TokenId>)
    requires c in s.calls && s.calls[c] == Creating(user, family, ToInsert(expiresAt)) && newId !in s.base.tokens
    ensures Leads(s, [Next(c, newId, answer)], Sys(Inserted(s.base, user, family, expiresAt, newId), s.calls - {c}))
  {
    LeadsOne(s, Next(c, newId, answer), Sys(Inserted(s.base, user, family, expiresAt, newId), s.calls - {c}));
  }

  /** createRefreshToken with nothing in between is the whole creation. */
  lemma CreationIsWhole(s: Sys, c: nat, user: User, family: string, newId: TokenId, answer: set<TokenId>)
    returns (xs: seq<Statement>, t: Sys)
    requires c in s.calls && s.calls[c] == Creating(user, family, ToClean) && newId !in s.base.tokens
    requires MayEvict(s.base.rows, user, s.base.now, answer)
    ensures Leads(s, xs, t)
    ensures t == Sys(s.base.(rows := Create(s.base.rows, user, family, s.base.now, newId, answer),
                             tokens := s.base.tokens + {newId}), s.calls - {c})
  {
    var x, expiresAt := Next(c, newId, answer), s.base.now + REFRESH_EXPIRY_MS;
    var counted := CleanAndCount(s, c, user, family, newId, answer);
    var ready, before := counted, [x] + [x];
    if counted.calls[c].stage.ToChoose? {
      ready := ChooseAndEvict(counted, c, user, family, expiresAt, counted.calls[c].stage.count, newId, answer);
      before := ([x] + [x]) + ([x] + [x]);
      LeadsOn(s, [x] + [x], counted, [x] + [x], ready);
    }
    InsertLeads(ready, c, user, family, expiresAt, newId, answer);
    t := Sys(Inserted(ready.base, user, family, expiresAt, newId), ready.calls - {c});
    LeadsOn(s, before, ready, [x], t);
    xs := before + [x];
    assert t.calls == s.calls - {c};
  }

  lemma LoginIsWhole(s: State, a: Action) returns (xs: seq<Statement>)
    requires a.Login? && Enabled(s, a)
    ensures Leads(Sys(s, map[]), xs, Sys(Step(s, a), map[]))
  {
    var begin := BeginLogin(0, a.user, a.family);
    var started := Sys(s.(families := s.families + {a.family}), map[0 := Creating(a.user, a.family, ToClean)]);
    LeadsOne(Sys(s, map[]), begin, started);
    var rest, t := CreationIsWhole(started, 0, a.user, a.family, a.id, a.oldest);
    assert t.calls == map[];
    LeadsOn(Sys(s, map[]), [begin], started, rest, t);
    xs := [begin] + rest;
  }

  lemma RotationIsWhole(s: State, a: Action) returns (xs: seq<Statement>)
    requires a.Refresh? && OutcomeOf(s.rows, a.jwtValid, a.id, s.now) == Rotated && Enabled(s, a)
    ensures Leads(Sys(s, map[]), xs, Sys(Step(s, a), map[]))
  {
    var row := s.rows[a.id];
    var looked := Sys(s, map[0 := Consuming(a.id)]);
    var consumed := Sys(Consumed(s, a.id), map[0 := Creating(row.user, row.family, ToClean)]);
    assert looked.calls[0 := Creating(row.user, row.family, ToClean)] == consumed.calls;
    LeadsTwo(Sys(s, map[]), Lookup(0, a.id), looked, Next(0, a.newId, a.oldest), consumed);
    var rest, t := CreationIsWhole(consumed, 0, row.user, row.family, a.newId, a.oldest);
    assert t.calls == map[];
    xs := ([Lookup(0, a.id)] + [Next(0, a.newId, a.oldest)]) + rest;
    LeadsOn(Sys(s, map[]), [Lookup(0, a.id)] + [Next(0, a.newId, a.oldest)], consumed, rest, t);
  }

  lemma RefusalIsWhole(s: State, a: Action) returns (xs: seq<Statement>)
    requires a.Refresh? && a.jwtValid && a.id in s.rows
    requires OutcomeOf(s.rows, true, a.id, s.now) == ReuseDetected || OutcomeOf(s.rows, true, a.id, s.now) == Expired
    ensures Leads(Sys(s, map[]), xs, Sys(Step(s, a), map[]))
  {
    var looked := StatementStep(Sys(s, map[]), Lookup(0, a.id));
    var done := StatementStep(looked, Next(0, a.newId, a.oldest));
    LeadsTwo(Sys(s, map[]), Lookup(0, a.id), looked, Next(0, a.newId, a.oldest), done);
    assert done.calls == map[];
    assert Deactivate(s.rows, {a.id}) == s.rows[a.id := s.rows[a.id].(isActive := false)];
    xs := [Lookup(0, a.id)] + [Next(0, a.newId, a.oldest)];
  }

  /** Every whole operation is one of these calls with nothing in between. */
  lemma WholeIsInterleaved(s: State, a: Action) returns (xs: seq<Statement>)
    requires Enabled(s, a)
    ensures Leads(Sys(s, map[]), xs, Sys(Step(s, a), map[]))
  {
    if a.Login? {
      xs := LoginIsWhole(s, a);
    } else if !a.Refresh? {
      LeadsOne(Sys(s, map[]), Single(a), Sys(Step(s, a), map[]));
      xs := [Single(a)];
    } else {
      match OutcomeOf(s.rows, a.jwtValid, a.id, s.now)
      case Rotated => xs := RotationIsWhole(s, a);
      case ReuseDetected => xs := RefusalIsWhole(s, a);
      case Expired => xs := RefusalIsWhole(s, a);
      case _ => xs := [];
    }
  }

  /** So every run of whole operations is an interleaving of statements. */
  lemma {:induction false} WholeRunIsInterleaved(s: State, actions: seq<Action>) returns (xs: seq<Statement>)
    requires EnabledRun(s, actions)
    ensures Leads(Sys(s, map[]), xs, Sys(Run(s, actions), map[]))
    decreases |actions|
  {
    if actions == [] {
      xs := [];
    } else {
      var first := WholeIsInterleaved(s, actions[0]);
      var rest := WholeRunIsInterleaved(Step(s, actions[0]), actions[1..]);
      xs := first + rest;
      LeadsOn(Sys(s, map[]), first, Sys(Step(s, actions[0]), map[]), rest, Sys(Run(s, actions), map[]));
    }
  }

  // ---- Two logins that count before either inserts ----

  /** A login up to its insertion, in a table without expired rows and with room for a session. */
  lemma UpToInsertion(s: Sys, c: nat, user: User, family: string, newId: TokenId) returns (xs: seq<Statement>, t: Sys)
    requires c !in s.calls && family !in s.base.families
    requires forall k :: k in s.base.rows ==> s.base.rows[k].expiresAt >= s.base.now
    requires |Sessions(s.base.rows, user, s.base.now)| < MAX_ACTIVE_TOKENS_PER_USER
    ensures Leads(s, xs, t)
    ensures t == Sys(s.base.(families := s.base.families + {family}),
                     s.calls[c := Creating(user, family, ToInsert(s.base.now + REFRESH_EXPIRY_MS))])
  {
    var begin, x := BeginLogin(c, user, family), Next(c, newId, {});
    var started := StatementStep(s, begin);
    LeadsOne(s, begin, started);
    t := CleanAndCount(started, c, user, family, newId, {});
    assert CleanupExpired(started.base.rows, user, started.base.now) == s.base.rows;
    LeadsOn(s, [begin], started, [x] + [x], t);
    xs := [begin] + ([x] + [x]);
    assert t.calls == s.calls[c := t.calls[c]];
  }

  /** Both insert: the cap of five is passed by one, whatever else is stored. */
  lemma BothInsert(s: Sys, c: nat, d: nat, user: User, b1: TokenId, b2: TokenId) returns (xs: seq<Statement>, t: Sys)
    requires c in s.calls && d in s.calls && c != d && b1 != b2 && b1 !in s.base.tokens && b2 !in s.base.tokens
    requires s.calls[c].Creating? && s.calls[c].user == user && s.calls[c].stage.ToInsert?
    requires s.calls[d].Creating? && s.calls[d].user == user && s.calls[d].stage.ToInsert?
    requires s.calls[c].stage.expiresAt > s.base.now && s.calls[d].stage.expiresAt > s.base.now
    requires s.base.rows.Keys <= s.base.tokens
    ensures Leads(s, xs, t) && t.base.now == s.base.now
    ensures |Sessions(t.base.rows, user, t.base.now)| == |Sessions(s.base.rows, user, s.base.now)| + 2
    ensures NoneExpiresAt(s.base.rows, user, s.base.now) ==> NoneExpiresAt(t.base.rows, user, t.base.now)
  {
    var f, e, g, h := s.calls[c].family, s.calls[c].stage.expiresAt, s.calls[d].family, s.calls[d].stage.expiresAt;
    var mid := Sys(Inserted(s.base, user, f, e, b1), s.calls - {c});
    InsertLeads(s, c, user, f, e, b1, {});
    InsertedSessions(s.base, user, f, e, b1, user);
    t := Sys(Inserted(mid.base, user, g, h, b2), mid.calls - {d});
    InsertLeads(mid, d, user, g, h, b2, {});
    InsertedSessions(mid.base, user, g, h, b2, user);
    LeadsOn(s, [Next(c, b1, {})], mid, [Next(d, b2, {})], t);
    xs := [Next(c, b1, {})] + [Next(d, b2, {})];
  }

  /** From any state with four sessions and nothing expired or expiring: two logins that both count four before
      either inserts leave six. */
  lemma TwoCountsLeaveSix(s: State, user: User, first: nat) returns (xs: seq<Statement>, t: Sys)
    requires Calm(s, first) && NoneExpiresAt(s.rows, user, s.now)
    requires |Sessions(s.rows, user, s.now)| == MAX_ACTIVE_TOKENS_PER_USER - 1
    ensures Leads(Sys(s, map[]), xs, t) && t.base.now == s.now
    ensures |Sessions(t.base.rows, user, s.now)| == MAX_ACTIVE_TOKENS_PER_USER + 1
    ensures NoneExpiresAt(t.base.rows, user, t.base.now)
  {
    var one, s1 := UpToInsertion(Sys(s, map[]), 0, user, Name(first), first);
    var two, s2 := UpToInsertion(s1, 1, user, Name(first + 1), first + 1);
    var three;
    three, t := BothInsert(s2, 0, 1, user, first, first + 1);
    LeadsOn(Sys(s, map[]), one, s1, two, s2);
    LeadsOn(Sys(s, map[]), one + two, s2, three, t);
    xs := (one + two) + three;
  }

  /** A state of whole operations, reached from the start. */
  ghost predicate ReachedAlone(b: State) {
    exists xs :: Leads(Sys(START, map[]), xs, Sys(b, map[]))
  }

  lemma ReachedStep(b: State, a: Action)
    requires ReachedAlone(b) && Enabled(b, a)
    ensures ReachedAlone(Step(b, a))
  {
    var xs :| Leads(Sys(START, map[]), xs, Sys(b, map[]));
    var ys := WholeIsInterleaved(b, a);
    LeadsOn(Sys(START, map[]), xs, Sys(b, map[]), ys, Sys(Step(b, a), map[]));
  }

  lemma FourSessions(p: State -> bool, user: User) returns (s: State)
    requires KeptBySteps(p) && p(START)
    ensures p(s) && Calm(s, 4) && |Sessions(s.rows, user, s.now)| == 4
    ensures NoneExpiresAt(s.rows, user, s.now)
  {
    var s1 := RefreshTokens.FirstLogin(p, user);
    s := MoreLogins(p, s1, user, 1, 3);
  }

  /** The cap is broken in a run from the start, although no row of the user expires at the reading. */
  lemma InterleavedLoginsBreakCap(user: User)
    ensures exists xs, t ::
              && Leads(Sys(START, map[]), xs, t)
              && !Capped(t.base.rows, user, t.base.now) && NoneExpiresAt(t.base.rows, user, t.base.now)
  {
    forall b, a | ReachedAlone(b) && Enabled(b, a)
      ensures ReachedAlone(Step(b, a))
    {
      ReachedStep(b, a);
    }
    assert Leads(Sys(START, map[]), [], Sys(START, map[]));
    var s := FourSessions(b => ReachedAlone(b), user);
    var xs :| Leads(Sys(START, map[]), xs, Sys(s, map[]));
    var ys, t := TwoCountsLeaveSix(s, user, 4);
    LeadsOn(Sys(START, map[]), xs, Sys(s, map[]), ys, t);
  }

  // ---- Every call ends ----

  /** How many statements a call has left at most. */
  function Remaining(call: Call): nat {
    match call
    case Consuming(_) => 6
    case Revoking(_) => 1
    case Expiring(_) => 1
    case Creating(_, _, stage) =>
      match stage
      case ToClean => 5
      case ToCount(_) => 4
      case ToChoose(_, _) => 3
      case ToEvict(_, _) => 2
      case ToInsert(_) => 1
  }

  lemma NextComesCloser(s: Sys, c: nat, newId: TokenId, answer: set<TokenId>)
    requires c in s.calls
    ensures var t := StatementStep(s, Next(c, newId, answer));
            c in t.calls ==> Remaining(t.calls[c]) < Remaining(s.calls[c])
  {
  }

  ghost predicate OfCall(xs: seq<Statement>, c: nat) {
    forall i :: 0 <= i < |xs| ==> xs[i].Next? && xs[i].c == c
  }

  /** A call is over after at most as many of its own statements, whether or not its row is still there, and what the
      queries answer. */
  lemma {:induction false} CallRunsOut(s: Sys, c: nat, xs: seq<Statement>)
    requires c in s.calls && OfCall(xs, c) && |xs| >= Remaining(s.calls[c])
    ensures c !in StatementRun(s, xs).calls
    decreases |xs|
  {
    var t := StatementStep(s, xs[0]);
    NextComesCloser(s, c, xs[0].newId, xs[0].answer);
    if c in t.calls {
      CallRunsOut(t, c, xs[1..]);
    } else {
      NothingLeftToRun(t, c, xs[1..]);
    }
  }

  lemma {:induction false} NothingLeftToRun(s: Sys, c: nat, xs: seq<Statement>)
    requires c !in s.calls && OfCall(xs, c)
    ensures StatementRun(s, xs) == s
    decreases |xs|
  {
    if xs != [] {
      NothingLeftToRun(s, c, xs[1..]);
    }
  }
}
