/** Refresh-token rotation of backend/services/refreshTokenService.js: families, reuse detection and
    the per-user session cap, over every run of its operations. */
module RefreshTokens {
  import opened Wrappers

  const REFRESH_EXPIRY_MS: int := 7 * 86_400_000
  const MAX_ACTIVE_TOKENS_PER_USER: nat := 5

  type TokenId = nat
  datatype User = User(id: int, tenantId: string)

  /** A refresh_tokens row; rows are keyed by the token their hash column identifies. */
  datatype Row = Row(user: User, family: string, used: bool, isActive: bool, expiresAt: int, lastUsedAt: Option<int>)
  type Rows = map<TokenId, Row>

  // ---- The queries and updates, on values ----

  function CleanupExpired(rows: Rows, user: User, now: int): Rows {
    map k | k in rows && !(rows[k].user == user && rows[k].expiresAt < now) :: rows[k]
  }

  function RevokeFamily(rows: Rows, family: string): Rows {
    map k | k in rows :: if rows[k].family == family then rows[k].(isActive := false, used := true) else rows[k]
  }

  function RevokeToken(rows: Rows, id: TokenId): Rows {
    map k | k in rows :: if k == id then rows[k].(isActive := false, used := true) else rows[k]
  }

  function RevokeUser(rows: Rows, user: User): Rows {
    map k | k in rows ::
      if rows[k].user == user && rows[k].isActive then rows[k].(isActive := false, used := true) else rows[k]
  }

  function Deactivate(rows: Rows, ids: set<TokenId>): Rows {
    map k | k in rows :: if k in ids then rows[k].(isActive := false) else rows[k]
  }

  /** The rows the session count sees: active and unexpired. */
  function Sessions(rows: Rows, user: User, now: int): set<TokenId> {
    set k | k in rows && rows[k].user == user && rows[k].isActive && rows[k].expiresAt > now
  }

  /** The rows the eviction query sees: active, whatever their expiry. */
  function Evictable(rows: Rows, user: User): set<TokenId> {
    set k | k in rows && rows[k].user == user && rows[k].isActive
  }

  /** Ascending order of a nullable column: nulls last. */
  predicate SortsBefore(a: Option<int>, b: Option<int>) {
    b.None? || (a.Some? && a.value <= b.value)
  }

  /** `oldest` is an answer of the eviction query: the first `take` evictable rows by lastUsedAt. */
  ghost predicate IsOldest(rows: Rows, user: User, take: nat, oldest: set<TokenId>) {
    && oldest <= Evictable(rows, user)
    && |oldest| == (if take <= |Evictable(rows, user)| then take else |Evictable(rows, user)|)
    && forall o, k :: o in oldest && k in Evictable(rows, user) - oldest ==>
      SortsBefore(rows[o].lastUsedAt, rows[k].lastUsedAt)
  }

  /** What the eviction query may answer inside createRefreshToken. */
  ghost predicate MayEvict(rows: Rows, user: User, now: int, oldest: set<TokenId>) {
    var kept := CleanupExpired(rows, user, now);
    var count := |Sessions(kept, user, now)|;
    count >= MAX_ACTIVE_TOKENS_PER_USER ==> IsOldest(kept, user, count - MAX_ACTIVE_TOKENS_PER_USER + 1, oldest)
  }

  function Create(rows: Rows, user: User, family: string, now: int, id: TokenId, oldest: set<TokenId>): Rows {
    var kept := CleanupExpired(rows, user, now);
    var room := if |Sessions(kept, user, now)| >= MAX_ACTIVE_TOKENS_PER_USER then Deactivate(kept, oldest) else kept;
    room[id := Row(user, family, false, true, now + REFRESH_EXPIRY_MS, None)]
  }

  datatype Outcome = Invalid | NotFound | ReuseDetected | Expired | Rotated

  function OutcomeOf(rows: Rows, jwtValid: bool, id: TokenId, now: int): Outcome {
    if !jwtValid then Invalid
    else if id !in rows then NotFound
    else if rows[id].used || !rows[id].isActive then ReuseDetected
    else if rows[id].expiresAt < now then Expired
    else Rotated
  }

  function Consume(rows: Rows, id: TokenId, now: int): Rows
    requires id in rows
  {
    rows[id := rows[id].(used := true, isActive := false, lastUsedAt := Some(now))]
  }

  /** The second half of a rotation: the row is consumed and a token of its family created. */
  function Replaced(rows: Rows, id: TokenId, now: int, newId: TokenId, oldest: set<TokenId>): Rows
    requires id in rows
  {
    Create(Consume(rows, id, now), rows[id].user, rows[id].family, now, newId, oldest)
  }

  function Rotate(rows: Rows, jwtValid: bool, id: TokenId, now: int, newId: TokenId, oldest: set<TokenId>): Rows {
    match OutcomeOf(rows, jwtValid, id, now)
    case ReuseDetected => RevokeFamily(rows, rows[id].family)
    case Expired => rows[id := rows[id].(isActive := false)]
    case Rotated => Replaced(rows, id, now, newId, oldest)
    case _ => rows
  }

  // ---- The service over its table ----

  class TokenService {
    var rows: Rows

    constructor ()
      ensures rows == map[]
    {
      rows := map[];
    }

    /** `oldest` is what the eviction query answers. */
    method CreateRefreshToken(user: User, family: string, now: int, id: TokenId, oldest: set<TokenId>)
      requires MayEvict(rows, user, now, oldest)
      modifies this
      ensures rows == Create(old(rows), user, family, now, id, oldest)
    {
      rows := CleanupExpired(rows, user, now);
      var activeCount := |Sessions(rows, user, now)|;
      if activeCount >= MAX_ACTIVE_TOKENS_PER_USER {
        rows := Deactivate(rows, oldest);
      }
      rows := rows[id := Row(user, family, false, true, now + REFRESH_EXPIRY_MS, None)];
    }

    /** `jwtValid` is whether signature, type and expiry of the presented token check out. */
    method RotateRefreshToken(jwtValid: bool, id: TokenId, now: int, newId: TokenId, oldest: set<TokenId>)
      returns (r: Outcome)
      requires OutcomeOf(rows, jwtValid, id, now) == Rotated ==>
                 MayEvict(Consume(rows, id, now), rows[id].user, now, oldest)
      modifies this
      ensures r == OutcomeOf(old(rows), jwtValid, id, now)
      ensures rows == Rotate(old(rows), jwtValid, id, now, newId, oldest)
    {
      if !jwtValid {
        return Invalid;
      }
      if id !in rows {
        return NotFound;
      }
      var record := rows[id];
      if record.used || !record.isActive {
        rows := RevokeFamily(rows, record.family);
        return ReuseDetected;
      }
      if record.expiresAt < now {
        rows := rows[id := record.(isActive := false)];
        return Expired;
      }
      rows := rows[id := record.(used := true, isActive := false, lastUsedAt := Some(now))];
      CreateRefreshToken(record.user, record.family, now, newId, oldest);
      return Rotated;
    }

    method RevokeRefreshToken(id: TokenId)
      modifies this
      ensures rows == RevokeToken(old(rows), id)
    {
      if id in rows {
        rows := rows[id := rows[id].(isActive := false, used := true)];
      }
    }

    /** The user is left without an active token, what was active counts as used, and no other row
        changes. */
    method RevokeAllUserTokens(user: User)
      modifies this
      ensures rows == RevokeUser(old(rows), user)
      ensures Evictable(rows, user) == {} && rows.Keys == old(rows.Keys)
      ensures forall k :: k in rows && k in old(Evictable(rows, user)) ==>
                rows[k].used && rows[k].family == old(rows)[k].family
      ensures forall k :: k in rows && k !in old(Evictable(rows, user)) ==> rows[k] == old(rows)[k]
    {
      rows := RevokeUser(rows, user);
    }
  }

  // ---- Runs ----

  /** Besides the rows: every token and family ever issued, the tokens rotated so far in order, and
      the families revoked on reuse. */
  datatype State = State(now: int, rows: Rows, tokens: set<TokenId>, families: set<string>,
                         rotated: seq<TokenId>, revoked: set<string>)

  datatype Action =
    | Login(user: User, family: string, id: TokenId, oldest: set<TokenId>)
    | Refresh(jwtValid: bool, id: TokenId, newId: TokenId, oldest: set<TokenId>)
    | Logout(id: TokenId)
    | LogoutAll(user: User)
    | Advance(dt: nat)

  const START := State(0, map[], {}, {}, [], {})

  /** New tokens and families are fresh, and the database answers its queries correctly. */
  ghost predicate Enabled(s: State, a: Action) {
    match a
    case Login(user, family, id, oldest) =>
      id !in s.tokens && family !in s.families && MayEvict(s.rows, user, s.now, oldest)
    case Refresh(jwtValid, id, newId, oldest) =>
      && newId !in s.tokens
      && (OutcomeOf(s.rows, jwtValid, id, s.now) == Rotated ==>
            MayEvict(Consume(s.rows, id, s.now), s.rows[id].user, s.now, oldest))
    case _ => true
  }

  function Refreshed(s: State, a: Action): State
    requires a.Refresh?
  {
    var rows := Rotate(s.rows, a.jwtValid, a.id, s.now, a.newId, a.oldest);
    match OutcomeOf(s.rows, a.jwtValid, a.id, s.now)
    case ReuseDetected => s.(rows := rows, revoked := s.revoked + {s.rows[a.id].family})
    case Rotated => s.(rows := rows, tokens := s.tokens + {a.newId}, rotated := s.rotated + [a.id])
    case _ => s.(rows := rows)
  }

  /** One operation with one clock reading. */
  function Step(s: State, a: Action): State {
    match a
    case Login(user, family, id, oldest) =>
      s.(rows := Create(s.rows, user, family, s.now, id, oldest), tokens := s.tokens + {id},
         families := s.families + {family})
    case Refresh(_, _, _, _) => Refreshed(s, a)
    case Logout(id) => s.(rows := RevokeToken(s.rows, id))
    case LogoutAll(user) => s.(rows := RevokeUser(s.rows, user))
    case Advance(dt) => s.(now := s.now + dt)
  }

  function Run(s: State, actions: seq<Action>): State
    decreases |actions|
  {
    if actions == [] then s else Run(Step(s, actions[0]), actions[1..])
  }

  ghost predicate EnabledRun(s: State, actions: seq<Action>)
    decreases |actions|
  {
    actions == [] || (Enabled(s, actions[0]) && EnabledRun(Step(s, actions[0]), actions[1..]))
  }

  ghost predicate NoRepeats(ids: seq<TokenId>) {
    forall i, j :: 0 <= i < j < |ids| ==> ids[i] != ids[j]
  }

  /** What one row satisfies: used implies inactive, an active row was never used, and its family is
      not a revoked one. */
  ghost predicate RowOk(r: Row, families: set<string>, revoked: set<string>) {
    && (r.used ==> !r.isActive)
    && r.family in families
    && (r.isActive ==> r.lastUsedAt.None? && r.family !in revoked)
  }

  ghost predicate OneActivePerFamily(rows: Rows) {
    forall j, k :: j in rows && k in rows && rows[j].isActive && rows[k].isActive ==>
      rows[j].family == rows[k].family ==> j == k
  }

  ghost predicate RowsOk(rows: Rows, families: set<string>, revoked: set<string>) {
    && (forall k :: k in rows ==> RowOk(rows[k], families, revoked))
    && OneActivePerFamily(rows)
  }

  /** No token was rotated twice, and a rotated token's row, while stored, is used. */
  ghost predicate RotatedOk(rows: Rows, tokens: set<TokenId>, rotated: seq<TokenId>) {
    && NoRepeats(rotated)
    && forall i :: 0 <= i < |rotated| ==> rotated[i] in tokens && (rotated[i] in rows ==> rows[rotated[i]].used)
  }

  ghost predicate Inv(s: State) {
    && s.rows.Keys <= s.tokens
    && s.revoked <= s.families
    && RowsOk(s.rows, s.families, s.revoked)
    && RotatedOk(s.rows, s.tokens, s.rotated)
  }

  /** `after` is `rows` with some rows deleted or deactivated, and one row added. */
  ghost predicate AddsOne(rows: Rows, after: Rows, id: TokenId, row: Row) {
    && id in after && after[id] == row
    && forall k :: k in after && k != id ==>
         && k in rows && after[k] == rows[k].(isActive := after[k].isActive)
         && (after[k].isActive ==> rows[k].isActive)
  }

  lemma CreateAddsOne(rows: Rows, user: User, family: string, now: int, id: TokenId, oldest: set<TokenId>)
    requires id !in rows
    ensures AddsOne(rows, Create(rows, user, family, now, id, oldest), id,
                    Row(user, family, false, true, now + REFRESH_EXPIRY_MS, None))
  {
  }

  ghost predicate NoActive(rows: Rows, family: string) {
    forall k :: k in rows && rows[k].family == family ==> !rows[k].isActive
  }

  lemma AddedRowsOk(rows: Rows, after: Rows, id: TokenId, row: Row, families: set<string>, revoked: set<string>)
    requires RowsOk(rows, families, revoked) && NoActive(rows, row.family) && AddsOne(rows, after, id, row)
    requires RowOk(row, families, revoked)
    ensures RowsOk(after, families, revoked)
  {
    forall j, k | j in after && k in after && after[j].isActive && after[k].isActive
      && after[j].family == after[k].family
      ensures j == k
    {
    }
  }

  lemma LoginKeepsInv(s: State, a: Action)
    requires Inv(s) && a.Login? && Enabled(s, a)
    ensures Inv(Step(s, a))
  {
    var row := Row(a.user, a.family, false, true, s.now + REFRESH_EXPIRY_MS, None);
    CreateAddsOne(s.rows, a.user, a.family, s.now, a.id, a.oldest);
    assert RowsOk(s.rows, s.families + {a.family}, s.revoked);
    AddedRowsOk(s.rows, Step(s, a).rows, a.id, row, s.families + {a.family}, s.revoked);
  }

  lemma ConsumedRowsOk(rows: Rows, id: TokenId, now: int, families: set<string>, revoked: set<string>)
    requires RowsOk(rows, families, revoked) && id in rows && rows[id].isActive
    ensures RowsOk(Consume(rows, id, now), families, revoked)
    ensures NoActive(Consume(rows, id, now), rows[id].family)
  {
  }

  /** Replacing a row that is still active leaves one active row in the family, the new one. */
  lemma ReplacingKeepsRows(rows: Rows, id: TokenId, now: int, newId: TokenId, oldest: set<TokenId>,
                           families: set<string>, revoked: set<string>)
    requires RowsOk(rows, families, revoked) && id in rows && rows[id].isActive && newId !in rows
    ensures RowsOk(Replaced(rows, id, now, newId, oldest), families, revoked)
  {
    var consumed, user, family := Consume(rows, id, now), rows[id].user, rows[id].family;
    var row := Row(user, family, false, true, now + REFRESH_EXPIRY_MS, None);
    ConsumedRowsOk(rows, id, now, families, revoked);
    CreateAddsOne(consumed, user, family, now, newId, oldest);
    AddedRowsOk(consumed, Replaced(rows, id, now, newId, oldest), newId, row, families, revoked);
  }

  ghost predicate UsedStays(rows: Rows, after: Rows, id: TokenId, newId: TokenId) {
    && after.Keys <= rows.Keys + {newId}
    && forall k :: k in after && k in rows && (k == id || rows[k].used) ==> after[k].used
  }

  lemma ReplacingKeepsUsed(rows: Rows, id: TokenId, now: int, newId: TokenId, oldest: set<TokenId>)
    requires id in rows && newId !in rows
    ensures UsedStays(rows, Replaced(rows, id, now, newId, oldest), id, newId)
  {
    var consumed := Consume(rows, id, now);
    CreateAddsOne(consumed, rows[id].user, rows[id].family, now, newId, oldest);
  }

  lemma RotatedGrows(rows: Rows, after: Rows, tokens: set<TokenId>, rotated: seq<TokenId>, id: TokenId, newId: TokenId)
    requires RotatedOk(rows, tokens, rotated) && UsedStays(rows, after, id, newId)
    requires id in tokens && id in rows && id !in rotated && newId !in tokens
    ensures RotatedOk(after, tokens + {newId}, rotated + [id])
  {
  }

  lemma RotationKeepsInv(s: State, id: TokenId, newId: TokenId, oldest: set<TokenId>)
    requires Inv(s) && id in s.rows && s.rows[id].isActive && newId !in s.tokens
    ensures Inv(s.(rows := Replaced(s.rows, id, s.now, newId, oldest), tokens := s.tokens + {newId},
                   rotated := s.rotated + [id]))
  {
    var after := Replaced(s.rows, id, s.now, newId, oldest);
    ReplacingKeepsRows(s.rows, id, s.now, newId, oldest, s.families, s.revoked);
    ReplacingKeepsUsed(s.rows, id, s.now, newId, oldest);
    RotatedGrows(s.rows, after, s.tokens, s.rotated, id, newId);
  }

  lemma StepKeepsInv(s: State, a: Action)
    requires Inv(s) && Enabled(s, a)
    ensures Inv(Step(s, a))
  {
    if a.Login? {
      LoginKeepsInv(s, a);
    } else if a.Refresh? && OutcomeOf(s.rows, a.jwtValid, a.id, s.now) == Rotated {
      RotationKeepsInv(s, a.id, a.newId, a.oldest);
    }
  }

  /** In every run: used implies inactive, a family has at most one active token, no token is rotated
      twice, and a family revoked on reuse has no active token. */
  lemma {:induction false} RunKeepsInv(s: State, actions: seq<Action>)
    requires Inv(s) && EnabledRun(s, actions)
    ensures Inv(Run(s, actions))
    ensures s.revoked <= Run(s, actions).revoked
    decreases |actions|
  {
    if actions != [] {
      StepKeepsInv(s, actions[0]);
      RunKeepsInv(Step(s, actions[0]), actions[1..]);
    }
  }

  /** Presenting a token that was rotated before, while its row is stored, kills its whole family: no
      continuation ever holds an active token of that family again. */
  lemma ReuseKillsFamilyForGood(s: State, a: Action, later: seq<Action>)
    requires Inv(s) && a.Refresh? && a.jwtValid && a.id in s.rotated && a.id in s.rows
    requires Enabled(s, a) && EnabledRun(Step(s, a), later)
    ensures OutcomeOf(s.rows, a.jwtValid, a.id, s.now) == ReuseDetected
    ensures var rows := Run(Step(s, a), later).rows;
            forall k :: k in rows && rows[k].family == s.rows[a.id].family ==> !rows[k].isActive
  {
    StepKeepsInv(s, a);
    RunKeepsInv(Step(s, a), later);
    var rows := Run(Step(s, a), later).rows;
    forall k | k in rows && rows[k].family == s.rows[a.id].family
      ensures !rows[k].isActive
    {
      assert RowOk(rows[k], Run(Step(s, a), later).families, Run(Step(s, a), later).revoked);
    }
  }

  // ---- What each operation spares ----

  /** A detected reuse changes the rows of the presented token's family and no other row. */
  lemma ReuseRevokesItsFamily(rows: Rows, jwtValid: bool, id: TokenId, now: int, newId: TokenId, oldest: set<TokenId>)
    requires OutcomeOf(rows, jwtValid, id, now) == ReuseDetected
    ensures var after := Rotate(rows, jwtValid, id, now, newId, oldest);
            && after.Keys == rows.Keys
            && (forall k :: k in rows && rows[k].family == rows[id].family ==>
                  after[k] == rows[k].(used := true, isActive := false))
            && (forall k :: k in rows && rows[k].family != rows[id].family ==> after[k] == rows[k])
  {
  }

  /** A logout ends the presented token and touches no other. */
  lemma LogoutEndsOneToken(rows: Rows, id: TokenId)
    ensures var after := RevokeToken(rows, id);
            && after.Keys == rows.Keys
            && (id in rows ==> after[id] == rows[id].(used := true, isActive := false))
            && (forall k :: k in rows && k != id ==> after[k] == rows[k])
  {
  }

  /** Logging a user out ends every active token of that user, which then count as used, and no other row. */
  lemma LogoutAllEndsUser(rows: Rows, user: User)
    ensures var after := RevokeUser(rows, user);
            && after.Keys == rows.Keys
            && (forall k :: k in Evictable(rows, user) ==> after[k] == rows[k].(used := true, isActive := false))
            && (forall k :: k in rows && k !in Evictable(rows, user) ==> after[k] == rows[k])
  {
  }

  /** A rotation replaces the presented token by one of the same user and family that lives seven
      days; the presented row stays, used. */
  lemma RotationReplaces(rows: Rows, jwtValid: bool, id: TokenId, now: int, newId: TokenId, oldest: set<TokenId>)
    requires OutcomeOf(rows, jwtValid, id, now) == Rotated && newId !in rows
    requires MayEvict(Consume(rows, id, now), rows[id].user, now, oldest)
    ensures var after := Rotate(rows, jwtValid, id, now, newId, oldest);
            && newId in after && after[newId] == Row(rows[id].user, rows[id].family, false, true,
                                                     now + 7 * 24 * 60 * 60 * 1000, None)
            && id in after && after[id] == rows[id].(used := true, isActive := false, lastUsedAt := Some(now))
            && (forall k :: k in rows && rows[k].user != rows[id].user ==> k in after && after[k] == rows[k])
  {
  }

  /** The user already has five live sessions, not counting the token in `gone`. */
  predicate Full(rows: Rows, user: User, now: int, gone: set<TokenId>) {
    |Sessions(rows, user, now) - gone| >= 5
  }

  /** A new token of the user deletes the user's expired rows and, at the cap, evicts `oldest`. */
  predicate MakesWay(rows: Rows, user: User, now: int, gone: set<TokenId>, oldest: set<TokenId>, k: TokenId)
    requires k in rows
  {
    rows[k].user == user && (rows[k].expiresAt < now || (k in oldest && Full(rows, user, now, gone)))
  }

  /** The operation takes an active token k out of use. */
  predicate Ends(s: State, a: Action, k: TokenId)
    requires k in s.rows
  {
    match a
    case Login(user, _, _, oldest) => MakesWay(s.rows, user, s.now, {}, oldest, k)
    case Refresh(jwtValid, id, _, oldest) =>
      jwtValid && id in s.rows && (
        if s.rows[id].used || !s.rows[id].isActive then s.rows[id].family == s.rows[k].family
        else if s.rows[id].expiresAt < s.now then id == k
        else id == k || MakesWay(s.rows, s.rows[id].user, s.now, {id}, oldest, k))
    case Logout(id) => id == k
    case LogoutAll(user) => s.rows[k].user == user
    case Advance(_) => false
  }

  predicate Live(s: State, k: TokenId) {
    k in s.rows && s.rows[k].isActive
  }

  lemma CreateEnds(rows: Rows, user: User, family: string, now: int, id: TokenId, oldest: set<TokenId>, k: TokenId)
    requires k in rows && rows[k].isActive && k != id && MayEvict(rows, user, now, oldest)
    ensures var after := Create(rows, user, family, now, id, oldest);
            if MakesWay(rows, user, now, {}, oldest, k) then !(k in after && after[k].isActive)
            else k in after && after[k] == rows[k]
  {
    CleanupKeepsSessions(rows, user, now);
    assert Sessions(rows, user, now) - {} == Sessions(rows, user, now);
  }

  lemma ConsumedSessions(rows: Rows, id: TokenId, user: User, now: int)
    requires id in rows
    ensures Sessions(Consume(rows, id, now), user, now) == Sessions(rows, user, now) - {id}
  {
  }

  lemma RotationEnds(s: State, a: Action, k: TokenId)
    requires Live(s, k) && a.Refresh? && Enabled(s, a) && a.newId != k
    requires OutcomeOf(s.rows, a.jwtValid, a.id, s.now) == Rotated
    ensures if Ends(s, a, k) then !Live(Step(s, a), k) else Live(Step(s, a), k) && Step(s, a).rows[k] == s.rows[k]
  {
    var consumed, user, family := Consume(s.rows, a.id, s.now), s.rows[a.id].user, s.rows[a.id].family;
    ConsumedSessions(s.rows, a.id, user, s.now);
    if k == a.id {
      CreateKeepsInactive(consumed, user, family, s.now, a.newId, a.oldest, k);
    } else {
      CreateEnds(consumed, user, family, s.now, a.newId, a.oldest, k);
      assert Sessions(consumed, user, s.now) - {} == Sessions(s.rows, user, s.now) - {a.id};
    }
  }

  lemma CreateKeepsInactive(rows: Rows, user: User, family: string, now: int, id: TokenId, oldest: set<TokenId>,
                            k: TokenId)
    requires k != id && !(k in rows && rows[k].isActive)
    ensures var after := Create(rows, user, family, now, id, oldest); !(k in after && after[k].isActive)
  {
  }

  lemma StepEndsExactly(s: State, a: Action, k: TokenId)
    requires Inv(s) && Enabled(s, a) && Live(s, k)
    ensures if Ends(s, a, k) then !Live(Step(s, a), k) else Live(Step(s, a), k) && Step(s, a).rows[k] == s.rows[k]
  {
    assert k in s.tokens;
    if a.Login? {
      CreateEnds(s.rows, a.user, a.family, s.now, a.id, a.oldest, k);
    } else if a.Refresh? && OutcomeOf(s.rows, a.jwtValid, a.id, s.now) == Rotated {
      RotationEnds(s, a, k);
    }
  }

  lemma StepRevivesNothing(s: State, a: Action, k: TokenId)
    requires Inv(s) && Enabled(s, a) && k in s.tokens && !Live(s, k)
    ensures !Live(Step(s, a), k) && k in Step(s, a).tokens
  {
    if a.Login? {
      CreateKeepsInactive(s.rows, a.user, a.family, s.now, a.id, a.oldest, k);
    } else if a.Refresh? && OutcomeOf(s.rows, a.jwtValid, a.id, s.now) == Rotated {
      CreateKeepsInactive(Consume(s.rows, a.id, s.now), s.rows[a.id].user, s.rows[a.id].family, s.now, a.newId,
                          a.oldest, k);
    }
  }

  lemma {:induction false} RunRevivesNothing(s: State, actions: seq<Action>, k: TokenId)
    requires Inv(s) && EnabledRun(s, actions) && k in s.tokens && !Live(s, k)
    ensures !Live(Run(s, actions), k)
    decreases |actions|
  {
    if actions != [] {
      StepKeepsInv(s, actions[0]);
      StepRevivesNothing(s, actions[0], k);
      RunRevivesNothing(Step(s, actions[0]), actions[1..], k);
    }
  }

  /** Some operation of the run takes token k out of use. */
  ghost predicate EndedIn(s: State, actions: seq<Action>, k: TokenId)
    decreases |actions|
  {
    k in s.rows && actions != [] && (Ends(s, actions[0], k) || EndedIn(Step(s, actions[0]), actions[1..], k))
  }

  /** After any run an active token is still active, its row as it was, if and only if no operation
      rotated it or presented it expired, logged it or its user out, presented a used token of its
      family, or, making room for another token of its user, evicted it or found it expired. */
  lemma {:induction false} TokenLivesIff(s: State, actions: seq<Action>, k: TokenId)
    requires Inv(s) && EnabledRun(s, actions) && Live(s, k)
    ensures Live(Run(s, actions), k) <==> !EndedIn(s, actions, k)
    ensures Live(Run(s, actions), k) ==> Run(s, actions).rows[k] == s.rows[k]
    decreases |actions|
  {
    if actions != [] {
      StepKeepsInv(s, actions[0]);
      StepEndsExactly(s, actions[0], k);
      assert k in s.tokens && k in Step(s, actions[0]).tokens;
      if Ends(s, actions[0], k) {
        RunRevivesNothing(Step(s, actions[0]), actions[1..], k);
      } else {
        TokenLivesIff(Step(s, actions[0]), actions[1..], k);
      }
    }
  }

  /** So presenting it then gives a new token if and only if that has not happened and its seven days
      are not over. */
  lemma RefreshSucceedsIff(s: State, actions: seq<Action>, k: TokenId)
    requires Inv(s) && EnabledRun(s, actions) && Live(s, k)
    ensures OutcomeOf(Run(s, actions).rows, true, k, Run(s, actions).now) == Rotated
       <==> !EndedIn(s, actions, k) && Run(s, actions).now <= s.rows[k].expiresAt
  {
    TokenLivesIff(s, actions, k);
    RunKeepsInv(s, actions);
  }

  lemma {:induction false} RotatedOnlyGrows(s: State, actions: seq<Action>)
    ensures s.rotated <= Run(s, actions).rotated
    decreases |actions|
  {
    if actions != [] {
      RotatedOnlyGrows(Step(s, actions[0]), actions[1..]);
    }
  }

  /** A token that was rotated once is a detected reuse ever after, for as long as its row is stored. */
  lemma RotatedTokenIsDetected(s: State, a: Action, actions: seq<Action>)
    requires Inv(s) && a.Refresh? && Enabled(s, a) && OutcomeOf(s.rows, a.jwtValid, a.id, s.now) == Rotated
    requires EnabledRun(Step(s, a), actions) && a.id in Run(Step(s, a), actions).rows
    ensures OutcomeOf(Run(Step(s, a), actions).rows, true, a.id, Run(Step(s, a), actions).now) == ReuseDetected
  {
    var s1 := Step(s, a);
    StepKeepsInv(s, a);
    RunKeepsInv(s1, actions);
    RotatedOnlyGrows(s1, actions);
    assert s1.rotated[|s.rotated|] == a.id;
    assert Run(s1, actions).rotated[|s.rotated|] == a.id;
  }

  // ---- The session cap ----

  ghost predicate Capped(rows: Rows, user: User, now: int) {
    |Sessions(rows, user, now)| <= MAX_ACTIVE_TOKENS_PER_USER
  }

  /** No active row of the user expires exactly at this clock reading. */
  ghost predicate NoneExpiresAt(rows: Rows, user: User, now: int) {
    forall k :: k in rows && rows[k].user == user && rows[k].isActive ==> rows[k].expiresAt != now
  }

  lemma SubsetSize<T>(a: set<T>, b: set<T>)
    requires a <= b
    ensures |a| <= |b|
  {
    assert b == a + (b - a);
  }

  lemma CreatedSessions(rows: Rows, user: User, family: string, now: int, id: TokenId, oldest: set<TokenId>)
    requires id !in rows
    ensures Sessions(Create(rows, user, family, now, id, oldest), user, now)
         == (if |Sessions(rows, user, now)| >= MAX_ACTIVE_TOKENS_PER_USER then Sessions(rows, user, now) - oldest
             else Sessions(rows, user, now)) + {id}
    ensures Sessions(CleanupExpired(rows, user, now), user, now) == Sessions(rows, user, now)
  {
    CleanupKeepsSessions(rows, user, now);
  }

  lemma CleanupKeepsSessions(rows: Rows, user: User, now: int)
    ensures Sessions(CleanupExpired(rows, user, now), user, now) == Sessions(rows, user, now)
  {
  }

  lemma CreateKeepsCap(rows: Rows, user: User, family: string, now: int, id: TokenId, oldest: set<TokenId>)
    requires id !in rows && Capped(rows, user, now) && MayEvict(rows, user, now, oldest)
    requires NoneExpiresAt(rows, user, now)
    ensures Capped(Create(rows, user, family, now, id, oldest), user, now)
  {
    CreatedSessions(rows, user, family, now, id, oldest);
    var sessions := Sessions(rows, user, now);
    if |sessions| >= MAX_ACTIVE_TOKENS_PER_USER {
      var kept := CleanupExpired(rows, user, now);
      assert Evictable(kept, user) == sessions;
      assert |sessions - oldest| == |sessions| - |oldest|;
    }
  }

  /** With every active row still unused, creation keeps the cap whatever the eviction query answers
      exactly when the user has room left or no active row expires at this very reading. */
  lemma CapHoldsIffNoneExpiresNow(rows: Rows, user: User, family: string, now: int, id: TokenId)
    requires id !in rows && Capped(rows, user, now)
    requires forall k :: k in rows && rows[k].isActive ==> rows[k].lastUsedAt.None?
    ensures (forall oldest :: MayEvict(rows, user, now, oldest) ==>
              Capped(Create(rows, user, family, now, id, oldest), user, now))
       <==> (|Sessions(rows, user, now)| < MAX_ACTIVE_TOKENS_PER_USER || NoneExpiresAt(rows, user, now))
  {
    var sessions := Sessions(rows, user, now);
    if |sessions| < MAX_ACTIVE_TOKENS_PER_USER || NoneExpiresAt(rows, user, now) {
      forall oldest | MayEvict(rows, user, now, oldest)
        ensures Capped(Create(rows, user, family, now, id, oldest), user, now)
      {
        CreatedSessions(rows, user, family, now, id, oldest);
        if NoneExpiresAt(rows, user, now) {
          CreateKeepsCap(rows, user, family, now, id, oldest);
        }
      }
    } else {
      var x :| x in rows && rows[x].user == user && rows[x].isActive && rows[x].expiresAt == now;
      EvictingExpiringRowBreaksCap(rows, user, family, now, id, x);
    }
  }

  lemma EvictingExpiringRowBreaksCap(rows: Rows, user: User, family: string, now: int, id: TokenId, x: TokenId)
    requires id !in rows && |Sessions(rows, user, now)| == MAX_ACTIVE_TOKENS_PER_USER
    requires forall k :: k in rows && rows[k].isActive ==> rows[k].lastUsedAt.None?
    requires x in rows && rows[x].user == user && rows[x].isActive && rows[x].expiresAt == now
    ensures MayEvict(rows, user, now, {x}) && !Capped(Create(rows, user, family, now, id, {x}), user, now)
  {
    CreatedSessions(rows, user, family, now, id, {x});
    SubsetSize({x}, Evictable(CleanupExpired(rows, user, now), user));
    assert Sessions(rows, user, now) - {x} == Sessions(rows, user, now);
  }

  /** The operation about to run meets no row of its user that expires at its clock reading. */
  ghost predicate NoExactExpiry(s: State, a: Action) {
    && (a.Login? ==> NoneExpiresAt(s.rows, a.user, s.now))
    && (a.Refresh? && OutcomeOf(s.rows, a.jwtValid, a.id, s.now) == Rotated ==>
          NoneExpiresAt(Consume(s.rows, a.id, s.now), s.rows[a.id].user, s.now))
  }

  ghost predicate NoExactExpiryRun(s: State, actions: seq<Action>)
    decreases |actions|
  {
    actions == [] || (NoExactExpiry(s, actions[0]) && NoExactExpiryRun(Step(s, actions[0]), actions[1..]))
  }

  lemma OtherUsersSessions(rows: Rows, user: User, family: string, now: int, id: TokenId, oldest: set<TokenId>, u: User)
    requires id !in rows && u != user
    ensures Sessions(Create(rows, user, family, now, id, oldest), u, now) <= Sessions(rows, u, now)
  {
  }

  lemma StepKeepsCap(s: State, a: Action, u: User)
    requires Inv(s) && Enabled(s, a) && NoExactExpiry(s, a) && Capped(s.rows, u, s.now)
    ensures Capped(Step(s, a).rows, u, Step(s, a).now)
  {
    var before, after := Sessions(s.rows, u, s.now), Sessions(Step(s, a).rows, u, Step(s, a).now);
    if a.Login? {
      if a.user == u {
        CreateKeepsCap(s.rows, u, a.family, s.now, a.id, a.oldest);
      } else {
        OtherUsersSessions(s.rows, a.user, a.family, s.now, a.id, a.oldest, u);
        SubsetSize(after, before);
      }
    } else if a.Refresh? && OutcomeOf(s.rows, a.jwtValid, a.id, s.now) == Rotated {
      var consumed, owner := Consume(s.rows, a.id, s.now), s.rows[a.id].user;
      SubsetSize(Sessions(consumed, u, s.now), before);
      if owner == u {
        CreateKeepsCap(consumed, u, s.rows[a.id].family, s.now, a.newId, a.oldest);
      } else {
        OtherUsersSessions(consumed, owner, s.rows[a.id].family, s.now, a.newId, a.oldest, u);
        SubsetSize(after, before);
      }
    } else {
      SubsetSize(after, before);
    }
  }

  /** In every run in which no record expires exactly at a call's clock reading, every user has at
      most five active unexpired tokens at every moment. */
  lemma {:induction false} RunKeepsCap(s: State, actions: seq<Action>, u: User)
    requires Inv(s) && EnabledRun(s, actions) && NoExactExpiryRun(s, actions) && Capped(s.rows, u, s.now)
    ensures Capped(Run(s, actions).rows, u, Run(s, actions).now)
    decreases |actions|
  {
    if actions != [] {
      StepKeepsInv(s, actions[0]);
      StepKeepsCap(s, actions[0], u);
      RunKeepsCap(Step(s, actions[0]), actions[1..], u);
    }
  }

  // ---- A run that breaks the cap ----

  ghost predicate Reachable(s: State) {
    exists actions :: EnabledRun(START, actions) && Run(START, actions) == s
  }

  lemma {:induction false} RunAppend(s: State, actions: seq<Action>, a: Action)
    ensures Run(s, actions + [a]) == Step(Run(s, actions), a)
    ensures EnabledRun(s, actions + [a]) <==> EnabledRun(s, actions) && Enabled(Run(s, actions), a)
    decreases |actions|
  {
    if actions == [] {
      assert actions + [a] == [a];
      assert Run(Step(s, a), [a][1..]) == Step(s, a);
    } else {
      assert (actions + [a])[0] == actions[0] && (actions + [a])[1..] == actions[1..] + [a];
      RunAppend(Step(s, actions[0]), actions[1..], a);
    }
  }

  lemma ReachStep(s: State, a: Action)
    requires Reachable(s) && Enabled(s, a)
    ensures Reachable(Step(s, a))
  {
    var actions :| EnabledRun(START, actions) && Run(START, actions) == s;
    RunAppend(START, actions, a);
  }

  /** A property of states that every enabled step keeps. */
  ghost predicate KeptBySteps(p: State -> bool) {
    forall s, a :: p(s) && Enabled(s, a) ==> p(Step(s, a))
  }

  /** A family name no other length has. */
  function Name(k: nat): string {
    seq(k, _ => 'f')
  }

  /** The next fresh token is `first`, no stored row has expired, and no token was ever rotated. */
  ghost predicate Calm(s: State, first: nat) {
    && s.rows.Keys <= s.tokens
    && (forall k :: k in s.tokens ==> k < first)
    && (forall f :: f in s.families ==> |f| < first)
    && (forall k :: k in s.rows ==> s.rows[k].expiresAt >= s.now && s.rows[k].lastUsedAt.None?)
  }

  lemma PlainCreate(rows: Rows, user: User, family: string, now: int, id: TokenId)
    requires forall k :: k in rows ==> rows[k].expiresAt >= now
    requires |Sessions(rows, user, now)| < MAX_ACTIVE_TOKENS_PER_USER
    ensures Create(rows, user, family, now, id, {})
         == rows[id := Row(user, family, false, true, now + REFRESH_EXPIRY_MS, None)]
    ensures MayEvict(rows, user, now, {})
  {
    assert CleanupExpired(rows, user, now) == rows;
  }

  lemma LoginAdds(p: State -> bool, s: State, user: User, first: nat) returns (s1: State)
    requires KeptBySteps(p) && p(s) && Calm(s, first) && |Sessions(s.rows, user, s.now)| < MAX_ACTIVE_TOKENS_PER_USER
    ensures p(s1) && s1.now == s.now && Calm(s1, first + 1)
    ensures s1.rows == s.rows[first := Row(user, Name(first), false, true, s.now + REFRESH_EXPIRY_MS, None)]
    ensures |Sessions(s1.rows, user, s1.now)| == |Sessions(s.rows, user, s.now)| + 1
  {
    PlainCreate(s.rows, user, Name(first), s.now, first);
    s1 := Step(s, Login(user, Name(first), first, {}));
    CreatedSessions(s.rows, user, Name(first), s.now, first, {});
  }

  lemma WaitUntil(p: State -> bool, s: State, now: int, first: nat) returns (s1: State)
    requires KeptBySteps(p) && p(s) && Calm(s, first) && s.now <= now
    requires forall k :: k in s.rows ==> s.rows[k].expiresAt >= now
    ensures p(s1) && s1 == s.(now := now) && Calm(s1, first)
  {
    assert Enabled(s, Advance(now - s.now));
    s1 := Step(s, Advance(now - s.now));
  }

  /** Token 0 expires at `early`, every other row a millisecond later. */
  ghost predicate OneExpiresFirst(rows: Rows, user: User, early: int) {
    && 0 in rows && rows[0].user == user && rows[0].isActive && rows[0].expiresAt == early
    && forall k :: k in rows && k != 0 ==> rows[k].expiresAt == early + 1
  }

  lemma FirstLogin(p: State -> bool, user: User) returns (s: State)
    requires KeptBySteps(p) && p(START)
    ensures p(s) && Calm(s, 1) && s.now == 1 && OneExpiresFirst(s.rows, user, REFRESH_EXPIRY_MS)
    ensures |Sessions(s.rows, user, 1)| == 1
  {
    assert Sessions(START.rows, user, 0) == {};
    var s1 := LoginAdds(p, START, user, 0);
    assert Sessions(s1.rows, user, 1) == {0};
    s := WaitUntil(p, s1, 1, 1);
  }

  lemma {:induction false} MoreLogins(p: State -> bool, s: State, user: User, first: nat, more: nat) returns (s': State)
    requires KeptBySteps(p) && p(s) && Calm(s, first) && first > 0 && s.now == 1
    requires OneExpiresFirst(s.rows, user, REFRESH_EXPIRY_MS)
    requires |Sessions(s.rows, user, 1)| + more <= MAX_ACTIVE_TOKENS_PER_USER
    ensures p(s') && Calm(s', first + more) && s'.now == 1 && OneExpiresFirst(s'.rows, user, REFRESH_EXPIRY_MS)
    ensures |Sessions(s'.rows, user, 1)| == |Sessions(s.rows, user, 1)| + more
    decreases more
  {
    if more == 0 {
      s' := s;
    } else {
      var s1 := LoginAdds(p, s, user, first);
      s' := MoreLogins(p, s1, user, first + 1, more - 1);
    }
  }

  lemma FirstStopsCounting(rows: Rows, user: User, early: int)
    requires OneExpiresFirst(rows, user, early) && early > 1
    ensures |Sessions(rows, user, early)| == |Sessions(rows, user, 1)| - 1
  {
    assert Sessions(rows, user, early) == Sessions(rows, user, 1) - {0};
  }

  /** A runs at reading 0, four more tokens at reading 1; at A's expiry reading A is no session any
      more but not yet deleted, so one more login fits. */
  lemma FiveSessions(p: State -> bool, user: User) returns (s: State)
    requires KeptBySteps(p) && p(START)
    ensures p(s) && Calm(s, 6) && s.now == REFRESH_EXPIRY_MS
    ensures 0 in s.rows && s.rows[0].user == user && s.rows[0].isActive && s.rows[0].expiresAt == s.now
    ensures |Sessions(s.rows, user, s.now)| == MAX_ACTIVE_TOKENS_PER_USER
  {
    var s1 := FirstLogin(p, user);
    var s2 := MoreLogins(p, s1, user, 1, 4);
    FirstStopsCounting(s2.rows, user, REFRESH_EXPIRY_MS);
    var s3 := WaitUntil(p, s2, REFRESH_EXPIRY_MS, 5);
    s := LoginAdds(p, s3, user, 5);
  }

  lemma SixthSession(p: State -> bool, s: State, user: User) returns (s1: State)
    requires KeptBySteps(p) && p(s) && Calm(s, 6)
    requires 0 in s.rows && s.rows[0].user == user && s.rows[0].isActive && s.rows[0].expiresAt == s.now
    requires |Sessions(s.rows, user, s.now)| == MAX_ACTIVE_TOKENS_PER_USER
    ensures p(s1) && !Capped(s1.rows, user, s1.now)
  {
    EvictingExpiringRowBreaksCap(s.rows, user, Name(6), s.now, 6, 0);
    var a := Login(user, Name(6), 6, {0});
    assert Enabled(s, a);
    s1 := Step(s, a);
  }

  /** The cap is broken in a run from the start: of two logins at the expiry reading of a token, the
      second evicts that token and not a session. */
  lemma CapIsBroken(user: User)
    ensures exists s :: Reachable(s) && !Capped(s.rows, user, s.now)
  {
    forall s, a | Reachable(s) && Enabled(s, a)
      ensures Reachable(Step(s, a))
    {
      ReachStep(s, a);
    }
    assert Run(START, []) == START && EnabledRun(START, []);
    var s := FiveSessions(x => Reachable(x), user);
    var s1 := SixthSession(x => Reachable(x), s, user);
  }

  // ---- Which session the cap evicts ----

  /** The eviction query's order: some rows may be evicted if and only if no kept row was used before one of them, and
      one that was never used is among them only when every kept row was never used either. */
  lemma EvictsByLastUse(rows: Rows, user: User, oldest: set<TokenId>)
    requires oldest <= Evictable(rows, user)
    ensures IsOldest(rows, user, |oldest|, oldest) <==>
              forall o, k :: o in oldest && k in Evictable(rows, user) && k !in oldest ==>
                rows[k].lastUsedAt.Some? ==>
                  rows[o].lastUsedAt.Some? && rows[o].lastUsedAt.value <= rows[k].lastUsedAt.value
  {
    SubsetSize(oldest, Evictable(rows, user));
    var rest := Evictable(rows, user) - oldest;
    assert forall k :: k in rest <==> k in Evictable(rows, user) && k !in oldest;
  }

  /** But only consumed rows have a time of last use and no consumed row is active: the order decides nothing. */
  lemma EvictionOrderIsVacuous(s: State, user: User, take: nat, chosen: set<TokenId>)
    requires Inv(s)
    ensures IsOldest(s.rows, user, take, chosen)
       <==> chosen <= Evictable(s.rows, user) &&
            |chosen| == (if take <= |Evictable(s.rows, user)| then take else |Evictable(s.rows, user)|)
  {
  }

  lemma {:induction false} SubsetWith<T>(all: set<T>, k: T, n: nat) returns (some: set<T>)
    requires k in all && 1 <= n <= |all|
    ensures k in some && some <= all && |some| == n
    decreases |all|
  {
    if n == |all| {
      some := all;
    } else {
      assert |all - {k}| == |all| - 1;
      var x :| x in all - {k};
      some := SubsetWith(all - {x}, k, n);
    }
  }

  /** So at the cap any active token of the user may be the one that is evicted, the newest too. */
  lemma AnySessionMayBeEvicted(s: State, user: User, k: TokenId) returns (oldest: set<TokenId>)
    requires Inv(s) && |Sessions(s.rows, user, s.now)| >= MAX_ACTIVE_TOKENS_PER_USER
    requires k in Sessions(s.rows, user, s.now)
    ensures MayEvict(s.rows, user, s.now, oldest) && k in oldest
  {
    var kept := CleanupExpired(s.rows, user, s.now);
    CleanupKeepsSessions(s.rows, user, s.now);
    var all, count := Evictable(kept, user), |Sessions(kept, user, s.now)|;
    SubsetSize(Sessions(kept, user, s.now), all);
    oldest := SubsetWith(all, k, count - MAX_ACTIVE_TOKENS_PER_USER + 1);
  }
}
