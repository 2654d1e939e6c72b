/** rotateRefreshToken with its lookup and its writes as separate steps, as backend/services/
    refreshTokenService.js runs them: nothing puts the two into one transaction. */
module RefreshRaces {
  import opened RefreshTokens
  import opened Wrappers

  /** `checked` holds the rotations whose token passed the checks and is not consumed yet. */
  datatype Sys = Sys(base: State, checked: map<nat, TokenId>)

  /** `Whole` is an operation whose statements nothing interrupts; a refused rotation is one too. */
  datatype Split =
    | Whole(a: Action)
    | Check(r: nat, id: TokenId)
    | Replace(r: nat, newId: TokenId, oldest: set<TokenId>)

  ghost predicate MayReplace(s: State, id: TokenId, newId: TokenId, oldest: set<TokenId>) {
    newId !in s.tokens && (id in s.rows ==> MayEvict(Consume(s.rows, id, s.now), s.rows[id].user, s.now, oldest))
  }

  ghost predicate SplitEnabled(s: Sys, x: Split) {
    match x
    case Whole(a) => Enabled(s.base, a)
    case Check(_, _) => true
    case Replace(r, newId, oldest) => r in s.checked ==> MayReplace(s.base, s.checked[r], newId, oldest)
  }

  /** Consumption by primary key: it asks nothing of the row but that it is still there. */
  function ReplaceRow(s: State, id: TokenId, newId: TokenId, oldest: set<TokenId>): State {
    if id in s.rows
    then s.(rows := Replaced(s.rows, id, s.now, newId, oldest), tokens := s.tokens + {newId},
            rotated := s.rotated + [id])
    else s
  }

  function SplitStep(s: Sys, x: Split): Sys {
    match x
    case Whole(a) => s.(base := Step(s.base, a))
    case Check(r, id) =>
      if OutcomeOf(s.base.rows, true, id, s.base.now) == Rotated then s.(checked := s.checked[r := id]) else s
    case Replace(r, newId, oldest) =>
      if r in s.checked
      then Sys(ReplaceRow(s.base, s.checked[r], newId, oldest), s.checked - {r})
      else s
  }

  function SplitRun(s: Sys, xs: seq<Split>): Sys
    decreases |xs|
  {
    if xs == [] then s else SplitRun(SplitStep(s, xs[0]), xs[1..])
  }

  ghost predicate SplitEnabledRun(s: Sys, xs: seq<Split>)
    decreases |xs|
  {
    xs == [] || (SplitEnabled(s, xs[0]) && SplitEnabledRun(SplitStep(s, xs[0]), xs[1..]))
  }

  /** The row about to be consumed, if it is stored, is still active. */
  ghost predicate StillActive(s: Sys, x: Split) {
    x.Replace? && x.r in s.checked && s.checked[x.r] in s.base.rows ==> s.base.rows[s.checked[x.r]].isActive
  }

  ghost predicate StillActiveRun(s: Sys, xs: seq<Split>)
    decreases |xs|
  {
    xs == [] || (StillActive(s, xs[0]) && StillActiveRun(SplitStep(s, xs[0]), xs[1..]))
  }

  lemma ReplaceKeepsInv(s: State, id: TokenId, newId: TokenId, oldest: set<TokenId>)
    requires Inv(s) && newId !in s.tokens && (id in s.rows ==> s.rows[id].isActive)
    ensures Inv(ReplaceRow(s, id, newId, oldest))
  {
    if id in s.rows {
      RotationKeepsInv(s, id, newId, oldest);
    }
  }

  /** Every interleaving in which each consumption finds its row still active keeps the invariant of
      uninterrupted rotations: one active token a family, no token rotated twice. */
  lemma {:induction false} InterleavedRunKeepsInv(s: Sys, xs: seq<Split>)
    requires Inv(s.base) && SplitEnabledRun(s, xs) && StillActiveRun(s, xs)
    ensures Inv(SplitRun(s, xs).base)
    decreases |xs|
  {
    if xs != [] {
      var x := xs[0];
      if x.Whole? {
        StepKeepsInv(s.base, x.a);
      } else if x.Replace? && x.r in s.checked {
        ReplaceKeepsInv(s.base, s.checked[x.r], x.newId, x.oldest);
      }
      InterleavedRunKeepsInv(SplitStep(s, x), xs[1..]);
    }
  }

  // ---- An interleaving that could have been a sequence of whole rotations ----

  /** The row about to be consumed still passes every check. */
  ghost predicate StillPasses(s: Sys, x: Split) {
    x.Replace? && x.r in s.checked && s.checked[x.r] in s.base.rows ==>
      OutcomeOf(s.base.rows, true, s.checked[x.r], s.base.now) == Rotated
  }

  ghost predicate StillPassesRun(s: Sys, xs: seq<Split>)
    decreases |xs|
  {
    xs == [] || (StillPasses(s, xs[0]) && StillPassesRun(SplitStep(s, xs[0]), xs[1..]))
  }

  /** The operations as if each rotation happened where it wrote. */
  function Merged(s: Sys, xs: seq<Split>): seq<Action>
    decreases |xs|
  {
    if xs == [] then []
    else
      var rest := Merged(SplitStep(s, xs[0]), xs[1..]);
      match xs[0]
      case Whole(a) => [a] + rest
      case Check(_, _) => rest
      case Replace(r, newId, oldest) =>
        if r in s.checked && s.checked[r] in s.base.rows then [Refresh(true, s.checked[r], newId, oldest)] + rest
        else rest
  }

  lemma RunOne(s: State, a: Action, rest: seq<Action>)
    ensures Run(s, [a] + rest) == Run(Step(s, a), rest)
  {
    assert ([a] + rest)[1..] == rest;
  }

  lemma ReplaceIsRefresh(s: State, id: TokenId, newId: TokenId, oldest: set<TokenId>)
    requires OutcomeOf(s.rows, true, id, s.now) == Rotated
    ensures ReplaceRow(s, id, newId, oldest) == Step(s, Refresh(true, id, newId, oldest))
  {
  }

  /** When every consumption finds its row still passing the checks, the interleaving ends in the
      tables of whole rotations, each placed where it wrote. */
  lemma {:induction false} InterleavingRefinesWholeRotations(s: Sys, xs: seq<Split>)
    requires StillPassesRun(s, xs)
    ensures SplitRun(s, xs).base == Run(s.base, Merged(s, xs))
    decreases |xs|
  {
    if xs != [] {
      var x, s1 := xs[0], SplitStep(s, xs[0]);
      var rest := Merged(s1, xs[1..]);
      InterleavingRefinesWholeRotations(s1, xs[1..]);
      match x
      case Whole(a) => RunOne(s.base, a, rest);
      case Check(_, _) =>
      case Replace(r, newId, oldest) =>
        if r in s.checked && s.checked[r] in s.base.rows {
          ReplaceIsRefresh(s.base, s.checked[r], newId, oldest);
          RunOne(s.base, Refresh(true, s.checked[r], newId, oldest), rest);
        }
    }
  }

  // ---- Exactly what a late write keeps ----

  /** Another active token of the family, which the cleanup of this user's expired rows leaves. */
  ghost predicate Rival(rows: Rows, id: TokenId, now: int, k: TokenId)
    requires id in rows
  {
    && k in rows && k != id && rows[k].isActive && rows[k].family == rows[id].family
    && !(rows[k].user == rows[id].user && rows[k].expiresAt < now)
  }

  /** No session has to be evicted for the new token. */
  ghost predicate HasRoom(rows: Rows, id: TokenId, now: int)
    requires id in rows
  {
    var kept := CleanupExpired(Consume(rows, id, now), rows[id].user, now);
    |Sessions(kept, rows[id].user, now)| < MAX_ACTIVE_TOKENS_PER_USER
  }

  /** The rows that are evicted for the new token. */
  ghost function Evicted(rows: Rows, id: TokenId, now: int, oldest: set<TokenId>): set<TokenId>
    requires id in rows
  {
    if HasRoom(rows, id, now) then {} else oldest
  }

  lemma KeptRows(rows: Rows, id: TokenId, now: int, newId: TokenId, oldest: set<TokenId>, k: TokenId)
    requires id in rows && newId !in rows && k in rows && k != id
    ensures var after := Replaced(rows, id, now, newId, oldest);
            && (k in after <==> !(rows[k].user == rows[id].user && rows[k].expiresAt < now))
            && (k in after ==>
                  after[k] == if k in Evicted(rows, id, now, oldest) then rows[k].(isActive := false) else rows[k])
  {
  }

  /** Every rival is evicted; with room for one more session: there is none. */
  ghost predicate RivalsGo(rows: Rows, id: TokenId, now: int, oldest: set<TokenId>)
    requires id in rows
  {
    forall k :: Rival(rows, id, now, k) ==> k in Evicted(rows, id, now, oldest)
  }

  lemma NoRivalLeft(rows: Rows, id: TokenId, now: int, newId: TokenId, oldest: set<TokenId>, k: TokenId)
    requires id in rows && newId !in rows && RivalsGo(rows, id, now, oldest)
    ensures var after := Replaced(rows, id, now, newId, oldest);
            k in after && k != newId && after[k].isActive ==>
              k in rows && after[k] == rows[k] && rows[k].family != rows[id].family
  {
    CreateAddsOne(Consume(rows, id, now), rows[id].user, rows[id].family, now, newId, oldest);
    if k in rows && k != id {
      KeptRows(rows, id, now, newId, oldest, k);
    }
  }

  /** A consumption leaves its family a single active token exactly when every rival is among the rows
      that are evicted for the new token, whatever happened since the check. */
  lemma ReplaceKeepsOneActiveIff(rows: Rows, id: TokenId, now: int, newId: TokenId, oldest: set<TokenId>)
    requires OneActivePerFamily(rows) && id in rows && newId !in rows
    ensures OneActivePerFamily(Replaced(rows, id, now, newId, oldest)) <==> RivalsGo(rows, id, now, oldest)
    ensures HasRoom(rows, id, now) ==> (RivalsGo(rows, id, now, oldest) <==> forall k :: !Rival(rows, id, now, k))
  {
    var after := Replaced(rows, id, now, newId, oldest);
    CreateAddsOne(Consume(rows, id, now), rows[id].user, rows[id].family, now, newId, oldest);
    if k: TokenId :| Rival(rows, id, now, k) && k !in Evicted(rows, id, now, oldest) {
      KeptRows(rows, id, now, newId, oldest, k);
      assert after[k].isActive && after[newId].isActive && after[k].family == after[newId].family;
    } else {
      OneLeft(rows, id, now, newId, oldest);
    }
  }

  lemma OneLeft(rows: Rows, id: TokenId, now: int, newId: TokenId, oldest: set<TokenId>)
    requires OneActivePerFamily(rows) && id in rows && newId !in rows && RivalsGo(rows, id, now, oldest)
    ensures OneActivePerFamily(Replaced(rows, id, now, newId, oldest))
  {
    var after := Replaced(rows, id, now, newId, oldest);
    CreateAddsOne(Consume(rows, id, now), rows[id].user, rows[id].family, now, newId, oldest);
    forall j, k | j in after && k in after && after[j].isActive && after[k].isActive
      && after[j].family == after[k].family
      ensures j == k
    {
      NoRivalLeft(rows, id, now, newId, oldest, j);
      NoRivalLeft(rows, id, now, newId, oldest, k);
    }
  }

  /** The write still fits: every rival goes, the family has not been revoked, the token was not rotated
      by another call. */
  ghost predicate WriteFits(s: State, id: TokenId, oldest: set<TokenId>)
    requires id in s.rows
  {
    && RivalsGo(s.rows, id, s.now, oldest)
    && s.rows[id].family !in s.revoked
    && id !in s.rotated
  }

  lemma ReplacedRowsOk(s: State, id: TokenId, newId: TokenId, oldest: set<TokenId>)
    requires Inv(s) && id in s.rows && newId !in s.tokens
    ensures var after := Replaced(s.rows, id, s.now, newId, oldest);
            (forall k :: k in after ==> RowOk(after[k], s.families, s.revoked)) <==> s.rows[id].family !in s.revoked
  {
    var after := Replaced(s.rows, id, s.now, newId, oldest);
    CreateAddsOne(Consume(s.rows, id, s.now), s.rows[id].user, s.rows[id].family, s.now, newId, oldest);
    assert RowOk(after[newId], s.families, s.revoked) <==> s.rows[id].family !in s.revoked;
  }

  lemma ReplacedRotatedOk(s: State, id: TokenId, newId: TokenId, oldest: set<TokenId>)
    requires Inv(s) && id in s.rows && newId !in s.tokens
    ensures RotatedOk(Replaced(s.rows, id, s.now, newId, oldest), s.tokens + {newId}, s.rotated + [id])
            <==> id !in s.rotated
  {
    ReplacingKeepsUsed(s.rows, id, s.now, newId, oldest);
    if i :| 0 <= i < |s.rotated| && s.rotated[i] == id {
      assert (s.rotated + [id])[i] == (s.rotated + [id])[|s.rotated|];
    } else {
      RotatedGrows(s.rows, Replaced(s.rows, id, s.now, newId, oldest), s.tokens, s.rotated, id, newId);
    }
  }

  /** The exact condition for the whole invariant, at the cap or below it: a late write keeps it if and only if
      the write still fits. */
  lemma ReplaceKeepsInvIff(s: State, id: TokenId, newId: TokenId, oldest: set<TokenId>)
    requires Inv(s) && id in s.rows && newId !in s.tokens
    ensures Inv(ReplaceRow(s, id, newId, oldest)) <==> WriteFits(s, id, oldest)
  {
    ReplaceKeepsOneActiveIff(s.rows, id, s.now, newId, oldest);
    ReplacedRowsOk(s, id, newId, oldest);
    ReplacedRotatedOk(s, id, newId, oldest);
    ReplacingKeepsUsed(s.rows, id, s.now, newId, oldest);
  }

  /** Every write of an interleaving fits when it is made. */
  ghost predicate Fits(s: Sys, x: Split) {
    x.Replace? && x.r in s.checked && s.checked[x.r] in s.base.rows ==> WriteFits(s.base, s.checked[x.r], x.oldest)
  }

  ghost predicate FitsRun(s: Sys, xs: seq<Split>)
    decreases |xs|
  {
    xs == [] || (Fits(s, xs[0]) && FitsRun(SplitStep(s, xs[0]), xs[1..]))
  }

  /** The invariant holds after every step. */
  ghost predicate InvThroughout(s: Sys, xs: seq<Split>)
    decreases |xs|
  {
    Inv(s.base) && (xs == [] || InvThroughout(SplitStep(s, xs[0]), xs[1..]))
  }

  lemma SplitStepKeepsInvIff(s: Sys, x: Split)
    requires Inv(s.base) && SplitEnabled(s, x)
    ensures Inv(SplitStep(s, x).base) <==> Fits(s, x)
  {
    if x.Whole? {
      StepKeepsInv(s.base, x.a);
    } else if x.Replace? && x.r in s.checked && s.checked[x.r] in s.base.rows {
      ReplaceKeepsInvIff(s.base, s.checked[x.r], x.newId, x.oldest);
    }
  }

  /** Over every interleaving: one active token a family, none of a revoked family, and no token rotated twice,
      after every step, if and only if every write fits when it is made. */
  lemma {:induction false} InterleavedInvIff(s: Sys, xs: seq<Split>)
    requires Inv(s.base) && SplitEnabledRun(s, xs)
    ensures InvThroughout(s, xs) <==> FitsRun(s, xs)
    decreases |xs|
  {
    if xs != [] {
      SplitStepKeepsInvIff(s, xs[0]);
      if Fits(s, xs[0]) {
        InterleavedInvIff(SplitStep(s, xs[0]), xs[1..]);
      } else {
        assert !InvThroughout(SplitStep(s, xs[0]), xs[1..]);
      }
    }
  }

  // ---- A revoked family and the rotations still under way ----

  /** A rotation of the family has passed its checks and not written yet. */
  ghost predicate UnderWay(s: Sys, r: nat, family: string) {
    r in s.checked && s.checked[r] in s.base.rows && s.base.rows[s.checked[r]].family == family
  }

  /** Every stored or checked token was issued. */
  ghost predicate AllIssued(s: Sys) {
    s.base.rows.Keys <= s.base.tokens && forall r :: r in s.checked ==> s.checked[r] in s.base.tokens
  }

  /** The family is known, has no active token, and no rotation of it is under way. */
  ghost predicate DeadFamily(s: Sys, family: string) {
    && family in s.base.families && NoActive(s.base.rows, family) && AllIssued(s)
    && forall r :: !UnderWay(s, r, family)
  }

  /** Tokens are issued before they are stored, and a stored row keeps its family. */
  ghost predicate RowsPersist(s: State, t: State) {
    && t.rows.Keys <= t.tokens && s.tokens <= t.tokens && s.families <= t.families
    && forall k :: k in s.tokens && k in t.rows ==> k in s.rows && t.rows[k].family == s.rows[k].family
  }

  lemma CreatePersists(s: State, user: User, family: string, id: TokenId, oldest: set<TokenId>)
    requires s.rows.Keys <= s.tokens && id !in s.tokens
    ensures RowsPersist(s, s.(rows := Create(s.rows, user, family, s.now, id, oldest), tokens := s.tokens + {id},
                              families := s.families + {family}))
  {
    CreateAddsOne(s.rows, user, family, s.now, id, oldest);
  }

  lemma ReplacePersists(s: State, id: TokenId, newId: TokenId, oldest: set<TokenId>)
    requires s.rows.Keys <= s.tokens && newId !in s.tokens
    ensures RowsPersist(s, ReplaceRow(s, id, newId, oldest))
  {
    if id in s.rows {
      CreateAddsOne(Consume(s.rows, id, s.now), s.rows[id].user, s.rows[id].family, s.now, newId, oldest);
    }
  }

  lemma WholePersists(s: State, a: Action)
    requires s.rows.Keys <= s.tokens && Enabled(s, a)
    ensures RowsPersist(s, Step(s, a))
  {
    if a.Login? {
      CreatePersists(s, a.user, a.family, a.id, a.oldest);
    } else if a.Refresh? && OutcomeOf(s.rows, a.jwtValid, a.id, s.now) == Rotated {
      ReplacePersists(s, a.id, a.newId, a.oldest);
    }
  }

  lemma WholeKeepsDead(s: State, a: Action, family: string)
    requires family in s.families && s.rows.Keys <= s.tokens && NoActive(s.rows, family) && Enabled(s, a)
    ensures NoActive(Step(s, a).rows, family)
  {
    if a.Login? {
      CreateAddsOne(s.rows, a.user, a.family, s.now, a.id, a.oldest);
    } else if a.Refresh? && OutcomeOf(s.rows, a.jwtValid, a.id, s.now) == Rotated {
      ReplaceKeepsDead(s, a.id, a.newId, a.oldest, family);
    }
  }

  lemma ReplaceKeepsDead(s: State, id: TokenId, newId: TokenId, oldest: set<TokenId>, family: string)
    requires NoActive(s.rows, family) && id in s.rows && s.rows[id].family != family && newId !in s.rows
    ensures NoActive(ReplaceRow(s, id, newId, oldest).rows, family)
  {
    CreateAddsOne(Consume(s.rows, id, s.now), s.rows[id].user, s.rows[id].family, s.now, newId, oldest);
  }

  lemma StepKeepsIssued(s: Sys, x: Split)
    requires AllIssued(s) && SplitEnabled(s, x)
    ensures AllIssued(SplitStep(s, x)) && RowsPersist(s.base, SplitStep(s, x).base)
  {
    if x.Whole? {
      WholePersists(s.base, x.a);
    } else if x.Replace? && x.r in s.checked {
      ReplacePersists(s.base, s.checked[x.r], x.newId, x.oldest);
    }
  }

  lemma {:induction false} RunKeepsIssued(s: Sys, xs: seq<Split>)
    requires AllIssued(s) && SplitEnabledRun(s, xs)
    ensures AllIssued(SplitRun(s, xs))
    decreases |xs|
  {
    if xs != [] {
      StepKeepsIssued(s, xs[0]);
      RunKeepsIssued(SplitStep(s, xs[0]), xs[1..]);
    }
  }

  lemma StepKeepsDead(s: Sys, x: Split, family: string)
    requires DeadFamily(s, family) && SplitEnabled(s, x)
    ensures DeadFamily(SplitStep(s, x), family)
  {
    StepKeepsIssued(s, x);
    if x.Whole? {
      WholeKeepsDead(s.base, x.a, family);
    } else if x.Replace? && x.r in s.checked && s.checked[x.r] in s.base.rows {
      assert !UnderWay(s, x.r, family);
      ReplaceKeepsDead(s.base, s.checked[x.r], x.newId, x.oldest, family);
    }
    forall r
      ensures !UnderWay(SplitStep(s, x), r, family)
    {
      assert !UnderWay(s, r, family);
    }
  }

  lemma {:induction false} DeadStaysDead(s: Sys, xs: seq<Split>, family: string)
    requires DeadFamily(s, family) && SplitEnabledRun(s, xs)
    ensures NoActive(SplitRun(s, xs).base.rows, family)
    decreases |xs|
  {
    if xs != [] {
      StepKeepsDead(s, xs[0], family);
      DeadStaysDead(SplitStep(s, xs[0]), xs[1..], family);
    }
  }

  lemma RevokedIsDead(s: Sys, a: Action, family: string)
    requires Inv(s.base) && a.Refresh? && OutcomeOf(s.base.rows, a.jwtValid, a.id, s.base.now) == ReuseDetected
    requires family == s.base.rows[a.id].family && AllIssued(s) && forall r :: !UnderWay(s, r, family)
    ensures DeadFamily(SplitStep(s, Whole(a)), family)
  {
    forall r
      ensures !UnderWay(SplitStep(s, Whole(a)), r, family)
    {
      assert !UnderWay(s, r, family);
    }
  }

  /** What reuse detection promises when rotations interleave: if none of the family is under way when reuse is
      detected, no continuation ever holds an active token of the family again. */
  lemma ReuseKillsFamilyUnlessUnderWay(s: Sys, a: Action, later: seq<Split>)
    requires Inv(s.base) && a.Refresh? && OutcomeOf(s.base.rows, a.jwtValid, a.id, s.base.now) == ReuseDetected
    requires AllIssued(s) && forall r :: !UnderWay(s, r, s.base.rows[a.id].family)
    requires SplitEnabledRun(SplitStep(s, Whole(a)), later)
    ensures NoActive(SplitRun(SplitStep(s, Whole(a)), later).base.rows, s.base.rows[a.id].family)
  {
    var family := s.base.rows[a.id].family;
    RevokedIsDead(s, a, family);
    DeadStaysDead(SplitStep(s, Whole(a)), later, family);
  }

  /** And the condition is needed: a rotation that is under way gives the family an active token as soon as it
      writes, revoked or not. */
  lemma LateWriteRevives(s: Sys, r: nat, newId: TokenId, oldest: set<TokenId>, family: string)
    requires UnderWay(s, r, family) && newId !in s.base.rows
    ensures var rows := SplitStep(s, Replace(r, newId, oldest)).base.rows;
            newId in rows && rows[newId].isActive && rows[newId].family == family && !NoActive(rows, family)
  {
    var id := s.checked[r];
    CreateAddsOne(Consume(s.base.rows, id, s.base.now), s.base.rows[id].user, family, s.base.now, newId, oldest);
  }

  /** A login, a rotation, a second one checked; the first token presented again revokes the family, and the
      checked rotation then writes: one active token, in a revoked family. */
  function LateWrite(user: User): seq<Split> {
    [Whole(Login(user, "family", 0, {}))] + ([Whole(Refresh(true, 0, 1, {}))] + ([Check(7, 1)]
      + ([Whole(Refresh(true, 0, 9, {}))] + ([Replace(7, 2, {})] + []))))
  }

  lemma FewSessions(rows: Rows, user: User, now: int, keys: set<TokenId>)
    requires rows.Keys <= keys
    ensures |Sessions(CleanupExpired(rows, user, now), user, now)| <= |keys|
  {
    SubsetSize(Sessions(CleanupExpired(rows, user, now), user, now), keys);
  }

  /** The state with token 1 in use and token 0 rotated. */
  ghost predicate OneRotation(s: State, user: User) {
    && s.now == 0 && s.tokens == {0, 1} && s.families == {"family"} && s.rows.Keys == {0, 1} && s.rotated == [0]
    && s.rows[0].user == user && s.rows[0].family == "family" && s.rows[0].used
    && s.rows[1] == Row(user, "family", false, true, REFRESH_EXPIRY_MS, None)
  }

  lemma RotateOnce(user: User, s: State)
    requires s == Step(START, Login(user, "family", 0, {}))
    ensures Enabled(s, Refresh(true, 0, 1, {})) && OneRotation(Step(s, Refresh(true, 0, 1, {})), user)
  {
    FirstLogin(user, s);
    var after := FirstReplacement(s.rows, 0, 0, 1);
  }

  /** Revoked, with both rows left inactive. */
  ghost predicate Revoked(s: State, user: User) {
    && s.now == 0 && s.tokens == {0, 1} && s.families == s.revoked == {"family"} && s.rows.Keys == {0, 1}
    && s.rows[1].user == user && s.rows[1].family == "family" && NoActive(s.rows, "family")
    && s.rows[0].family == "family"
  }

  lemma PresentAgain(user: User, s: State)
    requires OneRotation(s, user) && s.revoked == {}
    ensures Enabled(s, Refresh(true, 0, 9, {})) && Revoked(Step(s, Refresh(true, 0, 9, {})), user)
  {
  }

  lemma LateWriteIsEnabled(user: User, s: State)
    requires Revoked(s, user)
    ensures MayReplace(s, 1, 2, {})
  {
    FewSessions(Consume(s.rows, 1, 0), user, 0, {0, 1});
  }

  /** A family without an active token gets exactly one from a late write. */
  lemma LateWriteAddsOne(s: Sys, r: nat, newId: TokenId, oldest: set<TokenId>, family: string)
    requires UnderWay(s, r, family) && newId !in s.base.rows
    requires OneActivePerFamily(s.base.rows) && NoActive(s.base.rows, family)
    ensures OneActivePerFamily(SplitStep(s, Replace(r, newId, oldest)).base.rows)
  {
    ReplaceKeepsOneActiveIff(s.base.rows, s.checked[r], s.base.now, newId, oldest);
  }

  /** And if the family has been revoked, that one breaks the promise of the revocation. */
  lemma LateWriteBreaksInv(s: Sys, r: nat, newId: TokenId, oldest: set<TokenId>, family: string)
    requires UnderWay(s, r, family) && newId !in s.base.rows && family in s.base.revoked
    ensures !Inv(SplitStep(s, Replace(r, newId, oldest)).base)
  {
    LateWriteRevives(s, r, newId, oldest, family);
    var t := SplitStep(s, Replace(r, newId, oldest)).base;
    assert !RowOk(t.rows[newId], t.families, t.revoked);
  }

  lemma RevivesRevoked(user: User, s: Sys) returns (t: State)
    requires Revoked(s.base, user) && s.checked == map[7 := 1]
    ensures t == SplitStep(s, Replace(7, 2, {})).base && SplitEnabled(s, Replace(7, 2, {}))
    ensures 2 in t.rows && t.rows[2].isActive && t.rows[2].family == "family" && "family" in t.revoked
    ensures OneActivePerFamily(t.rows) && !Inv(t)
  {
    t := SplitStep(s, Replace(7, 2, {})).base;
    assert UnderWay(s, 7, "family");
    LateWriteIsEnabled(user, s.base);
    LateWriteRevives(s, 7, 2, {}, "family");
    LateWriteAddsOne(s, 7, 2, {}, "family");
    LateWriteBreaksInv(s, 7, 2, {}, "family");
  }

  lemma UpToRevocation(user: User) returns (s1: State, s2: State, s4: State)
    ensures s1 == Step(START, Login(user, "family", 0, {})) && Enabled(START, Login(user, "family", 0, {}))
    ensures s2 == Step(s1, Refresh(true, 0, 1, {})) && Enabled(s1, Refresh(true, 0, 1, {}))
    ensures OutcomeOf(s2.rows, true, 1, s2.now) == Rotated
    ensures s4 == Step(s2, Refresh(true, 0, 9, {})) && Enabled(s2, Refresh(true, 0, 9, {})) && Revoked(s4, user)
  {
    s1 := Step(START, Login(user, "family", 0, {}));
    FirstLogin(user, s1);
    RotateOnce(user, s1);
    s2 := Step(s1, Refresh(true, 0, 1, {}));
    PresentAgain(user, s2);
    s4 := Step(s2, Refresh(true, 0, 9, {}));
  }

  /** In that run a family revoked on reuse has an active token again, although never two. */
  lemma RevokedFamilyRevives(user: User)
    ensures SplitEnabledRun(Sys(START, map[]), LateWrite(user))
    ensures var t := SplitRun(Sys(START, map[]), LateWrite(user)).base;
            && 2 in t.rows && t.rows[2].isActive && t.rows[2].family == "family" && "family" in t.revoked
            && OneActivePerFamily(t.rows) && !Inv(t)
  {
    var s1, s2, s4 := UpToRevocation(user);
    var t := RevivesRevoked(user, Sys(s4, map[7 := 1]));
    LateWriteSteps(user, s1, s2, s4);
  }

  lemma LateWriteSteps(user: User, s1: State, s2: State, s4: State)
    requires s1 == Step(START, Login(user, "family", 0, {})) && Enabled(START, Login(user, "family", 0, {}))
    requires s2 == Step(s1, Refresh(true, 0, 1, {})) && Enabled(s1, Refresh(true, 0, 1, {}))
    requires OutcomeOf(s2.rows, true, 1, s2.now) == Rotated
    requires s4 == Step(s2, Refresh(true, 0, 9, {})) && Enabled(s2, Refresh(true, 0, 9, {}))
    requires SplitEnabled(Sys(s4, map[7 := 1]), Replace(7, 2, {}))
    ensures SplitEnabledRun(Sys(START, map[]), LateWrite(user))
    ensures SplitRun(Sys(START, map[]), LateWrite(user)) == SplitStep(Sys(s4, map[7 := 1]), Replace(7, 2, {}))
  {
    var e := [Replace(7, 2, {})] + [];
    var d := [Whole(Refresh(true, 0, 9, {}))] + e;
    var c := [Check(7, 1)] + d;
    var b := [Whole(Refresh(true, 0, 1, {}))] + c;
    assert map[][7 := 1] == map[7 := 1 as TokenId];
    SplitOne(Sys(START, map[]), Whole(Login(user, "family", 0, {})), b);
    SplitOne(Sys(s1, map[]), Whole(Refresh(true, 0, 1, {})), c);
    SplitOne(Sys(s2, map[]), Check(7, 1), d);
    SplitOne(Sys(s2, map[7 := 1]), Whole(Refresh(true, 0, 9, {})), e);
    SplitOne(Sys(s4, map[7 := 1]), Replace(7, 2, {}), []);
  }

  // ---- Two rotations of one token ----

  /** Both rotations read before either writes. */
  function Race(id: TokenId, b: TokenId, c: TokenId): seq<Split> {
    [Check(1, id)] + ([Check(2, id)] + ([Replace(1, b, {})] + ([Replace(2, c, {})] + [])))
  }

  lemma SplitOne(s: Sys, x: Split, rest: seq<Split>)
    ensures SplitRun(s, [x] + rest) == SplitRun(SplitStep(s, x), rest)
    ensures SplitEnabledRun(s, [x] + rest) <==> SplitEnabled(s, x) && SplitEnabledRun(SplitStep(s, x), rest)
  {
    assert ([x] + rest)[1..] == rest;
  }

  lemma FirstReplacement(rows: Rows, id: TokenId, now: int, b: TokenId) returns (after: Rows)
    requires id in rows && rows[id].expiresAt >= now && b !in rows
    requires |Sessions(rows, rows[id].user, now)| + 1 < MAX_ACTIVE_TOKENS_PER_USER
    ensures after == Replaced(rows, id, now, b, {}) && HasRoom(rows, id, now) && after.Keys <= rows.Keys + {b}
    ensures id in after && after[id].user == rows[id].user && after[id].family == rows[id].family
    ensures HasRoom(after, id, now)
    ensures b in after && after[b] == Row(rows[id].user, rows[id].family, false, true, now + REFRESH_EXPIRY_MS, None)
  {
    var user, consumed := rows[id].user, Consume(rows, id, now);
    after := Replaced(rows, id, now, b, {});
    CreatedSessions(consumed, user, rows[id].family, now, b, {});
    SubsetSize(Sessions(consumed, user, now), Sessions(rows, user, now));
    CleanupKeepsSessions(Consume(after, id, now), user, now);
    SubsetSize(Sessions(Consume(after, id, now), user, now), Sessions(consumed, user, now) + {b});
  }

  lemma SecondReplacement(rows: Rows, id: TokenId, now: int, b: TokenId, c: TokenId)
    requires id in rows && b in rows && b != id && c !in rows && HasRoom(rows, id, now) && rows[b].expiresAt >= now
    ensures var after := Replaced(rows, id, now, c, {});
            && b in after && after[b] == rows[b]
            && c in after && after[c].isActive && after[c].family == rows[id].family
  {
    KeptRows(rows, id, now, c, {}, b);
    CreateAddsOne(Consume(rows, id, now), rows[id].user, rows[id].family, now, c, {});
  }

  /** Two rotations of one unused token that both pass the checks before either writes: from any
      state with room for two sessions both succeed, and the family has two active tokens. */
  lemma RaceLeavesTwoActive(s: Sys, id: TokenId, b: TokenId, c: TokenId)
    requires OutcomeOf(s.base.rows, true, id, s.base.now) == Rotated && s.base.rows.Keys <= s.base.tokens
    requires b !in s.base.tokens && c !in s.base.tokens && b != c
    requires |Sessions(s.base.rows, s.base.rows[id].user, s.base.now)| + 1 < MAX_ACTIVE_TOKENS_PER_USER
    ensures SplitEnabledRun(s, Race(id, b, c))
    ensures var after := SplitRun(s, Race(id, b, c)).base;
            && b in after.rows && after.rows[b].isActive && c in after.rows && after.rows[c].isActive
            && after.rows[b].family == after.rows[c].family == s.base.rows[id].family
            && !OneActivePerFamily(after.rows)
            && after.rotated == s.base.rotated + [id] + [id]
  {
    var rows1 := FirstReplacement(s.base.rows, id, s.base.now, b);
    SecondReplacement(rows1, id, s.base.now, b, c);
    RaceSteps(s, id, b, c, rows1);
  }

  lemma RaceSteps(s: Sys, id: TokenId, b: TokenId, c: TokenId, rows1: Rows)
    requires OutcomeOf(s.base.rows, true, id, s.base.now) == Rotated
    requires b !in s.base.tokens && c !in s.base.tokens && b != c
    requires rows1 == Replaced(s.base.rows, id, s.base.now, b, {}) && id in rows1
    requires HasRoom(s.base.rows, id, s.base.now) && HasRoom(rows1, id, s.base.now)
    ensures SplitEnabledRun(s, Race(id, b, c))
    ensures SplitRun(s, Race(id, b, c)).base
         == s.base.(rows := Replaced(rows1, id, s.base.now, c, {}), tokens := s.base.tokens + {b} + {c},
                    rotated := s.base.rotated + [id] + [id])
  {
    var s2 := Sys(s.base, s.checked[1 := id][2 := id]);
    TwoChecks(s, id, s2, [Replace(1, b, {})] + ([Replace(2, c, {})] + []));
    TwoReplaces(s2, id, b, c, rows1);
  }

  lemma TwoChecks(s: Sys, id: TokenId, s2: Sys, rest: seq<Split>)
    requires OutcomeOf(s.base.rows, true, id, s.base.now) == Rotated && s2 == Sys(s.base, s.checked[1 := id][2 := id])
    ensures SplitRun(s, [Check(1, id)] + ([Check(2, id)] + rest)) == SplitRun(s2, rest)
    ensures SplitEnabledRun(s, [Check(1, id)] + ([Check(2, id)] + rest)) <==> SplitEnabledRun(s2, rest)
  {
    SplitOne(s, Check(1, id), [Check(2, id)] + rest);
    SplitOne(SplitStep(s, Check(1, id)), Check(2, id), rest);
  }

  lemma TwoReplaces(s: Sys, id: TokenId, b: TokenId, c: TokenId, rows1: Rows)
    requires 1 in s.checked && 2 in s.checked && s.checked[1] == s.checked[2] == id && id in s.base.rows
    requires b !in s.base.tokens && c !in s.base.tokens && b != c
    requires rows1 == Replaced(s.base.rows, id, s.base.now, b, {}) && id in rows1
    requires HasRoom(s.base.rows, id, s.base.now) && HasRoom(rows1, id, s.base.now)
    ensures SplitEnabledRun(s, [Replace(1, b, {})] + ([Replace(2, c, {})] + []))
    ensures SplitRun(s, [Replace(1, b, {})] + ([Replace(2, c, {})] + [])).base
         == s.base.(rows := Replaced(rows1, id, s.base.now, c, {}), tokens := s.base.tokens + {b} + {c},
                    rotated := s.base.rotated + [id] + [id])
  {
    var s1 := Sys(s.base.(rows := rows1, tokens := s.base.tokens + {b}, rotated := s.base.rotated + [id]),
                  s.checked - {1});
    SplitOne(s, Replace(1, b, {}), [Replace(2, c, {})] + []);
    SplitOne(s1, Replace(2, c, {}), []);
  }

  /** A first login, then the race on its token. */
  lemma RaceAfterFirstLogin(user: User)
    ensures var xs := [Whole(Login(user, "family", 0, {}))] + Race(0, 1, 2);
            && SplitEnabledRun(Sys(START, map[]), xs)
            && !OneActivePerFamily(SplitRun(Sys(START, map[]), xs).base.rows)
  {
    var login := Login(user, "family", 0, {});
    var s := SplitStep(Sys(START, map[]), Whole(login));
    FirstLogin(user, s.base);
    RaceLeavesTwoActive(s, 0, 1, 2);
    SplitOne(Sys(START, map[]), Whole(login), Race(0, 1, 2));
  }

  lemma FirstLogin(user: User, s: State)
    requires s == Step(START, Login(user, "family", 0, {}))
    ensures Enabled(START, Login(user, "family", 0, {})) && OutcomeOf(s.rows, true, 0, s.now) == Rotated
    ensures s.tokens == {0} && s.rows.Keys <= s.tokens && 0 in s.rows && s.rows[0].user == user
    ensures |Sessions(s.rows, user, s.now)| + 1 < MAX_ACTIVE_TOKENS_PER_USER
  {
    CreatedSessions(map[], user, "family", 0, 0, {});
    assert Sessions(map[], user, 0) == {};
    CreateAddsOne(map[], user, "family", 0, 0, {});
  }
}
