/** The audit hash chain of backend/services/auditVerifier.js: the batched walk over the log, the
    stored baseline, and what a passing verification proves. */
module AuditChain {
  import opened Wrappers
  import opened Hashing
  import opened Texts

  const GENESIS := "STELLAR_TRUST_ESCROW_AUDIT_GENESIS"

  /** One AuditLog row; `createdAt` is its ISO text. */
  datatype Entry = Entry(id: int, tenantId: string, category: string, action: string, actor: string, createdAt: string)

  /** String(id) of a BigInt. */
  function IdText(id: int): string {
    if id < 0 then "-" + Decimal(-id) else Decimal(id)
  }

  /** The bytes an entry adds to the hash: its fields one after another, without separators. */
  function Serial(e: Entry): string {
    IdText(e.id) + e.tenantId + e.category + e.action + e.actor + e.createdAt
  }

  function Serials(entries: seq<Entry>): (r: seq<string>)
    ensures |r| == |entries|
  {
    if entries == [] then [] else Serials(entries[..|entries| - 1]) + [Serial(entries[|entries| - 1])]
  }

  lemma {:induction false} SerialsConcat(a: seq<Entry>, b: seq<Entry>)
    ensures Serials(a + b) == Serials(a) + Serials(b)
  {
    if b == [] {
      assert a + b == a;
    } else {
      assert (a + b)[..|a + b| - 1] == a + b[..|b| - 1];
      SerialsConcat(a, b[..|b| - 1]);
    }
  }

  function EntryHash(h: Hash, prevHash: string, e: Entry): string {
    h(prevHash + Serial(e))
  }

  /** The chain over serialised entries, from a previous hash. */
  function ChainFrom(h: Hash, start: string, chunks: seq<string>): string {
    if chunks == [] then start
    else h(ChainFrom(h, start, chunks[..|chunks| - 1]) + chunks[|chunks| - 1])
  }

  /** One fold over the serialised entries, from the genesis string. */
  function ChainHash(h: Hash, chunks: seq<string>): string {
    ChainFrom(h, GENESIS, chunks)
  }

  lemma {:induction false} ChainFromConcat(h: Hash, start: string, a: seq<string>, b: seq<string>)
    ensures ChainFrom(h, start, a + b) == ChainFrom(h, ChainFrom(h, start, a), b)
  {
    if b == [] {
      assert a + b == a;
    } else {
      assert (a + b)[..|a + b| - 1] == a + b[..|b| - 1];
      ChainFromConcat(h, start, a, b[..|b| - 1]);
    }
  }

  ghost predicate IdOrdered(log: seq<Entry>) {
    forall i, j :: 0 <= i < j < |log| ==> log[i].id < log[j].id
  }

  /** The tenant's rows with an id above the cursor, in id order. */
  function Matching(log: seq<Entry>, tenantId: string, cursor: int): seq<Entry> {
    if log == [] then []
    else
      var hit := log[0].tenantId == tenantId && log[0].id > cursor;
      (if hit then [log[0]] else []) + Matching(log[1..], tenantId, cursor)
  }

  function FindMany(log: seq<Entry>, tenantId: string, cursor: int, take: nat): seq<Entry> {
    var rows := Matching(log, tenantId, cursor);
    if |rows| <= take then rows else rows[..take]
  }

  lemma {:induction false} MatchingIdsAbove(log: seq<Entry>, tenantId: string, cursor: int)
    requires IdOrdered(log)
    ensures forall e :: e in Matching(log, tenantId, cursor) ==> e in log && e.id > cursor
  {
    if log != [] {
      MatchingIdsAbove(log[1..], tenantId, cursor);
    }
  }

  lemma {:induction false} MatchingAll(log: seq<Entry>, tenantId: string, low: int, high: int)
    requires low <= high && forall e :: e in log ==> e.id > high
    ensures Matching(log, tenantId, low) == Matching(log, tenantId, high)
  {
    if log != [] {
      assert log[0] in log;
      MatchingAll(log[1..], tenantId, low, high);
    }
  }

  lemma FirstIsPassed(log: seq<Entry>, tenantId: string, cursor: int)
    requires log != [] && !(log[0].tenantId == tenantId && log[0].id > cursor)
    ensures Matching(log, tenantId, cursor) == Matching(log[1..], tenantId, cursor)
  {
    assert [] + Matching(log[1..], tenantId, cursor) == Matching(log[1..], tenantId, cursor);
  }

  lemma MatchIsLater(log: seq<Entry>, tenantId: string, cursor: int, k: nat)
    requires log != [] && IdOrdered(log) && k < |Matching(log[1..], tenantId, cursor)|
    ensures Matching(log[1..], tenantId, cursor)[k].id > log[0].id
  {
    MatchingIdsAbove(log[1..], tenantId, cursor);
    assert Matching(log[1..], tenantId, cursor)[k] in log[1..];
  }

  lemma DropBehind<T>(x: T, rest: seq<T>, k: nat)
    requires k <= |rest|
    ensures ([x] + rest)[k + 1..] == rest[k..]
  {
  }

  lemma FirstIsHit(log: seq<Entry>, tenantId: string, cursor: int) returns (rest: seq<Entry>)
    requires log != [] && log[0].tenantId == tenantId && log[0].id > cursor
    ensures rest == Matching(log[1..], tenantId, cursor) && Matching(log, tenantId, cursor) == [log[0]] + rest
  {
    rest := Matching(log[1..], tenantId, cursor);
  }

  /** Moving the cursor to the id of the k-th match leaves exactly the matches after it. */
  lemma {:induction false} MatchingAfter(log: seq<Entry>, tenantId: string, cursor: int, rows: seq<Entry>, k: nat)
    requires IdOrdered(log) && rows == Matching(log, tenantId, cursor) && k < |rows|
    ensures Matching(log, tenantId, rows[k].id) == rows[k + 1..]
  {
    if !(log[0].tenantId == tenantId && log[0].id > cursor) {
      FirstIsPassed(log, tenantId, cursor);
      MatchIsLater(log, tenantId, cursor, k);
      MatchingAfter(log[1..], tenantId, cursor, rows, k);
      FirstIsPassed(log, tenantId, rows[k].id);
    } else {
      var rest := FirstIsHit(log, tenantId, cursor);
      if k > 0 {
        MatchingAfter(log[1..], tenantId, cursor, rest, k - 1);
      }
      AfterHit(log, tenantId, cursor, rest, k);
    }
  }

  lemma AfterHit(log: seq<Entry>, tenantId: string, cursor: int, rest: seq<Entry>, k: nat)
    requires IdOrdered(log) && log != [] && log[0].id > cursor && rest == Matching(log[1..], tenantId, cursor)
    requires k <= |rest|
    requires k > 0 ==> Matching(log[1..], tenantId, rest[k - 1].id) == rest[k..]
    ensures Matching(log, tenantId, ([log[0]] + rest)[k].id) == ([log[0]] + rest)[k + 1..]
  {
    DropBehind(log[0], rest, k);
    if k == 0 {
      MatchingAll(log[1..], tenantId, cursor, log[0].id);
    } else {
      MatchIsLater(log, tenantId, cursor, k - 1);
    }
    FirstIsPassed(log, tenantId, ([log[0]] + rest)[k].id);
  }

  /** The log that a verification covers: ids are read from above 0. */
  function TenantLog(log: seq<Entry>, tenantId: string): seq<Entry> {
    Matching(log, tenantId, 0)
  }

  method HashBatch(h: Hash, start: string, batch: seq<Entry>) returns (rootHash: string)
    ensures rootHash == ChainFrom(h, start, Serials(batch))
  {
    rootHash := start;
    for i := 0 to |batch|
      invariant rootHash == ChainFrom(h, start, Serials(batch[..i]))
    {
      assert batch[..i + 1][..i] == batch[..i];
      rootHash := EntryHash(h, rootHash, batch[i]);
    }
    assert batch[..|batch|] == batch;
  }

  /** A batch is the first part of the matches, and moves the cursor just past itself. */
  lemma BatchIsFirstPart(log: seq<Entry>, tenantId: string, cursor: int, take: nat)
    requires IdOrdered(log)
    ensures var rows, batch := Matching(log, tenantId, cursor), FindMany(log, tenantId, cursor, take);
            && |batch| <= take
            && (|batch| > 0 ==> rows == batch + Matching(log, tenantId, batch[|batch| - 1].id))
            && (|batch| < take ==> rows == batch)
  {
    var rows, batch := Matching(log, tenantId, cursor), FindMany(log, tenantId, cursor, take);
    if |batch| > 0 {
      MatchingAfter(log, tenantId, cursor, rows, |batch| - 1);
    }
  }

  lemma HashingMore(h: Hash, start: string, before: seq<Entry>, batch: seq<Entry>)
    ensures ChainFrom(h, ChainFrom(h, start, Serials(before)), Serials(batch))
         == ChainFrom(h, start, Serials(before + batch))
  {
    ChainFromConcat(h, start, Serials(before), Serials(batch));
    SerialsConcat(before, batch);
  }

  /** One turn of the outer loop: hash the next batch and move the cursor to its last id. */
  method ProcessBatch(h: Hash, log: seq<Entry>, tenantId: string, cursor: int, take: nat, prevHash: string,
                      ghost start: string, ghost before: seq<Entry>)
    returns (rootHash: string, n: nat, next: int, ghost after: seq<Entry>, ghost rest: seq<Entry>)
    requires IdOrdered(log) && take >= 1 && prevHash == ChainFrom(h, start, Serials(before))
    ensures n <= take && |after| == |before| + n && rootHash == ChainFrom(h, start, Serials(after))
    ensures after + rest == before + Matching(log, tenantId, cursor)
    ensures n + |rest| == |Matching(log, tenantId, cursor)|
    ensures if n < take then rest == [] else rest == Matching(log, tenantId, next)
  {
    var rows := FindMany(log, tenantId, cursor, take);
    BatchIsFirstPart(log, tenantId, cursor, take);
    rootHash := HashBatch(h, prevHash, rows);
    n := |rows|;
    next := if n > 0 then rows[n - 1].id else cursor;
    after := before + rows;
    rest := if n < take then [] else Matching(log, tenantId, next);
    HashingMore(h, start, before, rows);
    Regroup(before, rows, rest);
  }

  /** The cursor walk from any starting hash. */
  method WalkLog(h: Hash, start: string, log: seq<Entry>, tenantId: string, batchSize: nat)
    returns (rootHash: string, count: nat)
    requires IdOrdered(log) && batchSize >= 1
    ensures rootHash == ChainFrom(h, start, Serials(TenantLog(log, tenantId)))
    ensures count == |TenantLog(log, tenantId)|
  {
    ghost var before, rest, all := [], TenantLog(log, tenantId), TenantLog(log, tenantId);
    var cursor, n := 0, batchSize;
    rootHash, count := start, 0;
    while n == batchSize
      invariant count == |before| && rootHash == ChainFrom(h, start, Serials(before))
      invariant before + rest == all
      invariant n <= batchSize && (if n < batchSize then rest == [] else rest == Matching(log, tenantId, cursor))
      decreases |rest|, n
    {
      rootHash, n, cursor, before, rest := ProcessBatch(h, log, tenantId, cursor, batchSize, rootHash, start, before);
      count := count + n;
    }
    NothingLeft(before, all);
  }

  lemma NothingLeft(before: seq<Entry>, all: seq<Entry>)
    requires before + [] == all
    ensures before == all
  {
    assert before + [] == before;
  }

  /** The batched cursor walk gives the root and count of one fold over the tenant's log, for every
      batch size of at least one. */
  method ComputeChainRoot(h: Hash, log: seq<Entry>, tenantId: string, batchSize: nat)
    returns (rootHash: string, count: nat)
    requires IdOrdered(log) && batchSize >= 1
    ensures rootHash == ChainHash(h, Serials(TenantLog(log, tenantId)))
    ensures count == |TenantLog(log, tenantId)|
  {
    rootHash, count := WalkLog(h, GENESIS, log, tenantId, batchSize);
  }

  // ---- Binding ----

  /** Every string hashed while the chain is computed. */
  function ChainInputs(h: Hash, chunks: seq<string>): set<string> {
    if chunks == [] then {}
    else
      var front := chunks[..|chunks| - 1];
      {ChainHash(h, front) + chunks[|chunks| - 1]} + ChainInputs(h, front)
  }

  /** Two chains of equal length with the same root are over the same bytes, entry by entry, or two
      different strings that were hashed collide. */
  lemma {:induction false} ChainBinds(h: Hash, a: seq<string>, b: seq<string>)
    requires FixedWidth(h) && |a| == |b| && ChainHash(h, a) == ChainHash(h, b)
    ensures a == b || CollisionBetween(h, ChainInputs(h, a), ChainInputs(h, b))
  {
    if a != [] {
      var n := |a| - 1;
      var x, y := ChainHash(h, a[..n]) + a[n], ChainHash(h, b[..n]) + b[n];
      if x != y {
        assert x in ChainInputs(h, a) && y in ChainInputs(h, b) && h(x) == h(y);
      } else {
        SplitsEqually(ChainHash(h, a[..n]), a[n], ChainHash(h, b[..n]), b[n]);
        ChainBinds(h, a[..n], b[..n]);
        if a[..n] == b[..n] {
          assert a == a[..n] + [a[n]] && b == b[..n] + [b[n]];
        } else {
          var u, v :| u in ChainInputs(h, a[..n]) && v in ChainInputs(h, b[..n]) && u != v && h(u) == h(v);
          assert u in ChainInputs(h, a) && v in ChainInputs(h, b);
        }
      }
    }
  }

  // ---- The stored baseline ----

  datatype StoredRoot = StoredRoot(rootHash: string, entryCount: nat)
  datatype Verdict = Baseline | Verified | Violation

  function RootOf(h: Hash, log: seq<Entry>, tenantId: string): StoredRoot {
    StoredRoot(ChainHash(h, Serials(TenantLog(log, tenantId))), |TenantLog(log, tenantId)|)
  }

  function VerdictFor(roots: map<string, StoredRoot>, tenantId: string, root: StoredRoot): Verdict {
    if tenantId !in roots then Baseline else if roots[tenantId] != root then Violation else Verified
  }

  function VerdictOn(h: Hash, roots: map<string, StoredRoot>, log: seq<Entry>, tenantId: string): Verdict {
    VerdictFor(roots, tenantId, RootOf(h, log, tenantId))
  }

  /** The audit_chain_roots table, the admin locks kept in Redis with the second at which each ends,
      and the emitted violation events. */
  datatype Audit = Audit(roots: map<string, StoredRoot>, locks: map<string, int>, violations: seq<string>)

  const NO_AUDITS := Audit(map[], map[], [])

  /** One verification of a tenant over the whole log as it stood, or a manual release of its lock.
      `redisUp` is false when Redis cannot be written. */
  datatype Action =
    | Check(tenantId: string, log: seq<Entry>, now: int, redisUp: bool)
    | Unlock(tenantId: string, redisUp: bool)

  /** The effect of a check that computed `root`: only a missing root is stored, and only a different
      one is reported. */
  function AfterCheck(a: Audit, c: Action, root: StoredRoot, ttl: nat): Audit
    requires c.Check?
  {
    if c.tenantId !in a.roots then a.(roots := a.roots[c.tenantId := root])
    else if a.roots[c.tenantId] == root then a
    else a.(locks := if c.redisUp then a.locks[c.tenantId := c.now + ttl] else a.locks,
            violations := a.violations + [c.tenantId])
  }

  function AfterUnlock(a: Audit, c: Action): Audit
    requires c.Unlock?
  {
    if c.redisUp then a.(locks := a.locks - {c.tenantId}) else a
  }

  /** `rootOf` gives the root that a check computes. */
  function Step(rootOf: (seq<Entry>, string) -> StoredRoot, ttl: nat, a: Audit, c: Action): Audit {
    match c
    case Check(tenantId, log, _, _) => AfterCheck(a, c, rootOf(log, tenantId), ttl)
    case Unlock(_, _) => AfterUnlock(a, c)
  }

  function Run(rootOf: (seq<Entry>, string) -> StoredRoot, ttl: nat, history: seq<Action>): Audit {
    if history == [] then NO_AUDITS
    else Step(rootOf, ttl, Run(rootOf, ttl, history[..|history| - 1]), history[|history| - 1])
  }

  function Observer(h: Hash): (seq<Entry>, string) -> StoredRoot {
    (log, tenantId) => RootOf(h, log, tenantId)
  }

  /** The stored roots after a history; the lock's lifetime has no part in them. */
  function RunChecks(h: Hash, history: seq<Action>): map<string, StoredRoot> {
    Run(Observer(h), 0, history).roots
  }

  /** What VerifyTenant does is the step of a history whose checks compute real roots. */
  lemma StepIsVerification(h: Hash, ttl: nat, a: Audit, c: Action)
    requires c.Check?
    ensures Step(Observer(h), ttl, a, c) == AfterCheck(a, c, RootOf(h, c.log, c.tenantId), ttl)
    ensures VerdictOn(h, a.roots, c.log, c.tenantId)
         == if c.tenantId !in a.roots then Baseline
            else if Step(Observer(h), ttl, a, c).violations == a.violations then Verified else Violation
  {
  }

  /** isAdminLocked, at a second of the clock. */
  predicate LockedAt(a: Audit, tenantId: string, now: int) {
    tenantId in a.locks && now < a.locks[tenantId]
  }

  class Verifier {
    const lockTtl: nat
    var roots: map<string, StoredRoot>
    var locks: map<string, int>
    var violations: seq<string>

    constructor (lockTtl: nat)
      ensures this.lockTtl == lockTtl && Contents() == NO_AUDITS
    {
      this.lockTtl := lockTtl;
      roots, locks, violations := map[], map[], [];
    }

    ghost function Contents(): Audit
      reads this
    {
      Audit(roots, locks, violations)
    }

    method VerifyTenant(h: Hash, log: seq<Entry>, tenantId: string, batchSize: nat, now: int, redisUp: bool)
      returns (v: Verdict)
      requires IdOrdered(log) && batchSize >= 1
      modifies this
      ensures v == VerdictOn(h, old(roots), log, tenantId)
      ensures Contents() == AfterCheck(old(Contents()), Check(tenantId, log, now, redisUp), RootOf(h, log, tenantId),
                                       lockTtl)
    {
      var rootHash, count := ComputeChainRoot(h, log, tenantId, batchSize);
      assert StoredRoot(rootHash, count) == RootOf(h, log, tenantId);
      v := CompareRoot(tenantId, StoredRoot(rootHash, count), Check(tenantId, log, now, redisUp));
    }

    /** verifyTenant after the walk: the computed root against the stored one. */
    method CompareRoot(tenantId: string, root: StoredRoot, c: Action) returns (v: Verdict)
      requires c.Check? && c.tenantId == tenantId
      modifies this
      ensures v == VerdictFor(old(roots), tenantId, root)
      ensures Contents() == AfterCheck(old(Contents()), c, root, lockTtl)
    {
      if tenantId !in roots {
        roots := roots[tenantId := root];
        return Baseline;
      }
      var stored := roots[tenantId];
      if stored.rootHash != root.rootHash || stored.entryCount != root.entryCount {
        violations := violations + [tenantId];
        if c.redisUp {
          locks := locks[tenantId := c.now + lockTtl];
        }
        return Violation;
      }
      roots := roots[tenantId := root];
      return Verified;
    }

    method ReleaseAdminLock(tenantId: string, redisUp: bool)
      modifies this`locks
      ensures Contents() == AfterUnlock(old(Contents()), Unlock(tenantId, redisUp))
    {
      if redisUp {
        locks := locks - {tenantId};
      }
    }

    /** Without Redis nobody is held to be locked. */
    method IsAdminLocked(tenantId: string, now: int, redisUp: bool) returns (isLocked: bool)
      ensures isLocked == (redisUp && LockedAt(Contents(), tenantId, now))
    {
      isLocked := redisUp && tenantId in locks && now < locks[tenantId];
    }
  }

  // ---- What a history of checks leaves ----

  predicate ChecksTenant(c: Action, tenantId: string) {
    c.Check? && c.tenantId == tenantId
  }

  /** The log seen by the first check of a tenant. */
  function FirstLog(history: seq<Action>, tenantId: string): Option<seq<Entry>> {
    if history == [] then None
    else if ChecksTenant(history[0], tenantId) then Some(history[0].log)
    else FirstLog(history[1..], tenantId)
  }

  lemma {:induction false} FirstLogSnoc(history: seq<Action>, c: Action, tenantId: string)
    ensures FirstLog(history + [c], tenantId)
         == if FirstLog(history, tenantId).Some? then FirstLog(history, tenantId)
            else if ChecksTenant(c, tenantId) then Some(c.log) else None
  {
    if history == [] {
      assert [] + [c] == [c];
    } else {
      assert (history + [c])[1..] == history[1..] + [c];
      FirstLogSnoc(history[1..], c, tenantId);
    }
  }

  lemma {:induction false} FirstStays(rootOf: (seq<Entry>, string) -> StoredRoot, ttl: nat, history: seq<Action>,
                                      tenantId: string)
    ensures tenantId in Run(rootOf, ttl, history).roots <==> FirstLog(history, tenantId).Some?
    ensures tenantId in Run(rootOf, ttl, history).roots ==>
              Run(rootOf, ttl, history).roots[tenantId] == rootOf(FirstLog(history, tenantId).value, tenantId)
  {
    if history != [] {
      var front, last := history[..|history| - 1], history[|history| - 1];
      FirstStays(rootOf, ttl, front, tenantId);
      assert history == front + [last];
      FirstLogSnoc(front, last, tenantId);
    }
  }

  /** However many checks run, the stored root is the one of the tenant's first check. */
  lemma BaselineNeverMoves(h: Hash, history: seq<Action>, tenantId: string)
    ensures tenantId in RunChecks(h, history) <==> FirstLog(history, tenantId).Some?
    ensures tenantId in RunChecks(h, history) ==>
              RunChecks(h, history)[tenantId] == RootOf(h, FirstLog(history, tenantId).value, tenantId)
  {
    FirstStays(Observer(h), 0, history, tenantId);
  }

  /** A check takes the baseline if and only if the tenant was never checked before. */
  lemma BaselineIffFirst(h: Hash, history: seq<Action>, tenantId: string, log: seq<Entry>)
    ensures VerdictOn(h, RunChecks(h, history), log, tenantId) == Baseline <==> FirstLog(history, tenantId) == None
  {
    BaselineNeverMoves(h, history, tenantId);
  }

  /** Action k checks the tenant and computes another root or count than its first check did. */
  predicate Deviates(rootOf: (seq<Entry>, string) -> StoredRoot, history: seq<Action>, k: nat, tenantId: string) {
    && k < |history| && ChecksTenant(history[k], tenantId)
    && FirstLog(history[..k], tenantId).Some?
    && rootOf(FirstLog(history[..k], tenantId).value, tenantId) != rootOf(history[k].log, tenantId)
  }

  /** The number of checks before n that deviate. */
  function Deviations(rootOf: (seq<Entry>, string) -> StoredRoot, history: seq<Action>, n: nat, tenantId: string): nat {
    if n == 0 then 0
    else Deviations(rootOf, history, n - 1, tenantId) + if Deviates(rootOf, history, n - 1, tenantId) then 1 else 0
  }

  lemma RunNext(rootOf: (seq<Entry>, string) -> StoredRoot, ttl: nat, history: seq<Action>, n: nat)
    requires n < |history|
    ensures Run(rootOf, ttl, history[..n + 1]) == Step(rootOf, ttl, Run(rootOf, ttl, history[..n]), history[n])
  {
    assert history[..n + 1][..n] == history[..n];
  }

  /** What one more action adds to the reports, and what it does to one tenant's lock. */
  lemma StepReports(rootOf: (seq<Entry>, string) -> StoredRoot, ttl: nat, history: seq<Action>, n: nat,
                    tenantId: string)
    requires n < |history|
    ensures var a, b := Run(rootOf, ttl, history[..n]), Run(rootOf, ttl, history[..n + 1]);
            var deviates := Deviates(rootOf, history, n, tenantId);
            && multiset(b.violations)[tenantId] == multiset(a.violations)[tenantId] + (if deviates then 1 else 0)
            && (deviates && history[n].redisUp ==>
                  tenantId in b.locks && b.locks[tenantId] == history[n].now + ttl)
            && (!(deviates && history[n].redisUp) && !Frees(history[n], tenantId) ==>
                  (tenantId in b.locks <==> tenantId in a.locks) &&
                  (tenantId in b.locks ==> b.locks[tenantId] == a.locks[tenantId]))
            && (Frees(history[n], tenantId) ==> tenantId !in b.locks)
  {
    RunNext(rootOf, ttl, history, n);
    FirstStays(rootOf, ttl, history[..n], history[n].tenantId);
  }

  predicate Frees(c: Action, tenantId: string) {
    c.Unlock? && c.tenantId == tenantId && c.redisUp
  }

  /** A tenant is reported once for each of its checks that computed another root or count than its
      first one did, and never otherwise. */
  lemma {:induction false} ReportsAreDeviations(rootOf: (seq<Entry>, string) -> StoredRoot, ttl: nat,
                                                history: seq<Action>, n: nat, tenantId: string)
    requires n <= |history|
    ensures multiset(Run(rootOf, ttl, history[..n]).violations)[tenantId] == Deviations(rootOf, history, n, tenantId)
  {
    if n > 0 {
      ReportsAreDeviations(rootOf, ttl, history, n - 1, tenantId);
      StepReports(rootOf, ttl, history, n - 1, tenantId);
    }
  }

  /** Check k deviates, could write the lock, and nobody has released the tenant between it and n. */
  ghost predicate HeldBy(rootOf: (seq<Entry>, string) -> StoredRoot, history: seq<Action>, k: nat, n: nat,
                         tenantId: string) {
    && k < n <= |history| && Deviates(rootOf, history, k, tenantId) && history[k].redisUp
    && forall j :: k < j < n ==> !Frees(history[j], tenantId)
  }

  /** The clock of the checks never goes back. */
  ghost predicate Clocked(history: seq<Action>) {
    forall i, j :: 0 <= i < j < |history| && history[i].Check? && history[j].Check? ==> history[i].now <= history[j].now
  }

  /** The stored lock, if any, is the one of the last deviating check since the last release. */
  lemma {:induction false} LockIsLastDeviation(rootOf: (seq<Entry>, string) -> StoredRoot, ttl: nat,
                                               history: seq<Action>, n: nat, tenantId: string)
    requires n <= |history| && Clocked(history)
    ensures var a := Run(rootOf, ttl, history[..n]);
            && (forall k: nat :: HeldBy(rootOf, history, k, n, tenantId) ==>
                  tenantId in a.locks && history[k].now + ttl <= a.locks[tenantId])
            && (tenantId in a.locks ==>
                  exists k: nat :: HeldBy(rootOf, history, k, n, tenantId) && a.locks[tenantId] == history[k].now + ttl)
  {
    if n > 0 {
      var a, b := Run(rootOf, ttl, history[..n - 1]), Run(rootOf, ttl, history[..n]);
      LockIsLastDeviation(rootOf, ttl, history, n - 1, tenantId);
      StepReports(rootOf, ttl, history, n - 1, tenantId);
      if Deviates(rootOf, history, n - 1, tenantId) && history[n - 1].redisUp {
        assert HeldBy(rootOf, history, n - 1, n, tenantId);
      } else if tenantId in b.locks {
        var k: nat :| HeldBy(rootOf, history, k, n - 1, tenantId) && a.locks[tenantId] == history[k].now + ttl;
        assert HeldBy(rootOf, history, k, n, tenantId);
      }
      forall k: nat | HeldBy(rootOf, history, k, n, tenantId)
        ensures tenantId in b.locks && history[k].now + ttl <= b.locks[tenantId]
      {
        if k < n - 1 {
          assert HeldBy(rootOf, history, k, n - 1, tenantId);
        }
      }
    }
  }

  /** A tenant's admins are locked at a reading if and only if one of its checks computed another root
      or count than its first check, could write the lock less than its lifetime ago, and nobody has
      released the lock since. */
  lemma LockedIffDeviation(rootOf: (seq<Entry>, string) -> StoredRoot, ttl: nat, history: seq<Action>,
                           tenantId: string, now: int)
    requires Clocked(history)
    ensures LockedAt(Run(rootOf, ttl, history), tenantId, now) <==>
              exists k: nat :: HeldBy(rootOf, history, k, |history|, tenantId) && now < history[k].now + ttl
  {
    var n := |history|;
    assert history[..n] == history;
    LockIsLastDeviation(rootOf, ttl, history, n, tenantId);
  }

  /** After any history a tenant has been reported if and only if one of its checks computed another
      root or count than its first check, and exactly once for each that did. */
  lemma ReportedIffDeviation(rootOf: (seq<Entry>, string) -> StoredRoot, ttl: nat, history: seq<Action>,
                             tenantId: string)
    ensures multiset(Run(rootOf, ttl, history).violations)[tenantId]
         == Deviations(rootOf, history, |history|, tenantId)
    ensures tenantId in Run(rootOf, ttl, history).violations <==>
              exists k: nat :: k < |history| && Deviates(rootOf, history, k, tenantId)
  {
    assert history[..|history|] == history;
    ReportsAreDeviations(rootOf, ttl, history, |history|, tenantId);
    DeviationsCount(rootOf, history, |history|, tenantId);
    assert tenantId in multiset(Run(rootOf, ttl, history).violations)
      <==> tenantId in Run(rootOf, ttl, history).violations;
  }

  lemma {:induction false} DeviationsCount(rootOf: (seq<Entry>, string) -> StoredRoot, history: seq<Action>, n: nat,
                                           tenantId: string)
    ensures Deviations(rootOf, history, n, tenantId) > 0
       <==> exists k: nat :: k < n && Deviates(rootOf, history, k, tenantId)
  {
    if n > 0 {
      DeviationsCount(rootOf, history, n - 1, tenantId);
    }
  }

  /** After any history of checks, one passes exactly when root and count are the first check's, and
      then the serialised entries are the first check's too, unless a collision can be read off. */
  lemma PassMeansUnchanged(h: Hash, history: seq<Action>, tenantId: string, log: seq<Entry>)
    requires FixedWidth(h) && FirstLog(history, tenantId).Some?
    ensures var a := Serials(TenantLog(FirstLog(history, tenantId).value, tenantId));
            var b := Serials(TenantLog(log, tenantId));
            var verdict := VerdictOn(h, RunChecks(h, history), log, tenantId);
            && (verdict == Verified <==> ChainHash(h, a) == ChainHash(h, b) && |a| == |b|)
            && (verdict == Verified ==> a == b || CollisionBetween(h, ChainInputs(h, a), ChainInputs(h, b)))
            && (a == b ==> verdict == Verified)
  {
    BaselineNeverMoves(h, history, tenantId);
    var a, b := Serials(TenantLog(FirstLog(history, tenantId).value, tenantId)), Serials(TenantLog(log, tenantId));
    if |a| == |b| && ChainHash(h, a) == ChainHash(h, b) {
      ChainBinds(h, a, b);
    }
  }

  /** The baseline never follows the log: a check of any other number of entries is a violation, honest growth
      included. */
  lemma GrowthIsFlagged(h: Hash, history: seq<Action>, tenantId: string, log: seq<Entry>)
    requires FirstLog(history, tenantId).Some?
    requires |TenantLog(log, tenantId)| != |TenantLog(FirstLog(history, tenantId).value, tenantId)|
    ensures VerdictOn(h, RunChecks(h, history), log, tenantId) == Violation
  {
    BaselineNeverMoves(h, history, tenantId);
  }

  lemma {:induction false} MatchingConcat(a: seq<Entry>, b: seq<Entry>, tenantId: string, cursor: int)
    ensures Matching(a + b, tenantId, cursor) == Matching(a, tenantId, cursor) + Matching(b, tenantId, cursor)
  {
    if a == [] {
      assert a + b == b;
    } else {
      assert (a + b)[1..] == a[1..] + b;
      MatchingConcat(a[1..], b, tenantId, cursor);
    }
  }

  /** On a log that is only ever appended to, a check passes if and only if nothing was appended for the tenant. */
  lemma AppendOnlyPassesIff(h: Hash, history: seq<Action>, tenantId: string, added: seq<Entry>)
    requires FirstLog(history, tenantId).Some?
    ensures var log := FirstLog(history, tenantId).value + added;
            VerdictOn(h, RunChecks(h, history), log, tenantId) == Verified <==> TenantLog(added, tenantId) == []
  {
    var first := FirstLog(history, tenantId).value;
    BaselineNeverMoves(h, history, tenantId);
    MatchingConcat(first, added, tenantId, 0);
    if TenantLog(added, tenantId) != [] {
      GrowthIsFlagged(h, history, tenantId, first + added);
    } else {
      assert TenantLog(first, tenantId) + [] == TenantLog(first, tenantId);
    }
  }

  // ---- What the serialised bytes do not tell apart ----

  /** The entry with the first character of its action moved to the end of its category. */
  function Shifted(e: Entry): Entry
    requires e.action != ""
  {
    e.(category := e.category + e.action[..1], action := e.action[1..])
  }

  /** Without separators a character can move between adjacent fields and leave the bytes as they are. */
  lemma ShiftKeepsSerial(e: Entry)
    requires e.action != ""
    ensures Shifted(e) != e && Serial(Shifted(e)) == Serial(e)
  {
    var front := IdText(e.id) + e.tenantId;
    assert e.action == e.action[..1] + e.action[1..];
    Regroup(front, e.category, e.action[..1]);
    Regroup(front + e.category, e.action[..1], e.action[1..]);
    assert |Shifted(e).action| < |e.action|;
  }

  lemma OneEntryLog(e: Entry)
    requires e.id > 0
    ensures TenantLog([e], e.tenantId) == [e] && Serials([e]) == [Serial(e)]
  {
    assert [e][1..] == [] && [e][..0] == [];
    assert Matching([e], e.tenantId, 0) == [e] + Matching([], e.tenantId, 0);
    assert Serials([e]) == Serials([]) + [Serial(e)];
  }

  /** So a changed entry passes the check against its own baseline. */
  lemma ShiftedEntryPasses(h: Hash, e: Entry, now: int, redisUp: bool)
    requires FixedWidth(h) && e.id > 0 && e.action != ""
    ensures VerdictOn(h, RunChecks(h, [Check(e.tenantId, [e], now, redisUp)]), [Shifted(e)], e.tenantId) == Verified
  {
    var history := [Check(e.tenantId, [e], now, redisUp)];
    ShiftKeepsSerial(e);
    OneEntryLog(e);
    OneEntryLog(Shifted(e));
    PassMeansUnchanged(h, history, e.tenantId, [Shifted(e)]);
  }

  predicate SameFieldLengths(a: Entry, b: Entry) {
    && |IdText(a.id)| == |IdText(b.id)| && |a.tenantId| == |b.tenantId| && |a.category| == |b.category|
    && |a.action| == |b.action| && |a.actor| == |b.actor| && |a.createdAt| == |b.createdAt|
  }

  lemma IdTextIsInjective(a: int, b: int)
    requires IdText(a) == IdText(b)
    ensures a == b
  {
    DecimalStartsWithDigit(if a < 0 then -a else a);
    DecimalStartsWithDigit(if b < 0 then -b else b);
    if a < 0 && b < 0 {
      SplitsEqually("-", Decimal(-a), "-", Decimal(-b));
      DecimalIsInjective(-a, -b);
    } else if a >= 0 && b >= 0 {
      DecimalIsInjective(a, b);
    }
  }

  /** Entries whose fields have the same lengths are told apart: equal bytes mean equal entries. */
  lemma SerialBindsEqualLengths(a: Entry, b: Entry)
    requires SameFieldLengths(a, b) && Serial(a) == Serial(b)
    ensures a == b
  {
    var a1, b1 := IdText(a.id) + a.tenantId, IdText(b.id) + b.tenantId;
    var a2, b2 := a1 + a.category, b1 + b.category;
    var a3, b3 := a2 + a.action, b2 + b.action;
    SplitsEqually(a3 + a.actor, a.createdAt, b3 + b.actor, b.createdAt);
    SplitsEqually(a3, a.actor, b3, b.actor);
    SplitsEqually(a2, a.action, b2, b.action);
    SplitsEqually(a1, a.category, b1, b.category);
    SplitsEqually(IdText(a.id), a.tenantId, IdText(b.id), b.tenantId);
    IdTextIsInjective(a.id, b.id);
  }

  // ---- Whose entries are hashed ----

  lemma {:induction false} MatchingIsExact(log: seq<Entry>, tenantId: string, cursor: int, e: Entry)
    ensures e in Matching(log, tenantId, cursor) <==> e in log && e.tenantId == tenantId && e.id > cursor
  {
    if log != [] {
      MatchingIsExact(log[1..], tenantId, cursor, e);
      assert log == [log[0]] + log[1..];
    }
  }

  lemma {:induction false} MatchingIsOrdered(log: seq<Entry>, tenantId: string, cursor: int)
    requires IdOrdered(log)
    ensures IdOrdered(Matching(log, tenantId, cursor))
  {
    if log != [] {
      var rest := Matching(log[1..], tenantId, cursor);
      MatchingIsOrdered(log[1..], tenantId, cursor);
      forall k | 0 <= k < |rest|
        ensures log[0].id < rest[k].id
      {
        MatchIsLater(log, tenantId, cursor, k);
      }
    }
  }

  /** A tenant's chain is over exactly its own entries with a positive id, in the order of their ids. */
  lemma TenantLogIsExact(log: seq<Entry>, tenantId: string)
    requires IdOrdered(log)
    ensures forall e :: e in TenantLog(log, tenantId) <==> e in log && e.tenantId == tenantId && e.id > 0
    ensures IdOrdered(TenantLog(log, tenantId))
  {
    forall e
      ensures e in TenantLog(log, tenantId) <==> e in log && e.tenantId == tenantId && e.id > 0
    {
      MatchingIsExact(log, tenantId, 0, e);
    }
    MatchingIsOrdered(log, tenantId, 0);
  }
}
