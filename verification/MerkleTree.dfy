/** The hash function as a value: nothing is assumed of it but the width of its hex digests. */
module Hashing {
  const DIGEST_WIDTH: nat := 64

  /** Bytes and hex digests are strings. */
  type Hash = string -> string

  /** What is known of SHA-256: every hex digest has 64 characters. */
  ghost predicate FixedWidth(h: Hash) {
    forall x :: |h(x)| == DIGEST_WIDTH
  }

  ghost predicate Digests(hashes: seq<string>) {
    forall i :: 0 <= i < |hashes| ==> |hashes[i]| == DIGEST_WIDTH
  }

  /** A collision between two inputs taken from two finite lists of strings that were really hashed. */
  ghost predicate CollisionBetween(h: Hash, xs: set<string>, ys: set<string>) {
    exists x, y :: x in xs && y in ys && x != y && h(x) == h(y)
  }
}

/** merkleRoot, hashFiles, verifyFile and verifyFiles of backend/services/ipfsHashService.js. */
module MerkleTree {
  import opened Hashing
  import opened Texts

  /** The parent of nodes 2i and 2i+1; an odd last node is paired with itself. */
  function Node(h: Hash, level: seq<string>, i: nat): string
    requires 2 * i < |level|
  {
    h(level[2 * i] + level[if 2 * i + 1 < |level| then 2 * i + 1 else 2 * i])
  }

  function NextLevel(h: Hash, level: seq<string>): (next: seq<string>)
    ensures |next| == (|level| + 1) / 2
    ensures forall i :: 0 <= i < |next| ==> next[i] == Node(h, level, i)
  {
    seq((|level| + 1) / 2, i requires 0 <= i < (|level| + 1) / 2 => Node(h, level, i))
  }

  function Pow2(d: nat): (p: nat)
    ensures p >= 1
  {
    if d == 0 then 1 else 2 * Pow2(d - 1)
  }

  /** The number of levels above n leaves. */
  function Depth(n: nat): (d: nat)
    requires n >= 1
    ensures n <= Pow2(d)
    ensures d == 0 <==> n == 1
  {
    if n == 1 then 0 else 1 + Depth((n + 1) / 2)
  }

  datatype Shape = Leaf(digest: string) | Branch(left: Shape, right: Shape)

  /** The hash at the top of a tree. */
  function HashOf(h: Hash, t: Shape): string {
    match t
    case Leaf(digest) => digest
    case Branch(l, r) => h(HashOf(h, l) + HashOf(h, r))
  }

  /** The first 2^(d-1) leaves. */
  function LeftHalf(leaves: seq<string>, d: nat): (r: seq<string>)
    requires d >= 1 && |leaves| >= 1
    ensures 1 <= |r| <= |leaves|
  {
    if |leaves| <= Pow2(d - 1) then leaves else leaves[..Pow2(d - 1)]
  }

  /** The remaining leaves, or a copy of the left half when there are none. */
  function RightHalf(leaves: seq<string>, d: nat): (r: seq<string>)
    requires d >= 1 && |leaves| >= 1
    ensures 1 <= |r| <= |leaves|
  {
    if |leaves| <= Pow2(d - 1) then leaves else leaves[Pow2(d - 1)..]
  }

  /** Top-down specification of the tree: the perfect tree of depth d over the leaves, whose missing
      right subtrees are copies of their left siblings. */
  function Perfect(leaves: seq<string>, d: nat): Shape
    requires |leaves| >= 1
    decreases d
  {
    if d == 0 then Leaf(leaves[0])
    else Branch(Perfect(LeftHalf(leaves, d), d - 1), Perfect(RightHalf(leaves, d), d - 1))
  }

  function Root(h: Hash, leaves: seq<string>): string {
    if leaves == [] then h("empty") else HashOf(h, Perfect(leaves, Depth(|leaves|)))
  }

  lemma NextLevelFront(h: Hash, level: seq<string>, k: nat)
    requires 2 * k <= |level|
    ensures NextLevel(h, level)[..k] == NextLevel(h, level[..2 * k])
  {
    var front, next := NextLevel(h, level[..2 * k]), NextLevel(h, level);
    forall i | 0 <= i < k
      ensures front[i] == next[i]
    {
      assert front[i] == Node(h, level[..2 * k], i);
    }
  }

  lemma NextLevelBack(h: Hash, level: seq<string>, k: nat)
    requires 2 * k <= |level|
    ensures NextLevel(h, level)[k..] == NextLevel(h, level[2 * k..])
  {
    var back, next := NextLevel(h, level[2 * k..]), NextLevel(h, level);
    forall i | 0 <= i < |back|
      ensures back[i] == next[k + i]
    {
      assert back[i] == Node(h, level[2 * k..], i);
    }
  }

  lemma NextLevelHalves(h: Hash, leaves: seq<string>, d: nat)
    requires d >= 1 && 1 <= |leaves| <= Pow2(d + 1)
    ensures LeftHalf(NextLevel(h, leaves), d) == NextLevel(h, LeftHalf(leaves, d + 1))
    ensures RightHalf(NextLevel(h, leaves), d) == NextLevel(h, RightHalf(leaves, d + 1))
  {
    assert Pow2(d) == 2 * Pow2(d - 1);
    if |leaves| > Pow2(d) {
      NextLevelFront(h, leaves, Pow2(d - 1));
      NextLevelBack(h, leaves, Pow2(d - 1));
    }
  }

  lemma PerfectOfOneOrTwo(leaves: seq<string>)
    requires 1 <= |leaves| <= 2
    ensures Perfect(leaves, 1) == Branch(Leaf(leaves[0]), Leaf(leaves[|leaves| - 1]))
  {
    assert LeftHalf(leaves, 1)[0] == leaves[0] && RightHalf(leaves, 1)[0] == leaves[|leaves| - 1];
  }

  lemma PerfectSplits(leaves: seq<string>, d: nat)
    requires |leaves| >= 1 && d >= 1
    ensures Perfect(leaves, d) == Branch(Perfect(LeftHalf(leaves, d), d - 1), Perfect(RightHalf(leaves, d), d - 1))
  {
  }

  /** The two halves of the next level are the next levels of the two halves. */
  lemma PerfectNextHalves(h: Hash, leaves: seq<string>, d: nat)
    requires d >= 2 && 1 <= |leaves| <= Pow2(d)
    ensures var l, r := NextLevel(h, LeftHalf(leaves, d)), NextLevel(h, RightHalf(leaves, d));
            Perfect(NextLevel(h, leaves), d - 1) == Branch(Perfect(l, d - 2), Perfect(r, d - 2))
  {
    NextLevelHalves(h, leaves, d - 1);
    PerfectSplits(NextLevel(h, leaves), d - 1);
  }

  lemma HalvesFit(leaves: seq<string>, d: nat)
    requires d >= 1 && 1 <= |leaves| <= Pow2(d)
    ensures |LeftHalf(leaves, d)| <= Pow2(d - 1) && |RightHalf(leaves, d)| <= Pow2(d - 1)
  {
  }

  /** The tree with its lowest branches hashed into leaves. */
  function Collapse(h: Hash, t: Shape): Shape {
    match t
    case Leaf(_) => t
    case Branch(l, r) =>
      if l.Leaf? && r.Leaf? then Leaf(h(l.digest + r.digest)) else Branch(Collapse(h, l), Collapse(h, r))
  }

  lemma SameBranch(h: Hash, a: Shape, b: Shape, a': Shape, b': Shape)
    requires HashOf(h, a) == HashOf(h, a') && HashOf(h, b) == HashOf(h, b')
    ensures HashOf(h, Branch(a, b)) == HashOf(h, Branch(a', b'))
  {
  }

  lemma {:induction false} CollapseKeepsHash(h: Hash, t: Shape)
    ensures HashOf(h, Collapse(h, t)) == HashOf(h, t)
  {
    if t.Branch? && !(t.left.Leaf? && t.right.Leaf?) {
      CollapseKeepsHash(h, t.left);
      CollapseKeepsHash(h, t.right);
      SameBranch(h, Collapse(h, t.left), Collapse(h, t.right), t.left, t.right);
    }
  }

  lemma NextLevelIsPair(h: Hash, leaves: seq<string>)
    requires 1 <= |leaves| <= 2
    ensures NextLevel(h, leaves) == [h(leaves[0] + leaves[|leaves| - 1])]
  {
    var next := NextLevel(h, leaves);
    assert next[0] == Node(h, leaves, 0);
  }

  lemma CollapsePair(h: Hash, x: string, y: string)
    ensures Collapse(h, Branch(Leaf(x), Leaf(y))) == Perfect([h(x + y)], 0)
  {
  }

  lemma NextOfOneOrTwo(h: Hash, leaves: seq<string>)
    requires 1 <= |leaves| <= 2
    ensures Perfect(NextLevel(h, leaves), 0) == Collapse(h, Perfect(leaves, 1))
  {
    PerfectOfOneOrTwo(leaves);
    NextLevelIsPair(h, leaves);
    CollapsePair(h, leaves[0], leaves[|leaves| - 1]);
  }

  lemma CollapseBranch(h: Hash, leaves: seq<string>, d: nat)
    requires |leaves| >= 1 && d >= 2
    ensures Collapse(h, Perfect(leaves, d)) ==
              Branch(Collapse(h, Perfect(LeftHalf(leaves, d), d - 1)),
                     Collapse(h, Perfect(RightHalf(leaves, d), d - 1)))
  {
    PerfectSplits(LeftHalf(leaves, d), d - 1);
  }

  /** The perfect tree over the next level is the perfect tree with its lowest branches hashed away. */
  ghost predicate Collapses(h: Hash, leaves: seq<string>, d: nat) {
    |leaves| >= 1 && d >= 1 && Perfect(NextLevel(h, leaves), d - 1) == Collapse(h, Perfect(leaves, d))
  }

  lemma HalvesCollapse(h: Hash, leaves: seq<string>, d: nat)
    requires d >= 2 && 1 <= |leaves| <= Pow2(d)
    requires Collapses(h, LeftHalf(leaves, d), d - 1) && Collapses(h, RightHalf(leaves, d), d - 1)
    ensures Collapses(h, leaves, d)
  {
    PerfectNextHalves(h, leaves, d);
    CollapseBranch(h, leaves, d);
  }

  /** If a property of lists passes from both halves to the whole, and holds of one or two leaves, it
      holds of every list. */
  ghost predicate PassesFromHalves(p: (seq<string>, nat) -> bool) {
    forall xs, d: nat {:trigger p(xs, d), LeftHalf(xs, d)} ::
      d >= 2 && 1 <= |xs| <= Pow2(d) && p(LeftHalf(xs, d), d - 1) && p(RightHalf(xs, d), d - 1) ==> p(xs, d)
  }

  lemma {:induction false} ByHalves(p: (seq<string>, nat) -> bool, leaves: seq<string>, d: nat)
    requires d >= 1 && 1 <= |leaves| <= Pow2(d)
    requires (forall xs :: 1 <= |xs| <= 2 ==> p(xs, 1)) && PassesFromHalves(p)
    ensures p(leaves, d)
    decreases d
  {
    if d >= 2 {
      HalvesFit(leaves, d);
      ByHalves(p, LeftHalf(leaves, d), d - 1);
      ByHalves(p, RightHalf(leaves, d), d - 1);
    }
  }

  lemma NextLevelCollapses(h: Hash, leaves: seq<string>, d: nat)
    requires d >= 1 && 1 <= |leaves| <= Pow2(d)
    ensures Collapses(h, leaves, d)
  {
    var p := (xs: seq<string>, k: nat) => Collapses(h, xs, k);
    forall xs | 1 <= |xs| <= 2
      ensures p(xs, 1)
    {
      NextOfOneOrTwo(h, xs);
    }
    CollapsesPassesFromHalves(h, p);
    ByHalves(p, leaves, d);
  }

  lemma CollapsesPassesFromHalves(h: Hash, p: (seq<string>, nat) -> bool)
    requires forall xs, k :: p(xs, k) <==> Collapses(h, xs, k)
    ensures PassesFromHalves(p)
  {
    forall xs, d: nat | d >= 2 && 1 <= |xs| <= Pow2(d) && p(LeftHalf(xs, d), d - 1) && p(RightHalf(xs, d), d - 1)
      ensures p(xs, d)
    {
      OnePasses(h, p, xs, d);
    }
  }

  lemma OnePasses(h: Hash, p: (seq<string>, nat) -> bool, xs: seq<string>, d: nat)
    requires d >= 2 && 1 <= |xs| <= Pow2(d) && p(LeftHalf(xs, d), d - 1) && p(RightHalf(xs, d), d - 1)
    requires p(LeftHalf(xs, d), d - 1) <==> Collapses(h, LeftHalf(xs, d), d - 1)
    requires p(RightHalf(xs, d), d - 1) <==> Collapses(h, RightHalf(xs, d), d - 1)
    requires p(xs, d) <==> Collapses(h, xs, d)
    ensures p(xs, d)
  {
    HalvesCollapse(h, xs, d);
  }

  /** Hashing one level away lowers the depth by one and keeps the top. */
  lemma NextLevelKeepsTree(h: Hash, leaves: seq<string>, d: nat)
    requires d >= 1 && 1 <= |leaves| <= Pow2(d)
    ensures HashOf(h, Perfect(NextLevel(h, leaves), d - 1)) == HashOf(h, Perfect(leaves, d))
  {
    NextLevelCollapses(h, leaves, d);
    CollapseKeepsHash(h, Perfect(leaves, d));
  }

  lemma NextLevelKeepsRoot(h: Hash, level: seq<string>)
    requires |level| >= 2
    ensures Root(h, NextLevel(h, level)) == Root(h, level)
  {
    NextLevelKeepsTree(h, level, Depth(|level|));
  }

  method BuildNextLevel(h: Hash, level: seq<string>) returns (next: seq<string>)
    ensures next == NextLevel(h, level)
  {
    next := [];
    var i := 0;
    while i < |level|
      invariant i == 2 * |next| <= |level| + 1
      invariant forall k :: 0 <= k < |next| ==> next[k] == Node(h, level, k)
    {
      var left := level[i];
      var right := if i + 1 < |level| then level[i + 1] else left;
      next := next + [h(left + right)];
      i := i + 2;
    }
  }

  /** The level-by-level loop computes the top-down tree, for every leaf list. */
  method MerkleRoot(h: Hash, leaves: seq<string>) returns (root: string)
    ensures root == Root(h, leaves)
  {
    if |leaves| == 0 {
      return h("empty");
    }
    if |leaves| == 1 {
      return leaves[0];
    }
    var level := leaves;
    while |level| > 1
      invariant |level| >= 1
      invariant Root(h, level) == Root(h, leaves)
      decreases |level|
    {
      NextLevelKeepsRoot(h, level);
      level := BuildNextLevel(h, level);
    }
    return level[0];
  }

  // ---- Binding ----

  /** Every string hashed while the top hash is computed. */
  function Inputs(h: Hash, t: Shape): set<string> {
    match t
    case Leaf(_) => {}
    case Branch(l, r) => {HashOf(h, l) + HashOf(h, r)} + Inputs(h, l) + Inputs(h, r)
  }

  predicate SameShape(t: Shape, u: Shape) {
    match (t, u)
    case (Leaf(_), Leaf(_)) => true
    case (Branch(l, r), Branch(l', r')) => SameShape(l, l') && SameShape(r, r')
    case _ => false
  }

  predicate DigestLeaves(t: Shape) {
    match t
    case Leaf(digest) => |digest| == DIGEST_WIDTH
    case Branch(l, r) => DigestLeaves(l) && DigestLeaves(r)
  }

  function Row(t: Shape): seq<string> {
    match t
    case Leaf(digest) => [digest]
    case Branch(l, r) => Row(l) + Row(r)
  }

  lemma CollisionWidens(h: Hash, xs: set<string>, ys: set<string>, xs': set<string>, ys': set<string>)
    requires CollisionBetween(h, xs, ys) && xs <= xs' && ys <= ys'
    ensures CollisionBetween(h, xs', ys')
  {
  }

  /** Two trees of one shape with the same top hash are equal, or two different strings that were
      hashed on the way collide. */
  lemma {:induction false} TreeBinds(h: Hash, t: Shape, u: Shape)
    requires FixedWidth(h) && SameShape(t, u) && DigestLeaves(t) && DigestLeaves(u)
    requires HashOf(h, t) == HashOf(h, u)
    ensures t == u || CollisionBetween(h, Inputs(h, t), Inputs(h, u))
  {
    if t.Branch? {
      var x, y := HashOf(h, t.left) + HashOf(h, t.right), HashOf(h, u.left) + HashOf(h, u.right);
      if x == y {
        SplitsEqually(HashOf(h, t.left), HashOf(h, t.right), HashOf(h, u.left), HashOf(h, u.right));
        TreeBinds(h, t.left, u.left);
        TreeBinds(h, t.right, u.right);
        if t.left != u.left {
          CollisionWidens(h, Inputs(h, t.left), Inputs(h, u.left), Inputs(h, t), Inputs(h, u));
        } else if t.right != u.right {
          CollisionWidens(h, Inputs(h, t.right), Inputs(h, u.right), Inputs(h, t), Inputs(h, u));
        }
      } else {
        assert x in Inputs(h, t) && y in Inputs(h, u) && h(x) == h(y);
      }
    }
  }

  /** The leaves are the start of the perfect tree's row, and its shape depends on the depth only. */
  lemma PrefixOfConcat(leaves: seq<string>, k: nat, left: seq<string>, right: seq<string>)
    requires k <= |leaves| && leaves[..k] == left && leaves[k..] <= right
    ensures leaves <= left + right
  {
    assert leaves == leaves[..k] + leaves[k..];
  }

  lemma {:induction false} PerfectRow(leaves: seq<string>, d: nat)
    requires 1 <= |leaves| <= Pow2(d)
    ensures |Row(Perfect(leaves, d))| == Pow2(d) && leaves <= Row(Perfect(leaves, d))
  {
    if d > 0 {
      var l, r := LeftHalf(leaves, d), RightHalf(leaves, d);
      PerfectRow(l, d - 1);
      PerfectRow(r, d - 1);
      var left, right := Row(Perfect(l, d - 1)), Row(Perfect(r, d - 1));
      if |leaves| > Pow2(d - 1) {
        SamePrefix(l, left, left);
        PrefixOfConcat(leaves, Pow2(d - 1), left, right);
      } else {
        assert leaves <= left + right;
      }
    }
  }

  lemma {:induction false} PerfectDigests(leaves: seq<string>, d: nat)
    requires 1 <= |leaves| <= Pow2(d) && Digests(leaves)
    ensures DigestLeaves(Perfect(leaves, d))
  {
    if d > 0 {
      PerfectDigests(LeftHalf(leaves, d), d - 1);
      PerfectDigests(RightHalf(leaves, d), d - 1);
    }
  }

  lemma {:induction false} PerfectShape(a: seq<string>, b: seq<string>, d: nat)
    requires 1 <= |a| <= Pow2(d) && 1 <= |b| <= Pow2(d)
    ensures SameShape(Perfect(a, d), Perfect(b, d))
  {
    if d > 0 {
      PerfectShape(LeftHalf(a, d), LeftHalf(b, d), d - 1);
      PerfectShape(RightHalf(a, d), RightHalf(b, d), d - 1);
    }
  }

  function RootInputs(h: Hash, leaves: seq<string>): set<string> {
    if leaves == [] then {"empty"} else Inputs(h, Perfect(leaves, Depth(|leaves|)))
  }

  /** Two lists of equally many digests with the same root are equal, or exhibit a collision. */
  lemma RootBinds(h: Hash, a: seq<string>, b: seq<string>)
    requires FixedWidth(h) && |a| == |b| && Digests(a) && Digests(b) && Root(h, a) == Root(h, b)
    ensures a == b || CollisionBetween(h, RootInputs(h, a), RootInputs(h, b))
  {
    if a != [] {
      var d := Depth(|a|);
      PerfectRow(a, d);
      PerfectRow(b, d);
      PerfectDigests(a, d);
      PerfectDigests(b, d);
      PerfectShape(a, b, d);
      TreeBinds(h, Perfect(a, d), Perfect(b, d));
      if Perfect(a, d) == Perfect(b, d) {
        SamePrefix(a, b, Row(Perfect(a, d)));
      }
    }
  }

  // ---- Which other lists share a root ----

  /** The leaves of the perfect tree, copies included: again a list whose perfect tree it is. */
  lemma {:induction false} PerfectOfRow(leaves: seq<string>, d: nat)
    requires 1 <= |leaves| <= Pow2(d)
    ensures |Row(Perfect(leaves, d))| == Pow2(d) && Perfect(Row(Perfect(leaves, d)), d) == Perfect(leaves, d)
  {
    PerfectRow(leaves, d);
    if d > 0 {
      var l, r := Perfect(LeftHalf(leaves, d), d - 1), Perfect(RightHalf(leaves, d), d - 1);
      PerfectOfRow(LeftHalf(leaves, d), d - 1);
      PerfectOfRow(RightHalf(leaves, d), d - 1);
      RowHalves(Row(l), Row(r), d);
    }
  }

  lemma RowHalves(left: seq<string>, right: seq<string>, d: nat)
    requires d >= 1 && |left| == |right| == Pow2(d - 1)
    ensures LeftHalf(left + right, d) == left && RightHalf(left + right, d) == right
  {
  }

  lemma {:induction false} DepthOfPower(d: nat)
    ensures Depth(Pow2(d)) == d
  {
    if d > 0 {
      DepthOfPower(d - 1);
    }
  }

  /** The equal-count condition of RootBinds is needed: every list has the root of its perfect tree's
      row, which is a longer list exactly when the number of leaves is not a power of two. */
  lemma RowSharesRoot(h: Hash, leaves: seq<string>)
    requires |leaves| >= 1
    ensures var row := Row(Perfect(leaves, Depth(|leaves|)));
            && Root(h, row) == Root(h, leaves) && leaves <= row
            && (row == leaves <==> exists k: nat :: |leaves| == Pow2(k))
  {
    var d := Depth(|leaves|);
    var row := Row(Perfect(leaves, d));
    PerfectRow(leaves, d);
    PerfectOfRow(leaves, d);
    DepthOfPower(d);
    if k: nat :| |leaves| == Pow2(k) {
      DepthOfPower(k);
      assert leaves == row;
    }
  }

  lemma SamePrefix(a: seq<string>, b: seq<string>, row: seq<string>)
    requires |a| == |b| && a <= row && b <= row
    ensures a == b
  {
    assert a == row[..|a|] && b == row[..|b|];
  }

  /** Repeating the last leaf of an odd row changes nothing one level up. */
  lemma NextLevelOfOdd(h: Hash, leaves: seq<string>)
    requires |leaves| % 2 == 1
    ensures NextLevel(h, leaves) == NextLevel(h, leaves + [leaves[|leaves| - 1]])
  {
    var longer := leaves + [leaves[|leaves| - 1]];
    assert forall i :: 0 <= i < (|leaves| + 1) / 2 ==> Node(h, leaves, i) == Node(h, longer, i);
  }

  /** The equal-count condition is needed: an odd list of three or more leaves and the same list with
      its last leaf repeated have the same root. */
  lemma OddListSharesRoot(h: Hash, leaves: seq<string>)
    requires |leaves| >= 3 && |leaves| % 2 == 1
    ensures Root(h, leaves) == Root(h, leaves + [leaves[|leaves| - 1]])
  {
    var longer := leaves + [leaves[|leaves| - 1]];
    NextLevelOfOdd(h, leaves);
    NextLevelKeepsRoot(h, leaves);
    NextLevelKeepsRoot(h, longer);
  }

  // ---- Files against stored hashes ----

  datatype Verification = Verification(valid: bool, fileResults: seq<bool>, rootMatch: bool)

  function VerifyFile(h: Hash, buffer: string, storedHash: string): bool {
    h(buffer) == storedHash
  }

  function HashAll(h: Hash, buffers: seq<string>): (r: seq<string>)
    ensures |r| == |buffers| && (forall i :: 0 <= i < |r| ==> r[i] == h(buffers[i]))
  {
    seq(|buffers|, i requires 0 <= i < |buffers| => h(buffers[i]))
  }

  method HashFiles(h: Hash, buffers: seq<string>) returns (hashes: seq<string>, root: string)
    ensures hashes == HashAll(h, buffers) && root == Root(h, hashes)
  {
    hashes := HashAll(h, buffers);
    root := MerkleRoot(h, hashes);
  }

  /** The list verifyFiles hashes again: a file that fails its check counts as "invalid". */
  function Checked(h: Hash, buffers: seq<string>, storedHashes: seq<string>): (r: seq<string>)
    requires |buffers| == |storedHashes|
    ensures |r| == |storedHashes|
  {
    seq(|buffers|, i requires 0 <= i < |buffers| =>
        if VerifyFile(h, buffers[i], storedHashes[i]) then storedHashes[i] else "invalid")
  }

  /** With stored hashes of the digest's length the list differs from them exactly at the files that fail. */
  lemma CheckedMarksFailures(h: Hash, buffers: seq<string>, storedHashes: seq<string>, i: nat)
    requires |buffers| == |storedHashes| && i < |buffers| && |storedHashes[i]| == 64
    ensures Checked(h, buffers, storedHashes)[i] == storedHashes[i] <==> h(buffers[i]) == storedHashes[i]
  {
  }

  lemma AllChecked(h: Hash, buffers: seq<string>, storedHashes: seq<string>)
    requires |buffers| == |storedHashes| && forall i :: 0 <= i < |buffers| ==> h(buffers[i]) == storedHashes[i]
    ensures Checked(h, buffers, storedHashes) == storedHashes == HashAll(h, buffers)
  {
    assert HashAll(h, buffers) == storedHashes;
    assert Checked(h, buffers, storedHashes) == storedHashes;
  }

  /** valid exactly when there are as many files as hashes, every file hashes to its stored hash, and
      the root of the stored hashes is the stored root. */
  method VerifyFiles(h: Hash, buffers: seq<string>, storedHashes: seq<string>, storedRoot: string)
    returns (r: Verification)
    ensures r.valid <==> storedHashes == HashAll(h, buffers) && Root(h, storedHashes) == storedRoot
    ensures |buffers| == |storedHashes| ==>
              && |r.fileResults| == |buffers|
              && (forall i :: 0 <= i < |buffers| ==> r.fileResults[i] == (h(buffers[i]) == storedHashes[i]))
              && r.rootMatch == (Root(h, Checked(h, buffers, storedHashes)) == storedRoot)
    ensures |buffers| != |storedHashes| ==> r == Verification(false, [], false)
  {
    if |buffers| != |storedHashes| {
      return Verification(false, [], false);
    }
    var fileResults := seq(|buffers|, i requires 0 <= i < |buffers| => VerifyFile(h, buffers[i], storedHashes[i]));
    var recomputed := MerkleRoot(h, Checked(h, buffers, storedHashes));
    var all := forall i :: 0 <= i < |fileResults| ==> fileResults[i];
    assert forall i :: 0 <= i < |buffers| ==> fileResults[i] == (h(buffers[i]) == storedHashes[i]);
    if all {
      assert forall i :: 0 <= i < |buffers| ==> fileResults[i] && h(buffers[i]) == storedHashes[i];
      AllChecked(h, buffers, storedHashes);
    }
    r := Verification(all && recomputed == storedRoot, fileResults, recomputed == storedRoot);
  }

  lemma SameHashesBind(h: Hash, a: seq<string>, b: seq<string>)
    requires HashAll(h, a) == HashAll(h, b)
    ensures a == b || CollisionBetween(h, set x | x in a, set x | x in b)
  {
    assert |HashAll(h, a)| == |a| && |HashAll(h, b)| == |b|;
    if a != b {
      var i :| 0 <= i < |a| && a[i] != b[i];
      assert h(a[i]) == HashAll(h, a)[i] == HashAll(h, b)[i] == h(b[i]);
    }
  }

  /** End to end: whoever presents as many files as were hashed and passes verifyFiles against the
      original root has presented the original files, or a collision can be read off. */
  lemma VerifiedFilesAreOriginal(h: Hash, original: seq<string>, presented: seq<string>)
    requires FixedWidth(h) && |original| == |presented|
    requires Root(h, HashAll(h, presented)) == Root(h, HashAll(h, original))
    ensures || presented == original
            || CollisionBetween(h, set x | x in presented, set x | x in original)
            || CollisionBetween(h, RootInputs(h, HashAll(h, presented)), RootInputs(h, HashAll(h, original)))
  {
    RootBinds(h, HashAll(h, presented), HashAll(h, original));
    if HashAll(h, presented) == HashAll(h, original) {
      SameHashesBind(h, presented, original);
    }
  }
}
