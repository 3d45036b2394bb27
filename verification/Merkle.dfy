/** The Merkle tree of a block (BuildMerkleTree, GetMerkleBranch, CheckMerkleBranch, src/main.h). The
    hash of a pair is an arbitrary function; a lemma says where it must be injective. */
module Merkle {
  import opened Basics
  import opened Transactions

  type PairHash = (Hash, Hash) -> Hash

  ghost predicate Injective(f: PairHash) { forall a, b, c, d :: f(a, b) == f(c, d) ==> a == c && b == d }

  // ------------------------------------------------------------------------------------------
  // The tree, level by level
  // ------------------------------------------------------------------------------------------

  /** Node k of the level above: the last node of an odd level is paired with itself. */
  function Node(f: PairHash, level: seq<Hash>, k: nat): Hash
    requires 2 * k < |level|
  {
    f(level[2 * k], level[Min(2 * k + 1, |level| - 1)])
  }

  function NodesUpTo(f: PairHash, level: seq<Hash>, k: nat): (s: seq<Hash>)
    requires 2 * k <= |level| + 1
    ensures |s| == k && forall i :: 0 <= i < k ==> s[i] == Node(f, level, i)
  {
    if k == 0 then [] else NodesUpTo(f, level, k - 1) + [Node(f, level, k - 1)]
  }

  function Above(f: PairHash, level: seq<Hash>): (s: seq<Hash>)
    ensures |s| == (|level| + 1) / 2 && forall i :: 0 <= i < |s| ==> s[i] == Node(f, level, i)
  {
    NodesUpTo(f, level, (|level| + 1) / 2)
  }

  function Root(f: PairHash, level: seq<Hash>): Hash
    decreases |level|
  {
    if level == [] then 0 else if |level| == 1 then level[0] else Root(f, Above(f, level))
  }

  /** All levels, one after the other: the array vMerkleTree. */
  function Flat(f: PairHash, level: seq<Hash>): (s: seq<Hash>)
    ensures |s| >= |level|
    decreases |level|
  {
    if |level| <= 1 then level else level + Flat(f, Above(f, level))
  }

  function Depth(n: nat): nat { if n <= 1 then 0 else 1 + Depth((n + 1) / 2) }

  lemma {:induction false} FlatEndsInRoot(f: PairHash, level: seq<Hash>)
    requires level != []
    ensures var t := Flat(f, level); t[|t| - 1] == Root(f, level)
    decreases |level|
  {
    if |level| > 1 { FlatEndsInRoot(f, Above(f, level)); }
  }

  /** BuildMerkleTree fills one array and pairs within it. */
  method BuildMerkleTree(f: PairHash, leaves: seq<Hash>) returns (root: Hash, vMerkleTree: seq<Hash>)
    ensures root == Root(f, leaves) && vMerkleTree == Flat(f, leaves)
  {
    hide Above;
    vMerkleTree := leaves;
    var j, nSize := 0, |leaves|;
    ghost var level := leaves;
    assert leaves[0..] == leaves && leaves[..0] + Flat(f, leaves) == Flat(f, leaves);
    while nSize > 1
      invariant 0 <= j && |vMerkleTree| == j + nSize && |level| == nSize && vMerkleTree[j..] == level
      invariant Flat(f, leaves) == vMerkleTree[..j] + Flat(f, level)
      decreases nSize
    {
      ghost var (tree, up) := (vMerkleTree, Above(f, level));
      vMerkleTree := BuildLevel(f, vMerkleTree, j, nSize, level);
      Appended(f, leaves, level, tree, j);
      level := up;
      j := j + nSize;
      nSize := (nSize + 1) / 2;
    }
    assert Flat(f, level) == level && (leaves == [] ==> Flat(f, leaves) == []);
    assert leaves == [] ==> Root(f, leaves) == 0;
    assert vMerkleTree == vMerkleTree[..j] + vMerkleTree[j..];
    if leaves != [] { FlatEndsInRoot(f, leaves); }
    root := if vMerkleTree == [] then 0 else vMerkleTree[|vMerkleTree| - 1];
  }

  lemma {:induction false} Appended(f: PairHash, leaves: seq<Hash>, level: seq<Hash>, tree: seq<Hash>, j: nat)
    requires |level| > 1 && j + |level| == |tree| && tree[j..] == level && Flat(f, leaves) == tree[..j] + Flat(f, level)
    ensures var tree' := tree + Above(f, level);
      tree'[|tree|..] == Above(f, level) && Flat(f, leaves) == tree'[..|tree|] + Flat(f, Above(f, level))
  {
    assert Flat(f, level) == level + Flat(f, Above(f, level));
    hide *;
    GrownArray(tree, j, level, Above(f, level), Flat(f, Above(f, level)));
  }

  lemma {:induction false} GrownArray(tree: seq<Hash>, j: nat, level: seq<Hash>, up: seq<Hash>, rest: seq<Hash>)
    requires j + |level| == |tree| && tree[j..] == level
    ensures (tree + up)[|tree|..] == up && tree[..j] + (level + rest) == (tree + up)[..|tree|] + rest
  {
    assert (tree + up)[..|tree|] == tree == tree[..j] + level;
  }

  method BuildLevel(f: PairHash, tree: seq<Hash>, j: nat, nSize: nat, ghost level: seq<Hash>)
    returns (vMerkleTree: seq<Hash>)
    requires j + nSize == |tree| && nSize > 1 && tree[j..] == level
    ensures vMerkleTree == tree + Above(f, level)
  {
    vMerkleTree := tree;
    var i := 0;
    while i < nSize
      invariant i % 2 == 0 && i <= nSize + 1
      invariant vMerkleTree == tree + NodesUpTo(f, level, i / 2)
    {
      var i2 := Min(i + 1, nSize - 1);
      assert tree[j + i] == level[2 * (i / 2)] && tree[j + i2] == level[i2];
      vMerkleTree := vMerkleTree + [f(vMerkleTree[j + i], vMerkleTree[j + i2])];
      i := i + 2;
    }
  }

  // ------------------------------------------------------------------------------------------
  // Branches
  // ------------------------------------------------------------------------------------------

  function Xor1(n: nat): int { if n % 2 == 0 then n + 1 else n - 1 }

  /** The siblings on the way from leaf i to the root. */
  function BranchOf(f: PairHash, level: seq<Hash>, i: nat): seq<Hash>
    requires i < |level|
    decreases |level|
  {
    if |level| <= 1 then [] else [level[Min(Xor1(i), |level| - 1)]] + BranchOf(f, Above(f, level), i / 2)
  }

  /** What CheckMerkleBranch computes. */
  function Fold(f: PairHash, hash: Hash, branch: seq<Hash>, i: nat): Hash
    decreases |branch|
  {
    if branch == [] then hash
    else Fold(f, if i % 2 == 1 then f(branch[0], hash) else f(hash, branch[0]), branch[1..], i / 2)
  }

  lemma {:induction false} LevelAt(tree: seq<Hash>, j: nat, level: seq<Hash>, rest: seq<Hash>, i: nat)
    requires j <= |tree| && tree[j..] == level + rest && i < |level|
    ensures j + |level| <= |tree| && tree[j + i] == level[i] && tree[j + |level|..] == rest
  {
    assert tree[j..][i] == level[i] && tree[j..][|level|..] == rest;
    assert tree[j..][|level|..] == tree[j + |level|..];
  }

  method GetMerkleBranch(f: PairHash, leaves: seq<Hash>, vMerkleTree: seq<Hash>, nIndex0: nat)
    returns (vMerkleBranch: seq<Hash>)
    requires vMerkleTree == Flat(f, leaves) && nIndex0 < |leaves|
    ensures vMerkleBranch == BranchOf(f, leaves, nIndex0)
  {
    hide Flat, Above;
    vMerkleBranch := [];
    var j: nat, nSize: nat, nIndex: nat := 0, |leaves|, nIndex0;
    ghost var level := leaves;
    assert vMerkleTree[0..] == vMerkleTree && [] + BranchOf(f, leaves, nIndex0) == BranchOf(f, leaves, nIndex0);
    while nSize > 1
      invariant |level| == nSize && j <= |vMerkleTree| && vMerkleTree[j..] == Flat(f, level) && nIndex < nSize
      invariant BranchOf(f, leaves, nIndex0) == vMerkleBranch + BranchOf(f, level, nIndex)
      decreases nSize
    {
      var i := Min(Xor1(nIndex), nSize - 1);
      BranchStep(f, level, nIndex);
      assert vMerkleTree[j..] == level + Flat(f, Above(f, level));
      LevelAt(vMerkleTree, j, level, Flat(f, Above(f, level)), i);
      assert vMerkleBranch + ([level[i]] + BranchOf(f, Above(f, level), nIndex / 2)) ==
             (vMerkleBranch + [level[i]]) + BranchOf(f, Above(f, level), nIndex / 2);
      vMerkleBranch := vMerkleBranch + [vMerkleTree[j + i]];
      nIndex := nIndex / 2;
      j := j + nSize;
      level := Above(f, level);
      nSize := (nSize + 1) / 2;
    }
    assert BranchOf(f, level, nIndex) == [];
  }

  lemma {:induction false} BranchStep(f: PairHash, level: seq<Hash>, i: nat)
    requires i < |level| && |level| > 1
    ensures Flat(f, level) == level + Flat(f, Above(f, level))
    ensures i / 2 < |Above(f, level)|
    ensures BranchOf(f, level, i) == [level[Min(Xor1(i), |level| - 1)]] + BranchOf(f, Above(f, level), i / 2)
  {
  }

  /** The index -1 stands for "in no block". */
  method CheckMerkleBranch(f: PairHash, hash0: Hash, vMerkleBranch: seq<Hash>, nIndex0: int) returns (hash: Hash)
    requires nIndex0 >= -1
    ensures hash == if nIndex0 == -1 then 0 else Fold(f, hash0, vMerkleBranch, nIndex0)
  {
    if nIndex0 == -1 { return 0; }
    hash := hash0;
    var nIndex := nIndex0;
    for k := 0 to |vMerkleBranch|
      invariant nIndex >= 0 && Fold(f, hash, vMerkleBranch[k..], nIndex) == Fold(f, hash0, vMerkleBranch, nIndex0)
    {
      var otherside := vMerkleBranch[k];
      hash := if nIndex % 2 == 1 then f(otherside, hash) else f(hash, otherside);
      assert vMerkleBranch[k..][1..] == vMerkleBranch[k + 1..];
      nIndex := nIndex / 2;
    }
  }

  /** The pair on the path is a node of the level above, whichever side the leaf is on. */
  lemma {:induction false} PairIsNode(f: PairHash, level: seq<Hash>, i: nat)
    requires i < |level| && |level| > 1
    ensures var other := level[Min(Xor1(i), |level| - 1)];
      Above(f, level)[i / 2] == if i % 2 == 1 then f(other, level[i]) else f(level[i], other)
  {
  }

  /** The branch of every leaf leads to the root. */
  lemma {:induction false} BranchLeadsToRoot(f: PairHash, level: seq<Hash>, i: nat)
    requires i < |level|
    ensures Fold(f, level[i], BranchOf(f, level, i), i) == Root(f, level) && |BranchOf(f, level, i)| == Depth(|level|)
    decreases |level|
  {
    if |level| > 1 {
      PairIsNode(f, level, i);
      BranchLeadsToRoot(f, Above(f, level), i / 2);
      var b := BranchOf(f, level, i);
      assert b[1..] == BranchOf(f, Above(f, level), i / 2);
    }
  }

  /** A branch of the right length that leads to the root proves its leaf: with an injective pair hash
      only leaf i itself, with its own siblings, is accepted at place i. */
  lemma {:induction false} OnlyOwnBranch(f: PairHash, level: seq<Hash>, i: nat, hash: Hash, branch: seq<Hash>)
    requires Injective(f) && i < |level| && |branch| == Depth(|level|)
    ensures Fold(f, hash, branch, i) == Root(f, level) <==> hash == level[i] && branch == BranchOf(f, level, i)
    decreases |level|
  {
    if |level| > 1 {
      var up := if i % 2 == 1 then f(branch[0], hash) else f(hash, branch[0]);
      var other := level[Min(Xor1(i), |level| - 1)];
      PairIsNode(f, level, i);
      OnlyOwnBranch(f, Above(f, level), i / 2, up, branch[1..]);
      assert up == Above(f, level)[i / 2] <==> hash == level[i] && branch[0] == other;
      assert branch == [branch[0]] + branch[1..];
      assert BranchOf(f, level, i)[1..] == BranchOf(f, Above(f, level), i / 2);
    }
  }

  // ------------------------------------------------------------------------------------------
  // What the root determines
  // ------------------------------------------------------------------------------------------

  lemma {:induction false} AboveDistinct(f: PairHash, level: seq<Hash>)
    requires Injective(f) && Distinct(level)
    ensures Distinct(Above(f, level))
  {
    var up := Above(f, level);
    forall i, j | 0 <= i < j < |up| ensures up[i] != up[j] {
      assert level[2 * i] != level[2 * j];
      assert up[i] == Node(f, level, i) && up[j] == Node(f, level, j);
    }
  }

  /** A level without duplicates is determined by the level above it. */
  lemma {:induction false} AboveDetermines(f: PairHash, a: seq<Hash>, b: seq<Hash>)
    requires Injective(f) && Distinct(a) && Distinct(b) && |a| > 1 && |b| > 1 && Above(f, a) == Above(f, b)
    ensures a == b
  {
    forall k | 0 <= k < |Above(f, a)|
      ensures a[2 * k] == b[2 * k] && a[Min(2 * k + 1, |a| - 1)] == b[Min(2 * k + 1, |b| - 1)]
    {
      assert Node(f, a, k) == Node(f, b, k);
    }
    var m := |Above(f, a)|;
    assert a[2 * (m - 1)] == b[2 * (m - 1)] && a[Min(2 * m - 1, |a| - 1)] == b[Min(2 * m - 1, |b| - 1)];
    assert a[|a| - 2] != a[|a| - 1] && b[|b| - 2] != b[|b| - 1];
    assert |a| == |b|;
    forall i | 0 <= i < |a| ensures a[i] == b[i] {
      if i % 2 == 0 { assert a[2 * (i / 2)] == b[2 * (i / 2)]; }
      else { assert a[Min(2 * (i / 2) + 1, |a| - 1)] == b[Min(2 * (i / 2) + 1, |b| - 1)]; }
    }
  }

  /** Lists of one tree depth without duplicates that have one root are equal. */
  lemma {:induction false} RootDetermines(f: PairHash, a: seq<Hash>, b: seq<Hash>)
    requires Injective(f) && a != [] && b != [] && Depth(|a|) == Depth(|b|) && Distinct(a) && Distinct(b)
    ensures Root(f, a) == Root(f, b) <==> a == b
    decreases |a|
  {
    if |a| > 1 {
      AboveDistinct(f, a);
      AboveDistinct(f, b);
      RootDetermines(f, Above(f, a), Above(f, b));
      if Above(f, a) == Above(f, b) { AboveDetermines(f, a, b); }
    }
  }

  /** The test for duplicates is needed: repeating the last transaction of any odd list of three or
      more changes neither the root nor the depth. */
  lemma {:induction false} RepeatedTailHides(f: PairHash, a: seq<Hash>)
    requires |a| >= 3 && |a| % 2 == 1
    ensures Root(f, a + [a[|a| - 1]]) == Root(f, a) && Depth(|a| + 1) == Depth(|a|) && !Distinct(a + [a[|a| - 1]])
  {
    var b := a + [a[|a| - 1]];
    assert b[|a| - 1] == b[|a|];
    forall k | 0 <= k < |Above(f, a)| ensures Above(f, b)[k] == Above(f, a)[k] {
      assert Node(f, b, k) == Node(f, a, k);
    }
    assert Above(f, b) == Above(f, a);
  }
}
