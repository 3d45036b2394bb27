/** The tree of block indexes, and what a branch of it stands for: the path back to genesis, the
    forward links along it, and the spent-output index got by connecting its blocks in order
    (CBlockIndex, src/main.h).  A pointer to a block index is the hash of the block. */
module BlockTree {
  import opened Transactions
  import opened Ledger
  import opened Money
  import opened Blocks
  import opened BlockConnection

  /** The fields of CBlockIndex that never change once the block is in the tree, with the block the
      files hold for it. */
  datatype BlockIndex = BlockIndex(block: Block, pprev: Option<Hash>, nHeight: nat, nFile: nat, nBlockPos: nat,
                                   nChainTrust: nat)

  type Tree = map<Hash, BlockIndex>

  predicate EntryOk(t: Tree, hashGenesis: Hash, h: Hash)
    requires h in t
  {
    && t[h].block.hash == h
    && (match t[h].pprev
        case None => h == hashGenesis && t[h].nHeight == 0 && t[h].block.hashPrev !in t
        case Some(p) => p in t && t[h].nHeight == t[p].nHeight + 1 && t[h].block.hashPrev == p
                        && t[h].nChainTrust >= t[p].nChainTrust)
  }

  predicate WellFormed(t: Tree, hashGenesis: Hash) {
    hashGenesis in t && t[hashGenesis].pprev.None? && forall h :: h in t ==> EntryOk(t, hashGenesis, h)
  }

  /** h has a parent in the tree; the height test holds in every well-formed tree and makes the walk
      back finite in any. */
  predicate HasParent(t: Tree, h: Hash) {
    h in t && t[h].pprev.Some? && t[h].pprev.value in t && t[t[h].pprev.value].nHeight < t[h].nHeight
  }

  function Parent(t: Tree, h: Hash): Hash
    requires HasParent(t, h)
  {
    t[h].pprev.value
  }

  function Height(t: Tree, h: Hash): nat { if h in t then t[h].nHeight else 0 }

  /** a is h or one of its ancestors. */
  predicate Anc(t: Tree, a: Hash, h: Hash)
    decreases Height(t, h)
  {
    a == h || (HasParent(t, h) && Anc(t, a, Parent(t, h)))
  }

  /** The path from genesis to h. */
  function Branch(t: Tree, h: Hash): (b: seq<Hash>)
    ensures |b| > 0 && b[|b| - 1] == h
    decreases Height(t, h)
  {
    if HasParent(t, h) then Branch(t, Parent(t, h)) + [h] else [h]
  }

  /** The pnext links along the path from genesis to h, and no others. */
  function Links(t: Tree, h: Hash): map<Hash, Hash>
    decreases Height(t, h)
  {
    if HasParent(t, h) then Links(t, Parent(t, h))[Parent(t, h) := h] else map[]
  }

  function Placement(bi: BlockIndex): seq<Placed> { Place(bi.block.vtx, bi.nFile, bi.nBlockPos) }

  /** The index got by connecting the blocks after genesis up to h, one by one. */
  function IndexAt(t: Tree, h: Hash): Index
    decreases Height(t, h)
  {
    if HasParent(t, h) then View(IndexAt(t, Parent(t, h)), Placement(t[h]), |Placement(t[h])|) else map[]
  }

  /** Every block after genesis up to h could be connected where it stands. */
  predicate BranchSound(t: Tree, h: Hash)
    decreases Height(t, h)
  {
    HasParent(t, h) ==> BranchSound(t, Parent(t, h)) && Sound(IndexAt(t, Parent(t, h)), Placement(t[h]))
  }

  /** All transactions of the branch after genesis, in order. */
  function Events(t: Tree, h: Hash): seq<Placed>
    decreases Height(t, h)
  {
    if HasParent(t, h) then Events(t, Parent(t, h)) + Placement(t[h]) else []
  }

  /** On every branch equal ids mean equal transactions and coinbases are pairwise different. */
  ghost predicate NoCollisions(t: Tree) {
    forall h :: h in t ==> CollisionFree(Events(t, h)) && forall i ::
      0 <= i < |Events(t, h)| ==> |Events(t, h)[i].tx.vin| > 0
  }

  // ------------------------------------------------------------------------------------------
  // Ancestors
  // ------------------------------------------------------------------------------------------

  lemma {:induction false} AncInTree(t: Tree, a: Hash, h: Hash)
    requires Anc(t, a, h) && h in t
    ensures a in t && t[a].nHeight <= t[h].nHeight
    ensures a != h ==> t[a].nHeight < t[h].nHeight
    decreases Height(t, h)
  {
    if a != h { AncInTree(t, a, Parent(t, h)); }
  }

  lemma {:induction false} AncTrans(t: Tree, a: Hash, b: Hash, c: Hash)
    requires Anc(t, a, b) && Anc(t, b, c)
    ensures Anc(t, a, c)
    decreases Height(t, c)
  {
    if b != c { AncTrans(t, a, b, Parent(t, c)); }
  }

  /** Two ancestors of one block are ordered by height. */
  lemma {:induction false} AncLinear(t: Tree, a: Hash, b: Hash, c: Hash)
    requires Anc(t, a, c) && Anc(t, b, c) && c in t
    requires Height(t, a) <= Height(t, b)
    ensures Anc(t, a, b)
    decreases Height(t, c)
  {
    if b != c {
      AncInTree(t, b, c);
      AncLinear(t, a, b, Parent(t, c));
    }
  }

  /** IsInMainChain tests a link or the tip; on a whole state that is being on the active branch. */
  lemma {:induction false} OnActiveBranch(t: Tree, h: Hash, best: Hash)
    requires best in t
    ensures h in Links(t, best) || h == best <==> Anc(t, h, best)
    decreases Height(t, best)
  {
    if HasParent(t, best) { OnActiveBranch(t, h, Parent(t, best)); }
  }

  /** Genesis is below every block. */
  lemma {:induction false} GenesisIsRoot(t: Tree, hashGenesis: Hash, h: Hash)
    requires WellFormed(t, hashGenesis) && h in t
    ensures hashGenesis in t && t[hashGenesis].nHeight == 0 && Anc(t, hashGenesis, h)
    decreases Height(t, h)
  {
    assert EntryOk(t, hashGenesis, h) && EntryOk(t, hashGenesis, hashGenesis);
    if h != hashGenesis { GenesisIsRoot(t, hashGenesis, Parent(t, h)); }
  }

  /** Trust does not fall along a branch. */
  lemma {:induction false} TrustGrows(t: Tree, hashGenesis: Hash, a: Hash, h: Hash)
    requires WellFormed(t, hashGenesis) && h in t && Anc(t, a, h)
    ensures a in t && t[a].nChainTrust <= t[h].nChainTrust
    decreases Height(t, h)
  {
    assert EntryOk(t, hashGenesis, h);
    if a != h { TrustGrows(t, hashGenesis, a, Parent(t, h)); }
  }

  /** f is the common ancestor of a and b that every common ancestor of theirs precedes. */
  ghost predicate HighestCommon(t: Tree, f: Hash, a: Hash, b: Hash) {
    Anc(t, f, a) && Anc(t, f, b) && forall c :: Anc(t, c, a) && Anc(t, c, b) ==> Anc(t, c, f)
  }

  /** The search of Reorganize for the fork.  It fails only where a parent is missing. */
  method FindFork(t: Tree, hashGenesis: Hash, best: Hash, new_: Hash) returns (ok: bool, pfork: Hash)
    requires WellFormed(t, hashGenesis) && best in t && new_ in t
    ensures ok && HighestCommon(t, pfork, best, new_)
  {
    pfork := best;
    var plonger := new_;
    while pfork != plonger
      invariant pfork in t && plonger in t && Anc(t, pfork, best) && Anc(t, plonger, new_)
      invariant forall c :: Anc(t, c, best) && Anc(t, c, new_) ==> Anc(t, c, pfork) && Anc(t, c, plonger)
      decreases Height(t, pfork) + Height(t, plonger)
    {
      ghost var bound := Height(t, plonger);
      while t[plonger].nHeight > t[pfork].nHeight
        invariant plonger in t && Anc(t, plonger, new_) && Height(t, plonger) <= bound
        invariant forall c :: Anc(t, c, best) && Anc(t, c, new_) ==> Anc(t, c, pfork) && Anc(t, c, plonger)
        decreases Height(t, plonger)
      {
        assert EntryOk(t, hashGenesis, plonger);
        if t[plonger].pprev.None? { return false, pfork; }
        StepBack(t, best, new_, pfork, plonger);
        AncTrans(t, Parent(t, plonger), plonger, new_);
        plonger := t[plonger].pprev.value;
      }
      if pfork == plonger { break; }
      assert EntryOk(t, hashGenesis, pfork);
      assert EntryOk(t, hashGenesis, plonger);
      if t[pfork].pprev.None? { return false, pfork; }
      StepBack(t, new_, best, plonger, pfork);
      AncTrans(t, Parent(t, pfork), pfork, best);
      pfork := t[pfork].pprev.value;
    }
    ok := true;
  }

  /** When low is no higher than high and differs from it, stepping back from high loses no common
      ancestor. */
  lemma {:induction false} StepBack(t: Tree, a: Hash, b: Hash, low: Hash, high: Hash)
    requires low in t && high in t && low != high && t[low].nHeight <= t[high].nHeight && HasParent(t, high)
    requires forall c :: Anc(t, c, a) && Anc(t, c, b) ==> Anc(t, c, low) && Anc(t, c, high)
    ensures forall c :: Anc(t, c, a) && Anc(t, c, b) ==> Anc(t, c, low) && Anc(t, c, Parent(t, high))
  {
    forall c | Anc(t, c, a) && Anc(t, c, b) ensures Anc(t, c, Parent(t, high)) {
      if c == high { AncInTree(t, high, low); }
    }
  }

  // ------------------------------------------------------------------------------------------
  // No id repeats along a branch, so a disconnected block leaves the index before it
  // ------------------------------------------------------------------------------------------

  lemma {:induction false} ViewAppend(v: Index, a: seq<Placed>, b: seq<Placed>, k: nat)
    requires k <= |b|
    ensures View(v, a + b, |a| + k) == View(View(v, a, |a|), b, k)
    decreases k, |a|
  {
    if k > 0 {
      ViewAppend(v, a, b, k - 1);
      assert (a + b)[|a| + k - 1] == b[k - 1];
    } else {
      ViewPrefix(v, a, b, |a|);
    }
  }

  lemma {:induction false} ViewPrefix(v: Index, a: seq<Placed>, b: seq<Placed>, k: nat)
    requires k <= |a|
    ensures View(v, a + b, k) == View(v, a, k)
  {
    if k > 0 { ViewPrefix(v, a, b, k - 1); }
  }

  lemma {:induction false} HistoryAppend(a: seq<Placed>, b: seq<Placed>)
    requires History(a) && forall k :: 0 <= k < |b| ==> Takes(View(map[], a, |a|), b, k)
    ensures History(a + b)
    ensures View(map[], a + b, |a + b|) == View(View(map[], a, |a|), b, |b|)
  {
    hide View;
    ViewAppend(map[], a, b, |b|);
    forall k | 0 <= k < |a + b| ensures Takes(map[], a + b, k) {
      if k < |a| {
        ViewPrefix(map[], a, b, k);
        assert Takes(map[], a, k);
      } else {
        ViewAppend(map[], a, b, k - |a|);
        assert Takes(View(map[], a, |a|), b, k - |a|);
      }
    }
  }

  lemma {:induction false} BranchHistory(t: Tree, h: Hash)
    requires BranchSound(t, h)
    ensures History(Events(t, h))
    ensures View(map[], Events(t, h), |Events(t, h)|) == IndexAt(t, h)
    decreases Height(t, h)
  {
    hide Takes, ApplyTx;
    if HasParent(t, h) {
      BranchHistory(t, Parent(t, h));
      HistoryAppend(Events(t, Parent(t, h)), Placement(t[h]));
    }
  }

  lemma {:induction false} LaterIdsNew(a: seq<Placed>, b: seq<Placed>)
    requires DistinctUpTo(a + b, |a + b|)
    ensures Ids(b) !! View(map[], a, |a|).Keys
  {
    hide View;
    forall k, id | 0 <= k < |b| && id in View(map[], a, |a|) ensures b[k].tx.hash != id {
      ViewKeys(a, |a|, id);
      var i :| 0 <= i < |a| && a[i].tx.hash == id;
      assert (a + b)[i] == a[i] && (a + b)[|a| + k] == b[k];
    }
  }

  /** The ids of a block are new to the index the block is connected to. */
  lemma {:induction false} BlockIdsAreNew(t: Tree, h: Hash)
    requires HasParent(t, h) && BranchSound(t, h) && NoCollisions(t)
    ensures Ids(Placement(t[h])) !! IndexAt(t, Parent(t, h)).Keys
  {
    hide View, IndexAt, Ids;
    var es := Events(t, h);
    BranchHistory(t, h);
    BranchHistory(t, Parent(t, h));
    NoIdRepeats(es, |es|);
    LaterIdsNew(Events(t, Parent(t, h)), Placement(t[h]));
  }

  /** Disconnecting the block at the end of a branch leaves the index of the branch without it. */
  lemma {:induction false} DisconnectStepsBack(t: Tree, h: Hash)
    requires HasParent(t, h) && BranchSound(t, h) && NoCollisions(t)
    ensures Undo(IndexAt(t, h), Placement(t[h]), 0) == Some(IndexAt(t, Parent(t, h)))
  {
    BlockIdsAreNew(t, h);
    DisconnectUndoesConnect(IndexAt(t, Parent(t, h)), Placement(t[h]));
  }
}
