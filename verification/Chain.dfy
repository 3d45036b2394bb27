/** The chain state and the operations that move its tip: connecting and disconnecting blocks inside
    a database transaction, Reorganize, SetBestChain, AddToBlockIndex and the height lookup
    (src/main.cpp). */
module Chain {
  import opened Basics
  import opened Transactions
  import opened Ledger
  import opened Money
  import opened Blocks
  import opened BlockConnection
  import opened Supply
  import opened BlockTree
  import opened CoinbaseHeight

  // ------------------------------------------------------------------------------------------
  // Paths between a block and one of its ancestors
  // ------------------------------------------------------------------------------------------

  /** The blocks from `from` back to, and without, its ancestor `to`. */
  function Back(t: Tree, from: Hash, to: Hash): seq<Hash>
    decreases Height(t, from)
  {
    if from == to || !HasParent(t, from) then [] else [from] + Back(t, Parent(t, from), to)
  }

  method ListBack(t: Tree, from: Hash, to: Hash) returns (v: seq<Hash>)
    requires Anc(t, to, from)
    ensures v == Back(t, from, to)
  {
    v := [];
    var pindex := from;
    while pindex != to
      invariant Anc(t, to, pindex) && v + Back(t, pindex, to) == Back(t, from, to)
      decreases Height(t, pindex)
    {
      v := v + [pindex];
      pindex := t[pindex].pprev.value;
    }
  }

  /** Each block of the list back is followed by its parent, and the last one's parent is `to`. */
  lemma {:induction false} BackAt(t: Tree, from: Hash, to: Hash, i: nat)
    requires Anc(t, to, from) && i < |Back(t, from, to)|
    ensures var v := Back(t, from, to);
      HasParent(t, v[i]) && Anc(t, to, v[i]) && v[i] != to && Anc(t, v[i], from) &&
      v[0] == from && Parent(t, v[i]) == if i + 1 < |v| then v[i + 1] else to
    decreases Height(t, from)
  {
    var p := Parent(t, from);
    if i > 0 {
      BackAt(t, p, to, i - 1);
    } else if |Back(t, p, to)| > 0 {
      BackAt(t, p, to, 0);
    }
  }

  lemma {:induction false} BackEmpty(t: Tree, from: Hash, to: Hash)
    requires Anc(t, to, from) && Back(t, from, to) == []
    ensures from == to
  {
  }

  lemma {:induction false} RevAt(s: seq<Hash>, i: nat)
    requires i < |s|
    ensures |Rev(s)| == |s| && Rev(s)[i] == s[|s| - 1 - i]
  {
    if i < |s| - 1 { RevAt(s[1..], i); } else if |s| > 1 { RevAt(s[1..], 0); }
  }

  /** Read forwards, each block's parent is the one before it, beginning at `to`. */
  lemma {:induction false} ForthAt(t: Tree, from: Hash, to: Hash, i: nat)
    requires Anc(t, to, from) && i < |Back(t, from, to)|
    ensures var v := Rev(Back(t, from, to));
      |v| == |Back(t, from, to)| && HasParent(t, v[i]) && v[|v| - 1] == from &&
      Parent(t, v[i]) == (if i == 0 then to else v[i - 1]) &&
      Anc(t, to, v[i]) && v[i] != to && Anc(t, v[i], from)
  {
    var b := Back(t, from, to);
    RevAt(b, i);
    RevAt(b, |b| - 1);
    if i > 0 { RevAt(b, i - 1); }
    BackAt(t, from, to, |b| - 1 - i);
  }

  // ------------------------------------------------------------------------------------------
  // What the state records about a branch
  // ------------------------------------------------------------------------------------------

  /** A field of the block index that has never been written is 0. */
  function SupplyOf(m: map<Hash, int>, h: Hash): int { if h in m then m[h] else 0 }

  /** nMoneySupply of every block of the branch is the value of all that is spendable there. */
  ghost predicate BranchSupply(t: Tree, m: map<Hash, int>, disk: Disk, h: Hash)
    decreases Height(t, h)
  {
    && OnDisk(IndexAt(t, h), disk)
    && SupplyOf(m, h) == Total(IndexAt(t, h), disk)
    && (HasParent(t, h) ==> BranchSupply(t, m, disk, Parent(t, h)))
  }

  lemma {:induction false} SupplyFrame(t: Tree, m: map<Hash, int>, m': map<Hash, int>, disk: Disk, h: Hash)
    requires BranchSupply(t, m, disk, h)
    requires forall a :: Anc(t, a, h) ==> SupplyOf(m', a) == SupplyOf(m, a)
    ensures BranchSupply(t, m', disk, h)
    decreases Height(t, h)
  {
    hide Total, OnDisk, IndexAt;
    assert Anc(t, h, h);
    if HasParent(t, h) {
      forall a | Anc(t, a, Parent(t, h)) ensures SupplyOf(m', a) == SupplyOf(m, a) { assert Anc(t, a, h); }
      SupplyFrame(t, m, m', disk, Parent(t, h));
    }
  }

  /** A link leads up from a lower block. */
  lemma {:induction false} LinksKeys(t: Tree, h: Hash)
    requires h in t
    ensures forall k :: k in Links(t, h) ==> k in t && t[k].nHeight < t[h].nHeight
    decreases Height(t, h)
  {
    if HasParent(t, h) { LinksKeys(t, Parent(t, h)); }
  }

  lemma {:induction false} LinksBack(t: Tree, h: Hash)
    requires HasParent(t, h)
    ensures Links(t, h) - {Parent(t, h)} == Links(t, Parent(t, h))
  {
    LinksKeys(t, Parent(t, h));
  }

  /** Every block but genesis is stored where its index says. */
  ghost predicate TreeStored(t: Tree, disk: Disk) {
    MEMPOOL_POS !in disk && forall h :: HasParent(t, h) ==> Stored(Placement(t[h]), disk)
  }

  /** The positions of up to n blocks back from h. */
  function RecentBlocks(t: Tree, h: Hash, n: nat): seq<(nat, nat)>
    decreases n
  {
    if n == 0 || h !in t then []
    else [(t[h].nFile, t[h].nBlockPos)] + if HasParent(t, h) then RecentBlocks(t, Parent(t, h), n - 1) else []
  }

  /** The walk back collects exactly the blocks fewer than n below h. */
  lemma {:induction false} RecentBlocksAre(t: Tree, hashGenesis: Hash, h: Hash, n: nat, q: (nat, nat))
    requires WellFormed(t, hashGenesis) && h in t
    ensures q in RecentBlocks(t, h, n) <==>
            exists a :: Anc(t, a, h) && a in t && t[h].nHeight - t[a].nHeight < n && q == (t[a].nFile, t[a].nBlockPos)
    decreases n
  {
    assert EntryOk(t, hashGenesis, h);
    if n > 0 {
      assert Anc(t, h, h);
      if HasParent(t, h) {
        RecentBlocksAre(t, hashGenesis, Parent(t, h), n - 1, q);
        forall a | Anc(t, a, h) && a != h ensures Anc(t, a, Parent(t, h)) {}
      }
    } else {
      forall a | Anc(t, a, h) ensures a in t && t[a].nHeight <= t[h].nHeight { AncInTree(t, a, h); }
    }
  }

  /** Connecting block h where it stands extends everything recorded about the branch below it. */
  lemma {:induction false} ConnectExtends(t: Tree, m: map<Hash, int>, disk: Disk, h: Hash, env: Env)
    requires HasParent(t, h) && env.disk == disk && TreeStored(t, disk)
    requires BranchSound(t, Parent(t, h)) && BranchSupply(t, m, disk, Parent(t, h))
    requires BlockConnects(env, IndexAt(t, Parent(t, h)), t[h].block, t[h].nFile, t[h].nBlockPos)
    ensures var t1 := TallyAt(env, IndexAt(t, Parent(t, h)), Placement(t[h]), |Placement(t[h])|);
      var m' := m[h := SupplyOf(m, Parent(t, h)) + t1.nValueOut - t1.nValueIn];
      BranchSound(t, h) && BranchSupply(t, m', disk, h)
  {
    hide BlockConnects, Sound, Total, View, TallyAt, Stored, Place;
    var p := Parent(t, h);
    AcceptedIsSound(env, IndexAt(t, p), t[h].block, t[h].nFile, t[h].nBlockPos);
    SupplyMoves(env, IndexAt(t, p), t[h].block, t[h].nFile, t[h].nBlockPos);
    var t1 := TallyAt(env, IndexAt(t, p), Placement(t[h]), |Placement(t[h])|);
    var m' := m[h := SupplyOf(m, p) + t1.nValueOut - t1.nValueIn];
    forall a | Anc(t, a, p) ensures SupplyOf(m', a) == SupplyOf(m, a) { AncInTree(t, a, p); }
    SupplyFrame(t, m, m', disk, p);
  }

  // ------------------------------------------------------------------------------------------
  // The chain state
  // ------------------------------------------------------------------------------------------

  /** What can fail in one call through no fault of a block: reading or writing the records of each
      block, and the commit that would make each block the best, with the writes before it.  A call
      reads and commits a block at most once. */
  datatype Io = Io(readable: Hash -> bool, commits: Hash -> bool)

  /** What the database holds: the index and the hash of the best chain. */
  datatype Db = Db(index: Index, hashBestChain: Hash)

  // ------------------------------------------------------------------------------------------
  // A growing tree
  // ------------------------------------------------------------------------------------------

  predicate Extends(t: Tree, t': Tree) { forall h :: h in t ==> h in t' && t'[h] == t[h] }

  lemma {:induction false} SameParent(t: Tree, t': Tree, hashGenesis: Hash, h: Hash)
    requires Extends(t, t') && WellFormed(t, hashGenesis) && h in t
    ensures HasParent(t', h) == HasParent(t, h)
    ensures HasParent(t, h) ==> Parent(t', h) == Parent(t, h)
  {
    assert EntryOk(t, hashGenesis, h);
  }

  /** What the branch of an old block stands for does not change as the tree grows. */
  lemma {:induction false} SameBranch(t: Tree, t': Tree, hashGenesis: Hash, h: Hash)
    requires Extends(t, t') && WellFormed(t, hashGenesis) && h in t
    ensures IndexAt(t', h) == IndexAt(t, h) && Links(t', h) == Links(t, h) && BranchSound(t', h) == BranchSound(t, h)
    decreases Height(t, h)
  {
    hide Sound, View;
    SameParent(t, t', hashGenesis, h);
    if HasParent(t, h) { SameBranch(t, t', hashGenesis, Parent(t, h)); }
  }

  lemma {:induction false} SameAncestors(t: Tree, t': Tree, hashGenesis: Hash, a: Hash, h: Hash)
    requires Extends(t, t') && WellFormed(t, hashGenesis) && h in t
    ensures Anc(t', a, h) == Anc(t, a, h)
    decreases Height(t, h)
  {
    SameParent(t, t', hashGenesis, h);
    if HasParent(t, h) { SameAncestors(t, t', hashGenesis, a, Parent(t, h)); }
  }

  predicate DiskExtends(disk: Disk, disk': Disk) { forall p :: p in disk ==> p in disk' && disk'[p] == disk[p] }

  lemma {:induction false} SameSupply(t: Tree, t': Tree, hashGenesis: Hash, m: map<Hash, int>, disk: Disk,
                                      disk': Disk, h: Hash)
    requires Extends(t, t') && WellFormed(t, hashGenesis) && h in t && DiskExtends(disk, disk')
    requires BranchSupply(t, m, disk, h)
    ensures BranchSupply(t', m, disk', h)
    decreases Height(t, h)
  {
    hide Total, IndexAt;
    SameParent(t, t', hashGenesis, h);
    SameBranch(t, t', hashGenesis, h);
    TotalSameOnDisk(IndexAt(t, h), disk, disk');
    if HasParent(t, h) { SameSupply(t, t', hashGenesis, m, disk, disk', Parent(t, h)); }
  }

  /** Nothing is lost and all that is new is in file nFile. */
  predicate DiskAppends(disk: Disk, disk': Disk, nFile: nat) {
    DiskExtends(disk, disk') && forall p :: p in disk' ==> p in disk || (p.At? && p.nFile == nFile)
  }

  /** The block files after the first k transactions of a block are written. */
  function WriteTo(disk: Disk, ps: seq<Placed>, k: nat): Disk
    requires k <= |ps|
  {
    if k == 0 then disk else WriteTo(disk, ps, k - 1)[ps[k - 1].pos := ps[k - 1].tx]
  }

  lemma {:induction false} WrittenAt(disk: Disk, ps: seq<Placed>, k: nat)
    requires k <= |ps| && forall i, j :: 0 <= i < j < |ps| ==> ps[i].pos != ps[j].pos
    requires forall i :: 0 <= i < |ps| ==> ps[i].pos !in disk
    ensures DiskExtends(disk, WriteTo(disk, ps, k))
    ensures forall i :: 0 <= i < k ==> ps[i].pos in WriteTo(disk, ps, k) && WriteTo(disk, ps, k)[ps[i].pos] == ps[i].tx
    ensures forall p :: p in WriteTo(disk, ps, k) ==> p in disk || exists i :: 0 <= i < k && ps[i].pos == p
  {
    if k > 0 { WrittenAt(disk, ps, k - 1); }
  }

  lemma {:induction false} OffsetsGrow(vtx: seq<Transaction>, nBlockPos: nat, i: nat, j: nat)
    requires i <= j <= |vtx|
    ensures 80 < TxOffset(vtx, nBlockPos, i) <= TxOffset(vtx, nBlockPos, j)
    ensures i < j ==> TxOffset(vtx, nBlockPos, i) < TxOffset(vtx, nBlockPos, j)
  {
    if i < j { OffsetsGrow(vtx, nBlockPos, i, j - 1); } else if i > 0 { OffsetsGrow(vtx, nBlockPos, i - 1, i - 1); }
  }

  /** Appending a block to the block files keeps what was stored and stores the block. */
  lemma {:induction false} WriteStores(disk: Disk, vtx: seq<Transaction>, nFile: nat, nBlockPos: nat)
    requires MEMPOOL_POS !in disk
    requires forall i :: 0 <= i < |vtx| ==> Place(vtx, nFile, nBlockPos)[i].pos !in disk
    ensures var disk' := WriteTo(disk, Place(vtx, nFile, nBlockPos), |vtx|);
      DiskAppends(disk, disk', nFile) && Stored(Place(vtx, nFile, nBlockPos), disk')
  {
    var ps := Place(vtx, nFile, nBlockPos);
    hide Place, PlaceUpTo;
    forall i, j | 0 <= i < j < |ps| ensures ps[i].pos != ps[j].pos { OffsetsGrow(vtx, nBlockPos, i, j); }
    WrittenAt(disk, ps, |ps|);
    forall i | 0 <= i < |ps| ensures ps[i].pos != MEMPOOL_POS { OffsetsGrow(vtx, nBlockPos, i, i); }
  }

  /** Everything the node records about the branch of h is right. */
  ghost predicate BranchOk(t: Tree, m: map<Hash, int>, disk: Disk, h: Hash) {
    h in t && BranchSound(t, h) && BranchSupply(t, m, disk, h)
  }

  lemma {:induction false} BranchOkDown(t: Tree, m: map<Hash, int>, disk: Disk, a: Hash, h: Hash)
    requires BranchOk(t, m, disk, h) && Anc(t, a, h)
    ensures BranchOk(t, m, disk, a)
    decreases Height(t, h)
  {
    hide Total, OnDisk, IndexAt, Sound;
    if a != h { BranchOkDown(t, m, disk, a, Parent(t, h)); }
  }

  /** One step of disconnecting a branch. */
  lemma {:induction false} DisconnectOne(t: Tree, h: Hash)
    requires HasParent(t, h) && BranchSound(t, h) && NoCollisions(t)
    ensures Undo(IndexAt(t, h), Placement(t[h]), 0) == Some(IndexAt(t, Parent(t, h)))
    ensures BranchSound(t, Parent(t, h))
  {
    DisconnectStepsBack(t, h);
  }

  /** v lists the blocks from new_ back to, and without, start. */
  predicate Secondary(t: Tree, new_: Hash, start: Hash, v: seq<Hash>) {
    && Anc(t, start, new_)
    && (forall i :: 0 <= i < |v| ==> HasParent(t, v[i]) && Anc(t, v[i], new_))
    && (forall i :: 0 <= i < |v| - 1 ==> Parent(t, v[i]) == v[i + 1])
    && (if v == [] then start == new_ else v[0] == new_ && Parent(t, v[|v| - 1]) == start)
  }

  lemma {:induction false} SecondaryStep(t: Tree, new_: Hash, start: Hash, v: seq<Hash>)
    requires Secondary(t, new_, start, v) && HasParent(t, start)
    ensures Secondary(t, new_, Parent(t, start), v + [start])
  {
    AncTrans(t, Parent(t, start), start, new_);
    var w := v + [start];
    forall i | 0 <= i < |v| ensures Parent(t, w[i]) == w[i + 1] {
      if i < |v| - 1 { assert w[i + 1] == v[i + 1]; }
    }
  }

  /** A block whose parent is more trusted than the tip is connected in a transaction of its own. */
  predicate Postponed(t: Tree, best: Hash, h: Hash)
    requires best in t
  {
    HasParent(t, h) && t[Parent(t, h)].nChainTrust > t[best].nChainTrust
  }

  /** The block Reorganize switches to: the first on the way back that is not postponed. */
  function Intermediate(t: Tree, best: Hash, h: Hash): Hash
    requires best in t
    decreases Height(t, h)
  {
    if Postponed(t, best, h) then Intermediate(t, best, Parent(t, h)) else h
  }

  predicate TrustedMore(t: Tree, best: Hash, v: seq<Hash>)
    requires best in t
  {
    forall i :: 0 <= i < |v| ==> Postponed(t, best, v[i])
  }

  lemma {:induction false} SecondaryFrom(t: Tree, new_: Hash, start: Hash, v: seq<Hash>, i: nat, h: Hash)
    requires Secondary(t, new_, start, v) && i < |v| && Anc(t, h, v[i])
    ensures Anc(t, h, start) || h in v
    decreases |v| - i
  {
    if h != v[i] {
      assert Anc(t, h, Parent(t, v[i]));
      if i + 1 < |v| { SecondaryFrom(t, new_, start, v, i + 1, h); }
    }
  }

  /** The blocks new to the tip are those up to the intermediate block and the postponed ones. */
  lemma {:induction false} NewBlocks(t: Tree, hashGenesis: Hash, best: Hash, new_: Hash, start: Hash, v: seq<Hash>,
                                     h: Hash)
    requires WellFormed(t, hashGenesis) && best in t && Secondary(t, new_, start, v) && TrustedMore(t, best, v)
    ensures Anc(t, h, new_) && !Anc(t, h, best) <==> (Anc(t, h, start) && !Anc(t, h, best)) || h in v
  {
    hide WellFormed;
    if Anc(t, h, new_) && v != [] { SecondaryFrom(t, new_, start, v, 0, h); }
    if Anc(t, h, start) { AncTrans(t, h, start, new_); }
    if h in v {
      TrustGrows(t, hashGenesis, Parent(t, h), h);
      if Anc(t, h, best) {
        TrustGrows(t, hashGenesis, h, best);
        assert false;
      }
    }
  }

  /** Trust never falls along a branch, so the walk back passes every postponed block. */
  lemma {:induction false} PostponedAre(t: Tree, hashGenesis: Hash, best: Hash, new_: Hash, start: Hash, v: seq<Hash>,
                                        h: Hash)
    requires WellFormed(t, hashGenesis) && best in t && new_ in t && start in t
    requires Secondary(t, new_, start, v) && TrustedMore(t, best, v) && !Postponed(t, best, start)
    ensures h in v <==> Anc(t, h, new_) && Postponed(t, best, h)
  {
    hide WellFormed;
    if Anc(t, h, new_) && Postponed(t, best, h) && h !in v {
      if v != [] { SecondaryFrom(t, new_, start, v, 0, h); }
      AncTrans(t, Parent(t, h), h, Parent(t, start));
      TrustGrows(t, hashGenesis, Parent(t, h), Parent(t, start));
      assert false;
    }
  }

  /** Where the postponed blocks stop early, the last block connected is not the new tip. */
  lemma {:induction false} StoppedEarly(t: Tree, new_: Hash, start: Hash, v: seq<Hash>, i: nat)
    requires Secondary(t, new_, start, v) && i < |v| && new_ in t
    ensures (if i + 1 < |v| then v[i + 1] else start) != new_
  {
    AncInTree(t, v[i], new_);
    AncInTree(t, Parent(t, v[i]), v[i]);
  }

  /** The walk of SetBestChain back to the first block whose parent is not already more trusted than
      the tip; the blocks walked over are connected later. */
  method FindIntermediate(t: Tree, hashGenesis: Hash, best: Hash, new_: Hash)
    returns (pindexIntermediate: Hash, vpindexSecondary: seq<Hash>)
    requires WellFormed(t, hashGenesis) && new_ in t && best in t
    ensures pindexIntermediate == Intermediate(t, best, new_)
    ensures pindexIntermediate in t && Secondary(t, new_, pindexIntermediate, vpindexSecondary)
    ensures TrustedMore(t, best, vpindexSecondary)
    ensures forall h :: h in vpindexSecondary <==> Anc(t, h, new_) && Postponed(t, best, h)
  {
    hide Secondary;
    pindexIntermediate, vpindexSecondary := new_, [];
    assert TrustedMore(t, best, []);
    assert Secondary(t, new_, new_, []) by { SecondaryStart(t, new_); }
    assert EntryOk(t, hashGenesis, new_);
    while t[pindexIntermediate].pprev.Some? && t[t[pindexIntermediate].pprev.value].nChainTrust > t[best].nChainTrust
      invariant pindexIntermediate in t && EntryOk(t, hashGenesis, pindexIntermediate)
      invariant Intermediate(t, best, pindexIntermediate) == Intermediate(t, best, new_)
      invariant Secondary(t, new_, pindexIntermediate, vpindexSecondary)
      invariant TrustedMore(t, best, vpindexSecondary)
      decreases Height(t, pindexIntermediate)
    {
      SecondaryStep(t, new_, pindexIntermediate, vpindexSecondary);
      assert TrustedMore(t, best, vpindexSecondary + [pindexIntermediate]);
      vpindexSecondary := vpindexSecondary + [pindexIntermediate];
      pindexIntermediate := t[pindexIntermediate].pprev.value;
    }
    forall h ensures h in vpindexSecondary <==> Anc(t, h, new_) && Postponed(t, best, h) {
      PostponedAre(t, hashGenesis, best, new_, pindexIntermediate, vpindexSecondary, h);
    }
  }

  lemma {:induction false} SecondaryStart(t: Tree, new_: Hash)
    ensures Secondary(t, new_, new_, [])
  {
  }

  // ------------------------------------------------------------------------------------------
  // Facts about trees and branches that the class needs
  // ------------------------------------------------------------------------------------------

  /** The link of a block below the tip leads to the next block of the path. */
  lemma {:induction false} LinksUp(t: Tree, a: Hash, h: Hash)
    requires Anc(t, a, h) && a != h && h in t
    ensures a in Links(t, h)
    ensures var n := Links(t, h)[a]; HasParent(t, n) && Parent(t, n) == a && Anc(t, n, h)
    decreases Height(t, h)
  {
    var p := Parent(t, h);
    if a != p {
      LinksUp(t, a, p);
    }
    AncInTree(t, a, p);
  }

  lemma {:induction false} BranchAt(t: Tree, hashGenesis: Hash, a: Hash, h: Hash)
    requires WellFormed(t, hashGenesis) && h in t && Anc(t, a, h)
    ensures |Branch(t, h)| == t[h].nHeight + 1
    ensures a in t && t[a].nHeight <= t[h].nHeight && Branch(t, h)[t[a].nHeight] == a
    decreases Height(t, h)
  {
    assert EntryOk(t, hashGenesis, h);
    AncInTree(t, a, h);
    if HasParent(t, h) { BranchAt(t, hashGenesis, if a == h then Parent(t, h) else a, Parent(t, h)); }
  }

  lemma {:induction false} GenesisAlone(t: Tree, genesis: BlockIndex)
    requires genesis.pprev.None? && genesis.nHeight == 0 && genesis.block.hashPrev != genesis.block.hash
    requires t == map[genesis.block.hash := genesis]
    ensures WellFormed(t, genesis.block.hash) && NoCollisions(t) && TreeStored(t, map[]) && Shaped(t)
    ensures BranchOk(t, map[], map[], genesis.block.hash)
    ensures IndexAt(t, genesis.block.hash) == map[] && Links(t, genesis.block.hash) == map[]
  {
    assert forall h :: !HasParent(t, h);
  }

  lemma {:induction false} HasCoinBase(b: Block)
    requires BlockOk(b)
    ensures |b.vtx| > 0 && |b.vtx[0].vin| > 0
  {
  }

  lemma {:induction false} ShapedBlock(t: Tree, h: Hash)
    requires HasParent(t, h) && BlockOk(t[h].block)
    requires PushInt(t[h].nHeight) <= t[h].block.vtx[0].vin[0].scriptSig
    ensures BlockShaped(t, h)
  {
    var vtx := t[h].block.vtx;
    forall i | 1 <= i < |vtx| ensures !vtx[i].IsCoinBase() && |vtx[i].vin| > 0 { assert TransactionOk(vtx[i]); }
  }

  lemma {:induction false} GrownTree(t: Tree, t': Tree, hashGenesis: Hash, disk: Disk, disk': Disk, bi: BlockIndex)
    requires WellFormed(t, hashGenesis) && TreeStored(t, disk) && Shaped(t)
    requires t' == t[bi.block.hash := bi] && bi.block.hash !in t && t[hashGenesis].block.hashPrev != bi.block.hash
    requires bi.pprev == Some(bi.block.hashPrev) && bi.block.hashPrev in t
    requires bi.nHeight == t[bi.block.hashPrev].nHeight + 1
    requires bi.nChainTrust >= t[bi.block.hashPrev].nChainTrust
    requires BlockOk(bi.block) && PushInt(bi.nHeight) <= bi.block.vtx[0].vin[0].scriptSig
    requires disk' == WriteTo(disk, Placement(bi), |Placement(bi)|)
    requires forall i :: 0 <= i < |Placement(bi)| ==> Placement(bi)[i].pos !in disk
    ensures Extends(t, t') && DiskAppends(disk, disk', bi.nFile)
    ensures WellFormed(t', hashGenesis) && TreeStored(t', disk') && Shaped(t')
  {
    hide BlockOk, PushInt, WriteTo, Place;
    WriteStores(disk, bi.block.vtx, bi.nFile, bi.nBlockPos);
    forall h | h in t' ensures EntryOk(t', hashGenesis, h) {
      if h in t { assert EntryOk(t, hashGenesis, h); }
    }
    forall h | HasParent(t', h) ensures Stored(Placement(t'[h]), disk') && BlockShaped(t', h) {
      if h in t {
        SameParent(t, t', hashGenesis, h);
        assert Stored(Placement(t[h]), disk) && BlockShaped(t, h);
      } else {
        ShapedBlock(t', h);
      }
    }
  }

  lemma {:induction false} ParentKept(t: Tree, m: map<Hash, int>, m': map<Hash, int>, disk: Disk, h: Hash)
    requires HasParent(t, h) && BranchOk(t, m, disk, Parent(t, h))
    requires forall k :: k != h ==> SupplyOf(m', k) == SupplyOf(m, k)
    ensures BranchOk(t, m', disk, Parent(t, h))
  {
    hide BranchSupply, BranchSound;
    forall a | Anc(t, a, Parent(t, h)) ensures a != h { AncInTree(t, a, Parent(t, h)); }
    SupplyFrame(t, m, m', disk, Parent(t, h));
  }

  lemma {:induction false} ForkFacts(t: Tree, m: map<Hash, int>, disk: Disk, fork: Hash, best: Hash, new_: Hash)
    requires BranchOk(t, m, disk, best) && HighestCommon(t, fork, best, new_)
    ensures Anc(t, fork, best) && Anc(t, fork, new_)
    ensures BranchOk(t, m, disk, fork) && BranchSound(t, best) && best in t
  {
    BranchOkDown(t, m, disk, fork, best);
  }

  /** On a block whose parent is the tip, only that block is new. */
  lemma {:induction false} OneNewBlock(t: Tree, hashGenesis: Hash, best: Hash, new_: Hash)
    requires WellFormed(t, hashGenesis) && best in t && new_ in t && t[new_].block.hashPrev == best
    ensures HasParent(t, new_) && Parent(t, new_) == best
    ensures forall h :: Anc(t, h, new_) && !Anc(t, h, best) <==> h == new_
  {
    assert EntryOk(t, hashGenesis, new_);
    forall h ensures Anc(t, h, new_) && !Anc(t, h, best) <==> h == new_ {
      if Anc(t, h, best) { AncInTree(t, h, best); }
    }
  }

  /** The blocks above the fork are those new to the tip. */
  lemma {:induction false} AboveFork(t: Tree, fork: Hash, best: Hash, new_: Hash, h: Hash)
    requires HighestCommon(t, fork, best, new_) && new_ in t && best in t
    ensures h in Rev(Back(t, new_, fork)) <==> Anc(t, h, new_) && !Anc(t, h, best)
  {
    hide Back, Rev;
    var v := Rev(Back(t, new_, fork));
    RevLength(t, new_, fork);
    if h in v {
      var i :| 0 <= i < |v| && v[i] == h;
      ForthAt(t, new_, fork, i);
      AncInTree(t, h, new_);
      AncInTree(t, fork, h);
      if Anc(t, h, best) {
        AncInTree(t, h, fork);
        assert false;
      }
    } else if Anc(t, h, new_) {
      BackCovers(t, new_, fork, h);
      if Anc(t, h, fork) {
        AncTrans(t, h, fork, best);
      } else {
        var b := Back(t, new_, fork);
        var i :| 0 <= i < |b| && b[i] == h;
        RevAt(b, |b| - 1 - i);
        assert false;
      }
    }
  }

  /** The blocks of the old branch above the fork are those off the new one. */
  lemma {:induction false} BelowTip(t: Tree, fork: Hash, best: Hash, new_: Hash, h: Hash)
    requires HighestCommon(t, fork, best, new_) && new_ in t && best in t
    ensures h in Back(t, best, fork) <==> Anc(t, h, best) && !Anc(t, h, new_)
  {
    hide Back;
    var b := Back(t, best, fork);
    if h in b {
      var i :| 0 <= i < |b| && b[i] == h;
      BackAt(t, best, fork, i);
      AncInTree(t, h, best);
      AncInTree(t, fork, h);
      if Anc(t, h, new_) {
        AncInTree(t, h, fork);
        assert false;
      }
    } else if Anc(t, h, best) {
      BackCovers(t, best, fork, h);
      AncTrans(t, h, fork, new_);
    }
  }

  /** What a reorganization disconnects and connects. */
  lemma {:induction false} ForkSides(t: Tree, fork: Hash, best: Hash, new_: Hash)
    requires HighestCommon(t, fork, best, new_) && new_ in t && best in t
    ensures forall h :: h in Rev(Back(t, new_, fork)) <==> Anc(t, h, new_) && !Anc(t, h, best)
    ensures forall h :: h in Back(t, best, fork) <==> Anc(t, h, best) && !Anc(t, h, new_)
  {
    hide Back, Rev, HighestCommon;
    forall h ensures h in Rev(Back(t, new_, fork)) <==> Anc(t, h, new_) && !Anc(t, h, best) {
      AboveFork(t, fork, best, new_, h);
    }
    forall h ensures h in Back(t, best, fork) <==> Anc(t, h, best) && !Anc(t, h, new_) {
      BelowTip(t, fork, best, new_, h);
    }
  }

  lemma {:induction false} BackCovers(t: Tree, from: Hash, to: Hash, h: Hash)
    requires Anc(t, h, from) && Anc(t, to, from)
    ensures h in Back(t, from, to) || Anc(t, h, to)
    decreases Height(t, from)
  {
    if from != to && h != from { BackCovers(t, Parent(t, from), to, h); }
  }

  /** Reconnecting blocks above the fork changes no record of the other branch. */
  lemma {:induction false} OtherBranchKept(t: Tree, m: map<Hash, int>, m': map<Hash, int>, disk: Disk, fork: Hash,
                                           best: Hash, new_: Hash)
    requires BranchOk(t, m, disk, best) && HighestCommon(t, fork, best, new_) && new_ in t
    requires forall h :: SupplyOf(m', h) == SupplyOf(m, h) || h in Rev(Back(t, new_, fork))
    ensures BranchOk(t, m', disk, best)
  {
    hide BranchSupply, BranchSound, Back, Rev;
    var v := Rev(Back(t, new_, fork));
    RevLength(t, new_, fork);
    forall i | 0 <= i < |v| ensures !Anc(t, v[i], best) {
      ForthAt(t, new_, fork, i);
      AncInTree(t, v[i], new_);
      AncInTree(t, fork, v[i]);
      if Anc(t, v[i], best) {
        AncInTree(t, v[i], fork);
        assert false;
      }
    }
    SupplyFrame(t, m, m', disk, best);
  }

  lemma {:induction false} RevLength(t: Tree, from: Hash, to: Hash)
    ensures |Rev(Back(t, from, to))| == |Back(t, from, to)|
  {
    var b := Back(t, from, to);
    if |b| > 0 { RevAt(b, 0); }
  }

  lemma {:induction false} LastIsFrom(t: Tree, from: Hash, to: Hash)
    requires Anc(t, to, from)
    ensures var v := Rev(Back(t, from, to)); from == if v == [] then to else v[|v| - 1]
  {
    RevLength(t, from, to);
    if |Back(t, from, to)| > 0 { ForthAt(t, from, to, 0); } else { BackEmpty(t, from, to); }
  }

  // ------------------------------------------------------------------------------------------
  // The class
  // ------------------------------------------------------------------------------------------

  class ChainState {
    const rules: ScriptRules
    const nCoinbaseMaturity: nat
    const nTotalBlocksEstimate: nat
    const hashGenesis: Hash

    // mapBlockIndex; the fields of a block index that change are maps of their own
    var mapBlockIndex: Tree
    var pnext: map<Hash, Hash>
    var nMint: map<Hash, int>
    var nMoneySupply: map<Hash, int>

    // the block files, the memory pool, the database and its open transaction
    var disk: Disk
    var mempool: map<Hash, Transaction>
    var db: Db
    var activeBatch: Option<Db>

    var pindexBest: Hash
    var hashBestChain: Hash
    var nBestHeight: int
    var nBestChainTrust: nat
    var pblockindexFBBHLast: Option<Hash>

    /** The tree is sound, whatever the tip. */
    ghost predicate TreeOk()
      reads this`mapBlockIndex, this`disk
    {
      && WellFormed(mapBlockIndex, hashGenesis)
      && NoCollisions(mapBlockIndex)
      && TreeStored(mapBlockIndex, disk)
      && Shaped(mapBlockIndex)
    }

    /** The database, the links and the records all stand at block h. */
    ghost predicate StandsAt(h: Hash)
      reads this`mapBlockIndex, this`nMoneySupply, this`disk, this`db, this`pnext
    {
      && h in mapBlockIndex && BranchOk(mapBlockIndex, nMoneySupply, disk, h)
      && db == Db(IndexAt(mapBlockIndex, h), h)
      && pnext == Links(mapBlockIndex, h)
    }

    /** The tip variables name block h. */
    ghost predicate TipIs(h: Hash)
      reads this`mapBlockIndex, this`pindexBest, this`hashBestChain, this`nBestHeight, this`nBestChainTrust,
            this`pblockindexFBBHLast
    {
      && h in mapBlockIndex && pindexBest == h && hashBestChain == h
      && nBestHeight == mapBlockIndex[h].nHeight && nBestChainTrust == mapBlockIndex[h].nChainTrust
      && (pblockindexFBBHLast.Some? ==> Anc(mapBlockIndex, pblockindexFBBHLast.value, h))
    }

    ghost predicate Valid()
      reads this
    {
      TreeOk() && TipIs(pindexBest) && StandsAt(pindexBest) && activeBatch.None?
    }

    function EnvFor(h: Hash): Env
      reads this`disk, this`mempool, this`mapBlockIndex, this`nBestHeight, this`pindexBest
    {
      Env(rules, disk, mempool, RecentBlocks(mapBlockIndex, h, nCoinbaseMaturity), nBestHeight < nTotalBlocksEstimate,
          Height(mapBlockIndex, pindexBest))
    }

    /** Block h could be connected where it stands, the tip being `tip`. */
    ghost predicate Connects(h: Hash, tip: Hash)
      reads this`disk, this`mempool, this`mapBlockIndex
    {
      && HasParent(mapBlockIndex, h)
      && BlockConnects(Env(rules, disk, mempool, RecentBlocks(mapBlockIndex, h, nCoinbaseMaturity),
                           Height(mapBlockIndex, tip) < nTotalBlocksEstimate, Height(mapBlockIndex, tip)),
                       IndexAt(mapBlockIndex, Parent(mapBlockIndex, h)), mapBlockIndex[h].block,
                       mapBlockIndex[h].nFile, mapBlockIndex[h].nBlockPos)
    }

    /** Every block of the branch of new_ that is not on the branch of tip could be connected. */
    ghost predicate BranchConnects(tip: Hash, new_: Hash)
      reads this`disk, this`mempool, this`mapBlockIndex
    {
      forall h :: Anc(mapBlockIndex, h, new_) && !Anc(mapBlockIndex, h, tip) ==> Connects(h, tip)
    }

    /** The reads and the commit of a reorganization from tip to new_ go well. */
    ghost predicate SwitchIo(io: Io, tip: Hash, new_: Hash)
      reads this`mapBlockIndex
    {
      io.commits(new_) && forall h :: Anc(mapBlockIndex, h, tip) != Anc(mapBlockIndex, h, new_) ==> io.readable(h)
    }

    /** A postponed block can be attached. */
    ghost predicate Attaches(io: Io, h: Hash, tip: Hash)
      reads this`disk, this`mempool, this`mapBlockIndex
    {
      io.readable(h) && Connects(h, tip) && io.commits(h)
    }

    /** When SetBestChain succeeds: the only block connects, or the blocks up to the intermediate one do. */
    ghost predicate Succeeds(io: Io, tip: Hash, new_: Hash)
      requires tip in mapBlockIndex && new_ in mapBlockIndex
      reads this`disk, this`mempool, this`mapBlockIndex
    {
      if mapBlockIndex[new_].block.hashPrev == tip then Connects(new_, tip) && io.commits(new_)
      else
        var intermediate := Intermediate(mapBlockIndex, tip, new_);
        SwitchIo(io, tip, intermediate) && BranchConnects(tip, intermediate)
    }

    /** No read and no commit on the way from tip to new_ fails. */
    ghost predicate IoOk(io: Io, tip: Hash, new_: Hash)
      requires tip in mapBlockIndex && new_ in mapBlockIndex
      reads this`mapBlockIndex
    {
      if mapBlockIndex[new_].block.hashPrev == tip then io.commits(new_)
      else
        && SwitchIo(io, tip, Intermediate(mapBlockIndex, tip, new_))
        && forall h :: Anc(mapBlockIndex, h, new_) && Postponed(mapBlockIndex, tip, h) ==>
          io.readable(h) && io.commits(h)
    }

    /** The block after conn on the way to new_ was postponed and cannot be attached. */
    ghost predicate StopsAt(io: Io, tip: Hash, new_: Hash, conn: Hash)
      requires tip in mapBlockIndex
      reads this`disk, this`mempool, this`mapBlockIndex
    {
      exists h :: Anc(mapBlockIndex, h, new_) && Postponed(mapBlockIndex, tip, h) && Parent(mapBlockIndex, h) == conn
                  && !Attaches(io, h, tip)
    }

    /** SetBestChain succeeds and connects every block up to new_. */
    ghost predicate Reaches(io: Io, tip: Hash, new_: Hash)
      requires tip in mapBlockIndex && new_ in mapBlockIndex
      reads this`disk, this`mempool, this`mapBlockIndex
    {
      BranchConnects(tip, new_) && IoOk(io, tip, new_)
    }

    lemma {:induction false} ValidLinks()
      requires Valid()
      ensures pindexBest in mapBlockIndex && pnext == Links(mapBlockIndex, pindexBest)
    {
    }

    /** What SwitchTo does piece by piece is what it should do in all. */
    lemma {:induction false} SwitchCases(io: Io, tip: Hash, new_: Hash, v: seq<Hash>)
      requires WellFormed(mapBlockIndex, hashGenesis) && tip in mapBlockIndex && new_ in mapBlockIndex
      requires mapBlockIndex[new_].block.hashPrev != tip
      requires Secondary(mapBlockIndex, new_, Intermediate(mapBlockIndex, tip, new_), v)
      requires TrustedMore(mapBlockIndex, tip, v)
      requires forall h :: h in v <==> Anc(mapBlockIndex, h, new_) && Postponed(mapBlockIndex, tip, h)
      ensures var intermediate := Intermediate(mapBlockIndex, tip, new_);
        && (Succeeds(io, tip, new_) <==> BranchConnects(tip, intermediate) && SwitchIo(io, tip, intermediate))
        && (Reaches(io, tip, new_) <==> Succeeds(io, tip, new_) && forall h :: h in v ==> Attaches(io, h, tip))
      ensures forall conn :: (exists h :: h in v && Parent(mapBlockIndex, h) == conn && !Attaches(io, h, tip)) ==>
                StopsAt(io, tip, new_, conn)
    {
      hide WellFormed, Secondary, TrustedMore, Connects, SwitchIo, Intermediate;
      var start := Intermediate(mapBlockIndex, tip, new_);
      forall h
        ensures Anc(mapBlockIndex, h, new_) && !Anc(mapBlockIndex, h, tip) <==>
                (Anc(mapBlockIndex, h, start) && !Anc(mapBlockIndex, h, tip)) || h in v
      {
        NewBlocks(mapBlockIndex, hashGenesis, tip, new_, start, v, h);
      }
    }

    // ---------------------------------------------------------------- the database transaction

    method TxnBegin()
      requires activeBatch.None?
      modifies this`activeBatch
      ensures activeBatch == Some(db)
    {
      activeBatch := Some(db);
    }

    /** A commit can fail; then nothing is written. */
    method TxnCommit(fCommitted: bool)
      requires activeBatch.Some?
      modifies this`activeBatch, this`db
      ensures activeBatch.None? && db == if fCommitted then old(activeBatch.value) else old(db)
    {
      if fCommitted { db := activeBatch.value; }
      activeBatch := None;
    }

    method TxnAbort()
      modifies this`activeBatch
      ensures activeBatch.None?
    {
      activeBatch := None;
    }

    // ---------------------------------------------------------------- one block

    /** ConnectBlock for a block of the tree, inside the open transaction. */
    method ConnectBlockAt(h: Hash) returns (ok: bool, t: Tally)
      requires HasParent(mapBlockIndex, h) && activeBatch.Some?
      modifies this`activeBatch, this`nMint, this`nMoneySupply
      ensures ok <==> BlockConnects(EnvFor(h), old(activeBatch.value.index), mapBlockIndex[h].block,
                                    mapBlockIndex[h].nFile, mapBlockIndex[h].nBlockPos)
      ensures ok ==>
        t ==
        TallyAt(EnvFor(h), old(activeBatch.value.index), Placement(mapBlockIndex[h]), |Placement(mapBlockIndex[h])|)
      ensures ok ==>
        activeBatch ==
        Some(Db(View(old(activeBatch.value.index), Placement(mapBlockIndex[h]), |Placement(mapBlockIndex[h])|),
                old(activeBatch.value.hashBestChain)))
      ensures ok ==> nMint == old(nMint)[h := t.nValueOut - t.nValueIn + t.nFees]
      ensures ok ==> nMoneySupply == old(nMoneySupply)[h := SupplyOf(old(nMoneySupply), Parent(mapBlockIndex, h))
                                                            + t.nValueOut - t.nValueIn]
      ensures !ok ==> activeBatch == old(activeBatch) && nMint == old(nMint) && nMoneySupply == old(nMoneySupply)
    {
      hide BlockConnects, View, TallyAt, EnvFor, Place;
      var bi := mapBlockIndex[h];
      var index;
      ok, index, t := ConnectBlock(EnvFor(h), activeBatch.value.index, bi.block, bi.nFile, bi.nBlockPos);
      if !ok { return; }
      nMint := nMint[h := t.nValueOut - t.nValueIn + t.nFees];
      var nSupply := if bi.pprev.value in nMoneySupply then nMoneySupply[bi.pprev.value] else 0;
      nMoneySupply := nMoneySupply[h := nSupply + t.nValueOut - t.nValueIn];
      activeBatch := Some(activeBatch.value.(index := index));
    }

    // ---------------------------------------------------------------- a branch

    /** The loop of Reorganize over the blocks to disconnect; only a failing read stops it. */
    method DisconnectBranch(io: Io, v: seq<Hash>, ghost from: Hash, ghost to: Hash) returns (ok: bool)
      requires NoCollisions(mapBlockIndex) && Anc(mapBlockIndex, to, from) && BranchSound(mapBlockIndex, from)
      requires v == Back(mapBlockIndex, from, to)
      requires activeBatch.Some? && activeBatch.value.index == IndexAt(mapBlockIndex, from)
      modifies this`activeBatch
      ensures activeBatch.Some?
      ensures ok <==> forall h :: h in v ==> io.readable(h)
      ensures ok ==> activeBatch.value.index == IndexAt(mapBlockIndex, to)
    {
      hide Sound, IndexAt, BranchSound, NoCollisions, Back;
      ghost var cur := from;
      if v == [] { BackEmpty(mapBlockIndex, from, to); } else { BackAt(mapBlockIndex, from, to, 0); }
      for i := 0 to |v|
        invariant cur == if i < |v| then v[i] else to
        invariant BranchSound(mapBlockIndex, cur)
        invariant forall k :: 0 <= k < i ==> io.readable(v[k])
        invariant activeBatch.Some? && activeBatch.value.index == IndexAt(mapBlockIndex, cur)
      {
        BackAt(mapBlockIndex, from, to, i);
        ok := DisconnectTip(io, v[i]);
        if !ok { return; }
        cur := Parent(mapBlockIndex, cur);
      }
      ok := true;
    }

    /** Disconnect the block at the tip of the branch the open transaction stands at. */
    method DisconnectTip(io: Io, h: Hash) returns (ok: bool)
      requires NoCollisions(mapBlockIndex) && HasParent(mapBlockIndex, h) && BranchSound(mapBlockIndex, h)
      requires activeBatch.Some? && activeBatch.value.index == IndexAt(mapBlockIndex, h)
      modifies this`activeBatch
      ensures ok <==> io.readable(h)
      ensures activeBatch.Some? && BranchSound(mapBlockIndex, Parent(mapBlockIndex, h))
      ensures ok ==> activeBatch.value.index == IndexAt(mapBlockIndex, Parent(mapBlockIndex, h))
    {
      hide Sound, IndexAt, BranchSound, Undo, NoCollisions;
      DisconnectOne(mapBlockIndex, h);
      if !io.readable(h) { return false; }
      var bi := mapBlockIndex[h];
      var index;
      ok, index := DisconnectBlock(activeBatch.value.index, bi.block.vtx, Placement(bi));
      if !ok { return; }
      activeBatch := Some(activeBatch.value.(index := index));
    }

    /** The loop of Reorganize over the blocks to connect. */
    method ConnectBranch(io: Io, v: seq<Hash>, ghost from: Hash, ghost to: Hash) returns (ok: bool)
      requires TreeStored(mapBlockIndex, disk) && Anc(mapBlockIndex, to, from)
      requires v == Rev(Back(mapBlockIndex, from, to))
      requires BranchOk(mapBlockIndex, nMoneySupply, disk, to)
      requires activeBatch.Some? && activeBatch.value.index == IndexAt(mapBlockIndex, to)
      requires nBestHeight == Height(mapBlockIndex, pindexBest)
      modifies this`activeBatch, this`nMint, this`nMoneySupply
      ensures activeBatch.Some?
      ensures ok <==> forall h :: h in v ==> io.readable(h) && Connects(h, pindexBest)
      ensures forall h :: SupplyOf(nMoneySupply, h) == SupplyOf(old(nMoneySupply), h) || h in v
      ensures ok ==> activeBatch.value.index == IndexAt(mapBlockIndex, from)
      ensures ok ==> BranchOk(mapBlockIndex, nMoneySupply, disk, from)
    {
      hide Connects, IndexAt, BranchOk, View, TallyAt, Back, Rev, TreeStored;
      ghost var cur := to;
      for i := 0 to |v|
        invariant cur == if i == 0 then to else v[i - 1]
        invariant BranchOk(mapBlockIndex, nMoneySupply, disk, cur)
        invariant activeBatch.Some? && activeBatch.value.index == IndexAt(mapBlockIndex, cur)
        invariant forall k :: 0 <= k < i ==> io.readable(v[k]) && Connects(v[k], pindexBest)
        invariant forall h :: SupplyOf(nMoneySupply, h) == SupplyOf(old(nMoneySupply), h) || h in v
      {
        RevLength(mapBlockIndex, from, to);
        ForthAt(mapBlockIndex, from, to, i);
        if !io.readable(v[i]) { return false; }
        ok := ConnectOne(v[i]);
        if !ok { return; }
        cur := v[i];
      }
      LastIsFrom(mapBlockIndex, from, to);
      ok := true;
    }

    /** Connect a block on top of the branch the open transaction stands at. */
    method ConnectOne(h: Hash) returns (ok: bool)
      requires TreeStored(mapBlockIndex, disk) && HasParent(mapBlockIndex, h)
      requires BranchOk(mapBlockIndex, nMoneySupply, disk, Parent(mapBlockIndex, h))
      requires activeBatch.Some? && activeBatch.value.index == IndexAt(mapBlockIndex, Parent(mapBlockIndex, h))
      requires nBestHeight == Height(mapBlockIndex, pindexBest)
      modifies this`activeBatch, this`nMint, this`nMoneySupply
      ensures activeBatch.Some? && activeBatch.value.hashBestChain == old(activeBatch.value.hashBestChain)
      ensures ok <==> Connects(h, pindexBest)
      ensures if ok then activeBatch.value.index == IndexAt(mapBlockIndex, h) &&
        BranchOk(mapBlockIndex, nMoneySupply, disk, h)
              else nMoneySupply == old(nMoneySupply) && activeBatch == old(activeBatch)
      ensures forall k :: k != h ==> SupplyOf(nMoneySupply, k) == SupplyOf(old(nMoneySupply), k)
    {
      hide BlockConnects, View, TallyAt, BranchSound, BranchSupply, TreeStored;
      ghost var (m, env) := (nMoneySupply, EnvFor(h));
      var t;
      ok, t := ConnectBlockAt(h);
      if ok { ConnectExtends(mapBlockIndex, m, disk, h, env); }
    }

    // ---------------------------------------------------------------- Reorganize

    /** Take the links down from `from` to `to`. */
    method Unlink(v: seq<Hash>, ghost from: Hash, ghost to: Hash)
      requires Anc(mapBlockIndex, to, from) && from in mapBlockIndex
      requires v == Back(mapBlockIndex, from, to) && pnext == Links(mapBlockIndex, from)
      modifies this`pnext
      ensures pnext == Links(mapBlockIndex, to)
    {
      hide Links;
      ghost var cur := from;
      if v == [] { BackEmpty(mapBlockIndex, from, to); } else { BackAt(mapBlockIndex, from, to, 0); }
      for i := 0 to |v|
        invariant cur == if i < |v| then v[i] else to
        invariant pnext == Links(mapBlockIndex, cur)
      {
        BackAt(mapBlockIndex, from, to, i);
        LinksBack(mapBlockIndex, cur);
        pnext := pnext - {mapBlockIndex[v[i]].pprev.value};
        cur := Parent(mapBlockIndex, cur);
      }
    }

    /** Put the links up from `to` to `from`. */
    method Relink(v: seq<Hash>, ghost from: Hash, ghost to: Hash)
      requires Anc(mapBlockIndex, to, from)
      requires v == Rev(Back(mapBlockIndex, from, to)) && pnext == Links(mapBlockIndex, to)
      modifies this`pnext
      ensures pnext == Links(mapBlockIndex, from)
    {
      hide Back, Rev;
      ghost var cur := to;
      for i := 0 to |v|
        invariant cur == if i == 0 then to else v[i - 1]
        invariant pnext == Links(mapBlockIndex, cur)
      {
        RevLength(mapBlockIndex, from, to);
        ForthAt(mapBlockIndex, from, to, i);
        pnext := pnext[mapBlockIndex[v[i]].pprev.value := v[i]];
        cur := v[i];
      }
      LastIsFrom(mapBlockIndex, from, to);
    }

    /** The part of Reorganize that works inside the transaction. */
    method SwitchBranch(io: Io, vDisconnect: seq<Hash>, vConnect: seq<Hash>, ghost pfork: Hash, new_: Hash)
      returns (ok: bool)
      requires nBestHeight == Height(mapBlockIndex, pindexBest)
      requires NoCollisions(mapBlockIndex) && TreeStored(mapBlockIndex, disk) && new_ in mapBlockIndex
      requires HighestCommon(mapBlockIndex, pfork, pindexBest, new_)
      requires vDisconnect == Back(mapBlockIndex, pindexBest, pfork)
      requires vConnect == Rev(Back(mapBlockIndex, new_, pfork))
      requires BranchOk(mapBlockIndex, nMoneySupply, disk, pindexBest)
      requires activeBatch.Some? && activeBatch.value.index == IndexAt(mapBlockIndex, pindexBest)
      modifies this`activeBatch, this`nMint, this`nMoneySupply
      ensures activeBatch.Some?
      ensures ok <==> (BranchConnects(pindexBest, new_) &&
        forall h :: Anc(mapBlockIndex, h, pindexBest) != Anc(mapBlockIndex, h, new_) ==> io.readable(h))
      ensures BranchOk(mapBlockIndex, nMoneySupply, disk, pindexBest)
      ensures ok ==> activeBatch.value.index == IndexAt(mapBlockIndex, new_)
      ensures ok ==> BranchOk(mapBlockIndex, nMoneySupply, disk, new_)
    {
      hide BranchOk, IndexAt, Back, Rev, HighestCommon, NoCollisions, TreeStored, Connects;
      ForkFacts(mapBlockIndex, nMoneySupply, disk, pfork, pindexBest, new_);
      ForkSides(mapBlockIndex, pfork, pindexBest, new_);
      ok := DisconnectBranch(io, vDisconnect, pindexBest, pfork);
      if !ok { return; }
      ghost var m := nMoneySupply;
      ok := ConnectBranch(io, vConnect, new_, pfork);
      OtherBranchKept(mapBlockIndex, m, nMoneySupply, disk, pfork, pindexBest, new_);
    }

    /** Reorganize inside an open transaction: from the tip of the active branch to the block new_.
        On success the index, the links and the records are those of the branch of new_; pfork is
        the highest common ancestor.  On failure the committed state and the links are untouched.
        It succeeds exactly when every new block connects and no read and not the commit fails. */
    method Reorganize(io: Io, new_: Hash) returns (ok: bool, pfork: Hash)
      requires TreeOk() && StandsAt(pindexBest) && new_ in mapBlockIndex && activeBatch == Some(db)
      requires nBestHeight == Height(mapBlockIndex, pindexBest)
      modifies this`activeBatch, this`db, this`pnext, this`nMint, this`nMoneySupply
      ensures HighestCommon(mapBlockIndex, pfork, pindexBest, new_)
      ensures ok <==> BranchConnects(pindexBest, new_) && SwitchIo(io, pindexBest, new_)
      ensures ok ==> StandsAt(new_) && activeBatch.None?
      ensures !ok ==> StandsAt(pindexBest) && db == old(db) && pnext == old(pnext)
    {
      hide BranchOk, Links, IndexAt, Back, Rev, HighestCommon, NoCollisions, TreeStored, Shaped, BranchConnects;
      var found;
      found, pfork := FindFork(mapBlockIndex, hashGenesis, pindexBest, new_);
      ForkFacts(mapBlockIndex, nMoneySupply, disk, pfork, pindexBest, new_);
      var vDisconnect := ListBack(mapBlockIndex, pindexBest, pfork);
      var vBack := ListBack(mapBlockIndex, new_, pfork);
      var vConnect := Rev(vBack);
      ok := SwitchBranch(io, vDisconnect, vConnect, pfork, new_);
      if !ok { return; }
      CommitSwitch(io.commits(new_), vDisconnect, vConnect, pfork, new_);
      ok := io.commits(new_);
    }

    /** The end of Reorganize: commit, then take the old links down and put the new ones up. */
    method CommitSwitch(fCommitted: bool, vDisconnect: seq<Hash>, vConnect: seq<Hash>, ghost pfork: Hash, new_: Hash)
      requires StandsAt(pindexBest) && new_ in mapBlockIndex && BranchOk(mapBlockIndex, nMoneySupply, disk, new_)
      requires Anc(mapBlockIndex, pfork, pindexBest) && Anc(mapBlockIndex, pfork, new_)
      requires vDisconnect == Back(mapBlockIndex, pindexBest, pfork)
      requires vConnect == Rev(Back(mapBlockIndex, new_, pfork))
      requires activeBatch.Some? && activeBatch.value.index == IndexAt(mapBlockIndex, new_)
      modifies this`activeBatch, this`db, this`pnext
      ensures fCommitted ==> StandsAt(new_) && activeBatch.None?
      ensures !fCommitted ==> StandsAt(pindexBest) && db == old(db) && pnext == old(pnext)
    {
      hide BranchOk, Links, IndexAt, Back, Rev, Anc;
      activeBatch := Some(activeBatch.value.(hashBestChain := new_));
      TxnCommit(fCommitted);
      if !fCommitted { return; }
      Unlink(vDisconnect, pindexBest, pfork);
      Relink(vConnect, new_, pfork);
    }

    // ---------------------------------------------------------------- SetBestChain

    /** Attach one block to the chain the database stands at, in a transaction of its own. */
    method SetBestChainInner(fCommitted: bool, h: Hash) returns (ok: bool)
      requires TreeOk() && HasParent(mapBlockIndex, h) && StandsAt(Parent(mapBlockIndex, h)) && activeBatch == Some(db)
      requires nBestHeight == Height(mapBlockIndex, pindexBest)
      modifies this`activeBatch, this`db, this`pnext, this`nMint, this`nMoneySupply
      ensures activeBatch.None?
      ensures ok <==> Connects(h, pindexBest) && fCommitted
      ensures if ok then StandsAt(h)
              else StandsAt(Parent(mapBlockIndex, h)) && db == old(db) && pnext == old(pnext)
    {
      hide BranchOk, IndexAt, TreeStored, NoCollisions, Shaped, WellFormed, Connects;
      ghost var m := nMoneySupply;
      ok := ConnectOne(h);
      if ok {
        activeBatch := Some(activeBatch.value.(hashBestChain := h));
      } else {
        TxnAbort();
        return;
      }
      ParentKept(mapBlockIndex, m, nMoneySupply, disk, h);
      TxnCommit(fCommitted);
      if !fCommitted { return false; }
      pnext := pnext[mapBlockIndex[h].pprev.value := h];
    }

    /** Connect the postponed blocks, each in a transaction of its own.  A failure ends the loop; conn
        is the last block connected. */
    method ConnectSecondary(io: Io, new_: Hash, start: Hash, v: seq<Hash>) returns (conn: Hash)
      requires nBestHeight == Height(mapBlockIndex, pindexBest)
      requires TreeOk() && StandsAt(start) && activeBatch.None? && Secondary(mapBlockIndex, new_, start, v)
      requires new_ in mapBlockIndex
      modifies this`activeBatch, this`db, this`pnext, this`nMint, this`nMoneySupply
      ensures StandsAt(conn) && activeBatch.None? && Anc(mapBlockIndex, conn, new_)
      ensures conn == new_ <==> forall h :: h in v ==> Attaches(io, h, pindexBest)
      ensures conn != new_ ==> exists h :: h in v && HasParent(mapBlockIndex, h) && Parent(mapBlockIndex, h) == conn
                                           && !Attaches(io, h, pindexBest)
    {
      hide StandsAt, TreeOk, Connects;
      conn := start;
      for i := |v| downto 0
        invariant conn == if i < |v| then v[i] else start
        invariant StandsAt(conn) && activeBatch.None?
        invariant forall k :: i <= k < |v| ==> Attaches(io, v[k], pindexBest)
      {
        StoppedEarly(mapBlockIndex, new_, start, v, i);
        assert v[i] in v;
        if !io.readable(v[i]) { return; }
        TxnBegin();
        var ok := SetBestChainInner(io.commits(v[i]), v[i]);
        if !ok { return; }
        conn := v[i];
      }
    }

    /** SetBestChain.  On success the tip is new_ and everything the database, the links and the
        records hold belongs to the branch of conn, the last block connected; the state is whole
        exactly when that is new_ itself, and else the block after conn could not be attached.  On
        failure nothing committed has changed.  New_ is reached exactly when every block new to the
        old tip connects and no read and no commit fails. */
    method SetBestChain(io: Io, new_: Hash) returns (ok: bool, conn: Hash)
      requires Valid() && new_ in mapBlockIndex
      modifies this`activeBatch, this`db, this`pnext, this`nMint, this`nMoneySupply,
               this`pindexBest, this`hashBestChain, this`nBestHeight, this`nBestChainTrust, this`pblockindexFBBHLast
      ensures ok ==> TipIs(new_) && StandsAt(conn) && activeBatch.None? && Anc(mapBlockIndex, conn, new_)
      ensures ok ==> (Valid() <==> conn == new_)
      ensures !ok ==> Valid() && pindexBest == old(pindexBest) && db == old(db) && pnext == old(pnext)
      ensures ok <==> Succeeds(io, old(pindexBest), new_)
      ensures ok && conn == new_ <==> Reaches(io, old(pindexBest), new_)
      ensures ok && conn != new_ ==> StopsAt(io, old(pindexBest), new_, conn)
    {
      hide StandsAt, TreeStored, NoCollisions, Shaped, HighestCommon, Secondary, Connects, TrustedMore;
      hide SwitchIo, StopsAt, Postponed, Intermediate;
      ghost var best := pindexBest;
      conn := new_;
      TxnBegin();
      if mapBlockIndex[new_].block.hashPrev == hashBestChain {
        OneNewBlock(mapBlockIndex, hashGenesis, best, new_);
        ok := SetBestChainInner(io.commits(new_), new_);
        if !ok { return; }
      } else {
        ok, conn := SwitchTo(io, new_);
        if !ok { return; }
      }
      NewTip(new_, conn);
    }

    /** The branch of SetBestChain for a block that does not follow the tip. */
    method SwitchTo(io: Io, new_: Hash) returns (ok: bool, conn: Hash)
      requires TreeOk() && StandsAt(pindexBest) && activeBatch == Some(db)
      requires new_ in mapBlockIndex && pindexBest in mapBlockIndex
      requires nBestHeight == Height(mapBlockIndex, pindexBest) && mapBlockIndex[new_].block.hashPrev != pindexBest
      modifies this`activeBatch, this`db, this`pnext, this`nMint, this`nMoneySupply
      ensures activeBatch.None?
      ensures ok ==> StandsAt(conn) && Anc(mapBlockIndex, conn, new_)
      ensures !ok ==> StandsAt(pindexBest) && db == old(db) && pnext == old(pnext)
      ensures ok <==> Succeeds(io, pindexBest, new_)
      ensures ok && conn == new_ <==> Reaches(io, pindexBest, new_)
      ensures ok && conn != new_ ==> StopsAt(io, pindexBest, new_, conn)
    {
      hide StandsAt, TreeStored, NoCollisions, Shaped, HighestCommon, Secondary, TrustedMore, EntryOk, Intermediate;
      hide BranchConnects, SwitchIo, Attaches, Succeeds, Reaches, StopsAt, Postponed, WellFormed;
      var pindexIntermediate, vpindexSecondary := FindIntermediate(mapBlockIndex, hashGenesis, pindexBest, new_);
      var pfork;
      SwitchCases(io, pindexBest, new_, vpindexSecondary);
      conn := new_;
      ok, pfork := Reorganize(io, pindexIntermediate);
      if !ok {
        TxnAbort();
        return;
      }
      conn := ConnectSecondary(io, new_, pindexIntermediate, vpindexSecondary);
    }

    // ---------------------------------------------------------------- a new block

    /** A node that knows only genesis. */
    constructor (rules: ScriptRules, nCoinbaseMaturity: nat, nTotalBlocksEstimate: nat, genesis: BlockIndex)
      requires genesis.pprev.None? && genesis.nHeight == 0 && genesis.block.hashPrev != genesis.block.hash
      ensures Valid() && pindexBest == genesis.block.hash && mapBlockIndex == map[genesis.block.hash := genesis]
      ensures hashGenesis == genesis.block.hash && disk == map[] && nBestChainTrust == genesis.nChainTrust
    {
      this.rules, this.nCoinbaseMaturity, this.nTotalBlocksEstimate := rules, nCoinbaseMaturity, nTotalBlocksEstimate;
      hashGenesis := genesis.block.hash;
      mapBlockIndex := map[genesis.block.hash := genesis];
      pnext, nMint, nMoneySupply := map[], map[], map[];
      disk, mempool := map[], map[];
      db, activeBatch := Db(map[], genesis.block.hash), None;
      pindexBest, hashBestChain := genesis.block.hash, genesis.block.hash;
      nBestHeight, nBestChainTrust := 0, genesis.nChainTrust;
      pblockindexFBBHLast := None;
      new;
      GenesisAlone(mapBlockIndex, genesis);
    }

    /** The index entry of a block that is about to be stored. */
    method NewIndex(b: Block, nFile: nat, nBlockPos: nat, nBlockTrust: nat) returns (bi: BlockIndex)
      requires b.hashPrev in mapBlockIndex
      ensures bi == IndexFor(b, nFile, nBlockPos, nBlockTrust)
    {
      var parent := mapBlockIndex[b.hashPrev];
      bi := BlockIndex(b, Some(b.hashPrev), parent.nHeight + 1, nFile, nBlockPos, parent.nChainTrust + nBlockTrust);
    }

    /** Put a block that passed the checks of AcceptBlock into the files and the tree. */
    method StoreBlock(b: Block, nFile: nat, nBlockPos: nat, nBlockTrust: nat)
      requires Valid() && Storable(b, nFile, nBlockPos, nBlockTrust)
      requires HashingFaithful(mapBlockIndex[b.hash := IndexFor(b, nFile, nBlockPos, nBlockTrust)])
      modifies this`mapBlockIndex, this`disk
      ensures Valid() && mapBlockIndex == old(mapBlockIndex)[b.hash := old(IndexFor(b, nFile, nBlockPos, nBlockTrust))]
      ensures DiskAppends(old(disk), disk, nFile)
    {
      hide TreeStored, Shaped, HashingFaithful, NoCollisions, WriteTo, BlockOk, Place, BranchSound, BranchSupply, Anc;
      hide IndexAt, Links;
      ghost var (t, disk0) := (mapBlockIndex, disk);
      var bi := NewIndex(b, nFile, nBlockPos, nBlockTrust);
      disk := WriteTo(disk, Place(b.vtx, nFile, nBlockPos), |b.vtx|);
      mapBlockIndex := mapBlockIndex[b.hash := bi];
      GrownTree(t, mapBlockIndex, hashGenesis, disk0, disk, bi);
      HeightRuleSeparates(mapBlockIndex);
      SameBranch(t, mapBlockIndex, hashGenesis, pindexBest);
      SameSupply(t, mapBlockIndex, hashGenesis, nMoneySupply, disk0, disk, pindexBest);
      if pblockindexFBBHLast.Some? {
        SameAncestors(t, mapBlockIndex, hashGenesis, pblockindexFBBHLast.value, pindexBest);
      }
    }

    /** What becomes of block h, now in the tree, when the tip was best with that trust: a more trusted
        branch is switched to as far as it connects. */
    ghost predicate Added(io: Io, best: Hash, nBestTrust: nat, h: Hash, ok: bool, conn: Hash)
      requires best in mapBlockIndex && h in mapBlockIndex
      reads this
    {
      if mapBlockIndex[h].nChainTrust <= nBestTrust then ok && conn == best
      else
        && (ok <==> Succeeds(io, best, h))
        && (ok && conn == h <==> Reaches(io, best, h))
        && (ok ==> TipIs(h) && StandsAt(conn) && Anc(mapBlockIndex, conn, h) && (Valid() <==> conn == h))
        && (ok && conn != h ==> StopsAt(io, best, h, conn))
    }

    /** AddToBlockIndex: the block enters the tree, and becomes the tip if its branch is the most trusted. */
    method AddToBlockIndex(io: Io, b: Block, nFile: nat, nBlockPos: nat, nBlockTrust: nat)
      returns (ok: bool, conn: Hash)
      requires b.hashPrev in mapBlockIndex && pindexBest in mapBlockIndex
      requires Valid() && Storable(b, nFile, nBlockPos, nBlockTrust)
      requires HashingFaithful(mapBlockIndex[b.hash := IndexFor(b, nFile, nBlockPos, nBlockTrust)])
      modifies this
      ensures mapBlockIndex == old(mapBlockIndex)[b.hash := old(IndexFor(b, nFile, nBlockPos, nBlockTrust))]
      ensures old(pindexBest) in mapBlockIndex && DiskAppends(old(disk), disk, nFile)
      ensures Added(io, old(pindexBest), old(nBestChainTrust), b.hash, ok, conn)
      ensures !ok || mapBlockIndex[b.hash].nChainTrust <= old(nBestChainTrust) ==>
                Valid() && pindexBest == old(pindexBest) && db == old(db) && pnext == old(pnext)
    {
      hide Valid, Storable, HashingFaithful, Added, IndexFor;
      StoreBlock(b, nFile, nBlockPos, nBlockTrust);
      ok, conn := Prefer(io, b.hash);
    }

    /** Switch to the branch of block h if it is the most trusted. */
    method Prefer(io: Io, h: Hash) returns (ok: bool, conn: Hash)
      requires h in mapBlockIndex && pindexBest in mapBlockIndex && Valid()
      modifies this`activeBatch, this`db, this`pnext, this`nMint, this`nMoneySupply,
               this`pindexBest, this`hashBestChain, this`nBestHeight, this`nBestChainTrust, this`pblockindexFBBHLast
      ensures Added(io, old(pindexBest), old(nBestChainTrust), h, ok, conn)
      ensures !ok || mapBlockIndex[h].nChainTrust <= old(nBestChainTrust) ==>
                Valid() && pindexBest == old(pindexBest) && db == old(db) && pnext == old(pnext)
    {
      hide Valid, StandsAt, TipIs, Anc, Succeeds, Reaches, StopsAt;
      ok, conn := true, pindexBest;
      if mapBlockIndex[h].nChainTrust > nBestChainTrust { ok, conn := SetBestChain(io, h); }
    }

    /** AcceptBlock for a block that passed CheckBlock.  fContextOk stands for the
        checks against the clock, the targets, the lock times and the checkpoints.  A block that is
        not refused goes to AddToBlockIndex. */
    method AcceptBlock(io: Io, b: Block, nFile: nat, nBlockPos: nat, nBlockTrust: nat, fContextOk: bool)
      returns (ok: bool, conn: Hash)
      requires pindexBest in mapBlockIndex && Valid() && BlockOk(b)
      requires WouldStore(b, fContextOk) ==> Storable(b, nFile, nBlockPos, nBlockTrust)
      requires WouldStore(b, fContextOk) ==>
                 HashingFaithful(mapBlockIndex[b.hash := IndexFor(b, nFile, nBlockPos, nBlockTrust)])
      modifies this
      ensures DiskAppends(old(disk), disk, nFile)
      ensures !old(WouldStore(b, fContextOk)) ==>
                !ok && Valid() && mapBlockIndex == old(mapBlockIndex) && db == old(db) && pindexBest == old(pindexBest)
      ensures old(WouldStore(b, fContextOk)) ==>
                && mapBlockIndex == old(mapBlockIndex)[b.hash := old(IndexFor(b, nFile, nBlockPos, nBlockTrust))]
                && old(pindexBest) in mapBlockIndex
                && Added(io, old(pindexBest), old(nBestChainTrust), b.hash, ok, conn)
                && (!ok || mapBlockIndex[b.hash].nChainTrust <= old(nBestChainTrust) ==>
                      Valid() && pindexBest == old(pindexBest) && db == old(db) && pnext == old(pnext))
    {
      hide Valid, BlockOk, Storable, HashingFaithful, StandsAt, TipIs, Anc, Added, IndexFor;
      conn := pindexBest;
      HasCoinBase(b);
      if b.hash in mapBlockIndex { return false, conn; }
      if b.hashPrev !in mapBlockIndex { return false, conn; }
      if !fContextOk { return false, conn; }
      if !(PushInt(mapBlockIndex[b.hashPrev].nHeight + 1) <= b.vtx[0].vin[0].scriptSig) { return false, conn; }
      ok, conn := AddToBlockIndex(io, b, nFile, nBlockPos, nBlockTrust);
    }

    /** AcceptBlock finds nothing to refuse. */
    predicate WouldStore(b: Block, fContextOk: bool)
      reads this`mapBlockIndex
    {
      && b.hash !in mapBlockIndex && b.hashPrev in mapBlockIndex && fContextOk
      && |b.vtx| > 0 && |b.vtx[0].vin| > 0
      && PushInt(mapBlockIndex[b.hashPrev].nHeight + 1) <= b.vtx[0].vin[0].scriptSig
    }

    /** The index entry AddToBlockIndex makes for a block. */
    function IndexFor(b: Block, nFile: nat, nBlockPos: nat, nBlockTrust: nat): BlockIndex
      requires b.hashPrev in mapBlockIndex
      reads this`mapBlockIndex
    {
      BlockIndex(b, Some(b.hashPrev), mapBlockIndex[b.hashPrev].nHeight + 1, nFile, nBlockPos,
                 mapBlockIndex[b.hashPrev].nChainTrust + nBlockTrust)
    }

    /** A new block with a known parent and the right height in its coinbase, at a free place. */
    ghost predicate Storable(b: Block, nFile: nat, nBlockPos: nat, nBlockTrust: nat)
      reads this`mapBlockIndex, this`disk
    {
      && b.hash !in mapBlockIndex && b.hashPrev in mapBlockIndex
      && BlockOk(b)
      && PushInt(mapBlockIndex[b.hashPrev].nHeight + 1) <= b.vtx[0].vin[0].scriptSig
      && (forall i :: 0 <= i < |b.vtx| ==> Place(b.vtx, nFile, nBlockPos)[i].pos !in disk)
      && (hashGenesis in mapBlockIndex ==> mapBlockIndex[hashGenesis].block.hashPrev != b.hash)
    }

    // ---------------------------------------------------------------- looking up a height

    /** FindBlockByHeight starts from genesis, the tip or the block found last, whichever is thought
        nearest, and walks; it returns the block of that height on the active branch. */
    method FindBlockByHeight(nHeight: nat) returns (pblockindex: Hash)
      requires Valid() && nHeight <= nBestHeight
      modifies this`pblockindexFBBHLast
      ensures Valid() && pblockindexFBBHLast == Some(pblockindex)
      ensures |Branch(mapBlockIndex, pindexBest)| == nBestHeight + 1
      ensures pblockindex == Branch(mapBlockIndex, pindexBest)[nHeight]
    {
      hide NoCollisions, TreeStored, Shaped, BranchOk, IndexAt, Links, Branch;
      ghost var t := mapBlockIndex;
      GenesisIsRoot(t, hashGenesis, pindexBest);
      pblockindex := if nHeight < nBestHeight / 2 then hashGenesis else pindexBest;
      if pblockindexFBBHLast.Some? {
        AncInTree(t, pblockindexFBBHLast.value, pindexBest);
        var last := mapBlockIndex[pblockindexFBBHLast.value];
        if Abs(nHeight - mapBlockIndex[pblockindex].nHeight) > Abs(nHeight - last.nHeight) {
          pblockindex := pblockindexFBBHLast.value;
        }
      }
      pblockindex := WalkDown(pblockindex, nHeight);
      pblockindex := WalkUp(pblockindex, nHeight);
      pblockindexFBBHLast := Some(pblockindex);
      BranchAt(t, hashGenesis, pblockindex, pindexBest);
    }

    method WalkDown(start: Hash, nHeight: nat) returns (p: Hash)
      requires WellFormed(mapBlockIndex, hashGenesis) && start in mapBlockIndex && Anc(mapBlockIndex, start, pindexBest)
      ensures p in mapBlockIndex && Anc(mapBlockIndex, p, pindexBest) && mapBlockIndex[p].nHeight <= nHeight
    {
      p := start;
      while mapBlockIndex[p].nHeight > nHeight
        invariant p in mapBlockIndex && Anc(mapBlockIndex, p, pindexBest)
        decreases mapBlockIndex[p].nHeight
      {
        assert EntryOk(mapBlockIndex, hashGenesis, p);
        AncTrans(mapBlockIndex, Parent(mapBlockIndex, p), p, pindexBest);
        p := mapBlockIndex[p].pprev.value;
      }
    }

    method WalkUp(start: Hash, nHeight: nat) returns (p: Hash)
      requires WellFormed(mapBlockIndex, hashGenesis) && start in mapBlockIndex && Anc(mapBlockIndex, start, pindexBest)
      requires mapBlockIndex[start].nHeight <= nHeight <= Height(mapBlockIndex, pindexBest)
      requires pindexBest in mapBlockIndex && pnext == Links(mapBlockIndex, pindexBest)
      ensures p in mapBlockIndex && Anc(mapBlockIndex, p, pindexBest) && mapBlockIndex[p].nHeight == nHeight
    {
      hide Links;
      p := start;
      while mapBlockIndex[p].nHeight < nHeight
        invariant p in mapBlockIndex && Anc(mapBlockIndex, p, pindexBest) && mapBlockIndex[p].nHeight <= nHeight
        decreases nHeight - mapBlockIndex[p].nHeight
      {
        LinksUp(mapBlockIndex, p, pindexBest);
        p := pnext[p];
        assert EntryOk(mapBlockIndex, hashGenesis, p);
      }
    }

    // ---------------------------------------------------------------- a new tip

    method NewTip(new_: Hash, ghost conn: Hash)
      requires TreeOk() && new_ in mapBlockIndex && StandsAt(conn) && activeBatch.None?
      modifies this`pindexBest, this`hashBestChain, this`nBestHeight, this`nBestChainTrust, this`pblockindexFBBHLast
      ensures TipIs(new_) && StandsAt(conn) && (Valid() <==> conn == new_)
    {
      hide TreeOk, BranchOk, IndexAt, Links;
      hashBestChain := new_;
      pindexBest := new_;
      pblockindexFBBHLast := None;
      nBestHeight := mapBlockIndex[new_].nHeight;
      nBestChainTrust := mapBlockIndex[new_].nChainTrust;
    }
  }
}
