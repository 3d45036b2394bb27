/** Synchronized checkpoints (src/checkpoints.cpp) in STRICT mode on the main network: a protocol
    over the block tree, run together with AcceptBlock and SetBestChain. */
module Checkpoints {
  import opened Transactions
  import opened Money
  import opened Blocks
  import opened BlockConnection
  import opened BlockTree
  import opened CoinbaseHeight
  import opened Chain

  // ------------------------------------------------------------------------------------------
  // Descent
  // ------------------------------------------------------------------------------------------

  /** Two blocks of one height with a common descendant are one block. */
  lemma {:induction false} SameHeight(t: Tree, a: Hash, b: Hash, h: Hash)
    requires h in t && Anc(t, a, h) && Anc(t, b, h) && Height(t, a) == Height(t, b)
    ensures a == b
  {
    AncInTree(t, a, h);
    AncInTree(t, b, h);
    AncLinear(t, a, b, h);
    AncInTree(t, a, b);
  }

  lemma {:induction false} LowerExists(t: Tree, hashGenesis: Hash, p: Hash, height: nat)
    requires WellFormed(t, hashGenesis) && p in t && t[p].nHeight > height
    ensures HasParent(t, p) && t[Parent(t, p)].nHeight == t[p].nHeight - 1
  {
    assert EntryOk(t, hashGenesis, p);
  }

  /** Follows pprev down to a height: x is an ancestor exactly when the walk ends there. */
  method TraceBack(t: Tree, hashGenesis: Hash, from: Hash, x: Hash) returns (pindex: Hash)
    requires WellFormed(t, hashGenesis) && from in t && x in t && t[x].nHeight <= t[from].nHeight
    ensures pindex in t && t[pindex].nHeight == t[x].nHeight && Anc(t, pindex, from)
    ensures pindex == x <==> Anc(t, x, from)
  {
    pindex := from;
    while t[pindex].nHeight > t[x].nHeight
      invariant pindex in t && Anc(t, pindex, from) && t[x].nHeight <= t[pindex].nHeight
      decreases t[pindex].nHeight
    {
      LowerExists(t, hashGenesis, pindex, t[x].nHeight);
      AncTrans(t, Parent(t, pindex), pindex, from);
      pindex := t[pindex].pprev.value;
    }
    if Anc(t, x, from) { SameHeight(t, x, pindex, from); }
  }

  // ------------------------------------------------------------------------------------------
  // Runs
  // ------------------------------------------------------------------------------------------

  datatype State = State(tree: Tree, sync: Hash, best: Hash)

  /** The checkpoint and the tip are blocks, and the checkpoint is on the active branch. */
  ghost predicate Safe(s: State, hashGenesis: Hash) {
    && WellFormed(s.tree, hashGenesis) && s.best in s.tree && s.sync in s.tree && Anc(s.tree, s.sync, s.best)
  }

  /** The tree grew by descendants of the checkpoint that was in force, and the checkpoint moved, if
      at all, to a strict descendant. */
  ghost predicate Step(s: State, s': State) {
    && Extends(s.tree, s'.tree)
    && (forall h :: h in s'.tree && h !in s.tree ==> Anc(s'.tree, s.sync, h))
    && Anc(s'.tree, s.sync, s'.sync)
  }

  ghost predicate Run(run: seq<State>, hashGenesis: Hash) {
    && |run| > 0 && (forall i :: 0 <= i < |run| ==> Safe(run[i], hashGenesis))
    && forall i :: 0 <= i < |run| - 1 ==> Step(run[i], run[i + 1])
  }

  lemma {:induction false} ExtendsOver(run: seq<State>, hashGenesis: Hash, i: nat, j: nat)
    requires Run(run, hashGenesis) && i <= j < |run|
    ensures Extends(run[i].tree, run[j].tree)
    decreases j - i
  {
    if i < j {
      ExtendsOver(run, hashGenesis, i, j - 1);
      assert Step(run[j - 1], run[j - 1 + 1]);
    }
  }

  /** In every run the checkpoint only moves to descendants, its height never falls, and it stays
      where it is if its height does. */
  lemma {:induction false} CheckpointsDescend(run: seq<State>, hashGenesis: Hash, i: nat, j: nat)
    requires Run(run, hashGenesis) && i <= j < |run|
    ensures Anc(run[j].tree, run[i].sync, run[j].sync)
    ensures Height(run[i].tree, run[i].sync) <= Height(run[j].tree, run[j].sync)
    ensures Height(run[i].tree, run[i].sync) == Height(run[j].tree, run[j].sync) ==> run[i].sync == run[j].sync
    decreases j - i
  {
    hide WellFormed;
    ExtendsOver(run, hashGenesis, i, j);
    if i < j {
      CheckpointsDescend(run, hashGenesis, i, j - 1);
      assert Step(run[j - 1], run[j - 1 + 1]);
      SameAncestors(run[j - 1].tree, run[j].tree, hashGenesis, run[i].sync, run[j - 1].sync);
      AncTrans(run[j].tree, run[i].sync, run[j - 1].sync, run[j].sync);
    }
    AncInTree(run[j].tree, run[i].sync, run[j].sync);
  }

  /** No block outside the branch of a checkpoint is accepted once it is in force, and at every later
      moment the tip descends from it. */
  lemma {:induction false} CheckpointsHold(run: seq<State>, hashGenesis: Hash, i: nat, j: nat, h: Hash)
    requires Run(run, hashGenesis) && i <= j < |run| && h in run[j].tree && h !in run[i].tree
    ensures Anc(run[j].tree, run[i].sync, h)
    decreases j - i
  {
    hide WellFormed;
    ExtendsOver(run, hashGenesis, i, j);
    if i < j {
      assert Step(run[j - 1], run[j - 1 + 1]);
      if h in run[j - 1].tree {
        CheckpointsHold(run, hashGenesis, i, j - 1, h);
        SameAncestors(run[j - 1].tree, run[j].tree, hashGenesis, run[i].sync, h);
      } else {
        CheckpointsDescend(run, hashGenesis, i, j - 1);
        SameAncestors(run[j - 1].tree, run[j].tree, hashGenesis, run[i].sync, run[j - 1].sync);
        AncTrans(run[j].tree, run[i].sync, run[j - 1].sync, h);
      }
    }
  }

  lemma {:induction false} TipsDescend(run: seq<State>, hashGenesis: Hash, i: nat, j: nat)
    requires Run(run, hashGenesis) && i <= j < |run|
    ensures Anc(run[j].tree, run[i].sync, run[j].best)
  {
    CheckpointsDescend(run, hashGenesis, i, j);
    AncTrans(run[j].tree, run[i].sync, run[j].sync, run[j].best);
  }

  /** Between an earlier and a later state: the checkpoint is the same or a strictly higher
      descendant, the tip descends from the earlier checkpoint, and so does every block that is new. */
  ghost predicate Held(s: State, s': State) {
    && Anc(s'.tree, s.sync, s'.sync) && (s'.sync == s.sync || Height(s'.tree, s.sync) < Height(s'.tree, s'.sync))
    && Anc(s'.tree, s.sync, s'.best)
    && forall h :: h in s'.tree && h !in s.tree ==> Anc(s'.tree, s.sync, h)
  }

  lemma {:induction false} AllHeld(run: seq<State>, hashGenesis: Hash)
    requires Run(run, hashGenesis)
    ensures forall i, j :: 0 <= i <= j < |run| ==> Held(run[i], run[j])
  {
    forall i, j | 0 <= i <= j < |run| ensures Held(run[i], run[j]) {
      ExtendsOver(run, hashGenesis, i, j);
      CheckpointsDescend(run, hashGenesis, i, j);
      TipsDescend(run, hashGenesis, i, j);
      AncInTree(run[j].tree, run[i].sync, run[j].sync);
      forall h | h in run[j].tree && h !in run[i].tree ensures Anc(run[j].tree, run[i].sync, h) {
        CheckpointsHold(run, hashGenesis, i, j, h);
      }
    }
  }

  lemma {:induction false} RunOn(run: seq<State>, s: State, hashGenesis: Hash)
    requires Run(run, hashGenesis) && Safe(s, hashGenesis) && Step(run[|run| - 1], s)
    ensures Run(run + [s], hashGenesis)
    ensures forall h :: h in run[|run| - 1].tree ==> h in s.tree && s.tree[h] == run[|run| - 1].tree[h]
    ensures s.best in s.tree
  {
    hide Safe, Step;
    var run' := run + [s];
    forall i | 0 <= i < |run'| - 1 ensures Step(run'[i], run'[i + 1]) {
      if i < |run| - 1 { assert Step(run[i], run[i + 1]); }
    }
    StepGrows(run[|run| - 1], s, hashGenesis);
  }

  lemma {:induction false} StepGrows(s: State, s': State, hashGenesis: Hash)
    requires Step(s, s') && Safe(s', hashGenesis)
    ensures forall h :: h in s.tree ==> h in s'.tree && s'.tree[h] == s.tree[h]
    ensures s'.best in s'.tree
  {
  }

  // ------------------------------------------------------------------------------------------
  // The protocol
  // ------------------------------------------------------------------------------------------

  /** h is a block of the tree that strictly descends from a. */
  predicate StrictlyBelow(t: Tree, a: Hash, h: Hash) { h in t && h != a && Anc(t, a, h) }

  const NO_HASH: Hash := 0

  /** What can fail in making a checkpoint current: what SetBestChain needs, the read of the
      checkpoint's block, and the write of its hash. */
  datatype CheckpointIo = CheckpointIo(chain: Io, fRead: bool, fWritten: bool)

  lemma {:induction false} SafeFacts(s: State, hashGenesis: Hash)
    requires Safe(s, hashGenesis)
    ensures WellFormed(s.tree, hashGenesis) && s.best in s.tree && s.sync in s.tree
  {
  }

  lemma {:induction false} Unchanged(s: State)
    ensures Step(s, s)
  {
  }

  lemma {:induction false} StepsCompose(a: State, b: State, c: State, hashGenesis: Hash)
    requires Step(a, b) && Step(b, c) && Safe(b, hashGenesis) && Safe(a, hashGenesis)
    ensures Step(a, c)
  {
    hide WellFormed;
    SameAncestors(b.tree, c.tree, hashGenesis, a.sync, b.sync);
    AncTrans(c.tree, a.sync, b.sync, c.sync);
    forall h | h in c.tree && h !in a.tree ensures Anc(c.tree, a.sync, h) {
      if h in b.tree {
        SameAncestors(b.tree, c.tree, hashGenesis, a.sync, h);
      } else {
        AncTrans(c.tree, a.sync, b.sync, h);
      }
    }
  }

  lemma {:induction false} EnteredBelow(s: State, hashGenesis: Hash, bi: BlockIndex, best: Hash)
    requires Safe(s, hashGenesis) && bi.block.hash !in s.tree && s.tree[hashGenesis].block.hashPrev != bi.block.hash
    requires bi.pprev == Some(bi.block.hashPrev) && bi.block.hashPrev in s.tree
    requires bi.nHeight == s.tree[bi.block.hashPrev].nHeight + 1
    requires bi.nChainTrust >= s.tree[bi.block.hashPrev].nChainTrust
    requires Anc(s.tree, s.sync, bi.block.hashPrev) && (best == s.best || best == bi.block.hash)
    ensures var s' := State(s.tree[bi.block.hash := bi], s.sync, best);
      Safe(s', hashGenesis) && Step(s, s')
  {
    var t' := s.tree[bi.block.hash := bi];
    forall h | h in t' ensures EntryOk(t', hashGenesis, h) {
      if h in s.tree { assert EntryOk(s.tree, hashGenesis, h); }
    }
    SameAncestors(s.tree, t', hashGenesis, s.sync, bi.block.hashPrev);
    SameAncestors(s.tree, t', hashGenesis, s.sync, s.best);
    assert Parent(t', bi.block.hash) == bi.block.hashPrev;
  }

  lemma {:induction false} OnlyOneWay(t: Tree, a: Hash, b: Hash)
    requires a in t && b in t
    ensures a != b && Anc(t, a, b) ==> t[a].nHeight < t[b].nHeight && !Anc(t, b, a)
    ensures a != b && Anc(t, b, a) ==> t[b].nHeight < t[a].nHeight && !Anc(t, a, b)
  {
    if Anc(t, a, b) { AncInTree(t, a, b); }
    if Anc(t, b, a) { AncInTree(t, b, a); }
  }

  // ------------------------------------------------------------------------------------------
  // What arrives
  // ------------------------------------------------------------------------------------------

  /** A block, a checkpoint message, or another try of the pending checkpoint, with what may fail. */
  datatype Operation =
    | NewBlock(io: Io, cio: CheckpointIo, b: Block, nBlockTrust: nat, fOtherOk: bool)
    | NewCheckpoint(cio: CheckpointIo, hashCheckpoint: Hash, fSignatureOk: bool)
    | Retry(cio: CheckpointIo)

  /** Among these transactions equal hashes mean equal contents. */
  ghost predicate Faithful(all: iset<Transaction>) {
    forall x, y :: x in all && y in all && x.hash == y.hash ==> SameContent(x, y)
  }

  ghost predicate Within(vtx: seq<Transaction>, all: iset<Transaction>) { forall i :: 0 <= i < |vtx| ==> vtx[i] in all }

  ghost predicate TreeWithin(t: Tree, all: iset<Transaction>)
  {
    forall h :: HasParent(t, h) ==> Within(t[h].block.vtx, all)
  }

  /** A block that may arrive: its transactions are among all, and it is not the one before genesis. */
  ghost predicate MayArrive(op: Operation, all: iset<Transaction>, hashBeforeGenesis: Hash) {
    op.NewBlock? ==> Within(op.b.vtx, all) && op.b.hash != hashBeforeGenesis
  }

  lemma {:induction false} GrownWithin(t: Tree, hashGenesis: Hash, bi: BlockIndex, all: iset<Transaction>)
    requires WellFormed(t, hashGenesis) && bi.block.hash !in t && TreeWithin(t, all) && Within(bi.block.vtx, all)
    requires Faithful(all)
    ensures TreeWithin(t[bi.block.hash := bi], all) && HashingFaithful(t[bi.block.hash := bi])
  {
    var t' := t[bi.block.hash := bi];
    forall h | HasParent(t', h) ensures Within(t'[h].block.vtx, all) {
      if h in t { SameParent(t, t', hashGenesis, h); }
    }
  }

  /** The transactions of a block at this place overwrite nothing. */
  predicate FreeAt(disk: Disk, vtx: seq<Transaction>, nFile: nat, nBlockPos: nat) {
    forall i :: 0 <= i < |vtx| ==> Place(vtx, nFile, nBlockPos)[i].pos !in disk
  }

  /** Some file holds nothing yet. */
  lemma {:induction false} FreshFile(ps: set<DiskTxPos>) returns (f: nat)
    ensures forall p :: p in ps && p.At? ==> p.nFile < f
  {
    f := 0;
    var rest := ps;
    while rest != {}
      invariant rest <= ps && forall p :: p in ps - rest && p.At? ==> p.nFile < f
    {
      var p :| p in rest;
      rest := rest - {p};
      if p.At? && p.nFile >= f { f := p.nFile + 1; }
    }
  }

  /** The end of the block files, or any other free place. */
  method FindPlace(disk: Disk, vtx: seq<Transaction>) returns (nFile: nat, nBlockPos: nat)
    ensures FreeAt(disk, vtx, nFile, nBlockPos)
  {
    ghost var f := FreshFile(disk.Keys);
    assert FreeAt(disk, vtx, f, 0);
    nFile, nBlockPos :| FreeAt(disk, vtx, nFile, nBlockPos);
  }

  class SyncCheckpoints {
    const chain: ChainState
    var hashSyncCheckpoint: Hash
    var hashPendingCheckpoint: Hash
    var hashInvalidCheckpoint: Hash

    /** The state the run properties are about. */
    ghost function Now(): State
      reads this`hashSyncCheckpoint, chain`mapBlockIndex, chain`pindexBest
    {
      State(chain.mapBlockIndex, hashSyncCheckpoint, chain.pindexBest)
    }

    /** The chain state is whole and the checkpoint is on its active branch. */
    ghost predicate Valid()
      reads this`hashSyncCheckpoint, chain
    {
      chain.Valid() && Safe(Now(), chain.hashGenesis)
    }

    constructor (chain: ChainState)
      requires chain.Valid()
      ensures this.chain == chain && Valid() && hashSyncCheckpoint == chain.hashGenesis
      ensures hashPendingCheckpoint == NO_HASH
    {
      this.chain := chain;
      hashSyncCheckpoint := chain.hashGenesis;
      hashPendingCheckpoint, hashInvalidCheckpoint := NO_HASH, NO_HASH;
      new;
      GenesisIsRoot(chain.mapBlockIndex, chain.hashGenesis, chain.pindexBest);
    }

    /** Only a strict descendant of the current checkpoint may become the next; a block on another
        branch is remembered as invalid, an older one of this branch is ignored. */
    method ValidateSyncCheckpoint(hashCheckpoint: Hash) returns (ok: bool)
      requires WellFormed(chain.mapBlockIndex, chain.hashGenesis) && hashSyncCheckpoint in chain.mapBlockIndex
      modifies this`hashInvalidCheckpoint
      ensures ok <==> StrictlyBelow(chain.mapBlockIndex, hashSyncCheckpoint, hashCheckpoint)
      ensures hashInvalidCheckpoint ==
        if hashCheckpoint in chain.mapBlockIndex && !Anc(chain.mapBlockIndex, hashSyncCheckpoint, hashCheckpoint)
            && !Anc(chain.mapBlockIndex, hashCheckpoint, hashSyncCheckpoint) then hashCheckpoint
        else old(hashInvalidCheckpoint)
    {
      var t := chain.mapBlockIndex;
      if hashCheckpoint !in t { return false; }
      OnlyOneWay(t, hashSyncCheckpoint, hashCheckpoint);
      if t[hashCheckpoint].nHeight <= t[hashSyncCheckpoint].nHeight {
        var pindex := TraceBack(t, chain.hashGenesis, hashSyncCheckpoint, hashCheckpoint);
        if pindex != hashCheckpoint { hashInvalidCheckpoint := hashCheckpoint; }
        return false;
      }
      var pindex := TraceBack(t, chain.hashGenesis, hashCheckpoint, hashSyncCheckpoint);
      if pindex != hashSyncCheckpoint {
        hashInvalidCheckpoint := hashCheckpoint;
        return false;
      }
      return true;
    }

    /** A block passes if it would descend from the checkpoint, or is a block of at most its height
        that is known. */
    method CheckSync(hashBlock: Hash, pindexPrev: Hash) returns (ok: bool)
      requires WellFormed(chain.mapBlockIndex, chain.hashGenesis)
      requires hashSyncCheckpoint in chain.mapBlockIndex && pindexPrev in chain.mapBlockIndex
      ensures ok <==>
        var (nHeight, nSync) :=
          (chain.mapBlockIndex[pindexPrev].nHeight + 1, chain.mapBlockIndex[hashSyncCheckpoint].nHeight);
        if nHeight > nSync then Anc(chain.mapBlockIndex, hashSyncCheckpoint, pindexPrev)
        else if nHeight == nSync then hashBlock == hashSyncCheckpoint
        else hashBlock in chain.mapBlockIndex
      ensures hashBlock !in chain.mapBlockIndex ==> (ok <==> Anc(chain.mapBlockIndex, hashSyncCheckpoint, pindexPrev))
    {
      var t := chain.mapBlockIndex;
      OnlyOneWay(t, hashSyncCheckpoint, pindexPrev);
      var nHeight := t[pindexPrev].nHeight + 1;
      if nHeight > t[hashSyncCheckpoint].nHeight {
        var pindex := TraceBack(t, chain.hashGenesis, pindexPrev, hashSyncCheckpoint);
        if t[pindex].nHeight < t[hashSyncCheckpoint].nHeight || pindex != hashSyncCheckpoint { return false; }
      }
      if nHeight == t[hashSyncCheckpoint].nHeight && hashBlock != hashSyncCheckpoint { return false; }
      if nHeight < t[hashSyncCheckpoint].nHeight && hashBlock !in t { return false; }
      return true;
    }

    /** The write, or its commit, can fail. */
    method WriteSyncCheckpoint(fWritten: bool, hashCheckpoint: Hash)
      modifies this`hashSyncCheckpoint
      ensures hashSyncCheckpoint == if fWritten then hashCheckpoint else old(hashSyncCheckpoint)
    {
      if fWritten { hashSyncCheckpoint := hashCheckpoint; }
    }

    /** The branch of h has to be made active, and is, at least as far as SetBestChain goes. */
    ghost predicate Switches(io: CheckpointIo, best: Hash, h: Hash)
      requires best in chain.mapBlockIndex && h in chain.mapBlockIndex
      reads chain`mapBlockIndex, chain`disk, chain`mempool
    {
      !Anc(chain.mapBlockIndex, h, best) && io.fRead && chain.Succeeds(io.chain, best, h)
    }

    /** A postponed reconnect stops early on the way to h. */
    ghost predicate Stalls(io: CheckpointIo, best: Hash, h: Hash)
      requires best in chain.mapBlockIndex && h in chain.mapBlockIndex
      reads chain`mapBlockIndex, chain`disk, chain`mempool
    {
      Switches(io, best, h) && !chain.Reaches(io.chain, best, h)
    }

    /** The branch of a validated checkpoint h is active or becomes so, and h is written. */
    ghost predicate Advances(io: CheckpointIo, best: Hash, h: Hash)
      requires best in chain.mapBlockIndex && h in chain.mapBlockIndex
      reads chain`mapBlockIndex, chain`disk, chain`mempool
    {
      (Anc(chain.mapBlockIndex, h, best) || Switches(io, best, h)) && io.fWritten
    }

    /** Makes the branch of a validated checkpoint active.  The chain state stays whole unless a
        postponed reconnect of SetBestChain stopped early. */
    method Activate(io: CheckpointIo, hashCheckpoint: Hash) returns (ok: bool, whole: bool)
      requires chain.pindexBest in chain.mapBlockIndex
      requires Valid() && StrictlyBelow(chain.mapBlockIndex, hashSyncCheckpoint, hashCheckpoint)
      modifies this`hashInvalidCheckpoint
      modifies chain`activeBatch, chain`db, chain`pnext, chain`nMint, chain`nMoneySupply, chain`pindexBest,
               chain`hashBestChain, chain`nBestHeight, chain`nBestChainTrust, chain`pblockindexFBBHLast
      ensures Safe(Now(), chain.hashGenesis) && (whole <==> Valid())
      ensures whole <==> !Stalls(io, old(chain.pindexBest), hashCheckpoint)
      ensures ok <==> (old(Anc(chain.mapBlockIndex, hashCheckpoint, chain.pindexBest))
                       || Switches(io, old(chain.pindexBest), hashCheckpoint))
      ensures chain.pindexBest == if Switches(io, old(chain.pindexBest), hashCheckpoint) then hashCheckpoint
                                  else old(chain.pindexBest)
    {
      hide ChainState.Valid, ChainState.StandsAt, ChainState.Succeeds, ChainState.Reaches, ChainState.StopsAt, Links;
      hide WellFormed;
      ok, whole := true, true;
      chain.ValidLinks();
      OnActiveBranch(chain.mapBlockIndex, hashCheckpoint, chain.pindexBest);
      if !(hashCheckpoint in chain.pnext || hashCheckpoint == chain.pindexBest) {
        if !io.fRead { return false, true; }
        var conn;
        ok, conn := chain.SetBestChain(io.chain, hashCheckpoint);
        if !ok {
          hashInvalidCheckpoint := hashCheckpoint;
          return;
        }
        whole := conn == hashCheckpoint;
      }
    }

    /** Makes the branch of a validated checkpoint active and then the checkpoint current. */
    method Advance(io: CheckpointIo, hashCheckpoint: Hash) returns (ok: bool, whole: bool)
      requires chain.pindexBest in chain.mapBlockIndex
      requires Valid() && StrictlyBelow(chain.mapBlockIndex, hashSyncCheckpoint, hashCheckpoint)
      modifies this`hashSyncCheckpoint, this`hashInvalidCheckpoint
      modifies chain`activeBatch, chain`db, chain`pnext, chain`nMint, chain`nMoneySupply, chain`pindexBest,
               chain`hashBestChain, chain`nBestHeight, chain`nBestChainTrust, chain`pblockindexFBBHLast
      ensures Safe(Now(), chain.hashGenesis) && (whole <==> Valid()) && Step(old(Now()), Now())
      ensures whole <==> !Stalls(io, old(chain.pindexBest), hashCheckpoint)
      ensures ok <==> Advances(io, old(chain.pindexBest), hashCheckpoint)
      ensures hashSyncCheckpoint == if ok then hashCheckpoint else old(hashSyncCheckpoint)
      ensures chain.pindexBest == if Switches(io, old(chain.pindexBest), hashCheckpoint) then hashCheckpoint
                                  else old(chain.pindexBest)
    {
      hide ChainState.Valid, WellFormed, Stalls, ChainState.Succeeds;
      ok, whole := Activate(io, hashCheckpoint);
      if !ok { return; }
      WriteSyncCheckpoint(io.fWritten, hashCheckpoint);
      ok := io.fWritten;
    }

    /** A checkpoint that was announced and may become current. */
    ghost predicate Ready(h: Hash)
      reads this`hashSyncCheckpoint, chain`mapBlockIndex
    {
      h != NO_HASH && StrictlyBelow(chain.mapBlockIndex, hashSyncCheckpoint, h)
    }

    /** A checkpoint that had not arrived when it was announced is tried again. */
    method AcceptPendingSyncCheckpoint(io: CheckpointIo) returns (ok: bool, whole: bool)
      requires chain.pindexBest in chain.mapBlockIndex && Valid()
      modifies this`hashSyncCheckpoint, this`hashPendingCheckpoint, this`hashInvalidCheckpoint
      modifies chain`activeBatch, chain`db, chain`pnext, chain`nMint, chain`nMoneySupply, chain`pindexBest,
               chain`hashBestChain, chain`nBestHeight, chain`nBestChainTrust, chain`pblockindexFBBHLast
      ensures Safe(Now(), chain.hashGenesis) && (whole <==> Valid()) && Step(old(Now()), Now())
      ensures ok <==>
        old(Ready(hashPendingCheckpoint)) && Advances(io, old(chain.pindexBest), old(hashPendingCheckpoint))
      ensures whole <==>
        !(old(Ready(hashPendingCheckpoint)) && Stalls(io, old(chain.pindexBest), old(hashPendingCheckpoint)))
      ensures hashSyncCheckpoint == old(if ok then hashPendingCheckpoint else hashSyncCheckpoint)
      ensures chain.pindexBest == if old(Ready(hashPendingCheckpoint))
          && Switches(io, old(chain.pindexBest), old(hashPendingCheckpoint)) then old(hashPendingCheckpoint)
            else old(chain.pindexBest)
      ensures hashPendingCheckpoint ==
        if ok || old(hashPendingCheckpoint in chain.mapBlockIndex
                     && !StrictlyBelow(chain.mapBlockIndex, hashSyncCheckpoint, hashPendingCheckpoint)) then NO_HASH
        else old(hashPendingCheckpoint)
    {
      hide ChainState.Valid, Advances, Stalls, Switches;
      ok, whole := false, true;
      if hashPendingCheckpoint != NO_HASH && hashPendingCheckpoint in chain.mapBlockIndex {
        var valid := ValidateSyncCheckpoint(hashPendingCheckpoint);
        if !valid {
          hashPendingCheckpoint := NO_HASH;
          return;
        }
        ok, whole := Advance(io, hashPendingCheckpoint);
        if ok { hashPendingCheckpoint := NO_HASH; }
      }
    }

    /** A signed checkpoint message: kept as pending if the block is unknown. */
    method ProcessSyncCheckpoint(io: CheckpointIo, hashCheckpoint: Hash, fSignatureOk: bool)
      returns (ok: bool, whole: bool)
      requires chain.pindexBest in chain.mapBlockIndex && Valid()
      modifies this`hashSyncCheckpoint, this`hashPendingCheckpoint, this`hashInvalidCheckpoint
      modifies chain`activeBatch, chain`db, chain`pnext, chain`nMint, chain`nMoneySupply, chain`pindexBest,
               chain`hashBestChain, chain`nBestHeight, chain`nBestChainTrust, chain`pblockindexFBBHLast
      ensures Safe(Now(), chain.hashGenesis) && (whole <==> Valid()) && Step(old(Now()), Now())
      ensures ok <==> fSignatureOk && old(StrictlyBelow(chain.mapBlockIndex, hashSyncCheckpoint, hashCheckpoint))
                      && Advances(io, old(chain.pindexBest), hashCheckpoint)
      ensures whole <==> !(fSignatureOk && old(StrictlyBelow(chain.mapBlockIndex, hashSyncCheckpoint, hashCheckpoint))
                           && Stalls(io, old(chain.pindexBest), hashCheckpoint))
      ensures hashSyncCheckpoint == if ok then hashCheckpoint else old(hashSyncCheckpoint)
      ensures chain.pindexBest ==
        if fSignatureOk && old(StrictlyBelow(chain.mapBlockIndex, hashSyncCheckpoint, hashCheckpoint))
            && Switches(io, old(chain.pindexBest), hashCheckpoint) then hashCheckpoint else old(chain.pindexBest)
      ensures hashPendingCheckpoint == if ok then NO_HASH
        else if fSignatureOk && hashCheckpoint !in old(chain.mapBlockIndex) then hashCheckpoint
        else old(hashPendingCheckpoint)
    {
      hide ChainState.Valid, Advances, Stalls, Switches;
      ok, whole := false, true;
      if !fSignatureOk { return; }
      if hashCheckpoint !in chain.mapBlockIndex {
        hashPendingCheckpoint := hashCheckpoint;
        return;
      }
      var valid := ValidateSyncCheckpoint(hashCheckpoint);
      if !valid { return; }
      ok, whole := Advance(io, hashCheckpoint);
      if ok { hashPendingCheckpoint := NO_HASH; }
    }

    /** AcceptBlock stores the block: nothing else refuses it, and its parent descends from the
        checkpoint in force. */
    ghost predicate Stores(b: Block, fOtherOk: bool)
      reads this`hashSyncCheckpoint, chain`mapBlockIndex
    {
      chain.WouldStore(b, fOtherOk) && Anc(chain.mapBlockIndex, hashSyncCheckpoint, b.hashPrev)
    }

    /** The new block h is more trusted than the old tip and becomes the tip. */
    ghost predicate Leads(io: Io, best: Hash, nBestTrust: nat, h: Hash)
      requires best in chain.mapBlockIndex && h in chain.mapBlockIndex
      reads chain`mapBlockIndex, chain`disk, chain`mempool
    {
      chain.mapBlockIndex[h].nChainTrust > nBestTrust && chain.Succeeds(io, best, h)
    }

    /** It becomes the tip although a postponed reconnect stopped early. */
    ghost predicate LeadsBroken(io: Io, best: Hash, nBestTrust: nat, h: Hash)
      requires best in chain.mapBlockIndex && h in chain.mapBlockIndex
      reads chain`mapBlockIndex, chain`disk, chain`mempool
    {
      Leads(io, best, nBestTrust, h) && !chain.Reaches(io, best, h)
    }

    /** What AcceptBlock does to the checkpoint once block h is in the tree and the tip is best. */
    ghost predicate Settled(io: CheckpointIo, best: Hash, sync: Hash, pending: Hash, whole: bool)
      requires best in chain.mapBlockIndex
      reads this`hashSyncCheckpoint, this`hashPendingCheckpoint,
            chain`mapBlockIndex, chain`disk, chain`mempool, chain`pindexBest
    {
      if pending != NO_HASH && StrictlyBelow(chain.mapBlockIndex, sync, pending) then
        && (whole <==> !Stalls(io, best, pending))
        && hashSyncCheckpoint == (if Advances(io, best, pending) then pending else sync)
        && hashPendingCheckpoint == (if Advances(io, best, pending) then NO_HASH else pending)
        && chain.pindexBest == if Switches(io, best, pending) then pending else best
      else
        && whole && hashSyncCheckpoint == sync && chain.pindexBest == best
        && hashPendingCheckpoint == if pending in chain.mapBlockIndex then NO_HASH else pending
    }

    /** What AcceptBlock does with a block h that it stores, when the tip was best with that trust and
        the checkpoint and the pending one were sync and pending. */
    ghost predicate Outcome(io: Io, cio: CheckpointIo, best: Hash, nBestTrust: nat, h: Hash, sync: Hash,
                            pending: Hash, ok: bool, whole: bool)
      requires best in chain.mapBlockIndex && h in chain.mapBlockIndex
      reads this`hashSyncCheckpoint, this`hashPendingCheckpoint,
            chain`mapBlockIndex, chain`disk, chain`mempool, chain`pindexBest
    {
      && (ok <==> chain.mapBlockIndex[h].nChainTrust <= nBestTrust || Leads(io, best, nBestTrust, h))
      && (if !ok || LeadsBroken(io, best, nBestTrust, h) then
            && (whole <==> !ok) && hashSyncCheckpoint == sync && hashPendingCheckpoint == pending
            && chain.pindexBest == (if ok then h else best)
          else
            Settled(cio, if Leads(io, best, nBestTrust, h) then h else best, sync, pending, whole))
    }

    /** AcceptBlock with the checkpoint test; fOtherOk stands for the other tests against the clock,
        the targets, the lock times and the built-in checkpoints.  When a postponed reconnect stopped
        early (whole is false) the state is still safe, and the run ends there. */
    method AcceptBlock(io: Io, cio: CheckpointIo, b: Block, nFile: nat, nBlockPos: nat, nBlockTrust: nat,
                       fOtherOk: bool)
      returns (ok: bool, whole: bool)
      requires chain.pindexBest in chain.mapBlockIndex && Valid() && BlockOk(b)
      requires chain.WouldStore(b, fOtherOk) ==> chain.Storable(b, nFile, nBlockPos, nBlockTrust)
      requires chain.WouldStore(b, fOtherOk) ==>
                 HashingFaithful(chain.mapBlockIndex[b.hash := chain.IndexFor(b, nFile, nBlockPos, nBlockTrust)])
      modifies this, chain
      ensures Safe(Now(), chain.hashGenesis) && (whole <==> Valid()) && Step(old(Now()), Now())
      ensures chain.mapBlockIndex == if old(Stores(b, fOtherOk))
        then old(chain.mapBlockIndex)[b.hash := old(chain.IndexFor(b, nFile, nBlockPos, nBlockTrust))]
          else old(chain.mapBlockIndex)
      ensures old(chain.pindexBest) in chain.mapBlockIndex
      ensures !old(Stores(b, fOtherOk)) ==>
                && !ok && whole && chain.pindexBest == old(chain.pindexBest)
                && hashSyncCheckpoint == old(hashSyncCheckpoint) && hashPendingCheckpoint == old(hashPendingCheckpoint)
      ensures old(Stores(b, fOtherOk)) ==>
                Outcome(io, cio, old(chain.pindexBest), old(chain.nBestChainTrust), b.hash, old(hashSyncCheckpoint),
                        old(hashPendingCheckpoint), ok, whole)
    {
      SafeFacts(Now(), chain.hashGenesis);
      hide ChainState.Valid, ChainState.Storable, HashingFaithful, BlockOk, PushInt, Safe, Step, Anc, WellFormed;
      hide Outcome, ChainState.IndexFor;
      ok, whole := false, true;
      Unchanged(Now());
      if b.hash in chain.mapBlockIndex { return; }
      if b.hashPrev !in chain.mapBlockIndex { return; }
      var cpSatisfies := CheckSync(b.hash, b.hashPrev);
      ok, whole := EnterAndSettle(io, cio, b, nFile, nBlockPos, nBlockTrust, fOtherOk && cpSatisfies);
    }

    /** The block is stored if nothing refuses it, and then a pending checkpoint is tried. */
    method EnterAndSettle(io: Io, cio: CheckpointIo, b: Block, nFile: nat, nBlockPos: nat, nBlockTrust: nat,
                          fContextOk: bool)
      returns (ok: bool, whole: bool)
      requires chain.pindexBest in chain.mapBlockIndex
      requires Valid() && BlockOk(b) && b.hash !in chain.mapBlockIndex && b.hashPrev in chain.mapBlockIndex
      requires fContextOk ==> Anc(chain.mapBlockIndex, hashSyncCheckpoint, b.hashPrev)
      requires chain.WouldStore(b, fContextOk) ==> chain.Storable(b, nFile, nBlockPos, nBlockTrust)
      requires chain.WouldStore(b, fContextOk) ==>
                 HashingFaithful(chain.mapBlockIndex[b.hash := chain.IndexFor(b, nFile, nBlockPos, nBlockTrust)])
      modifies this, chain
      ensures Safe(Now(), chain.hashGenesis) && (whole <==> Valid()) && Step(old(Now()), Now())
      ensures chain.mapBlockIndex == if old(chain.WouldStore(b, fContextOk))
        then old(chain.mapBlockIndex)[b.hash := old(chain.IndexFor(b, nFile, nBlockPos, nBlockTrust))]
          else old(chain.mapBlockIndex)
      ensures old(chain.pindexBest) in chain.mapBlockIndex
      ensures !old(chain.WouldStore(b, fContextOk)) ==>
                && !ok && whole && chain.pindexBest == old(chain.pindexBest)
                && hashSyncCheckpoint == old(hashSyncCheckpoint) && hashPendingCheckpoint == old(hashPendingCheckpoint)
      ensures old(chain.WouldStore(b, fContextOk)) ==>
                Outcome(io, cio, old(chain.pindexBest), old(chain.nBestChainTrust), b.hash, old(hashSyncCheckpoint),
                        old(hashPendingCheckpoint), ok, whole)
    {
      hide ChainState.Valid, ChainState.Storable, HashingFaithful, BlockOk, PushInt, Safe, Step, Anc, WellFormed, Leads;
      hide Stalls, Advances, Switches, ChainState.Succeeds, ChainState.Reaches, ChainState.IndexFor;
      hide ChainState.WouldStore;
      ok, whole := Enter(io, b, nFile, nBlockPos, nBlockTrust, fContextOk);
      if ok && whole {
        label entered:
        var moved;
        moved, whole := AcceptPendingSyncCheckpoint(cio);
        StepsCompose(old(Now()), old@entered(Now()), Now(), chain.hashGenesis);
      }
    }

    /** The block is stored, and connected if its branch is the most trusted. */
    method Enter(io: Io, b: Block, nFile: nat, nBlockPos: nat, nBlockTrust: nat, fContextOk: bool)
      returns (ok: bool, whole: bool)
      requires chain.pindexBest in chain.mapBlockIndex
      requires Valid() && BlockOk(b) && b.hash !in chain.mapBlockIndex && b.hashPrev in chain.mapBlockIndex
      requires fContextOk ==> Anc(chain.mapBlockIndex, hashSyncCheckpoint, b.hashPrev)
      requires chain.WouldStore(b, fContextOk) ==> chain.Storable(b, nFile, nBlockPos, nBlockTrust)
      requires chain.WouldStore(b, fContextOk) ==>
                 HashingFaithful(chain.mapBlockIndex[b.hash := chain.IndexFor(b, nFile, nBlockPos, nBlockTrust)])
      modifies chain
      ensures Safe(Now(), chain.hashGenesis) && Step(old(Now()), Now()) && (whole <==> Valid())
      ensures chain.mapBlockIndex == if old(chain.WouldStore(b, fContextOk))
        then old(chain.mapBlockIndex)[b.hash := old(chain.IndexFor(b, nFile, nBlockPos, nBlockTrust))]
          else old(chain.mapBlockIndex)
      ensures old(chain.pindexBest) in chain.mapBlockIndex && chain.pindexBest in chain.mapBlockIndex
      ensures !old(chain.WouldStore(b, fContextOk)) ==> !ok && whole && chain.pindexBest == old(chain.pindexBest)
      ensures old(chain.WouldStore(b, fContextOk)) ==>
        var (best, nBestTrust) := (old(chain.pindexBest), old(chain.nBestChainTrust));
        && (ok <==> chain.mapBlockIndex[b.hash].nChainTrust <= nBestTrust || Leads(io, best, nBestTrust, b.hash))
        && (whole <==> !LeadsBroken(io, best, nBestTrust, b.hash))
        && chain.pindexBest == if Leads(io, best, nBestTrust, b.hash) then b.hash else best
    {
      assert chain.hashGenesis in chain.mapBlockIndex;
      hide ChainState.Valid, ChainState.StandsAt, HashingFaithful, BlockOk, PushInt, Safe, Step, Anc;
      hide ChainState.Succeeds, ChainState.Reaches, ChainState.StopsAt, ChainState.IndexFor;
      ghost var s := Now();
      ghost var bi := chain.IndexFor(b, nFile, nBlockPos, nBlockTrust);
      Unchanged(s);
      if chain.WouldStore(b, fContextOk) {
        EnteredBelow(s, chain.hashGenesis, bi, s.best);
        EnteredBelow(s, chain.hashGenesis, bi, b.hash);
      }
      var conn;
      ok, conn := chain.AcceptBlock(io, b, nFile, nBlockPos, nBlockTrust, fContextOk);
      whole := !ok || conn == chain.pindexBest;
    }

    // ---------------------------------------------------------------- runs

    /** One operation; a block first passes CheckBlock. */
    method PerformOne(op: Operation, ghost all: iset<Transaction>) returns (whole: bool)
      requires chain.pindexBest in chain.mapBlockIndex && chain.hashGenesis in chain.mapBlockIndex
      requires Valid() && Faithful(all) && TreeWithin(chain.mapBlockIndex, all)
      requires MayArrive(op, all, chain.mapBlockIndex[chain.hashGenesis].block.hashPrev)
      modifies this, chain
      ensures Safe(Now(), chain.hashGenesis) && (whole <==> Valid()) && Step(old(Now()), Now())
      ensures TreeWithin(chain.mapBlockIndex, all)
    {
      hide ChainState.Valid, Faithful, Within, TreeWithin, BlockOk, HashingFaithful, Safe, Step, Anc, PushInt;
      hide WellFormed;
      hide Advances, Stalls, Switches, Outcome, StrictlyBelow, Ready;
      SafeFacts(Now(), chain.hashGenesis);
      var ok;
      match op
      case NewCheckpoint(cio, hashCheckpoint, fSignatureOk) =>
        ok, whole := ProcessSyncCheckpoint(cio, hashCheckpoint, fSignatureOk);
      case Retry(cio) =>
        ok, whole := AcceptPendingSyncCheckpoint(cio);
      case NewBlock(io, cio, b, nBlockTrust, fOtherOk) =>
        Unchanged(Now());
        whole := true;
        ok := CheckBlock(b);
        if !ok { return; }
        var nFile, nBlockPos := FindPlace(chain.disk, b.vtx);
        if b.hash !in chain.mapBlockIndex && b.hashPrev in chain.mapBlockIndex {
          GrownWithin(chain.mapBlockIndex, chain.hashGenesis, chain.IndexFor(b, nFile, nBlockPos, nBlockTrust), all);
        }
        ok, whole := AcceptBlock(io, cio, b, nFile, nBlockPos, nBlockTrust, fOtherOk);
    }

    /** A run of the node: whatever arrives in whatever order, as long as the chain state stays whole,
        every state it goes through is safe, no checkpoint is ever given up for anything but a strict
        descendant, every tip descends from every earlier checkpoint, and so does every block that
        entered the tree while the checkpoint was in force or later. */
    method Perform(ops: seq<Operation>, ghost all: iset<Transaction>)
      returns (done: nat, whole: bool, ghost run: seq<State>)
      requires chain.pindexBest in chain.mapBlockIndex && chain.hashGenesis in chain.mapBlockIndex
      requires Valid() && Faithful(all) && TreeWithin(chain.mapBlockIndex, all)
      requires forall k :: 0 <= k < |ops| ==>
        MayArrive(ops[k], all, chain.mapBlockIndex[chain.hashGenesis].block.hashPrev)
      modifies this, chain
      ensures Run(run, chain.hashGenesis) && |run| == done + 1 && done <= |ops|
      ensures run[0] == old(Now()) && run[done] == Now()
      ensures (whole <==> Valid()) && (whole ==> done == |ops|)
      ensures forall i, j :: 0 <= i <= j <= done ==> Held(run[i], run[j])
    {
      hide ChainState.Valid, Faithful, TreeWithin, Safe, Step, MayArrive, Held;
      run, done, whole := [Now()], 0, true;
      while done < |ops|
        invariant done <= |ops| && |run| == done + 1 && run[0] == old(Now()) && run[done] == Now()
        invariant Run(run, chain.hashGenesis)
        invariant whole && Valid() && TreeWithin(chain.mapBlockIndex, all)
        invariant chain.pindexBest in chain.mapBlockIndex && chain.hashGenesis in chain.mapBlockIndex
        invariant chain.mapBlockIndex[chain.hashGenesis] == old(chain.mapBlockIndex[chain.hashGenesis])
      {
        ghost var s := Now();
        whole := PerformOne(ops[done], all);
        RunOn(run, Now(), chain.hashGenesis);
        run := run + [Now()];
        done := done + 1;
        if !whole { break; }
      }
      AllHeld(run, chain.hashGenesis);
    }
  }
}
