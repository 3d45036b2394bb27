/** What a block that connects may spend, told in terms of the branch it stands on: no coinbase or
    coinstake of a recent ancestor, and nothing its inputs are not entitled to (src/main.cpp). */
module Maturity {
  import opened Transactions
  import opened Ledger
  import opened Money
  import opened Blocks
  import opened BlockConnection
  import opened Supply
  import opened BlockTree
  import opened Chain

  // ------------------------------------------------------------------------------------------
  // Where the index says a transaction is stored
  // ------------------------------------------------------------------------------------------

  /** An entry keeps its place until its id is created again. */
  lemma {:induction false} PlaceKept(v: Index, ps: seq<Placed>, k: nat, id: Hash)
    requires k <= |ps| && id in v && forall i :: 0 <= i < k ==> ps[i].tx.hash != id
    ensures id in View(v, ps, k) && View(v, ps, k)[id].pos == v[id].pos
  {
    if k > 0 {
      PlaceKept(v, ps, k - 1, id);
      var (w, tx) := (View(v, ps, k - 1), ps[k - 1].tx);
      MarkAllAt(w, tx.vin, |tx.vin|, ps[k - 1].pos, id);
    }
  }

  lemma {:induction false} PlaceGiven(v: Index, ps: seq<Placed>, k: nat, j: nat)
    requires j < k <= |ps| && DistinctIds(ps)
    ensures var id := ps[j].tx.hash; id in View(v, ps, k) && View(v, ps, k)[id].pos == ps[j].pos
  {
    if j < k - 1 {
      PlaceGiven(v, ps, k - 1, j);
      var (w, tx) := (View(v, ps, k - 1), ps[k - 1].tx);
      MarkAllAt(w, tx.vin, |tx.vin|, ps[k - 1].pos, ps[j].tx.hash);
    }
  }

  /** The index at p knows every transaction of an ancestor a under the place it has in a. */
  lemma {:induction false} IndexPlace(t: Tree, p: Hash, a: Hash, j: nat)
    requires BranchSound(t, p) && NoCollisions(t) && Anc(t, a, p) && HasParent(t, a) && j < |t[a].block.vtx|
    ensures var id := t[a].block.vtx[j].hash; id in IndexAt(t, p) && IndexAt(t, p)[id].pos == Placement(t[a])[j].pos
    decreases Height(t, p)
  {
    hide View;
    var ps := Placement(t[p]);
    if a == p {
      PlaceGiven(IndexAt(t, Parent(t, p)), ps, |ps|, j);
    } else {
      IndexPlace(t, Parent(t, p), a, j);
      BlockIdsAreNew(t, p);
      var id := t[a].block.vtx[j].hash;
      forall i | 0 <= i < |ps| ensures ps[i].tx.hash != id { assert ps[i].tx.hash in Ids(ps); }
      PlaceKept(IndexAt(t, Parent(t, p)), ps, |ps|, id);
    }
  }

  /** So does the index that transaction k of block h is connected to, if it can spend from it. */
  lemma {:induction false} SpentPlace(t: Tree, h: Hash, k: nat, o: OutPoint, a: Hash, j: nat)
    requires HasParent(t, h) && BranchSound(t, h) && NoCollisions(t) && Anc(t, a, h) && HasParent(t, a)
    requires k < |t[h].block.vtx| && j < |t[a].block.vtx| && o.hash == t[a].block.vtx[j].hash
    requires Unspent(View(IndexAt(t, Parent(t, h)), Placement(t[h]), k), o)
    ensures View(IndexAt(t, Parent(t, h)), Placement(t[h]), k)[o.hash].pos == Placement(t[a])[j].pos
  {
    hide View, IndexAt;
    var (v, ps) := (IndexAt(t, Parent(t, h)), Placement(t[h]));
    if a == h {
      if j < k { PlaceGiven(v, ps, k, j); } else { LaterIdsFullySpent(v, ps, k, j); }
    } else {
      IndexPlace(t, Parent(t, h), a, j);
      BlockIdsAreNew(t, h);
      forall i | 0 <= i < |ps| ensures ps[i].tx.hash != o.hash { assert ps[i].tx.hash in Ids(ps); }
      PlaceKept(v, ps, k, o.hash);
    }
  }

  // ------------------------------------------------------------------------------------------
  // Blocks that connect
  // ------------------------------------------------------------------------------------------

  /** A block that connects spends no coinbase and no coinstake of an ancestor, or of itself, that is
      fewer than nCoinbaseMaturity blocks below it. */
  lemma {:induction false} NothingYoungIsSpent(c: ChainState, h: Hash, tip: Hash, k: nat, i: nat, a: Hash, j: nat)
    requires c.TreeOk() && c.Connects(h, tip)
    requires var p := Parent(c.mapBlockIndex, h); BranchOk(c.mapBlockIndex, c.nMoneySupply, c.disk, p)
    requires Anc(c.mapBlockIndex, a, h) && HasParent(c.mapBlockIndex, a)
    requires c.mapBlockIndex[h].nHeight - c.mapBlockIndex[a].nHeight < c.nCoinbaseMaturity
    requires j < |c.mapBlockIndex[a].block.vtx|
    requires var tx := c.mapBlockIndex[a].block.vtx[j]; tx.IsCoinBase() || tx.IsCoinStake()
    requires k < |c.mapBlockIndex[h].block.vtx| && !c.mapBlockIndex[h].block.vtx[k].IsCoinBase()
    requires i < |c.mapBlockIndex[h].block.vtx[k].vin|
    ensures c.mapBlockIndex[h].block.vtx[k].vin[i].prevout.hash != c.mapBlockIndex[a].block.vtx[j].hash
  {
    var (t, disk, bi) := (c.mapBlockIndex, c.disk, c.mapBlockIndex[h]);
    var env := EnvAt(c, h, tip);
    var v := View(IndexAt(t, Parent(t, h)), Placement(bi), k);
    SoundHere(c, h, tip);
    BlockSpendsRightfully(env, IndexAt(t, Parent(t, h)), bi.block, bi.nFile, bi.nBlockPos, k);
    assert WellFormed(t, c.hashGenesis) && NoCollisions(t) && Stored(Placement(t[a]), disk);
    hide ChainState.TreeOk, ChainState.Connects, BlockConnects, BranchOk, BranchSound, View, IndexAt, Rightful, Stored;
    var o := bi.block.vtx[k].vin[i].prevout;
    assert Unspent(v, o) && NotYoung(disk, v[o.hash].pos, env.recentBlocks);
    if o.hash == t[a].block.vtx[j].hash {
      SpentPlace(t, h, k, o, a, j);
      RecentBlocksAre(t, c.hashGenesis, h, c.nCoinbaseMaturity, (t[a].nFile, t[a].nBlockPos));
      assert false;
    }
  }

  /** What ConnectBlock is given for block h while the tip is `tip`. */
  ghost function EnvAt(c: ChainState, h: Hash, tip: Hash): Env
    reads c`mapBlockIndex, c`disk, c`mempool
  {
    Env(c.rules, c.disk, c.mempool, RecentBlocks(c.mapBlockIndex, h, c.nCoinbaseMaturity),
        Height(c.mapBlockIndex, tip) < c.nTotalBlocksEstimate, Height(c.mapBlockIndex, tip))
  }

  lemma {:induction false} SoundHere(c: ChainState, h: Hash, tip: Hash)
    requires c.TreeOk() && c.Connects(h, tip)
    requires var p := Parent(c.mapBlockIndex, h); BranchOk(c.mapBlockIndex, c.nMoneySupply, c.disk, p)
    ensures var (t, bi) := (c.mapBlockIndex, c.mapBlockIndex[h]);
      && BlockConnects(EnvAt(c, h, tip), IndexAt(t, Parent(t, h)), bi.block, bi.nFile, bi.nBlockPos)
      && BranchSound(t, h) && OnDisk(IndexAt(t, Parent(t, h)), c.disk) && Stored(Placement(bi), c.disk)
  {
    var (t, bi) := (c.mapBlockIndex, c.mapBlockIndex[h]);
    AcceptedIsSound(EnvAt(c, h, tip), IndexAt(t, Parent(t, h)), bi.block, bi.nFile, bi.nBlockPos);
    hide BlockConnects, Sound, IndexAt;
  }

  /** Every input of a block that connects claims an unspent output of a transaction on its branch that
      is not newer; and from the height of the last built-in checkpoint on every signature is checked. */
  lemma {:induction false} ConnectedIsRightful(c: ChainState, h: Hash, tip: Hash, k: nat)
    requires c.TreeOk() && c.Connects(h, tip)
    requires var p := Parent(c.mapBlockIndex, h); BranchOk(c.mapBlockIndex, c.nMoneySupply, c.disk, p)
    requires k < |c.mapBlockIndex[h].block.vtx| && !c.mapBlockIndex[h].block.vtx[k].IsCoinBase()
    ensures var (t, tx) := (c.mapBlockIndex, c.mapBlockIndex[h].block.vtx[k]);
      var v := View(IndexAt(t, Parent(t, h)), Placement(t[h]), k);
      forall i :: 0 <= i < |tx.vin| ==>
        && Unspent(v, tx.vin[i].prevout) && v[tx.vin[i].prevout.hash].pos in c.disk
        && Rightful(c.rules, tx, i, c.disk[v[tx.vin[i].prevout.hash].pos],
                    Height(t, tip) < c.nTotalBlocksEstimate)
  {
    var (t, bi) := (c.mapBlockIndex, c.mapBlockIndex[h]);
    SoundHere(c, h, tip);
    BlockSpendsRightfully(EnvAt(c, h, tip), IndexAt(t, Parent(t, h)), bi.block, bi.nFile, bi.nBlockPos, k);
  }
}
