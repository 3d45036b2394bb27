/** A run in which SetBestChain moves the tip to a block that is not connected (src/main.cpp).  A side
    block outweighs the tip, but the commit of its reorganization fails; a block on top of it that
    pays too much is then postponed, and cannot be connected once the side block is. */
module StalledChain {
  import opened Transactions
  import opened Ledger
  import opened Blocks
  import opened BlockConnection
  import opened BlockTree
  import opened CoinbaseHeight
  import opened Chain

  function Coinbase(hash: Hash, script: seq<nat>, nValue: int): Transaction {
    Transaction(hash, 0, [TxIn(OutPoint(0, 0xFFFF_FFFF), script)], [TxOut(nValue, [])], 100, 0)
  }

  const GENESIS := BlockIndex(Block(100, 99, 0, [], true), None, 0, 0, 0, 0)
  const FIRST := Block(1, 100, 0, [Coinbase(11, [0x51, 0], 0)], true)
  const SIDE := Block(2, 100, 0, [Coinbase(12, [0x51, 1], 0)], true)
  const TOP := Block(3, 2, 0, [Coinbase(13, [0x52, 0], 20_000_000 * COIN)], true)

  const TREE1: Tree := map[100 := GENESIS, 1 := BlockIndex(FIRST, Some(100), 1, 1, 0, 1)]
  const TREE2: Tree := TREE1[2 := BlockIndex(SIDE, Some(100), 1, 2, 0, 2)]
  const TREE3: Tree := TREE2[3 := BlockIndex(TOP, Some(2), 2, 3, 0, 3)]

  lemma {:induction false} BlocksOk(b: Block)
    requires b == FIRST || b == SIDE || b == TOP
    ensures BlockOk(b) && b.vtx[0].GetValueOut() == b.vtx[0].vout[0].nValue
  {
    var tx := b.vtx[0];
    assert SumOut(tx.vout, 1) == SumOut(tx.vout, 0) + tx.vout[0].nValue;
    assert LegacySigOps(b.vtx, 1) == LegacySigOps(b.vtx, 0) + tx.nSigOps;
  }

  /** A block of a coinbase alone connects to the empty index if it claims no more than the subsidy,
      and otherwise to none. */
  lemma {:induction false} CoinbaseAlone(env: Env, db: Index, b: Block, nFile: nat, nBlockPos: nat)
    requires |b.vtx| == 1 && b.vtx[0].IsCoinBase() && b.vtx[0].nSigOps == 0 && BlockOk(b)
    ensures BlockConnects(env, db, b, nFile, nBlockPos) ==> b.vtx[0].GetValueOut() <= WorkSubsidy(env.nBestHeight)
    ensures db == map[] && b.vtx[0].GetValueOut() <= WorkSubsidy(env.nBestHeight) ==>
              BlockConnects(env, db, b, nFile, nBlockPos)
  {
    var ps := Place(b.vtx, nFile, nBlockPos);
    assert TallyAt(env, db, ps, 0) == Tally(0, 0, 0, 0, 0);
    assert TallyAt(env, db, ps, 1).nFees == 0;
    AcceptedStep(env, db, ps, 0, TallyAt(env, db, ps, 0), View(db, ps, 0));
  }

  /** The tree once every block has arrived. */
  lemma {:induction false} Ancestors(h: Hash)
    ensures Anc(TREE3, h, 1) <==> h == 1 || h == 100
    ensures Anc(TREE3, h, 2) <==> h == 2 || h == 100
    ensures Anc(TREE3, h, 3) <==> h == 3 || h == 2 || h == 100
    ensures Postponed(TREE3, 1, h) <==> h == 3
    ensures Intermediate(TREE3, 1, 3) == 2 && Intermediate(TREE2, 1, 2) == 2
    ensures IndexAt(TREE3, 100) == map[] && IndexAt(TREE1, 100) == map[]
  {
  }

  lemma {:induction false} HashesFaithful(t: Tree)
    requires t == TREE1 || t == TREE2 || t == TREE3
    ensures HashingFaithful(t)
  {
    forall a, b, i, j |
        HasParent(t, a) && HasParent(t, b) && 0 <= i < |t[a].block.vtx| && 0 <= j < |t[b].block.vtx|
      ensures t[a].block.vtx[i].hash == t[b].block.vtx[j].hash ==> a == b && i == j
    {
      OneTransaction(t, a);
      OneTransaction(t, b);
    }
  }

  lemma {:induction false} OneTransaction(t: Tree, h: Hash)
    requires (t == TREE1 || t == TREE2 || t == TREE3) && HasParent(t, h)
    ensures |t[h].block.vtx| == 1 && t[h].block.vtx[0].hash == 10 + h
  {
  }

  const FINE := Io(_ => true, _ => true)

  /** The commit that would make the side block the best one fails. */
  const FAILING := Io(_ => true, h => h != 2)

  /** The first block connects to genesis. */
  lemma {:induction false} FirstConnects(c: ChainState)
    requires c.mapBlockIndex == TREE1
    ensures c.Succeeds(FINE, 100, 1) && c.Reaches(FINE, 100, 1)
  {
    BlocksOk(FIRST);
    var env := Env(c.rules, c.disk, c.mempool, RecentBlocks(TREE1, 1, c.nCoinbaseMaturity),
      0 < c.nTotalBlocksEstimate, 0);
    CoinbaseAlone(env, map[], FIRST, 1, 0);
    Ancestors1(1);
    hide BlockConnects;
    assert c.Connects(1, 100);
    forall h ensures Anc(TREE1, h, 1) && !Anc(TREE1, h, 100) ==> h == 1 { Ancestors1(h); }
  }

  lemma {:induction false} Ancestors1(h: Hash)
    ensures Anc(TREE1, h, 1) <==> h == 1 || h == 100
    ensures HasParent(TREE1, 1) && Parent(TREE1, 1) == 100 && IndexAt(TREE1, 100) == map[]
  {
  }

  /** What connects in the final tree while the first block is the tip. */
  lemma {:induction false} OnlySideConnects(c: ChainState)
    requires c.mapBlockIndex == TREE3
    ensures c.Connects(2, 1) && !c.Connects(3, 1)
  {
    BlocksOk(SIDE);
    BlocksOk(TOP);
    var side := Env(c.rules, c.disk, c.mempool, RecentBlocks(TREE3, 2, c.nCoinbaseMaturity),
      1 < c.nTotalBlocksEstimate, 1);
    var top := Env(c.rules, c.disk, c.mempool, RecentBlocks(TREE3, 3, c.nCoinbaseMaturity),
      1 < c.nTotalBlocksEstimate, 1);
    CoinbaseAlone(side, map[], SIDE, 2, 0);
    CoinbaseAlone(top, IndexAt(TREE3, 2), TOP, 3, 0);
    Ancestors(1);
    hide BlockConnects, RecentBlocks, IndexAt;
    assert HasParent(TREE3, 2) && Parent(TREE3, 2) == 100 && HasParent(TREE3, 3) && Parent(TREE3, 3) == 2;
  }

  lemma {:induction false} SwitchStops(c: ChainState)
    requires c.mapBlockIndex == TREE3
    ensures c.Succeeds(FINE, 1, 3) && !c.Reaches(FINE, 1, 3)
    ensures forall conn :: c.StopsAt(FINE, 1, 3, conn) ==> conn == 2
  {
    OnlySideConnects(c);
    hide ChainState.Connects;
    Ancestors(3);
    forall h
      ensures Anc(TREE3, h, 2) && !Anc(TREE3, h, 1) ==> h == 2
      ensures Postponed(TREE3, 1, h) ==> h == 3
    {
      Ancestors(h);
    }
    assert Parent(TREE3, 3) == 2;
    hide Anc, Postponed, Intermediate;
  }

  /** It is the turn of block b, which will make the tree t. */
  predicate Turn(t0: Tree, b: Block, nFile: nat, nTrust: nat, t: Tree) {
    || (t0 == map[100 := GENESIS] && b == FIRST && nFile == 1 && nTrust == 1 && t == TREE1)
    || (t0 == TREE1 && b == SIDE && nFile == 2 && nTrust == 2 && t == TREE2)
    || (t0 == TREE2 && b == TOP && nFile == 3 && nTrust == 1 && t == TREE3)
  }

  lemma {:induction false} TurnIs(t0: Tree, b: Block, nFile: nat, nTrust: nat, t: Tree)
    requires Turn(t0, b, nFile, nTrust, t)
    ensures |b.vtx| == 1 && |b.vtx[0].vin| == 1 && b.hash !in t0 && b.hashPrev in t0
    ensures PushInt(t0[b.hashPrev].nHeight + 1) <= b.vtx[0].vin[0].scriptSig
    ensures 100 in t0 && t0[100] == GENESIS && b.hash != 99
    ensures t == t0[b.hash := BlockIndex(b, Some(b.hashPrev), t0[b.hashPrev].nHeight + 1, nFile, 0,
                                         t0[b.hashPrev].nChainTrust + nTrust)]
  {
    assert PushInt(1) == [0x51] && PushInt(2) == [0x52];
  }

  lemma {:induction false} TurnOk(t0: Tree, b: Block, nFile: nat, nTrust: nat, t: Tree)
    requires Turn(t0, b, nFile, nTrust, t)
    ensures BlockOk(b) && HashingFaithful(t)
  {
    BlocksOk(b);
    HashesFaithful(t);
  }

  /** Each block may enter when it is its turn. */
  lemma {:induction false} Enters(c: ChainState, b: Block, nFile: nat, nTrust: nat, t: Tree)
    requires c.hashGenesis == 100 && forall p :: p in c.disk ==> p.At? && p.nFile < nFile
    requires Turn(c.mapBlockIndex, b, nFile, nTrust, t)
    ensures BlockOk(b) && c.WouldStore(b, true) && c.Storable(b, nFile, 0, nTrust)
    ensures c.mapBlockIndex[b.hash := c.IndexFor(b, nFile, 0, nTrust)] == t && HashingFaithful(t)
  {
    hide BlockOk, HashingFaithful, PushInt, Place, Turn;
    TurnOk(c.mapBlockIndex, b, nFile, nTrust, t);
    TurnIs(c.mapBlockIndex, b, nFile, nTrust, t);
    FreeFile(c, b, nFile);
  }

  lemma {:induction false} FreeFile(c: ChainState, b: Block, nFile: nat)
    requires forall p :: p in c.disk ==> p.At? && p.nFile < nFile
    ensures forall i :: 0 <= i < |b.vtx| ==> Place(b.vtx, nFile, 0)[i].pos !in c.disk
  {
  }

  /** The first block becomes the tip. */
  method Begin(rules: ScriptRules) returns (c: ChainState)
    ensures fresh(c) && c.Valid() && c.mapBlockIndex == TREE1 && c.pindexBest == 1 && c.nBestChainTrust == 1
    ensures c.hashGenesis == 100 && forall p :: p in c.disk ==> p.At? && p.nFile == 1
  {
    hide ChainState.Valid, ChainState.Storable, ChainState.WouldStore, HashingFaithful, ChainState.IndexFor, BlockOk;
    hide ChainState.StandsAt, ChainState.Succeeds, ChainState.Reaches;
    c := new ChainState(rules, 0, 0, GENESIS);
    Enters(c, FIRST, 1, 1, TREE1);
    var ok, conn := c.AcceptBlock(FINE, FIRST, 1, 0, 1, true);
    FirstConnects(c);
  }

  /** The side block is stored, but the switch to it fails. */
  method StoreSide(c: ChainState)
    requires c.Valid() && c.mapBlockIndex == TREE1 && c.pindexBest == 1 && c.nBestChainTrust == 1
    requires c.hashGenesis == 100 && forall p :: p in c.disk ==> p.At? && p.nFile == 1
    modifies c
    ensures c.Valid() && c.mapBlockIndex == TREE2 && c.pindexBest == 1
    ensures forall p :: p in c.disk ==> p.At? && p.nFile <= 2
  {
    hide ChainState.Valid, ChainState.Storable, ChainState.WouldStore, HashingFaithful, ChainState.IndexFor, BlockOk;
    hide ChainState.StandsAt, ChainState.Reaches;
    Enters(c, SIDE, 2, 2, TREE2);
    Ancestors(2);
    hide Intermediate;
    var ok, conn := c.AcceptBlock(FAILING, SIDE, 2, 0, 2, true);
  }

  /** The run: the tip is the top block, everything else stands at the side block. */
  method Stall(rules: ScriptRules) returns (c: ChainState, conn: Hash)
    ensures fresh(c) && c.mapBlockIndex == TREE3
    ensures c.TipIs(3) && conn == 2 && c.StandsAt(conn) && !c.Valid()
  {
    c := Begin(rules);
    StoreSide(c);
    hide ChainState.Valid, ChainState.Storable, ChainState.WouldStore, HashingFaithful, ChainState.IndexFor, BlockOk;
    hide ChainState.StandsAt, ChainState.Succeeds, ChainState.Reaches, ChainState.StopsAt;
    Enters(c, TOP, 3, 1, TREE3);
    var ok;
    ok, conn := c.AcceptBlock(FINE, TOP, 3, 0, 1, true);
    SwitchStops(c);
  }
}
