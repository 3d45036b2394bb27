/** The money supply: a connected block changes the value of the spendable outputs by exactly what it
    pays out beyond what it takes in, and by no more than its subsidy. */
module Supply {
  import opened Transactions
  import opened Ledger
  import opened Money
  import opened Blocks
  import opened BlockConnection
  import opened CoinbaseHeight

  /** The transactions of the block are stored where ps says, and no real transaction is stored at
      the position that stands for the pool. */
  predicate Stored(ps: seq<Placed>, disk: Disk) {
    MEMPOOL_POS !in disk && forall k :: 0 <= k < |ps| ==> ps[k].pos in disk && disk[ps[k].pos] == ps[k].tx
  }

  lemma {:induction false} PrevFromDisk(v: Index, env: Env, tx: Transaction)
    requires OnDisk(v, env.disk) && MEMPOOL_POS !in env.disk && AllIndexed(v, tx.vin, |tx.vin|)
    ensures FromDisk(v, env.disk, tx.vin, PrevOf(v, env, tx))
  {
    forall i | 0 <= i < |tx.vin|
      ensures tx.vin[i].prevout.hash in PrevOf(v, env, tx)
      ensures PrevOf(v, env, tx)[tx.vin[i].prevout.hash] ==
              (v[tx.vin[i].prevout.hash], env.disk[v[tx.vin[i].prevout.hash].pos])
    {
      assert Indexed(v, tx.vin[i].prevout);
    }
  }

  lemma {:induction false} SupplyUpTo(env: Env, db: Index, ps: seq<Placed>, k: nat)
    requires k <= |ps| && OnDisk(db, env.disk) && Stored(ps, env.disk) && Sound(db, ps)
    ensures OnDisk(View(db, ps, k), env.disk)
    ensures Total(View(db, ps, k), env.disk) ==
            Total(db, env.disk) + TallyAt(env, db, ps, k).nValueOut - TallyAt(env, db, ps, k).nValueIn
  {
    hide PrevOf, Total;
    if k > 0 {
      SupplyUpTo(env, db, ps, k - 1);
      var v, tx := View(db, ps, k - 1), ps[k - 1].tx;
      assert Takes(db, ps, k - 1);
      LaterIdsFullySpent(db, ps, k - 1, k - 1);
      if !tx.IsCoinBase() { PrevFromDisk(v, env, tx); }
      TotalApplyTx(v, env.disk, tx, ps[k - 1].pos, PrevOf(v, env, tx));
    }
  }

  /** Connecting a block moves the value of everything spendable by exactly the amount ConnectBlock
      adds to nMoneySupply. */
  lemma {:induction false} SupplyMoves(env: Env, db: Index, b: Block, nFile: nat, nBlockPos: nat)
    requires BlockConnects(env, db, b, nFile, nBlockPos)
    requires OnDisk(db, env.disk) && Stored(Place(b.vtx, nFile, nBlockPos), env.disk)
    ensures var ps := Place(b.vtx, nFile, nBlockPos);
      var t := TallyAt(env, db, ps, |ps|);
      && OnDisk(View(db, ps, |ps|), env.disk)
      && Total(View(db, ps, |ps|), env.disk) == Total(db, env.disk) + t.nValueOut - t.nValueIn
  {
    AcceptedIsSound(env, db, b, nFile, nBlockPos);
    SupplyUpTo(env, db, Place(b.vtx, nFile, nBlockPos), |b.vtx|);
  }

  /** What the outputs that the first k inputs claim are worth. */
  ghost function OutputValues(v: Index, disk: Disk, vin: seq<TxIn>, k: nat): int
    requires k <= |vin| && OnDisk(v, disk) && AllIndexed(v, vin, k)
  {
    if k == 0 then 0 else OutputValues(v, disk, vin, k - 1) + OutputValue(v, disk, vin[k - 1].prevout)
  }

  lemma {:induction false} OutputValuesAre(v: Index, disk: Disk, vin: seq<TxIn>, k: nat, inputs: PrevTxs)
    requires k <= |vin| && OnDisk(v, disk) && AllIndexed(v, vin, k) && FromDisk(v, disk, vin, inputs)
    ensures OutputValues(v, disk, vin, k) == SumIn(vin, k, inputs)
  {
    if k > 0 { OutputValuesAre(v, disk, vin, k - 1, inputs); }
  }

  /** The transaction stored at pos is no coinbase or coinstake of one of the given blocks. */
  ghost predicate NotYoung(disk: Disk, pos: DiskTxPos, blocks: seq<(nat, nat)>) {
    pos.At? && pos in disk && (disk[pos].IsCoinBase() || disk[pos].IsCoinStake()) ==>
      (pos.nFile, pos.nBlockPos) !in blocks
  }

  /** Every transaction of a connected block claims, where it stands, outputs that are unspent, not newer
      than it, and that it may spend; an ordinary one leaves a fee of at least 10000. */
  lemma {:induction false} BlockSpendsRightfully(env: Env, db: Index, b: Block, nFile: nat, nBlockPos: nat, k: nat)
    requires BlockConnects(env, db, b, nFile, nBlockPos)
    requires OnDisk(db, env.disk) && Stored(Place(b.vtx, nFile, nBlockPos), env.disk)
    requires k < |b.vtx| && !b.vtx[k].IsCoinBase()
    ensures var (tx, v) := (b.vtx[k], View(db, Place(b.vtx, nFile, nBlockPos), k));
      && OnDisk(v, env.disk) && Spendable(v, tx.vin, |tx.vin|)
      && (forall i :: 0 <= i < |tx.vin| ==>
            Rightful(env.rules, tx, i, env.disk[v[tx.vin[i].prevout.hash].pos], env.fBeforeLastCheckpoint))
      && (forall i :: 0 <= i < |tx.vin| ==> NotYoung(env.disk, v[tx.vin[i].prevout.hash].pos, env.recentBlocks))
      && (!tx.IsCoinStake() ==>
            OutputValues(v, env.disk, tx.vin, |tx.vin|) >= SumOut(tx.vout, |tx.vout|) + 10_000)
  {
    var ps := Place(b.vtx, nFile, nBlockPos);
    var (tx, v) := (b.vtx[k], View(db, ps, k));
    AcceptedIsSound(env, db, b, nFile, nBlockPos);
    SupplyUpTo(env, db, ps, k);
    AcceptedEach(env, db, ps, |ps|, k);
    assert Takes(db, ps, k);
    hide AllAccepted, Total, TallyAt, Place;
    PrevFromDisk(v, env, tx);
    SpendsFromDisk(env, v, tx, PrevOf(v, env, tx));
  }

  lemma {:induction false} SpendsFromDisk(env: Env, v: Index, tx: Transaction, inputs: PrevTxs)
    requires OnDisk(v, env.disk) && AllIndexed(v, tx.vin, |tx.vin|) && FromDisk(v, env.disk, tx.vin, inputs)
    requires !tx.IsCoinBase()
    requires Connectable(env.rules, tx, inputs, env.recentBlocks, env.fBeforeLastCheckpoint)
    ensures forall i :: 0 <= i < |tx.vin| ==>
      Rightful(env.rules, tx, i, env.disk[v[tx.vin[i].prevout.hash].pos], env.fBeforeLastCheckpoint)
    ensures forall i :: 0 <= i < |tx.vin| ==> NotYoung(env.disk, v[tx.vin[i].prevout.hash].pos, env.recentBlocks)
    ensures !tx.IsCoinStake() ==>
      OutputValues(v, env.disk, tx.vin, |tx.vin|) >= SumOut(tx.vout, |tx.vout|) + 10_000
  {
    ConnectableIsRightful(env.rules, tx, inputs, env.recentBlocks, env.fBeforeLastCheckpoint);
    OutputValuesAre(v, env.disk, tx.vin, |tx.vin|, inputs);
    forall i | 0 <= i < |tx.vin| ensures NotYoung(env.disk, v[tx.vin[i].prevout.hash].pos, env.recentBlocks) {
      assert InputOk(tx, tx.vin[i].prevout, inputs, env.recentBlocks);
    }
  }

  /** What the coinstakes among the first k transactions pay out beyond their inputs. */
  function StakeMint(env: Env, db: Index, ps: seq<Placed>, k: nat): int
    requires k <= |ps|
  {
    if k == 0 then 0
    else
      var tx := ps[k - 1].tx;
      StakeMint(env, db, ps, k - 1) +
      if !tx.IsCoinBase() && tx.IsCoinStake()
      then tx.GetValueOut() - GetValueIn(tx, PrevOf(View(db, ps, k - 1), env, tx)) else 0
  }

  /** The fees cancel: beyond the coinbase and the coinstakes a block creates nothing. */
  lemma {:induction false} FeesCancel(env: Env, db: Index, ps: seq<Placed>, k: nat)
    requires 0 < k <= |ps| && ps[0].tx.IsCoinBase()
    requires forall i :: 1 <= i < |ps| ==> !ps[i].tx.IsCoinBase()
    ensures var t := TallyAt(env, db, ps, k);
      t.nValueOut - t.nValueIn == ps[0].tx.GetValueOut() - t.nFees + StakeMint(env, db, ps, k)
  {
    hide PrevOf;
    if k > 1 { FeesCancel(env, db, ps, k - 1); }
  }

  lemma {:induction false} OneCoinStake(env: Env, db: Index, ps: seq<Placed>, k: nat)
    requires 2 <= k <= |ps| && ps[0].tx.IsCoinBase() && ps[1].tx.IsCoinStake() && !ps[1].tx.IsCoinBase()
    requires forall i :: 2 <= i < |ps| ==> !ps[i].tx.IsCoinStake() && !ps[i].tx.IsCoinBase()
    ensures StakeMint(env, db, ps, k) == TallyAt(env, db, ps, k).nStakeReward
  {
    hide PrevOf;
    if k > 2 {
      OneCoinStake(env, db, ps, k - 1);
    } else {
      assert StakeMint(env, db, ps, 1) == 0;
    }
  }

  lemma {:induction false} NoCoinStake(env: Env, db: Index, ps: seq<Placed>, k: nat)
    requires k <= |ps| && forall i :: 0 <= i < |ps| ==> !ps[i].tx.IsCoinStake()
    ensures StakeMint(env, db, ps, k) == 0
  {
    if k > 0 { NoCoinStake(env, db, ps, k - 1); }
  }

  /** A proof-of-stake block raises the supply by at most the stake subsidy for its coin age. */
  lemma {:induction false} StakeEmissionBound(env: Env, db: Index, b: Block, nFile: nat, nBlockPos: nat)
    requires BlockConnects(env, db, b, nFile, nBlockPos) && b.IsProofOfStake()
    ensures var ps := Place(b.vtx, nFile, nBlockPos);
      var t := TallyAt(env, db, ps, |ps|);
      CoinAge(db, env.disk, b.vtx[1]).Some? &&
      t.nValueOut - t.nValueIn <= StakeSubsidy(CoinAge(db, env.disk, b.vtx[1]).value)
  {
    hide AllAccepted;
    var ps := Place(b.vtx, nFile, nBlockPos);
    FeesCancel(env, db, ps, |ps|);
    OneCoinStake(env, db, ps, |ps|);
    assert SumOut(b.vtx[0].vout, 1) == 0;
  }

  /** A proof-of-work block raises the supply by at most the work subsidy plus what its coinstakes
      mint.  It stays within the subsidy exactly when its coinstakes mint no more than its coinbase
      leaves unclaimed, and so if it has none. */
  lemma {:induction false} WorkEmissionBound(env: Env, db: Index, b: Block, nFile: nat, nBlockPos: nat)
    requires BlockConnects(env, db, b, nFile, nBlockPos) && b.IsProofOfWork()
    ensures var ps := Place(b.vtx, nFile, nBlockPos);
      var t := TallyAt(env, db, ps, |ps|);
      && t.nValueOut - t.nValueIn <= WorkSubsidy(env.nBestHeight) + StakeMint(env, db, ps, |ps|)
      && 0 <= WorkSubsidy(env.nBestHeight) + t.nFees - b.vtx[0].GetValueOut()
      && (t.nValueOut - t.nValueIn <= WorkSubsidy(env.nBestHeight) <==>
            StakeMint(env, db, ps, |ps|) <= WorkSubsidy(env.nBestHeight) + t.nFees - b.vtx[0].GetValueOut())
      && ((forall i :: 0 <= i < |b.vtx| ==> !b.vtx[i].IsCoinStake()) ==>
            t.nValueOut - t.nValueIn <= WorkSubsidy(env.nBestHeight))
  {
    hide AllAccepted;
    var ps := Place(b.vtx, nFile, nBlockPos);
    FeesCancel(env, db, ps, |ps|);
    if forall i :: 0 <= i < |b.vtx| ==> !b.vtx[i].IsCoinStake() { NoCoinStake(env, db, ps, |ps|); }
  }

  // ------------------------------------------------------------------------------------------
  // Without the hypothesis the work bound fails
  // ------------------------------------------------------------------------------------------

  /** A transaction with one input, old enough and unspent, connects as soon as it is a coinstake or
      pays its fee. */
  lemma {:induction false} OneInputConnects(v: Index, env: Env, tx: Transaction)
    requires |tx.vin| == 1 && !tx.IsCoinBase() && Unspent(v, tx.vin[0].prevout)
    requires env.recentBlocks == [] && env.fBeforeLastCheckpoint
    requires v[tx.vin[0].prevout.hash].pos in env.disk && v[tx.vin[0].prevout.hash].pos != MEMPOOL_POS
    requires var prev := env.disk[v[tx.vin[0].prevout.hash].pos]; var n := tx.vin[0].prevout.n;
      && n < |prev.vout| && prev.nTime <= tx.nTime && MoneyRange(prev.vout[n].nValue)
      && (tx.IsCoinStake() || PaysFee(tx, prev.vout[n].nValue))
    ensures Connectable(env.rules, tx, PrevOf(v, env, tx), env.recentBlocks, env.fBeforeLastCheckpoint)
    ensures GetValueIn(tx, PrevOf(v, env, tx)) ==
            env.disk[v[tx.vin[0].prevout.hash].pos].vout[tx.vin[0].prevout.n].nValue
  {
    var o, inputs := tx.vin[0].prevout, PrevOf(v, env, tx);
    assert PrevIn(v, env, o.hash) == Some((v[o.hash], env.disk[v[o.hash].pos]));
    assert o.hash in inputs;
    assert SumIn(tx.vin, 1, inputs) == SumIn(tx.vin, 0, inputs) + InputValue(o, inputs);
    assert InputOk(tx, o, inputs, env.recentBlocks);
  }

  /** A coinbase, a payment and a coinstake, in this order, with one input each. */
  predicate LateStake(env: Env, db: Index, vtx: seq<Transaction>) {
    && |vtx| == 3
    && vtx[0].IsCoinBase() && vtx[0].hash !in db && vtx[0].nSigOps == 0
    && SingleInput(env, db, vtx[1]) && !vtx[1].IsCoinStake() && PaysFee(vtx[1], Claimed(env, db, vtx[1]))
    && SingleInput(env, db, vtx[2]) && vtx[2].IsCoinStake()
    && vtx[0].hash != vtx[1].hash && vtx[0].hash != vtx[2].hash && vtx[1].hash != vtx[2].hash
    && vtx[1].vin[0].prevout.hash != vtx[2].vin[0].prevout.hash
  }

  predicate SingleInput(env: Env, db: Index, tx: Transaction) {
    && |tx.vin| == 1 && !tx.IsCoinBase() && tx.hash !in db && tx.nSigOps == 0
    && Unspent(db, tx.vin[0].prevout)
    && OldEnough(env, tx, db[tx.vin[0].prevout.hash].pos, tx.vin[0].prevout.n)
  }

  predicate OldEnough(env: Env, tx: Transaction, pos: DiskTxPos, n: nat) {
    && pos in env.disk && pos != MEMPOOL_POS && n < |env.disk[pos].vout|
    && env.disk[pos].nTime <= tx.nTime && MoneyRange(env.disk[pos].vout[n].nValue)
  }

  function Claimed(env: Env, db: Index, tx: Transaction): int
    requires SingleInput(env, db, tx)
  {
    env.disk[db[tx.vin[0].prevout.hash].pos].vout[tx.vin[0].prevout.n].nValue
  }

  lemma {:induction false} LateStakeViews(env: Env, db: Index, vtx: seq<Transaction>, ps: seq<Placed>)
    requires LateStake(env, db, vtx)
    requires |ps| == 3 && forall k :: 0 <= k < 3 ==> ps[k].tx == vtx[k] && ps[k].pos.At?
    ensures forall h :: h in db ==> h in View(db, ps, 1) && View(db, ps, 1)[h] == db[h]
    ensures var h := vtx[2].vin[0].prevout.hash; h in View(db, ps, 2) && View(db, ps, 2)[h] == db[h]
  {
    var v1, tx := View(db, ps, 1), vtx[1];
    assert View(db, ps, 0) == db;
    assert MarkAll(v1, tx.vin, 1, ps[1].pos) == Mark(MarkAll(v1, tx.vin, 0, ps[1].pos), tx.vin[0].prevout, ps[1].pos);
    assert View(db, ps, 2) == ApplyTx(v1, tx, ps[1].pos);
  }

  lemma {:induction false} LateStakeTallies(env: Env, db: Index, vtx: seq<Transaction>, ps: seq<Placed>)
    requires LateStake(env, db, vtx) && env.recentBlocks == [] && env.fBeforeLastCheckpoint
    requires forall tx, inputs :: env.rules.p2shSigOps(tx, inputs) == 0
    requires |ps| == 3 && forall k :: 0 <= k < 3 ==> ps[k].tx == vtx[k] && ps[k].pos.At?
    ensures AllAccepted(env, db, ps, 3)
    ensures var (nIn, nStake) := (Claimed(env, db, vtx[1]), Claimed(env, db, vtx[2]));
      var (nOut0, nOut1, nOut2) := (vtx[0].GetValueOut(), vtx[1].GetValueOut(), vtx[2].GetValueOut());
      TallyAt(env, db, ps, 3) == Tally(0, nIn + nStake, nOut0 + nOut1 + nOut2, nIn - nOut1, nOut2 - nStake)
  {
    LateStakeViews(env, db, vtx, ps);
    OneInputConnects(View(db, ps, 1), env, vtx[1]);
    OneInputConnects(View(db, ps, 2), env, vtx[2]);
    AcceptedStep(env, db, ps, 0, TallyAt(env, db, ps, 0), View(db, ps, 0));
    AcceptedStep(env, db, ps, 1, TallyAt(env, db, ps, 1), View(db, ps, 1));
    AcceptedStep(env, db, ps, 2, TallyAt(env, db, ps, 2), View(db, ps, 2));
    hide PrevOf, Connectable, View, AcceptedAt;
    assert TallyAt(env, db, ps, 0) == Tally(0, 0, 0, 0, 0);
    assert TallyAt(env, db, ps, 1) == Tally(0, 0, vtx[0].GetValueOut(), 0, 0);
    assert AcceptedAt(env, db, ps, 0) && AllAccepted(env, db, ps, 1);
    assert AcceptedAt(env, db, ps, 1) && AllAccepted(env, db, ps, 2);
  }

  // A block after height 5, with the two transactions it spends.
  const LATE_COINBASE := Transaction(1, 0, [TxIn(OutPoint(0, 0xFFFF_FFFF), [0x56, 0])], [TxOut(0, [])], 100, 0)
  const LATE_PAYMENT := Transaction(2, 0, [TxIn(OutPoint(5, 0), [])], [TxOut(10_000, [1])], 100, 0)
  const LATE_STAKE := Transaction(3, 0, [TxIn(OutPoint(6, 0), [])], [TxOut(0, []), TxOut(1_000_000, [1])], 100, 0)
  const LATE_BLOCK := Block(77, 76, 0, [LATE_COINBASE, LATE_PAYMENT, LATE_STAKE], true)
  const PAID := Transaction(5, 0, [TxIn(OutPoint(7, 0), [])], [TxOut(20_000, [1])], 100, 0)
  const STAKED := Transaction(6, 0, [TxIn(OutPoint(8, 0), [])], [TxOut(1, [1])], 100, 0)

  lemma {:induction false} LateTransactionsOk()
    ensures TransactionOk(LATE_COINBASE) && TransactionOk(LATE_PAYMENT) && TransactionOk(LATE_STAKE)
    ensures TransactionOk(PAID) && TransactionOk(STAKED)
    ensures LATE_COINBASE.GetValueOut() == 0 && LATE_PAYMENT.GetValueOut() == 10_000
    ensures LATE_STAKE.GetValueOut() == 1_000_000
  {
    assert SumOut(LATE_COINBASE.vout, 1) == SumOut(LATE_COINBASE.vout, 0) + 0;
    assert SumOut(LATE_PAYMENT.vout, 1) == SumOut(LATE_PAYMENT.vout, 0) + 10_000;
    assert SumOut(LATE_STAKE.vout, 1) == SumOut(LATE_STAKE.vout, 0) + 0;
    assert SumOut(LATE_STAKE.vout, 2) == SumOut(LATE_STAKE.vout, 1) + 1_000_000;
    assert SumOut(PAID.vout, 1) == SumOut(PAID.vout, 0) + 20_000;
    assert SumOut(STAKED.vout, 1) == SumOut(STAKED.vout, 0) + 1;
  }

  lemma {:induction false} LateBlockOk()
    ensures BlockOk(LATE_BLOCK) && LATE_BLOCK.IsProofOfWork() && PushInt(6) <= LATE_COINBASE.vin[0].scriptSig
  {
    LateTransactionsOk();
    hide TransactionOk;
    var vtx := LATE_BLOCK.vtx;
    assert LegacySigOps(vtx, 1) == 0 && LegacySigOps(vtx, 2) == 0 && LegacySigOps(vtx, 3) == 0;
  }

  /** A proof-of-work block whose third transaction is a coinstake is accepted, and raises the supply
      beyond its subsidy: the duplicate-coinstake test of CheckBlock runs only for proof-of-stake
      blocks, and ConnectInputs compares no values for a coinstake.  The block passes CheckBlock and
      the height rule of AcceptBlock, and what it spends passes CheckTransaction. */
  lemma {:induction false} WorkBoundNeedsNoCoinStake(rules: ScriptRules)
    returns (env: Env, db: Index, b: Block)
    requires forall tx, inputs :: rules.p2shSigOps(tx, inputs) == 0
    ensures env.rules == rules && env.nBestHeight >= 0
    ensures BlockConnects(env, db, b, 0, 300) && b.IsProofOfWork()
    ensures PushInt(env.nBestHeight + 1) <= b.vtx[0].vin[0].scriptSig
    ensures forall h :: h in db ==>
      db[h].pos in env.disk && env.disk[db[h].pos].hash == h && TransactionOk(env.disk[db[h].pos])
    ensures var t := TallyAt(env, db, Place(b.vtx, 0, 300), |b.vtx|);
      t.nValueOut - t.nValueIn > WorkSubsidy(env.nBestHeight)
  {
    db := map[5 := TxIndex(At(0, 0, 100), [Null]), 6 := TxIndex(At(0, 0, 200), [Null])];
    env := Env(rules, map[At(0, 0, 100) := PAID, At(0, 0, 200) := STAKED], map[], [], true, 5);
    b := LATE_BLOCK;
    LateTransactionsOk();
    LateBlockOk();
    assert PaysFee(LATE_PAYMENT, 20_000);
    assert LateStake(env, db, b.vtx);
    LateStakeTallies(env, db, b.vtx, Place(b.vtx, 0, 300));
    hide AllAccepted, TallyAt, LateStake, PaysFee, BlockOk, TransactionOk;
  }
}
