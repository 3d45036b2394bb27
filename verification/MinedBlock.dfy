/** What CreateNewBlock assembles is a block that ConnectBlock accepts (src/miner.cpp, src/main.cpp).
    Assembly replays the transactions in a test pool where each is stored nowhere yet; connecting
    replays them behind the coinbase with their places in the new block.  The two indexes agree on
    what is unspent and on which transaction each entry stands for. */
module MinedBlock {
  import opened Basics
  import opened Transactions
  import opened Ledger
  import opened Money
  import opened Blocks
  import opened BlockConnection
  import opened Supply
  import Chain
  import opened MemPool
  import Miner

  // ------------------------------------------------------------------------------------------
  // A pool closed under parents can be assembled
  // ------------------------------------------------------------------------------------------

  /** A supported pool over a readable index meets what CreateNewBlock asks for. */
  lemma {:induction false} SupportedCloses(s: Sources)
    requires Supported(s.mempool, s.db) && OnDisk(s.db, s.disk)
    requires forall h :: h in s.mempool ==> s.mempool[h].hash == h
    ensures Miner.PoolClosed(s)
  {
    forall h | h in s.mempool ensures Miner.ParentsThere(s, s.mempool[h]) {
      var tx := s.mempool[h];
      assert TxSupported(s.mempool, s.db, tx);
      assert forall i :: 0 <= i < |tx.vin| ==> InputSupported(s.mempool, s.db, tx.vin[i].prevout);
    }
  }

  // ------------------------------------------------------------------------------------------
  // The two indexes
  // ------------------------------------------------------------------------------------------

  /** How the node that connects the block relates to the one that assembled it: the same rules, more
      block files, no further block to wait for, and a fresh place for the new block. */
  ghost predicate SameNode(env: Miner.Setting, benv: Env, nFile: nat, nBlockPos: nat) {
    && benv.rules == env.rules && OnDisk(env.s.db, env.s.disk) && MEMPOOL_POS !in env.s.disk
    && (forall p :: p in env.s.disk ==> p in benv.disk && benv.disk[p] == env.s.disk[p])
    && (forall p :: p in env.s.disk && p.At? ==> (p.nFile, p.nBlockPos) != (nFile, nBlockPos))
    && (forall p :: p in benv.recentBlocks ==> p in env.recentBlocks || p == (nFile, nBlockPos))
    && SigOpsOfTransactions(env.rules)
  }

  /** Counting signature operations looks at the previous transactions, not at their index entries. */
  ghost predicate SigOpsOfTransactions(rules: ScriptRules) {
    forall tx, p, q :: SameTransactions(p, q) ==> rules.p2shSigOps(tx, p) == rules.p2shSigOps(tx, q)
  }

  predicate SameTransactions(p: PrevTxs, q: PrevTxs) { p.Keys == q.Keys && forall h :: h in p ==> p[h].1 == q[h].1 }

  /** Two entries for h stand for the same transaction with the same outputs unspent. */
  predicate TwinEntries(env: Miner.Setting, benv: Env, h: Hash, x: TxIndex, y: TxIndex) {
    && |x.vSpent| == |y.vSpent| && (forall n :: 0 <= n < |x.vSpent| ==> (x.vSpent[n] == Null <==> y.vSpent[n] == Null))
    && y.pos != MEMPOOL_POS && y.pos in benv.disk && Miner.TxAt(env.s, h, x) == Some(benv.disk[y.pos])
    && (benv.disk[y.pos].IsCoinBase() || benv.disk[y.pos].IsCoinStake() ==> x.pos == y.pos && x.pos in env.s.disk)
  }

  /** Apart from the coinbase of the new block the indexes agree. */
  ghost predicate Twins(env: Miner.Setting, benv: Env, coinbase: Hash, a: Index, b: Index) {
    coinbase !in a && forall h :: h != coinbase ==> TwinsAt(env, benv, a, b, h)
  }

  predicate TwinsAt(env: Miner.Setting, benv: Env, a: Index, b: Index, h: Hash) {
    (h in a <==> h in b) && (h in a ==> TwinEntries(env, benv, h, a[h], b[h]))
  }

  lemma {:induction false} TwinsStart(env: Miner.Setting, benv: Env, nFile: nat, nBlockPos: nat, cb: Placed)
    requires SameNode(env, benv, nFile, nBlockPos) && cb.tx.IsCoinBase() && cb.tx.hash !in env.s.db
    ensures Twins(env, benv, cb.tx.hash, env.s.db, ApplyTx(env.s.db, cb.tx, cb.pos))
  {
  }

  lemma {:induction false} TwinsMarked(env: Miner.Setting, benv: Env, a: Index, b: Index, vin: seq<TxIn>,
                                       pos: DiskTxPos, h: Hash)
    requires h in a && h in b && TwinEntries(env, benv, h, a[h], b[h]) && pos.At?
    ensures TwinEntries(env, benv, h, MarkAll(a, vin, |vin|, MEMPOOL_POS)[h], MarkAll(b, vin, |vin|, pos)[h])
  {
    MarkAllAt(a, vin, |vin|, MEMPOOL_POS, h);
    MarkAllAt(b, vin, |vin|, pos, h);
    hide MarkAll;
  }

  /** Transaction p comes from the pool and has its place in the new block. */
  predicate Follows(env: Miner.Setting, benv: Env, p: Placed) {
    && p.pos.At? && p.pos != MEMPOOL_POS && p.pos in benv.disk && benv.disk[p.pos] == p.tx
    && p.tx.hash in env.s.mempool && env.s.mempool[p.tx.hash] == p.tx && !p.tx.IsCoinBase() && !p.tx.IsCoinStake()
  }

  lemma {:induction false} TwinsNextAt(env: Miner.Setting, benv: Env, a: Index, b: Index, p: Placed, h: Hash)
    requires TwinsAt(env, benv, a, b, h) && Follows(env, benv, p)
    ensures TwinsAt(env, benv, ApplyTx(a, p.tx, MEMPOOL_POS), ApplyTx(b, p.tx, p.pos), h)
  {
    var (tx, vin) := (p.tx, p.tx.vin);
    if h == tx.hash {
      assert TwinEntries(env, benv, tx.hash, TxIndex(MEMPOOL_POS, Nulls(|tx.vout|)), TxIndex(p.pos, Nulls(|tx.vout|)));
    } else if h in a {
      TwinsMarked(env, benv, a, b, vin, p.pos, h);
    }
  }

  lemma {:induction false} TwinsNext(env: Miner.Setting, benv: Env, coinbase: Hash, a: Index, b: Index, p: Placed)
    requires Twins(env, benv, coinbase, a, b) && p.tx.hash != coinbase && Follows(env, benv, p)
    ensures Twins(env, benv, coinbase, ApplyTx(a, p.tx, MEMPOOL_POS), ApplyTx(b, p.tx, p.pos))
  {
    assert coinbase !in ApplyTx(a, p.tx, MEMPOOL_POS);
    hide ApplyTx, TwinsAt, Follows;
    forall h | h != coinbase ensures TwinsAt(env, benv, ApplyTx(a, p.tx, MEMPOOL_POS), ApplyTx(b, p.tx, p.pos), h) {
      TwinsNextAt(env, benv, a, b, p, h);
    }
  }

  // ------------------------------------------------------------------------------------------
  // What connects in one connects in the other
  // ------------------------------------------------------------------------------------------

  lemma {:induction false} SamePrev(env: Miner.Setting, benv: Env, a: Index, b: Index, tx: Transaction, h: Hash)
    requires h in a && h in b && TwinEntries(env, benv, h, a[h], b[h]) && RefersTo(tx.vin, |tx.vin|, h)
    ensures h in Miner.PrevsAt(env.s, a, tx.vin) && h in PrevOf(b, benv, tx)
    ensures Miner.PrevsAt(env.s, a, tx.vin)[h] == (a[h], benv.disk[b[h].pos])
    ensures PrevOf(b, benv, tx)[h] == (b[h], benv.disk[b[h].pos])
  {
    assert PrevIn(b, benv, h) == Some((b[h], benv.disk[b[h].pos]));
  }

  predicate TwinPrevs(env: Miner.Setting, benv: Env, h: Hash, x: (TxIndex, Transaction), y: (TxIndex, Transaction)) {
    TwinEntries(env, benv, h, x.0, y.0) && x.1 == y.1 == benv.disk[y.0.pos]
  }

  /** The previous transactions found through either index. */
  lemma {:induction false} SamePrevs(env: Miner.Setting, benv: Env, coinbase: Hash, a: Index, b: Index, tx: Transaction)
    requires Twins(env, benv, coinbase, a, b) && forall i :: 0 <= i < |tx.vin| ==> tx.vin[i].prevout.hash in a
    ensures var (p, q) := (Miner.PrevsAt(env.s, a, tx.vin), PrevOf(b, benv, tx));
      && SameTransactions(p, q)
      && forall h :: h in p ==> TwinPrevs(env, benv, h, p[h], q[h])
  {
    var (p, q) := (Miner.PrevsAt(env.s, a, tx.vin), PrevOf(b, benv, tx));
    assert forall h :: h in p || h in q ==> RefersTo(tx.vin, |tx.vin|, h);
    hide Miner.PrevsAt, PrevOf, TwinEntries;
    forall h | RefersTo(tx.vin, |tx.vin|, h)
      ensures h in p && h in q && p[h].1 == q[h].1 && TwinPrevs(env, benv, h, p[h], q[h])
    {
      assert TwinsAt(env, benv, a, b, h);
      SamePrev(env, benv, a, b, tx, h);
    }
    hide Twins, TwinsAt, TwinPrevs, RefersTo;
  }

  lemma {:induction false} SameSum(vin: seq<TxIn>, k: nat, p: PrevTxs, q: PrevTxs)
    requires k <= |vin| && SameTransactions(p, q)
    ensures SumIn(vin, k, p) == SumIn(vin, k, q)
  {
    if k > 0 { SameSum(vin, k - 1, p, q); }
  }

  /** What the tests of ConnectInputs on one input look at. */
  lemma {:induction false} SameInputOk(env: Miner.Setting, benv: Env, nFile: nat, nBlockPos: nat, tx: Transaction,
                                       o: OutPoint, p: PrevTxs, q: PrevTxs)
    requires SameNode(env, benv, nFile, nBlockPos) && SameTransactions(p, q)
    requires o.hash in p && TwinPrevs(env, benv, o.hash, p[o.hash], q[o.hash])
    requires InputOk(tx, o, p, env.recentBlocks)
    ensures InputOk(tx, o, q, benv.recentBlocks)
    ensures Unspent(EntriesOf(p), o) ==> Unspent(EntriesOf(q), o)
  {
  }

  lemma {:induction false} ConnectableAlike(env: Miner.Setting, benv: Env, nFile: nat, nBlockPos: nat,
                                            tx: Transaction, p: PrevTxs, q: PrevTxs)
    requires SameNode(env, benv, nFile, nBlockPos) && SameTransactions(p, q) && !tx.IsCoinBase()
    requires forall h :: h in p ==> TwinPrevs(env, benv, h, p[h], q[h])
    requires Connectable(env.rules, tx, p, env.recentBlocks, false)
    ensures Connectable(benv.rules, tx, q, benv.recentBlocks, benv.fBeforeLastCheckpoint)
  {
    var n := |tx.vin|;
    SameSum(tx.vin, n, p, q);
    forall i | 0 <= i < n
      ensures InputOk(tx, tx.vin[i].prevout, q, benv.recentBlocks) && Unspent(EntriesOf(q), tx.vin[i].prevout)
      ensures SignatureOk(benv.rules, tx, i, q)
    {
      assert InputOk(tx, tx.vin[i].prevout, p, env.recentBlocks) && Unspent(EntriesOf(p), tx.vin[i].prevout);
      assert SignatureOk(env.rules, tx, i, p);
      SameInputOk(env, benv, nFile, nBlockPos, tx, tx.vin[i].prevout, p, q);
    }
    hide InputOk, SignatureOk, TwinPrevs, SameNode;
  }

  /** A transaction that connects to the test pool connects where it stands in the block. */
  lemma {:induction false} SameConnectable(env: Miner.Setting, benv: Env, nFile: nat, nBlockPos: nat, coinbase: Hash,
                                           a: Index, b: Index, tx: Transaction)
    requires SameNode(env, benv, nFile, nBlockPos) && Twins(env, benv, coinbase, a, b)
    requires !tx.IsCoinBase() && Miner.ConnectsAt(env, tx, a)
    ensures Connectable(benv.rules, tx, PrevOf(b, benv, tx), benv.recentBlocks, benv.fBeforeLastCheckpoint)
    ensures GetValueIn(tx, PrevOf(b, benv, tx)) - tx.GetValueOut() == Miner.FeeAt(env.s, a, tx)
    ensures tx.nSigOps + benv.rules.p2shSigOps(tx, PrevOf(b, benv, tx)) == Miner.SigOpsAt(env, a, tx)
  {
    hide Miner.PrevsAt, PrevOf, Twins, TwinPrevs, Connectable, SameNode, SameTransactions;
    var (p, q) := (Miner.PrevsAt(env.s, a, tx.vin), PrevOf(b, benv, tx));
    InputsKnown(env, tx, a);
    SamePrevs(env, benv, coinbase, a, b, tx);
    SameSum(tx.vin, |tx.vin|, p, q);
    ConnectableAlike(env, benv, nFile, nBlockPos, tx, p, q);
    SameSigOps(env, benv, nFile, nBlockPos, tx, p, q);
  }

  lemma {:induction false} InputsKnown(env: Miner.Setting, tx: Transaction, a: Index)
    requires !tx.IsCoinBase() && Miner.ConnectsAt(env, tx, a)
    ensures forall i :: 0 <= i < |tx.vin| ==> tx.vin[i].prevout.hash in a
  {
    var p := Miner.PrevsAt(env.s, a, tx.vin);
    forall i | 0 <= i < |tx.vin| ensures tx.vin[i].prevout.hash in a {
      assert InputOk(tx, tx.vin[i].prevout, p, env.recentBlocks);
      assert tx.vin[i].prevout.hash in p;
    }
  }

  lemma {:induction false} SameSigOps(env: Miner.Setting, benv: Env, nFile: nat, nBlockPos: nat, tx: Transaction,
                                      p: PrevTxs, q: PrevTxs)
    requires SameNode(env, benv, nFile, nBlockPos) && SameTransactions(p, q)
    ensures env.rules.p2shSigOps(tx, p) == benv.rules.p2shSigOps(tx, q)
  {
  }

  // ------------------------------------------------------------------------------------------
  // The block
  // ------------------------------------------------------------------------------------------

  /** What the pool and the coinbase must be like: no id is in use for an unspent output, and the
      coinbase is new and keeps to the 100 signature operations set aside for it. */
  ghost predicate MayBeMined(env: Miner.Setting, cb: Transaction) {
    && cb.IsCoinBase() && cb.hash !in env.s.db && cb.hash !in env.s.mempool && cb.nSigOps <= 100
    && forall h :: h in env.s.mempool ==> FullySpent(env.s.db, h)
  }

  lemma {:induction false} SigOpsGrow(env: Miner.Setting, vtx: seq<Transaction>, k: nat, n: nat)
    requires k <= n <= |vtx|
    ensures 100 <= Miner.SigOps(env, vtx, k) <= Miner.SigOps(env, vtx, n)
    decreases n
  {
    if k < n { SigOpsGrow(env, vtx, k, n - 1); } else if k > 0 { SigOpsGrow(env, vtx, k - 1, k - 1); }
  }

  /** After the coinbase and k transactions the two replays agree, and so do the totals. */
  ghost predicate InStep(env: Miner.Setting, benv: Env, cb: Transaction, vtx: seq<Transaction>, ps: seq<Placed>, k: nat)
    requires k <= |vtx| && |ps| == |vtx| + 1
  {
    && Twins(env, benv, cb.hash, Miner.Replay(env.s.db, vtx, k), View(env.s.db, ps, k + 1))
    && AllAccepted(benv, env.s.db, ps, k + 1)
    && TallyAt(benv, env.s.db, ps, k + 1).nSigOps == cb.nSigOps + Miner.SigOps(env, vtx, k) - 100
    && TallyAt(benv, env.s.db, ps, k + 1).nFees == Miner.Fees(env.s, vtx, k)
  }

  lemma {:induction false} StepsBegin(env: Miner.Setting, benv: Env, nFile: nat, nBlockPos: nat, cb: Transaction,
                                      vtx: seq<Transaction>, ps: seq<Placed>)
    requires SameNode(env, benv, nFile, nBlockPos) && MayBeMined(env, cb)
    requires |ps| == |vtx| + 1 && ps[0].tx == cb && ps[0].pos.At?
    ensures InStep(env, benv, cb, vtx, ps, 0)
  {
    hide Twins, SameNode;
    TwinsStart(env, benv, nFile, nBlockPos, ps[0]);
    AcceptedStep(benv, env.s.db, ps, 0, TallyAt(benv, env.s.db, ps, 0), View(env.s.db, ps, 0));
    assert AllAccepted(benv, env.s.db, ps, 0);
  }

  lemma {:induction false} StepsGoOn(env: Miner.Setting, benv: Env, nFile: nat, nBlockPos: nat, cb: Transaction,
                                     vtx: seq<Transaction>, ps: seq<Placed>, k: nat)
    requires SameNode(env, benv, nFile, nBlockPos) && MayBeMined(env, cb)
    requires k < |vtx| && |ps| == |vtx| + 1 && ps[k + 1].tx == vtx[k] && ps[k + 1].pos.At? && Stored(ps, benv.disk)
    requires Miner.PlacedWell(env, vtx, k) && Miner.SigOps(env, vtx, k + 1) <= MAX_BLOCK_SIGOPS
    requires InStep(env, benv, cb, vtx, ps, k)
    ensures InStep(env, benv, cb, vtx, ps, k + 1)
  {
    hide Twins, SameNode, Connectable, PrevOf, FullySpent, Miner.ConnectsAt, Miner.FeeAt, Miner.SigOpsAt, ApplyTx;
    hide Follows;
    hide MayBeMined, Miner.PlacedWell, AddValues, AcceptedAt, Stored;
    var (tx, a, b) := (vtx[k], Miner.Replay(env.s.db, vtx, k), View(env.s.db, ps, k + 1));
    var t := TallyAt(benv, env.s.db, ps, k + 1);
    NextFollows(env, benv, cb, vtx, ps, k);
    SameConnectable(env, benv, nFile, nBlockPos, cb.hash, a, b, tx);
    TwinsNext(env, benv, cb.hash, a, b, ps[k + 1]);
    AcceptedStep(benv, env.s.db, ps, k + 1, t, b);
    ValuesAdded(t, benv.rules, tx, PrevOf(b, benv, tx));
  }

  lemma {:induction false} NextFollows(env: Miner.Setting, benv: Env, cb: Transaction, vtx: seq<Transaction>,
                                       ps: seq<Placed>, k: nat)
    requires MayBeMined(env, cb) && k < |vtx| && |ps| == |vtx| + 1 && Stored(ps, benv.disk)
    requires ps[k + 1].tx == vtx[k] && ps[k + 1].pos.At? && Miner.PlacedWell(env, vtx, k)
    ensures Follows(env, benv, ps[k + 1]) && vtx[k].hash != cb.hash && FullySpent(env.s.db, vtx[k].hash)
    ensures !vtx[k].IsCoinBase() && !vtx[k].IsCoinStake() && cb.nSigOps <= 100
    ensures Miner.ConnectsAt(env, vtx[k], Miner.Replay(env.s.db, vtx, k))
  {
    hide FullySpent, Miner.ConnectsAt, Miner.Replay, Spendable;
  }

  lemma {:induction false} ValuesAdded(t: Tally, rules: ScriptRules, tx: Transaction, inputs: PrevTxs)
    requires !tx.IsCoinBase() && !tx.IsCoinStake()
    ensures var t' := AddValues(AddLegacy(t, tx), rules, tx, inputs);
      && t'.nSigOps == t.nSigOps + tx.nSigOps + rules.p2shSigOps(tx, inputs)
      && t'.nFees == t.nFees + GetValueIn(tx, inputs) - tx.GetValueOut()
  {
  }

  /** Behind the coinbase stand the transactions of vtx. */
  ghost predicate StandBehind(ps: seq<Placed>, vtx: seq<Transaction>) {
    |ps| == |vtx| + 1 && forall i :: 0 <= i < |vtx| ==> ps[i + 1].tx == vtx[i] && ps[i + 1].pos.At?
  }

  lemma {:induction false} AllSteps(env: Miner.Setting, benv: Env, nFile: nat, nBlockPos: nat, cb: Transaction,
                                    vtx: seq<Transaction>, ps: seq<Placed>, k: nat)
    requires SameNode(env, benv, nFile, nBlockPos) && MayBeMined(env, cb)
    requires k <= |vtx| && |ps| == |vtx| + 1 && ps[0].tx == cb && ps[0].pos.At? && Stored(ps, benv.disk)
    requires StandBehind(ps, vtx)
    requires Miner.Assembled(env, vtx) && Miner.SigOps(env, vtx, |vtx|) <= MAX_BLOCK_SIGOPS
    ensures InStep(env, benv, cb, vtx, ps, k)
  {
    hide SameNode, MayBeMined, InStep, Miner.PlacedWell;
    if k == 0 {
      StepsBegin(env, benv, nFile, nBlockPos, cb, vtx, ps);
    } else {
      AllSteps(env, benv, nFile, nBlockPos, cb, vtx, ps, k - 1);
      SigOpsGrow(env, vtx, k, |vtx|);
      assert ps[k - 1 + 1].tx == vtx[k - 1];
      StepsGoOn(env, benv, nFile, nBlockPos, cb, vtx, ps, k - 1);
    }
  }

  /** The block CreateNewBlock assembles, behind a coinbase that claims no more than the subsidy and
      the fees counted, passes ConnectBlock where it passes CheckBlock. */
  lemma {:induction false} MinedBlockConnects(env: Miner.Setting, benv: Env, b: Block, vtx: seq<Transaction>,
                                              nFile: nat, nBlockPos: nat)
    requires SameNode(env, benv, nFile, nBlockPos) && Stored(Place(b.vtx, nFile, nBlockPos), benv.disk)
    requires |b.vtx| == |vtx| + 1 && b.vtx[1..] == vtx && MayBeMined(env, b.vtx[0])
    requires Miner.Assembled(env, vtx) && (vtx != [] ==> Miner.SigOps(env, vtx, |vtx|) < MAX_BLOCK_SIGOPS)
    requires b.vtx[0].GetValueOut() <= GetProofOfWorkReward(Miner.Fees(env.s, vtx, |vtx|), benv.nBestHeight)
    requires BlockOk(b)
    ensures BlockConnects(benv, env.s.db, b, nFile, nBlockPos)
  {
    var ps := Place(b.vtx, nFile, nBlockPos);
    assert forall i :: 0 <= i < |vtx| ==> ps[i + 1].tx == b.vtx[1..][i];
    hide SameNode, Place, BlockOk, AllAccepted, MayBeMined, Miner.Replay, View, TallyAt, Miner.Fees, Miner.SigOps;
    hide Twins;
    AllSteps(env, benv, nFile, nBlockPos, b.vtx[0], vtx, ps, |vtx|);
    MinedByWork(env, b, vtx);
    hide Miner.Assembled, Stored;
  }

  lemma {:induction false} MinedByWork(env: Miner.Setting, b: Block, vtx: seq<Transaction>)
    requires |b.vtx| == |vtx| + 1 && b.vtx[1..] == vtx && Miner.Assembled(env, vtx)
    ensures b.IsProofOfWork()
  {
    if vtx != [] {
      assert Miner.PlacedWell(env, vtx, 0);
      assert !vtx[0].IsCoinStake() && b.vtx[1] == vtx[0];
    }
  }

  lemma {:induction false} LegacyWithin(env: Miner.Setting, vtx: seq<Transaction>, k: nat)
    requires k <= |vtx|
    ensures LegacySigOps(vtx, k) + 100 <= Miner.SigOps(env, vtx, k)
  {
    if k > 0 { LegacyWithin(env, vtx, k - 1); }
  }

  lemma {:induction false} LegacyBehind(vtx: seq<Transaction>, k: nat)
    requires 0 < k <= |vtx|
    ensures LegacySigOps(vtx, k) == vtx[0].nSigOps + LegacySigOps(vtx[1..], k - 1)
  {
    if k > 1 {
      LegacyBehind(vtx, k - 1);
    } else {
      assert LegacySigOps(vtx, 1) == LegacySigOps(vtx, 0) + vtx[0].nSigOps;
    }
  }

  /** It passes CheckBlock when its header, its coinbase and the transactions of the pool do. */
  lemma {:induction false} MinedBlockOk(env: Miner.Setting, b: Block, vtx: seq<Transaction>)
    requires |b.vtx| == |vtx| + 1 && b.vtx[1..] == vtx && MayBeMined(env, b.vtx[0]) && b.fHeaderOk
    requires Miner.Assembled(env, vtx) && (vtx != [] ==> Miner.SigOps(env, vtx, |vtx|) < MAX_BLOCK_SIGOPS)
    requires TransactionOk(b.vtx[0]) && b.vtx[0].nTime <= b.nTime && env.nTimeLimit <= b.nTime
    requires forall h :: h in env.s.mempool ==> TransactionOk(env.s.mempool[h])
    ensures BlockOk(b)
  {
    hide TransactionOk;
    assert forall i :: 1 <= i < |b.vtx| ==> b.vtx[i] == vtx[i - 1];
    forall i | 0 <= i < |vtx|
      ensures !vtx[i].IsCoinBase() && !vtx[i].IsCoinStake() && TransactionOk(vtx[i]) && vtx[i].nTime <= b.nTime
      ensures vtx[i].hash != b.vtx[0].hash
    {
      assert Miner.PlacedWell(env, vtx, i);
    }
    LegacyBehind(b.vtx, |b.vtx|);
    LegacyWithin(env, vtx, |vtx|);
  }
}
