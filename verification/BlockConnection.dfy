/** ConnectBlock and DisconnectBlock (src/main.cpp): the loop over a block's transactions against a
    queue of index changes, exactly when it accepts, what it does to the index and to the totals. */
module BlockConnection {
  import opened Transactions
  import opened Ledger
  import opened Money
  import opened Blocks

  /** What a block is connected against besides the index. */
  datatype Env = Env(rules: ScriptRules, disk: Disk, mempool: map<Hash, Transaction>, recentBlocks: seq<(nat, nat)>,
                     fBeforeLastCheckpoint: bool, nBestHeight: int)

  function CompactSize(n: nat): nat {
    if n < 253 then 1 else if n <= 0xFFFF then 3 else if n <= 0xFFFF_FFFF then 5 else 9
  }

  /** The file offset of transaction k of a block written at nBlockPos: the header is 80 bytes. */
  function TxOffset(vtx: seq<Transaction>, nBlockPos: nat, k: nat): nat
    requires k <= |vtx|
  {
    if k == 0 then nBlockPos + 80 + CompactSize(|vtx|) else TxOffset(vtx, nBlockPos, k - 1) + vtx[k - 1].nSize
  }

  /** The first k transactions with their places. */
  function PlaceUpTo(vtx: seq<Transaction>, nFile: nat, nBlockPos: nat, k: nat): (ps: seq<Placed>)
    requires k <= |vtx|
    ensures |ps| == k
  {
    if k == 0 then []
    else
      PlaceUpTo(vtx, nFile, nBlockPos, k - 1) +
      [Placed(vtx[k - 1], At(nFile, nBlockPos, TxOffset(vtx, nBlockPos, k - 1)))]
  }

  lemma {:induction false} PlacedAt(vtx: seq<Transaction>, nFile: nat, nBlockPos: nat, k: nat, i: nat)
    requires i < k <= |vtx|
    ensures PlaceUpTo(vtx, nFile, nBlockPos, k)[i] == Placed(vtx[i], At(nFile, nBlockPos, TxOffset(vtx, nBlockPos, i)))
  {
    hide TxOffset;
    if i < k - 1 { PlacedAt(vtx, nFile, nBlockPos, k - 1, i); }
  }

  function Place(vtx: seq<Transaction>, nFile: nat, nBlockPos: nat): (ps: seq<Placed>)
    ensures |ps| == |vtx|
    ensures forall k :: 0 <= k < |vtx| ==> ps[k] == Placed(vtx[k], At(nFile, nBlockPos, TxOffset(vtx, nBlockPos, k)))
  {
    assert forall k :: 0 <= k < |vtx| ==>
        PlaceUpTo(vtx, nFile, nBlockPos, |vtx|)[k] ==
          Placed(vtx[k], At(nFile, nBlockPos, TxOffset(vtx, nBlockPos, k))) by {
      hide TxOffset;
      forall k | 0 <= k < |vtx|
        ensures PlaceUpTo(vtx, nFile, nBlockPos, |vtx|)[k] ==
          Placed(vtx[k], At(nFile, nBlockPos, TxOffset(vtx, nBlockPos, k)))
      {
        PlacedAt(vtx, nFile, nBlockPos, |vtx|, k);
      }
    }
    PlaceUpTo(vtx, nFile, nBlockPos, |vtx|)
  }

  // ------------------------------------------------------------------------------------------
  // One transaction
  // ------------------------------------------------------------------------------------------

  /** The previous transaction h as the index v, the files and the pool give it. */
  function PrevIn(v: Index, env: Env, h: Hash): Option<(TxIndex, Transaction)> {
    Resolve(Sources(v, env.disk, env.mempool), map[], true, h)
  }

  /** All previous transactions of tx that can be found. */
  function PrevOf(v: Index, env: Env, tx: Transaction): PrevTxs {
    map h | h in (set i | 0 <= i < |tx.vin| :: tx.vin[i].prevout.hash) &&
      PrevIn(v, env, h).Some? :: PrevIn(v, env, h).value
  }

  lemma {:induction false} ResolveIsPrevIn(db: Index, queued: Index, env: Env, h: Hash)
    ensures Resolve(Sources(db, env.disk, env.mempool), queued, true, h) == PrevIn(db + queued, env, h)
    ensures PrevIn(db + queued, env, h).Some? ==>
      h in db + queued && (db + queued)[h] == PrevIn(db + queued, env, h).value.0
  {
  }

  lemma {:induction false} FetchedIsPrevOf(db: Index, queued: Index, env: Env, tx: Transaction, inputs: PrevTxs)
    requires InputsResolve(Sources(db, env.disk, env.mempool), queued, true, tx.vin, |tx.vin|)
    requires Fetched(Sources(db, env.disk, env.mempool), queued, true, tx.vin, |tx.vin|, inputs)
    ensures inputs == PrevOf(db + queued, env, tx)
    ensures forall h :: h in inputs ==> h in db + queued && (db + queued)[h] == inputs[h].0
  {
    hide Resolve, PrevIn;
    forall h | h in inputs
      ensures h in PrevOf(db + queued, env, tx) && h in db + queued && (db + queued)[h] == inputs[h].0
      ensures inputs[h] == PrevOf(db + queued, env, tx)[h]
    {
      assert RefersTo(tx.vin, |tx.vin|, h);
      ResolveIsPrevIn(db, queued, env, h);
    }
    forall h | h in PrevOf(db + queued, env, tx) ensures h in inputs {
      assert RefersTo(tx.vin, |tx.vin|, h);
    }
  }

  lemma {:induction false} NotResolvedNotConnectable(db: Index, queued: Index, env: Env, tx: Transaction)
    requires !tx.IsCoinBase() && !InputsResolve(Sources(db, env.disk, env.mempool), queued, true, tx.vin, |tx.vin|)
    ensures !Connectable(env.rules, tx, PrevOf(db + queued, env, tx), env.recentBlocks, env.fBeforeLastCheckpoint)
  {
    var s := Sources(db, env.disk, env.mempool);
    var i :| 0 <= i < |tx.vin| && Resolve(s, queued, true, tx.vin[i].prevout.hash).None?;
    assert PrevIn(db + queued, env, tx.vin[i].prevout.hash).None?;
    assert !InputOk(tx, tx.vin[i].prevout, PrevOf(db + queued, env, tx), env.recentBlocks);
  }

  lemma {:induction false} NotInRangeNotConnectable(env: Env, tx: Transaction, inputs: PrevTxs)
    requires !tx.IsCoinBase() && !AllInRange(tx.vin, |tx.vin|, inputs)
    ensures !Connectable(env.rules, tx, inputs, env.recentBlocks, env.fBeforeLastCheckpoint)
  {
    var i :| 0 <= i < |tx.vin| &&
      !(tx.vin[i].prevout.hash in inputs && InRange(inputs[tx.vin[i].prevout.hash], tx.vin[i].prevout.n));
    assert !InputOk(tx, tx.vin[i].prevout, inputs, env.recentBlocks);
  }

  /** What ConnectBlock demands of transaction k: it overwrites nothing that can still be spent, and
      its inputs connect against the block's own earlier transactions and the index. */
  predicate Accepts(env: Env, db: Index, ps: seq<Placed>, k: nat)
    requires k < |ps|
  {
    && FullySpent(db, ps[k].tx.hash)
    && Connectable(env.rules, ps[k].tx, PrevOf(View(db, ps, k), env, ps[k].tx), env.recentBlocks,
      env.fBeforeLastCheckpoint)
  }

  // ------------------------------------------------------------------------------------------
  // The running totals
  // ------------------------------------------------------------------------------------------

  datatype Tally = Tally(nSigOps: nat, nValueIn: int, nValueOut: int, nFees: int, nStakeReward: int)

  function AddLegacy(t: Tally, tx: Transaction): Tally { t.(nSigOps := t.nSigOps + tx.nSigOps) }

  function AddValues(t: Tally, rules: ScriptRules, tx: Transaction, inputs: PrevTxs): Tally {
    if tx.IsCoinBase() then t.(nValueOut := t.nValueOut + tx.GetValueOut())
    else
      var nIn, nOut := GetValueIn(tx, inputs), tx.GetValueOut();
      Tally(t.nSigOps + rules.p2shSigOps(tx, inputs), t.nValueIn + nIn, t.nValueOut + nOut,
            if tx.IsCoinStake() then t.nFees else t.nFees + nIn - nOut,
            if tx.IsCoinStake() then nOut - nIn else t.nStakeReward)
  }

  function TallyAt(env: Env, db: Index, ps: seq<Placed>, k: nat): Tally
    requires k <= |ps|
  {
    if k == 0 then Tally(0, 0, 0, 0, 0)
    else AddValues(AddLegacy(TallyAt(env, db, ps, k - 1), ps[k - 1].tx), env.rules, ps[k - 1].tx,
                   PrevOf(View(db, ps, k - 1), env, ps[k - 1].tx))
  }

  method OverwritesUnspent(db: Index, h: Hash) returns (yes: bool)
    ensures yes <==> !FullySpent(db, h)
  {
    if h in db {
      for n := 0 to |db[h].vSpent|
        invariant forall m :: 0 <= m < n ==> db[h].vSpent[m] != Null
      {
        if db[h].vSpent[n] == Null { return true; }
      }
    }
    yes := false;
  }

  /** Fetching in block mode, seen from the view db + queued: it fails only for a transaction that
      could not be connected anyway. */
  method FetchPrev(env: Env, db: Index, queued: Index, tx: Transaction) returns (ok: bool, inputs: PrevTxs)
    requires !tx.IsCoinBase()
    ensures ok ==> inputs == PrevOf(db + queued, env, tx)
    ensures ok ==> forall i :: 0 <= i < |tx.vin| ==> tx.vin[i].prevout.hash in inputs
    ensures ok ==> forall h :: h in inputs ==> h in db + queued && (db + queued)[h] == inputs[h].0
    ensures !ok ==> !Connectable(env.rules, tx, PrevOf(db + queued, env, tx), env.recentBlocks,
      env.fBeforeLastCheckpoint)
  {
    var fInvalid;
    ok, inputs, fInvalid := FetchInputs(Sources(db, env.disk, env.mempool), tx, queued, true, false);
    if !InputsResolve(Sources(db, env.disk, env.mempool), queued, true, tx.vin, |tx.vin|) {
      NotResolvedNotConnectable(db, queued, env, tx);
      return;
    }
    FetchedIsPrevOf(db, queued, env, tx, inputs);
    if !ok { NotInRangeNotConnectable(env, tx, inputs); }
  }

  /** The totals and the connection of a transaction whose inputs are fetched. */
  method ConnectFetched(env: Env, db: Index, p: Placed, inputs: PrevTxs, queued0: Index, t0: Tally)
    returns (ok: bool, queued: Index, t: Tally)
    requires !p.tx.IsCoinBase() && p.pos.At?
    requires forall i :: 0 <= i < |p.tx.vin| ==> p.tx.vin[i].prevout.hash in inputs
    requires forall h :: h in inputs ==> h in db + queued0 && (db + queued0)[h] == inputs[h].0
    ensures ok <==>
      && Connectable(env.rules, p.tx, inputs, env.recentBlocks, env.fBeforeLastCheckpoint)
      && AddValues(t0, env.rules, p.tx, inputs).nSigOps <= MAX_BLOCK_SIGOPS
    ensures ok ==> db + queued == MarkAll(db + queued0, p.tx.vin, |p.tx.vin|, p.pos)
    ensures ok ==> t == AddValues(t0, env.rules, p.tx, inputs)
  {
    queued, t := queued0, t0;
    var tx := p.tx;
    t := t.(nSigOps := t.nSigOps + env.rules.p2shSigOps(tx, inputs));
    if t.nSigOps > MAX_BLOCK_SIGOPS { return false, queued, t; }
    var nTxValueIn, nTxValueOut := GetValueIn(tx, inputs), tx.GetValueOut();
    t := t.(nValueIn := t.nValueIn + nTxValueIn, nValueOut := t.nValueOut + nTxValueOut);
    if !tx.IsCoinStake() { t := t.(nFees := t.nFees + nTxValueIn - nTxValueOut); }
    if tx.IsCoinStake() { t := t.(nStakeReward := nTxValueOut - nTxValueIn); }
    ok, queued := ConnectInputs(env.rules, tx, inputs, queued, db, p.pos, env.recentBlocks, true, false,
                                env.fBeforeLastCheckpoint);
  }

  /** The part of the loop for a transaction that spends. */
  method ConnectSpendingTx(env: Env, db: Index, ghost view: Index, p: Placed, queued0: Index, t0: Tally)
    returns (ok: bool, queued: Index, t: Tally)
    requires !p.tx.IsCoinBase() && p.pos.At? && view == db + queued0
    ensures ok <==>
      && Connectable(env.rules, p.tx, PrevOf(view, env, p.tx), env.recentBlocks, env.fBeforeLastCheckpoint)
      && AddValues(t0, env.rules, p.tx, PrevOf(view, env, p.tx)).nSigOps <= MAX_BLOCK_SIGOPS
    ensures ok ==> db + queued == MarkAll(view, p.tx.vin, |p.tx.vin|, p.pos)
    ensures ok ==> t == AddValues(t0, env.rules, p.tx, PrevOf(view, env, p.tx))
  {
    queued, t := queued0, t0;
    var inputs;
    ok, inputs := FetchPrev(env, db, queued, p.tx);
    if ok { ok, queued, t := ConnectFetched(env, db, p, inputs, queued0, t0); }
  }

  lemma {:induction false} PutOver(db: Index, queued: Index, h: Hash, e: TxIndex)
    ensures db + queued[h := e] == (db + queued)[h := e]
  {
  }

  /** One pass of the loop of ConnectBlock.  view is the index seen through the queue. */
  method ConnectTx(env: Env, db: Index, ghost view: Index, p: Placed, queued0: Index, t0: Tally)
    returns (ok: bool, queued: Index, t: Tally)
    requires p.pos.At? && view == db + queued0
    ensures ok <==>
      && FullySpent(db, p.tx.hash)
      && Connectable(env.rules, p.tx, PrevOf(view, env, p.tx), env.recentBlocks, env.fBeforeLastCheckpoint)
      && AddValues(AddLegacy(t0, p.tx), env.rules, p.tx, PrevOf(view, env, p.tx)).nSigOps <= MAX_BLOCK_SIGOPS
    ensures ok ==> db + queued == ApplyTx(view, p.tx, p.pos)
    ensures ok ==> t == AddValues(AddLegacy(t0, p.tx), env.rules, p.tx, PrevOf(view, env, p.tx))
  {
    queued, t := queued0, t0;
    var tx := p.tx;
    var fOverwrites := OverwritesUnspent(db, tx.hash);
    if fOverwrites { return false, queued, t; }
    t := t.(nSigOps := t.nSigOps + tx.nSigOps);
    if t.nSigOps > MAX_BLOCK_SIGOPS { return false, queued, t; }
    if tx.IsCoinBase() {
      t := t.(nValueOut := t.nValueOut + tx.GetValueOut());
    } else {
      ok, queued, t := ConnectSpendingTx(env, db, view, p, queued0, t);
      if !ok { return; }
    }
    PutOver(db, queued, tx.hash, TxIndex(p.pos, Nulls(|tx.vout|)));
    queued := queued[tx.hash := TxIndex(p.pos, Nulls(|tx.vout|))];
    ok := true;
  }

  /** The loop of ConnectBlock over the transactions of a block, which ps places on disk. */
  method ConnectTransactions(env: Env, db: Index, vtx: seq<Transaction>, nFile: nat, nBlockPos: nat,
                             ghost ps: seq<Placed>)
    returns (ok: bool, queued: Index, t: Tally)
    requires |ps| == |vtx|
    requires forall k :: 0 <= k < |vtx| ==> ps[k] == Placed(vtx[k], At(nFile, nBlockPos, TxOffset(vtx, nBlockPos, k)))
    ensures ok <==> AllAccepted(env, db, ps, |ps|)
    ensures ok ==> db + queued == View(db, ps, |ps|)
    ensures ok ==> t == TallyAt(env, db, ps, |ps|)
  {
    hide AcceptedAt;
    queued, t := map[], Tally(0, 0, 0, 0, 0);
    assert db + queued == db;
    var nTxPos := nBlockPos + 80 + CompactSize(|vtx|);
    for k := 0 to |vtx|
      invariant nTxPos == TxOffset(vtx, nBlockPos, k)
      invariant AllAccepted(env, db, ps, k)
      invariant db + queued == View(db, ps, k)
      invariant t == TallyAt(env, db, ps, k)
    {
      assert ps[k] == Placed(vtx[k], At(nFile, nBlockPos, nTxPos));
      ok, queued, t := ConnectNext(env, db, ps, k, Placed(vtx[k], At(nFile, nBlockPos, nTxPos)), queued, t);
      if !ok {
        NotAllAccepted(env, db, ps, k);
        return;
      }
      nTxPos := nTxPos + vtx[k].nSize;
    }
    ok := true;
  }

  /** Transaction k is accepted and keeps the block within the signature-operation limit. */
  predicate AcceptedAt(env: Env, db: Index, ps: seq<Placed>, k: nat)
    requires k < |ps|
  {
    Accepts(env, db, ps, k) && TallyAt(env, db, ps, k + 1).nSigOps <= MAX_BLOCK_SIGOPS
  }

  predicate AllAccepted(env: Env, db: Index, ps: seq<Placed>, n: nat)
    requires n <= |ps|
  {
    n == 0 || (AllAccepted(env, db, ps, n - 1) && AcceptedAt(env, db, ps, n - 1))
  }

  lemma {:induction false} AcceptedEach(env: Env, db: Index, ps: seq<Placed>, n: nat, k: nat)
    requires k < n <= |ps| && AllAccepted(env, db, ps, n)
    ensures AcceptedAt(env, db, ps, k)
  {
    hide AcceptedAt;
    if k < n - 1 { AcceptedEach(env, db, ps, n - 1, k); }
  }

  lemma {:induction false} NotAllAccepted(env: Env, db: Index, ps: seq<Placed>, k: nat)
    requires k < |ps| && !AcceptedAt(env, db, ps, k)
    ensures !AllAccepted(env, db, ps, |ps|)
  {
    if AllAccepted(env, db, ps, |ps|) { AcceptedEach(env, db, ps, |ps|, k); }
  }

  lemma {:induction false} AcceptedStep(env: Env, db: Index, ps: seq<Placed>, k: nat, t: Tally, view: Index)
    requires k < |ps| && t == TallyAt(env, db, ps, k) && view == View(db, ps, k)
    ensures View(db, ps, k + 1) == ApplyTx(view, ps[k].tx, ps[k].pos)
    ensures TallyAt(env, db, ps, k + 1) ==
      AddValues(AddLegacy(t, ps[k].tx), env.rules, ps[k].tx, PrevOf(view, env, ps[k].tx))
    ensures AcceptedAt(env, db, ps, k) <==>
      && FullySpent(db, ps[k].tx.hash)
      && Connectable(env.rules, ps[k].tx, PrevOf(view, env, ps[k].tx), env.recentBlocks, env.fBeforeLastCheckpoint)
      && AddValues(AddLegacy(t, ps[k].tx), env.rules, ps[k].tx, PrevOf(view, env, ps[k].tx)).nSigOps <= MAX_BLOCK_SIGOPS
  {
  }

  /** One pass of the loop, in terms of the block. */
  method ConnectNext(env: Env, db: Index, ghost ps: seq<Placed>, ghost k: nat, p: Placed, queued0: Index, t0: Tally)
    returns (ok: bool, queued: Index, t: Tally)
    requires k < |ps| && ps[k] == p && p.pos.At?
    requires db + queued0 == View(db, ps, k) && t0 == TallyAt(env, db, ps, k)
    ensures ok <==> AcceptedAt(env, db, ps, k)
    ensures ok ==> db + queued == View(db, ps, k + 1) && t == TallyAt(env, db, ps, k + 1)
  {
    ghost var view := View(db, ps, k);
    AcceptedStep(env, db, ps, k, t0, view);
    ok, queued, t := ConnectTx(env, db, view, p, queued0, t0);
  }

  // ------------------------------------------------------------------------------------------
  // The block
  // ------------------------------------------------------------------------------------------

  predicate RewardOk(env: Env, db: Index, b: Block, t: Tally)
    requires |b.vtx| > 0
  {
    if b.IsProofOfStake() then
      CoinAge(db, env.disk, b.vtx[1]).Some? &&
      t.nStakeReward <= GetProofOfStakeReward(CoinAge(db, env.disk, b.vtx[1]).value, t.nFees)
    else
      b.vtx[0].GetValueOut() <= GetProofOfWorkReward(t.nFees, env.nBestHeight)
  }

  /** Exactly what ConnectBlock accepts. */
  predicate BlockConnects(env: Env, db: Index, b: Block, nFile: nat, nBlockPos: nat) {
    && BlockOk(b)
    && AllAccepted(env, db, Place(b.vtx, nFile, nBlockPos), |b.vtx|)
    && RewardOk(env, db, b, TallyAt(env, db, Place(b.vtx, nFile, nBlockPos), |b.vtx|))
  }

  /** ConnectBlock up to the writes: what to put in the index, and the totals. */
  method ConnectBlock(env: Env, db: Index, b: Block, nFile: nat, nBlockPos: nat)
    returns (ok: bool, db': Index, t: Tally)
    ensures ok <==> BlockConnects(env, db, b, nFile, nBlockPos)
    ensures ok ==> db' == View(db, Place(b.vtx, nFile, nBlockPos), |b.vtx|)
    ensures ok ==> t == TallyAt(env, db, Place(b.vtx, nFile, nBlockPos), |b.vtx|)
  {
    hide AllAccepted;
    db', t := db, Tally(0, 0, 0, 0, 0);
    ok := CheckBlock(b);
    if !ok { return; }
    var queued;
    ok, queued, t := ConnectTransactions(env, db, b.vtx, nFile, nBlockPos, Place(b.vtx, nFile, nBlockPos));
    if !ok { return; }
    ok := CheckReward(env, db, b, t);
    if ok { db' := db + queued; }
  }

  method CheckReward(env: Env, db: Index, b: Block, t: Tally) returns (ok: bool)
    requires |b.vtx| > 0
    ensures ok <==> RewardOk(env, db, b, t)
  {
    if b.IsProofOfWork() {
      if b.vtx[0].GetValueOut() > GetProofOfWorkReward(t.nFees, env.nBestHeight) { return false; }
    }
    if b.IsProofOfStake() {
      var nCoinAge := GetCoinAge(db, env.disk, b.vtx[1]);
      if nCoinAge.None? { return false; }
      if t.nStakeReward > GetProofOfStakeReward(nCoinAge.value, t.nFees) { return false; }
    }
    ok := true;
  }

  /** DisconnectBlock: the transactions are taken back last to first. */
  method DisconnectBlock(db0: Index, vtx: seq<Transaction>, ghost ps: seq<Placed>) returns (ok: bool, db: Index)
    requires |ps| == |vtx| && forall k :: 0 <= k < |vtx| ==> ps[k].tx == vtx[k]
    ensures ok <==> Undo(db0, ps, 0).Some?
    ensures ok ==> Undo(db0, ps, 0) == Some(db)
  {
    db := db0;
    for k := |vtx| downto 0
      invariant Undo(db0, ps, k) == Some(db)
    {
      ghost var db1 := db;
      ok, db := DisconnectInputs(db, vtx[k]);
      if !ok {
        UndoFails(db0, ps, k);
        return;
      }
    }
    ok := true;
  }

  lemma {:induction false} UndoFails(db0: Index, ps: seq<Placed>, k: nat)
    requires k <= |ps| && Undo(db0, ps, k) == None
    ensures Undo(db0, ps, 0) == None
  {
    if k > 0 { UndoFails(db0, ps, k - 1); }
  }

  // ------------------------------------------------------------------------------------------
  // What acceptance means
  // ------------------------------------------------------------------------------------------

  lemma {:induction false} PrevInEntry(v: Index, env: Env, h: Hash)
    ensures PrevIn(v, env, h).Some? ==> h in v && PrevIn(v, env, h).value.0 == v[h]
  {
  }

  lemma {:induction false} UnspentInPrev(v: Index, env: Env, tx: Transaction, o: OutPoint)
    requires Unspent(EntriesOf(PrevOf(v, env, tx)), o)
    ensures Unspent(v, o)
  {
    hide PrevIn;
    PrevInEntry(v, env, o.hash);
  }

  lemma {:induction false} ConnectableTakes(v: Index, env: Env, tx: Transaction)
    requires !tx.IsCoinBase()
    requires Connectable(env.rules, tx, PrevOf(v, env, tx), env.recentBlocks, env.fBeforeLastCheckpoint)
    ensures Spendable(v, tx.vin, |tx.vin|)
  {
    hide PrevOf, InputsOk;
    forall i | 0 <= i < |tx.vin| ensures Unspent(v, tx.vin[i].prevout) {
      UnspentInPrev(v, env, tx, tx.vin[i].prevout);
    }
  }

  /** An accepted block spends only unspent outputs and overwrites only fully spent ids, so it can
      be disconnected again (Ledger.DisconnectUndoesConnect). */
  lemma {:induction false} AcceptedIsSound(env: Env, db: Index, b: Block, nFile: nat, nBlockPos: nat)
    requires BlockConnects(env, db, b, nFile, nBlockPos)
    ensures Sound(db, Place(b.vtx, nFile, nBlockPos))
  {
    hide AllAccepted;
    var ps := Place(b.vtx, nFile, nBlockPos);
    forall k | 0 <= k < |ps| ensures Takes(db, ps, k) && FullySpent(db, ps[k].tx.hash) {
      AcceptedEach(env, db, ps, |ps|, k);
      if !ps[k].tx.IsCoinBase() { ConnectableTakes(View(db, ps, k), env, ps[k].tx); }
    }
    forall i, j | 0 <= i < j < |ps| ensures ps[i].tx.hash != ps[j].tx.hash {
      assert ps[i].tx == b.vtx[i] && ps[j].tx == b.vtx[j];
    }
  }
}
