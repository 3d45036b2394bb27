/** Checking and connecting one block: CheckBlock, ConnectBlock, DisconnectBlock, the rewards and the
    coin age (src/main.cpp). */
module Blocks {
  import Basics
  import opened Transactions
  import opened Ledger
  import opened Money

  /** fHeaderOk stands for the checks of CheckBlock that look at the header, the clock, the block
      signature, the Merkle root and the serialized size. */
  datatype Block = Block(hash: Hash, hashPrev: Hash, nTime: nat, vtx: seq<Transaction>, fHeaderOk: bool) {
    predicate IsProofOfStake() { |vtx| > 1 && vtx[1].IsCoinStake() }
    predicate IsProofOfWork() { !IsProofOfStake() }
  }

  // ------------------------------------------------------------------------------------------
  // CheckTransaction and CheckBlock
  // ------------------------------------------------------------------------------------------

  predicate OutputsOk(tx: Transaction, k: nat)
    requires k <= |tx.vout|
  {
    && (forall i :: 0 <= i < k ==>
          && MoneyRange(tx.vout[i].nValue)
          && !(tx.vout[i].IsEmpty() && !tx.IsCoinBase() && !tx.IsCoinStake()))
    && MoneyRange(SumOut(tx.vout, k))
  }

  predicate TransactionOk(tx: Transaction) {
    && |tx.vin| > 0
    && |tx.vout| > 0
    && tx.nSize <= MAX_BLOCK_SIZE
    && OutputsOk(tx, |tx.vout|)
    && DistinctInputs(tx.vin, |tx.vin|)
    && (if tx.IsCoinBase() then 2 <= |tx.vin[0].scriptSig| <= 100
        else forall i :: 0 <= i < |tx.vin| ==> !tx.vin[i].prevout.IsNull())
  }

  lemma {:induction false} SumOutMonotone(tx: Transaction, k: nat, n: nat)
    requires k <= n <= |tx.vout| && forall i :: 0 <= i < n ==> MoneyRange(tx.vout[i].nValue)
    ensures 0 <= SumOut(tx.vout, k) <= SumOut(tx.vout, n)
  {
    if 0 < n { SumOutMonotone(tx, if k < n then k else n - 1, n - 1); }
  }

  method CheckOutputs(tx: Transaction) returns (ok: bool)
    ensures ok <==> OutputsOk(tx, |tx.vout|)
  {
    var nValueOut := 0;
    for i := 0 to |tx.vout|
      invariant OutputsOk(tx, i) && nValueOut == SumOut(tx.vout, i)
    {
      var txout := tx.vout[i];
      if txout.IsEmpty() && !tx.IsCoinBase() && !tx.IsCoinStake() { return false; }
      if txout.nValue < 0 { return false; }
      if txout.nValue > MAX_MONEY { return false; }
      nValueOut := nValueOut + txout.nValue;
      if !MoneyRange(nValueOut) {
        if OutputsOk(tx, |tx.vout|) { SumOutMonotone(tx, i + 1, |tx.vout|); }
        return false;
      }
    }
    ok := true;
  }

  method CheckTransaction(tx: Transaction) returns (ok: bool)
    ensures ok <==> TransactionOk(tx)
  {
    if tx.vin == [] { return false; }
    if tx.vout == [] { return false; }
    if tx.nSize > MAX_BLOCK_SIZE { return false; }
    ok := CheckOutputs(tx);
    if !ok { return; }
    var vInOutPoints: set<OutPoint> := {};
    for i := 0 to |tx.vin|
      invariant DistinctInputs(tx.vin, i)
      invariant vInOutPoints == set j | 0 <= j < i :: tx.vin[j].prevout
    {
      if tx.vin[i].prevout in vInOutPoints { return false; }
      vInOutPoints := vInOutPoints + {tx.vin[i].prevout};
    }
    if tx.IsCoinBase() {
      return 2 <= |tx.vin[0].scriptSig| <= 100;
    }
    for i := 0 to |tx.vin|
      invariant forall j :: 0 <= j < i ==> !tx.vin[j].prevout.IsNull()
    {
      if tx.vin[i].prevout.IsNull() { return false; }
    }
  }

  function LegacySigOps(vtx: seq<Transaction>, k: nat): nat
    requires k <= |vtx|
  {
    if k == 0 then 0 else LegacySigOps(vtx, k - 1) + vtx[k - 1].nSigOps
  }

  predicate DistinctTxids(vtx: seq<Transaction>, k: nat)
    requires k <= |vtx|
  {
    forall i, j :: 0 <= i < j < k ==> vtx[i].hash != vtx[j].hash
  }

  predicate StakeShapeOk(b: Block)
    requires b.IsProofOfStake()
  {
    && |b.vtx[0].vout| == 1 && b.vtx[0].vout[0].IsEmpty()
    && b.vtx[1].IsCoinStake()
    && (forall i :: 2 <= i < |b.vtx| ==> !b.vtx[i].IsCoinStake())
    && b.nTime == b.vtx[1].nTime
  }

  predicate BlockOk(b: Block) {
    && b.fHeaderOk
    && |b.vtx| > 0
    && b.vtx[0].IsCoinBase()
    && (forall i :: 1 <= i < |b.vtx| ==> !b.vtx[i].IsCoinBase())
    && (b.IsProofOfStake() ==> StakeShapeOk(b))
    && (forall i :: 0 <= i < |b.vtx| ==> TransactionOk(b.vtx[i]) && b.vtx[i].nTime <= b.nTime)
    && DistinctTxids(b.vtx, |b.vtx|)
    && LegacySigOps(b.vtx, |b.vtx|) <= MAX_BLOCK_SIGOPS
  }

  /** In a block that passes, the first transaction alone spends nothing, and the block is proof of stake
      exactly when the second one marks its first output empty. */
  lemma {:induction false} KindsInBlock(b: Block)
    requires BlockOk(b)
    ensures forall i :: 0 <= i < |b.vtx| ==>
      (i == 0 <==> (|b.vtx[i].vin| == 1 && b.vtx[i].vin[0].prevout == OutPoint(0, 0xFFFF_FFFF)))
    ensures b.IsProofOfStake() <==>
      && |b.vtx| > 1 && |b.vtx[1].vout| >= 2
      && b.vtx[1].vout[0].nValue == 0 && b.vtx[1].vout[0].scriptPubKey == []
  {
    hide DistinctTxids, LegacySigOps, OutputsOk, DistinctInputs;
    if |b.vtx| > 1 { assert TransactionOk(b.vtx[1]); }
  }

  /** The ids are collected in a set; as many ids as transactions means no id is repeated. */
  method CheckDistinctTxids(vtx: seq<Transaction>) returns (ok: bool)
    ensures ok <==> DistinctTxids(vtx, |vtx|)
  {
    var uniqueTx: set<Hash> := {};
    for i := 0 to |vtx|
      invariant uniqueTx == set j | 0 <= j < i :: vtx[j].hash
      invariant |uniqueTx| <= i
      invariant |uniqueTx| == i <==> DistinctTxids(vtx, i)
    {
      if vtx[i].hash in uniqueTx { assert !DistinctTxids(vtx, i + 1); }
      uniqueTx := uniqueTx + {vtx[i].hash};
    }
    ok := |uniqueTx| == |vtx|;
  }

  method CheckStakeShape(b: Block) returns (ok: bool)
    requires b.IsProofOfStake()
    ensures ok <==> StakeShapeOk(b)
  {
    if |b.vtx[0].vout| != 1 || !b.vtx[0].vout[0].IsEmpty() { return false; }
    if !b.vtx[1].IsCoinStake() { return false; }
    for i := 2 to |b.vtx|
      invariant forall j :: 2 <= j < i ==> !b.vtx[j].IsCoinStake()
    {
      if b.vtx[i].IsCoinStake() { return false; }
    }
    ok := b.nTime == b.vtx[1].nTime;
  }

  method CheckBlock(b: Block) returns (ok: bool)
    ensures ok <==> BlockOk(b)
  {
    if b.vtx == [] || !b.fHeaderOk { return false; }
    if !b.vtx[0].IsCoinBase() { return false; }
    for i := 1 to |b.vtx|
      invariant forall j :: 1 <= j < i ==> !b.vtx[j].IsCoinBase()
    {
      if b.vtx[i].IsCoinBase() { return false; }
    }
    if b.IsProofOfStake() {
      ok := CheckStakeShape(b);
      if !ok { return; }
    }
    ok := CheckTransactions(b);
    if !ok { return; }
    ok := CheckDistinctTxids(b.vtx);
    if !ok { return; }
    var nSigOps := 0;
    for i := 0 to |b.vtx|
      invariant nSigOps == LegacySigOps(b.vtx, i)
    {
      nSigOps := nSigOps + b.vtx[i].nSigOps;
    }
    ok := nSigOps <= MAX_BLOCK_SIGOPS;
  }

  method CheckTransactions(b: Block) returns (ok: bool)
    ensures ok <==> forall i :: 0 <= i < |b.vtx| ==> TransactionOk(b.vtx[i]) && b.vtx[i].nTime <= b.nTime
  {
    for i := 0 to |b.vtx|
      invariant forall j :: 0 <= j < i ==> TransactionOk(b.vtx[j]) && b.vtx[j].nTime <= b.nTime
    {
      ok := CheckTransaction(b.vtx[i]);
      if !ok { return; }
      if b.nTime < b.vtx[i].nTime { return false; }
    }
    ok := true;
  }

  // ------------------------------------------------------------------------------------------
  // Rewards
  // ------------------------------------------------------------------------------------------

  const COIN_YEAR_REWARD: int := 3_650_000

  function WorkSubsidy(nHeight: int): int { if nHeight == 1 then 10_000_000 * COIN else 0 }

  function GetProofOfWorkReward(nFees: int, nHeight: int): int { WorkSubsidy(nHeight) + nFees }

  function StakeSubsidy(nCoinAge: int): int { nCoinAge * COIN_YEAR_REWARD * 33 / (365 * 33 + 8) }

  /** The subsidies in numbers: ten million coins at height 1, and for a stake 3.65 percent of a coin for
      each coin and year of age, by a calendar of 365 days and 8/33. */
  lemma {:induction false} SubsidiesAre(nHeight: int, nCoinAge: int)
    ensures WorkSubsidy(nHeight) == if nHeight == 1 then 1_000_000_000_000_000 else 0
    ensures var r := StakeSubsidy(nCoinAge); 12_053 * r <= 120_450_000 * nCoinAge < 12_053 * (r + 1)
  {
  }

  function GetProofOfStakeReward(nCoinAge: int, nFees: int): int { StakeSubsidy(nCoinAge) + nFees }

  /** What reading the previous transaction of an input from the database gives. */
  function ReadPrev(db: Index, disk: Disk, o: OutPoint): Option<Transaction> {
    if o.hash in db && db[o.hash].pos in disk && o.n < |disk[db[o.hash].pos].vout| then Some(disk[db[o.hash].pos])
      else None
  }

  /** Coin age of the first k inputs in cent-seconds; None when an input is younger than its source.
      Inputs the database does not know are passed over. */
  function CentSeconds(db: Index, disk: Disk, tx: Transaction, k: nat): Option<int>
    requires k <= |tx.vin|
  {
    if k == 0 then Some(0)
    else
      match CentSeconds(db, disk, tx, k - 1)
      case None => None
      case Some(n) =>
        var o := tx.vin[k - 1].prevout;
        match ReadPrev(db, disk, o)
        case None => Some(n)
        case Some(txPrev) =>
          if tx.nTime < txPrev.nTime then None
          else if o.n < |txPrev.vout| then Some(n + txPrev.vout[o.n].nValue * (tx.nTime - txPrev.nTime) / CENT)
          else None
  }

  function CoinAge(db: Index, disk: Disk, tx: Transaction): Option<int> {
    if tx.IsCoinBase() then Some(0)
    else
      match CentSeconds(db, disk, tx, |tx.vin|)
      case None => None
      case Some(n) => Some(n * CENT / COIN / (24 * 60 * 60))
  }

  /** Input i is known to the database and younger than what it spends. */
  predicate TooYoung(db: Index, disk: Disk, tx: Transaction, i: nat)
    requires i < |tx.vin|
  {
    var prev := ReadPrev(db, disk, tx.vin[i].prevout);
    prev.Some? && tx.nTime < prev.value.nTime
  }

  lemma {:induction false} CentSecondsExist(db: Index, disk: Disk, tx: Transaction, k: nat)
    requires k <= |tx.vin|
    ensures CentSeconds(db, disk, tx, k).None? <==> exists i :: 0 <= i < k && TooYoung(db, disk, tx, i)
  {
    if k > 0 {
      CentSecondsExist(db, disk, tx, k - 1);
      assert CentSeconds(db, disk, tx, k).None? <==>
        CentSeconds(db, disk, tx, k - 1).None? || TooYoung(db, disk, tx, k - 1);
    }
  }

  /** What input i adds: the value it spends times its age in seconds, in hundredths of a coin; nothing
      when it cannot be read. */
  ghost function AgeOf(db: Index, disk: Disk, tx: Transaction, i: nat): int
    requires i < |tx.vin|
  {
    var o := tx.vin[i].prevout;
    if o.hash in db && db[o.hash].pos in disk && o.n < |disk[db[o.hash].pos].vout| then
      var txPrev := disk[db[o.hash].pos];
      txPrev.vout[o.n].nValue * (tx.nTime - txPrev.nTime) / 1_000_000
    else 0
  }

  ghost function Ages(db: Index, disk: Disk, tx: Transaction, k: nat): (s: seq<int>)
    requires k <= |tx.vin|
    ensures |s| == k && forall i :: 0 <= i < k ==> s[i] == AgeOf(db, disk, tx, i)
  {
    seq(k, i requires 0 <= i < k => AgeOf(db, disk, tx, i))
  }

  lemma {:induction false} CentSecondsAre(db: Index, disk: Disk, tx: Transaction, k: nat)
    requires k <= |tx.vin| && CentSeconds(db, disk, tx, k).Some?
    ensures CentSeconds(db, disk, tx, k).value == Basics.Sum(Ages(db, disk, tx, k))
  {
    if k > 0 {
      CentSecondsAre(db, disk, tx, k - 1);
      assert Ages(db, disk, tx, k)[..k - 1] == Ages(db, disk, tx, k - 1);
    }
  }

  method GetCoinAge(db: Index, disk: Disk, tx: Transaction) returns (r: Option<int>)
    ensures r == CoinAge(db, disk, tx)
    ensures r.Some? && !tx.IsCoinBase() ==>
      r.value == Basics.Sum(Ages(db, disk, tx, |tx.vin|)) * 1_000_000 / 100_000_000 / 86_400
    ensures r.None? <==> !tx.IsCoinBase() && exists i :: 0 <= i < |tx.vin| && TooYoung(db, disk, tx, i)
  {
    if tx.IsCoinBase() { return Some(0); }
    CentSecondsExist(db, disk, tx, |tx.vin|);
    var bnCentSecond := 0;
    for i := 0 to |tx.vin|
      invariant CentSeconds(db, disk, tx, i) == Some(bnCentSecond)
    {
      var o := tx.vin[i].prevout;
      if o.hash in db && db[o.hash].pos in disk && o.n < |disk[db[o.hash].pos].vout| {
        var txPrev := disk[db[o.hash].pos];
        if tx.nTime < txPrev.nTime {
          CentSecondsFail(db, disk, tx, i + 1, |tx.vin|);
          return None;
        }
        bnCentSecond := bnCentSecond + txPrev.vout[o.n].nValue * (tx.nTime - txPrev.nTime) / CENT;
      }
    }
    CentSecondsAre(db, disk, tx, |tx.vin|);
    r := Some(bnCentSecond * CENT / COIN / (24 * 60 * 60));
  }

  lemma {:induction false} CentSecondsFail(db: Index, disk: Disk, tx: Transaction, k: nat, n: nat)
    requires k <= n <= |tx.vin| && CentSeconds(db, disk, tx, k) == None
    ensures CentSeconds(db, disk, tx, n) == None
    decreases n
  {
    if k < n { CentSecondsFail(db, disk, tx, k, n - 1); }
  }
}
