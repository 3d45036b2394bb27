/** Transactions, the spent-output index, and the steps that change it one transaction at a time:
    fetching the inputs, spending them and giving them back (src/main.h, src/main.cpp).

    A transaction carries its own hash, so every statement here holds for every way of hashing;
    where distinct transactions must have distinct hashes a lemma says so.  Scripts stay opaque:
    ScriptRules holds an arbitrary signature check and an arbitrary signature-operation count. */
module Transactions {
  import Basics

  type Hash = nat

  datatype Option<+T> = None | Some(value: T)

  const COIN: int := 100_000_000
  const CENT: int := 1_000_000
  const MAX_MONEY: int := 210_000_000 * COIN
  const MIN_TX_FEE: int := 10_000
  const MIN_RELAY_TX_FEE: int := MIN_TX_FEE
  const MAX_BLOCK_SIZE: nat := 1_000_000
  const MAX_BLOCK_SIZE_GEN: nat := MAX_BLOCK_SIZE / 2
  const MAX_BLOCK_SIGOPS: nat := MAX_BLOCK_SIZE / 50

  predicate MoneyRange(v: int) { 0 <= v <= MAX_MONEY }

  datatype OutPoint = OutPoint(hash: Hash, n: nat) {
    predicate IsNull() { hash == 0 && n == 0xFFFF_FFFF }
  }

  datatype TxIn = TxIn(prevout: OutPoint, scriptSig: seq<nat>)

  datatype TxOut = TxOut(nValue: int, scriptPubKey: seq<nat>) {
    predicate IsEmpty() { nValue == 0 && scriptPubKey == [] }
  }

  type Size = n: nat | n > 0 witness 1

  /** nSize is the serialized size and nSigOps the legacy signature-operation count. */
  datatype Transaction = Transaction(hash: Hash, nTime: nat, vin: seq<TxIn>, vout: seq<TxOut>, nSize: Size,
                                     nSigOps: nat)
  {
    predicate IsCoinBase() { |vin| == 1 && vin[0].prevout.IsNull() && |vout| >= 1 }

    predicate IsCoinStake() {
      |vin| > 0 && !vin[0].prevout.IsNull() && |vout| >= 2 && vout[0].IsEmpty()
    }

    function GetValueOut(): int { SumOut(vout, |vout|) }
  }

  /** The value of the first k outputs. */
  function SumOut(vout: seq<TxOut>, k: nat): int
    requires k <= |vout|
  {
    if k == 0 then 0 else SumOut(vout, k - 1) + vout[k - 1].nValue
  }

  /** Where a transaction is on disk; Null is the default value the index uses for "not spent". */
  datatype DiskTxPos = Null | At(nFile: nat, nBlockPos: nat, nTxPos: nat)

  /** The position that stands for "in the memory pool". */
  const MEMPOOL_POS: DiskTxPos := At(1, 1, 1)

  datatype TxIndex = TxIndex(pos: DiskTxPos, vSpent: seq<DiskTxPos>)

  type Index = map<Hash, TxIndex>

  function Nulls(n: nat): seq<DiskTxPos> { seq(n, _ => Null) }

  type PrevTxs = map<Hash, (TxIndex, Transaction)>

  datatype ScriptRules = ScriptRules(verify: (Transaction, Transaction, nat) -> bool,
                                     p2shSigOps: (Transaction, PrevTxs) -> nat)

  /** What a lookup can reach: the index, the block files, the memory pool. */
  datatype Sources = Sources(db: Index, disk: map<DiskTxPos, Transaction>, mempool: map<Hash, Transaction>)

  datatype FeeMode = GMF_BLOCK | GMF_RELAY | GMF_SEND

  function GetMinFee(tx: Transaction, nBlockSize: nat, mode: FeeMode, nBytes: nat): int {
    var nBaseFee := if mode.GMF_RELAY? then MIN_RELAY_TX_FEE else MIN_TX_FEE;
    var nNewBlockSize := nBlockSize + nBytes;
    var nFee0 := (1 + nBytes / 1000) * nBaseFee;
    var nFee1 := if nFee0 < nBaseFee && exists o :: o in tx.vout && o.nValue < CENT then nBaseFee else nFee0;
    if nBlockSize != 1 && nNewBlockSize >= MAX_BLOCK_SIZE_GEN / 2 then
      if nNewBlockSize >= MAX_BLOCK_SIZE_GEN then MAX_MONEY
      else
        var nFee2 := nFee1 * (MAX_BLOCK_SIZE_GEN / (MAX_BLOCK_SIZE_GEN - nNewBlockSize));
        if MoneyRange(nFee2) then nFee2 else MAX_MONEY
    else if MoneyRange(nFee1) then nFee1 else MAX_MONEY
  }

  // ------------------------------------------------------------------------------------------
  // The meaning of spending: an effect on the index
  // ------------------------------------------------------------------------------------------

  /** Output o has an index entry that reaches it. */
  predicate Indexed(v: Index, o: OutPoint) { o.hash in v && o.n < |v[o.hash].vSpent| }

  /** Output o exists in the index and nothing has spent it. */
  predicate Unspent(v: Index, o: OutPoint) { Indexed(v, o) && v[o.hash].vSpent[o.n] == Null }

  /** The index after output o is given the spender mark p (Null: given back). */
  function Mark(v: Index, o: OutPoint, p: DiskTxPos): (w: Index)
    ensures w.Keys == v.Keys
  {
    if Indexed(v, o) then v[o.hash := v[o.hash].(vSpent := v[o.hash].vSpent[o.n := p])] else v
  }

  /** The index after the first k inputs are marked. */
  function MarkAll(v: Index, vin: seq<TxIn>, k: nat, p: DiskTxPos): (w: Index)
    requires k <= |vin|
    ensures w.Keys == v.Keys
  {
    if k == 0 then v else Mark(MarkAll(v, vin, k - 1, p), vin[k - 1].prevout, p)
  }

  predicate DistinctInputs(vin: seq<TxIn>, k: nat)
    requires k <= |vin|
  {
    forall i, j :: 0 <= i < j < k ==> vin[i].prevout != vin[j].prevout
  }

  predicate AllIndexed(v: Index, vin: seq<TxIn>, k: nat)
    requires k <= |vin|
  {
    forall i :: 0 <= i < k ==> Indexed(v, vin[i].prevout)
  }

  /** The first k inputs can be spent together. */
  predicate Spendable(v: Index, vin: seq<TxIn>, k: nat)
    requires k <= |vin|
  {
    DistinctInputs(vin, k) && forall i :: 0 <= i < k ==> Unspent(v, vin[i].prevout)
  }

  /** The index after transaction tx, stored at pos, is connected. */
  function ApplyTx(v: Index, tx: Transaction, pos: DiskTxPos): Index {
    (if tx.IsCoinBase() then v else MarkAll(v, tx.vin, |tx.vin|, pos))[tx.hash := TxIndex(pos, Nulls(|tx.vout|))]
  }

  predicate Spends(vin: seq<TxIn>, k: nat, o: OutPoint)
    requires k <= |vin|
  {
    exists i :: 0 <= i < k && vin[i].prevout == o
  }

  /** The index entry of h, point by point, after the first k inputs are marked. */
  lemma {:induction false} MarkAllAt(v: Index, vin: seq<TxIn>, k: nat, p: DiskTxPos, h: Hash)
    requires k <= |vin| && h in v
    ensures MarkAll(v, vin, k, p)[h].pos == v[h].pos
    ensures |MarkAll(v, vin, k, p)[h].vSpent| == |v[h].vSpent|
    ensures forall n :: 0 <= n < |v[h].vSpent| ==>
              MarkAll(v, vin, k, p)[h].vSpent[n] == if Spends(vin, k, OutPoint(h, n)) then p else v[h].vSpent[n]
  {
    if k > 0 { MarkAllAt(v, vin, k - 1, p, h); }
  }

  lemma {:induction false} MarkAllIndexed(v: Index, vin: seq<TxIn>, k: nat, p: DiskTxPos, o: OutPoint)
    requires k <= |vin|
    ensures Indexed(MarkAll(v, vin, k, p), o) <==> Indexed(v, o)
  {
    if o.hash in v { MarkAllAt(v, vin, k, p, o.hash); }
  }

  /** Marking an entry looks only at that entry. */
  lemma {:induction false} MarkAllAgree(v: Index, w: Index, vin: seq<TxIn>, k: nat, p: DiskTxPos, h: Hash)
    requires k <= |vin| && h in v && h in w && v[h] == w[h]
    ensures MarkAll(v, vin, k, p)[h] == MarkAll(w, vin, k, p)[h]
  {
    if k > 0 { MarkAllAgree(v, w, vin, k - 1, p, h); }
  }

  /** The sequential double-spend test of ConnectInputs, which sees its own earlier marks, passes
      exactly when the inputs are distinct and all unspent to begin with. */
  lemma {:induction false} SequentialTestIsSpendable(v: Index, vin: seq<TxIn>, p: DiskTxPos, k: nat)
    requires p.At? && k < |vin| && Spendable(v, vin, k)
    ensures Unspent(MarkAll(v, vin, k, p), vin[k].prevout) <==> Spendable(v, vin, k + 1)
  {
    var o := vin[k].prevout;
    if o.hash in v { MarkAllAt(v, vin, k, p, o.hash); }
  }

  // ------------------------------------------------------------------------------------------
  // FetchInputs
  // ------------------------------------------------------------------------------------------

  /** Where FetchInputs finds the previous transaction h, if anywhere.  fStrict is the block or
      miner mode, which looks in testPool first and never falls back to the memory pool alone. */
  function Resolve(s: Sources, testPool: Index, fStrict: bool, h: Hash): Option<(TxIndex, Transaction)> {
    var found :=
      if fStrict && h in testPool then Some(testPool[h]) else if h in s.db then Some(s.db[h]) else None;
    if found.None? && fStrict then None
    else if found.None? || found.value.pos == MEMPOOL_POS then
      if h !in s.mempool then None
      else Some((if found.None? then TxIndex(Null, Nulls(|s.mempool[h].vout|)) else found.value, s.mempool[h]))
    else if found.value.pos in s.disk then Some((found.value, s.disk[found.value.pos]))
    else None
  }

  predicate InRange(prev: (TxIndex, Transaction), n: nat) { n < |prev.1.vout| && n < |prev.0.vSpent| }

  predicate InputsResolve(s: Sources, testPool: Index, fStrict: bool, vin: seq<TxIn>, k: nat)
    requires k <= |vin|
  {
    forall i :: 0 <= i < k ==> Resolve(s, testPool, fStrict, vin[i].prevout.hash).Some?
  }

  predicate RefersTo(vin: seq<TxIn>, k: nat, h: Hash)
    requires k <= |vin|
  {
    exists i :: 0 <= i < k && vin[i].prevout.hash == h
  }

  /** The fetched map holds exactly the previous transactions of the first k inputs, each as Resolve
      finds it. */
  ghost predicate Fetched(s: Sources, testPool: Index, fStrict: bool, vin: seq<TxIn>, k: nat, inputs: PrevTxs)
    requires k <= |vin|
  {
    && (forall h :: h in inputs <==> RefersTo(vin, k, h))
    && (forall h :: h in inputs ==> Resolve(s, testPool, fStrict, h) == Some(inputs[h]))
  }

  predicate AllInRange(vin: seq<TxIn>, k: nat, inputs: PrevTxs)
    requires k <= |vin|
  {
    forall i :: 0 <= i < k ==> vin[i].prevout.hash in inputs && InRange(inputs[vin[i].prevout.hash], vin[i].prevout.n)
  }

  /** Fetch one previous transaction. */
  method FetchInput(s: Sources, testPool: Index, fStrict: bool, h: Hash) returns (r: Option<(TxIndex, Transaction)>)
    ensures r == Resolve(s, testPool, fStrict, h)
  {
    var txindex, fFound := TxIndex(Null, []), true;
    if fStrict && h in testPool {
      txindex := testPool[h];
    } else if h in s.db {
      txindex := s.db[h];
    } else {
      fFound := false;
    }
    if !fFound && fStrict { return None; }
    var txPrev;
    if !fFound || txindex.pos == MEMPOOL_POS {
      if h !in s.mempool { return None; }
      txPrev := s.mempool[h];
      if !fFound { txindex := txindex.(vSpent := Nulls(|txPrev.vout|)); }
    } else {
      if txindex.pos !in s.disk { return None; }
      txPrev := s.disk[txindex.pos];
    }
    r := Some((txindex, txPrev));
  }

  method FetchInputs(s: Sources, tx: Transaction, testPool: Index, fBlock: bool, fMiner: bool)
    returns (ok: bool, inputs: PrevTxs, fInvalid: bool)
    ensures ok <==> tx.IsCoinBase() ||
                    (InputsResolve(s, testPool, fBlock || fMiner, tx.vin, |tx.vin|) &&
                      AllInRange(tx.vin, |tx.vin|, inputs))
    ensures tx.IsCoinBase() ==> inputs == map[] && !fInvalid
    ensures !tx.IsCoinBase() && InputsResolve(s, testPool, fBlock || fMiner, tx.vin, |tx.vin|) ==>
              && Fetched(s, testPool, fBlock || fMiner, tx.vin, |tx.vin|, inputs)
              && fInvalid == !AllInRange(tx.vin, |tx.vin|, inputs)
    ensures !InputsResolve(s, testPool, fBlock || fMiner, tx.vin, |tx.vin|) ==> !fInvalid
  {
    inputs, fInvalid := map[], false;
    if tx.IsCoinBase() { return true, inputs, fInvalid; }
    for i := 0 to |tx.vin|
      invariant Fetched(s, testPool, fBlock || fMiner, tx.vin, i, inputs)
      invariant InputsResolve(s, testPool, fBlock || fMiner, tx.vin, i)
    {
      var h := tx.vin[i].prevout.hash;
      if h !in inputs {
        var prev := FetchInput(s, testPool, fBlock || fMiner, h);
        if prev.None? { return false, inputs, false; }
        inputs := inputs[h := prev.value];
      }
    }
    for i := 0 to |tx.vin|
      invariant AllInRange(tx.vin, i, inputs)
    {
      var prevout := tx.vin[i].prevout;
      assert RefersTo(tx.vin, |tx.vin|, prevout.hash);
      if prevout.n >= |inputs[prevout.hash].1.vout| || prevout.n >= |inputs[prevout.hash].0.vSpent| {
        return false, inputs, true;
      }
    }
    ok := true;
  }

  // ------------------------------------------------------------------------------------------
  // ConnectInputs
  // ------------------------------------------------------------------------------------------

  /** The value of the output that input o claims (0 where the source would throw). */
  function InputValue(o: OutPoint, inputs: PrevTxs): int {
    if o.hash in inputs && o.n < |inputs[o.hash].1.vout| then inputs[o.hash].1.vout[o.n].nValue else 0
  }

  function SumIn(vin: seq<TxIn>, k: nat, inputs: PrevTxs): int
    requires k <= |vin|
  {
    if k == 0 then 0 else SumIn(vin, k - 1, inputs) + InputValue(vin[k - 1].prevout, inputs)
  }

  function GetValueIn(tx: Transaction, inputs: PrevTxs): int {
    if tx.IsCoinBase() then 0 else SumIn(tx.vin, |tx.vin|, inputs)
  }

  /** recentBlocks are the positions of the last nCoinbaseMaturity blocks of the branch being
      extended: a coinbase or coinstake stored in one of them is too young to spend. */
  predicate Mature(prev: (TxIndex, Transaction), recentBlocks: seq<(nat, nat)>) {
    prev.1.IsCoinBase() || prev.1.IsCoinStake() ==>
      !(prev.0.pos.At? && (prev.0.pos.nFile, prev.0.pos.nBlockPos) in recentBlocks)
  }

  /** The inexpensive checks on one input. */
  predicate InputOk(tx: Transaction, o: OutPoint, inputs: PrevTxs, recentBlocks: seq<(nat, nat)>) {
    && o.hash in inputs
    && InRange(inputs[o.hash], o.n)
    && Mature(inputs[o.hash], recentBlocks)
    && inputs[o.hash].1.nTime <= tx.nTime
    && MoneyRange(InputValue(o, inputs))
  }

  predicate InputsOk(tx: Transaction, k: nat, inputs: PrevTxs, recentBlocks: seq<(nat, nat)>)
    requires k <= |tx.vin|
  {
    && (forall i :: 0 <= i < k ==> InputOk(tx, tx.vin[i].prevout, inputs, recentBlocks))
    && MoneyRange(SumIn(tx.vin, k, inputs))
  }

  predicate SignatureOk(rules: ScriptRules, tx: Transaction, i: nat, inputs: PrevTxs)
    requires i < |tx.vin|
  {
    tx.vin[i].prevout.hash in inputs && rules.verify(inputs[tx.vin[i].prevout.hash].1, tx, i)
  }

  predicate SignaturesOk(rules: ScriptRules, tx: Transaction, k: nat, inputs: PrevTxs)
    requires k <= |tx.vin|
  {
    forall i :: 0 <= i < k ==> SignatureOk(rules, tx, i, inputs)
  }

  /** An ordinary transaction pays out no more than it takes in, less the minimum fee. */
  predicate PaysFee(tx: Transaction, nValueIn: int) {
    && nValueIn >= tx.GetValueOut()
    && nValueIn - tx.GetValueOut() >= GetMinFee(tx, 1, GMF_BLOCK, 0)
    && MoneyRange(nValueIn - tx.GetValueOut())
  }

  function EntriesOf(inputs: PrevTxs): Index { map h | h in inputs :: inputs[h].0 }

  /** Everything ConnectInputs demands of a transaction. */
  predicate Connectable(rules: ScriptRules, tx: Transaction, inputs: PrevTxs, recentBlocks: seq<(nat, nat)>,
                        fSkipSignatures: bool)
  {
    tx.IsCoinBase() ||
    (&& InputsOk(tx, |tx.vin|, inputs, recentBlocks)
     && Spendable(EntriesOf(inputs), tx.vin, |tx.vin|)
     && (fSkipSignatures || SignaturesOk(rules, tx, |tx.vin|, inputs))
     && (tx.IsCoinStake() || PaysFee(tx, SumIn(tx.vin, |tx.vin|, inputs))))
  }

  /** What an accepted input has, in the fields of prev, the transaction it claims an output of. */
  ghost predicate Rightful(rules: ScriptRules, tx: Transaction, i: nat, prev: Transaction, fSkipSignatures: bool)
    requires i < |tx.vin|
  {
    var n := tx.vin[i].prevout.n;
    && n < |prev.vout| && 0 <= prev.vout[n].nValue <= 210_000_000 * 100_000_000
    && prev.nTime <= tx.nTime
    && (fSkipSignatures || rules.verify(prev, tx, i))
  }

  /** Every input of a transaction that connects is rightful, and what an ordinary one takes in exceeds
      what it pays out by at least a fee of 10000. */
  lemma {:induction false} ConnectableIsRightful(rules: ScriptRules, tx: Transaction, inputs: PrevTxs,
                                                 recentBlocks: seq<(nat, nat)>, fSkipSignatures: bool)
    requires !tx.IsCoinBase() && Connectable(rules, tx, inputs, recentBlocks, fSkipSignatures)
    ensures forall i :: 0 <= i < |tx.vin| ==>
      && tx.vin[i].prevout.hash in inputs
      && Rightful(rules, tx, i, inputs[tx.vin[i].prevout.hash].1, fSkipSignatures)
    ensures !tx.IsCoinStake() ==> SumIn(tx.vin, |tx.vin|, inputs) >= SumOut(tx.vout, |tx.vout|) + 10_000
  {
    forall i | 0 <= i < |tx.vin|
      ensures tx.vin[i].prevout.hash in inputs
      ensures Rightful(rules, tx, i, inputs[tx.vin[i].prevout.hash].1, fSkipSignatures)
    {
      assert InputOk(tx, tx.vin[i].prevout, inputs, recentBlocks);
      assert fSkipSignatures || SignatureOk(rules, tx, i, inputs);
    }
  }

  /** The fee for relaying grows by 10000 with every thousand bytes. */
  lemma {:induction false} RelayFee(tx: Transaction, nBytes: nat)
    requires nBytes <= MAX_BLOCK_SIZE
    ensures GetMinFee(tx, 1000, GMF_RELAY, nBytes) >= (1 + nBytes / 1000) * 10_000
  {
    var nFee := (1 + nBytes / 1000) * 10_000;
    var nNewBlockSize := 1000 + nBytes;
    assert MoneyRange(nFee) && nFee >= 10_000;
    if MAX_BLOCK_SIZE_GEN / 2 <= nNewBlockSize < MAX_BLOCK_SIZE_GEN {
      var nFactor := MAX_BLOCK_SIZE_GEN / (MAX_BLOCK_SIZE_GEN - nNewBlockSize);
      TimesAtLeast(nFee, nFactor);
      assert GetMinFee(tx, 1000, GMF_RELAY, nBytes) == if MoneyRange(nFee * nFactor) then nFee * nFactor else MAX_MONEY;
    }
  }

  /** The fee a transaction has to pay in a block of n bytes: 10000 below a quarter of the largest block,
      from there growing as the room up to half of it shrinks, and all the money behind it; it never
      falls as the block grows. */
  lemma {:induction false} BlockFee(tx: Transaction, n: nat, m: nat)
    requires 1 < n <= m
    ensures var fee := GetMinFee(tx, n, GMF_BLOCK, 0);
      && (n < 250_000 ==> fee == 10_000)
      && (250_000 <= n < 500_000 ==> fee * (500_000 - n) <= 5_000_000_000 < (fee + 10_000) * (500_000 - n))
      && (n >= 500_000 ==> fee == MAX_MONEY)
    ensures GetMinFee(tx, n, GMF_BLOCK, 0) <= GetMinFee(tx, m, GMF_BLOCK, 0)
  {
    CrowdedFee(tx, n);
    CrowdedFee(tx, m);
    hide GetMinFee;
    if 250_000 <= m < 500_000 { Basics.DivFalls(500_000, 500_000 - n, 500_000 - m); }
  }

  lemma {:induction false} CrowdedFee(tx: Transaction, n: nat)
    requires n > 1
    ensures var fee := GetMinFee(tx, n, GMF_BLOCK, 0);
      && (n < 250_000 ==> fee == 10_000)
      && (n >= 500_000 ==> fee == MAX_MONEY)
      && (250_000 <= n < 500_000 ==>
            && fee == 10_000 * (500_000 / (500_000 - n)) && 10_000 <= fee <= 5_000_000_000
            && fee * (500_000 - n) <= 5_000_000_000 < (fee + 10_000) * (500_000 - n))
  {
    if 250_000 <= n < 500_000 {
      var d: nat := 500_000 - n;
      var q := 500_000 / d;
      assert 500_000 == d * q + 500_000 % d;
      Basics.DivFalls(500_000, d, 1);
      Basics.DivFalls(500_000, 500_000, d);
      assert 10_000 * q * d == 10_000 * (d * q) && (10_000 * q + 10_000) * d == 10_000 * (d * q) + 10_000 * d;
      assert GetMinFee(tx, n, GMF_BLOCK, 0) == 10_000 * q;
    }
  }

  lemma {:induction false} TimesAtLeast(a: nat, b: nat)
    requires b >= 1
    ensures a * b >= a
  {
  }

  /** The prefix sums of in-range values stay in range when the total does. */
  lemma {:induction false} SumInMonotone(tx: Transaction, k: nat, n: nat, inputs: PrevTxs,
                                         recentBlocks: seq<(nat, nat)>)
    requires k <= n <= |tx.vin|
    requires forall i :: 0 <= i < n ==> InputOk(tx, tx.vin[i].prevout, inputs, recentBlocks)
    ensures 0 <= SumIn(tx.vin, k, inputs) <= SumIn(tx.vin, n, inputs)
  {
    if 0 < n {
      SumInMonotone(tx, if k < n then k else n - 1, n - 1, inputs, recentBlocks);
      assert InputOk(tx, tx.vin[n - 1].prevout, inputs, recentBlocks);
    }
  }

  /** The walk back over the recent blocks. */
  method IsMature(prev: (TxIndex, Transaction), recentBlocks: seq<(nat, nat)>) returns (ok: bool)
    ensures ok <==> Mature(prev, recentBlocks)
  {
    var (txindex, txPrev) := prev;
    if txPrev.IsCoinBase() || txPrev.IsCoinStake() {
      for d := 0 to |recentBlocks|
        invariant !(txindex.pos.At? && (txindex.pos.nFile, txindex.pos.nBlockPos) in recentBlocks[..d])
      {
        if txindex.pos.At? && recentBlocks[d] == (txindex.pos.nFile, txindex.pos.nBlockPos) { return false; }
      }
    }
    ok := true;
  }

  /** The first loop of ConnectInputs: the inexpensive checks, with the running total. */
  method CheckInputs(tx: Transaction, inputs: PrevTxs, recentBlocks: seq<(nat, nat)>) returns (ok: bool, nValueIn: int)
    requires forall i :: 0 <= i < |tx.vin| ==> tx.vin[i].prevout.hash in inputs
    ensures ok <==> InputsOk(tx, |tx.vin|, inputs, recentBlocks)
    ensures ok ==> nValueIn == SumIn(tx.vin, |tx.vin|, inputs)
  {
    nValueIn := 0;
    for i := 0 to |tx.vin|
      invariant InputsOk(tx, i, inputs, recentBlocks)
      invariant nValueIn == SumIn(tx.vin, i, inputs)
    {
      var prevout := tx.vin[i].prevout;
      var (txindex, txPrev) := inputs[prevout.hash];
      if prevout.n >= |txPrev.vout| || prevout.n >= |txindex.vSpent| { return false, 0; }
      var fMature := IsMature((txindex, txPrev), recentBlocks);
      if !fMature { return false, 0; }
      if txPrev.nTime > tx.nTime { return false, 0; }
      nValueIn := nValueIn + txPrev.vout[prevout.n].nValue;
      if !MoneyRange(txPrev.vout[prevout.n].nValue) || !MoneyRange(nValueIn) {
        if InputsOk(tx, |tx.vin|, inputs, recentBlocks) {
          SumInMonotone(tx, i + 1, |tx.vin|, inputs, recentBlocks);
        }
        return false, 0;
      }
    }
    ok := true;
  }

  /** One pass of the second loop: the double-spend test, the signature, the mark.  The source marks
      a private copy of the fetched entries, here index, so only testPool carries the marks out.
      entries is index before the loop, view the index seen through testPool before the loop, and
      base what lies under testPool; they exist only in the proof. */
  method SpendInput(rules: ScriptRules, tx: Transaction, i: nat, inputs: PrevTxs, index0: Index, testPool0: Index,
                    ghost base: Index, ghost entries: Index, ghost view: Index, p: DiskTxPos, fUpdatePool: bool,
                    fSkipSignatures: bool)
    returns (ok: bool, index: Index, testPool: Index)
    requires p.At? && i < |tx.vin| && Indexed(entries, tx.vin[i].prevout)
    requires Spendable(entries, tx.vin, i)
    requires index0 == MarkAll(entries, tx.vin, i, p)
    requires fUpdatePool ==> tx.vin[i].prevout.hash in view && base + testPool0 == MarkAll(view, tx.vin, i, p)
                             && entries[tx.vin[i].prevout.hash] == view[tx.vin[i].prevout.hash]
    ensures ok <==> Spendable(entries, tx.vin, i + 1) && (fSkipSignatures || SignatureOk(rules, tx, i, inputs))
    ensures ok ==> index == MarkAll(entries, tx.vin, i + 1, p)
    ensures ok && fUpdatePool ==> base + testPool == MarkAll(view, tx.vin, i + 1, p)
    ensures !fUpdatePool ==> testPool == testPool0
  {
    index, testPool := index0, testPool0;
    var prevout := tx.vin[i].prevout;
    SequentialTestIsSpendable(entries, tx.vin, p, i);
    MarkAllIndexed(entries, tx.vin, i, p, prevout);
    var txindex := index[prevout.hash];
    if txindex.vSpent[prevout.n] != Null { return false, index, testPool; }
    if !fSkipSignatures && !SignatureOk(rules, tx, i, inputs) { return false, index, testPool; }
    txindex := txindex.(vSpent := txindex.vSpent[prevout.n := p]);
    index := index[prevout.hash := txindex];
    if fUpdatePool {
      MarkAllAgree(entries, view, tx.vin, i, p, prevout.hash);
      testPool := testPool[prevout.hash := txindex];
    }
    ok := true;
  }

  method SpendInputs(rules: ScriptRules, tx: Transaction, inputs: PrevTxs, testPool0: Index, ghost base: Index,
                     posThisTx: DiskTxPos, fUpdatePool: bool, fSkipSignatures: bool)
    returns (ok: bool, testPool: Index)
    requires posThisTx.At?
    requires AllIndexed(EntriesOf(inputs), tx.vin, |tx.vin|)
    requires fUpdatePool ==> forall h :: h in inputs ==> h in base + testPool0 && (base + testPool0)[h] == inputs[h].0
    ensures ok <==> Spendable(EntriesOf(inputs), tx.vin, |tx.vin|) &&
                    (fSkipSignatures || SignaturesOk(rules, tx, |tx.vin|, inputs))
    ensures ok && fUpdatePool ==> base + testPool == MarkAll(base + testPool0, tx.vin, |tx.vin|, posThisTx)
    ensures !fUpdatePool ==> testPool == testPool0
  {
    var index := EntriesOf(inputs);
    testPool := testPool0;
    ghost var entries := index;
    ghost var view := base + testPool0;
    for i := 0 to |tx.vin|
      invariant Spendable(entries, tx.vin, i)
      invariant fSkipSignatures || SignaturesOk(rules, tx, i, inputs)
      invariant index == MarkAll(entries, tx.vin, i, posThisTx)
      invariant fUpdatePool ==> base + testPool == MarkAll(view, tx.vin, i, posThisTx)
      invariant !fUpdatePool ==> testPool == testPool0
    {
      assert Indexed(entries, tx.vin[i].prevout);
      ok, index, testPool := SpendInput(rules, tx, i, inputs, index, testPool, base, entries, view, posThisTx,
                                        fUpdatePool, fSkipSignatures);
      if !ok { return; }
    }
    ok := true;
  }

  /** ConnectInputs.  On success in block or miner mode the view base + testPool has exactly the
      inputs of tx marked by posThisTx; ok says precisely when it succeeds. */
  method ConnectInputs(rules: ScriptRules, tx: Transaction, inputs: PrevTxs, testPool0: Index, ghost base: Index,
                       posThisTx: DiskTxPos, recentBlocks: seq<(nat, nat)>, fBlock: bool, fMiner: bool,
                       fBeforeLastCheckpoint: bool)
    returns (ok: bool, testPool: Index)
    requires posThisTx.At?
    requires !tx.IsCoinBase() ==> forall i :: 0 <= i < |tx.vin| ==> tx.vin[i].prevout.hash in inputs
    requires fBlock || fMiner ==>
               forall h :: h in inputs ==> h in base + testPool0 && (base + testPool0)[h] == inputs[h].0
    ensures ok <==> Connectable(rules, tx, inputs, recentBlocks, fBlock && fBeforeLastCheckpoint)
    ensures ok && (fBlock || fMiner) ==>
              base + testPool == if tx.IsCoinBase() then base + testPool0
                                 else MarkAll(base + testPool0, tx.vin, |tx.vin|, posThisTx)
    ensures !fBlock && !fMiner ==> testPool == testPool0
    ensures ok && !tx.IsCoinBase() ==> forall i :: 0 <= i < |tx.vin| ==>
      Rightful(rules, tx, i, inputs[tx.vin[i].prevout.hash].1, fBlock && fBeforeLastCheckpoint)
    ensures ok && !tx.IsCoinBase() && !tx.IsCoinStake() ==>
      SumIn(tx.vin, |tx.vin|, inputs) >= SumOut(tx.vout, |tx.vout|) + 10_000
  {
    testPool := testPool0;
    if tx.IsCoinBase() { return true, testPool; }
    var nValueIn;
    ok, nValueIn := CheckInputs(tx, inputs, recentBlocks);
    if !ok { return; }
    InputsIndexed(tx, inputs, recentBlocks);
    ok, testPool := SpendInputs(rules, tx, inputs, testPool0, base, posThisTx, fBlock || fMiner,
                                fBlock && fBeforeLastCheckpoint);
    if !ok { return; }
    if !tx.IsCoinStake() {
      if nValueIn < tx.GetValueOut() { return false, testPool; }
      var nTxFee := nValueIn - tx.GetValueOut();
      if nTxFee < 0 { return false, testPool; }
      if nTxFee < GetMinFee(tx, 1, GMF_BLOCK, 0) { return false, testPool; }
      if !MoneyRange(nTxFee) { return false, testPool; }
    }
    ConnectableIsRightful(rules, tx, inputs, recentBlocks, fBlock && fBeforeLastCheckpoint);
  }

  lemma {:induction false} InputsIndexed(tx: Transaction, inputs: PrevTxs, recentBlocks: seq<(nat, nat)>)
    requires InputsOk(tx, |tx.vin|, inputs, recentBlocks)
    ensures AllIndexed(EntriesOf(inputs), tx.vin, |tx.vin|)
  {
    forall i | 0 <= i < |tx.vin|
      ensures Indexed(EntriesOf(inputs), tx.vin[i].prevout)
    {
      assert InputOk(tx, tx.vin[i].prevout, inputs, recentBlocks);
    }
  }

  // ------------------------------------------------------------------------------------------
  // DisconnectInputs, and that it undoes ConnectInputs
  // ------------------------------------------------------------------------------------------

  /** The index after transaction tx is disconnected. */
  function UndoTx(v: Index, tx: Transaction): Index {
    (if tx.IsCoinBase() then v else MarkAll(v, tx.vin, |tx.vin|, Null)) - {tx.hash}
  }

  method DisconnectInputs(db0: Index, tx: Transaction) returns (ok: bool, db: Index)
    ensures ok <==> tx.IsCoinBase() || AllIndexed(db0, tx.vin, |tx.vin|)
    ensures ok ==> db == UndoTx(db0, tx)
  {
    db := db0;
    if !tx.IsCoinBase() {
      for i := 0 to |tx.vin|
        invariant AllIndexed(db0, tx.vin, i)
        invariant db == MarkAll(db0, tx.vin, i, Null)
      {
        var prevout := tx.vin[i].prevout;
        MarkAllIndexed(db0, tx.vin, i, Null, prevout);
        if prevout.hash !in db { return false, db; }
        var txindex := db[prevout.hash];
        if prevout.n >= |txindex.vSpent| { return false, db; }
        txindex := txindex.(vSpent := txindex.vSpent[prevout.n := Null]);
        db := db[prevout.hash := txindex];
      }
    }
    db := db - {tx.hash};
    ok := true;
  }

  /** Marks placed on unspent outputs come off again, entry by entry, also in an index w that lacks
      some of the entries. */
  lemma {:induction false} MarkUndone(v: Index, vin: seq<TxIn>, p: DiskTxPos, w: Index, h: Hash)
    requires forall i :: 0 <= i < |vin| ==> Unspent(v, vin[i].prevout)
    requires h in w && h in v && w[h] == MarkAll(v, vin, |vin|, p)[h]
    ensures MarkAll(w, vin, |vin|, Null)[h] == v[h]
  {
    MarkAllAt(v, vin, |vin|, p, h);
    MarkAllAt(w, vin, |vin|, Null, h);
    assert MarkAll(w, vin, |vin|, Null)[h].vSpent == v[h].vSpent;
  }

  predicate FullySpent(v: Index, h: Hash) {
    h in v ==> forall n :: 0 <= n < |v[h].vSpent| ==> v[h].vSpent[n] != Null
  }

  /** The effect of a transaction can be given back: what returns is the old index without an entry
      for the transaction, even if entries that neither it nor its inputs use (gone) have been
      removed meanwhile.  A fully spent entry the transaction overwrote is not restored. */
  lemma {:induction false} UndoTxInvertsApplyTx(v: Index, tx: Transaction, pos: DiskTxPos, gone: set<Hash>)
    requires tx.IsCoinBase() || Spendable(v, tx.vin, |tx.vin|)
    requires FullySpent(v, tx.hash)
    requires tx.hash !in gone
    requires !tx.IsCoinBase() ==> forall i :: 0 <= i < |tx.vin| ==> tx.vin[i].prevout.hash !in gone
    ensures tx.IsCoinBase() || AllIndexed(ApplyTx(v, tx, pos) - gone, tx.vin, |tx.vin|)
    ensures UndoTx(ApplyTx(v, tx, pos) - gone, tx) == v - gone - {tx.hash}
  {
    var w := ApplyTx(v, tx, pos) - gone;
    if !tx.IsCoinBase() {
      forall i | 0 <= i < |tx.vin|
        ensures Indexed(w, tx.vin[i].prevout) && tx.vin[i].prevout.hash != tx.hash
      {
        assert Unspent(v, tx.vin[i].prevout);
        MarkAllIndexed(v, tx.vin, |tx.vin|, pos, tx.vin[i].prevout);
      }
      forall h | h in w && h != tx.hash ensures MarkAll(w, tx.vin, |tx.vin|, Null)[h] == v[h] {
        MarkUndone(v, tx.vin, pos, w, h);
      }
    }
  }

  /** The outputs that can still be spent. */
  ghost function UnspentOutputs(v: Index): iset<OutPoint> { iset o | Unspent(v, o) }
}
