/** The value of all outputs that can still be spent, and how connecting a transaction moves it. */
module Money {
  import opened Transactions

  type Disk = map<DiskTxPos, Transaction>

  /** Every index entry points to a stored transaction with as many outputs as the entry has. */
  predicate OnDisk(v: Index, disk: Disk) {
    forall h :: h in v ==> v[h].pos in disk && |disk[v[h].pos].vout| == |v[h].vSpent|
  }

  /** The value of the unspent outputs among the first k of one transaction. */
  function Worth(spent: seq<DiskTxPos>, vout: seq<TxOut>, k: nat): int
    requires k <= |spent| == |vout|
  {
    if k == 0 then 0 else Worth(spent, vout, k - 1) + if spent[k - 1] == Null then vout[k - 1].nValue else 0
  }

  function EntryWorth(e: TxIndex, disk: Disk): int
    requires e.pos in disk && |disk[e.pos].vout| == |e.vSpent|
  {
    Worth(e.vSpent, disk[e.pos].vout, |e.vSpent|)
  }

  /** The value of everything that can be spent. */
  ghost function Total(v: Index, disk: Disk): int
    requires OnDisk(v, disk)
  {
    if v == map[] then 0
    else
      var h :| h in v;
      EntryWorth(v[h], disk) + Total(v - {h}, disk)
  }

  /** Any entry may be taken out of the total first. */
  lemma {:induction false} TotalSplit(v: Index, disk: Disk, h: Hash)
    requires OnDisk(v, disk) && h in v
    ensures Total(v, disk) == EntryWorth(v[h], disk) + Total(v - {h}, disk)
    decreases |v|
  {
    var g :| g in v && Total(v, disk) == EntryWorth(v[g], disk) + Total(v - {g}, disk);
    if g != h {
      assert |v - {g}| < |v| by { assert (v - {g}).Keys < v.Keys; }
      assert |v - {h}| < |v| by { assert (v - {h}).Keys < v.Keys; }
      TotalSplit(v - {g}, disk, h);
      TotalSplit(v - {h}, disk, g);
      assert v - {g} - {h} == v - {h} - {g};
    }
  }

  lemma {:induction false} TotalPut(v: Index, disk: Disk, h: Hash, e: TxIndex)
    requires OnDisk(v, disk) && e.pos in disk && |disk[e.pos].vout| == |e.vSpent|
    ensures OnDisk(v[h := e], disk)
    ensures Total(v[h := e], disk) == Total(v, disk) - (if h in v then EntryWorth(v[h], disk) else 0) +
      EntryWorth(e, disk)
  {
    TotalSplit(v[h := e], disk, h);
    assert v[h := e] - {h} == v - {h};
    if h in v { TotalSplit(v, disk, h); } else { assert v - {h} == v; }
  }

  lemma {:induction false} WorthMarked(spent: seq<DiskTxPos>, vout: seq<TxOut>, k: nat, n: nat, p: DiskTxPos)
    requires k <= |spent| == |vout| && n < |spent| && spent[n] == Null && p.At?
    ensures Worth(spent[n := p], vout, k) == Worth(spent, vout, k) - if n < k then vout[n].nValue else 0
  {
    if k > 0 { WorthMarked(spent, vout, k - 1, n, p); }
  }

  lemma {:induction false} WorthFresh(vout: seq<TxOut>, k: nat)
    requires k <= |vout|
    ensures Worth(Nulls(|vout|), vout, k) == SumOut(vout, k)
  {
    if k > 0 { WorthFresh(vout, k - 1); }
  }

  lemma {:induction false} WorthFullySpent(spent: seq<DiskTxPos>, vout: seq<TxOut>, k: nat)
    requires k <= |spent| == |vout| && forall n :: 0 <= n < |spent| ==> spent[n] != Null
    ensures Worth(spent, vout, k) == 0
  {
    if k > 0 { WorthFullySpent(spent, vout, k - 1); }
  }

  /** The value behind output o. */
  function OutputValue(v: Index, disk: Disk, o: OutPoint): int
    requires OnDisk(v, disk) && Indexed(v, o)
  {
    disk[v[o.hash].pos].vout[o.n].nValue
  }

  lemma {:induction false} TotalMark(v: Index, disk: Disk, o: OutPoint, p: DiskTxPos)
    requires OnDisk(v, disk) && Unspent(v, o) && p.At?
    ensures OnDisk(Mark(v, o, p), disk)
    ensures Total(Mark(v, o, p), disk) == Total(v, disk) - OutputValue(v, disk, o)
  {
    var e := v[o.hash].(vSpent := v[o.hash].vSpent[o.n := p]);
    TotalPut(v, disk, o.hash, e);
    WorthMarked(v[o.hash].vSpent, disk[e.pos].vout, |e.vSpent|, o.n, p);
  }

  /** inputs is what the index and the block files give for the outputs that vin claims. */
  predicate FromDisk(v: Index, disk: Disk, vin: seq<TxIn>, inputs: PrevTxs)
    requires OnDisk(v, disk)
  {
    forall i :: 0 <= i < |vin| ==>
      vin[i].prevout.hash in inputs && vin[i].prevout.hash in v &&
      inputs[vin[i].prevout.hash] == (v[vin[i].prevout.hash], disk[v[vin[i].prevout.hash].pos])
  }

  lemma {:induction false} TotalMarkAll(v: Index, disk: Disk, vin: seq<TxIn>, k: nat, p: DiskTxPos, inputs: PrevTxs)
    requires k <= |vin| && p.At? && OnDisk(v, disk) && Spendable(v, vin, k) && FromDisk(v, disk, vin, inputs)
    ensures OnDisk(MarkAll(v, vin, k, p), disk)
    ensures Total(MarkAll(v, vin, k, p), disk) == Total(v, disk) - SumIn(vin, k, inputs)
  {
    if k > 0 {
      TotalMarkAll(v, disk, vin, k - 1, p, inputs);
      SequentialTestIsSpendable(v, vin, p, k - 1);
      var o, w := vin[k - 1].prevout, MarkAll(v, vin, k - 1, p);
      TotalMark(w, disk, o, p);
      MarkAllAt(v, vin, k - 1, p, o.hash);
      assert OutputValue(w, disk, o) == InputValue(o, inputs);
    }
  }

  /** Connecting a transaction takes its inputs' value out of the total and puts its outputs' value
      in; an overwritten entry was worth nothing. */
  lemma {:induction false} TotalApplyTx(v: Index, disk: Disk, tx: Transaction, pos: DiskTxPos, inputs: PrevTxs)
    requires OnDisk(v, disk) && pos.At? && pos in disk && disk[pos].vout == tx.vout
    requires tx.IsCoinBase() || (Spendable(v, tx.vin, |tx.vin|) && FromDisk(v, disk, tx.vin, inputs))
    requires FullySpent(v, tx.hash)
    ensures OnDisk(ApplyTx(v, tx, pos), disk)
    ensures Total(ApplyTx(v, tx, pos), disk) == Total(v, disk) - GetValueIn(tx, inputs) + tx.GetValueOut()
  {
    var w := if tx.IsCoinBase() then v else MarkAll(v, tx.vin, |tx.vin|, pos);
    if !tx.IsCoinBase() { TotalMarkAll(v, disk, tx.vin, |tx.vin|, pos, inputs); }
    var e := TxIndex(pos, Nulls(|tx.vout|));
    TotalPut(w, disk, tx.hash, e);
    WorthFresh(tx.vout, |tx.vout|);
    if tx.hash in v {
      if !tx.IsCoinBase() { MarkAllAt(v, tx.vin, |tx.vin|, pos, tx.hash); }
      WorthFullySpent(w[tx.hash].vSpent, disk[w[tx.hash].pos].vout, |w[tx.hash].vSpent|);
    }
  }

  /** Storing more blocks changes no value. */
  lemma {:induction false} TotalSameOnDisk(v: Index, disk: Disk, disk': Disk)
    requires OnDisk(v, disk) && forall p :: p in disk ==> p in disk' && disk'[p] == disk[p]
    ensures OnDisk(v, disk') && Total(v, disk') == Total(v, disk)
    decreases |v|
  {
    if v != map[] {
      var h :| h in v;
      assert (v - {h}).Keys < v.Keys;
      assert |v - {h}| < |v|;
      TotalSplit(v, disk, h);
      TotalSplit(v, disk', h);
      TotalSameOnDisk(v - {h}, disk, disk');
    }
  }
}
