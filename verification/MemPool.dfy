/** The memory pool (CTxMemPool, src/main.cpp): two maps that index each other, and removal that
    follows the spends. */
module MemPool {
  import opened Transactions
  import opened Blocks

  /** CInPoint: which input of which pool transaction; a pointer is the transaction's hash. */
  datatype InPoint = InPoint(hash: Hash, n: nat)

  type Pool = map<Hash, Transaction>
  type Nexts = map<OutPoint, InPoint>

  /** The inputs of pool transaction h lead to it. */
  predicate InputsPoint(pool: Pool, nexts: Nexts, h: Hash)
    requires h in pool
  {
    && pool[h].hash == h
    && forall i :: 0 <= i < |pool[h].vin| ==>
      pool[h].vin[i].prevout in nexts && nexts[pool[h].vin[i].prevout] == InPoint(h, i)
  }

  predicate SpendsAt(pool: Pool, p: InPoint, o: OutPoint) {
    p.hash in pool && p.n < |pool[p.hash].vin| && pool[p.hash].vin[p.n].prevout == o
  }

  /** mapNextTx says of every spent output which input spends it, and of no other. */
  ghost predicate Agree(pool: Pool, nexts: Nexts) {
    && (forall h :: h in pool ==> InputsPoint(pool, nexts, h))
    && (forall o :: o in nexts ==> SpendsAt(pool, nexts[o], o))
  }

  /** In an indexed pool no output is spent twice, and mapNextTx is determined by mapTx. */
  lemma {:induction false} SpentOnce(pool: Pool, nexts: Nexts, p: InPoint, o: OutPoint)
    requires Agree(pool, nexts)
    ensures SpendsAt(pool, p, o) <==> o in nexts && nexts[o] == p
  {
    if SpendsAt(pool, p, o) { assert InputsPoint(pool, nexts, p.hash); }
  }

  // ------------------------------------------------------------------------------------------
  // Descendants
  // ------------------------------------------------------------------------------------------

  /** c spends an output that a has. */
  predicate ChildOf(pool: Pool, c: Hash, a: Hash) {
    c in pool && a in pool && exists i :: 0 <= i < |pool[c].vin| && SpendsFrom(pool, pool[c].vin[i].prevout, a)
  }

  predicate SpendsFrom(pool: Pool, o: OutPoint, a: Hash)
    requires a in pool
  {
    o.hash == a && o.n < |pool[a].vout|
  }

  /** No transaction depends on itself: a rank falls from parent to child. */
  ghost predicate Acyclic(pool: Pool, rank: Hash -> nat) {
    forall c, a :: ChildOf(pool, c, a) ==> rank(c) < rank(a)
  }

  /** d is a, or spends an output of a, directly or through others. */
  ghost predicate Desc(pool: Pool, rank: Hash -> nat, d: Hash, a: Hash)
    decreases rank(a)
  {
    a in pool && (d == a || exists c :: ChildOf(pool, c, a) && rank(c) < rank(a) && Desc(pool, rank, d, c))
  }

  ghost function Descendants(pool: Pool, rank: Hash -> nat, a: Hash): set<Hash> {
    set d | d in pool && Desc(pool, rank, d, a)
  }

  ghost predicate Closed(pool: Pool, s: set<Hash>) { forall c, a :: a in s && ChildOf(pool, c, a) ==> c in s }

  lemma {:induction false} ClosedDesc(pool: Pool, rank: Hash -> nat, s: set<Hash>, d: Hash, a: Hash)
    requires Closed(pool, s) && a in s && Desc(pool, rank, d, a)
    ensures d in s
    decreases rank(a)
  {
    if d != a {
      var c :| ChildOf(pool, c, a) && rank(c) < rank(a) && Desc(pool, rank, d, c);
      ClosedDesc(pool, rank, s, d, c);
    }
  }

  /** A child of a descendant is a descendant. */
  lemma {:induction false} DescChild(pool: Pool, rank: Hash -> nat, k: Hash, d: Hash, a: Hash)
    requires Acyclic(pool, rank) && Desc(pool, rank, d, a) && ChildOf(pool, k, d)
    ensures Desc(pool, rank, k, a)
    decreases rank(a)
  {
    if d == a {
      assert rank(k) < rank(a) && Desc(pool, rank, k, k);
    } else {
      var c :| ChildOf(pool, c, a) && rank(c) < rank(a) && Desc(pool, rank, d, c);
      DescChild(pool, rank, k, d, c);
    }
  }

  lemma {:induction false} DescInPool(pool: Pool, rank: Hash -> nat, d: Hash, a: Hash)
    requires Desc(pool, rank, d, a)
    ensures d in pool && rank(d) <= rank(a)
    decreases rank(a)
  {
    if d != a {
      var c :| ChildOf(pool, c, a) && rank(c) < rank(a) && Desc(pool, rank, d, c);
      DescInPool(pool, rank, d, c);
    }
  }

  /** Removing transactions creates no descendants. */
  lemma {:induction false} DescFewer(pool: Pool, gone: set<Hash>, rank: Hash -> nat, d: Hash, a: Hash)
    requires Desc(pool - gone, rank, d, a)
    ensures Desc(pool, rank, d, a)
    decreases rank(a)
  {
    if d != a {
      var c :| ChildOf(pool - gone, c, a) && rank(c) < rank(a) && Desc(pool - gone, rank, d, c);
      assert ChildOf(pool, c, a);
      DescFewer(pool, gone, rank, d, c);
    }
  }

  lemma {:induction false} AcyclicFewer(pool: Pool, gone: set<Hash>, rank: Hash -> nat)
    requires Acyclic(pool, rank)
    ensures Acyclic(pool - gone, rank)
  {
    forall c, a | ChildOf(pool - gone, c, a) ensures rank(c) < rank(a) { assert ChildOf(pool, c, a); }
  }

  /** A closed set stays closed when a transaction that is left goes with all its descendants. */
  lemma {:induction false} ClosedGrows(pool: Pool, rank: Hash -> nat, s: set<Hash>, a: Hash)
    requires Acyclic(pool, rank) && Closed(pool, s) && a in pool && a !in s
    ensures Closed(pool, s + Descendants(pool - s, rank, a)) && a in Descendants(pool - s, rank, a)
    ensures forall d :: d in Descendants(pool - s, rank, a) ==> Desc(pool, rank, d, a)
  {
    var s' := s + Descendants(pool - s, rank, a);
    AcyclicFewer(pool, s, rank);
    forall c, p | p in s' && ChildOf(pool, c, p) ensures c in s' {
      if c !in s {
        assert p !in s && ChildOf(pool - s, c, p);
        DescChild(pool - s, rank, c, p, a);
      }
    }
    forall d | d in Descendants(pool - s, rank, a) ensures Desc(pool, rank, d, a) { DescFewer(pool, s, rank, d, a); }
  }

  // ------------------------------------------------------------------------------------------
  // The pool
  // ------------------------------------------------------------------------------------------

  lemma {:induction false} Added(pool: Pool, nexts: Nexts, tx: Transaction, nexts': Nexts)
    requires Agree(pool, nexts) && tx.hash !in pool && DistinctInputs(tx.vin, |tx.vin|)
    requires forall i :: 0 <= i < |tx.vin| ==> tx.vin[i].prevout !in nexts
    requires forall o :: o in nexts ==> o in nexts' && nexts'[o] == nexts[o]
    requires forall i :: 0 <= i < |tx.vin| ==>
      tx.vin[i].prevout in nexts' && nexts'[tx.vin[i].prevout] == InPoint(tx.hash, i)
    requires forall o :: o in nexts' ==> o in nexts || exists i :: 0 <= i < |tx.vin| && tx.vin[i].prevout == o
    ensures Agree(pool[tx.hash := tx], nexts')
  {
    var pool' := pool[tx.hash := tx];
    forall h | h in pool' ensures InputsPoint(pool', nexts', h) {
      if h != tx.hash { assert InputsPoint(pool, nexts, h); }
    }
    forall o | o in nexts' ensures SpendsAt(pool', nexts'[o], o) {
      if o in nexts { assert SpendsAt(pool, nexts[o], o); }
    }
  }

  lemma {:induction false} Dropped(pool: Pool, nexts: Nexts, h: Hash, nexts': Nexts)
    requires Agree(pool, nexts) && h in pool
    requires forall o :: o in nexts' <==> o in nexts && nexts[o].hash != h
    requires forall o :: o in nexts' ==> nexts'[o] == nexts[o]
    ensures Agree(pool - {h}, nexts')
  {
    forall k | k in pool - {h} ensures InputsPoint(pool - {h}, nexts', k) { assert InputsPoint(pool, nexts, k); }
    forall o | o in nexts' ensures SpendsAt(pool - {h}, nexts'[o], o) { assert SpendsAt(pool, nexts[o], o); }
  }

  class CTxMemPool {
    var mapTx: Pool
    var mapNextTx: Nexts

    ghost predicate Valid()
      reads this
    {
      Agree(mapTx, mapNextTx)
    }

    constructor ()
      ensures Valid() && mapTx == map[]
    {
      mapTx, mapNextTx := map[], map[];
    }

    method AddUnchecked(hash: Hash, tx: Transaction)
      requires Valid() && hash == tx.hash && hash !in mapTx && DistinctInputs(tx.vin, |tx.vin|)
      requires forall i :: 0 <= i < |tx.vin| ==> tx.vin[i].prevout !in mapNextTx
      modifies this
      ensures Valid() && mapTx == old(mapTx)[hash := tx]
    {
      ghost var nexts := mapNextTx;
      mapTx := mapTx[hash := tx];
      for i := 0 to |tx.vin|
        invariant mapTx == old(mapTx)[hash := tx]
        invariant forall o :: o in nexts ==> o in mapNextTx && mapNextTx[o] == nexts[o]
        invariant forall j :: 0 <= j < i ==>
          tx.vin[j].prevout in mapNextTx && mapNextTx[tx.vin[j].prevout] == InPoint(hash, j)
        invariant forall o :: o in mapNextTx ==> o in nexts || exists j :: 0 <= j < i && tx.vin[j].prevout == o
      {
        mapNextTx := mapNextTx[tx.vin[i].prevout := InPoint(hash, i)];
      }
      Added(old(mapTx), nexts, tx, mapNextTx);
    }

    /** The last part of remove: the transaction and its links go. */
    method Erase(tx: Transaction)
      requires Valid() && tx.hash in mapTx && mapTx[tx.hash] == tx
      modifies this
      ensures Valid() && mapTx == old(mapTx) - {tx.hash}
    {
      ghost var nexts := mapNextTx;
      assert InputsPoint(mapTx, mapNextTx, tx.hash);
      for i := 0 to |tx.vin|
        invariant mapTx == old(mapTx)
        invariant forall o :: o in mapNextTx ==> o in nexts && mapNextTx[o] == nexts[o]
        invariant forall o :: o in nexts && o !in mapNextTx ==> nexts[o].hash == tx.hash
        invariant forall j :: 0 <= j < i ==> tx.vin[j].prevout !in mapNextTx
      {
        mapNextTx := mapNextTx - {tx.vin[i].prevout};
      }
      forall o | o in mapNextTx ensures mapNextTx[o].hash != tx.hash { assert SpendsAt(mapTx, nexts[o], o); }
      Dropped(old(mapTx), nexts, tx.hash, mapNextTx);
      mapTx := mapTx - {tx.hash};
    }

    /** Removes tx, and if fRecursive exactly its descendants with it. */
    method Remove(tx: Transaction, fRecursive: bool, ghost rank: Hash -> nat)
      requires Valid() && Acyclic(mapTx, rank) && (tx.hash in mapTx ==> mapTx[tx.hash] == tx)
      modifies this
      ensures Valid()
      ensures mapTx == old(mapTx) - if fRecursive then Descendants(old(mapTx), rank, tx.hash) else {tx.hash}
      decreases rank(tx.hash)
    {
      hide Agree, Acyclic;
      var hash := tx.hash;
      if hash !in mapTx {
        assert Descendants(mapTx, rank, hash) == {};
        return;
      }
      ghost var gone: set<Hash> := {};
      ghost var pool := mapTx;
      assert Closed(pool, gone);
      if fRecursive {
        gone := RemoveChildren(tx, rank);
      }
      assert hash in mapTx && mapTx == pool - gone;
      Erase(tx);
      if fRecursive { AllGone(pool, rank, gone, hash); }
      assert mapTx == pool - (gone + {hash});
    }

    method RemoveChildren(tx: Transaction, ghost rank: Hash -> nat) returns (ghost gone: set<Hash>)
      requires Valid() && Acyclic(mapTx, rank) && tx.hash in mapTx && mapTx[tx.hash] == tx
      modifies this
      ensures Valid() && mapTx == old(mapTx) - gone && Closed(old(mapTx), gone) && tx.hash !in gone
      ensures forall d :: d in gone ==> d in old(mapTx) && Desc(old(mapTx), rank, d, tx.hash)
      ensures forall c :: ChildOf(old(mapTx), c, tx.hash) ==> c in gone
      decreases rank(tx.hash), 0
    {
      hide Agree, Acyclic, Desc;
      gone := {};
      ghost var pool := mapTx;
      assert Closed(pool, gone);
      for i := 0 to |tx.vout|
        invariant Valid() && mapTx == pool - gone && Closed(pool, gone) && tx.hash !in gone
        invariant forall d :: d in gone ==> d in pool && Desc(pool, rank, d, tx.hash)
        invariant forall n, c :: 0 <= n < i && HasInput(pool, c, OutPoint(tx.hash, n)) ==> c in gone
      {
        var it := OutPoint(tx.hash, i);
        SpenderOf(mapTx, mapNextTx, it);
        assert forall c :: HasInput(pool, c, it) && c !in gone ==> HasInput(mapTx, c, it);
        if it in mapNextTx {
          var child := mapNextTx[it].hash;
          ChildThrough(pool, rank, child, tx, i);
          ClosedGrows(pool, rank, gone, child);
          AcyclicFewer(pool, gone, rank);
          ghost var more := Descendants(mapTx, rank, child);
          forall d | d in more ensures Desc(pool, rank, d, tx.hash) && d != tx.hash {
            DescThrough(pool, rank, d, child, tx.hash);
          }
          assert child in more;
          Remove(mapTx[child], true, rank);
          gone := gone + more;
        }
        assert forall c :: HasInput(pool, c, it) ==> c in gone;
      }
      forall c | ChildOf(pool, c, tx.hash) ensures c in gone {
        var j :| 0 <= j < |pool[c].vin| && SpendsFrom(pool, pool[c].vin[j].prevout, tx.hash);
        assert HasInput(pool, c, OutPoint(tx.hash, pool[c].vin[j].prevout.n));
      }
    }

    /** Removes exactly the transactions that spend an input of tx, other than tx itself, with their
        descendants. */
    method RemoveConflicts(tx: Transaction, ghost rank: Hash -> nat)
      requires Valid() && Acyclic(mapTx, rank)
      modifies this
      ensures Valid() && mapTx == old(mapTx) - Conflicting(old(mapTx), rank, tx)
      ensures forall c :: !Conflicts(mapTx, tx, |tx.vin|, c)
    {
      hide Agree, Acyclic, Desc;
      ghost var gone: set<Hash> := {};
      ghost var pool := mapTx;
      assert Closed(pool, gone);
      for i := 0 to |tx.vin|
        invariant Valid() && mapTx == pool - gone && Closed(pool, gone)
        invariant forall d :: d in gone ==> d in pool && exists c ::
          Conflicts(pool, tx, |tx.vin|, c) && Desc(pool, rank, d, c)
        invariant forall c :: Conflicts(pool, tx, i, c) ==> c in gone
      {
        var o := tx.vin[i].prevout;
        SpenderOf(mapTx, mapNextTx, o);
        assert forall c :: HasInput(pool, c, o) && c !in gone ==> HasInput(mapTx, c, o);
        assert forall c :: Conflicts(pool, tx, i + 1, c) ==> Conflicts(pool, tx, i, c) || HasInput(pool, c, o);
        if o in mapNextTx {
          var conflict := mapNextTx[o].hash;
          assert HasInput(pool, conflict, o) && conflict in mapTx;
          if conflict != tx.hash {
            ClosedGrows(pool, rank, gone, conflict);
            AcyclicFewer(pool, gone, rank);
            assert Conflicts(pool, tx, |tx.vin|, conflict);
            ghost var more := Descendants(mapTx, rank, conflict);
            Remove(mapTx[conflict], true, rank);
            gone := gone + more;
          }
        }
      }
      ConflictsGone(pool, rank, gone, tx);
    }

    /** Whether accept takes tx.  The flags stand for the tests on lock times, standard forms and the
        rate of free transactions. */
    ghost predicate Acceptable(rules: ScriptRules, s: Sources, recentBlocks: seq<(nat, nat)>, tx: Transaction,
                               fCheckInputs: bool, fStandard: bool, fRateOk: bool)
      reads this
    {
      && TransactionOk(tx) && !tx.IsCoinBase() && !tx.IsCoinStake() && fStandard
      && tx.hash !in mapTx && (forall i :: 0 <= i < |tx.vin| ==> tx.vin[i].prevout !in mapNextTx)
      && (fCheckInputs ==> tx.hash !in s.db && fRateOk && InputsAccepted(rules, s, recentBlocks, tx))
    }

    method Accept(rules: ScriptRules, db: Index, disk: map<DiskTxPos, Transaction>, recentBlocks: seq<(nat, nat)>,
                  tx: Transaction, fCheckInputs: bool, fStandard: bool, fRateOk: bool)
      returns (ok: bool, fMissingInputs: bool)
      requires Valid()
      modifies this
      ensures Valid()
      ensures ok <==> old(Acceptable(rules, Sources(db, disk, mapTx), recentBlocks, tx, fCheckInputs, fStandard,
        fRateOk))
      ensures ok && fCheckInputs ==> RightfulInPool(rules, Sources(db, disk, old(mapTx)), tx)
      ensures mapTx == if ok then old(mapTx)[tx.hash := tx] else old(mapTx)
      ensures fMissingInputs ==> !ok && !InputsResolve(Sources(db, disk, mapTx), map[], false, tx.vin, |tx.vin|)
    {
      hide Connectable, InputsResolve, AllInRange, Fetched, Agree, RightfulInPool;
      ok, fMissingInputs := false, false;
      var fChecked := CheckTransaction(tx);
      if !fChecked { return; }
      if tx.IsCoinBase() { return; }
      if tx.IsCoinStake() { return; }
      if !fStandard { return; }
      if tx.hash in mapTx { return; }
      if fCheckInputs && tx.hash in db { return; }
      for i := 0 to |tx.vin|
        invariant forall j :: 0 <= j < i ==> tx.vin[j].prevout !in mapNextTx
      {
        if tx.vin[i].prevout in mapNextTx { return; }
      }
      if fCheckInputs {
        ok, fMissingInputs := CheckPoolInputs(rules, Sources(db, disk, mapTx), recentBlocks, tx);
        if !ok || !fRateOk { return false, fMissingInputs; }
      }
      assert DistinctInputs(tx.vin, |tx.vin|);
      AddUnchecked(tx.hash, tx);
      return true, false;
    }
  }

  /** The inputs are there, worth the fee, and can be spent: what the tests with fCheckInputs demand. */
  ghost predicate InputsAccepted(rules: ScriptRules, s: Sources, recentBlocks: seq<(nat, nat)>, tx: Transaction) {
    && InputsResolve(s, map[], false, tx.vin, |tx.vin|)
    && forall inputs :: Fetched(s, map[], false, tx.vin, |tx.vin|, inputs) ==>
      && AllInRange(tx.vin, |tx.vin|, inputs)
      && GetValueIn(tx, inputs) - tx.GetValueOut() >= GetMinFee(tx, 1000, GMF_RELAY, tx.nSize)
      && Connectable(rules, tx, inputs, recentBlocks, false)
  }

  /** What the outputs of a pool transaction's parent are looked up in: the connected transaction, or
      else the one in the pool. */
  ghost function Claimed(s: Sources, h: Hash): Option<Transaction> {
    if h in s.db && s.db[h].pos != MEMPOOL_POS then
      if s.db[h].pos in s.disk then Some(s.disk[s.db[h].pos]) else None
    else if h in s.mempool then Some(s.mempool[h])
    else None
  }

  /** What the first k inputs are worth. */
  ghost function ClaimedValue(s: Sources, vin: seq<TxIn>, k: nat): int
    requires k <= |vin|
  {
    if k == 0 then 0
    else
      var (o, prev) := (vin[k - 1].prevout, Claimed(s, vin[k - 1].prevout.hash));
      ClaimedValue(s, vin, k - 1) +
      if prev.Some? && o.n < |prev.value.vout| then prev.value.vout[o.n].nValue else 0
  }

  /** Every input claims an output that exists, is not newer than tx and may be spent by it, and tx
      leaves at least the fee for relaying its size. */
  ghost predicate RightfulInPool(rules: ScriptRules, s: Sources, tx: Transaction) {
    && (forall i :: 0 <= i < |tx.vin| ==>
          && Claimed(s, tx.vin[i].prevout.hash).Some?
          && Rightful(rules, tx, i, Claimed(s, tx.vin[i].prevout.hash).value, false))
    && (tx.nSize <= 1_000_000 ==>
          ClaimedValue(s, tx.vin, |tx.vin|) - SumOut(tx.vout, |tx.vout|) >= (1 + tx.nSize / 1000) * 10_000)
  }

  lemma {:induction false} ClaimedIsFetched(s: Sources, vin: seq<TxIn>, k: nat, inputs: PrevTxs)
    requires k <= |vin| && Fetched(s, map[], false, vin, |vin|, inputs)
    ensures forall h :: h in inputs ==> Claimed(s, h) == Some(inputs[h].1)
    ensures ClaimedValue(s, vin, k) == SumIn(vin, k, inputs)
  {
    if k > 0 {
      ClaimedIsFetched(s, vin, k - 1, inputs);
      assert RefersTo(vin, |vin|, vin[k - 1].prevout.hash);
    }
  }

  lemma {:induction false} AcceptedIsRightful(rules: ScriptRules, s: Sources, recentBlocks: seq<(nat, nat)>,
                                              tx: Transaction, inputs: PrevTxs)
    requires !tx.IsCoinBase() && Fetched(s, map[], false, tx.vin, |tx.vin|, inputs)
    requires GetValueIn(tx, inputs) - tx.GetValueOut() >= GetMinFee(tx, 1000, GMF_RELAY, tx.nSize)
    requires Connectable(rules, tx, inputs, recentBlocks, false)
    ensures RightfulInPool(rules, s, tx)
  {
    ConnectableIsRightful(rules, tx, inputs, recentBlocks, false);
    ClaimedIsFetched(s, tx.vin, |tx.vin|, inputs);
    hide Connectable, Fetched, Rightful;
    if tx.nSize <= 1_000_000 { RelayFee(tx, tx.nSize); }
    hide GetMinFee;
  }

  lemma {:induction false} FetchedOnce(s: Sources, vin: seq<TxIn>, a: PrevTxs, b: PrevTxs)
    requires Fetched(s, map[], false, vin, |vin|, a) && Fetched(s, map[], false, vin, |vin|, b)
    ensures a == b
  {
    assert forall h :: h in a <==> h in b;
    forall h | h in a ensures a[h] == b[h] { assert Some(a[h]) == Some(b[h]); }
  }

  method CheckPoolInputs(rules: ScriptRules, s: Sources, recentBlocks: seq<(nat, nat)>, tx: Transaction)
    returns (ok: bool, fMissingInputs: bool)
    requires !tx.IsCoinBase()
    ensures ok <==> InputsAccepted(rules, s, recentBlocks, tx)
    ensures ok ==> RightfulInPool(rules, s, tx)
    ensures fMissingInputs ==> !ok && !InputsResolve(s, map[], false, tx.vin, |tx.vin|)
  {
    hide Connectable, InputsResolve, Fetched;
    ok, fMissingInputs := false, false;
    var inputs, fInvalid;
    ok, inputs, fInvalid := FetchInputs(s, tx, map[], false, false);
    if InputsResolve(s, map[], false, tx.vin, |tx.vin|) {
      forall other | Fetched(s, map[], false, tx.vin, |tx.vin|, other)
        ensures other == inputs
      {
        FetchedOnce(s, tx.vin, other, inputs);
      }
    }
    if !ok {
      return false, !fInvalid;
    }
    assert forall i :: 0 <= i < |tx.vin| ==> tx.vin[i].prevout.hash in inputs;
    var nFees := GetValueIn(tx, inputs) - tx.GetValueOut();
    if nFees < GetMinFee(tx, 1000, GMF_RELAY, tx.nSize) { return false, false; }
    var testPool;
    ok, testPool := ConnectInputs(rules, tx, inputs, map[], s.db, MEMPOOL_POS, recentBlocks, false, false, false);
    if ok { AcceptedIsRightful(rules, s, recentBlocks, tx, inputs); }
  }

  /** c is another transaction that spends one of the first k inputs of tx. */
  ghost predicate Conflicts(pool: Pool, tx: Transaction, k: nat, c: Hash)
    requires k <= |tx.vin|
  {
    c != tx.hash && exists j :: 0 <= j < k && HasInput(pool, c, tx.vin[j].prevout)
  }

  /** The conflicting transactions and what depends on them. */
  ghost function Conflicting(pool: Pool, rank: Hash -> nat, tx: Transaction): set<Hash> {
    set d | d in pool && exists c :: Conflicts(pool, tx, |tx.vin|, c) && Desc(pool, rank, d, c)
  }

  lemma {:induction false} ConflictsGone(pool: Pool, rank: Hash -> nat, gone: set<Hash>, tx: Transaction)
    requires Closed(pool, gone) && (forall c :: Conflicts(pool, tx, |tx.vin|, c) ==> c in gone)
    requires forall d :: d in gone ==> d in pool && exists c ::
      Conflicts(pool, tx, |tx.vin|, c) && Desc(pool, rank, d, c)
    ensures gone == Conflicting(pool, rank, tx)
    ensures forall c :: !Conflicts(pool - gone, tx, |tx.vin|, c)
  {
    forall d | d in Conflicting(pool, rank, tx) ensures d in gone {
      var c :| Conflicts(pool, tx, |tx.vin|, c) && Desc(pool, rank, d, c);
      ClosedDesc(pool, rank, gone, d, c);
    }
    forall c ensures !Conflicts(pool - gone, tx, |tx.vin|, c) {
      assert Conflicts(pool - gone, tx, |tx.vin|, c) ==> Conflicts(pool, tx, |tx.vin|, c) && c !in gone;
    }
  }

  ghost predicate HasInput(pool: Pool, c: Hash, o: OutPoint) {
    c in pool && exists i :: 0 <= i < |pool[c].vin| && pool[c].vin[i].prevout == o
  }

  lemma {:induction false} SpenderOf(pool: Pool, nexts: Nexts, o: OutPoint)
    requires Agree(pool, nexts)
    ensures o in nexts ==> HasInput(pool, nexts[o].hash, o) && pool[nexts[o].hash].hash == nexts[o].hash
    ensures forall c :: HasInput(pool, c, o) ==> o in nexts && c == nexts[o].hash
  {
    if o in nexts { assert SpendsAt(pool, nexts[o], o) && InputsPoint(pool, nexts, nexts[o].hash); }
    forall c | HasInput(pool, c, o) ensures o in nexts && c == nexts[o].hash { assert InputsPoint(pool, nexts, c); }
  }

  lemma {:induction false} ChildThrough(pool: Pool, rank: Hash -> nat, c: Hash, tx: Transaction, n: nat)
    requires Acyclic(pool, rank) && tx.hash in pool && pool[tx.hash] == tx && n < |tx.vout|
    requires HasInput(pool, c, OutPoint(tx.hash, n))
    ensures ChildOf(pool, c, tx.hash) && rank(c) < rank(tx.hash)
  {
    var i :| 0 <= i < |pool[c].vin| && pool[c].vin[i].prevout == OutPoint(tx.hash, n);
    assert SpendsFrom(pool, pool[c].vin[i].prevout, tx.hash);
  }

  lemma {:induction false} DescThrough(pool: Pool, rank: Hash -> nat, d: Hash, c: Hash, a: Hash)
    requires Desc(pool, rank, d, c) && ChildOf(pool, c, a) && rank(c) < rank(a)
    ensures Desc(pool, rank, d, a) && d != a
  {
    DescInPool(pool, rank, d, c);
  }

  /** A closed set of descendants that holds all children is all but the ancestor itself. */
  lemma {:induction false} AllGone(pool: Pool, rank: Hash -> nat, gone: set<Hash>, a: Hash)
    requires Closed(pool, gone) && a in pool && (forall c :: ChildOf(pool, c, a) ==> c in gone)
    requires forall d :: d in gone ==> d in pool && Desc(pool, rank, d, a)
    ensures gone + {a} == Descendants(pool, rank, a)
  {
    forall d | d in pool && Desc(pool, rank, d, a) && d != a ensures d in gone {
      var c :| ChildOf(pool, c, a) && rank(c) < rank(a) && Desc(pool, rank, d, c);
      ClosedDesc(pool, rank, gone, d, c);
    }
  }

  // ------------------------------------------------------------------------------------------
  // Pools that stay connected
  // ------------------------------------------------------------------------------------------

  /** A hash that cannot be computed before those it covers makes every pool acyclic. */
  lemma {:induction false} AcyclicByHash(pool: Pool, rank: Hash -> nat)
    requires forall h, i :: h in pool && 0 <= i < |pool[h].vin| ==> rank(h) < rank(pool[h].vin[i].prevout.hash)
    ensures Acyclic(pool, rank)
  {
    forall c, a | ChildOf(pool, c, a) ensures rank(c) < rank(a) {
      var i :| 0 <= i < |pool[c].vin| && SpendsFrom(pool, pool[c].vin[i].prevout, a);
      assert pool[c].vin[i].prevout.hash == a;
    }
  }

  /** The transaction whose output an input claims is connected, or in the pool and has that output. */
  predicate InputSupported(pool: Pool, db: Index, o: OutPoint) {
    Indexed(db, o) || (o.hash in pool && o.n < |pool[o.hash].vout|)
  }

  predicate TxSupported(pool: Pool, db: Index, tx: Transaction) {
    forall i :: 0 <= i < |tx.vin| ==> InputSupported(pool, db, tx.vin[i].prevout)
  }

  ghost predicate Supported(pool: Pool, db: Index) { forall h :: h in pool ==> TxSupported(pool, db, pool[h]) }

  lemma {:induction false} AcceptSupported(pool: Pool, rules: ScriptRules, s: Sources, recentBlocks: seq<(nat, nat)>,
                                           tx: Transaction, inputs: PrevTxs)
    requires Supported(pool, s.db) && s.mempool == pool && tx.hash !in pool
    requires InputsAccepted(rules, s, recentBlocks, tx) && Fetched(s, map[], false, tx.vin, |tx.vin|, inputs)
    ensures Supported(pool[tx.hash := tx], s.db)
  {
    var pool' := pool[tx.hash := tx];
    forall h | h in pool' ensures TxSupported(pool', s.db, pool'[h]) {
      forall i | 0 <= i < |pool'[h].vin| ensures InputSupported(pool', s.db, pool'[h].vin[i].prevout) {
        var o := pool'[h].vin[i].prevout;
        if h == tx.hash {
          assert RefersTo(tx.vin, |tx.vin|, o.hash) && InRange(inputs[o.hash], o.n);
          assert Resolve(s, map[], false, o.hash) == Some(inputs[o.hash]);
        } else {
          assert TxSupported(pool, s.db, pool[h]) && InputSupported(pool, s.db, o);
        }
      }
    }
  }

  /** Recursive removal leaves no transaction without its parents. */
  lemma {:induction false} RemoveSupported(pool: Pool, db: Index, rank: Hash -> nat, a: Hash)
    requires Supported(pool, db) && Acyclic(pool, rank)
    ensures Supported(pool - Descendants(pool, rank, a), db)
  {
    var pool' := pool - Descendants(pool, rank, a);
    forall h | h in pool' ensures TxSupported(pool', db, pool'[h]) {
      assert TxSupported(pool, db, pool[h]);
      forall i | 0 <= i < |pool[h].vin| ensures InputSupported(pool', db, pool[h].vin[i].prevout) {
        var o := pool[h].vin[i].prevout;
        assert InputSupported(pool, db, o);
        if !Indexed(db, o) && Desc(pool, rank, o.hash, a) {
          assert SpendsFrom(pool, o, o.hash) && ChildOf(pool, h, o.hash);
          DescChild(pool, rank, h, o.hash, a);
        }
      }
    }
  }

  /** A transaction that was connected can leave the pool alone. */
  lemma {:induction false} ConnectedSupported(pool: Pool, db: Index, db': Index, h: Hash)
    requires Supported(pool, db) && forall o :: Indexed(db, o) ==> Indexed(db', o)
    requires h in pool && h in db' && |db'[h].vSpent| == |pool[h].vout|
    ensures Supported(pool - {h}, db')
  {
    forall k | k in pool - {h} ensures TxSupported(pool - {h}, db', pool[k]) {
      assert TxSupported(pool, db, pool[k]);
      forall i | 0 <= i < |pool[k].vin| ensures InputSupported(pool - {h}, db', pool[k].vin[i].prevout) {
        assert InputSupported(pool, db, pool[k].vin[i].prevout);
      }
    }
  }
}
