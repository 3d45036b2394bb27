/** Blocks as sequences of transactions, their effect on the spent-output index, giving that effect
    back, and the value the index holds (ConnectBlock and DisconnectBlock, src/main.cpp). */
module Ledger {
  import opened Transactions

  /** A transaction together with the place its block gives it on disk. */
  datatype Placed = Placed(tx: Transaction, pos: DiskTxPos)

  /** The index after the first k transactions of ps are applied to v. */
  function View(v: Index, ps: seq<Placed>, k: nat): Index
    requires k <= |ps|
  {
    if k == 0 then v else ApplyTx(View(v, ps, k - 1), ps[k - 1].tx, ps[k - 1].pos)
  }

  function Ids(ps: seq<Placed>): set<Hash> { set i | 0 <= i < |ps| :: ps[i].tx.hash }

  /** The ids of the transactions from k on. */
  function IdsFrom(ps: seq<Placed>, k: nat): set<Hash>
    requires k <= |ps|
  {
    set i | k <= i < |ps| :: ps[i].tx.hash
  }

  predicate DistinctIds(ps: seq<Placed>) {
    forall i, j :: 0 <= i < j < |ps| ==> ps[i].tx.hash != ps[j].tx.hash
  }

  /** Transaction k takes only outputs that are unspent when its turn comes. */
  predicate Takes(v: Index, ps: seq<Placed>, k: nat)
    requires k < |ps|
  {
    ps[k].pos.At? && (ps[k].tx.IsCoinBase() || Spendable(View(v, ps, k), ps[k].tx.vin, |ps[k].tx.vin|))
  }

  /** What connecting a block establishes about its effect: every transaction takes only unspent
      outputs, ids do not repeat inside the block, and an id already indexed is fully spent. */
  predicate Sound(v: Index, ps: seq<Placed>) {
    && DistinctIds(ps)
    && (forall k :: 0 <= k < |ps| ==> Takes(v, ps, k))
    && (forall k :: 0 <= k < |ps| ==> FullySpent(v, ps[k].tx.hash))
  }

  // ------------------------------------------------------------------------------------------
  // Disconnecting undoes connecting
  // ------------------------------------------------------------------------------------------

  /** The index after transactions |ps|-1, ..., k are disconnected from v, in that order; None if
      one of them has an input without an index entry. */
  function Undo(v: Index, ps: seq<Placed>, k: nat): Option<Index>
    requires k <= |ps|
    decreases |ps| - k
  {
    if k == |ps| then Some(v)
    else
      match Undo(v, ps, k + 1)
      case None => None
      case Some(w) =>
        if ps[k].tx.IsCoinBase() || AllIndexed(w, ps[k].tx.vin, |ps[k].tx.vin|) then Some(UndoTx(w, ps[k].tx)) else None
  }

  /** Spending keeps a fully spent entry fully spent until its id is created again. */
  lemma {:induction false} FullySpentKept(v: Index, ps: seq<Placed>, k: nat, h: Hash)
    requires k <= |ps| && FullySpent(v, h)
    requires forall i :: 0 <= i < k ==> ps[i].pos.At? && ps[i].tx.hash != h
    ensures FullySpent(View(v, ps, k), h)
  {
    if k > 0 {
      FullySpentKept(v, ps, k - 1, h);
      var w, tx := View(v, ps, k - 1), ps[k - 1].tx;
      if h in w && !tx.IsCoinBase() { MarkAllAt(w, tx.vin, |tx.vin|, ps[k - 1].pos, h); }
    }
  }

  lemma {:induction false} LaterIdsFullySpent(v: Index, ps: seq<Placed>, k: nat, j: nat)
    requires k <= j < |ps| && Sound(v, ps)
    ensures FullySpent(View(v, ps, k), ps[j].tx.hash)
    ensures forall o :: Unspent(View(v, ps, k), o) ==> o.hash != ps[j].tx.hash
  {
    forall i | 0 <= i < k ensures ps[i].pos.At? && ps[i].tx.hash != ps[j].tx.hash {
      assert Takes(v, ps, i);
    }
    FullySpentKept(v, ps, k, ps[j].tx.hash);
  }

  /** Giving back transaction k, once those after it are gone. */
  lemma {:induction false} UndoStep(v: Index, ps: seq<Placed>, k: nat)
    requires k < |ps| && Sound(v, ps)
    ensures var w := View(v, ps, k + 1) - IdsFrom(ps, k + 1);
      && (ps[k].tx.IsCoinBase() || AllIndexed(w, ps[k].tx.vin, |ps[k].tx.vin|))
      && UndoTx(w, ps[k].tx) == View(v, ps, k) - IdsFrom(ps, k)
  {
    hide ApplyTx, UndoTx, FullySpent;
    var w, tx, gone := View(v, ps, k), ps[k].tx, IdsFrom(ps, k + 1);
    assert Takes(v, ps, k);
    LaterIdsFullySpent(v, ps, k, k);
    if !tx.IsCoinBase() {
      forall i, j | 0 <= i < |tx.vin| && k < j < |ps| ensures tx.vin[i].prevout.hash != ps[j].tx.hash {
        LaterIdsFullySpent(v, ps, k, j);
      }
    }
    UndoTxInvertsApplyTx(w, tx, ps[k].pos, gone);
    assert gone + {tx.hash} == IdsFrom(ps, k);
    assert w - gone - {tx.hash} == w - IdsFrom(ps, k);
  }

  lemma {:induction false} UndoInverts(v: Index, ps: seq<Placed>, k: nat)
    requires k <= |ps| && Sound(v, ps)
    ensures Undo(View(v, ps, |ps|), ps, k) == Some(View(v, ps, k) - IdsFrom(ps, k))
    decreases |ps| - k
  {
    hide View, UndoTx, Sound;
    if k == |ps| {
      assert View(v, ps, k) - IdsFrom(ps, k) == View(v, ps, k);
    } else {
      UndoInverts(v, ps, k + 1);
      UndoStep(v, ps, k);
    }
  }

  /** Disconnecting a connected block always succeeds and returns the index from before it, without
      the entries of ids the block used itself.  If those ids were new the old index is back
      exactly; in any case the outputs that can be spent are the same as before. */
  lemma {:induction false} DisconnectUndoesConnect(v: Index, ps: seq<Placed>)
    requires Sound(v, ps)
    ensures Undo(View(v, ps, |ps|), ps, 0) == Some(v - Ids(ps))
    ensures Ids(ps) !! v.Keys ==> v - Ids(ps) == v
    ensures UnspentOutputs(v - Ids(ps)) == UnspentOutputs(v)
  {
    UndoInverts(v, ps, 0);
    assert IdsFrom(ps, 0) == Ids(ps);
    forall o, k | Unspent(v, o) && 0 <= k < |ps| ensures o.hash != ps[k].tx.hash {
      assert FullySpent(v, ps[k].tx.hash);
    }
  }

  // ------------------------------------------------------------------------------------------
  // No transaction id repeats along a branch
  // ------------------------------------------------------------------------------------------

  /** Every transaction of a whole history takes only unspent outputs. */
  predicate History(es: seq<Placed>) { forall k :: 0 <= k < |es| ==> Takes(map[], es, k) }

  predicate DistinctUpTo(es: seq<Placed>, k: nat)
    requires k <= |es|
  {
    forall i, j :: 0 <= i < j < k ==> es[i].tx.hash != es[j].tx.hash
  }

  lemma {:induction false} ViewKeys(es: seq<Placed>, k: nat, h: Hash)
    requires k <= |es| && h in View(map[], es, k)
    ensures exists i :: 0 <= i < k && es[i].tx.hash == h
  {
    if k > 0 && h != es[k - 1].tx.hash {
      ViewKeys(es, k - 1, h);
      var i :| 0 <= i < k - 1 && es[i].tx.hash == h;
      assert 0 <= i < k && es[i].tx.hash == h;
    }
  }

  /** An output, once taken, stays taken for as long as ids do not repeat. */
  lemma {:induction false} StaysSpent(es: seq<Placed>, a: nat, m: nat, i: nat)
    requires History(es) && a < m <= |es| && DistinctUpTo(es, m)
    requires !es[a].tx.IsCoinBase() && i < |es[a].tx.vin|
    ensures !Unspent(View(map[], es, m), es[a].tx.vin[i].prevout)
    decreases m
  {
    var o, v, tx := es[a].tx.vin[i].prevout, View(map[], es, m - 1), es[m - 1].tx;
    assert Takes(map[], es, a);
    assert Unspent(View(map[], es, a), o);
    ViewKeys(es, a, o.hash);
    assert tx.hash != o.hash;
    if a < m - 1 { StaysSpent(es, a, m - 1, i); }
    assert Takes(map[], es, m - 1);
    if o.hash in v && !tx.IsCoinBase() {
      MarkAllAt(v, tx.vin, |tx.vin|, es[m - 1].pos, o.hash);
      if a == m - 1 { assert Spends(tx.vin, |tx.vin|, o); }
    }
  }

  /** Equal ids mean equal transactions, and coinbases never repeat. */
  predicate CollisionFree(es: seq<Placed>) {
    forall i, j :: 0 <= i < j < |es| && es[i].tx.hash == es[j].tx.hash ==>
      es[i].tx.vin == es[j].tx.vin && es[i].tx.vout == es[j].tx.vout && !es[i].tx.IsCoinBase()
  }

  /** Along a history without hash collisions in which coinbases are pairwise different, no
      transaction id occurs twice. */
  lemma {:induction false} NoIdRepeats(es: seq<Placed>, k: nat)
    requires k <= |es| && History(es) && CollisionFree(es)
    requires forall i :: 0 <= i < |es| ==> |es[i].tx.vin| > 0
    ensures DistinctUpTo(es, k)
  {
    if k > 0 {
      NoIdRepeats(es, k - 1);
      assert Takes(map[], es, k - 1);
      forall i | 0 <= i < k - 1 ensures es[i].tx.hash != es[k - 1].tx.hash {
        if !es[i].tx.IsCoinBase() { StaysSpent(es, i, k - 1, 0); }
      }
    }
  }
}
