/** Block assembly (CreateNewBlock, src/miner.cpp): a priority queue over the memory pool in which a
    transaction waits for those it spends from, and a test pool in which each one taken is connected. */
module Miner {
  import opened Basics
  import opened Transactions
  import opened MemPool

  /** A transaction that waits (COrphan), and one that is queued (TxPriority). */
  datatype Orphan = Orphan(tx: Transaction, setDependsOn: set<Hash>, dPriority: real, dFeePerKb: real)
  datatype TxPriority = TxPriority(dPriority: real, dFeePerKb: real, tx: Transaction)

  /** What assembly depends on: the pool and the index, the checks that stay opaque, the depth of an
      indexed transaction, the configured limits, and the latest time a transaction may bear. */
  datatype Setting = Setting(rules: ScriptRules, s: Sources, recentBlocks: seq<(nat, nat)>,
                             isFinal: Transaction -> bool, depth: TxIndex -> int, maxSizeArg: nat,
                             prioritySizeArg: nat, minSizeArg: nat, nMinTxFee: real, nTimeLimit: nat)
  {
    function MaxSize(): nat { Max(1000, Min(MAX_BLOCK_SIZE - 1000, maxSizeArg)) }

    function PrioritySize(): nat { Min(MaxSize(), prioritySizeArg) }

    function MinSize(): nat { Min(MaxSize(), minSizeArg) }
  }

  /** The limits in numbers: a configured size is used as it is unless it leaves no room for a kilobyte
      either way, and the other two limits lie within it. */
  lemma {:induction false} LimitsAre(env: Setting)
    ensures 1_000 <= env.MaxSize() <= MAX_BLOCK_SIZE - 1_000
    ensures 1_000 <= env.maxSizeArg <= MAX_BLOCK_SIZE - 1_000 ==> env.MaxSize() == env.maxSizeArg
    ensures env.maxSizeArg < 1_000 ==> env.MaxSize() == 1_000
    ensures env.maxSizeArg > MAX_BLOCK_SIZE - 1_000 ==> env.MaxSize() == MAX_BLOCK_SIZE - 1_000
    ensures env.prioritySizeArg <= env.MaxSize() ==> env.PrioritySize() == env.prioritySizeArg
    ensures env.prioritySizeArg > env.MaxSize() ==> env.PrioritySize() == env.MaxSize()
    ensures env.minSizeArg <= env.MaxSize() ==> env.MinSize() == env.minSizeArg
    ensures env.minSizeArg > env.MaxSize() ==> env.MinSize() == env.MaxSize()
  {
  }

  /** The claimed output can be read from the block files. */
  predicate ReadOk(s: Sources, o: OutPoint) {
    o.hash in s.db && s.db[o.hash].pos in s.disk && o.n < |s.disk[s.db[o.hash].pos].vout|
  }

  /** The pool transactions among the first k inputs' parents that must come first. */
  function DepsUpTo(s: Sources, vin: seq<TxIn>, k: nat): set<Hash>
    requires k <= |vin|
  {
    if k == 0 then {}
    else DepsUpTo(s, vin, k - 1) + if ReadOk(s, vin[k - 1].prevout) then {} else {vin[k - 1].prevout.hash}
  }

  function Deps(s: Sources, tx: Transaction): set<Hash> { DepsUpTo(s, tx.vin, |tx.vin|) }

  lemma {:induction false} DepsAt(s: Sources, vin: seq<TxIn>, k: nat, h: Hash)
    requires k <= |vin|
    ensures h in DepsUpTo(s, vin, k) <==> exists i ::
      0 <= i < k && !ReadOk(s, vin[i].prevout) && vin[i].prevout.hash == h
  {
    if k > 0 { DepsAt(s, vin, k - 1, h); }
  }

  /** The transactions that may be considered at all. */
  predicate Eligible(env: Setting, h: Hash) {
    && h in env.s.mempool
    && !env.s.mempool[h].IsCoinBase() && !env.s.mempool[h].IsCoinStake() && env.isFinal(env.s.mempool[h])
  }

  /** Every parent can be read or is in the pool, where transactions bear their own hash. */
  ghost predicate PoolClosed(s: Sources) {
    forall h :: h in s.mempool ==> s.mempool[h].hash == h && ParentsThere(s, s.mempool[h])
  }

  predicate ParentsThere(s: Sources, tx: Transaction) {
    forall i :: 0 <= i < |tx.vin| ==>
      (ReadOk(s, tx.vin[i].prevout) ||
        (tx.vin[i].prevout.hash in s.mempool && tx.vin[i].prevout.n < |s.mempool[tx.vin[i].prevout.hash].vout|))
  }

  // ------------------------------------------------------------------------------------------
  // Sorting the pool into queued and waiting
  // ------------------------------------------------------------------------------------------

  type Dependers = map<Hash, seq<nat>>

  predicate Waits(m: Dependers, h: Hash, k: nat) { h in m && k in m[h] }

  method AddDepender(m: Dependers, h: Hash, k: nat) returns (m': Dependers)
    ensures forall g: Hash, j: nat :: Waits(m', g, j) <==> Waits(m, g, j) || (g == h && j == k)
  {
    m' := m[h := (if h in m then m[h] else []) + [k]];
    forall g: Hash, j: nat ensures Waits(m', g, j) <==> Waits(m, g, j) || (g == h && j == k) {
      if g == h { assert j in m'[h] <==> (h in m && j in m[h]) || j == k; }
    }
  }

  /** The value and the value times depth of the first k inputs, as the first pass adds them up. */
  function TotalIn(env: Setting, vin: seq<TxIn>, k: nat): int
    requires k <= |vin|
  {
    if k == 0 then 0
    else
      var o := vin[k - 1].prevout;
      TotalIn(env, vin, k - 1) +
      if ReadOk(env.s, o) then env.s.disk[env.s.db[o.hash].pos].vout[o.n].nValue
        else ValueOf(env.s.mempool, o.hash, o.n)
  }

  function ValueAge(env: Setting, vin: seq<TxIn>, k: nat): real
    requires k <= |vin|
  {
    if k == 0 then 0.0
    else
      var o := vin[k - 1].prevout;
      ValueAge(env, vin, k - 1) +
      if ReadOk(env.s, o) then
        env.s.disk[env.s.db[o.hash].pos].vout[o.n].nValue as real * env.depth(env.s.db[o.hash]) as real
      else 0.0
  }

  function ValueOf(txs: map<Hash, Transaction>, h: Hash, n: nat): int {
    if h in txs && n < |txs[h].vout| then txs[h].vout[n].nValue else 0
  }

  function Priority(env: Setting, tx: Transaction): real { ValueAge(env, tx.vin, |tx.vin|) / tx.nSize as real }

  function FeePerKb(env: Setting, tx: Transaction): real {
    (TotalIn(env, tx.vin, |tx.vin|) - tx.GetValueOut()) as real / (tx.nSize as real / 1000.0)
  }

  /** The inputs of one transaction: what it waits for, its value and its priority. */
  method ScanInputs(env: Setting, tx: Transaction, k: nat, dependers: Dependers)
    returns (setDependsOn: set<Hash>, m: Dependers, dPriority: real, nTotalIn: int)
    requires ParentsThere(env.s, tx)
    ensures setDependsOn == Deps(env.s, tx)
    ensures dPriority == ValueAge(env, tx.vin, |tx.vin|) && nTotalIn == TotalIn(env, tx.vin, |tx.vin|)
    ensures forall g: Hash, j: nat :: Waits(m, g, j) <==> Waits(dependers, g, j) || (g in setDependsOn && j == k)
  {
    hide Waits;
    setDependsOn, m, dPriority, nTotalIn := {}, dependers, 0.0, 0;
    for i := 0 to |tx.vin|
      invariant setDependsOn == DepsUpTo(env.s, tx.vin, i)
      invariant dPriority == ValueAge(env, tx.vin, i) && nTotalIn == TotalIn(env, tx.vin, i)
      invariant forall g: Hash, j: nat :: Waits(m, g, j) <==> Waits(dependers, g, j) || (g in setDependsOn && j == k)
    {
      var o := tx.vin[i].prevout;
      if o.hash in env.s.db && env.s.db[o.hash].pos in env.s.disk && o.n < |env.s.disk[env.s.db[o.hash].pos].vout| {
        var txindex := env.s.db[o.hash];
        var nValueIn := env.s.disk[txindex.pos].vout[o.n].nValue;
        nTotalIn := nTotalIn + nValueIn;
        dPriority := dPriority + nValueIn as real * env.depth(txindex) as real;
      } else {
        m := AddDepender(m, o.hash, k);
        setDependsOn := setDependsOn + {o.hash};
        nTotalIn := nTotalIn + env.s.mempool[o.hash].vout[o.n].nValue;
      }
    }
  }

  predicate DistinctHashes(queue: seq<TxPriority>) {
    forall i, j :: 0 <= i < j < |queue| ==> queue[i].tx.hash != queue[j].tx.hash
  }

  predicate InQueue(queue: seq<TxPriority>, h: Hash) { exists i :: 0 <= i < |queue| && queue[i].tx.hash == h }

  function Hashes(vtx: seq<Transaction>): set<Hash> { set i | 0 <= i < |vtx| :: vtx[i].hash }

  /** Every waiting transaction is listed under each parent it waits for, and waits for exactly those
      not yet taken. */
  ghost predicate OrphansOk(env: Setting, orphans: seq<Orphan>, dependers: Dependers, taken: set<Hash>) {
    && (forall k :: 0 <= k < |orphans| ==> OrphanOk(env, orphans[k], taken))
    && (forall i, j :: 0 <= i < j < |orphans| ==> orphans[i].tx.hash != orphans[j].tx.hash)
    && (forall h: Hash, k: nat :: Waits(dependers, h, k) ==> k < |orphans|)
    && (forall h: Hash, k: nat :: k < |orphans| ==> (Waits(dependers, h, k) <==> h in Deps(env.s, orphans[k].tx)))
  }

  predicate OrphanOk(env: Setting, orphan: Orphan, taken: set<Hash>) {
    && Eligible(env, orphan.tx.hash) && orphan.tx == env.s.mempool[orphan.tx.hash]
    && Deps(env.s, orphan.tx) != {} && orphan.setDependsOn == Deps(env.s, orphan.tx) - taken
    && orphan.dPriority == Priority(env, orphan.tx) && orphan.dFeePerKb == FeePerKb(env, orphan.tx)
  }

  /** A queued transaction's parents have been taken. */
  predicate QueuedOk(env: Setting, tx: Transaction, taken: set<Hash>) {
    Eligible(env, tx.hash) && tx == env.s.mempool[tx.hash] && Deps(env.s, tx) <= taken
  }

  predicate Rated(env: Setting, q: TxPriority)
  {
    q.dPriority == Priority(env, q.tx) && q.dFeePerKb == FeePerKb(env, q.tx)
  }

  ghost predicate QueueOk(env: Setting, queue: seq<TxPriority>, taken: set<Hash>) {
    DistinctHashes(queue) && forall i :: 0 <= i < |queue| ==> QueuedOk(env, queue[i].tx, taken) && Rated(env, queue[i])
  }

  predicate Waiting(orphans: seq<Orphan>, h: Hash) { exists k :: 0 <= k < |orphans| && orphans[k].tx.hash == h }

  /** A transaction that may be considered, and whose parents have been taken. */
  predicate Ready(env: Setting, taken: set<Hash>, h: Hash)
  {
    Eligible(env, h) && Deps(env.s, env.s.mempool[h]) <= taken
  }

  /** The pool transactions in done have been queued or set waiting. */
  ghost predicate Sorted(env: Setting, done: set<Hash>, queue: seq<TxPriority>, orphans: seq<Orphan>,
                         dependers: Dependers) {
    && QueueOk(env, queue, {}) && OrphansOk(env, orphans, dependers, {})
    && (forall h :: InQueue(queue, h) <==> h in done && Ready(env, {}, h))
    && (forall h :: Waiting(orphans, h) <==> h in done && Eligible(env, h) && Deps(env.s, env.s.mempool[h]) != {})
  }

  lemma {:induction false} SortedNext(env: Setting, done: set<Hash>, hash: Hash, queue0: seq<TxPriority>,
                                      orphans0: seq<Orphan>, dependers0: Dependers, queue: seq<TxPriority>,
                                      orphans: seq<Orphan>, dependers: Dependers)
    requires Sorted(env, done, queue0, orphans0, dependers0) && hash !in done
    requires QueueOk(env, queue, {}) && OrphansOk(env, orphans, dependers, {})
    requires forall h :: InQueue(queue, h) <==> InQueue(queue0, h) || (h == hash && Ready(env, {}, h))
    requires forall h :: Waiting(orphans, h) <==>
      Waiting(orphans0, h) || (h == hash && Eligible(env, h) && Deps(env.s, env.s.mempool[h]) != {})
    ensures Sorted(env, done + {hash}, queue, orphans, dependers)
  {
    hide QueueOk, OrphansOk, InQueue, Waiting, Ready, Deps, Eligible;
  }

  /** The first pass: whoever can go first is queued, the others wait. */
  method SortPool(env: Setting) returns (queue: seq<TxPriority>, orphans: seq<Orphan>, dependers: Dependers)
    requires PoolClosed(env.s)
    ensures QueueOk(env, queue, {}) && OrphansOk(env, orphans, dependers, {})
    ensures forall h :: InQueue(queue, h) <==> Ready(env, {}, h)
    ensures forall h :: Eligible(env, h) && Deps(env.s, env.s.mempool[h]) != {} ==> Waiting(orphans, h)
  {
    hide PoolClosed, Sorted, Deps, OrphansOk, QueueOk, InQueue, Waiting, Ready, Eligible;
    queue, orphans, dependers := [], [], map[];
    NothingSorted(env);
    var todo := env.s.mempool.Keys;
    ghost var done: set<Hash> := {};
    while todo != {}
      invariant todo <= env.s.mempool.Keys && done == env.s.mempool.Keys - todo
      invariant Sorted(env, done, queue, orphans, dependers)
      decreases |todo|
    {
      var hash := Pick(todo);
      ghost var (queue0, orphans0, dependers0) := (queue, orphans, dependers);
      SortedNot(env, done, queue, orphans, dependers, hash);
      queue, orphans, dependers := SortOne(env, hash, queue, orphans, dependers);
      SortedNext(env, done, hash, queue0, orphans0, dependers0, queue, orphans, dependers);
      todo := todo - {hash};
      done := done + {hash};
    }
    AllSorted(env, done, queue, orphans, dependers);
  }

  lemma {:induction false} NothingSorted(env: Setting)
    ensures Sorted(env, {}, [], [], map[])
  {
  }

  lemma {:induction false} SortedNot(env: Setting, done: set<Hash>, queue: seq<TxPriority>, orphans: seq<Orphan>,
                                     dependers: Dependers, h: Hash)
    requires Sorted(env, done, queue, orphans, dependers) && h !in done
    ensures !InQueue(queue, h) && !Waiting(orphans, h) && QueueOk(env, queue, {})
    ensures OrphansOk(env, orphans, dependers, {})
  {
    hide QueueOk, OrphansOk, InQueue, Waiting;
  }

  lemma {:induction false} AllSorted(env: Setting, done: set<Hash>, queue: seq<TxPriority>, orphans: seq<Orphan>,
                                     dependers: Dependers)
    requires Sorted(env, done, queue, orphans, dependers) && done == env.s.mempool.Keys
    ensures QueueOk(env, queue, {}) && OrphansOk(env, orphans, dependers, {})
    ensures forall h :: InQueue(queue, h) <==> Ready(env, {}, h)
    ensures forall h :: Eligible(env, h) && Deps(env.s, env.s.mempool[h]) != {} ==> Waiting(orphans, h)
  {
    hide QueueOk, OrphansOk, InQueue, Waiting, Deps;
  }

  method SortOne(env: Setting, hash: Hash, queue0: seq<TxPriority>, orphans0: seq<Orphan>, dependers0: Dependers)
    returns (queue: seq<TxPriority>, orphans: seq<Orphan>, dependers: Dependers)
    requires PoolClosed(env.s) && hash in env.s.mempool
    requires QueueOk(env, queue0, {}) && OrphansOk(env, orphans0, dependers0, {})
    requires !InQueue(queue0, hash) && !Waiting(orphans0, hash)
    ensures QueueOk(env, queue, {}) && OrphansOk(env, orphans, dependers, {})
    ensures forall h :: InQueue(queue, h) <==> InQueue(queue0, h) || (h == hash && Ready(env, {}, h))
    ensures forall h :: Waiting(orphans, h) <==>
      Waiting(orphans0, h) || (h == hash && Eligible(env, h) && Deps(env.s, env.s.mempool[h]) != {})
  {
    hide Deps, Waits;
    queue, orphans, dependers := queue0, orphans0, dependers0;
    var tx := env.s.mempool[hash];
    if tx.IsCoinBase() || tx.IsCoinStake() || !env.isFinal(tx) { return; }
    assert tx.hash == hash && ParentsThere(env.s, tx);
    var setDependsOn, m, dPriority, nTotalIn := ScanInputs(env, tx, |orphans|, dependers);
    dPriority := dPriority / tx.nSize as real;
    var dFeePerKb := (nTotalIn - tx.GetValueOut()) as real / (tx.nSize as real / 1000.0);
    if setDependsOn != {} {
      orphans := orphans + [Orphan(tx, setDependsOn, dPriority, dFeePerKb)];
      dependers := m;
      AppendOrphan(env, orphans0, dependers0, m, orphans[|orphans0|]);
    } else {
      queue := queue + [TxPriority(dPriority, dFeePerKb, tx)];
      AppendQueued(env, queue0, {}, queue[|queue0|]);
      assert forall h: Hash, k: nat :: Waits(m, h, k) <==> Waits(dependers, h, k);
    }
  }

  lemma {:induction false} AppendOrphan(env: Setting, orphans: seq<Orphan>, dependers: Dependers, m: Dependers,
                                        orphan: Orphan)
    requires OrphansOk(env, orphans, dependers, {}) && OrphanOk(env, orphan, {}) && !Waiting(orphans, orphan.tx.hash)
    requires forall g: Hash, j: nat :: Waits(m, g, j) <==>
      Waits(dependers, g, j) || (g in orphan.setDependsOn && j == |orphans|)
    ensures OrphansOk(env, orphans + [orphan], m, {})
    ensures forall h :: Waiting(orphans + [orphan], h) <==> Waiting(orphans, h) || h == orphan.tx.hash
  {
    hide Deps, Waits;
    var orphans' := orphans + [orphan];
    forall h ensures Waiting(orphans', h) <==> Waiting(orphans, h) || h == orphan.tx.hash {
      if Waiting(orphans, h) {
        var k :| 0 <= k < |orphans| && orphans[k].tx.hash == h;
        assert orphans'[k].tx.hash == h;
      }
      assert orphans'[|orphans|].tx.hash == orphan.tx.hash;
    }
    forall h: Hash, k: nat | k < |orphans'| ensures Waits(m, h, k) <==> h in Deps(env.s, orphans'[k].tx) {
      if k < |orphans| { assert Waits(dependers, h, k) <==> h in Deps(env.s, orphans[k].tx); }
    }
  }

  lemma {:induction false} AppendQueued(env: Setting, queue: seq<TxPriority>, taken: set<Hash>, q: TxPriority)
    requires QueueOk(env, queue, taken) && QueuedOk(env, q.tx, taken) && Rated(env, q) && !InQueue(queue, q.tx.hash)
    ensures QueueOk(env, queue + [q], taken)
    ensures forall h :: InQueue(queue + [q], h) <==> InQueue(queue, h) || h == q.tx.hash
  {
    hide Deps;
    var queue' := queue + [q];
    forall h ensures InQueue(queue', h) <==> InQueue(queue, h) || h == q.tx.hash {
      if InQueue(queue, h) {
        var k :| 0 <= k < |queue| && queue[k].tx.hash == h;
        assert queue'[k].tx.hash == h;
      }
      assert queue'[|queue|].tx.hash == q.tx.hash;
    }
  }

  // ------------------------------------------------------------------------------------------
  // The priority queue
  // ------------------------------------------------------------------------------------------

  /** TxPriorityCompare. */
  predicate Below(fByFee: bool, a: TxPriority, b: TxPriority) {
    if fByFee then
      if a.dFeePerKb == b.dFeePerKb then a.dPriority < b.dPriority else a.dFeePerKb < b.dFeePerKb
    else if a.dPriority == b.dPriority then a.dFeePerKb < b.dFeePerKb else a.dPriority < b.dPriority
  }

  /** pop_heap: takes out an entry that no other is above. */
  method PopBest(queue: seq<TxPriority>, fByFee: bool) returns (best: TxPriority, rest: seq<TxPriority>)
    requires queue != [] && DistinctHashes(queue)
    ensures best in queue
    ensures fByFee ==> forall q :: q in queue ==>
      best.dFeePerKb > q.dFeePerKb || (best.dFeePerKb == q.dFeePerKb && best.dPriority >= q.dPriority)
    ensures !fByFee ==> forall q :: q in queue ==>
      best.dPriority > q.dPriority || (best.dPriority == q.dPriority && best.dFeePerKb >= q.dFeePerKb)
    ensures |rest| == |queue| - 1 && DistinctHashes(rest) && (forall q :: q in rest <==> q in queue && q != best)
    ensures forall h :: InQueue(rest, h) <==> InQueue(queue, h) && h != best.tx.hash
  {
    var b := 0;
    for i := 1 to |queue|
      invariant b < |queue| && forall j :: 0 <= j < i ==> !Below(fByFee, queue[b], queue[j])
    {
      if Below(fByFee, queue[b], queue[i]) { b := i; }
    }
    best := queue[b];
    rest := queue[..b] + queue[b + 1..];
    Without(queue, b);
  }

  /** The rates (dPriority, dFeePerKb) of one entry are not above those of another: by fee, then by
      priority, or the other way round. */
  ghost predicate NotAhead(fByFee: bool, priority: real, fee: real, bestPriority: real, bestFee: real) {
    if fByFee then bestFee > fee || (bestFee == fee && bestPriority >= priority)
    else bestPriority > priority || (bestPriority == priority && bestFee >= fee)
  }

  lemma {:induction false} Without(queue: seq<TxPriority>, b: nat)
    requires b < |queue| && DistinctHashes(queue)
    ensures var rest := queue[..b] + queue[b + 1..];
      && DistinctHashes(rest) && (forall q :: q in rest <==> q in queue && q != queue[b])
      && forall h :: InQueue(rest, h) <==> InQueue(queue, h) && h != queue[b].tx.hash
  {
    var rest := queue[..b] + queue[b + 1..];
    RestDistinct(queue, b);
    forall q | q in queue && q != queue[b] ensures q in rest {
      var i :| 0 <= i < |queue| && queue[i] == q;
      RestAt(queue, b, i);
    }
    forall q | q in rest ensures q in queue && q != queue[b] {
      var i :| 0 <= i < |rest| && rest[i] == q;
      assert q == queue[if i < b then i else i + 1];
    }
    forall h | InQueue(queue, h) && h != queue[b].tx.hash ensures InQueue(rest, h) {
      var i :| 0 <= i < |queue| && queue[i].tx.hash == h;
      RestAt(queue, b, i);
      assert rest[if i < b then i else i - 1].tx.hash == h;
    }
    forall h | InQueue(rest, h) ensures InQueue(queue, h) && h != queue[b].tx.hash {
      var i :| 0 <= i < |rest| && rest[i].tx.hash == h;
      assert queue[if i < b then i else i + 1].tx.hash == h;
    }
  }

  lemma {:induction false} RestAt(queue: seq<TxPriority>, b: nat, i: nat)
    requires b < |queue| && i < |queue| && i != b
    ensures var rest := queue[..b] + queue[b + 1..]; rest[if i < b then i else i - 1] == queue[i]
  {
  }

  lemma {:induction false} RestDistinct(queue: seq<TxPriority>, b: nat)
    requires b < |queue| && DistinctHashes(queue)
    ensures DistinctHashes(queue[..b] + queue[b + 1..])
  {
    var rest := queue[..b] + queue[b + 1..];
    forall i, j | 0 <= i < j < |rest| ensures rest[i].tx.hash != rest[j].tx.hash {
      assert rest[i] == queue[if i < b then i else i + 1] && rest[j] == queue[if j < b then j else j + 1];
    }
  }

  // ------------------------------------------------------------------------------------------
  // Releasing those that waited
  // ------------------------------------------------------------------------------------------

  /** One entry of mapDependers[hash]: it waits for one transaction fewer. */
  function Relieved(orphan: Orphan, hash: Hash): Orphan { orphan.(setDependsOn := orphan.setDependsOn - {hash}) }

  /** Among the first j listed, those that waited for hash alone. */
  ghost predicate Freed(orphans: seq<Orphan>, ks: seq<nat>, j: nat, hash: Hash, h: Hash)
    requires j <= |ks| && forall i :: 0 <= i < |ks| ==> ks[i] < |orphans|
  {
    exists i :: 0 <= i < j && orphans[ks[i]].tx.hash == h && orphans[ks[i]].setDependsOn == {hash}
  }

  lemma {:induction false} FreedNext(orphans: seq<Orphan>, ks: seq<nat>, j: nat, hash: Hash, h: Hash)
    requires j < |ks| && forall i :: 0 <= i < |ks| ==> ks[i] < |orphans|
    ensures Freed(orphans, ks, j + 1, hash, h) <==>
            Freed(orphans, ks, j, hash, h) || (orphans[ks[j]].tx.hash == h && orphans[ks[j]].setDependsOn == {hash})
    ensures ks[j] in ks[..j] && orphans[ks[j]].setDependsOn == {hash} ==>
      Freed(orphans, ks, j, hash, orphans[ks[j]].tx.hash)
    ensures
      (&& (forall a, b :: 0 <= a < b < |orphans| ==> orphans[a].tx.hash != orphans[b].tx.hash)
       && ks[j] !in ks[..j]) ==>
      !Freed(orphans, ks, j, hash, orphans[ks[j]].tx.hash)
  {
  }

  /** How many transactions still wait. */
  function StillWaiting(orphans: seq<Orphan>, k: nat): nat
    requires k <= |orphans|
  {
    if k == 0 then 0 else StillWaiting(orphans, k - 1) + if orphans[k - 1].setDependsOn != {} then 1 else 0
  }

  lemma {:induction false} StillWaitingPut(orphans: seq<Orphan>, i: nat, orphan: Orphan, k: nat)
    requires i < |orphans| && k <= |orphans|
    ensures StillWaiting(orphans[i := orphan], k) == StillWaiting(orphans, k) +
      if i < k then (if orphan.setDependsOn != {} then 1 else 0) - (if orphans[i].setDependsOn != {} then 1 else 0)
        else 0
  {
    if k > 0 { StillWaitingPut(orphans, i, orphan, k - 1); }
  }

  /** The transactions queued and those that still wait. */
  function Pending(queue: seq<TxPriority>, orphans: seq<Orphan>): nat { |queue| + StillWaiting(orphans, |orphans|) }

  /** hash has been taken: whoever waited for it waits for one less, and whoever waited for it alone
      is queued. */
  method Release(env: Setting, orphans0: seq<Orphan>, dependers: Dependers, hash: Hash, queue0: seq<TxPriority>,
                 ghost taken: set<Hash>)
    returns (orphans: seq<Orphan>, queue: seq<TxPriority>)
    requires OrphansOk(env, orphans0, dependers, taken) && hash !in taken && QueueOk(env, queue0, taken)
    requires forall h :: InQueue(queue0, h) ==> Ready(env, taken, h)
    ensures OrphansOk(env, orphans, dependers, taken + {hash}) && QueueOk(env, queue, taken + {hash})
    ensures forall h :: Waiting(orphans, h) <==> Waiting(orphans0, h)
    ensures forall h :: InQueue(queue, h) <==>
      InQueue(queue0, h) || (Waiting(orphans0, h) && Ready(env, taken + {hash}, h) && !Ready(env, taken, h))
    ensures Pending(queue, orphans) == Pending(queue0, orphans0)
  {
    hide Deps, Pending;
    orphans, queue := orphans0, queue0;
    assert QueueOk(env, queue, taken + {hash});
    var ks := if hash in dependers then dependers[hash] else [];
    assert forall i :: 0 <= i < |ks| ==> Waits(dependers, hash, ks[i]);
    assert forall h :: !Freed(orphans0, ks, 0, hash, h);
    for j := 0 to |ks|
      invariant |orphans| == |orphans0|
      invariant forall k :: 0 <= k < |orphans| ==>
        orphans[k] == if k in ks[..j] then Relieved(orphans0[k], hash) else orphans0[k]
      invariant QueueOk(env, queue, taken + {hash}) && Pending(queue, orphans) == Pending(queue0, orphans0)
      invariant forall h :: InQueue(queue, h) <==> InQueue(queue0, h) || Freed(orphans0, ks, j, hash, h)
    {
      orphans, queue := ReleaseOne(env, orphans, orphans0, ks, j, hash, queue, queue0, taken);
    }
    assert ks[..|ks|] == ks;
    Released(env, orphans0, orphans, dependers, ks, hash, taken);
  }

  method ReleaseOne(env: Setting, orphans1: seq<Orphan>, ghost orphans0: seq<Orphan>, ks: seq<nat>, j: nat,
                    hash: Hash, queue1: seq<TxPriority>, ghost queue0: seq<TxPriority>, ghost taken: set<Hash>)
    returns (orphans: seq<Orphan>, queue: seq<TxPriority>)
    requires j < |ks| && |orphans1| == |orphans0| && forall i :: 0 <= i < |ks| ==> ks[i] < |orphans0|
    requires forall k :: 0 <= k < |orphans1| ==>
      orphans1[k] == if k in ks[..j] then Relieved(orphans0[k], hash) else orphans0[k]
    requires forall k :: 0 <= k < |orphans0| ==> OrphanOk(env, orphans0[k], taken)
    requires forall a, b :: 0 <= a < b < |orphans0| ==> orphans0[a].tx.hash != orphans0[b].tx.hash
    requires hash in orphans0[ks[j]].setDependsOn && QueueOk(env, queue1, taken + {hash})
    requires forall h :: InQueue(queue1, h) <==> InQueue(queue0, h) || Freed(orphans0, ks, j, hash, h)
    requires forall h :: InQueue(queue0, h) ==> Ready(env, taken, h)
    ensures |orphans| == |orphans0|
    ensures forall k :: 0 <= k < |orphans| ==>
      orphans[k] == if k in ks[..j + 1] then Relieved(orphans0[k], hash) else orphans0[k]
    ensures QueueOk(env, queue, taken + {hash})
    ensures forall h :: InQueue(queue, h) <==> InQueue(queue0, h) || Freed(orphans0, ks, j + 1, hash, h)
    ensures Pending(queue, orphans) == Pending(queue1, orphans1)
  {
    hide Deps, QueueOk, Freed, InQueue, DistinctHashes;
    orphans, queue := orphans1, queue1;
    var k := ks[j];
    assert ks[..j + 1] == ks[..j] + [k];
    forall h { FreedNext(orphans0, ks, j, hash, h); }
    assert OrphanOk(env, orphans0[k], taken);
    if orphans[k].setDependsOn != {} {
      StillWaitingPut(orphans, k, Relieved(orphans[k], hash), |orphans|);
      orphans := orphans[k := Relieved(orphans[k], hash)];
      if orphans[k].setDependsOn == {} {
        assert k !in ks[..j];
        assert orphans0[k].setDependsOn == {hash};
        queue := queue + [TxPriority(orphans[k].dPriority, orphans[k].dFeePerKb, orphans[k].tx)];
        AppendQueued(env, queue1, taken + {hash}, queue[|queue1|]);
      }
    }
  }

  lemma {:induction false} Released(env: Setting, orphans: seq<Orphan>, orphans': seq<Orphan>, dependers: Dependers,
                                    ks: seq<nat>, hash: Hash, taken: set<Hash>)
    requires OrphansOk(env, orphans, dependers, taken) && hash !in taken && |orphans'| == |orphans|
    requires ks == if hash in dependers then dependers[hash] else []
    requires forall i :: 0 <= i < |ks| ==> ks[i] < |orphans|
    requires forall k :: 0 <= k < |orphans| ==>
      orphans'[k] == if k in ks then Relieved(orphans[k], hash) else orphans[k]
    ensures OrphansOk(env, orphans', dependers, taken + {hash})
    ensures forall h :: Waiting(orphans', h) <==> Waiting(orphans, h)
    ensures forall h :: Freed(orphans, ks, |ks|, hash, h) <==>
      Waiting(orphans, h) && Ready(env, taken + {hash}, h) && !Ready(env, taken, h)
  {
    hide Deps;
    forall k | 0 <= k < |orphans|
      ensures OrphanOk(env, orphans'[k], taken + {hash}) && orphans'[k].tx == orphans[k].tx
    {
      assert OrphanOk(env, orphans[k], taken) && (Waits(dependers, hash, k) <==> k in ks);
    }
    forall h ensures Waiting(orphans', h) <==> Waiting(orphans, h) {
      assert forall k :: 0 <= k < |orphans| ==> orphans'[k].tx == orphans[k].tx;
    }
    forall h | Waiting(orphans, h) && Ready(env, taken + {hash}, h) && !Ready(env, taken, h)
      ensures Freed(orphans, ks, |ks|, hash, h)
    {
      var k :| 0 <= k < |orphans| && orphans[k].tx.hash == h;
      assert OrphanOk(env, orphans[k], taken);
      assert hash in Deps(env.s, orphans[k].tx) && Waits(dependers, hash, k);
      assert orphans[k].setDependsOn == {hash};
    }
    forall h | Freed(orphans, ks, |ks|, hash, h)
      ensures Waiting(orphans, h) && Ready(env, taken + {hash}, h) && !Ready(env, taken, h)
    {
      var i :| 0 <= i < |ks| && orphans[ks[i]].tx.hash == h && orphans[ks[i]].setDependsOn == {hash};
      assert OrphanOk(env, orphans[ks[i]], taken);
      assert hash in Deps(env.s, orphans[ks[i]].tx);
    }
  }

  // ------------------------------------------------------------------------------------------
  // Taking a transaction
  // ------------------------------------------------------------------------------------------

  /** The index after the first k transactions of a block are connected in order. */
  function Replay(db: Index, vtx: seq<Transaction>, k: nat): Index
    requires k <= |vtx|
  {
    if k == 0 then db else ApplyTx(Replay(db, vtx, k - 1), vtx[k - 1], MEMPOOL_POS)
  }

  /** The transaction an index entry stands for. */
  function TxAt(s: Sources, h: Hash, entry: TxIndex): Option<Transaction> {
    if entry.pos == MEMPOOL_POS then if h in s.mempool then Some(s.mempool[h]) else None
    else if entry.pos in s.disk then Some(s.disk[entry.pos]) else None
  }

  /** The previous transactions of a list of inputs, when the index is view. */
  function PrevsAt(s: Sources, view: Index, vin: seq<TxIn>): PrevTxs {
    map h | h in view && RefersTo(vin, |vin|, h) && TxAt(s, h, view[h]).Some? :: (view[h], TxAt(s, h, view[h]).value)
  }

  function FeeAt(s: Sources, view: Index, tx: Transaction): int {
    GetValueIn(tx, PrevsAt(s, view, tx.vin)) - tx.GetValueOut()
  }

  function SigOpsAt(env: Setting, view: Index, tx: Transaction): nat {
    tx.nSigOps + env.rules.p2shSigOps(tx, PrevsAt(env.s, view, tx.vin))
  }

  lemma {:induction false} ResolveInView(s: Sources, testPool: Index, h: Hash)
    ensures var view := s.db + testPool;
      Resolve(s, testPool, true, h) ==
      if h in view && TxAt(s, h, view[h]).Some? then Some((view[h], TxAt(s, h, view[h]).value)) else None
  {
  }

  /** The inputs fetched in miner mode are those of the index seen through the test pool. */
  lemma {:induction false} FetchedFromView(s: Sources, testPool: Index, vin: seq<TxIn>)
    ensures InputsResolve(s, testPool, true, vin, |vin|) <==>
            forall i :: 0 <= i < |vin| ==> vin[i].prevout.hash in PrevsAt(s, s.db + testPool, vin)
    ensures forall inputs ::
      InputsResolve(s, testPool, true, vin, |vin|) && Fetched(s, testPool, true, vin, |vin|, inputs) ==>
        inputs == PrevsAt(s, s.db + testPool, vin)
  {
    hide Resolve, TxAt;
    var prevs := PrevsAt(s, s.db + testPool, vin);
    forall h { ResolveInView(s, testPool, h); }
    forall i | 0 <= i < |vin|
      ensures vin[i].prevout.hash in prevs <==> Resolve(s, testPool, true, vin[i].prevout.hash).Some?
    {
      assert RefersTo(vin, |vin|, vin[i].prevout.hash);
    }
    forall inputs | InputsResolve(s, testPool, true, vin, |vin|) && Fetched(s, testPool, true, vin, |vin|, inputs)
      ensures inputs == prevs
    {
      assert forall h :: h in inputs <==> h in prevs;
    }
  }

  lemma {:induction false} SpendableInView(view: Index, vin: seq<TxIn>, inputs: PrevTxs)
    requires forall h :: h in inputs ==> h in view && view[h] == inputs[h].0
    requires Spendable(EntriesOf(inputs), vin, |vin|)
    ensures Spendable(view, vin, |vin|)
  {
    forall i | 0 <= i < |vin|
      ensures Unspent(view, vin[i].prevout)
    {
      assert Unspent(EntriesOf(inputs), vin[i].prevout);
    }
  }

  /** ConnectInputs accepts the transaction when the index is view. */
  predicate ConnectsAt(env: Setting, tx: Transaction, view: Index) {
    Connectable(env.rules, tx, PrevsAt(env.s, view, tx.vin), env.recentBlocks, false)
  }

  /** The fee, the signature operations and the spends of one transaction, when the index is view. */
  predicate Connects(env: Setting, tx: Transaction, nBlockSigOps: nat, nMinFee: int, view: Index) {
    && FeeAt(env.s, view, tx) >= nMinFee
    && nBlockSigOps + SigOpsAt(env, view, tx) < MAX_BLOCK_SIGOPS
    && ConnectsAt(env, tx, view)
  }

  lemma {:induction false} ConnectableInputs(env: Setting, tx: Transaction, view: Index)
    requires !tx.IsCoinBase() && Connectable(env.rules, tx, PrevsAt(env.s, view, tx.vin), env.recentBlocks, false)
    ensures AllInRange(tx.vin, |tx.vin|, PrevsAt(env.s, view, tx.vin)) && Spendable(view, tx.vin, |tx.vin|)
  {
    var prevs := PrevsAt(env.s, view, tx.vin);
    forall i | 0 <= i < |tx.vin|
      ensures tx.vin[i].prevout.hash in prevs && InRange(prevs[tx.vin[i].prevout.hash], tx.vin[i].prevout.n)
    {
      assert InputOk(tx, tx.vin[i].prevout, prevs, env.recentBlocks);
    }
    SpendableInView(view, tx.vin, prevs);
  }

  method ConnectToTest(env: Setting, tx: Transaction, nBlockSigOps: nat, nMinFee: int, testPool0: Index)
    returns (ok: bool, testPool: Index, nTxFees: int, nTxSigOps: nat)
    requires !tx.IsCoinBase()
    ensures ok <==> Connects(env, tx, nBlockSigOps, nMinFee, env.s.db + testPool0)
    ensures ok ==>
      nTxFees == FeeAt(env.s, env.s.db + testPool0, tx) && nTxSigOps == SigOpsAt(env, env.s.db + testPool0, tx)
    ensures ok ==> Spendable(env.s.db + testPool0, tx.vin, |tx.vin|)
    ensures ok ==> env.s.db + testPool == ApplyTx(env.s.db + testPool0, tx, MEMPOOL_POS)
  {
    hide Spendable, Connectable, GetValueIn, PrevsAt, AllInRange;
    ok, testPool, nTxFees, nTxSigOps := false, testPool0, 0, tx.nSigOps;
    ghost var view := env.s.db + testPool0;
    if Connects(env, tx, nBlockSigOps, nMinFee, view) { ConnectableInputs(env, tx, view); }
    var inputs;
    ok, inputs := FetchForTest(env.s, tx, testPool0);
    if !ok { return; }
    nTxFees := GetValueIn(tx, inputs) - tx.GetValueOut();
    if nTxFees < nMinFee { return false, testPool, nTxFees, nTxSigOps; }
    nTxSigOps := nTxSigOps + env.rules.p2shSigOps(tx, inputs);
    if nBlockSigOps + nTxSigOps >= MAX_BLOCK_SIGOPS { return false, testPool, nTxFees, nTxSigOps; }
    ok, testPool :=
      ConnectInputs(env.rules, tx, inputs, testPool0, env.s.db, MEMPOOL_POS, env.recentBlocks, false, true, false);
    if !ok { return; }
    testPool := testPool[tx.hash := TxIndex(MEMPOOL_POS, Nulls(|tx.vout|))];
  }

  method FetchForTest(s: Sources, tx: Transaction, testPool: Index) returns (ok: bool, inputs: PrevTxs)
    requires !tx.IsCoinBase()
    ensures ok <==> AllInRange(tx.vin, |tx.vin|, PrevsAt(s, s.db + testPool, tx.vin))
    ensures ok ==> inputs == PrevsAt(s, s.db + testPool, tx.vin)
    ensures ok ==> forall i :: 0 <= i < |tx.vin| ==> tx.vin[i].prevout.hash in inputs
    ensures ok ==> forall h :: h in inputs ==> h in s.db + testPool && (s.db + testPool)[h] == inputs[h].0
  {
    hide InputsResolve, Fetched;
    FetchedFromView(s, testPool, tx.vin);
    var fInvalid;
    ok, inputs, fInvalid := FetchInputs(s, tx, testPool, false, true);
  }

  /** The transaction fits the block so far. */
  predicate Fits(env: Setting, tx: Transaction, nBlockSize: nat, nBlockSigOps: nat, view: Index) {
    && nBlockSize + tx.nSize < env.MaxSize() && tx.nTime <= env.nTimeLimit
    && Connects(env, tx, nBlockSigOps, GetMinFee(tx, nBlockSize, GMF_BLOCK, 0), view)
  }

  /** It pays less than the lowest fee rate and the block has reached its least size. */
  predicate TooCheap(env: Setting, tx: Transaction, nBlockSize: nat) {
    FeePerKb(env, tx) < env.nMinTxFee && nBlockSize + tx.nSize >= env.MinSize()
  }

  /** The transaction switches sorting by fee on: the block is past its priority size with it, or
      the high-priority transactions have run out. */
  predicate Triggers(env: Setting, tx: Transaction, nBlockSize: nat) {
    nBlockSize + tx.nSize >= env.PrioritySize() || Priority(env, tx) < COIN as real * 144.0 / 250.0
  }

  /** It passes the tests that come before any look at fees and inputs. */
  predicate WithinLimits(env: Setting, tx: Transaction, nBlockSize: nat, nBlockSigOps: nat) {
    && nBlockSize + tx.nSize < env.MaxSize() && nBlockSigOps + tx.nSigOps < MAX_BLOCK_SIGOPS
    && tx.nTime <= env.nTimeLimit
  }

  /** Whether the best queued transaction goes in; fByFee may switch on whatever the answer. */
  method Consider(env: Setting, top: TxPriority, nBlockSize: nat, nBlockSigOps: nat, testPool0: Index, fByFee0: bool)
    returns (taken: bool, testPool: Index, nTxFees: int, nTxSigOps: nat, fByFee: bool)
    requires !top.tx.IsCoinBase() && Rated(env, top)
    ensures taken <==> Fits(env, top.tx, nBlockSize, nBlockSigOps, env.s.db + testPool0)
                       && !(fByFee0 && TooCheap(env, top.tx, nBlockSize))
    ensures taken ==>
      nTxFees == FeeAt(env.s, env.s.db + testPool0, top.tx) &&
      nTxSigOps == SigOpsAt(env, env.s.db + testPool0, top.tx)
    ensures taken ==> Spendable(env.s.db + testPool0, top.tx.vin, |top.tx.vin|)
    ensures taken ==> env.s.db + testPool == ApplyTx(env.s.db + testPool0, top.tx, MEMPOOL_POS)
    ensures !taken ==> testPool == testPool0
    ensures fByFee <==>
      fByFee0 || (WithinLimits(env, top.tx, nBlockSize, nBlockSigOps) && Triggers(env, top.tx, nBlockSize))
  {
    hide ConnectsAt, FeeAt, PrevsAt, FeePerKb, Priority, Spendable, ApplyTx;
    taken, testPool, nTxFees, nTxSigOps, fByFee := false, testPool0, 0, 0, fByFee0;
    var tx := top.tx;
    if nBlockSize + tx.nSize >= env.MaxSize() { return; }
    if nBlockSigOps + tx.nSigOps >= MAX_BLOCK_SIGOPS { return; }
    if tx.nTime > env.nTimeLimit { return; }
    var nMinFee := GetMinFee(tx, nBlockSize, GMF_BLOCK, 0);
    if fByFee && top.dFeePerKb < env.nMinTxFee && nBlockSize + tx.nSize >= env.MinSize() { return; }
    if !fByFee && (nBlockSize + tx.nSize >= env.PrioritySize() || top.dPriority < COIN as real * 144.0 / 250.0) {
      fByFee := true;
    }
    var testPoolTmp;
    taken, testPoolTmp, nTxFees, nTxSigOps := ConnectToTest(env, tx, nBlockSigOps, nMinFee, testPool0);
    if taken { testPool := testPoolTmp; }
  }

  // ------------------------------------------------------------------------------------------
  // The block
  // ------------------------------------------------------------------------------------------

  /** Each transaction comes from the pool, once, after every pool transaction it waits for, and its
      inputs are unspent when the block is replayed in order. */
  ghost predicate Assembled(env: Setting, vtx: seq<Transaction>) {
    && (forall i, j :: 0 <= i < j < |vtx| ==> vtx[i].hash != vtx[j].hash)
    && (forall k :: 0 <= k < |vtx| ==> PlacedWell(env, vtx, k))
  }

  ghost predicate PlacedWell(env: Setting, vtx: seq<Transaction>, k: nat)
    requires k < |vtx|
  {
    && QueuedOk(env, vtx[k], Hashes(vtx[..k]))
    && vtx[k].nTime <= env.nTimeLimit
    && Spendable(Replay(env.s.db, vtx, k), vtx[k].vin, |vtx[k].vin|)
    && ConnectsAt(env, vtx[k], Replay(env.s.db, vtx, k))
  }

  function Sizes(vtx: seq<Transaction>, k: nat): nat
    requires k <= |vtx|
  {
    if k == 0 then 1000 else Sizes(vtx, k - 1) + vtx[k - 1].nSize
  }

  function SigOps(env: Setting, vtx: seq<Transaction>, k: nat): nat
    requires k <= |vtx|
  {
    if k == 0 then 100 else SigOps(env, vtx, k - 1) + SigOpsAt(env, Replay(env.s.db, vtx, k - 1), vtx[k - 1])
  }

  function Fees(s: Sources, vtx: seq<Transaction>, k: nat): int
    requires k <= |vtx|
  {
    if k == 0 then 0 else Fees(s, vtx, k - 1) + FeeAt(s, Replay(s.db, vtx, k - 1), vtx[k - 1])
  }

  lemma {:induction false} Prefix(env: Setting, vtx: seq<Transaction>, tx: Transaction, k: nat)
    requires k <= |vtx|
    ensures Replay(env.s.db, vtx + [tx], k) == Replay(env.s.db, vtx, k)
    ensures Sizes(vtx + [tx], k) == Sizes(vtx, k) && SigOps(env, vtx + [tx], k) == SigOps(env, vtx, k)
    ensures Fees(env.s, vtx + [tx], k) == Fees(env.s, vtx, k)
  {
    hide ApplyTx, FeeAt, SigOpsAt;
    if k > 0 { Prefix(env, vtx, tx, k - 1); }
  }

  lemma {:induction false} AssembledNext(env: Setting, vtx: seq<Transaction>, tx: Transaction)
    requires Assembled(env, vtx) && QueuedOk(env, tx, Hashes(vtx)) && tx.hash !in Hashes(vtx)
    requires tx.nTime <= env.nTimeLimit
    requires Spendable(Replay(env.s.db, vtx, |vtx|), tx.vin, |tx.vin|)
    requires ConnectsAt(env, tx, Replay(env.s.db, vtx, |vtx|))
    ensures Assembled(env, vtx + [tx]) && Hashes(vtx + [tx]) == Hashes(vtx) + {tx.hash}
  {
    hide QueuedOk, Spendable, ConnectsAt, Replay;
    var vtx' := vtx + [tx];
    forall k | 0 <= k < |vtx'| ensures PlacedWell(env, vtx', k) {
      Prefix(env, vtx, tx, k);
      if k < |vtx| {
        assert PlacedWell(env, vtx, k) && vtx'[..k] == vtx[..k];
      } else {
        assert vtx'[..k] == vtx;
      }
    }
    forall h ensures h in Hashes(vtx') <==> h in Hashes(vtx) || h == tx.hash {
      if h in Hashes(vtx) {
        var i :| 0 <= i < |vtx| && vtx[i].hash == h;
        assert vtx'[i].hash == h;
      }
      assert vtx'[|vtx|].hash == tx.hash;
    }
    forall i | 0 <= i < |vtx| ensures vtx[i].hash in Hashes(vtx) {}
  }

  // ------------------------------------------------------------------------------------------
  // The order of settling
  // ------------------------------------------------------------------------------------------

  /** One round of the loop: the transaction that was taken or turned down, and whether sorting by fee
      was on when it was drawn. */
  datatype Settling = Settling(tx: Transaction, fTaken: bool, fByFee: bool)

  /** The transactions taken, in order. */
  ghost function Taken(log: seq<Settling>): seq<Transaction> {
    if log == [] then []
    else
      var last := log[|log| - 1];
      Taken(log[..|log| - 1]) + if last.fTaken then [last.tx] else []
  }

  ghost function Settled(log: seq<Settling>): set<Hash> { set i | 0 <= i < |log| :: log[i].tx.hash }

  /** Sorting by fee is on from the start when there is no priority size, or else from the first
      transaction on that stays within the limits and triggers it. */
  ghost predicate ByFee(env: Setting, log: seq<Settling>) {
    if log == [] then env.PrioritySize() == 0
    else
      var (before, tx) := (log[..|log| - 1], log[|log| - 1].tx);
      var vtx := Taken(before);
      || ByFee(env, before)
      || (WithinLimits(env, tx, Sizes(vtx, |vtx|), SigOps(env, vtx, |vtx|)) && Triggers(env, tx, Sizes(vtx, |vtx|)))
  }

  /** After the rounds `before`, tx is ready and not settled, and no other such transaction is ahead of
      it in fee rate or priority. */
  ghost predicate BestReady(env: Setting, before: seq<Settling>, tx: Transaction) {
    && Ready(env, Hashes(Taken(before)), tx.hash) && tx == env.s.mempool[tx.hash] && tx.hash !in Settled(before)
    && forall h :: Ready(env, Hashes(Taken(before)), h) && h !in Settled(before) ==>
      var other := env.s.mempool[h];
      NotAhead(ByFee(env, before), Priority(env, other), FeePerKb(env, other), Priority(env, tx), FeePerKb(env, tx))
  }

  /** It goes in exactly when it fits the block so far and, with sorting by fee on, is not too cheap. */
  ghost predicate GoesIn(env: Setting, before: seq<Settling>, tx: Transaction) {
    var vtx := Taken(before);
    && Fits(env, tx, Sizes(vtx, |vtx|), SigOps(env, vtx, |vtx|), Replay(env.s.db, vtx, |vtx|))
    && !(ByFee(env, before) && TooCheap(env, tx, Sizes(vtx, |vtx|)))
  }

  ghost predicate Settles(env: Setting, before: seq<Settling>, s: Settling) {
    && s.fByFee == ByFee(env, before) && BestReady(env, before, s.tx)
    && (s.fTaken <==> GoesIn(env, before, s.tx))
  }

  ghost predicate SettledInOrder(env: Setting, log: seq<Settling>) {
    forall i :: 0 <= i < |log| ==> Settles(env, log[..i], log[i])
  }

  lemma {:induction false} LogNext(env: Setting, log: seq<Settling>, s: Settling)
    requires SettledInOrder(env, log) && Settles(env, log, s)
    ensures SettledInOrder(env, log + [s]) && Settled(log + [s]) == Settled(log) + {s.tx.hash}
    ensures Taken(log + [s]) == Taken(log) + if s.fTaken then [s.tx] else []
    ensures var (vtx, tx) := (Taken(log), s.tx);
      ByFee(env, log + [s]) <==>
      || ByFee(env, log)
      || (WithinLimits(env, tx, Sizes(vtx, |vtx|), SigOps(env, vtx, |vtx|)) && Triggers(env, tx, Sizes(vtx, |vtx|)))
  {
    hide Settles, WithinLimits, Triggers, Sizes, SigOps;
    var log' := log + [s];
    assert log'[..|log|] == log;
    forall i | 0 <= i < |log'| ensures Settles(env, log'[..i], log'[i]) {
      if i < |log| { assert log'[..i] == log[..i]; }
    }
    forall h ensures h in Settled(log') <==> h in Settled(log) || h == s.tx.hash {
      assert log'[|log|] == s;
      if h in Settled(log) {
        var i :| 0 <= i < |log| && log[i].tx.hash == h;
        assert log'[i].tx.hash == h;
      }
    }
  }

  /** Every transaction that is ready is queued or settled, and only one of these. */
  ghost predicate Accounted(env: Setting, queue: seq<TxPriority>, taken: set<Hash>, settled: set<Hash>) {
    && taken <= settled
    && forall h :: (Ready(env, taken, h) <==> InQueue(queue, h) || h in settled)
                   && !(InQueue(queue, h) && h in settled)
  }

  /** The state of the assembly loop. */
  datatype Work = Work(vtx: seq<Transaction>, queue: seq<TxPriority>, orphans: seq<Orphan>, mapTestPool: Index,
                       nBlockSize: nat, nBlockSigOps: nat, nFees: int, fByFee: bool)

  ghost predicate WorkOk(env: Setting, w: Work, dependers: Dependers, log: seq<Settling>) {
    && SettledInOrder(env, log) && w.vtx == Taken(log) && w.fByFee == ByFee(env, log)
    && Assembled(env, w.vtx) && Totals(env, w)
    && QueueOk(env, w.queue, Hashes(w.vtx)) && OrphansOk(env, w.orphans, dependers, Hashes(w.vtx))
    && Accounted(env, w.queue, Hashes(w.vtx), Settled(log))
    && (forall h :: Eligible(env, h) && Deps(env.s, env.s.mempool[h]) != {} ==> Waiting(w.orphans, h))
  }

  ghost predicate Totals(env: Setting, w: Work) {
    && env.s.db + w.mapTestPool == Replay(env.s.db, w.vtx, |w.vtx|)
    && w.nBlockSize == Sizes(w.vtx, |w.vtx|) && w.nBlockSigOps == SigOps(env, w.vtx, |w.vtx|)
    && w.nFees == Fees(env.s, w.vtx, |w.vtx|)
    && (w.vtx != [] ==> w.nBlockSize < env.MaxSize() && w.nBlockSigOps < MAX_BLOCK_SIGOPS)
  }

  /** The queue without its best entry, which is about to be settled. */
  lemma {:induction false} Popped(env: Setting, w: Work, dependers: Dependers, log: seq<Settling>,
                                  top: TxPriority, rest: seq<TxPriority>)
    requires WorkOk(env, w, dependers, log) && top in w.queue && DistinctHashes(rest)
    requires forall q :: q in w.queue ==>
      NotAhead(w.fByFee, q.dPriority, q.dFeePerKb, top.dPriority, top.dFeePerKb)
    requires forall q :: q in rest <==> q in w.queue && q != top
    requires forall h :: InQueue(rest, h) <==> InQueue(w.queue, h) && h != top.tx.hash
    ensures QueueOk(env, rest, Hashes(w.vtx)) && QueuedOk(env, top.tx, Hashes(w.vtx)) && Rated(env, top)
    ensures top.tx.hash !in Hashes(w.vtx) && top.tx.hash !in Settled(log) && !InQueue(rest, top.tx.hash)
    ensures BestReady(env, log, top.tx)
    ensures forall h :: Ready(env, Hashes(w.vtx), h) <==> InQueue(rest, h) || h in Settled(log) || h == top.tx.hash
    ensures forall h :: InQueue(rest, h) ==> h !in Settled(log)
  {
    hide Assembled, Totals, Deps, OrphansOk, SettledInOrder, Hashes, Settled, Taken, ByFee;
    hide Priority, FeePerKb, NotAhead;
    var i :| 0 <= i < |w.queue| && w.queue[i] == top;
    assert InQueue(w.queue, top.tx.hash);
    forall j | 0 <= j < |rest| ensures QueuedOk(env, rest[j].tx, Hashes(w.vtx)) && Rated(env, rest[j]) {
      assert rest[j] in rest;
    }
    forall h | Ready(env, Hashes(w.vtx), h) && h !in Settled(log)
      ensures var other := env.s.mempool[h];
        NotAhead(w.fByFee, Priority(env, other), FeePerKb(env, other), Priority(env, top.tx), FeePerKb(env, top.tx))
    {
      var k :| 0 <= k < |w.queue| && w.queue[k].tx.hash == h;
      assert QueuedOk(env, w.queue[k].tx, Hashes(w.vtx)) && Rated(env, w.queue[k]) && w.queue[k] in w.queue;
    }
  }

  /** What Consider decides is what the log of the loop asks for. */
  lemma {:induction false} Decided(env: Setting, w: Work, dependers: Dependers, log: seq<Settling>, tx: Transaction,
                                   taken: bool, fByFee: bool)
    requires WorkOk(env, w, dependers, log) && BestReady(env, log, tx)
    requires taken <==> Fits(env, tx, w.nBlockSize, w.nBlockSigOps, env.s.db + w.mapTestPool)
                        && !(w.fByFee && TooCheap(env, tx, w.nBlockSize))
    requires fByFee <==>
      w.fByFee || (WithinLimits(env, tx, w.nBlockSize, w.nBlockSigOps) && Triggers(env, tx, w.nBlockSize))
    ensures var log' := log + [Settling(tx, taken, w.fByFee)];
      && SettledInOrder(env, log') && Settled(log') == Settled(log) + {tx.hash} && fByFee == ByFee(env, log')
      && Taken(log') == w.vtx + if taken then [tx] else []
  {
    hide Assembled, BestReady, Fits, TooCheap, WithinLimits, Triggers, SettledInOrder, QueueOk, OrphansOk, Accounted;
    hide Settled, Taken, ByFee, Replay, Sizes, SigOps, Deps, Waiting;
    LogNext(env, log, Settling(tx, taken, w.fByFee));
  }

  lemma {:induction false} RefuseTop(env: Setting, w: Work, dependers: Dependers, log: seq<Settling>,
                                     rest: seq<TxPriority>, h0: Hash, log': seq<Settling>, fByFee: bool)
    requires WorkOk(env, w, dependers, log) && QueueOk(env, rest, Hashes(w.vtx))
    requires forall h :: Ready(env, Hashes(w.vtx), h) <==> InQueue(rest, h) || h in Settled(log) || h == h0
    requires !InQueue(rest, h0) && forall h :: InQueue(rest, h) ==> h !in Settled(log)
    requires SettledInOrder(env, log') && Settled(log') == Settled(log) + {h0} && fByFee == ByFee(env, log')
    requires Taken(log') == w.vtx
    ensures WorkOk(env, w.(queue := rest, fByFee := fByFee), dependers, log')
  {
    hide Assembled, SettledInOrder, Settled, Taken, ByFee, Replay, Sizes, SigOps, Deps, Waiting, QueueOk, OrphansOk;
    hide Hashes, InQueue, Ready, Eligible;
  }

  /** What the round needs to know about a transaction it takes. */
  ghost predicate Takes(env: Setting, w: Work, tx: Transaction, testPool: Index, nTxFees: int, nTxSigOps: nat) {
    && Fits(env, tx, w.nBlockSize, w.nBlockSigOps, env.s.db + w.mapTestPool)
    && nTxFees == FeeAt(env.s, env.s.db + w.mapTestPool, tx) && nTxSigOps == SigOpsAt(env, env.s.db + w.mapTestPool, tx)
    && Spendable(env.s.db + w.mapTestPool, tx.vin, |tx.vin|)
    && env.s.db + testPool == ApplyTx(env.s.db + w.mapTestPool, tx, MEMPOOL_POS)
  }

  lemma {:induction false} TakeTop(env: Setting, w: Work, tx: Transaction, testPool: Index, nTxFees: int,
                                   nTxSigOps: nat, w': Work)
    requires Assembled(env, w.vtx) && Totals(env, w) && Takes(env, w, tx, testPool, nTxFees, nTxSigOps)
    requires QueuedOk(env, tx, Hashes(w.vtx)) && tx.hash !in Hashes(w.vtx)
    requires w'.vtx == w.vtx + [tx] && w'.mapTestPool == testPool && w'.nFees == w.nFees + nTxFees
    requires w'.nBlockSize == w.nBlockSize + tx.nSize && w'.nBlockSigOps == w.nBlockSigOps + nTxSigOps
    ensures Assembled(env, w'.vtx) && Totals(env, w') && Hashes(w'.vtx) == Hashes(w.vtx) + {tx.hash}
  {
    hide Assembled, ConnectsAt, Spendable, ApplyTx, FeeAt, SigOpsAt, QueuedOk, Hashes;
    Prefix(env, w.vtx, tx, |w.vtx|);
    AssembledNext(env, w.vtx, tx);
  }

  /** After a transaction is taken, exactly those that waited for it alone have become ready. */
  lemma {:induction false} StillAccounted(env: Setting, queue: seq<TxPriority>, rest: seq<TxPriority>,
                                          taken: set<Hash>, settled: set<Hash>, h0: Hash, orphans: seq<Orphan>)
    requires taken <= settled && h0 !in settled && !InQueue(rest, h0)
    requires forall h :: Ready(env, taken, h) <==> InQueue(rest, h) || h in settled || h == h0
    requires forall h :: InQueue(rest, h) ==> h !in settled
    requires forall h :: Eligible(env, h) && Deps(env.s, env.s.mempool[h]) != {} ==> Waiting(orphans, h)
    requires forall h :: InQueue(queue, h) <==>
      InQueue(rest, h) || (Waiting(orphans, h) && Ready(env, taken + {h0}, h) && !Ready(env, taken, h))
    ensures Accounted(env, queue, taken + {h0}, settled + {h0})
  {
    hide Deps, InQueue, Waiting;
    forall h
      ensures Ready(env, taken + {h0}, h) <==> InQueue(queue, h) || h in settled + {h0}
      ensures !(InQueue(queue, h) && h in settled + {h0})
    {
      assert Ready(env, taken, h) ==> Ready(env, taken + {h0}, h);
    }
  }

  /** One round: the best queued transaction is taken or turned down. */
  method Round(env: Setting, w: Work, dependers: Dependers, ghost log: seq<Settling>)
    returns (w': Work, ghost log': seq<Settling>)
    requires WorkOk(env, w, dependers, log) && w.queue != []
    ensures WorkOk(env, w', dependers, log') && |log'| == |log| + 1
    ensures Pending(w'.queue, w'.orphans) < Pending(w.queue, w.orphans)
  {
    hide Assembled, Fits, TooCheap, Triggers, WithinLimits, Deps, OrphansOk, Totals, FeeAt, SigOpsAt, SettledInOrder;
    hide Spendable, ApplyTx, Hashes, Rated, InQueue, Ready, Waiting, BestReady, Settled, Taken, ByFee;
    assert DistinctHashes(w.queue);
    var top, rest := PopBest(w.queue, w.fByFee);
    Popped(env, w, dependers, log, top, rest);
    var tx := top.tx;
    var taken, testPool, nTxFees, nTxSigOps, fByFee :=
      Consider(env, top, w.nBlockSize, w.nBlockSigOps, w.mapTestPool, w.fByFee);
    Decided(env, w, dependers, log, tx, taken, fByFee);
    log' := log + [Settling(tx, taken, w.fByFee)];
    if !taken {
      w' := w.(queue := rest, fByFee := fByFee);
      RefuseTop(env, w, dependers, log, rest, tx.hash, log', fByFee);
      return;
    }
    var orphans, queue := Release(env, w.orphans, dependers, tx.hash, rest, Hashes(w.vtx));
    w' := Work(w.vtx + [tx], queue, orphans, testPool, w.nBlockSize + tx.nSize, w.nBlockSigOps + nTxSigOps,
               w.nFees + nTxFees, fByFee);
    TakeTop(env, w, tx, testPool, nTxFees, nTxSigOps, w');
    StillAccounted(env, queue, rest, Hashes(w.vtx), Settled(log), tx.hash, w.orphans);
  }

  /** CreateNewBlock: the pool transactions of the new block (its coinbase and header are left out),
      their fees, size and signature operations; log lists the rounds in order. */
  method CreateNewBlock(env: Setting) returns (vtx: seq<Transaction>, nFees: int, nBlockSize: nat, nBlockSigOps: nat,
                                               ghost log: seq<Settling>)
    requires PoolClosed(env.s)
    ensures Assembled(env, vtx)
    ensures nBlockSize == Sizes(vtx, |vtx|) && nBlockSigOps == SigOps(env, vtx, |vtx|)
    ensures nFees == Fees(env.s, vtx, |vtx|)
    ensures vtx != [] ==> nBlockSize < env.MaxSize() && nBlockSigOps < MAX_BLOCK_SIGOPS
    ensures vtx == Taken(log) && forall i :: 0 <= i < |log| ==> Settles(env, log[..i], log[i])
    ensures forall h :: Ready(env, Hashes(vtx), h) <==> h in Settled(log)
  {
    hide Deps, QueueOk, OrphansOk, Settles, Ready, Pending;
    var queue, orphans, dependers := SortPool(env);
    var w := Work([], queue, orphans, map[], 1000, 100, 0, env.PrioritySize() <= 0);
    log := [];
    assert Hashes([]) == {} && Settled([]) == {};
    assert Assembled(env, []);
    assert env.s.db + map[] == env.s.db;
    while w.queue != []
      invariant WorkOk(env, w, dependers, log)
      decreases Pending(w.queue, w.orphans)
    {
      w, log := Round(env, w, dependers, log);
    }
    assert forall h :: !InQueue(w.queue, h);
    vtx, nFees, nBlockSize, nBlockSigOps := w.vtx, w.nFees, w.nBlockSize, w.nBlockSigOps;
  }

  /** Every parent of a transaction of the block can be read from disk or stands earlier in the block,
      and no output is claimed twice or before it exists. */
  lemma {:induction false} ParentsPrecede(env: Setting, vtx: seq<Transaction>, k: nat, i: nat)
    requires Assembled(env, vtx) && k < |vtx| && i < |vtx[k].vin|
    ensures ReadOk(env.s, vtx[k].vin[i].prevout) || exists j :: 0 <= j < k && vtx[j].hash == vtx[k].vin[i].prevout.hash
    ensures Unspent(Replay(env.s.db, vtx, k), vtx[k].vin[i].prevout)
  {
    assert PlacedWell(env, vtx, k);
    DepsAt(env.s, vtx[k].vin, |vtx[k].vin|, vtx[k].vin[i].prevout.hash);
    if !ReadOk(env.s, vtx[k].vin[i].prevout) {
      assert vtx[k].vin[i].prevout.hash in Hashes(vtx[..k]);
      var j :| 0 <= j < k && vtx[..k][j].hash == vtx[k].vin[i].prevout.hash;
    }
  }
}
