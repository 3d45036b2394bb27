/** The stake modifier (src/kernel.cpp): one bit from each of up to 64 blocks, selected one after the
    other from the blocks of the last selection interval. */
module StakeModifier {
  import opened Basics
  import opened Transactions

  const MODIFIER_INTERVAL: nat := 600
  const MODIFIER_INTERVAL_RATIO: nat := 3

  type Bit = b: nat | b < 2

  /** What the selection reads of a block index; a path runs from genesis to the last block. */
  datatype StakeBlock = StakeBlock(hash: Hash, nTime: nat, fProofOfStake: bool, hashProofOfStake: nat,
                                   nEntropyBit: Bit, nStakeModifier: nat, fGenerated: bool)

  /** The hash of a proof together with the previous modifier. */
  type ProofHash = (nat, nat) -> nat

  // ------------------------------------------------------------------------------------------
  // The selection interval
  // ------------------------------------------------------------------------------------------

  function Section(nSection: nat): (s: nat)
    requires nSection < 64
    ensures 0 < s <= MODIFIER_INTERVAL
  {
    var d := 63 + (63 - nSection) * (MODIFIER_INTERVAL_RATIO - 1);
    SectionBounds(MODIFIER_INTERVAL * 63, d);
    MODIFIER_INTERVAL * 63 / d
  }

  /** The sections grow from a third of the modifier interval to the whole: 37800 seconds over the odd
      numbers from 189 down to 63. */
  lemma {:induction false} SectionIs(nSection: nat)
    requires nSection < 64
    ensures var s := Section(nSection); s * (189 - 2 * nSection) <= 37_800 < (s + 1) * (189 - 2 * nSection)
  {
    SectionBounds(37_800, 189 - 2 * nSection);
  }

  lemma {:induction false} SectionBounds(a: nat, d: nat)
    requires a == MODIFIER_INTERVAL * 63 && 63 <= d <= 189
    ensures 0 < a / d <= MODIFIER_INTERVAL && (a / d) * d <= a < (a / d + 1) * d
  {
    var q := a / d;
    assert a == d * q + a % d;
    Bounds(d, q);
  }

  lemma {:induction false} Bounds(d: nat, q: int)
    requires d >= 63
    ensures q > MODIFIER_INTERVAL ==> d * q >= 63 * (MODIFIER_INTERVAL + 1)
    ensures q <= 0 ==> d * q <= 0
  {
    if q > MODIFIER_INTERVAL { assert (d - 63) * q >= 0; }
  }

  /** The total of the first n sections. */
  function Sections(n: nat): nat
    requires n <= 64
  {
    if n == 0 then 0 else Sections(n - 1) + Section(n - 1)
  }

  method GetStakeModifierSelectionInterval() returns (nSelectionInterval: nat)
    ensures nSelectionInterval == Sections(64)
  {
    nSelectionInterval := 0;
    for nSection := 0 to 64
      invariant nSelectionInterval == Sections(nSection)
    {
      nSelectionInterval := nSelectionInterval + Section(nSection);
    }
  }

  // ------------------------------------------------------------------------------------------
  // Candidates in order of time
  // ------------------------------------------------------------------------------------------

  predicate After(a: StakeBlock, b: StakeBlock) { a.nTime > b.nTime || (a.nTime == b.nTime && a.hash > b.hash) }

  /** Earlier blocks first, and blocks of one time by their hashes. */
  predicate Ordered(v: seq<StakeBlock>) {
    forall i, j :: 0 <= i < j < |v| ==>
      v[i].nTime < v[j].nTime || (v[i].nTime == v[j].nTime && v[i].hash <= v[j].hash)
  }

  predicate DistinctHashes(v: seq<StakeBlock>) { forall i, j :: 0 <= i < j < |v| ==> v[i].hash != v[j].hash }

  /** Puts x before the first block that comes after it. */
  method Insert(v: seq<StakeBlock>, x: StakeBlock) returns (w: seq<StakeBlock>)
    requires Ordered(v)
    ensures Ordered(w) && multiset(w) == multiset(v) + multiset{x}
  {
    hide Ordered;
    var k := |v|;
    while k > 0 && After(v[k - 1], x)
      invariant 0 <= k <= |v| && forall i :: k <= i < |v| ==> After(v[i], x)
    {
      k := k - 1;
    }
    assert v == v[..k] + v[k..];
    w := v[..k] + [x] + v[k..];
    InsertedOrdered(v, x, k);
  }

  lemma {:induction false} InsertedOrdered(v: seq<StakeBlock>, x: StakeBlock, k: nat)
    requires Ordered(v) && k <= |v| && (forall i :: k <= i < |v| ==> After(v[i], x)) && (k > 0 ==> !After(v[k - 1], x))
    ensures Ordered(v[..k] + [x] + v[k..])
  {
    var w := v[..k] + [x] + v[k..];
    forall i, j | 0 <= i < j < |w| ensures !After(w[i], w[j]) {
      if i < k && k > 0 && i != k - 1 { assert !After(v[i], v[k - 1]); }
      if i != k && j != k { assert !After(v[if i < k then i else i - 1], v[if j < k then j else j - 1]); }
    }
  }

  /** std::sort. */
  method Sort(v: seq<StakeBlock>) returns (w: seq<StakeBlock>)
    ensures Ordered(w) && multiset(w) == multiset(v)
  {
    w := [];
    for i := 0 to |v|
      invariant Ordered(w) && multiset(w) == multiset(v[..i])
    {
      assert v[..i + 1] == v[..i] + [v[i]];
      w := Insert(w, v[i]);
    }
    assert v[..|v|] == v;
  }

  // ------------------------------------------------------------------------------------------
  // One selection
  // ------------------------------------------------------------------------------------------

  const TWO_TO_THE_32: nat := 0x1_0000_0000

  /** A proof-of-stake block's hash is divided, which favours it over proof of work. */
  ghost function SelectionHash(f: ProofHash, b: StakeBlock, nStakeModifierPrev: nat): nat {
    if b.fProofOfStake then f(b.hashProofOfStake, nStakeModifierPrev) / TWO_TO_THE_32 else f(b.hash, nStakeModifierPrev)
  }

  /** A proof-of-stake block is not behind a proof-of-work block exactly when its hash h and the other's
      hash g meet h < (g + 1) * 2^32. */
  lemma {:induction false} StakeFavoured(f: ProofHash, a: StakeBlock, b: StakeBlock, nPrev: nat)
    requires a.fProofOfStake && !b.fProofOfStake
    ensures SelectionHash(f, a, nPrev) <= SelectionHash(f, b, nPrev) <==>
            f(a.hashProofOfStake, nPrev) < (f(b.hash, nPrev) + 1) * 0x1_0000_0000
  {
    var x := f(a.hashProofOfStake, nPrev);
    assert x == 0x1_0000_0000 * (x / 0x1_0000_0000) + x % 0x1_0000_0000;
  }

  predicate Free(v: seq<StakeBlock>, selected: set<Hash>, k: int) { 0 <= k < |v| && v[k].hash !in selected }

  /** p has the least selection hash of the free candidates up to the stop, and is the first that has
      it; without any such candidate p is the first that is free. */
  ghost predicate Chosen(f: ProofHash, v: seq<StakeBlock>, selected: set<Hash>, nStop: int, nPrev: nat, p: int) {
    && Free(v, selected, p)
    && if exists k :: Free(v, selected, k) && v[k].nTime <= nStop then
         v[p].nTime <= nStop
         && forall k :: Free(v, selected, k) && v[k].nTime <= nStop ==> Better(f, v, nPrev, p, k)
       else forall k :: Free(v, selected, k) ==> p <= k
  }

  ghost predicate Better(f: ProofHash, v: seq<StakeBlock>, nPrev: nat, p: int, k: int)
    requires 0 <= p < |v| && 0 <= k < |v|
  {
    var (a, b) := (SelectionHash(f, v[p], nPrev), SelectionHash(f, v[k], nPrev));
    a < b || (a == b && p <= k)
  }

  /** The rule leaves no choice. */
  lemma {:induction false} ChosenOnce(f: ProofHash, v: seq<StakeBlock>, selected: set<Hash>, nStop: int, nPrev: nat,
                                      p: int, q: int)
    requires Chosen(f, v, selected, nStop, nPrev, p) && Chosen(f, v, selected, nStop, nPrev, q)
    ensures p == q
  {
    if exists k :: Free(v, selected, k) && v[k].nTime <= nStop {
      assert Better(f, v, nPrev, p, q) && Better(f, v, nPrev, q, p);
    }
  }

  /** The scan stops at the first candidate past the stop, once something is selected. */
  method SelectBlockFromCandidates(f: ProofHash, v: seq<StakeBlock>, selected: set<Hash>, nStop: int, nPrev: nat)
    returns (fSelected: bool, pick: int)
    requires Ordered(v)
    ensures fSelected <==> exists k :: Free(v, selected, k)
    ensures fSelected ==> Chosen(f, v, selected, nStop, nPrev, pick)
  {
    fSelected, pick := false, 0;
    var hashBest := 0;
    var i := 0;
    while i < |v|
      invariant 0 <= i <= |v|
      invariant !fSelected ==> forall k :: Free(v, selected, k) ==> k >= i
      invariant fSelected ==> Free(v, selected, pick) && pick < i && hashBest == SelectionHash(f, v[pick], nPrev)
      invariant fSelected && v[pick].nTime <= nStop ==>
          forall k :: Free(v, selected, k) && k < i ==> v[k].nTime <= nStop && Better(f, v, nPrev, pick, k)
      invariant fSelected && v[pick].nTime > nStop ==> forall k :: Free(v, selected, k) ==> pick <= k
    {
      if fSelected && v[i].nTime > nStop { break; }
      if v[i].hash !in selected {
        var hashSelection := f(if v[i].fProofOfStake then v[i].hashProofOfStake else v[i].hash, nPrev);
        if v[i].fProofOfStake { hashSelection := hashSelection / TWO_TO_THE_32; }
        assert hashSelection == SelectionHash(f, v[i], nPrev);
        if fSelected && hashSelection < hashBest {
          hashBest := hashSelection;
          pick := i;
        } else if !fSelected {
          fSelected := true;
          hashBest := hashSelection;
          pick := i;
        }
      }
      i := i + 1;
    }
    if fSelected {
      forall k | Free(v, selected, k) && k >= i ensures v[k].nTime > nStop { assert !After(v[i], v[k]) || k == i; }
      if v[pick].nTime > nStop {
        forall k | Free(v, selected, k) ensures v[k].nTime > nStop { assert pick == k || !After(v[pick], v[k]); }
      }
    }
  }

  // ------------------------------------------------------------------------------------------
  // All rounds
  // ------------------------------------------------------------------------------------------

  function HashSet(v: seq<StakeBlock>, picks: seq<int>): set<Hash>
    requires forall r :: 0 <= r < |picks| ==> 0 <= picks[r] < |v|
  {
    set r | 0 <= r < |picks| :: v[picks[r]].hash
  }

  function AllHashes(v: seq<StakeBlock>, k: nat): set<Hash>
    requires k <= |v|
  {
    set i | 0 <= i < k :: v[i].hash
  }

  lemma {:induction false} AllHashesSize(v: seq<StakeBlock>, k: nat)
    requires k <= |v| && DistinctHashes(v)
    ensures |AllHashes(v, k)| == k
  {
    if k > 0 {
      AllHashesSize(v, k - 1);
      var (s, h) := (AllHashes(v, k - 1), v[k - 1].hash);
      assert h !in s && AllHashes(v, k) == s + {h};
    }
  }

  lemma {:induction false} HashSetSize(v: seq<StakeBlock>, picks: seq<int>)
    requires forall r :: 0 <= r < |picks| ==> 0 <= picks[r] < |v|
    ensures |HashSet(v, picks)| <= |picks|
  {
    if picks != [] {
      var rest := picks[..|picks| - 1];
      HashSetSize(v, rest);
      assert HashSet(v, picks) == HashSet(v, rest) + {v[picks[|picks| - 1]].hash};
    }
  }

  /** With fewer selected than there are candidates, one is free. */
  lemma {:induction false} SomeFree(v: seq<StakeBlock>, picks: seq<int>)
    requires DistinctHashes(v) && |picks| < |v| && forall r :: 0 <= r < |picks| ==> 0 <= picks[r] < |v|
    ensures exists k :: Free(v, HashSet(v, picks), k)
  {
    AllHashesSize(v, |v|);
    HashSetSize(v, picks);
    if forall k :: !Free(v, HashSet(v, picks), k) {
      forall i | 0 <= i < |v| ensures v[i].hash in HashSet(v, picks) { assert !Free(v, HashSet(v, picks), i); }
      SubsetSize(AllHashes(v, |v|), HashSet(v, picks));
      assert false;
    }
  }

  /** Round r picks among the blocks not picked before, up to the end of section r. */
  ghost predicate RoundOk(f: ProofHash, v: seq<StakeBlock>, nStart: int, nPrev: nat, picks: seq<int>, r: nat)
    requires r < |picks| && r < 64 && forall i :: 0 <= i < |picks| ==> 0 <= picks[i] < |v|
  {
    Chosen(f, v, HashSet(v, picks[..r]), nStart + Sections(r + 1), nPrev, picks[r])
  }

  ghost predicate Selection(f: ProofHash, v: seq<StakeBlock>, nStart: int, nPrev: nat, picks: seq<int>) {
    && |picks| <= 64 && (forall r :: 0 <= r < |picks| ==> 0 <= picks[r] < |v|)
    && (forall r :: 0 <= r < |picks| ==> RoundOk(f, v, nStart, nPrev, picks, r))
    && (forall r, q :: 0 <= r < q < |picks| ==> v[picks[r]].hash != v[picks[q]].hash)
  }

  lemma {:induction false} HashSetNext(v: seq<StakeBlock>, picks: seq<int>, p: int)
    requires 0 <= p < |v| && forall r :: 0 <= r < |picks| ==> 0 <= picks[r] < |v|
    ensures HashSet(v, picks + [p]) == HashSet(v, picks) + {v[p].hash}
  {
    var picks' := picks + [p];
    forall h ensures h in HashSet(v, picks') <==> h in HashSet(v, picks) || h == v[p].hash {
      if h in HashSet(v, picks) {
        var r :| 0 <= r < |picks| && v[picks[r]].hash == h;
        assert picks'[r] == picks[r];
      }
      assert picks'[|picks|] == p;
    }
  }

  lemma {:induction false} SelectionNext(f: ProofHash, v: seq<StakeBlock>, nStart: int, nPrev: nat, picks: seq<int>,
                                         p: int)
    requires Selection(f, v, nStart, nPrev, picks) && |picks| < 64
    requires Chosen(f, v, HashSet(v, picks), nStart + Sections(|picks| + 1), nPrev, p)
    ensures Selection(f, v, nStart, nPrev, picks + [p]) && HashSet(v, picks + [p]) == HashSet(v, picks) + {v[p].hash}
  {
    var picks' := picks + [p];
    HashSetNext(v, picks, p);
    assert Free(v, HashSet(v, picks), p);
    assert forall r :: 0 <= r < |picks| ==> v[picks[r]].hash in HashSet(v, picks);
    forall r | 0 <= r < |picks'| ensures RoundOk(f, v, nStart, nPrev, picks', r) {
      if r < |picks| {
        assert RoundOk(f, v, nStart, nPrev, picks, r) && picks'[..r] == picks[..r];
      } else {
        assert picks'[..r] == picks;
      }
    }
  }

  /** The entropy bits of the picks, the first one lowest. */
  function Bits(v: seq<StakeBlock>, picks: seq<int>, k: nat): (n: nat)
    requires k <= |picks| && forall r :: 0 <= r < |picks| ==> 0 <= picks[r] < |v|
    ensures n < Pow2(k)
  {
    if k == 0 then 0 else Bits(v, picks, k - 1) + v[picks[k - 1]].nEntropyBit * Pow2(k - 1)
  }

  lemma {:induction false} BitsPrefix(v: seq<StakeBlock>, picks: seq<int>, p: int, k: nat)
    requires k <= |picks| && 0 <= p < |v| && forall r :: 0 <= r < |picks| ==> 0 <= picks[r] < |v|
    ensures Bits(v, picks + [p], k) == Bits(v, picks, k)
  {
    if k > 0 { BitsPrefix(v, picks, p, k - 1); }
  }

  lemma {:induction false} BitsNext(v: seq<StakeBlock>, picks: seq<int>, p: int)
    requires 0 <= p < |v| && forall r :: 0 <= r < |picks| ==> 0 <= picks[r] < |v|
    ensures Bits(v, picks + [p], |picks| + 1) == Bits(v, picks, |picks|) + v[p].nEntropyBit * Pow2(|picks|)
  {
    BitsPrefix(v, picks, p, |picks|);
  }

  /** Bit r of the modifier is the entropy bit of the r-th pick. */
  lemma {:induction false} BitAt(v: seq<StakeBlock>, picks: seq<int>, k: nat, r: nat)
    requires r < k <= |picks| && forall i :: 0 <= i < |picks| ==> 0 <= picks[i] < |v|
    ensures Bits(v, picks, k) / Pow2(r) % 2 == v[picks[r]].nEntropyBit
    decreases k
  {
    var (low, bit) := (Bits(v, picks, k - 1), v[picks[k - 1]].nEntropyBit);
    if r == k - 1 {
      DivIs(bit * Pow2(r) + low, Pow2(r), bit, low);
    } else {
      BitAt(v, picks, k - 1, r);
      PowSplit(r, k - 1);
      HigherBits(low, bit, Pow2(r), Pow2(k - 1 - r));
    }
  }

  /** Adding a multiple of twice p leaves bit p alone. */
  lemma {:induction false} HigherBits(low: nat, bit: Bit, p: nat, q: nat)
    requires p > 0 && q % 2 == 0
    ensures (low + bit * (p * q)) / p % 2 == low / p % 2
  {
    var d := low / p;
    assert low == p * d + low % p;
    if bit == 1 {
      assert p * (d + q) == p * d + p * q;
      DivIs(low + p * q, p, d + q, low % p);
      assert 1 * (p * q) == p * q;
    } else {
      assert 0 * (p * q) == 0;
    }
  }

  lemma {:induction false} PowSplit(r: nat, k: nat)
    requires r < k
    ensures Pow2(k) == Pow2(r) * Pow2(k - r) && Pow2(k - r) % 2 == 0
  {
    if r > 0 {
      PowSplit(r - 1, k - 1);
      assert Pow2(k) == 2 * Pow2(k - 1) && Pow2(r) == 2 * Pow2(r - 1);
      hide Pow2;
      Twice(Pow2(r - 1), Pow2(k - r));
    }
  }

  lemma {:induction false} Twice(a: nat, b: nat)
    ensures 2 * (a * b) == (2 * a) * b
  {
  }

  /** There are 64 rounds, or as many as there are candidates, and n holds the bits of their picks. */
  ghost predicate ModifierOf(f: ProofHash, v: seq<StakeBlock>, nStart: int, nPrev: nat, n: nat) {
    exists picks :: Selection(f, v, nStart, nPrev, picks) && |picks| == Min(64, |v|) && n == Bits(v, picks, |picks|)
  }

  lemma {:induction false} SelectionOnce(f: ProofHash, v: seq<StakeBlock>, nStart: int, nPrev: nat, a: seq<int>,
                                         b: seq<int>, k: nat)
    requires Selection(f, v, nStart, nPrev, a) && Selection(f, v, nStart, nPrev, b) && k <= |a| == |b|
    ensures a[..k] == b[..k]
  {
    if k > 0 {
      var r := k - 1;
      SelectionOnce(f, v, nStart, nPrev, a, b, r);
      assert RoundOk(f, v, nStart, nPrev, a, r) && RoundOk(f, v, nStart, nPrev, b, r);
      ChosenOnce(f, v, HashSet(v, a[..r]), nStart + Sections(r + 1), nPrev, a[r], b[r]);
      assert a[..k] == a[..r] + [a[r]] && b[..k] == b[..r] + [b[r]];
    }
  }

  /** The candidates determine the modifier. */
  lemma {:induction false} ModifierOnce(f: ProofHash, v: seq<StakeBlock>, nStart: int, nPrev: nat, m: nat, n: nat)
    requires ModifierOf(f, v, nStart, nPrev, m) && ModifierOf(f, v, nStart, nPrev, n)
    ensures m == n
  {
    var a :| Selection(f, v, nStart, nPrev, a) && |a| == Min(64, |v|) && m == Bits(v, a, |a|);
    var b :| Selection(f, v, nStart, nPrev, b) && |b| == Min(64, |v|) && n == Bits(v, b, |b|);
    SelectionOnce(f, v, nStart, nPrev, a, b, |a|);
    assert a == a[..|a|] == b;
  }

  /** The rounds over the sorted candidates: each succeeds, and the picks and their bits are as
      described. */
  method SelectBits(f: ProofHash, v: seq<StakeBlock>, nStart: int, nPrev: nat) returns (nStakeModifierNew: nat)
    requires Ordered(v) && DistinctHashes(v)
    ensures ModifierOf(f, v, nStart, nPrev, nStakeModifierNew)
  {
    nStakeModifierNew := 0;
    ghost var picks: seq<int> := [];
    var nStop := nStart;
    var selected: set<Hash> := {};
    assert Selection(f, v, nStart, nPrev, []);
    assert Bits(v, [], 0) == 0;
    assert Sections(0) == 0;
    hide Bits, Pow2, Section, Chosen, DistinctHashes, Selection;
    for nRound := 0 to Min(64, |v|)
      invariant |picks| == nRound && Selection(f, v, nStart, nPrev, picks)
      invariant forall r :: 0 <= r < |picks| ==> 0 <= picks[r] < |v|
      invariant selected == HashSet(v, picks) && nStop == nStart + Sections(nRound)
      invariant nStakeModifierNew == Bits(v, picks, nRound)
    {
      assert Sections(nRound + 1) == Sections(nRound) + Section(nRound);
      nStop := nStop + Section(nRound);
      SomeFree(v, picks);
      var fSelected, pindex := SelectBlockFromCandidates(f, v, selected, nStop, nPrev);
      SelectionNext(f, v, nStart, nPrev, picks, pindex);
      BitsNext(v, picks, pindex);
      nStakeModifierNew := nStakeModifierNew + v[pindex].nEntropyBit * Pow2(nRound);
      selected := selected + {v[pindex].hash};
      picks := picks + [pindex];
    }
  }

  // ------------------------------------------------------------------------------------------
  // The next modifier
  // ------------------------------------------------------------------------------------------

  /** The last block at or below i that generated a modifier, or genesis. */
  function LastGenerated(path: seq<StakeBlock>, i: nat): (j: nat)
    requires i < |path|
    ensures j <= i && (j == 0 || path[j].fGenerated) && forall k :: j < k <= i ==> !path[k].fGenerated
  {
    if i == 0 || path[i].fGenerated then i else LastGenerated(path, i - 1)
  }

  method GetLastStakeModifier(path: seq<StakeBlock>) returns (ok: bool, nStakeModifier: nat, nModifierTime: nat)
    ensures ok <==> path != [] && path[LastGenerated(path, |path| - 1)].fGenerated
    ensures ok ==> nStakeModifier == path[LastGenerated(path, |path| - 1)].nStakeModifier
                   && nModifierTime == path[LastGenerated(path, |path| - 1)].nTime
  {
    if path == [] { return false, 0, 0; }
    var i := |path| - 1;
    while i > 0 && !path[i].fGenerated
      invariant 0 <= i < |path| && LastGenerated(path, i) == LastGenerated(path, |path| - 1)
    {
      i := i - 1;
    }
    if !path[i].fGenerated { return false, 0, 0; }
    return true, path[i].nStakeModifier, path[i].nTime;
  }

  /** The candidates: the blocks back to the last one before the selection interval. */
  predicate FirstCandidate(path: seq<StakeBlock>, nStart: int, first: nat) {
    && first <= |path| && (forall i :: first <= i < |path| ==> path[i].nTime >= nStart)
    && (first > 0 ==> path[first - 1].nTime < nStart)
  }

  /** The blocks from the first candidate on, in order of time and hash. */
  ghost predicate Candidates(path: seq<StakeBlock>, nStart: int, v: seq<StakeBlock>) {
    Ordered(v) && exists first: nat :: FirstCandidate(path, nStart, first) && multiset(v) == multiset(path[first..])
  }

  /** The selection interval ends with the last whole modifier interval before the previous block. */
  function SelectionStart(path: seq<StakeBlock>): int
    requires path != []
  {
    path[|path| - 1].nTime / MODIFIER_INTERVAL * MODIFIER_INTERVAL - Sections(64)
  }

  method ComputeNextStakeModifier(f: ProofHash, path: seq<StakeBlock>)
    returns (ok: bool, nStakeModifier: nat, fGenerated: bool)
    requires DistinctHashes(path)
    ensures path == [] ==> ok && fGenerated && nStakeModifier == 0
    ensures path != [] ==> (ok <==> path[LastGenerated(path, |path| - 1)].fGenerated)
    ensures path != [] && ok ==> (fGenerated <==>
      path[LastGenerated(path, |path| - 1)].nTime / MODIFIER_INTERVAL < path[|path| - 1].nTime / MODIFIER_INTERVAL)
    ensures path != [] && ok && !fGenerated ==> nStakeModifier == path[LastGenerated(path, |path| - 1)].nStakeModifier
    ensures path != [] && ok && fGenerated ==>
      exists v :: Candidates(path, SelectionStart(path), v) &&
        ModifierOf(f, v, SelectionStart(path), path[LastGenerated(path, |path| - 1)].nStakeModifier, nStakeModifier)
  {
    hide Selection, ModifierOf, Bits, Ordered, Sections;
    ok, nStakeModifier, fGenerated := true, 0, false;
    if path == [] { return true, 0, true; }
    var nModifierTime;
    ok, nStakeModifier, nModifierTime := GetLastStakeModifier(path);
    if !ok { return; }
    var nPrevTime := path[|path| - 1].nTime;
    if nModifierTime / MODIFIER_INTERVAL >= nPrevTime / MODIFIER_INTERVAL { return; }
    var nSelectionInterval := GetStakeModifierSelectionInterval();
    var nSelectionIntervalStart := nPrevTime / MODIFIER_INTERVAL * MODIFIER_INTERVAL - nSelectionInterval;
    var first := |path|;
    while first > 0 && path[first - 1].nTime >= nSelectionIntervalStart
      invariant 0 <= first <= |path| && forall i :: first <= i < |path| ==> path[i].nTime >= nSelectionIntervalStart
    {
      first := first - 1;
    }
    assert FirstCandidate(path, SelectionStart(path), first);
    var vSortedByTimestamp := Sort(path[first..]);
    SortedDistinct(path[first..], vSortedByTimestamp);
    assert Candidates(path, SelectionStart(path), vSortedByTimestamp);
    nStakeModifier := SelectBits(f, vSortedByTimestamp, nSelectionIntervalStart, nStakeModifier);
    fGenerated := true;
  }

  lemma {:induction false} SortedDistinct(v: seq<StakeBlock>, w: seq<StakeBlock>)
    requires DistinctHashes(v) && multiset(v) == multiset(w)
    ensures DistinctHashes(w)
  {
    Counted(v);
    forall i, j | 0 <= i < j < |w| ensures w[i].hash != w[j].hash {
      assert w[i] in multiset(v) && w[j] in multiset(v);
      Repeated(w, i, j);
      var a :| 0 <= a < |v| && v[a] == w[i];
      var b :| 0 <= b < |v| && v[b] == w[j];
      assert if a < b then v[a].hash != v[b].hash else v[b].hash != v[a].hash;
    }
  }

  lemma {:induction false} Repeated(w: seq<StakeBlock>, i: nat, j: nat)
    requires i < j < |w|
    ensures w[i] == w[j] ==> multiset(w)[w[i]] >= 2
  {
    assert w == w[..j] + [w[j]] + w[j + 1..];
    assert w[..j][i] == w[i];
  }

  lemma {:induction false} Counted(v: seq<StakeBlock>)
    requires DistinctHashes(v)
    ensures forall x :: multiset(v)[x] <= 1
  {
    if v != [] {
      var (rest, last) := (v[..|v| - 1], v[|v| - 1]);
      Counted(rest);
      assert v == rest + [last];
      assert last !in rest;
    }
  }
}
