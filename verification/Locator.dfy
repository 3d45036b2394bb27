/** Block locators (CBlockLocator, src/main.h): a list of ancestors, close together at first and then
    at doubling distances, by which another node finds the last block two branches share. */
module Locator {
  import opened Basics
  import opened Transactions
  import opened BlockTree

  /** The distance of entry k of a locator from its block: 0, 1, ..., 10, 11, 13, 17, 25, ... */
  function Dist(k: nat): (d: nat)
    ensures d >= k
  {
    if k <= 10 then k else 2 * Dist(k - 1) - 9
  }

  /** How far the walk steps from entry k to the next. */
  function Stride(k: nat): nat { Dist(k + 1) - Dist(k) }

  lemma {:induction false} DistIs(k: nat)
    ensures Stride(k) == if k <= 9 then 1 else Pow2(k - 10)
    ensures k >= 10 ==> Dist(k) == 9 + Pow2(k - 10)
  {
    if k >= 10 {
      if k == 10 { assert Dist(11) == 2 * Dist(10) - 9; } else { DistIs(k - 1); }
    }
  }

  /** The block d steps back. */
  function Up(t: Tree, h: Hash, d: nat): Hash
    requires h in t
    decreases Height(t, h)
  {
    if d == 0 || !HasParent(t, h) then h else Up(t, Parent(t, h), d - 1)
  }

  lemma {:induction false} UpIs(t: Tree, hashGenesis: Hash, h: Hash, d: nat)
    requires WellFormed(t, hashGenesis) && h in t && d <= t[h].nHeight
    ensures Up(t, h, d) in t && t[Up(t, h, d)].nHeight == t[h].nHeight - d && Anc(t, Up(t, h, d), h)
    decreases Height(t, h)
  {
    assert EntryOk(t, hashGenesis, h);
    if d > 0 { UpIs(t, hashGenesis, Parent(t, h), d - 1); }
  }

  lemma {:induction false} UpMore(t: Tree, hashGenesis: Hash, h: Hash, d: nat, e: nat)
    requires WellFormed(t, hashGenesis) && h in t && d + e <= t[h].nHeight
    ensures Up(t, h, d) in t && Up(t, Up(t, h, d), e) == Up(t, h, d + e)
    decreases Height(t, h)
  {
    assert EntryOk(t, hashGenesis, h);
    if d > 0 { UpMore(t, hashGenesis, Parent(t, h), d - 1, e); }
  }

  ghost predicate Entries(t: Tree, p: Hash, vHave: seq<Hash>, n: nat)
    requires p in t && n <= |vHave|
  {
    forall k :: 0 <= k < n ==> Dist(k) <= t[p].nHeight && vHave[k] == Up(t, p, Dist(k))
  }

  /** vHave lists the ancestors of p at the distances Dist, as far as they reach, and genesis. */
  ghost predicate LocatorOf(t: Tree, hashGenesis: Hash, p: Hash, vHave: seq<Hash>)
    requires p in t
  {
    && |vHave| >= 2 && vHave[|vHave| - 1] == hashGenesis
    && Entries(t, p, vHave, |vHave| - 1)
    && Dist(|vHave| - 1) > t[p].nHeight
  }

  /** One step of Set: nStep blocks back, or off the end. */
  method StepBack(t: Tree, hashGenesis: Hash, h: Hash, nStep: nat) returns (pindex: Option<Hash>)
    requires WellFormed(t, hashGenesis) && h in t
    ensures pindex == if nStep <= t[h].nHeight then Some(Up(t, h, nStep)) else None
  {
    pindex := Some(h);
    var i := 0;
    while pindex.Some? && i < nStep
      invariant 0 <= i <= nStep
      invariant pindex.Some? ==> i <= t[h].nHeight && pindex.value == Up(t, h, i)
      invariant pindex.None? ==> t[h].nHeight < nStep
      decreases nStep - i, pindex.Some?
    {
      UpIs(t, hashGenesis, h, i);
      assert EntryOk(t, hashGenesis, pindex.value);
      if i + 1 <= t[h].nHeight { UpMore(t, hashGenesis, h, i, 1); }
      pindex := t[pindex.value].pprev;
      i := i + 1;
    }
  }

  method Set(t: Tree, hashGenesis: Hash, p: Hash) returns (vHave: seq<Hash>)
    requires WellFormed(t, hashGenesis) && p in t
    ensures LocatorOf(t, hashGenesis, p, vHave)
  {
    hide WellFormed;
    vHave := [];
    var nStep := 1;
    var pindex := Some(p);
    DistIs(0);
    assert Dist(0) == 0 && Up(t, p, 0) == p && Entries(t, p, [], 0);
    while pindex.Some?
      invariant nStep == Stride(|vHave|)
      invariant Entries(t, p, vHave, |vHave|)
      invariant pindex == if Dist(|vHave|) <= t[p].nHeight then Some(Up(t, p, Dist(|vHave|))) else None
      decreases t[p].nHeight + 1 - |vHave|
    {
      ghost var k := |vHave|;
      vHave := vHave + [pindex.value];
      assert Entries(t, p, vHave, |vHave|);
      UpIs(t, hashGenesis, p, Dist(k));
      pindex := StepBack(t, hashGenesis, pindex.value, nStep);
      if Dist(k + 1) <= t[p].nHeight { UpMore(t, hashGenesis, p, Dist(k), nStep); }
      DistIs(k);
      DistIs(k + 1);
      if |vHave| > 10 { nStep := nStep * 2; }
    }
    assert |vHave| >= 1;
    vHave := vHave + [hashGenesis];
    assert Entries(t, p, vHave, |vHave| - 1);
  }

  predicate InMainChain(t: Tree, pnext: map<Hash, Hash>, best: Hash, h: Hash) { h in t && (h in pnext || h == best) }

  /** The first entry on the active branch, or none. */
  predicate FirstMatch(t: Tree, pnext: map<Hash, Hash>, best: Hash, vHave: seq<Hash>, k: nat)
    requires k <= |vHave|
  {
    && (forall j :: 0 <= j < k ==> !InMainChain(t, pnext, best, vHave[j]))
    && (k < |vHave| ==> InMainChain(t, pnext, best, vHave[k]))
  }

  /** The place of the first match at or after i; the length if there is none. */
  function Match(t: Tree, pnext: map<Hash, Hash>, best: Hash, vHave: seq<Hash>, i: nat): (k: nat)
    requires i <= |vHave| && forall j :: 0 <= j < i ==> !InMainChain(t, pnext, best, vHave[j])
    ensures k <= |vHave| && FirstMatch(t, pnext, best, vHave, k)
    decreases |vHave| - i
  {
    if i == |vHave| || InMainChain(t, pnext, best, vHave[i]) then i else Match(t, pnext, best, vHave, i + 1)
  }

  method GetBlockIndex(t: Tree, hashGenesis: Hash, pnext: map<Hash, Hash>, best: Hash, vHave: seq<Hash>)
    returns (pindex: Hash)
    ensures var k := Match(t, pnext, best, vHave, 0); pindex == if k < |vHave| then vHave[k] else hashGenesis
  {
    for i := 0 to |vHave|
      invariant forall j :: 0 <= j < i ==> !InMainChain(t, pnext, best, vHave[j])
    {
      if InMainChain(t, pnext, best, vHave[i]) { return vHave[i]; }
    }
    return hashGenesis;
  }

  method GetDistanceBack(t: Tree, pnext: map<Hash, Hash>, best: Hash, vHave: seq<Hash>) returns (nDistance: nat)
    ensures nDistance == Dist(Match(t, pnext, best, vHave, 0))
  {
    nDistance := 0;
    var nStep := 1;
    DistIs(0);
    for i := 0 to |vHave|
      invariant forall j :: 0 <= j < i ==> !InMainChain(t, pnext, best, vHave[j])
      invariant nDistance == Dist(i) && nStep == Stride(i)
    {
      if InMainChain(t, pnext, best, vHave[i]) { return; }
      DistIs(i);
      DistIs(i + 1);
      nDistance := nDistance + nStep;
      if nDistance > 10 { nStep := nStep * 2; }
    }
  }

  // ------------------------------------------------------------------------------------------
  // How good the match is
  // ------------------------------------------------------------------------------------------

  /** An ancestor is on the active branch exactly when it is not above the fork. */
  lemma {:induction false} ActiveFromFork(t: Tree, hashGenesis: Hash, p: Hash, best: Hash, fork: Hash, d: nat)
    requires WellFormed(t, hashGenesis) && p in t && best in t && HighestCommon(t, fork, p, best) && d <= t[p].nHeight
    ensures fork in t && t[fork].nHeight <= t[p].nHeight
    ensures Anc(t, Up(t, p, d), best) <==> d >= t[p].nHeight - t[fork].nHeight
  {
    UpIs(t, hashGenesis, p, d);
    var a := Up(t, p, d);
    AncInTree(t, fork, p);
    if Anc(t, a, best) {
      AncInTree(t, a, fork);
    } else if t[a].nHeight <= t[fork].nHeight {
      AncLinear(t, a, fork, p);
      AncTrans(t, a, fork, best);
    }
  }

  /** The block found through the locator of p is an ancestor of p on the active branch, at most twice
      as far from p as the fork; the distance computed from the locator is the true one, unless the
      match is the genesis hash at its end. */
  lemma {:induction false} MatchIsNear(t: Tree, hashGenesis: Hash, p: Hash, best: Hash, fork: Hash, vHave: seq<Hash>,
                                       k: nat)
    requires WellFormed(t, hashGenesis) && p in t && best in t && HighestCommon(t, fork, p, best)
    requires LocatorOf(t, hashGenesis, p, vHave) && k <= |vHave| && FirstMatch(t, Links(t, best), best, vHave, k)
    ensures k < |vHave| && Anc(t, vHave[k], p) && Anc(t, vHave[k], best)
    ensures fork in t && vHave[k] in t
    ensures t[p].nHeight - t[vHave[k]].nHeight <= 2 * (t[p].nHeight - t[fork].nHeight)
    ensures k < |vHave| - 1 ==> Dist(k) == t[p].nHeight - t[vHave[k]].nHeight
  {
    hide WellFormed, LocatorOf, FirstMatch;
    var (n, height) := (|vHave| - 1, t[p].nHeight);
    GenesisFound(t, hashGenesis, p, best, vHave, k);
    AncInTree(t, fork, p);
    var far := height - t[fork].nHeight;
    if k < n {
      EntryIs(t, hashGenesis, p, best, fork, vHave, k);
    }
    if k > 0 {
      EntryIs(t, hashGenesis, p, best, fork, vHave, k - 1);
      NotYet(t, hashGenesis, p, best, vHave, k);
      assert Dist(k - 1) < far;
      NextDist(k - 1);
    }
  }

  lemma {:induction false} NextDist(k: nat)
    ensures Dist(k + 1) <= 2 * Dist(k) + 1 && Dist(k + 1) <= 2 * (Dist(k) + 1)
  {
  }

  lemma {:induction false} EntryIs(t: Tree, hashGenesis: Hash, p: Hash, best: Hash, fork: Hash, vHave: seq<Hash>,
                                   k: nat)
    requires WellFormed(t, hashGenesis) && p in t && best in t && HighestCommon(t, fork, p, best)
    requires LocatorOf(t, hashGenesis, p, vHave) && k < |vHave| - 1
    ensures vHave[k] in t && Anc(t, vHave[k], p) && t[vHave[k]].nHeight == t[p].nHeight - Dist(k) && fork in t
    ensures InMainChain(t, Links(t, best), best, vHave[k]) <==> Dist(k) >= t[p].nHeight - t[fork].nHeight
  {
    UpIs(t, hashGenesis, p, Dist(k));
    ActiveFromFork(t, hashGenesis, p, best, fork, Dist(k));
    OnActiveBranch(t, vHave[k], best);
  }

  lemma {:induction false} NotYet(t: Tree, hashGenesis: Hash, p: Hash, best: Hash, vHave: seq<Hash>, k: nat)
    requires p in t && LocatorOf(t, hashGenesis, p, vHave) && 0 < k < |vHave|
    requires FirstMatch(t, Links(t, best), best, vHave, k)
    ensures !InMainChain(t, Links(t, best), best, vHave[k - 1])
    ensures Dist(|vHave| - 1) > t[p].nHeight
  {
  }

  /** Genesis is on every branch, so some entry matches. */
  lemma {:induction false} GenesisFound(t: Tree, hashGenesis: Hash, p: Hash, best: Hash, vHave: seq<Hash>, k: nat)
    requires WellFormed(t, hashGenesis) && p in t && best in t
    requires LocatorOf(t, hashGenesis, p, vHave) && k <= |vHave| && FirstMatch(t, Links(t, best), best, vHave, k)
    ensures 2 <= |vHave| && k < |vHave| && InMainChain(t, Links(t, best), best, vHave[k]) && Anc(t, vHave[k], best)
    ensures k == |vHave| - 1 ==> vHave[k] == hashGenesis && t[hashGenesis].nHeight == 0 && Anc(t, hashGenesis, p)
  {
    GenesisIsRoot(t, hashGenesis, best);
    GenesisIsRoot(t, hashGenesis, p);
    OnActiveBranch(t, hashGenesis, best);
    assert InMainChain(t, Links(t, best), best, vHave[|vHave| - 1]);
    OnActiveBranch(t, vHave[k], best);
  }

  /** A locator is short: at most 13 entries more than the binary logarithm of the height. */
  lemma {:induction false} LocatorIsShort(t: Tree, hashGenesis: Hash, p: Hash, vHave: seq<Hash>)
    requires p in t && LocatorOf(t, hashGenesis, p, vHave)
    ensures |vHave| >= 13 ==> Pow2(|vHave| - 13) <= t[p].nHeight + 1
  {
    var last := |vHave| - 2;
    DistIs(last);
    if |vHave| >= 13 { PowGrows(last - 11, last - 10); }
  }

  lemma {:induction false} PowGrows(a: nat, b: nat)
    requires a <= b
    ensures 0 < Pow2(a) <= Pow2(b)
    decreases b
  {
    if a < b { PowGrows(a, b - 1); } else if a > 0 { PowGrows(a - 1, b - 1); }
  }
}
