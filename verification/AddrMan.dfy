/** The address manager (src/addrman.cpp): five cross-linked tables changed in place. */
module AddrMan {
  import opened Basics
  import opened AddrTables
  import opened AddrGroups

  /** GetRandInt: any number below nMax. */
  method GetRandInt(nMax: int) returns (r: int)
    requires nMax > 0
    ensures 0 <= r < nMax
  {
    assert 0 <= 0 < nMax;
    r :| 0 <= r < nMax;
  }

  function NewInfo(addr: Address, source: NetAddr, nRandomPos: int): AddrInfo {
    AddrInfo(addr.service, addr.nServices, addr.nTime, source, 0, 0, 0, 0, false, nRandomPos)
  }

  lemma {:induction false} HasLeast(s: set<int>) returns (x: int)
    requires s != {}
    ensures x in s && forall y :: y in s ==> x <= y
    decreases |s|
  {
    x := SomeElement(s);
    var rest := s - {x};
    if rest == {} {
      assert forall y :: y in s ==> y in rest || y == x;
    } else {
      var z := HasLeast(rest);
      assert forall y :: y in s ==> y in rest || y == x;
      x := Min(x, z);
    }
  }

  /** Where an iterator over the set starts. */
  method First(s: set<int>) returns (x: int)
    requires s != {}
    ensures x in s && forall y :: y in s ==> x <= y
  {
    ghost var least := HasLeast(s);
    x :| x in s && forall y :: y in s ==> x <= y;
  }

  /** The order in which an iterator visits the set. */
  ghost function InOrder(s: set<int>): (v: seq<int>)
    ensures |v| == |s| && forall x :: x in v <==> x in s
    decreases |s|
  {
    if s == {} then []
    else
      assert exists x :: x in s && forall y :: y in s ==> x <= y by { var x := HasLeast(s); }
      var x :| x in s && forall y :: y in s ==> x <= y;
      assert forall z :: z in s <==> z == x || z in s - {x};
      [x] + InOrder(s - {x})
  }

  lemma {:induction false} InOrderNext(s: set<int>, x: int)
    requires x in s && forall y :: y in s ==> x <= y
    ensures InOrder(s) == [x] + InOrder(s - {x})
  {
  }

  lemma {:induction false} SwapReorders(s: seq<int>, p: int, q: int)
    requires Distinct(s) && 0 <= p < |s| && 0 <= q < |s|
    ensures Reordered(s, s[p := s[q]][q := s[p]])
  {
    var s' := s[p := s[q]][q := s[p]];
    forall x ensures x in s <==> x in s' {
      if x in s {
        var k :| 0 <= k < |s| && s[k] == x;
        assert s'[if k == p then q else if k == q then p else k] == x;
      }
    }
  }

  function At(s: seq<int>, k: int): set<int> { if 0 <= k < |s| then {s[k]} else {} }

  type Positions = (int, int, int, int)

  predicate Below(n: Positions, size: int) { 0 <= n.0 < size && 0 <= n.1 < size && 0 <= n.2 < size && 0 <= n.3 < size }

  predicate IsPosition(n: Positions, k: int) { k == n.0 || k == n.1 || k == n.2 || k == n.3 }

  /** The entries at four positions of an iteration. */
  function Sample(s: seq<int>, n: Positions): (sample: set<int>)
    ensures |sample| <= 4 && forall x :: x in sample ==> x in s
  {
    At(s, n.0) + At(s, n.1) + At(s, n.2) + At(s, n.3)
  }

  /** The oldest of the entries, and the first among equally old ones. */
  predicate Oldest(infos: Infos, sample: set<int>, id: int)
    requires sample <= infos.Keys
  {
    id in sample && forall x :: x in sample ==>
      infos[id].nTime < infos[x].nTime || (infos[id].nTime == infos[x].nTime && id <= x)
  }

  lemma {:induction false} SampleNext(s: seq<int>, n: Positions, x: int)
    ensures Sample(s + [x], n) ==
            Sample(s, n) + if IsPosition(n, |s|) then {x} else {}
  {
    assert forall k :: At(s + [x], k) == At(s, k) + if |s| == k then {x} else {};
  }

  lemma {:induction false} SampleEnds(s: seq<int>, n: Positions)
    ensures Sample([], n) == {}
    ensures 0 <= n.0 < |s| ==> s[n.0] in Sample(s, n)
  {
  }

  /** The choice after the entries seen so far; -1 if none was at one of the positions. */
  ghost predicate OldestSoFar(infos: Infos, seen: seq<int>, n: Positions, nOldest: int) {
    if nOldest == -1 then Sample(seen, n) == {}
    else Sample(seen, n) <= infos.Keys && Oldest(infos, Sample(seen, n), nOldest)
  }

  lemma {:induction false} OldestNext(infos: Infos, seen: seq<int>, n: Positions, nOldest: int, it: int, nOldest': int)
    requires OldestSoFar(infos, seen, n, nOldest) && it in infos && it >= 0 && forall x :: x in seen ==> x <= it
    requires nOldest' ==
      if IsPosition(n, |seen|) &&
        (nOldest == -1 || (nOldest in infos && infos[it].nTime < infos[nOldest].nTime)) then it else nOldest
    ensures OldestSoFar(infos, seen + [it], n, nOldest')
  {
    hide Sample;
    SampleNext(seen, n, it);
    var s := Sample(seen, n);
    if IsPosition(n, |seen|) {
      assert forall x :: x in s ==> x <= it;
      if nOldest == -1 { assert Sample(seen + [it], n) == {it}; }
    }
  }

  /** The scan has passed `seen`, the part of the bucket before `todo`. */
  ghost predicate Scan(infos: Infos, s: set<int>, todo: set<int>, seen: seq<int>, n: Positions, nOldest: int) {
    && todo <= s && |seen| == |s| - |todo| && seen + InOrder(todo) == InOrder(s)
    && (forall x, y :: x in seen && y in todo ==> x <= y)
    && OldestSoFar(infos, seen, n, nOldest)
  }

  lemma {:induction false} ScanStarts(infos: Infos, s: set<int>, n: Positions)
    ensures Scan(infos, s, s, [], n, -1)
  {
  }

  lemma {:induction false} ScanNext(infos: Infos, s: set<int>, todo: set<int>, seen: seq<int>, n: Positions,
                                    nOldest: int, it: int, nOldest': int)
    requires Scan(infos, s, todo, seen, n, nOldest) && it in todo && it in infos && it >= 0
    requires forall y :: y in todo ==> it <= y
    requires nOldest' ==
      if IsPosition(n, |seen|) &&
        (nOldest == -1 || (nOldest in infos && infos[it].nTime < infos[nOldest].nTime)) then it
      else nOldest
    ensures Scan(infos, s, todo - {it}, seen + [it], n, nOldest')
  {
    hide InOrder, OldestSoFar;
    InOrderNext(todo, it);
    OldestNext(infos, seen, n, nOldest, it, nOldest');
    assert (seen + [it]) + InOrder(todo - {it}) == seen + InOrder(todo);
  }

  lemma {:induction false} ScanEnds(infos: Infos, s: set<int>, seen: seq<int>, n: Positions, nOldest: int)
    requires Scan(infos, s, {}, seen, n, nOldest) && Below(n, |s|) && s <= infos.Keys
    ensures nOldest in s && Oldest(infos, Sample(InOrder(s), n), nOldest)
  {
    assert seen == InOrder(s);
    SampleEnds(seen, n);
  }

  lemma {:induction false} ScanIn(infos: Infos, s: set<int>, todo: set<int>, seen: seq<int>, n: Positions, nOldest: int)
    requires Scan(infos, s, todo, seen, n, nOldest)
    ensures todo <= s && |seen| == |s| - |todo| && (nOldest != -1 ==> nOldest in infos)
  {
  }

  lemma {:induction false} BucketEntry(infos: Infos, bs: Buckets, pending: int, id: int, b: int)
    requires NewAgree(infos, bs, pending) && 0 <= b < |bs| && id in bs[b] && id != pending
    ensures id in infos && infos[id].nRefCount >= 1
  {
    assert RefsOk(infos, bs, pending, id);
  }

  /** What a repeated announcement of a known address changes. */
  function Refreshed(info: AddrInfo, addr: Address, nTimePenalty: int, nNow: int): AddrInfo {
    var nUpdateInterval := if nNow - addr.nTime < 24 * 60 * 60 then 60 * 60 else 24 * 60 * 60;
    var nTime := if addr.nTime != 0 && (info.nTime == 0 || info.nTime < addr.nTime - nUpdateInterval - nTimePenalty)
      then Max(0, addr.nTime - nTimePenalty) else info.nTime;
    info.(nTime := nTime, nServices := info.nServices + addr.nServices)
  }

  /** The entry that makes room in the full bucket b: one that may be forgotten, or, if there is none,
      the oldest of the entries at four positions. */
  ghost predicate Displaced(infos: Infos, bs: Buckets, b: int, victim: int, nNow: int) {
    && 0 <= b < |bs| && |bs[b]| == NEW_BUCKET_SIZE && bs[b] <= infos.Keys && victim in bs[b]
    && (Dispensable(infos[victim], nNow) ||
        ((forall x :: x in bs[b] ==> !Dispensable(infos[x], nNow)) &&
         exists n :: Below(n, |bs[b]|) && Oldest(infos, Sample(InOrder(bs[b]), n), victim)))
  }

  /** A change of an entry outside the bucket does not matter. */
  lemma {:induction false} DisplacedElsewhere(infos: Infos, infos': Infos, bs: Buckets, b: int, victim: int, nNow: int,
                                              nId: int)
    requires Displaced(infos', bs, b, victim, nNow) && nId in infos' && !(0 <= b < |bs| && nId in bs[b])
    requires infos' == infos[nId := infos'[nId]]
    ensures Displaced(infos, bs, b, victim, nNow)
  {
    hide Dispensable, InOrder, Below;
    if !Dispensable(infos[victim], nNow) {
      var n :| Below(n, |bs[b]|) && Oldest(infos', Sample(InOrder(bs[b]), n), victim);
      assert forall x :: x in Sample(InOrder(bs[b]), n) ==> x in bs[b] && infos'[x] == infos[x];
      assert Oldest(infos, Sample(InOrder(bs[b]), n), victim);
    }
  }

  function OneMoreRef(info: AddrInfo): AddrInfo { info.(nRefCount := info.nRefCount + 1) }

  /** Round i of SelectTried draws from position i on. */
  predicate ChoicesOk(choices: seq<int>, size: int) {
    |choices| <= size && forall i :: 0 <= i < |choices| ==> i <= choices[i] < size
  }

  /** A tried bucket after the exchanges of SelectTried. */
  function Drawn(v: seq<int>, choices: seq<int>): (w: seq<int>)
    requires ChoicesOk(choices, |v|)
    ensures |w| == |v|
  {
    if choices == [] then v
    else
      var i := |choices| - 1;
      var u := Drawn(v, choices[..i]);
      u[choices[i] := u[i]][i := u[choices[i]]]
  }

  lemma {:induction false} DrawnNone(v: seq<int>)
    ensures Drawn(v, []) == v
  {
  }

  lemma {:induction false} DrawnNext(v: seq<int>, choices: seq<int>, nPos: int)
    requires ChoicesOk(choices, |v|) && |choices| <= nPos < |v|
    ensures ChoicesOk(choices + [nPos], |v|)
    ensures var (u, i) := (Drawn(v, choices), |choices|);
      Drawn(v, choices + [nPos]) == u[nPos := u[i]][i := u[nPos]]
  {
    assert (choices + [nPos])[..|choices|] == choices;
  }

  /** The position SelectTried returns is that of the entry it found only if that was not moved: in
      this bucket both entries are drawn, the first round finds entry a, and b now has its place. */
  lemma {:induction false} SelectTriedMisses(a: int, b: int)
    requires a != b
    ensures Drawn([b, a], [1, 1])[0] == a && Drawn([b, a], [1, 1])[1] == b
  {
    assert [1, 1][..1] == [1] && [1][..0] == [];
    assert Drawn([b, a], [1]) == [a, b];
  }

  class CAddrMan {
    var hasher: Hasher
    var nIdCount: int
    var mapInfo: Infos
    var mapAddr: map<NetAddr, int>
    var vRandom: seq<int>
    var nTried: int
    var vvTried: seq<seq<int>>
    var nNew: int
    var vvNew: Buckets

    ghost predicate Ids()
      reads this`mapInfo, this`mapAddr, this`vRandom, this`nIdCount
    {
      IdsAgree(mapInfo, mapAddr, vRandom, nIdCount)
    }

    ghost predicate Table(pending: int)
      reads this`hasher, this`mapInfo, this`vvTried, this`nNew, this`nTried, this`vvNew
    {
      && NewAgree(mapInfo, vvNew, pending) && TriedAgree(mapInfo, hasher, vvTried) && TimesOk(mapInfo)
      && nNew == |NewIds(mapInfo)| && nTried == |TriedIds(mapInfo)|
    }

    /** Everything Check_ tests, and more; `pending` as in RefsOk. */
    ghost predicate Consistent(pending: int) reads this { Ids() && Table(pending) }

    ghost predicate Valid() reads this { Consistent(-1) }

    constructor (hasher: Hasher)
      ensures Valid() && mapInfo == map[] && this.hasher == hasher
    {
      this.hasher := hasher;
      nIdCount, nTried, nNew := 0, 0, 0;
      mapInfo, mapAddr, vRandom := map[], map[], [];
      vvTried := seq(TRIED_BUCKET_COUNT, _ => []);
      vvNew := seq(NEW_BUCKET_COUNT, _ => {});
      new;
      assert NewIds(mapInfo) == {} && TriedIds(mapInfo) == {};
    }

    method Find(addr: NetAddr) returns (found: bool, nId: int)
      requires Ids()
      ensures found <==> addr in mapAddr
      ensures found ==> nId == mapAddr[addr] && nId in mapInfo && mapInfo[nId].service.ip == addr
    {
      found, nId := addr in mapAddr, 0;
      if found { nId := mapAddr[addr]; }
    }

    method Create(addr: Address, source: NetAddr) returns (nId: int)
      requires Ids() && addr.service.ip !in mapAddr
      modifies this`nIdCount, this`mapInfo, this`mapAddr, this`vRandom
      ensures Ids() && nId == old(nIdCount) && nId !in old(mapInfo) && nIdCount == nId + 1
      ensures mapInfo == old(mapInfo)[nId := NewInfo(addr, source, |old(vRandom)|)]
      ensures mapAddr == old(mapAddr)[addr.service.ip := nId] && vRandom == old(vRandom) + [nId]
    {
      hide IdsAgree;
      IdRange(mapInfo, mapAddr, vRandom, nIdCount);
      AppendEntry(mapInfo, mapAddr, vRandom, nIdCount, NewInfo(addr, source, |vRandom|));
      nId := nIdCount;
      nIdCount := nIdCount + 1;
      mapInfo := mapInfo[nId := NewInfo(addr, source, -1)];
      mapAddr := mapAddr[addr.service.ip := nId];
      mapInfo := mapInfo[nId := mapInfo[nId].(nRandomPos := |vRandom|)];
      vRandom := vRandom + [nId];
      assert mapInfo == old(mapInfo)[nId := NewInfo(addr, source, old(|vRandom|))];
    }

    method SwapRandom(nRndPos1: int, nRndPos2: int)
      requires Ids() && 0 <= nRndPos1 < |vRandom| && 0 <= nRndPos2 < |vRandom|
      modifies this`mapInfo, this`vRandom
      ensures Ids() && SameExceptPos(old(mapInfo), mapInfo)
      ensures vRandom == old(vRandom[nRndPos1 := vRandom[nRndPos2]][nRndPos2 := vRandom[nRndPos1]])
    {
      if nRndPos1 == nRndPos2 { return; }
      SwapKeepsIds(mapInfo, mapAddr, vRandom, nIdCount, nRndPos1, nRndPos2);
      var nId1, nId2 := vRandom[nRndPos1], vRandom[nRndPos2];
      mapInfo := mapInfo[nId1 := mapInfo[nId1].(nRandomPos := nRndPos2)];
      mapInfo := mapInfo[nId2 := mapInfo[nId2].(nRandomPos := nRndPos1)];
      vRandom := vRandom[nRndPos1 := nId2];
      vRandom := vRandom[nRndPos2 := nId1];
    }

    /** Forgets an entry no bucket refers to any more. */
    method Delete(nId: int)
      requires Ids() && nId in mapInfo
      modifies this`mapInfo, this`mapAddr, this`vRandom
      ensures Ids() && SameExceptPos(old(mapInfo) - {nId}, mapInfo)
      ensures mapAddr == old(mapAddr) - {old(mapInfo)[nId].service.ip}
    {
      assert IdOk(mapInfo, mapAddr, vRandom, nIdCount, nId);
      SwapRandom(mapInfo[nId].nRandomPos, |vRandom| - 1);
      assert IdOk(mapInfo, mapAddr, vRandom, nIdCount, nId);
      DropLast(mapInfo, mapAddr, vRandom, nIdCount, nId);
      vRandom := vRandom[..|vRandom| - 1];
      mapAddr := mapAddr - {mapInfo[nId].service.ip};
      mapInfo := mapInfo - {nId};
    }

    /** Takes nId out of one "new" bucket, and out of the tables if that was the last one. */
    method Release(nUBucket: int, nId: int, ghost pending: int)
      requires Consistent(pending) && 0 <= nUBucket < |vvNew| && nId in vvNew[nUBucket] && nId != pending
      modifies this`mapInfo, this`mapAddr, this`vRandom, this`nNew, this`vvNew
      ensures Consistent(pending) && SameExceptPos(old(Released(mapInfo, nId)), mapInfo)
      ensures vvNew == old(vvNew[nUBucket := vvNew[nUBucket] - {nId}])
      ensures mapAddr == if old(mapInfo[nId].nRefCount) == 1 then old(mapAddr - {mapInfo[nId].service.ip})
        else old(mapAddr)
    {
      hide IdsAgree, TriedAgree, TimesOk;
      BucketEntry(mapInfo, vvNew, pending, nId, nUBucket);
      ReleaseOne(mapInfo, hasher, vvNew, vvTried, pending, nId, nUBucket);
      ghost var after := Released(mapInfo, nId);
      var info := mapInfo[nId];
      ChangeEntry(mapInfo, mapAddr, vRandom, nIdCount, nId, info.(nRefCount := info.nRefCount - 1));
      mapInfo := mapInfo[nId := info.(nRefCount := info.nRefCount - 1)];
      if mapInfo[nId].nRefCount == 0 {
        Delete(nId);
        nNew := nNew - 1;
      }
      vvNew := vvNew[nUBucket := vvNew[nUBucket] - {nId}];
      PosIrrelevant(after, mapInfo, hasher, vvNew, vvTried, pending);
    }

    /** The first deletable entry of a "new" bucket. */
    method FirstTerrible(nUBucket: int, nNow: int) returns (found: bool, id: int)
      requires 0 <= nUBucket < |vvNew| && vvNew[nUBucket] <= mapInfo.Keys
      ensures found ==> id in vvNew[nUBucket] && mapInfo[id].IsTerrible(nNow)
      ensures found ==> forall x :: x in vvNew[nUBucket] && mapInfo[x].IsTerrible(nNow) ==> id <= x
      ensures !found ==> forall x :: x in vvNew[nUBucket] ==> !mapInfo[x].IsTerrible(nNow)
    {
      var todo := vvNew[nUBucket];
      while todo != {}
        invariant todo <= vvNew[nUBucket]
        invariant forall x :: x in vvNew[nUBucket] - todo ==> !mapInfo[x].IsTerrible(nNow)
        decreases |todo|
      {
        id := First(todo);
        if mapInfo[id].IsTerrible(nNow) { return true, id; }
        todo := todo - {id};
      }
      return false, 0;
    }

    /** The oldest of the entries at four random positions of a "new" bucket. */
    method OldestOfFour(nUBucket: int) returns (nOldest: int, ghost n: Positions)
      requires 0 <= nUBucket < |vvNew| && vvNew[nUBucket] <= mapInfo.Keys && vvNew[nUBucket] != {}
      requires forall x :: x in vvNew[nUBucket] ==> x >= 0
      ensures nOldest in vvNew[nUBucket] && Below(n, |vvNew[nUBucket]|)
      ensures Oldest(mapInfo, Sample(InOrder(vvNew[nUBucket]), n), nOldest)
    {
      var vNew := vvNew[nUBucket];
      var n0 := GetRandInt(|vNew|);
      var n1 := GetRandInt(|vNew|);
      var n2 := GetRandInt(|vNew|);
      var n3 := GetRandInt(|vNew|);
      var positions := (n0, n1, n2, n3);
      n := positions;
      var nI := 0;
      nOldest := -1;
      var todo := vNew;
      ghost var seen: seq<int> := [];
      hide Sample, InOrder, Oldest, IsPosition, Scan;
      ScanStarts(mapInfo, vNew, n);
      while todo != {}
        invariant nI == |seen| && Scan(mapInfo, vNew, todo, seen, n, nOldest)
        decreases |todo|
      {
        ScanIn(mapInfo, vNew, todo, seen, n, nOldest);
        var it := First(todo);
        ghost var before := nOldest;
        if IsPosition(positions, nI) {
          if nOldest == -1 || mapInfo[it].nTime < mapInfo[nOldest].nTime { nOldest := it; }
        }
        ScanNext(mapInfo, vNew, todo, seen, n, before, it, nOldest);
        nI := nI + 1;
        todo := todo - {it};
        seen := seen + [it];
      }
      ScanEnds(mapInfo, vNew, seen, n, nOldest);
    }

    /** Makes room in a "new" bucket, dropping one reference. */
    method ShrinkNew(nUBucket: int, nNow: int, ghost pending: int)
      returns (r: int, ghost victim: int, ghost n: Positions)
      requires Consistent(pending) && 0 <= nUBucket < |vvNew| && vvNew[nUBucket] != {} && pending !in vvNew[nUBucket]
      modifies this`mapInfo, this`mapAddr, this`vRandom, this`nNew, this`vvNew
      ensures Consistent(pending)
      ensures victim in old(vvNew[nUBucket]) && victim in old(mapInfo)
      ensures old(vvNew[nUBucket]) <= old(mapInfo).Keys
      ensures r == 0 <==> exists x :: x in old(vvNew[nUBucket]) && x in old(mapInfo) && old(mapInfo)[x].IsTerrible(nNow)
      ensures r == 0 ==>
        && old(mapInfo)[victim].IsTerrible(nNow)
        && forall x :: x in old(vvNew[nUBucket]) && old(mapInfo)[x].IsTerrible(nNow) ==> victim <= x
      ensures r == 0 ==> Dispensable(old(mapInfo)[victim], nNow)
      ensures r != 0 ==> forall x :: x in old(vvNew[nUBucket]) ==> !Dispensable(old(mapInfo)[x], nNow)
      ensures r != 0 ==>
        Below(n, |old(vvNew[nUBucket])|) && Oldest(old(mapInfo), Sample(InOrder(old(vvNew[nUBucket])), n), victim)
      ensures SameExceptPos(old(Released(mapInfo, victim)), mapInfo)
      ensures vvNew == old(vvNew)[nUBucket := old(vvNew[nUBucket]) - {victim}]
      ensures mapAddr ==
              if old(mapInfo)[victim].nRefCount == 1 then old(mapAddr) - {old(mapInfo)[victim].service.ip}
                else old(mapAddr)
    {
      TerribleIsDispensable(nNow);
      hide IdsAgree, TriedAgree, TimesOk, AddrInfo.IsTerrible, Dispensable;
      IdRange(mapInfo, mapAddr, vRandom, nIdCount);
      assert vvNew[nUBucket] <= mapInfo.Keys by {
        assert forall id :: id in vvNew[nUBucket] ==> id in mapInfo;
      }
      var found, it := FirstTerrible(nUBucket, nNow);
      if found {
        victim, n := it, (0, 0, 0, 0);
        Release(nUBucket, it, pending);
        return 0, victim, n;
      }
      var nOldest;
      nOldest, n := OldestOfFour(nUBucket);
      victim := nOldest;
      Release(nUBucket, nOldest, pending);
      r := 1;
    }

    /** A position in a full tried bucket, whose order is changed on the way.  The least recently tried
        of the entries drawn is moved to position `found`; the position returned is the one it was
        drawn from. */
    method SelectTried(nKBucket: int) returns (nOldestPos: int, ghost found: int, ghost choices: seq<int>)
      requires 0 <= nKBucket < |vvTried| && Distinct(vvTried[nKBucket]) && vvTried[nKBucket] != []
      requires forall k :: 0 <= k < |vvTried[nKBucket]| ==>
        vvTried[nKBucket][k] in mapInfo && vvTried[nKBucket][k] != -1
      modifies this`vvTried
      ensures |vvTried| == |old(vvTried)| && vvTried == old(vvTried)[nKBucket := vvTried[nKBucket]]
      ensures Reordered(old(vvTried[nKBucket]), vvTried[nKBucket])
      ensures 0 <= nOldestPos < |vvTried[nKBucket]|
      ensures ChoicesOk(choices, |vvTried[nKBucket]|)
      ensures |choices| == Min(TRIED_ENTRIES_INSPECT_ON_EVICT, |vvTried[nKBucket]|)
      ensures 0 <= found < |choices| && nOldestPos == choices[found]
      ensures forall k :: 0 <= k < |choices| ==>
                vvTried[nKBucket][k] in mapInfo && vvTried[nKBucket][found] in mapInfo
                && mapInfo[vvTried[nKBucket][found]].nLastSuccess <= mapInfo[vvTried[nKBucket][k]].nLastSuccess
      ensures vvTried[nKBucket] == Drawn(old(vvTried[nKBucket]), choices)
      ensures vvTried[nKBucket][nOldestPos] == vvTried[nKBucket][found] <==> choices[found] == found
    {
      hide Drawn;
      ghost var was := vvTried[nKBucket];
      DrawnNone(was);
      var nOldest, i := -1, 0;
      nOldestPos, found, choices := -1, -1, [];
      while i < TRIED_ENTRIES_INSPECT_ON_EVICT && i < |vvTried[nKBucket]|
        invariant 0 <= i <= |was| && |vvTried| == |old(vvTried)|
        invariant vvTried == old(vvTried)[nKBucket := vvTried[nKBucket]]
        invariant Reordered(was, vvTried[nKBucket])
        invariant forall k :: 0 <= k < |was| ==> vvTried[nKBucket][k] in mapInfo && vvTried[nKBucket][k] != -1
        invariant i <= TRIED_ENTRIES_INSPECT_ON_EVICT && |choices| == i && ChoicesOk(choices, |was|)
        invariant vvTried[nKBucket] == Drawn(was, choices)
        invariant if i == 0 then nOldest == -1
                  else 0 <= found < i && nOldestPos == choices[found] && nOldest == vvTried[nKBucket][found]
        invariant forall k :: 0 <= k < i ==>
                    mapInfo[vvTried[nKBucket][found]].nLastSuccess <= mapInfo[vvTried[nKBucket][k]].nLastSuccess
        decreases TRIED_ENTRIES_INSPECT_ON_EVICT - i
      {
        var vTried := vvTried[nKBucket];
        var nPos := GetRandInt(|vTried| - i);
        nPos := nPos + i;
        SwapReorders(vTried, nPos, i);
        var nTemp := vTried[nPos];
        vTried := vTried[nPos := vTried[i]];
        vTried := vTried[i := nTemp];
        vvTried := vvTried[nKBucket := vTried];
        if nOldest == -1 || mapInfo[nTemp].nLastSuccess < mapInfo[nOldest].nLastSuccess {
          nOldest := nTemp;
          nOldestPos := nPos;
          found := i;
        }
        DrawnNext(was, choices, nPos);
        choices := choices + [nPos];
        i := i + 1;
      }
    }

    /** Takes nId out of all "new" buckets. */
    method LeaveAllNew(nId: int)
      requires nId in mapInfo
      modifies this`mapInfo, this`vvNew
      ensures Erased(old(vvNew), vvNew, nId)
      ensures mapInfo == old(mapInfo)[nId :=
        old(mapInfo)[nId].(nRefCount := old(mapInfo)[nId].nRefCount - Count(old(vvNew), nId, |old(vvNew)|))]
    {
      ghost var info := mapInfo[nId];
      for b := 0 to |vvNew|
        invariant |vvNew| == |old(vvNew)|
        invariant forall k :: 0 <= k < |vvNew| ==> vvNew[k] == if k < b then old(vvNew)[k] - {nId} else old(vvNew)[k]
        invariant mapInfo == old(mapInfo)[nId := info.(nRefCount := info.nRefCount - Count(old(vvNew), nId, b))]
      {
        if nId in vvNew[b] {
          vvNew := vvNew[b := vvNew[b] - {nId}];
          mapInfo := mapInfo[nId := mapInfo[nId].(nRefCount := mapInfo[nId].nRefCount - 1)];
        }
      }
    }

    /** Where an evicted entry is put: its home bucket, or the bucket nOrigin if that is full. */
    ghost function ReturnBucket(was: Buckets, bs: Buckets, info: AddrInfo, nOrigin: int): set<int>
      reads this`hasher
      requires |was| == |bs| == NEW_BUCKET_COUNT && 0 <= nOrigin < |bs|
    {
      var home := hasher.NewBucket(info.service, info.source);
      bs[if |was[home]| < NEW_BUCKET_SIZE then home else nOrigin]
    }

    /** Moves nId, found in the "new" bucket nOrigin, to its tried bucket; when that is full one of
        its entries, `out`, returns to a "new" bucket. Nothing is forgotten. */
    method MakeTried(nId: int, nOrigin: int) returns (ghost out: int)
      requires Valid() && nId in mapInfo && !mapInfo[nId].fInTried && mapInfo[nId].nLastSuccess != 0
      requires 0 <= nOrigin < |vvNew| && nId in vvNew[nOrigin]
      modifies this`mapInfo, this`vvTried, this`nTried, this`vvNew, this`nNew
      ensures Valid()
      ensures out == -1 <==> |old(vvTried)[hasher.TriedBucket(old(mapInfo)[nId].service)]| < TRIED_BUCKET_SIZE
      ensures out == -1 ==> mapInfo == old(mapInfo)[nId := Promoted(old(mapInfo)[nId])]
      ensures out != -1 ==>
        && out in old(vvTried)[hasher.TriedBucket(old(mapInfo)[nId].service)] && out in old(mapInfo) && out != nId
        && mapInfo == old(mapInfo)[nId := Promoted(old(mapInfo)[nId])][out := Demoted(old(mapInfo)[out])]
    {
      hide IdsAgree, TimesOk, Distinct, Count, Reordered, NewIds, TriedIds;
      ghost var infos, bs, vv := mapInfo, vvNew, vvTried;
      IdRange(mapInfo, mapAddr, vRandom, nIdCount);
      assert |bs| == NEW_BUCKET_COUNT && |bs[nOrigin]| <= NEW_BUCKET_SIZE &&
        infos[nId].nRefCount == Count(bs, nId, |bs|) by {
        assert RefsOk(infos, bs, -1, nId);
      }
      assert |vv| == TRIED_BUCKET_COUNT;

      LeaveAllNew(nId);
      nNew := nNew - 1;
      ghost var bs1 := vvNew;
      assert |bs1| == NEW_BUCKET_COUNT && |bs1[nOrigin]| < NEW_BUCKET_SIZE;

      var nKBucket := hasher.TriedBucket(mapInfo[nId].service);
      if |vvTried[nKBucket]| < TRIED_BUCKET_SIZE {
        Promotion(infos, mapAddr, vRandom, nIdCount, hasher, bs, vvNew, vv, nId);
        vvTried := vvTried[nKBucket := vvTried[nKBucket] + [nId]];
        nTried := nTried + 1;
        mapInfo := mapInfo[nId := mapInfo[nId].(fInTried := true)];
        assert mapInfo == infos[nId := Promoted(infos[nId])];
        return -1;
      }
      out := Evict(nId, nOrigin, nKBucket, infos, bs);
    }

    /** The second half of MakeTried; nId is in no bucket at all. */
    method Evict(nId: int, nOrigin: int, nKBucket: int, ghost infos: Infos, ghost bs: Buckets) returns (ghost out: int)
      requires IdsAgree(infos, mapAddr, vRandom, nIdCount) && NewAgree(infos, bs, -1) && TimesOk(infos)
      requires TriedAgree(infos, hasher, vvTried)
      requires nId in infos && !infos[nId].fInTried && infos[nId].nLastSuccess != 0
      requires mapInfo == infos[nId := infos[nId].(nRefCount := 0)] && Erased(bs, vvNew, nId)
      requires nNew == |NewIds(infos)| - 1 && nTried == |TriedIds(infos)|
      requires nKBucket == hasher.TriedBucket(infos[nId].service) && |vvTried[nKBucket]| >= TRIED_BUCKET_SIZE
      requires 0 <= nOrigin < |vvNew| == NEW_BUCKET_COUNT && |vvNew[nOrigin]| < NEW_BUCKET_SIZE
      modifies this`mapInfo, this`vvTried, this`vvNew, this`nNew
      ensures Valid()
      ensures |vvNew| == NEW_BUCKET_COUNT
      ensures out in old(vvTried)[nKBucket] && out in infos && out != nId && out != -1
      ensures mapInfo == infos[nId := Promoted(infos[nId])][out := Demoted(infos[out])]
      ensures out in ReturnBucket(old(vvNew), vvNew, infos[out], nOrigin)
    {
      hide Hasher.NewBucket, Hasher.TriedBucket, IdsAgree, NewAgree, TimesOk, Distinct, Count, Erased, NewIds, TriedIds;
      ghost var vv, bs1 := vvTried, vvNew;
      IdRange(infos, mapAddr, vRandom, nIdCount);
      assert Distinct(vv[nKBucket]) && forall id :: id in vv[nKBucket] ==> id in infos by {
        assert TriedBucketOk(infos, hasher, nKBucket, vv[nKBucket]);
      }
      forall k | 0 <= k < |vv[nKBucket]| ensures vv[nKBucket][k] in mapInfo && vv[nKBucket][k] != -1 {
        var id := vv[nKBucket][k];
        assert id in vv[nKBucket];
      }
      var nPos;
      ghost var found, choices;
      nPos, found, choices := SelectTried(nKBucket);
      OrderIrrelevant(infos, hasher, vv, nKBucket, vvTried[nKBucket]);
      var nOld := vvTried[nKBucket][nPos];
      assert nOld in vv[nKBucket];
      out := nOld;

      var nUBucket := hasher.NewBucket(mapInfo[nOld].service, mapInfo[nOld].source);
      ghost var nUsed := if |vvNew[nUBucket]| < NEW_BUCKET_SIZE then nUBucket else nOrigin;
      Exchange(infos, mapAddr, vRandom, nIdCount, hasher, bs, vvNew, vvTried, nId, nPos, nUsed);
      mapInfo := mapInfo[nOld := mapInfo[nOld].(fInTried := false, nRefCount := 1)];
      if |vvNew[nUBucket]| < NEW_BUCKET_SIZE {
        vvNew := vvNew[nUBucket := vvNew[nUBucket] + {nOld}];
      } else {
        vvNew := vvNew[nOrigin := vvNew[nOrigin] + {nOld}];
      }
      nNew := nNew + 1;
      vvTried := vvTried[nKBucket := vvTried[nKBucket][nPos := nId]];
      mapInfo := mapInfo[nId := mapInfo[nId].(fInTried := true)];
      assert mapInfo == infos[nId := Promoted(infos[nId])][nOld := Demoted(infos[nOld])];
    }

    /** Changes only the statistics of an entry. */
    method Update(nId: int, info: AddrInfo)
      requires Valid() && nId in mapInfo && SamePlace(mapInfo[nId], info)
      modifies this`mapInfo
      ensures Valid() && mapInfo == old(mapInfo)[nId := info]
    {
      hide IdsAgree, NewAgree, TriedAgree, TimesOk, NewIds, TriedIds;
      StatisticsIrrelevant(mapInfo, mapAddr, vRandom, nIdCount, hasher, vvNew, vvTried, nId, info);
      mapInfo := mapInfo[nId := info];
    }

    /** When a search that starts at bucket nRnd comes to bucket b. */
    static function Turn(b: int, nRnd: int): int { if b >= nRnd then b - nRnd else b - nRnd + NEW_BUCKET_COUNT }

    /** A "new" bucket that nId is in, the search starting anywhere. */
    method FindBucket(nId: int) returns (nUBucket: int)
      requires |vvNew| == NEW_BUCKET_COUNT && exists b :: 0 <= b < |vvNew| && nId in vvNew[b]
      ensures 0 <= nUBucket < |vvNew| && nId in vvNew[nUBucket]
    {
      var nRnd := GetRandInt(|vvNew|);
      var n := 0;
      while n < |vvNew|
        invariant 0 <= n <= |vvNew|
        invariant forall b :: 0 <= b < |vvNew| && Turn(b, nRnd) < n ==> nId !in vvNew[b]
      {
        var nB := (n + nRnd) % |vvNew|;
        if nId in vvNew[nB] { return nB; }
        n := n + 1;
      }
      assert false;
    }

    /** The entry Good_ acts on. */
    predicate Known(addr: Service)
      requires Ids()
      reads this`mapInfo, this`mapAddr, this`vRandom, this`nIdCount
    {
      addr.ip in mapAddr && mapInfo[mapAddr[addr.ip]].service == addr
    }

    method Good_(addr: Service, nTime: int) returns (ghost out: int)
      requires Valid() && nTime > 0
      modifies this`mapInfo, this`vvTried, this`nTried, this`vvNew, this`nNew
      ensures Valid()
      ensures !old(Known(addr)) ==> mapInfo == old(mapInfo) && vvTried == old(vvTried) && vvNew == old(vvNew)
      ensures old(Known(addr)) ==>
        var nId := mapAddr[addr.ip];
        var good := old(mapInfo)[nId].(nLastSuccess := nTime, nLastTry := nTime, nTime := nTime, nAttempts := 0);
        if out == -1 then mapInfo == old(mapInfo)[nId := Promoted(good)]
        else
          && out in old(mapInfo) && out != nId && old(mapInfo)[out].fInTried && !old(mapInfo)[nId].fInTried
          && mapInfo == old(mapInfo)[nId := Promoted(good)][out := Demoted(old(mapInfo)[out])]
    {
      hide NewAgree, TimesOk, NewIds, TriedIds;
      out := -1;
      assert forall a :: a in mapAddr ==> mapAddr[a] in mapInfo;
      var found, nId := Find(addr.ip);
      if !found { return; }
      if mapInfo[nId].service != addr { return; }
      assert old(Known(addr));
      assert mapInfo[nId].fInTried ==> mapInfo[nId].nRefCount == 0 && mapInfo[nId].nLastSuccess != 0 by {
        assert TriedOk(mapInfo, hasher, vvTried, nId);
      }
      Update(nId, mapInfo[nId].(nLastSuccess := nTime, nLastTry := nTime, nTime := nTime, nAttempts := 0));
      if mapInfo[nId].fInTried { return; }
      out := MoveToTried(nId);
    }

    /** The last part of Good_: an untried entry is moved from wherever it is. */
    method MoveToTried(nId: int) returns (ghost out: int)
      requires Valid() && nId in mapInfo && !mapInfo[nId].fInTried && mapInfo[nId].nLastSuccess != 0
      modifies this`mapInfo, this`vvTried, this`nTried, this`vvNew, this`nNew
      ensures Valid()
      ensures out == -1 ==> mapInfo == old(mapInfo)[nId := Promoted(old(mapInfo)[nId])]
      ensures out != -1 ==>
        && out in old(mapInfo) && out != nId && old(mapInfo)[out].fInTried
        && mapInfo == old(mapInfo)[nId := Promoted(old(mapInfo)[nId])][out := Demoted(old(mapInfo)[out])]
    {
      hide IdsAgree, TimesOk, NewIds, TriedIds;
      assert |vvNew| == NEW_BUCKET_COUNT && exists b :: 0 <= b < |vvNew| && nId in vvNew[b] by {
        IdRange(mapInfo, mapAddr, vRandom, nIdCount);
        assert RefsOk(mapInfo, vvNew, -1, nId);
        CountSome(vvNew, nId, |vvNew|);
      }
      var nUBucket := FindBucket(nId);
      ghost var k := hasher.TriedBucket(mapInfo[nId].service);
      assert |vvTried| == TRIED_BUCKET_COUNT;
      ghost var infos, bucket := mapInfo, vvTried[k];
      assert forall id :: id in bucket ==> id in infos && infos[id].fInTried by {
        assert TriedBucketOk(mapInfo, hasher, k, vvTried[k]);
      }
      out := MakeTried(nId, nUBucket);
    }

    method Attempt_(addr: Service, nTime: int)
      requires Valid() && nTime >= 0
      modifies this`mapInfo
      ensures Valid()
      ensures mapInfo == if !old(Known(addr)) then old(mapInfo) else
        old(mapInfo)[mapAddr[addr.ip] :=
          old(mapInfo)[mapAddr[addr.ip]].(nLastTry := nTime, nAttempts := old(mapInfo)[mapAddr[addr.ip]].nAttempts + 1)]
    {
      hide IdsAgree, NewAgree, TriedAgree, NewIds, TriedIds;
      var found, nId := Find(addr.ip);
      if !found { return; }
      if mapInfo[nId].service != addr { return; }
      Update(nId, mapInfo[nId].(nLastTry := nTime, nAttempts := mapInfo[nId].nAttempts + 1));
    }

    method Connected_(addr: Service, nTime: int)
      requires Valid()
      modifies this`mapInfo
      ensures Valid()
      ensures mapInfo == if !old(Known(addr)) ||
        nTime - old(mapInfo)[mapAddr[addr.ip]].nTime <= 20 * 60 then old(mapInfo) else
        old(mapInfo)[mapAddr[addr.ip] := old(mapInfo)[mapAddr[addr.ip]].(nTime := nTime)]
    {
      hide IdsAgree, NewAgree, TriedAgree, NewIds, TriedIds;
      var found, nId := Find(addr.ip);
      if !found { return; }
      if mapInfo[nId].service != addr { return; }
      var nUpdateInterval := 20 * 60;
      if nTime - mapInfo[nId].nTime > nUpdateInterval {
        Update(nId, mapInfo[nId].(nTime := nTime));
      }
    }

    /** The part of Add_ for a known address; skip tells that Add_ ends there. */
    method Refresh(nId: int, addr: Address, nTimePenalty: int, nNow: int) returns (skip: bool)
      requires Valid() && nId in mapInfo
      modifies this`mapInfo
      ensures Valid() && mapInfo == old(mapInfo)[nId := Refreshed(old(mapInfo)[nId], addr, nTimePenalty, nNow)]
      ensures !skip ==> !mapInfo[nId].fInTried && mapInfo[nId].nRefCount < NEW_BUCKETS_PER_ADDRESS
      ensures Stops(mapInfo[nId], addr) ==> skip
      ensures skip ==> Stops(mapInfo[nId], addr) || mapInfo[nId].nRefCount > 0
    {
      hide IdsAgree, TriedAgree, NewIds, TriedIds;
      assert !mapInfo[nId].fInTried ==> mapInfo[nId].nRefCount <= NEW_BUCKETS_PER_ADDRESS by {
        assert RefsOk(mapInfo, vvNew, -1, nId);
      }
      Update(nId, Refreshed(mapInfo[nId], addr, nTimePenalty, nNow));
      var info := mapInfo[nId];
      if addr.nTime == 0 || (info.nTime != 0 && addr.nTime <= info.nTime) { return true; }
      if info.fInTried { return true; }
      if info.nRefCount == NEW_BUCKETS_PER_ADDRESS { return true; }
      var nFactor, n := 1, 0;
      while n < info.nRefCount
        invariant nFactor >= 1 && (nFactor > 1 ==> n > 0)
      {
        nFactor := nFactor * 2;
        n := n + 1;
      }
      if nFactor > 1 {
        var nRnd := GetRandInt(nFactor);
        if nRnd != 0 { return true; }
      }
      return false;
    }

    /** nId is now in the "new" bucket its source picks, and was not before. */
    ghost predicate MovedIn(was: Buckets, nId: int, source: NetAddr)
      requires nId in mapInfo
      reads this`mapInfo, this`hasher, this`vvNew
    {
      var b := hasher.NewBucket(mapInfo[nId].service, source);
      InNewBucket(nId, b) && (b < |was| ==> nId !in was[b])
    }

    /** The buckets that the range of the source does not use are as they were. */
    static ghost predicate OthersStay(bs: Buckets, bs': Buckets, h: Hasher, source: NetAddr) {
      |bs'| == |bs| && forall b :: 0 <= b < |bs| && b !in SourceBuckets(h, h.group(source)) ==> bs'[b] == bs[b]
    }

    static lemma {:induction false} StayOn(bs: Buckets, bs1: Buckets, bs2: Buckets, h: Hasher, source: NetAddr)
      requires OthersStay(bs, bs1, h, source)
      requires bs2 == bs1 || exists s: Service :: OnlyBucket(bs1, bs2, h.NewBucket(s, source))
      ensures OthersStay(bs, bs2, h, source)
    {
      BucketsOfGroup(h, h.group(source));
    }

    /** Nothing changes but bucket b. */
    static ghost predicate OnlyBucket(bs: Buckets, bs': Buckets, b: int) {
      |bs'| == |bs| && forall k :: 0 <= k < |bs| && k != b ==> bs'[k] == bs[k]
    }

    predicate InNewBucket(nId: int, b: int)
      reads this`vvNew
    {
      0 <= b < |vvNew| && nId in vvNew[b]
    }

    /** nId may have got one reference more, and victim one less. */
    static ghost predicate Referenced(infos: Infos, infos': Infos, nId: int, victim: int)
      requires nId in infos
    {
      if victim == -1 then infos' == infos || infos' == infos[nId := OneMoreRef(infos[nId])]
      else
        && victim in infos && !infos[victim].fInTried && victim != nId
        && SameExceptPos(Released(infos[nId := OneMoreRef(infos[nId])], victim), infos')
    }

    static lemma {:induction false} ReferencedKeeps(infos: Infos, mid: Infos, infos': Infos, nId: int, victim: int,
                                                    addr: Address)
      requires nId in mid && mid == infos[nId := mid[nId]] && mid[nId].service.ip == addr.service.ip
      requires nId in infos ==> Undisturbed(infos[nId], mid[nId], addr)
      requires forall id :: id in infos && id != nId ==> infos[id].service.ip != addr.service.ip
      requires Referenced(mid, infos', nId, victim) && nId in infos'
      ensures infos'[nId].service.ip == addr.service.ip && Kept(infos, infos', addr, victim)
    {
    }

    /** The end of Add_: nId, one of infos or new, is put in the "new" bucket its source picks. */
    method Reference(nId: int, source: NetAddr, nNow: int, ghost infos: Infos) returns (ghost victim: int)
      requires Ids() && nId in mapInfo && mapInfo == infos[nId := mapInfo[nId]]
      requires NewAgree(infos, vvNew, -1) && TriedAgree(infos, hasher, vvTried) && TimesOk(infos)
      requires !mapInfo[nId].fInTried && mapInfo[nId].nRefCount < NEW_BUCKETS_PER_ADDRESS
      requires mapInfo[nId].nLastTry >= 0 && mapInfo[nId].nLastSuccess >= 0
      requires if nId in infos then mapInfo[nId] == infos[nId] else mapInfo[nId].nRefCount == 0
      requires nNew == |NewIds(infos) + {nId}| && nTried == |TriedIds(infos)|
      modifies this`mapInfo, this`mapAddr, this`vRandom, this`nNew, this`vvNew
      ensures Valid()
      ensures nId in mapInfo && victim != nId
      ensures InNewBucket(nId, hasher.NewBucket(old(mapInfo)[nId].service, source))
      ensures OnlyBucket(old(vvNew), vvNew, hasher.NewBucket(old(mapInfo)[nId].service, source))
      ensures mapInfo[nId] ==
        old(mapInfo)[nId].(nRefCount := mapInfo[nId].nRefCount, nRandomPos := mapInfo[nId].nRandomPos)
      ensures mapInfo[nId].nRefCount == old(mapInfo)[nId].nRefCount +
        if old(InNewBucket(nId, hasher.NewBucket(mapInfo[nId].service, source))) then 0 else 1
      ensures Referenced(old(mapInfo), mapInfo, nId, victim)
      ensures victim != -1 ==>
        && Displaced(infos, old(vvNew), hasher.NewBucket(old(mapInfo)[nId].service, source), victim, nNow)
        && !old(InNewBucket(nId, hasher.NewBucket(mapInfo[nId].service, source)))
      ensures mapAddr == if victim != -1 && old(mapInfo)[victim].nRefCount == 1
        then old(mapAddr) - {old(mapInfo)[victim].service.ip} else old(mapAddr)
    {
      hide IdsAgree, TriedAgree, TimesOk, TriedIds, AddrInfo.IsTerrible, Displaced;
      IdRange(mapInfo, mapAddr, vRandom, nIdCount);
      victim := -1;
      ghost var bs := vvNew;
      var nUBucket := hasher.NewBucket(mapInfo[nId].service, source);
      assert |vvNew| == NEW_BUCKET_COUNT && |vvNew[nUBucket]| <= NEW_BUCKET_SIZE;
      assert forall id :: id in vvNew[nUBucket] ==> id in infos && !infos[id].fInTried;
      if nId in vvNew[nUBucket] {
        assert NewIds(infos) + {nId} == NewIds(infos);
        assert mapInfo == infos;
        return;
      }
      assert forall id :: id in infos ==> id in mapInfo;
      Announce(infos, vvNew, hasher, vvTried, nId, OneMoreRef(mapInfo[nId]));
      ChangeEntry(mapInfo, mapAddr, vRandom, nIdCount, nId, OneMoreRef(mapInfo[nId]));
      assert mapInfo[nId := OneMoreRef(mapInfo[nId])] == infos[nId := OneMoreRef(mapInfo[nId])];
      mapInfo := mapInfo[nId := OneMoreRef(mapInfo[nId])];
      ghost var mid := mapInfo;
      victim := Insert(nId, nUBucket, nNow);
      if victim != -1 { DisplacedElsewhere(infos, mid, bs, nUBucket, victim, nNow, nId); }
    }

    /** Puts the announced entry in its bucket, where another has to make room if it is full. */
    method Insert(nId: int, nUBucket: int, nNow: int) returns (ghost victim: int)
      requires Consistent(nId) && nId in mapInfo && !mapInfo[nId].fInTried
      requires 0 <= nUBucket < |vvNew| && nId !in vvNew[nUBucket] && |vvNew[nUBucket]| <= NEW_BUCKET_SIZE
      requires forall id :: id in vvNew[nUBucket] ==> id in mapInfo && !mapInfo[id].fInTried
      modifies this`mapInfo, this`mapAddr, this`vRandom, this`nNew, this`vvNew
      ensures Valid() && nId in mapInfo && victim != nId && InNewBucket(nId, nUBucket)
      ensures OnlyBucket(old(vvNew), vvNew, nUBucket)
      ensures victim == -1 <==> |old(vvNew)[nUBucket]| < NEW_BUCKET_SIZE
      ensures victim == -1 ==> mapInfo == old(mapInfo) && mapAddr == old(mapAddr)
      ensures victim != -1 ==> Displaced(old(mapInfo), old(vvNew), nUBucket, victim, nNow)
      ensures victim != -1 ==>
        && victim in old(mapInfo) && !old(mapInfo)[victim].fInTried
        && SameExceptPos(Released(old(mapInfo), victim), mapInfo)
        && mapAddr ==
           if old(mapInfo)[victim].nRefCount == 1 then old(mapAddr) - {old(mapInfo)[victim].service.ip}
             else old(mapAddr)
    {
      hide IdsAgree, NewAgree, TriedAgree, TimesOk, NewIds, TriedIds, AddrInfo.IsTerrible, Dispensable, InOrder;
      hide Oldest, Sample, Below;
      IdRange(mapInfo, mapAddr, vRandom, nIdCount);
      victim := -1;
      if |vvNew[nUBucket]| == NEW_BUCKET_SIZE {
        var r;
        ghost var n;
        r, victim, n := ShrinkNew(nUBucket, nNow, nId);
      }
      IdRange(mapInfo, mapAddr, vRandom, nIdCount);
      Settle(mapInfo, vvNew, nId, nUBucket);
      vvNew := vvNew[nUBucket := vvNew[nUBucket] + {nId}];
    }

    /** What Add_ leaves alone: `victim` is the entry that lost a reference, if any. */
    static ghost predicate Kept(infos: Infos, infos': Infos, addr: Address, victim: int) {
      && (victim != -1 ==>
            && victim in infos && !infos[victim].fInTried && infos[victim].service.ip != addr.service.ip
            && LostOne(infos, infos', victim))
      && forall id :: id in infos && id != victim ==> id in infos' && Undisturbed(infos[id], infos'[id], addr)
    }

    static lemma {:induction false} TriedStay(infos: Infos, infos': Infos, addr: Address, victim: int)
      requires Kept(infos, infos', addr, victim) && -1 !in infos
      ensures forall id :: id in infos && infos[id].fInTried ==> id in infos' && infos'[id].fInTried
    {
      forall id | id in infos && infos[id].fInTried ensures id in infos' && infos'[id].fInTried {
        assert id != victim ==> Undisturbed(infos[id], infos'[id], addr);
      }
    }

    /** An entry has one reference less, and is gone if it had only one. */
    static ghost predicate LostOne(infos: Infos, infos': Infos, id: int)
      requires id in infos
    {
      if infos[id].nRefCount == 1 then id !in infos'
      else
        && id in infos'
        && infos'[id] == infos[id].(nRefCount := infos[id].nRefCount - 1, nRandomPos := infos'[id].nRandomPos)
    }

    /** Add_ ends with the refreshed entry: it says nothing new, is tried, or has references enough. */
    static predicate Stops(info: AddrInfo, addr: Address) {
      || addr.nTime == 0 || (info.nTime != 0 && addr.nTime <= info.nTime)
      || info.fInTried || info.nRefCount == NEW_BUCKETS_PER_ADDRESS
    }

    /** An entry other than the announced one keeps everything but its place in vRandom. */
    static predicate Undisturbed(info: AddrInfo, info': AddrInfo, addr: Address) {
      && info' == info.(nTime := info'.nTime, nServices := info'.nServices, nRefCount := info'.nRefCount,
                        nRandomPos := info'.nRandomPos)
      && (info.service.ip != addr.service.ip ==> info' == info.(nRandomPos := info'.nRandomPos))
    }

    /** A known address, announced again: refreshed, and perhaps with one reference more, unless Add_
        ends before that. */
    static ghost predicate AnnouncedAgain(info: AddrInfo, info': AddrInfo, addr: Address, nTimePenalty: int,
                                          nNow: int)
    {
      && info'.service == info.service && info'.source == info.source && info'.fInTried == info.fInTried
      && info'.nLastSuccess == info.nLastSuccess && info'.nLastTry == info.nLastTry && info'.nAttempts == info.nAttempts
      && info'.nServices == info.nServices + addr.nServices
      && (var slack := nTimePenalty + if nNow < addr.nTime + 86_400 then 3_600 else 86_400;
          if addr.nTime != 0 && (info.nTime == 0 || info.nTime + slack < addr.nTime) then
            info'.nTime == if addr.nTime > nTimePenalty then addr.nTime - nTimePenalty else 0
          else info'.nTime == info.nTime)
      && info.nRefCount <= info'.nRefCount <= info.nRefCount + 1
      && (addr.nTime == 0 || (info'.nTime != 0 && addr.nTime <= info'.nTime) || info.fInTried || info.nRefCount == 4 ==>
            info'.nRefCount == info.nRefCount)
    }

    /** A new address: one reference, its statistics empty, its time less the penalty. */
    static ghost predicate AnnouncedFirst(info: AddrInfo, addr: Address, source: NetAddr, nTimePenalty: int) {
      && info.service == addr.service && info.nServices == addr.nServices && info.source == source
      && info.nTime == (if addr.nTime > nTimePenalty then addr.nTime - nTimePenalty else 0)
      && info.nLastSuccess == 0 && info.nLastTry == 0 && info.nAttempts == 0 && !info.fInTried && info.nRefCount == 1
    }

    method AddKnown(nId: int, addr: Address, source: NetAddr, nTimePenalty: int, nNow: int) returns (ghost victim: int)
      requires Valid() && nId in mapInfo && mapInfo[nId].service.ip == addr.service.ip && addr.service.ip in mapAddr
      modifies this`mapInfo, this`mapAddr, this`vRandom, this`nNew, this`vvNew
      ensures Valid() && nId in mapInfo && mapInfo[nId].service.ip == addr.service.ip
      ensures mapInfo[nId].service == old(mapInfo)[nId].service
      ensures forall a :: a in mapAddr ==> a in old(mapAddr)
      ensures Kept(old(mapInfo), mapInfo, addr, victim)
      ensures OnlyBucket(old(vvNew), vvNew, hasher.NewBucket(mapInfo[nId].service, source))
      ensures AnnouncedAgain(old(mapInfo)[nId], mapInfo[nId], addr, nTimePenalty, nNow)
      ensures mapInfo[nId].nRefCount != old(mapInfo)[nId].nRefCount ==> MovedIn(old(vvNew), nId, source)
      ensures victim != -1 ==>
        Displaced(old(mapInfo), old(vvNew), hasher.NewBucket(old(mapInfo)[nId].service, source), victim, nNow)
    {
      hide NewAgree, TriedAgree, TriedIds;
      hide Referenced, Displaced;
      victim := -1;
      assert Kept(mapInfo, mapInfo[nId := Refreshed(mapInfo[nId], addr, nTimePenalty, nNow)], addr, -1);
      assert forall id :: id in mapInfo && id != nId ==> mapInfo[id].service.ip != addr.service.ip by {
        OneId(mapInfo, mapAddr, vRandom, nIdCount, nId);
      }
      var skip := Refresh(nId, addr, nTimePenalty, nNow);
      if skip { return; }
      assert NewIds(mapInfo) + {nId} == NewIds(mapInfo);
      assert mapInfo[nId].nLastTry >= 0 && mapInfo[nId].nLastSuccess >= 0;
      ghost var mid := mapInfo;
      victim := Reference(nId, source, nNow, mapInfo);
      ReferencedKeeps(old(mapInfo), mid, mapInfo, nId, victim, addr);
      if victim != -1 {
        var b := hasher.NewBucket(mid[nId].service, source);
        DisplacedElsewhere(old(mapInfo), mid, old(vvNew), b, victim, nNow, nId);
      }
    }

    method AddUnknown(addr: Address, source: NetAddr, nTimePenalty: int, nNow: int)
      returns (nId: int, ghost victim: int)
      requires Valid() && addr.service.ip !in mapAddr
      modifies this`nIdCount, this`mapInfo, this`mapAddr, this`vRandom, this`nNew, this`vvNew
      ensures Valid() && nId in mapInfo && mapInfo[nId].service == addr.service && nId !in old(mapInfo)
      ensures forall a :: a in mapAddr ==> a in old(mapAddr) || a == addr.service.ip
      ensures Kept(old(mapInfo), mapInfo, addr, victim)
      ensures AnnouncedFirst(mapInfo[nId], addr, source, nTimePenalty)
      ensures InNewBucket(nId, hasher.NewBucket(addr.service, source))
      ensures OnlyBucket(old(vvNew), vvNew, hasher.NewBucket(addr.service, source))
      ensures victim != -1 ==>
        Displaced(old(mapInfo), old(vvNew), hasher.NewBucket(addr.service, source), victim, nNow)
    {
      hide TriedAgree, TimesOk, TriedIds;
      hide Kept, Referenced, Displaced, Hasher.NewBucket, OnlyBucket;
      ghost var infos := mapInfo;
      assert forall id :: id in mapInfo ==> mapInfo[id].service.ip != addr.service.ip by {
        assert forall id :: id in mapInfo ==> IdOk(mapInfo, mapAddr, vRandom, nIdCount, id);
      }
      nId := Create(addr, source);
      var info := mapInfo[nId].(nTime := Max(0, mapInfo[nId].nTime - nTimePenalty));
      ChangeEntry(mapInfo, mapAddr, vRandom, nIdCount, nId, info);
      mapInfo := mapInfo[nId := info];
      nNew := nNew + 1;
      assert nId !in NewIds(infos);
      assert !InNewBucket(nId, hasher.NewBucket(addr.service, source));
      ghost var mid := mapInfo;
      assert info == NewInfo(addr, source, info.nRandomPos).(nTime := info.nTime);
      victim := Reference(nId, source, nNow, infos);
      ReferencedKeeps(infos, mid, mapInfo, nId, victim, addr);
    }

    /** An announced address: nothing tried is forgotten, and at most one other entry loses a reference. */
    method Add_(addr: Address, fRoutable: bool, source: NetAddr, nTimePenalty: int, nNow: int)
      returns (fNew: bool, ghost victim: int)
      requires Valid()
      modifies this`nIdCount, this`mapInfo, this`mapAddr, this`vRandom, this`nNew, this`vvNew
      ensures Valid()
      ensures fNew <==> fRoutable && addr.service.ip !in old(mapAddr)
      ensures !fRoutable ==> mapInfo == old(mapInfo) && mapAddr == old(mapAddr)
      ensures fRoutable ==> addr.service.ip in mapAddr && mapAddr[addr.service.ip] in mapInfo
      ensures forall a :: a in mapAddr ==> a in old(mapAddr) || a == addr.service.ip
      ensures Kept(old(mapInfo), mapInfo, addr, victim)
      ensures !fRoutable ==> vvNew == old(vvNew)
      ensures fRoutable ==>
        OnlyBucket(old(vvNew), vvNew, hasher.NewBucket(mapInfo[mapAddr[addr.service.ip]].service, source))
      ensures fNew ==>
        && AnnouncedFirst(mapInfo[mapAddr[addr.service.ip]], addr, source, nTimePenalty)
        && InNewBucket(mapAddr[addr.service.ip], hasher.NewBucket(addr.service, source))
      ensures fRoutable && !fNew ==>
        && mapAddr[addr.service.ip] == old(mapAddr)[addr.service.ip] && mapAddr[addr.service.ip] in old(mapInfo)
        && AnnouncedAgain(old(mapInfo)[mapAddr[addr.service.ip]], mapInfo[mapAddr[addr.service.ip]], addr,
          nTimePenalty, nNow)
        && (mapInfo[mapAddr[addr.service.ip]].nRefCount != old(mapInfo)[mapAddr[addr.service.ip]].nRefCount ==>
              MovedIn(old(vvNew), mapAddr[addr.service.ip], source))
      ensures victim != -1 ==>
        && fRoutable
        && Displaced(old(mapInfo), old(vvNew), hasher.NewBucket(mapInfo[mapAddr[addr.service.ip]].service, source),
                     victim, nNow)
    {
      hide NewAgree, TriedAgree, TimesOk, NewIds, TriedIds, AnnouncedAgain, AnnouncedFirst, Displaced;
      fNew, victim := false, -1;
      assert Kept(mapInfo, mapInfo, addr, -1);
      if !fRoutable { return; }
      var found, nId := Find(addr.service.ip);
      if found {
        victim := AddKnown(nId, addr, source, nTimePenalty, nNow);
      } else {
        nId, victim := AddUnknown(addr, source, nTimePenalty, nNow);
        fNew := true;
      }
      assert IdOk(mapInfo, mapAddr, vRandom, nIdCount, nId);
    }

    /** Add for a list of addresses from one source. Whatever is announced, only the buckets picked by
        the source's range change: every entry with a reference elsewhere stays, and so does every
        tried one. */
    method Add(vAddr: seq<Address>, fRoutable: Address -> bool, source: NetAddr, nTimePenalty: int, nNow: int)
      returns (fAdded: bool)
      requires Valid()
      modifies this`nIdCount, this`mapInfo, this`mapAddr, this`vRandom, this`nNew, this`vvNew
      ensures Valid()
      ensures (exists i :: 0 <= i < |vAddr| && fRoutable(vAddr[i]) && vAddr[i].service.ip !in old(mapAddr)) ==> fAdded
      ensures fAdded ==> exists i :: 0 <= i < |vAddr| && fRoutable(vAddr[i])
      ensures OthersStay(old(vvNew), vvNew, hasher, source)
      ensures forall b, id :: 0 <= b < |old(vvNew)| && id in old(vvNew)[b] ==>
        id in mapInfo || b in SourceBuckets(hasher, hasher.group(source))
      ensures forall id :: id in old(mapInfo) && old(mapInfo)[id].fInTried ==> id in mapInfo && mapInfo[id].fInTried
    {
      hide IdsAgree, TriedAgree, TimesOk, NewIds, TriedIds, AnnouncedAgain, AnnouncedFirst, Displaced, SourceBuckets;
      var nAdd := 0;
      for i := 0 to |vAddr|
        invariant Valid() && nAdd >= 0
        invariant (exists j :: 0 <= j < i && fRoutable(vAddr[j]) && vAddr[j].service.ip !in old(mapAddr)) ==> nAdd > 0
        invariant nAdd == 0 ==> forall a :: a in mapAddr ==> a in old(mapAddr)
        invariant nAdd > 0 ==> exists j :: 0 <= j < i && fRoutable(vAddr[j])
        invariant OthersStay(old(vvNew), vvNew, hasher, source)
        invariant forall id :: id in old(mapInfo) && old(mapInfo)[id].fInTried ==> id in mapInfo && mapInfo[id].fInTried
      {
        ghost var (infos, bs) := (mapInfo, vvNew);
        IdRange(mapInfo, mapAddr, vRandom, nIdCount);
        var fNew, victim := Add_(vAddr[i], fRoutable(vAddr[i]), source, nTimePenalty, nNow);
        StayOn(old(vvNew), bs, vvNew, hasher, source);
        TriedStay(infos, mapInfo, vAddr[i], victim);
        if fNew { nAdd := nAdd + 1; }
      }
      fAdded := nAdd > 0;
    }

    /** The address manager holds at most 20480 addresses, and at most 256 tried ones of a range. */
    lemma {:induction false} Limits(g: Group)
      requires Valid()
      ensures |vRandom| <= 20_480 && |TriedOf(mapInfo, hasher, g)| <= 256
    {
      IdRange(mapInfo, mapAddr, vRandom, nIdCount);
      RandomSize(mapInfo, mapAddr, vRandom, nIdCount);
      TablesAreLimited(mapInfo, hasher, vvNew, vvTried);
      RangeIsLimited(mapInfo, hasher, vvTried, g);
    }

    /** A random part of the table: no address twice, and nothing but the order of vRandom changes. */
    method GetAddr_() returns (vAddr: seq<Address>)
      requires Valid()
      modifies this`mapInfo, this`vRandom
      ensures Valid() && SameExceptPos(old(mapInfo), mapInfo)
      ensures |vAddr| == Min(GETADDR_MAX_PCT * |mapInfo| / 100, GETADDR_MAX)
      ensures forall k :: 0 <= k < |vAddr| ==>
        vAddr[k].service.ip in mapAddr && mapInfo[mapAddr[vAddr[k].service.ip]].ToAddress() == vAddr[k]
      ensures forall i, j :: 0 <= i < j < |vAddr| ==> vAddr[i].service.ip != vAddr[j].service.ip
    {
      hide NewAgree, TriedAgree, TimesOk, NewIds, TriedIds;
      vAddr := [];
      ghost var infos := mapInfo;
      assert SameExceptPos(infos, mapInfo);
      RandomSize(mapInfo, mapAddr, vRandom, nIdCount);
      var nNodes := GETADDR_MAX_PCT * |vRandom| / 100;
      if nNodes > GETADDR_MAX { nNodes := GETADDR_MAX; }
      var n := 0;
      while n < nNodes
        invariant 0 <= n <= nNodes <= |vRandom| == |old(vRandom)| && |vAddr| == n
        invariant Ids() && SameExceptPos(infos, mapInfo)
        invariant forall k :: 0 <= k < n ==> vRandom[k] in infos && vAddr[k] == infos[vRandom[k]].ToAddress()
      {
        var nRndPos := GetRandInt(|vRandom| - n);
        nRndPos := nRndPos + n;
        ghost var was, mid := vRandom, mapInfo;
        SwapRandom(n, nRndPos);
        assert vRandom[n] in mapInfo;
        assert forall k :: 0 <= k < n ==> vRandom[k] == was[k];
        PosTransitive(infos, mid, mapInfo);
        PosAddress(infos, mapInfo, vRandom[n]);
        var info := mapInfo[vRandom[n]];
        vAddr := vAddr + [Address(info.service, info.nServices, info.nTime)];
        n := n + 1;
      }
      PosIrrelevant(old(mapInfo), mapInfo, hasher, vvNew, vvTried, -1);
      RandomSize(mapInfo, mapAddr, vRandom, nIdCount);
      forall k | 0 <= k < |vAddr|
        ensures vAddr[k].service.ip in mapAddr && mapAddr[vAddr[k].service.ip] == vRandom[k]
        ensures mapAddr[vAddr[k].service.ip] in mapInfo && mapInfo[mapAddr[vAddr[k].service.ip]].ToAddress() == vAddr[k]
      {
        Listed(infos, mapInfo, mapAddr, vRandom, nIdCount, vRandom[k]);
      }
    }
  }
}
