/** The address manager's own consistency check (CAddrMan::Check_, src/addrman.cpp): what it tests, and
    that every consistent state passes it. */
module AddrCheck {
  import opened Basics
  import opened AddrTables
  import opened AddrMan

  /** operator[] makes a zero of an address that is not there. */
  function AddrId(addrs: map<NetAddr, int>, a: NetAddr): int { if a in addrs then addrs[a] else 0 }

  predicate EntryPasses(infos: Infos, addrs: map<NetAddr, int>, random: seq<int>, id: int)
    requires id in infos
  {
    var info := infos[id];
    && (if info.fInTried then info.nLastSuccess != 0 && info.nRefCount == 0
      else 1 <= info.nRefCount <= NEW_BUCKETS_PER_ADDRESS)
    && AddrId(addrs, info.service.ip) == id
    && 0 <= info.nRandomPos < |random| && random[info.nRandomPos] == id
    && info.nLastTry >= 0 && info.nLastSuccess >= 0
  }

  /** The references an untried entry should have. */
  function Refs(infos: Infos, id: int): int { if id in infos && !infos[id].fInTried then infos[id].nRefCount else 0 }

  /** The first k tried buckets, one after the other. */
  function Flat(vv: seq<seq<int>>, k: nat): seq<int>
    requires k <= |vv|
  {
    if k == 0 then [] else Flat(vv, k - 1) + vv[k - 1]
  }

  ghost predicate ListOk(s: seq<int>, ids: set<int>) { Distinct(s) && forall x :: x in s ==> x in ids }

  ghost predicate Passes(infos: Infos, addrs: map<NetAddr, int>, random: seq<int>, nTried: int, vv: seq<seq<int>>,
                         nNew: int, bs: Buckets) {
    && |random| == nTried + nNew
    && (forall id :: id in infos ==> EntryPasses(infos, addrs, random, id))
    && |TriedIds(infos)| == nTried && |NewIds(infos)| == nNew
    && ListOk(Flat(vv, |vv|), TriedIds(infos)) && (forall id :: id in TriedIds(infos) ==> id in Flat(vv, |vv|))
    && (forall id :: Count(bs, id, |bs|) == Refs(infos, id))
  }

  // ------------------------------------------------------------------------------------------
  // The code
  // ------------------------------------------------------------------------------------------

  /** The tests on one entry, in the order of the source. */
  method CheckEntry(infos: Infos, addrs: map<NetAddr, int>, random: seq<int>, n: int) returns (r: int)
    requires n in infos
    ensures r == 0 <==> EntryPasses(infos, addrs, random, n)
  {
    var info := infos[n];
    if info.fInTried {
      if info.nLastSuccess == 0 { return -1; }
      if info.nRefCount != 0 { return -2; }
    } else {
      if info.nRefCount < 0 || info.nRefCount > NEW_BUCKETS_PER_ADDRESS { return -3; }
      if info.nRefCount == 0 { return -4; }
    }
    if AddrId(addrs, info.service.ip) != n { return -5; }
    if info.nRandomPos < 0 || info.nRandomPos >= |random| || random[info.nRandomPos] != n { return -14; }
    if info.nLastTry < 0 { return -6; }
    if info.nLastSuccess < 0 { return -8; }
    return 0;
  }

  method CheckEntries(infos: Infos, addrs: map<NetAddr, int>, random: seq<int>)
    returns (r: int, setTried: set<int>, mapNew: map<int, int>)
    ensures r == 0 <==> forall id :: id in infos ==> EntryPasses(infos, addrs, random, id)
    ensures r == 0 ==> setTried == TriedIds(infos) && mapNew.Keys == NewIds(infos)
    ensures r == 0 ==> forall id :: id in mapNew ==> mapNew[id] == infos[id].nRefCount >= 1
  {
    r, setTried, mapNew := 0, {}, map[];
    var todo := infos.Keys;
    while todo != {}
      invariant todo <= infos.Keys
      invariant forall id :: id in infos && id !in todo ==> EntryPasses(infos, addrs, random, id)
      invariant setTried == TriedIds(infos) - todo && mapNew.Keys == NewIds(infos) - todo
      invariant forall id :: id in mapNew ==> mapNew[id] == infos[id].nRefCount >= 1
      decreases |todo|
    {
      var n := First(todo);
      r := CheckEntry(infos, addrs, random, n);
      if r != 0 { return; }
      if infos[n].fInTried {
        setTried := setTried + {n};
      } else {
        assert infos[n].nRefCount >= 1;
        mapNew := mapNew[n := infos[n].nRefCount];
      }
      todo := todo - {n};
    }
  }

  lemma {:induction false} FlatPrefix(vv: seq<seq<int>>, b: nat, i: nat, k: nat)
    requires b < k <= |vv| && i <= |vv[b]|
    ensures Flat(vv, b) + vv[b][..i] <= Flat(vv, k)
    decreases k
  {
    if b < k - 1 { FlatPrefix(vv, b, i, k - 1); }
  }

  lemma {:induction false} PrefixOk(s: seq<int>, t: seq<int>, ids: set<int>)
    requires s <= t && ListOk(t, ids)
    ensures ListOk(s, ids)
  {
    forall x | x in s ensures x in ids { assert x in t; }
    assert forall i :: 0 <= i < |s| ==> s[i] == t[i];
  }

  lemma {:induction false} NextOk(s: seq<int>, x: int, ids: set<int>)
    requires ListOk(s, ids)
    ensures ListOk(s + [x], ids) <==> x in ids && x !in s
  {
    var t := s + [x];
    assert t[|s|] == x;
    if x in s {
      var i :| 0 <= i < |s| && s[i] == x;
      assert t[i] == t[|s|];
    } else {
      assert forall y :: y in t <==> y in s || y == x;
    }
  }

  method CheckTried(vv: seq<seq<int>>, ids: set<int>) returns (r: int, setTried: set<int>)
    ensures r == 0 <==> ListOk(Flat(vv, |vv|), ids)
    ensures r == 0 ==> forall id :: id in setTried <==> id in ids && id !in Flat(vv, |vv|)
  {
    r, setTried := 0, ids;
    assert Flat(vv, 0) == [] && ListOk([], ids);
    for n := 0 to |vv|
      invariant ListOk(Flat(vv, n), ids) && forall id :: id in setTried <==> id in ids && id !in Flat(vv, n)
    {
      assert Flat(vv, n) + vv[n][..0] == Flat(vv, n);
      for i := 0 to |vv[n]|
        invariant ListOk(Flat(vv, n) + vv[n][..i], ids)
        invariant forall id :: id in setTried <==> id in ids && id !in Flat(vv, n) + vv[n][..i]
      {
        ghost var seen := Flat(vv, n) + vv[n][..i];
        NextOk(seen, vv[n][i], ids);
        assert Flat(vv, n) + vv[n][..i + 1] == seen + [vv[n][i]];
        if vv[n][i] !in setTried {
          FlatPrefix(vv, n, i + 1, |vv|);
          if ListOk(Flat(vv, |vv|), ids) { PrefixOk(seen + [vv[n][i]], Flat(vv, |vv|), ids); }
          return -11, setTried;
        }
        setTried := setTried - {vv[n][i]};
      }
      assert vv[n][..|vv[n]|] == vv[n];
      assert Flat(vv, n + 1) == Flat(vv, n) + vv[n];
    }
  }

  function Get(m: map<int, int>, id: int): int { if id in m then m[id] else 0 }

  method CheckNew(bs: Buckets, refs: map<int, int>) returns (r: int, mapNew: map<int, int>)
    requires forall id :: id in refs ==> refs[id] >= 1
    ensures r == 0 <==> forall id :: Count(bs, id, |bs|) <= Get(refs, id)
    ensures r == 0 ==> forall id :: (id in mapNew <==> Count(bs, id, |bs|) < Get(refs, id))
  {
    r, mapNew := 0, refs;
    assert forall id :: Count(bs, id, 0) == 0;
    for n := 0 to |bs|
      invariant forall id :: Get(mapNew, id) == Get(refs, id) - Count(bs, id, n) && (id in mapNew ==> mapNew[id] >= 1)
    {
      var todo := bs[n];
      assert forall id :: Count(bs, id, n + 1) == Count(bs, id, n) + if id in bs[n] then 1 else 0;
      while todo != {}
        invariant todo <= bs[n]
        invariant forall id ::
          Get(mapNew, id) == Get(refs, id) - Count(bs, id, n) - (if id in bs[n] - todo then 1 else 0)
        invariant forall id :: id in mapNew ==> mapNew[id] >= 1
        decreases |todo|
      {
        var it := First(todo);
        if it !in mapNew {
          CountGrows(bs, it, n + 1, |bs|);
          return -12, mapNew;
        }
        mapNew := mapNew[it := mapNew[it] - 1];
        if mapNew[it] == 0 { mapNew := mapNew - {it}; }
        todo := todo - {it};
      }
    }
    assert forall id :: Get(mapNew, id) >= 0;
  }

  method Check(am: CAddrMan) returns (r: int)
    ensures r == 0 <==> Passes(am.mapInfo, am.mapAddr, am.vRandom, am.nTried, am.vvTried, am.nNew, am.vvNew)
  {
    hide EntryPasses, ListOk, Flat, Count;
    if |am.vRandom| != am.nTried + am.nNew { return -7; }
    var setTried, mapNew;
    r, setTried, mapNew := CheckEntries(am.mapInfo, am.mapAddr, am.vRandom);
    if r != 0 { return; }
    if |setTried| != am.nTried { return -9; }
    assert |mapNew| == |mapNew.Keys|;
    if |mapNew| != am.nNew { return -10; }
    ghost var refs := mapNew;
    assert forall id :: Get(refs, id) == Refs(am.mapInfo, id) by {
      assert forall id :: id in refs <==> id in NewIds(am.mapInfo);
    }
    r, setTried := CheckTried(am.vvTried, setTried);
    if r != 0 { return; }
    r, mapNew := CheckNew(am.vvNew, mapNew);
    if r != 0 { return; }
    if setTried != {} {
      ghost var x := SomeElement(setTried);
      return -13;
    }
    if mapNew != map[] {
      ghost var x := SomeElement(mapNew.Keys);
      return -15;
    }
    assert forall id :: id !in setTried && id !in mapNew;
  }

  // ------------------------------------------------------------------------------------------
  // Consistent states pass
  // ------------------------------------------------------------------------------------------

  lemma {:induction false} FlatTried(infos: Infos, h: Hasher, vv: seq<seq<int>>, k: nat)
    requires TriedAgree(infos, h, vv) && k <= |vv|
    ensures Distinct(Flat(vv, k))
    ensures forall x :: x in Flat(vv, k) ==> x in TriedIds(infos) && h.TriedBucket(infos[x].service) < k
    ensures forall b, x :: 0 <= b < k && x in vv[b] ==> x in Flat(vv, k)
  {
    if k > 0 {
      FlatTried(infos, h, vv, k - 1);
      assert TriedBucketOk(infos, h, k - 1, vv[k - 1]);
      var (s, t) := (Flat(vv, k - 1), vv[k - 1]);
      forall i, j | 0 <= i < j < |s + t| ensures (s + t)[i] != (s + t)[j] {
        if i < |s| <= j { assert s[i] in s && t[j - |s|] in t; }
      }
    }
  }

  /** Every consistent address manager passes its own check. */
  lemma {:induction false} ConsistentPasses(am: CAddrMan)
    requires am.Valid()
    ensures Passes(am.mapInfo, am.mapAddr, am.vRandom, am.nTried, am.vvTried, am.nNew, am.vvNew)
  {
    hide Count, Flat;
    var (infos, vv) := (am.mapInfo, am.vvTried);
    RandomSize(infos, am.mapAddr, am.vRandom, am.nIdCount);
    FlatTried(infos, am.hasher, vv, |vv|);
    IdRange(infos, am.mapAddr, am.vRandom, am.nIdCount);
    forall id | id in infos ensures EntryPasses(infos, am.mapAddr, am.vRandom, id) {
      assert IdOk(infos, am.mapAddr, am.vRandom, am.nIdCount, id);
      assert RefsOk(infos, am.vvNew, -1, id) && TriedOk(infos, am.hasher, vv, id);
    }
    forall id | id in TriedIds(infos) ensures id in Flat(vv, |vv|) { assert TriedOk(infos, am.hasher, vv, id); }
    forall id ensures Count(am.vvNew, id, |am.vvNew|) == Refs(infos, id) {
      CountSome(am.vvNew, id, |am.vvNew|);
      if id in infos { assert RefsOk(infos, am.vvNew, -1, id); }
    }
  }
}
