/** peers.dat: what CAddrMan writes (src/addrman.h) and what reading it back gives. Ids are not
    written; entries are numbered again, the untried ones first. */
module AddrFile {
  import opened Basics
  import opened AddrTables
  import opened AddrMan

  /** The fields of a CAddrInfo that are written. */
  datatype Record = Record(address: Address, source: NetAddr, nLastSuccess: int, nAttempts: int)

  datatype File = File(nKey: Hasher, nNew: int, nTried: int, nUBuckets: int, news: seq<Record>, tried: seq<Record>,
                       buckets: seq<seq<int>>)

  function ToRecord(info: AddrInfo): Record { Record(info.ToAddress(), info.source, info.nLastSuccess, info.nAttempts) }

  /** s lists the set without repetition. */
  ghost predicate Lists(s: seq<int>, ids: set<int>) {
    Distinct(s) && |s| == |ids| && forall id :: id in ids <==> id in s
  }

  /** The positions in `news` of the ids of a bucket. */
  function Image(news: seq<int>, ids: set<int>): set<int> { set k | 0 <= k < |news| && news[k] in ids }

  ghost predicate RecordsOf(infos: Infos, ids: seq<int>, records: seq<Record>) {
    && |records| == |ids|
    && forall k :: 0 <= k < |ids| ==> ids[k] in infos && records[k] == ToRecord(infos[ids[k]])
  }

  /** file holds the given tables, the untried entries in the order of news and the tried ones in that of tried. */
  ghost predicate Wrote(infos: Infos, h: Hasher, bs: Buckets, file: File, news: seq<int>, tried: seq<int>) {
    && file.nKey == h && file.nUBuckets == |bs| == |file.buckets|
    && file.nNew == |news| && file.nTried == |tried|
    && Lists(news, NewIds(infos)) && Lists(tried, TriedIds(infos))
    && RecordsOf(infos, news, file.news) && RecordsOf(infos, tried, file.tried)
    && forall b :: 0 <= b < |bs| ==> Lists(file.buckets[b], Image(news, bs[b])) && |file.buckets[b]| == |bs[b]|
  }

  // ------------------------------------------------------------------------------------------
  // Writing
  // ------------------------------------------------------------------------------------------

  /** One more id has been visited on the way through ids. */
  lemma {:induction false} Visit(s: seq<int>, done: set<int>, ids: set<int>, x: int)
    requires Lists(s, done * ids) && x !in done
    ensures Lists(if x in ids then s + [x] else s, (done + {x}) * ids)
  {
    assert (done + {x}) * ids == if x in ids then done * ids + {x} else done * ids;
  }

  ghost predicate Numbered(s: seq<int>, m: map<int, int>) { forall k :: 0 <= k < |s| ==> s[k] in m && m[s[k]] == k }

  lemma {:induction false} Number(s: seq<int>, m: map<int, int>, done: set<int>, ids: set<int>, x: int)
    requires Numbered(s, m) && Lists(s, done * ids) && x !in done
    ensures Numbered(s, m[x := |s|]) && Numbered(s + [x], m[x := |s|])
  {
    assert x !in s;
  }

  lemma {:induction false} NextRecord(infos: Infos, ids: seq<int>, records: seq<Record>, id: int)
    requires RecordsOf(infos, ids, records) && id in infos
    ensures RecordsOf(infos, ids + [id], records + [ToRecord(infos[id])])
  {
  }

  lemma {:induction false} NextImage(s: seq<int>, m: map<int, int>, indices: seq<int>, done: set<int>, x: int)
    requires Distinct(s) && Numbered(s, m) && Lists(indices, Image(s, done)) && x in s && x !in done
    ensures x in m && Lists(indices + [m[x]], Image(s, done + {x}))
  {
    var k :| 0 <= k < |s| && s[k] == x;
    assert Image(s, done + {x}) == Image(s, done) + {k};
  }

  lemma {:induction false} VisitedAll(s: seq<int>, done: set<int>, ids: set<int>)
    requires Lists(s, done * ids) && (ids <= done || |s| == |ids|)
    ensures Lists(s, ids)
  {
    assert ids == done * ids + (ids - done) && |done * ids| + |ids - done| == |ids|;
    assert done * ids == ids;
  }

  lemma {:induction false} VisitedNone(ids: set<int>)
    ensures Lists([], {} * ids)
  {
    assert {} * ids == {};
  }

  lemma {:induction false} Referenced(infos: Infos, h: Hasher, bs: Buckets, vv: seq<seq<int>>, id: int)
    requires NewAgree(infos, bs, -1) && TriedAgree(infos, h, vv) && id in infos
    ensures infos[id].nRefCount != 0 <==> id in NewIds(infos)
    ensures infos[id].fInTried <==> id in TriedIds(infos)
  {
    assert RefsOk(infos, bs, -1, id) && TriedOk(infos, h, vv, id);
  }

  /** The untried entries, and the number each gets. */
  method WriteNew(infos: Infos, nNew: int)
    returns (records: seq<Record>, mapUnkIds: map<int, int>, ghost news: seq<int>)
    requires nNew == |NewIds(infos)| && forall id :: id in infos ==> (infos[id].nRefCount != 0 <==> id in NewIds(infos))
    ensures |records| == nNew && Lists(news, NewIds(infos)) && RecordsOf(infos, news, records)
    ensures Numbered(news, mapUnkIds)
  {
    hide Lists, TriedIds, ToRecord;
    assert Numbered([], map[]);
    assert RecordsOf(infos, [], []);
    var nIds := 0;
    records, mapUnkIds, news := [], map[], [];
    var todo := infos.Keys;
    ghost var done: set<int>, ids := {}, NewIds(infos);
    VisitedNone(ids);
    assert ids <= infos.Keys;
    while todo != {} && nIds != nNew
      invariant todo <= infos.Keys && done == infos.Keys - todo
      invariant Lists(news, done * ids) && |news| == nIds
      invariant RecordsOf(infos, news, records)
      invariant Numbered(news, mapUnkIds)
      decreases |todo|
    {
      var it := First(todo);
      Number(news, mapUnkIds, done, ids, it);
      mapUnkIds := mapUnkIds[it := nIds];
      var info := infos[it];
      Visit(news, done, ids, it);
      if info.nRefCount != 0 {
        NextRecord(infos, news, records, it);
        records := records + [ToRecord(info)];
        news := news + [it];
        nIds := nIds + 1;
      }
      todo := todo - {it};
      done := done + {it};
    }
    VisitedAll(news, done, ids);
  }

  method WriteTried(infos: Infos, nTried: int) returns (records: seq<Record>, ghost tried: seq<int>)
    requires nTried == |TriedIds(infos)| && forall id :: id in infos ==> (infos[id].fInTried <==> id in TriedIds(infos))
    ensures |records| == nTried && Lists(tried, TriedIds(infos)) && RecordsOf(infos, tried, records)
  {
    hide Lists, NewIds, ToRecord;
    assert RecordsOf(infos, [], []);
    var nIds := 0;
    records, tried := [], [];
    var todo := infos.Keys;
    ghost var done: set<int>, ids := {}, TriedIds(infos);
    VisitedNone(ids);
    assert ids <= infos.Keys;
    while todo != {} && nIds != nTried
      invariant todo <= infos.Keys && done == infos.Keys - todo
      invariant Lists(tried, done * ids) && |tried| == nIds
      invariant RecordsOf(infos, tried, records)
      decreases |todo|
    {
      var it := First(todo);
      var info := infos[it];
      Visit(tried, done, ids, it);
      if info.fInTried {
        NextRecord(infos, tried, records, it);
        records := records + [ToRecord(info)];
        tried := tried + [it];
        nIds := nIds + 1;
      }
      todo := todo - {it};
      done := done + {it};
    }
    VisitedAll(tried, done, ids);
  }

  /** The numbers of the entries of one bucket. */
  method WriteBucket(vNew: set<int>, mapUnkIds: map<int, int>, ghost news: seq<int>) returns (indices: seq<int>)
    requires Distinct(news) && forall id :: id in vNew ==> id in news
    requires Numbered(news, mapUnkIds)
    ensures Lists(indices, Image(news, vNew)) && |indices| == |vNew|
  {
    hide Numbered;
    indices := [];
    var todo := vNew;
    ghost var done: set<int> := {};
    assert Lists(indices, Image(news, done));
    while todo != {}
      invariant done + todo == vNew && done !! todo && |indices| + |todo| == |vNew|
      invariant Lists(indices, Image(news, done))
      decreases |todo|
    {
      var it := First(todo);
      NextImage(news, mapUnkIds, indices, done, it);
      indices := indices + [mapUnkIds[it]];
      todo := todo - {it};
      done := done + {it};
    }
    assert done == vNew;
  }

  method Write(am: CAddrMan) returns (file: File, ghost news: seq<int>, ghost tried: seq<int>)
    requires am.Valid()
    ensures Wrote(am.mapInfo, am.hasher, am.vvNew, file, news, tried)
    ensures file.nNew == am.nNew == |file.news| && file.nTried == am.nTried == |file.tried|
    ensures forall b :: 0 <= b < NEW_BUCKET_COUNT ==> |file.buckets[b]| == |am.vvNew[b]|
  {
    var newRecords, mapUnkIds, triedRecords;
    forall id | id in am.mapInfo { Referenced(am.mapInfo, am.hasher, am.vvNew, am.vvTried, id); }
    newRecords, mapUnkIds, news := WriteNew(am.mapInfo, am.nNew);
    triedRecords, tried := WriteTried(am.mapInfo, am.nTried);
    var buckets: seq<seq<int>> := [];
    assert |am.vvNew| == NEW_BUCKET_COUNT;
    for b := 0 to NEW_BUCKET_COUNT
      invariant |buckets| == b
      invariant forall k :: 0 <= k < b ==> Lists(buckets[k], Image(news, am.vvNew[k])) && |buckets[k]| == |am.vvNew[k]|
    {
      var indices := WriteBucket(am.vvNew[b], mapUnkIds, news);
      buckets := buckets + [indices];
    }
    file := File(am.hasher, am.nNew, am.nTried, NEW_BUCKET_COUNT, newRecords, triedRecords, buckets);
  }

  // ------------------------------------------------------------------------------------------
  // Reading
  // ------------------------------------------------------------------------------------------

  /** The tables of an address manager, as values. */
  datatype Tables = Tables(infos: Infos, addrs: map<NetAddr, int>, random: seq<int>, nIdCount: int, h: Hasher,
                           bs: Buckets, vv: seq<seq<int>>)
  {
    ghost predicate Ok() {
      IdsAgree(infos, addrs, random, nIdCount) && NewAgree(infos, bs, -1) && TriedAgree(infos, h, vv) && TimesOk(infos)
    }
  }

  function FromRecord(r: Record): AddrInfo {
    AddrInfo(r.address.service, r.address.nServices, r.address.nTime, r.source, r.nLastSuccess, 0, r.nAttempts, 0,
      false, -1)
  }

  /** An entry as it is after reading, at position k and with another reference count. */
  function Copy(info: AddrInfo, k: int, nRefCount: int): AddrInfo {
    info.(nLastTry := 0, nRandomPos := k, nRefCount := nRefCount)
  }

  /** The old ids, in the order of their new numbers. */
  ghost predicate Numbering(t: Tables, news: seq<int>, tried: seq<int>) {
    Lists(news, NewIds(t.infos)) && Lists(tried, TriedIds(t.infos))
  }

  /** infos' are the first m entries, numbered anew, whatever their reference counts. */
  ghost predicate Copied(infos: Infos, all: seq<int>, m: int, infos': Infos)
    requires 0 <= m <= |all|
  {
    && (forall k :: k in infos' <==> 0 <= k < m)
    && (forall k :: 0 <= k < m ==> all[k] in infos && infos'[k] == Copy(infos[all[k]], k, infos'[k].nRefCount))
  }

  lemma {:induction false} AllIds(t: Tables, news: seq<int>, tried: seq<int>)
    requires Numbering(t, news, tried)
    ensures Distinct(news + tried) && forall id :: id in t.infos <==> id in news + tried
    ensures forall k :: 0 <= k < |news + tried| ==>
      (news + tried)[k] in t.infos && (t.infos[(news + tried)[k]].fInTried <==> k >= |news|)
  {
    var all := news + tried;
    forall k | 0 <= k < |all| ensures all[k] in t.infos && (t.infos[all[k]].fInTried <==> k >= |news|) {
      assert if k < |news| then all[k] == news[k] && news[k] in NewIds(t.infos)
        else all[k] == tried[k - |news|] && tried[k - |news|] in TriedIds(t.infos);
    }
    forall id ensures id in t.infos <==> id in all {
      if id in t.infos { assert id in NewIds(t.infos) || id in TriedIds(t.infos); }
    }
  }

  lemma {:induction false} NextCopied(infos: Infos, all: seq<int>, m: nat, infos': Infos)
    requires m < |all| && all[m] in infos && Copied(infos, all, m, infos')
    ensures Copied(infos, all, m + 1, infos'[m := Copy(infos[all[m]], m, 0)])
  {
  }

  lemma {:induction false} NotYetRead(t: Tables, all: seq<int>, m: nat, infos': Infos, addrs': map<NetAddr, int>,
                                      random': seq<int>)
    requires t.Ok() && Distinct(all) && m < |all| && (forall k :: 0 <= k < |all| ==> all[k] in t.infos)
    requires Copied(t.infos, all, m, infos') && IdsAgree(infos', addrs', random', m)
    ensures t.infos[all[m]].service.ip !in addrs'
  {
    hide NewAgree, TriedAgree, TimesOk;
    OneId(t.infos, t.addrs, t.random, t.nIdCount, all[m]);
    forall k | 0 <= k < m ensures infos'[k].service.ip != t.infos[all[m]].service.ip {
      assert all[k] != all[m];
    }
  }

  /** Reading one more entry. */
  lemma {:induction false} AppendCopy(t: Tables, all: seq<int>, m: nat, infos': Infos, addrs': map<NetAddr, int>,
                                      random': seq<int>)
    requires t.Ok() && Distinct(all) && m < |all| && (forall k :: 0 <= k < |all| ==> all[k] in t.infos)
    requires Copied(t.infos, all, m, infos') && IdsAgree(infos', addrs', random', m) && |random'| == m
    ensures var info := Copy(t.infos[all[m]], m, 0);
      && Copied(t.infos, all, m + 1, infos'[m := info])
      && IdsAgree(infos'[m := info], addrs'[info.service.ip := m], random' + [m], m + 1)
  {
    hide Copied, IdsAgree, NewAgree, TriedAgree, TimesOk;
    NotYetRead(t, all, m, infos', addrs', random');
    NextCopied(t.infos, all, m, infos');
    AppendEntry(infos', addrs', random', m, Copy(t.infos[all[m]], m, 0));
  }

  ghost predicate BucketSoFar(s: seq<int>, all: seq<int>, nNew: int, m: int, s': seq<int>)
    requires 0 <= nNew <= m <= |all|
  {
    Distinct(s') && forall k :: k in s' ==> nNew <= k < m && all[k] in s
  }

  /** The tried buckets when the entries up to m have been read. */
  ghost predicate TriedSoFar(t: Tables, all: seq<int>, nNew: int, m: int, vv': seq<seq<int>>)
    requires 0 <= nNew <= m <= |all| && |t.vv| == TRIED_BUCKET_COUNT
  {
    && |vv'| == TRIED_BUCKET_COUNT
    && (forall b :: 0 <= b < |vv'| ==> BucketSoFar(t.vv[b], all, nNew, m, vv'[b]))
    && (forall k :: nNew <= k < m ==> all[k] in t.infos && k in vv'[t.h.TriedBucket(t.infos[all[k]].service)])
  }

  lemma {:induction false} InjectionSize(s: seq<int>, all: seq<int>, ids: set<int>, n: nat)
    requires n <= |s| && Distinct(s) && Distinct(all)
    requires forall i :: 0 <= i < n ==> 0 <= s[i] < |all| && all[s[i]] in ids
    ensures n <= |ids|
    decreases n
  {
    if n > 0 {
      var x := all[s[n - 1]];
      forall i | 0 <= i < n - 1 ensures all[s[i]] in ids - {x} {
        assert s[i] != s[n - 1];
        if s[i] < s[n - 1] { assert all[s[i]] != all[s[n - 1]]; } else { assert all[s[n - 1]] != all[s[i]]; }
      }
      InjectionSize(s, all, ids - {x}, n - 1);
    }
  }

  lemma {:induction false} ListSize(s: seq<int>, n: nat)
    requires n <= |s|
    ensures |set i | 0 <= i < n :: s[i]| <= n
  {
    if n > 0 {
      ListSize(s, n - 1);
      assert (set i | 0 <= i < n :: s[i]) == (set i | 0 <= i < n - 1 :: s[i]) + {s[n - 1]};
    }
  }

  /** No tried entry is lost: its bucket has room when it is read. */
  lemma {:induction false} HasRoom(t: Tables, all: seq<int>, nNew: int, m: int, vv': seq<seq<int>>)
    requires t.Ok() && Distinct(all) && 0 <= nNew <= m < |all| && TriedSoFar(t, all, nNew, m, vv')
    requires all[m] in t.infos && t.infos[all[m]].fInTried
    ensures |vv'[t.h.TriedBucket(t.infos[all[m]].service)]| < TRIED_BUCKET_SIZE
    ensures all[m] in t.vv[t.h.TriedBucket(t.infos[all[m]].service)]
  {
    var b := t.h.TriedBucket(t.infos[all[m]].service);
    assert TriedOk(t.infos, t.h, t.vv, all[m]) && TriedBucketOk(t.infos, t.h, b, t.vv[b]);
    var full := set i | 0 <= i < |t.vv[b]| :: t.vv[b][i];
    ListSize(t.vv[b], |t.vv[b]|);
    assert BucketSoFar(t.vv[b], all, nNew, m, vv'[b]);
    forall i | 0 <= i < |vv'[b]| ensures 0 <= vv'[b][i] < |all| && all[vv'[b][i]] in full - {all[m]} {
      assert vv'[b][i] in vv'[b];
      assert all[vv'[b][i]] != all[m];
    }
    InjectionSize(vv'[b], all, full - {all[m]}, |vv'[b]|);
  }

  lemma {:induction false} NextTried(t: Tables, all: seq<int>, nNew: int, m: int, vv': seq<seq<int>>)
    requires 0 <= nNew <= m < |all| && |t.vv| == TRIED_BUCKET_COUNT && TriedSoFar(t, all, nNew, m, vv')
    requires all[m] in t.infos && all[m] in t.vv[t.h.TriedBucket(t.infos[all[m]].service)]
    ensures var b := t.h.TriedBucket(t.infos[all[m]].service);
      TriedSoFar(t, all, nNew, m + 1, vv'[b := vv'[b] + [m]])
  {
    var b := t.h.TriedBucket(t.infos[all[m]].service);
    var vv'' := vv'[b := vv'[b] + [m]];
    assert m in vv''[b] by { assert vv''[b][|vv'[b]|] == m; }
    forall k | nNew <= k < m + 1
      ensures all[k] in t.infos && k in vv''[t.h.TriedBucket(t.infos[all[k]].service)]
    {
      if k < m { assert k in vv'[t.h.TriedBucket(t.infos[all[k]].service)]; }
    }
    forall c | 0 <= c < |vv''| ensures BucketSoFar(t.vv[c], all, nNew, m + 1, vv''[c]) {
      assert BucketSoFar(t.vv[c], all, nNew, m, vv'[c]);
      forall k | k in vv''[c] ensures nNew <= k < m + 1 && all[k] in t.vv[c] {
        if c == b && k !in vv'[b] { assert k == m; }
      }
    }
  }

  /** While the buckets are read: those before b are back, and of b the positions seen. */
  ghost predicate Loading(t: Tables, news: seq<int>, all: seq<int>, infos': Infos, bs': Buckets, b: nat, seen: set<int>)
    requires b <= |t.bs|
  {
    && Copied(t.infos, all, |all|, infos')
    && (forall k :: 0 <= k < |all| ==> infos'[k].nRefCount == Count(t.bs, all[k], b) + if k in seen then 1 else 0)
    && |bs'| == |t.bs|
    && (forall j :: 0 <= j < |bs'| ==> bs'[j] == if j < b then Image(news, t.bs[j]) else if j == b then seen else {})
  }

  lemma {:induction false} LoadOne(t: Tables, news: seq<int>, all: seq<int>, infos': Infos, bs': Buckets, b: nat,
                                   seen: set<int>, k: int)
    requires t.Ok() && b < |t.bs| && news <= all && Loading(t, news, all, infos', bs', b, seen)
    requires k in Image(news, t.bs[b]) && k !in seen
    ensures k in infos' && infos'[k].nRefCount < NEW_BUCKETS_PER_ADDRESS
    ensures Loading(t, news, all, infos'[k := OneMoreRef(infos'[k])], bs'[b := bs'[b] + {k}], b, seen + {k})
  {
    assert all[k] in t.bs[b] && all[k] in t.infos;
    IdRange(t.infos, t.addrs, t.random, t.nIdCount);
    assert RefsOk(t.infos, t.bs, -1, all[k]);
    CountGrows(t.bs, all[k], b + 1, |t.bs|);
  }

  lemma {:induction false} NextBucket(t: Tables, news: seq<int>, all: seq<int>, infos': Infos, bs': Buckets, b: nat)
    requires t.Ok() && b < |t.bs| && news <= all && Loading(t, news, all, infos', bs', b, Image(news, t.bs[b]))
    requires forall k :: |news| <= k < |all| ==> all[k] in t.infos && t.infos[all[k]].fInTried
    ensures Loading(t, news, all, infos', bs', b + 1, {})
  {
    forall k | 0 <= k < |all| ensures k in Image(news, t.bs[b]) <==> all[k] in t.bs[b] {
      if k < |news| { assert news[k] == all[k]; }
    }
  }

  /** infos' are the entries numbered anew, and nothing but nLastTry is lost. */
  ghost predicate Restored(infos: Infos, all: seq<int>, infos': Infos) {
    && Copied(infos, all, |all|, infos')
    && (forall k :: 0 <= k < |all| ==> infos'[k].nRefCount == infos[all[k]].nRefCount)
  }

  lemma {:induction false} RefsRestored(t: Tables, news: seq<int>, all: seq<int>, infos': Infos, bs': Buckets)
    requires t.Ok() && Loading(t, news, all, infos', bs', |t.bs|, {})
    ensures Restored(t.infos, all, infos')
  {
    IdRange(t.infos, t.addrs, t.random, t.nIdCount);
    forall k | 0 <= k < |all| ensures infos'[k].nRefCount == t.infos[all[k]].nRefCount {
      assert RefsOk(t.infos, t.bs, -1, all[k]) && TriedOk(t.infos, t.h, t.vv, all[k]);
      CountSome(t.bs, all[k], |t.bs|);
    }
  }

  lemma {:induction false} CountImage(t: Tables, news: seq<int>, all: seq<int>, bs': Buckets, k: nat, n: nat)
    requires n <= |t.bs| == |bs'| && news <= all && k < |news|
    requires forall j :: 0 <= j < |bs'| ==> bs'[j] == Image(news, t.bs[j])
    ensures Count(bs', k, n) == Count(t.bs, all[k], n)
  {
    if n > 0 { CountImage(t, news, all, bs', k, n - 1); }
  }

  lemma {:induction false} NewRestored(t: Tables, news: seq<int>, all: seq<int>, infos': Infos, bs': Buckets)
    requires t.Ok() && Restored(t.infos, all, infos') && |bs'| == |t.bs| && news <= all
    requires forall k :: 0 <= k < |all| ==> all[k] in t.infos && (t.infos[all[k]].fInTried <==> k >= |news|)
    requires forall j :: 0 <= j < |bs'| ==> bs'[j] == Image(news, t.bs[j]) && |bs'[j]| == |t.bs[j]|
    ensures NewAgree(infos', bs', -1)
  {
    IdRange(t.infos, t.addrs, t.random, t.nIdCount);
    forall k | k in infos' ensures RefsOk(infos', bs', -1, k) {
      assert RefsOk(t.infos, t.bs, -1, all[k]);
      if k < |news| { CountImage(t, news, all, bs', k, |bs'|); }
    }
  }

  lemma {:induction false} TriedRestored(t: Tables, nNew: nat, all: seq<int>, infos': Infos, vv': seq<seq<int>>)
    requires t.Ok() && Restored(t.infos, all, infos') && Distinct(all) && nNew <= |all|
    requires forall k :: 0 <= k < |all| ==> all[k] in t.infos && (t.infos[all[k]].fInTried <==> k >= nNew)
    requires TriedSoFar(t, all, nNew, |all|, vv')
    ensures TriedAgree(infos', t.h, vv')
  {
    forall b | 0 <= b < |vv'| ensures TriedBucketOk(infos', t.h, b, vv'[b]) {
      assert BucketSoFar(t.vv[b], all, nNew, |all|, vv'[b]) && TriedBucketOk(t.infos, t.h, b, t.vv[b]);
      var full := set i | 0 <= i < |t.vv[b]| :: t.vv[b][i];
      ListSize(t.vv[b], |t.vv[b]|);
      forall i | 0 <= i < |vv'[b]| ensures 0 <= vv'[b][i] < |all| && all[vv'[b][i]] in full {
        assert vv'[b][i] in vv'[b];
      }
      InjectionSize(vv'[b], all, full, |vv'[b]|);
    }
    forall k | k in infos' ensures TriedOk(infos', t.h, vv', k) {
      assert TriedOk(t.infos, t.h, t.vv, all[k]);
    }
  }

  lemma {:induction false} SizesRestored(infos: Infos, nNew: nat, all: seq<int>, infos': Infos,
                                         addrs': map<NetAddr, int>, random': seq<int>)
    requires Restored(infos, all, infos') && IdsAgree(infos', addrs', random', |all|) && nNew <= |all| == |random'|
    requires forall k :: 0 <= k < |all| ==> all[k] in infos && (infos[all[k]].fInTried <==> k >= nNew)
    ensures |NewIds(infos')| == nNew && |TriedIds(infos')| == |all| - nNew
  {
    RandomSize(infos', addrs', random', |all|);
    forall k | 0 <= k < |all| ensures k < |random'| && random'[k] == k {
      assert IdOk(infos', addrs', random', |all|, k);
    }
    DistinctSize(random', nNew);
    assert (set i | 0 <= i < nNew :: random'[i]) == NewIds(infos') by {
      forall k | k in NewIds(infos') ensures k in set i | 0 <= i < nNew :: random'[i] { assert random'[k] == k; }
    }
  }

  /** The two address managers hold the same, entry k of the second being all[k] of the first. */
  ghost predicate Isomorphic(t: Tables, t': Tables, all: seq<int>) {
    && Distinct(all) && (forall id :: id in t.infos <==> id in all) && t'.h == t.h
    && SameEntries(t, t', all) && SameAddresses(t, t', all) && SameBuckets(t, t', all)
  }

  ghost predicate SameEntries(t: Tables, t': Tables, all: seq<int>) {
    && (forall k :: k in t'.infos <==> 0 <= k < |all|)
    && (forall k :: 0 <= k < |all| ==> SameEntry(t, t', all, k))
  }

  ghost predicate SameAddresses(t: Tables, t': Tables, all: seq<int>) {
    && (forall a :: a in t.addrs <==> a in t'.addrs)
    && (forall a :: a in t'.addrs ==> 0 <= t'.addrs[a] < |all| && t.addrs[a] == all[t'.addrs[a]])
  }

  ghost predicate SameBuckets(t: Tables, t': Tables, all: seq<int>) {
    && |t'.bs| == |t.bs| && |t'.vv| == |t.vv|
    && (forall b :: 0 <= b < |t.bs| ==> SameMembers(all, t.bs[b], t'.bs[b]))
    && (forall b :: 0 <= b < |t.vv| ==> SameMembers(all, (set id | id in t.vv[b]), (set k | k in t'.vv[b])))
  }

  /** Address, statistics, reference count and table; nLastTry is not written. */
  ghost predicate SameEntry(t: Tables, t': Tables, all: seq<int>, k: int)
    requires 0 <= k < |all| && k in t'.infos
  {
    all[k] in t.infos && t'.infos[k] == t.infos[all[k]].(nLastTry := 0, nRandomPos := t'.infos[k].nRandomPos)
  }

  /** ids' are exactly the new numbers of ids. */
  ghost predicate SameMembers(all: seq<int>, ids: set<int>, ids': set<int>) {
    && (forall k :: k in ids' ==> 0 <= k < |all| && all[k] in ids)
    && (forall k :: 0 <= k < |all| && all[k] in ids ==> k in ids')
  }

  ghost predicate From(t: Tables, file: File, news: seq<int>, tried: seq<int>) {
    t.Ok() && Wrote(t.infos, t.h, t.bs, file, news, tried)
  }

  /** Everything read back is consistent and the same up to numbering. */
  lemma {:induction false} RoundTrip(t: Tables, file: File, news: seq<int>, tried: seq<int>, t': Tables)
    requires From(t, file, news, tried) && t'.h == t.h && t'.nIdCount == |news + tried|
    requires IdsAgree(t'.infos, t'.addrs, t'.random, t'.nIdCount) && |t'.random| == t'.nIdCount
    requires Loading(t, news, news + tried, t'.infos, t'.bs, |t.bs|, {})
    requires TriedSoFar(t, news + tried, |news|, |news + tried|, t'.vv)
    ensures t'.Ok() && |NewIds(t'.infos)| == file.nNew && |TriedIds(t'.infos)| == file.nTried
    ensures Isomorphic(t, t', news + tried)
  {
    hide IdsAgree, NewAgree, TriedAgree, TimesOk, TriedSoFar, Restored, SameEntries, SameAddresses, SameBuckets;
    hide Distinct;
    var all := news + tried;
    AllIds(t, news, tried);
    RefsRestored(t, news, all, t'.infos, t'.bs);
    assert |t'.bs| == |t.bs| && forall j :: 0 <= j < |t'.bs| ==> t'.bs[j] == Image(news, t.bs[j]);
    assert forall j :: 0 <= j < |t'.bs| ==> |t'.bs[j]| == |t.bs[j]|;
    NewRestored(t, news, all, t'.infos, t'.bs);
    TriedRestored(t, |news|, all, t'.infos, t'.vv);
    SizesRestored(t.infos, |news|, all, t'.infos, t'.addrs, t'.random);
    EntriesRestored(t, all, t');
    AddressesRestored(t, all, t');
    BucketsRestored(t, news, all, t');
  }

  lemma {:induction false} EntriesRestored(t: Tables, all: seq<int>, t': Tables)
    requires t.Ok() && Restored(t.infos, all, t'.infos)
    ensures SameEntries(t, t', all) && TimesOk(t'.infos)
  {
    forall k | k in t'.infos ensures t'.infos[k].nLastTry >= 0 && t'.infos[k].nLastSuccess >= 0 {
      var id := all[k];
      assert SameEntry(t, t', all, k) && TimesOk(t.infos) && id in t.infos;
      assert t.infos[id].nLastSuccess >= 0;
    }
  }

  lemma {:induction false} AddressesRestored(t: Tables, all: seq<int>, t': Tables)
    requires t.Ok() && Restored(t.infos, all, t'.infos) && IdsAgree(t'.infos, t'.addrs, t'.random, t'.nIdCount)
    requires forall id :: id in t.infos <==> id in all
    ensures SameAddresses(t, t', all)
  {
    forall a | a in t'.addrs ensures 0 <= t'.addrs[a] < |all| && a in t.addrs && t.addrs[a] == all[t'.addrs[a]] {
      var k := t'.addrs[a];
      assert k in t'.infos && IdOk(t.infos, t.addrs, t.random, t.nIdCount, all[k]);
    }
    forall a | a in t.addrs ensures a in t'.addrs {
      var k :| 0 <= k < |all| && all[k] == t.addrs[a];
      assert IdOk(t'.infos, t'.addrs, t'.random, t'.nIdCount, k);
    }
  }

  lemma {:induction false} BucketsRestored(t: Tables, news: seq<int>, all: seq<int>, t': Tables)
    requires t.Ok() && Loading(t, news, all, t'.infos, t'.bs, |t.bs|, {}) && news <= all
    requires TriedSoFar(t, all, |news|, |all|, t'.vv)
    requires forall k :: 0 <= k < |all| ==> all[k] in t.infos && (t.infos[all[k]].fInTried <==> k >= |news|)
    ensures SameBuckets(t, t', all)
  {
    forall b | 0 <= b < |t.vv| ensures SameMembers(all, (set id | id in t.vv[b]), (set k | k in t'.vv[b])) {
      assert BucketSoFar(t.vv[b], all, |news|, |all|, t'.vv[b]) && TriedBucketOk(t.infos, t.h, b, t.vv[b]);
    }
    forall b | 0 <= b < |t.bs| ensures SameMembers(all, t.bs[b], t'.bs[b]) {
      assert forall id :: id in t.bs[b] ==> id in t.infos && !t.infos[id].fInTried;
    }
  }

  /** The entries read so far, in no "new" bucket yet. */
  ghost predicate Progress(t: Tables, all: seq<int>, m: int, infos': Infos, addrs': map<NetAddr, int>,
                           random': seq<int>) {
    && 0 <= m <= |all| && Copied(t.infos, all, m, infos') && IdsAgree(infos', addrs', random', m) && |random'| == m
    && forall k :: 0 <= k < m ==> infos'[k].nRefCount == 0
  }

  lemma {:induction false} NextProgress(t: Tables, file: File, news: seq<int>, tried: seq<int>, m: nat,
                                        record: Record, info: AddrInfo, infos': Infos, addrs': map<NetAddr, int>,
                                        random': seq<int>)
    requires From(t, file, news, tried) && m < |news + tried| && Progress(t, news + tried, m, infos', addrs', random')
    requires record == (if m < file.nNew then file.news[m] else file.tried[m - file.nNew])
    requires info == FromRecord(record).(nRandomPos := m, fInTried := m >= file.nNew)
    ensures Progress(t, news + tried, m + 1, infos'[m := info], addrs'[info.service.ip := m], random' + [m])
    ensures (news + tried)[m] in t.infos && info == Copy(t.infos[(news + tried)[m]], m, 0)
    ensures t.infos[(news + tried)[m]].fInTried <==> m >= file.nNew
  {
    hide IdsAgree, NewAgree, TriedAgree, TimesOk, Lists, Distinct;
    var all := news + tried;
    AllIds(t, news, tried);
    assert all[m] == if m < file.nNew then news[m] else tried[m - file.nNew];
    AppendCopy(t, all, m, infos', addrs', random');
  }

  method ReadNew(am: CAddrMan, file: File, ghost t: Tables, ghost news: seq<int>, ghost tried: seq<int>)
    requires |file.news| == file.nNew && |am.vvNew| == NEW_BUCKET_COUNT && am.hasher == file.nKey
    requires am.mapInfo == map[] && am.mapAddr == map[] && am.vRandom == []
    modifies am`mapInfo, am`mapAddr, am`vRandom, am`vvNew
    ensures |am.vvNew| == NEW_BUCKET_COUNT
    ensures file.nUBuckets == NEW_BUCKET_COUNT ==> am.vvNew == old(am.vvNew)
    ensures From(t, file, news, tried) ==> Progress(t, news + tried, file.nNew, am.mapInfo, am.mapAddr, am.vRandom)
  {
    assert From(t, file, news, tried) ==>
        Progress(t, news + tried, 0, map[], map[], []) && file.nNew == |news| && file.nUBuckets == NEW_BUCKET_COUNT by {
    }
    for n := 0 to file.nNew
      invariant |am.vvNew| == NEW_BUCKET_COUNT
      invariant file.nUBuckets == NEW_BUCKET_COUNT ==> am.vvNew == old(am.vvNew)
      invariant From(t, file, news, tried) ==> Progress(t, news + tried, n, am.mapInfo, am.mapAddr, am.vRandom)
    {
      var info := FromRecord(file.news[n]).(nRandomPos := |am.vRandom|);
      if From(t, file, news, tried) {
        assert |am.vRandom| == n;
        assert info.fInTried == false;
        NextProgress(t, file, news, tried, n, file.news[n], info, am.mapInfo, am.mapAddr, am.vRandom);
      }
      am.mapInfo := am.mapInfo[n := info];
      am.mapAddr := am.mapAddr[info.service.ip := n];
      am.vRandom := am.vRandom + [n];
      if file.nUBuckets != NEW_BUCKET_COUNT {
        var b := am.hasher.NewBucket(info.service, info.source);
        am.vvNew := am.vvNew[b := am.vvNew[b] + {n}];
        am.mapInfo := am.mapInfo[n := OneMoreRef(info)];
      }
    }
  }

  /** Progress, with the tried buckets. */
  ghost predicate TriedProgress(t: Tables, news: seq<int>, tried: seq<int>, m: int, infos': Infos,
                                addrs': map<NetAddr, int>, random': seq<int>, vv': seq<seq<int>>)
  {
    && |t.vv| == TRIED_BUCKET_COUNT && |news| <= m
    && Progress(t, news + tried, m, infos', addrs', random') && TriedSoFar(t, news + tried, |news|, m, vv')
  }

  lemma {:induction false} NextTriedRead(t: Tables, file: File, news: seq<int>, tried: seq<int>, m: nat,
                                         record: Record, infos': Infos, addrs': map<NetAddr, int>, random': seq<int>,
                                         vv': seq<seq<int>>)
    requires From(t, file, news, tried) && file.nNew <= m < |news + tried|
    requires TriedProgress(t, news, tried, m, infos', addrs', random', vv') && record == file.tried[m - file.nNew]
    ensures var info := FromRecord(record).(nRandomPos := m, fInTried := true);
      var b := file.nKey.TriedBucket(info.service);
      && |vv'| == TRIED_BUCKET_COUNT && |vv'[b]| < TRIED_BUCKET_SIZE && |random'| == m
      && TriedProgress(t, news, tried, m + 1, infos'[m := info], addrs'[info.service.ip := m], random' + [m],
                       vv'[b := vv'[b] + [m]])
  {
    hide IdsAgree, NewAgree, TriedAgree, TimesOk, Lists, Distinct;
    assert |vv'| == TRIED_BUCKET_COUNT;
    assert |random'| == m;
    var info := FromRecord(record).(nRandomPos := m, fInTried := true);
    AllIds(t, news, tried);
    NextProgress(t, file, news, tried, m, record, info, infos', addrs', random');
    HasRoom(t, news + tried, |news|, m, vv');
    NextTried(t, news + tried, |news|, m, vv');
  }

  /** Reads the tried entry that gets the number nIdCount, unless its bucket is full. */
  method ReadOneTried(am: CAddrMan, file: File, n: nat, ghost t: Tables, ghost news: seq<int>, ghost tried: seq<int>)
    returns (lost: bool)
    requires n < |file.tried| == file.nTried && am.hasher == file.nKey && |am.vvTried| == TRIED_BUCKET_COUNT
    requires From(t, file, news, tried) ==> am.nIdCount == file.nNew + n
    requires From(t, file, news, tried) ==>
      TriedProgress(t, news, tried, am.nIdCount, am.mapInfo, am.mapAddr, am.vRandom, am.vvTried)
    modifies am`mapInfo, am`mapAddr, am`vRandom, am`vvTried, am`nIdCount
    ensures |am.vvTried| == TRIED_BUCKET_COUNT
    ensures From(t, file, news, tried) ==> !lost && am.nIdCount == file.nNew + n + 1
    ensures From(t, file, news, tried) ==>
      TriedProgress(t, news, tried, am.nIdCount, am.mapInfo, am.mapAddr, am.vRandom, am.vvTried)
  {
    hide TriedProgress, FromRecord;
    var info := FromRecord(file.tried[n]);
    var b := am.hasher.TriedBucket(info.service);
    if From(t, file, news, tried) {
      assert 0 <= file.nNew <= am.nIdCount < |news + tried|;
      NextTriedRead(t, file, news, tried, am.nIdCount, file.tried[n], am.mapInfo, am.mapAddr, am.vRandom, am.vvTried);
      assert info.service == info.(nRandomPos := am.nIdCount, fInTried := true).service;
    }
    if |am.vvTried[b]| >= TRIED_BUCKET_SIZE { return true; }
    info := info.(nRandomPos := |am.vRandom|, fInTried := true);
    am.vRandom := am.vRandom + [am.nIdCount];
    am.mapInfo := am.mapInfo[am.nIdCount := info];
    am.mapAddr := am.mapAddr[info.service.ip := am.nIdCount];
    am.vvTried := am.vvTried[b := am.vvTried[b] + [am.nIdCount]];
    am.nIdCount := am.nIdCount + 1;
    return false;
  }

  method ReadTried(am: CAddrMan, file: File, ghost t: Tables, ghost news: seq<int>, ghost tried: seq<int>)
    requires |file.tried| == file.nTried && am.hasher == file.nKey && am.nIdCount == file.nNew
    requires am.vvTried == seq(TRIED_BUCKET_COUNT, _ => [])
    requires From(t, file, news, tried) ==> Progress(t, news + tried, file.nNew, am.mapInfo, am.mapAddr, am.vRandom)
    modifies am`mapInfo, am`mapAddr, am`vRandom, am`vvTried, am`nIdCount, am`nTried
    ensures From(t, file, news, tried) ==>
      && am.nIdCount == |news + tried| && am.nTried == file.nTried
      && TriedProgress(t, news, tried, |news + tried|, am.mapInfo, am.mapAddr, am.vRandom, am.vvTried)
  {
    var nLost := 0;
    if From(t, file, news, tried) {
      assert file.nNew == |news| && file.nTried == |tried|;
      assert TriedProgress(t, news, tried, am.nIdCount, am.mapInfo, am.mapAddr, am.vRandom, am.vvTried) by {
      }
    }
    for n := 0 to file.nTried
      invariant |am.vvTried| == TRIED_BUCKET_COUNT
      invariant From(t, file, news, tried) ==> nLost == 0 && am.nIdCount == file.nNew + n
      invariant From(t, file, news, tried) ==>
          TriedProgress(t, news, tried, am.nIdCount, am.mapInfo, am.mapAddr, am.vRandom, am.vvTried)
    {
      var lost := ReadOneTried(am, file, n, t, news, tried);
      if lost { nLost := nLost + 1; }
    }
    am.nTried := file.nTried - nLost;
  }

  /** CAddrInfo(), which the subscript operator makes of an index that is not there. */
  const NO_INFO: AddrInfo := AddrInfo(Service(0, 0), {0}, 100000000, 0, 0, 0, 0, 0, false, -1)

  function Firsts(s: seq<int>, n: nat): set<int>
    requires n <= |s|
  {
    set i | 0 <= i < n :: s[i]
  }

  /** The positions of a written bucket come once each, and all of them. */
  lemma {:induction false} NextIndex(indices: seq<int>, ids: set<int>, n: nat)
    requires Lists(indices, ids) && n < |indices|
    ensures indices[n] in ids && indices[n] !in Firsts(indices, n)
    ensures Firsts(indices, n + 1) == Firsts(indices, n) + {indices[n]}
  {
    var x := indices[n];
    assert x in indices;
    assert x in ids <==> x in indices;
    forall i | 0 <= i < n ensures indices[i] != x { assert Distinct(indices); }
  }

  method ReadBucket(am: CAddrMan, file: File, b: nat, ghost t: Tables, ghost news: seq<int>, ghost tried: seq<int>)
    requires b < |file.buckets| == file.nUBuckets <= NEW_BUCKET_COUNT == |am.vvNew|
    requires From(t, file, news, tried) ==> b < |t.bs| && Loading(t, news, news + tried, am.mapInfo, am.vvNew, b, {})
    modifies am`mapInfo, am`vvNew
    ensures |am.vvNew| == NEW_BUCKET_COUNT
    ensures From(t, file, news, tried) ==> b < |t.bs| && Loading(t, news, news + tried, am.mapInfo, am.vvNew, b + 1, {})
  {
    hide Loading, Lists, Image;
    var indices := file.buckets[b];
    assert From(t, file, news, tried) ==>
      Lists(indices, Image(news, t.bs[b])) && file.nUBuckets == NEW_BUCKET_COUNT by {
    }
    ghost var all := news + tried;
    assert Firsts(indices, 0) == {};
    for n := 0 to |indices|
      invariant |am.vvNew| == NEW_BUCKET_COUNT
      invariant From(t, file, news, tried) ==> Loading(t, news, all, am.mapInfo, am.vvNew, b, Firsts(indices, n))
    {
      var nIndex := indices[n];
      if From(t, file, news, tried) {
        NextIndex(indices, Image(news, t.bs[b]), n);
        assert t.Ok();
        LoadOne(t, news, all, am.mapInfo, am.vvNew, b, Firsts(indices, n), nIndex);
      }
      if nIndex !in am.mapInfo { am.mapInfo := am.mapInfo[nIndex := NO_INFO]; }
      if file.nUBuckets == NEW_BUCKET_COUNT && am.mapInfo[nIndex].nRefCount < NEW_BUCKETS_PER_ADDRESS {
        am.mapInfo := am.mapInfo[nIndex := OneMoreRef(am.mapInfo[nIndex])];
        am.vvNew := am.vvNew[b := am.vvNew[b] + {nIndex}];
      }
    }
    if From(t, file, news, tried) {
      assert Firsts(indices, |indices|) == Image(news, t.bs[b]) by { AllIndices(indices, Image(news, t.bs[b])); }
      assert t.Ok() && Numbering(t, news, tried);
      AllIds(t, news, tried);
      NextBucket(t, news, all, am.mapInfo, am.vvNew, b);
    }
  }

  lemma {:induction false} AllIndices(indices: seq<int>, ids: set<int>)
    requires Lists(indices, ids)
    ensures Firsts(indices, |indices|) == ids
  {
    forall id | id in Firsts(indices, |indices|) ensures id in ids { assert id in indices; }
    forall id | id in ids ensures id in Firsts(indices, |indices|) {
      var i :| 0 <= i < |indices| && indices[i] == id;
    }
  }

  method ReadBuckets(am: CAddrMan, file: File, ghost t: Tables, ghost news: seq<int>, ghost tried: seq<int>)
    requires |file.buckets| == file.nUBuckets <= NEW_BUCKET_COUNT == |am.vvNew|
    requires From(t, file, news, tried) ==> Loading(t, news, news + tried, am.mapInfo, am.vvNew, 0, {})
    modifies am`mapInfo, am`vvNew
    ensures From(t, file, news, tried) ==> Loading(t, news, news + tried, am.mapInfo, am.vvNew, |t.bs|, {})
  {
    hide Loading;
    assert From(t, file, news, tried) ==> file.nUBuckets == |t.bs|;
    for b := 0 to file.nUBuckets
      invariant |am.vvNew| == NEW_BUCKET_COUNT
      invariant From(t, file, news, tried) ==> Loading(t, news, news + tried, am.mapInfo, am.vvNew, b, {})
    {
      ReadBucket(am, file, b, t, news, tried);
    }
  }

  lemma {:induction false} RefsOnly(infos: Infos, all: seq<int>, a: Infos, b: Infos, addrs': map<NetAddr, int>,
                                    random': seq<int>)
    requires IdsAgree(a, addrs', random', |all|) && Copied(infos, all, |all|, a) && Copied(infos, all, |all|, b)
    ensures IdsAgree(b, addrs', random', |all|)
  {
    assert forall k :: k in a ==> k in b && b[k].service == a[k].service && b[k].nRandomPos == a[k].nRandomPos;
    forall k | 0 <= k < |random'|
      ensures random'[k] in b && b[random'[k]].nRandomPos == k
    {
      var id := random'[k];
      assert id in a;
    }
    forall x | x in addrs'
      ensures addrs'[x] in b && b[addrs'[x]].service.ip == x
    {
      var id := addrs'[x];
      assert id in a;
    }
    forall k | k in b ensures IdOk(b, addrs', random', |all|, k) { assert IdOk(a, addrs', random', |all|, k); }
  }

  lemma {:induction false} Finish(t: Tables, file: File, news: seq<int>, tried: seq<int>, infos': Infos, t': Tables)
    requires From(t, file, news, tried) && t'.h == file.nKey && t'.nIdCount == |news + tried|
    requires TriedProgress(t, news, tried, |news + tried|, infos', t'.addrs, t'.random, t'.vv)
    requires Loading(t, news, news + tried, t'.infos, t'.bs, |t.bs|, {})
    ensures t'.Ok() && |NewIds(t'.infos)| == file.nNew && |TriedIds(t'.infos)| == file.nTried
    ensures Isomorphic(t, t', news + tried)
  {
    hide IdsAgree, NewAgree, TriedAgree, TimesOk, TriedSoFar, Copied, Isomorphic;
    RefsOnly(t.infos, news + tried, infos', t'.infos, t'.addrs, t'.random);
    RoundTrip(t, file, news, tried, t');
  }

  function TablesOf(am: CAddrMan): Tables
    reads am
  {
    Tables(am.mapInfo, am.mapAddr, am.vRandom, am.nIdCount, am.hasher, am.vvNew, am.vvTried)
  }

  lemma {:induction false} StartLoading(t: Tables, file: File, news: seq<int>, tried: seq<int>, infos': Infos,
                                        addrs': map<NetAddr, int>, random': seq<int>, vv': seq<seq<int>>,
                                        bs': Buckets)
    requires From(t, file, news, tried) && TriedProgress(t, news, tried, |news + tried|, infos', addrs', random', vv')
    requires |bs'| == NEW_BUCKET_COUNT && forall b :: 0 <= b < |bs'| ==> bs'[b] == {}
    ensures Loading(t, news, news + tried, infos', bs', 0, {})
  {
  }

  /** Reads a file into an address manager, whatever that held before. If the file was written by a
      consistent one, the result is consistent and isomorphic to it, and nothing is lost. */
  method Read(am: CAddrMan, file: File, ghost t: Tables, ghost news: seq<int>, ghost tried: seq<int>)
    requires |file.news| == file.nNew && |file.tried| == file.nTried
    requires |file.buckets| == file.nUBuckets <= NEW_BUCKET_COUNT
    modifies am
    ensures From(t, file, news, tried) ==>
      am.Valid() && am.nNew == file.nNew && am.nTried == file.nTried && Isomorphic(t, TablesOf(am), news + tried)
  {
    hide Progress, TriedProgress, Loading, TriedSoFar, Isomorphic, IdsAgree, TriedAgree, TimesOk;
    am.hasher, am.nNew, am.nTried := file.nKey, file.nNew, file.nTried;
    am.nIdCount := 0;
    am.mapInfo, am.mapAddr, am.vRandom := map[], map[], [];
    am.vvTried := seq(TRIED_BUCKET_COUNT, _ => []);
    am.vvNew := seq(NEW_BUCKET_COUNT, _ => {});
    ReadNew(am, file, t, news, tried);
    am.nIdCount := file.nNew;
    ReadTried(am, file, t, news, tried);
    if From(t, file, news, tried) {
      assert file.nUBuckets == NEW_BUCKET_COUNT;
      StartLoading(t, file, news, tried, am.mapInfo, am.mapAddr, am.vRandom, am.vvTried, am.vvNew);
    }
    ghost var infos' := am.mapInfo;
    ReadBuckets(am, file, t, news, tried);
    if From(t, file, news, tried) { Finish(t, file, news, tried, infos', TablesOf(am)); }
  }
}
