/** The tables of the address manager and what it means for them to agree: the conditions that
    CAddrMan::Check_ tests (src/addrman.cpp), one predicate per table. */
module AddrTables {
  import opened Basics

  const TRIED_BUCKET_COUNT: nat := 64
  const TRIED_BUCKET_SIZE: nat := 64
  const NEW_BUCKET_COUNT: nat := 256
  const NEW_BUCKET_SIZE: nat := 64
  const TRIED_BUCKETS_PER_GROUP: nat := 4
  const NEW_BUCKETS_PER_SOURCE_GROUP: nat := 32
  const NEW_BUCKETS_PER_ADDRESS: nat := 4
  const TRIED_ENTRIES_INSPECT_ON_EVICT: nat := 4
  const HORIZON_DAYS: int := 30
  const RETRIES: int := 3
  const MAX_FAILURES: int := 10
  const MIN_FAIL_DAYS: int := 7
  const GETADDR_MAX_PCT: nat := 23
  const GETADDR_MAX: nat := 2500

  /** An address without its port (CNetAddr), and with it (CService). */
  type NetAddr = nat
  datatype Service = Service(ip: NetAddr, port: nat)

  /** CAddress; the service bits are a set. */
  datatype Address = Address(service: Service, nServices: set<nat>, nTime: int)

  datatype AddrInfo = AddrInfo(service: Service, nServices: set<nat>, nTime: int, source: NetAddr, nLastSuccess: int,
                               nLastTry: int, nAttempts: int, nRefCount: int, fInTried: bool, nRandomPos: int)
  {
    function ToAddress(): Address { Address(service, nServices, nTime) }

    predicate IsTerrible(nNow: int) {
      if nLastTry != 0 && nLastTry >= nNow - 60 then false
      else if nTime > nNow + 10 * 60 then true
      else if nTime == 0 || nNow - nTime > HORIZON_DAYS * 86400 then true
      else if nLastSuccess == 0 && nAttempts >= RETRIES then true
      else nNow - nLastSuccess > MIN_FAIL_DAYS * 86400 && nAttempts >= MAX_FAILURES
    }
  }

  /** The entry may be forgotten: it was not tried in the last minute, and it claims to be from the
      future, was not seen in a month, never answered in three tries, or failed ten times in a week. */
  ghost predicate Dispensable(info: AddrInfo, nNow: int) {
    && (info.nLastTry == 0 || info.nLastTry < nNow - 60)
    && (|| info.nTime > nNow + 600
        || info.nTime == 0 || info.nTime < nNow - 2_592_000
        || (info.nLastSuccess == 0 && info.nAttempts >= 3)
        || (info.nLastSuccess < nNow - 604_800 && info.nAttempts >= 10))
  }

  lemma {:induction false} TerribleIsDispensable(nNow: int)
    ensures forall info: AddrInfo :: info.IsTerrible(nNow) <==> Dispensable(info, nNow)
  {
  }

  /** The address range an address belongs to. */
  type Group = nat

  /** The ranges and the keyed hashes behind the choice of a bucket. */
  datatype Hasher = Hasher(group: NetAddr -> Group, triedKey: Service -> nat, triedHash: (Group, nat) -> nat,
                           newKey: (Group, Group) -> nat, newHash: (Group, nat) -> nat)
  {
    function TriedBucket(s: Service): (b: nat)
      ensures b < TRIED_BUCKET_COUNT
    {
      var hash1 := triedKey(s);
      triedHash(group(s.ip), hash1 % TRIED_BUCKETS_PER_GROUP) % TRIED_BUCKET_COUNT
    }

    function NewBucket(s: Service, source: NetAddr): (b: nat)
      ensures b < NEW_BUCKET_COUNT
    {
      var hash1 := newKey(group(s.ip), group(source));
      newHash(group(source), hash1 % NEW_BUCKETS_PER_SOURCE_GROUP) % NEW_BUCKET_COUNT
    }
  }

  type Infos = map<int, AddrInfo>
  type Buckets = seq<set<int>>

  // ------------------------------------------------------------------------------------------
  // The three tables
  // ------------------------------------------------------------------------------------------

  predicate IdOk(infos: Infos, addrs: map<NetAddr, int>, random: seq<int>, nIdCount: int, id: int)
    requires id in infos
  {
    var info := infos[id];
    && 0 <= id < nIdCount
    && info.service.ip in addrs && addrs[info.service.ip] == id
    && 0 <= info.nRandomPos < |random| && random[info.nRandomPos] == id
  }

  /** mapInfo, mapAddr and vRandom are inverse to one another. */
  ghost predicate IdsAgree(infos: Infos, addrs: map<NetAddr, int>, random: seq<int>, nIdCount: int) {
    && nIdCount >= 0
    && (forall id :: id in infos ==> IdOk(infos, addrs, random, nIdCount, id))
    && (forall a :: a in addrs ==> addrs[a] in infos && infos[addrs[a]].service.ip == a)
    && (forall k :: 0 <= k < |random| ==> random[k] in infos && infos[random[k]].nRandomPos == k)
  }

  /** In how many of the first k buckets the id is. */
  function Count(bs: Buckets, id: int, k: nat): nat
    requires k <= |bs|
  {
    if k == 0 then 0 else Count(bs, id, k - 1) + if id in bs[k - 1] then 1 else 0
  }

  /** How often an untried entry must be referenced; the entry `pending` is about to be put in one
      bucket more. */
  predicate RefsOk(infos: Infos, bs: Buckets, pending: int, id: int)
    requires id in infos
  {
    !infos[id].fInTried ==>
      && infos[id].nRefCount == Count(bs, id, |bs|) + (if id == pending then 1 else 0)
      && 1 <= infos[id].nRefCount <= NEW_BUCKETS_PER_ADDRESS
  }

  /** The "new" buckets hold untried entries, each as often as its reference count says. */
  ghost predicate NewAgree(infos: Infos, bs: Buckets, pending: int) {
    && |bs| == NEW_BUCKET_COUNT
    && (forall b :: 0 <= b < |bs| ==> |bs[b]| <= NEW_BUCKET_SIZE)
    && (forall b, id :: 0 <= b < |bs| && id in bs[b] ==> id in infos && !infos[id].fInTried)
    && (forall id :: id in infos ==> RefsOk(infos, bs, pending, id))
  }

  /** A tried bucket holds, once each, tried entries that hash to it. */
  ghost predicate TriedBucketOk(infos: Infos, h: Hasher, b: int, s: seq<int>) {
    && |s| <= TRIED_BUCKET_SIZE
    && Distinct(s)
    && (forall id :: id in s ==> id in infos && infos[id].fInTried && h.TriedBucket(infos[id].service) == b)
  }

  predicate TriedOk(infos: Infos, h: Hasher, vv: seq<seq<int>>, id: int)
    requires id in infos && |vv| == TRIED_BUCKET_COUNT
  {
    infos[id].fInTried ==>
      id in vv[h.TriedBucket(infos[id].service)] && infos[id].nRefCount == 0 && infos[id].nLastSuccess != 0
  }

  /** Every tried entry is in exactly one tried bucket, the one its hash picks. */
  ghost predicate TriedAgree(infos: Infos, h: Hasher, vv: seq<seq<int>>) {
    && |vv| == TRIED_BUCKET_COUNT
    && (forall b :: 0 <= b < |vv| ==> TriedBucketOk(infos, h, b, vv[b]))
    && (forall id :: id in infos ==> TriedOk(infos, h, vv, id))
  }

  predicate TimesOk(infos: Infos)
  {
    forall id :: id in infos ==> infos[id].nLastTry >= 0 && infos[id].nLastSuccess >= 0
  }

  function NewIds(infos: Infos): set<int> { set id | id in infos && !infos[id].fInTried }

  function TriedIds(infos: Infos): set<int> { set id | id in infos && infos[id].fInTried }

  // ------------------------------------------------------------------------------------------
  // Counting
  // ------------------------------------------------------------------------------------------

  lemma {:induction false} CountPut(bs: Buckets, b: nat, s: set<int>, id: int, k: nat)
    requires b < |bs| && k <= |bs|
    ensures Count(bs[b := s], id, k) ==
            Count(bs, id, k) + if b < k then (if id in s then 1 else 0) - (if id in bs[b] then 1 else 0) else 0
  {
    if k > 0 { CountPut(bs, b, s, id, k - 1); }
  }

  lemma {:induction false} CountSome(bs: Buckets, id: int, k: nat)
    requires k <= |bs|
    ensures Count(bs, id, k) > 0 <==> exists b :: 0 <= b < k && id in bs[b]
    ensures Count(bs, id, k) <= k
  {
    if k > 0 { CountSome(bs, id, k - 1); }
  }

  lemma {:induction false} CountGrows(bs: Buckets, id: int, k: nat, n: nat)
    requires k <= n <= |bs|
    ensures Count(bs, id, k) <= Count(bs, id, n)
  {
    if k < n { CountGrows(bs, id, k, n - 1); }
  }

  /** vRandom has one place for every entry. */
  lemma {:induction false} RandomSize(infos: Infos, addrs: map<NetAddr, int>, random: seq<int>, nIdCount: int)
    requires IdsAgree(infos, addrs, random, nIdCount)
    ensures |random| == |infos| && Distinct(random) && |infos| == |NewIds(infos)| + |TriedIds(infos)|
  {
    forall i, j | 0 <= i < j < |random| ensures random[i] != random[j] {
      assert infos[random[i]].nRandomPos == i && infos[random[j]].nRandomPos == j;
    }
    var s := set k | 0 <= k < |random| :: random[k];
    forall id | id in infos ensures id in s { assert IdOk(infos, addrs, random, nIdCount, id); }
    assert s == infos.Keys;
    DistinctSize(random, |random|);
    assert NewIds(infos) + TriedIds(infos) == infos.Keys && NewIds(infos) !! TriedIds(infos);
  }

  lemma {:induction false} DistinctSize(s: seq<int>, k: nat)
    requires k <= |s| && Distinct(s)
    ensures |set i | 0 <= i < k :: s[i]| == k
  {
    if k > 0 {
      DistinctSize(s, k - 1);
      assert (set i | 0 <= i < k :: s[i]) == (set i | 0 <= i < k - 1 :: s[i]) + {s[k - 1]};
    }
  }

  // ------------------------------------------------------------------------------------------
  // What each change to the tables keeps
  // ------------------------------------------------------------------------------------------

  /** b differs from a only in positions in vRandom. */
  ghost predicate SameExceptPos(a: Infos, b: Infos) {
    a.Keys == b.Keys && forall id :: id in a ==> b[id] == a[id].(nRandomPos := b[id].nRandomPos)
  }

  lemma {:induction false} PosTransitive(a: Infos, b: Infos, c: Infos)
    requires SameExceptPos(a, b) && SameExceptPos(b, c)
    ensures SameExceptPos(a, c)
  {
    forall id | id in a ensures c[id] == a[id].(nRandomPos := c[id].nRandomPos) {
      assert b[id] == a[id].(nRandomPos := b[id].nRandomPos);
    }
  }

  lemma {:induction false} PosAddress(a: Infos, b: Infos, id: int)
    requires SameExceptPos(a, b) && (id in a || id in b)
    ensures id in a && id in b && a[id].ToAddress() == b[id].ToAddress()
  {
    assert id in a.Keys && id in b.Keys;
  }

  lemma {:induction false} Listed(a: Infos, b: Infos, addrs: map<NetAddr, int>, random: seq<int>, nIdCount: int,
                                  id: int)
    requires SameExceptPos(a, b) && IdsAgree(b, addrs, random, nIdCount) && id in a
    ensures id in b && b[id].ToAddress() == a[id].ToAddress()
    ensures a[id].ToAddress().service.ip in addrs && addrs[a[id].ToAddress().service.ip] == id
  {
    PosAddress(a, b, id);
    assert IdOk(b, addrs, random, nIdCount, id);
  }

  lemma {:induction false} PosIrrelevant(a: Infos, b: Infos, h: Hasher, bs: Buckets, vv: seq<seq<int>>, pending: int)
    requires SameExceptPos(a, b) && NewAgree(a, bs, pending) && TriedAgree(a, h, vv) && TimesOk(a)
    ensures NewAgree(b, bs, pending) && TriedAgree(b, h, vv) && TimesOk(b)
    ensures NewIds(b) == NewIds(a) && TriedIds(b) == TriedIds(a)
  {
    forall id | id in b ensures RefsOk(b, bs, pending, id) && TriedOk(b, h, vv, id) {
      assert RefsOk(a, bs, pending, id) && TriedOk(a, h, vv, id);
    }
    forall k | 0 <= k < |vv| ensures TriedBucketOk(b, h, k, vv[k]) { assert TriedBucketOk(a, h, k, vv[k]); }
    forall id ensures (id in NewIds(a) <==> id in NewIds(b)) && (id in TriedIds(a) <==> id in TriedIds(b)) {
      assert id in a ==> b[id].fInTried == a[id].fInTried;
    }
  }

  /** info' is info with other statistics: same address, same tables. */
  predicate SamePlace(info: AddrInfo, info': AddrInfo) {
    && info'.service == info.service && info'.nRefCount == info.nRefCount && info'.fInTried == info.fInTried
    && info'.nRandomPos == info.nRandomPos
    && info'.nLastTry >= 0 && info'.nLastSuccess >= 0 && (info.nLastSuccess != 0 ==> info'.nLastSuccess != 0)
  }

  lemma {:induction false} StatisticsIrrelevant(infos: Infos, addrs: map<NetAddr, int>, random: seq<int>,
                                                nIdCount: int, h: Hasher, bs: Buckets, vv: seq<seq<int>>, id: int,
                                                info': AddrInfo)
    requires id in infos && SamePlace(infos[id], info')
    requires IdsAgree(infos, addrs, random, nIdCount) && NewAgree(infos, bs, -1) && TriedAgree(infos, h, vv)
    requires TimesOk(infos)
    ensures var infos' := infos[id := info'];
      && IdsAgree(infos', addrs, random, nIdCount) && NewAgree(infos', bs, -1) && TriedAgree(infos', h, vv) &&
        TimesOk(infos')
      && NewIds(infos') == NewIds(infos) && TriedIds(infos') == TriedIds(infos)
  {
    var infos' := infos[id := info'];
    forall k | k in infos'
      ensures RefsOk(infos', bs, -1, k) && TriedOk(infos', h, vv, k) && IdOk(infos', addrs, random, nIdCount, k)
    {
      assert RefsOk(infos, bs, -1, k) && TriedOk(infos, h, vv, k) && IdOk(infos, addrs, random, nIdCount, k);
    }
    forall k | 0 <= k < |vv| ensures TriedBucketOk(infos', h, k, vv[k]) { assert TriedBucketOk(infos, h, k, vv[k]); }
  }

  lemma {:induction false} SwapKeepsIds(infos: Infos, addrs: map<NetAddr, int>, random: seq<int>, nIdCount: int,
                                        p: int, q: int)
    requires IdsAgree(infos, addrs, random, nIdCount) && 0 <= p < |random| && 0 <= q < |random| && p != q
    ensures var infos' :=
      infos[random[p] := infos[random[p]].(nRandomPos := q)][random[q] := infos[random[q]].(nRandomPos := p)];
      var random' := random[p := random[q]][q := random[p]];
      random[p] != random[q] && IdsAgree(infos', addrs, random', nIdCount) && SameExceptPos(infos, infos')
  {
    var infos' := infos[random[p] := infos[random[p]].(nRandomPos := q)][random[q] :=
      infos[random[q]].(nRandomPos := p)];
    var random' := random[p := random[q]][q := random[p]];
    forall id | id in infos' ensures IdOk(infos', addrs, random', nIdCount, id) {
      assert IdOk(infos, addrs, random, nIdCount, id);
    }
  }

  lemma {:induction false} IdRange(infos: Infos, addrs: map<NetAddr, int>, random: seq<int>, nIdCount: int)
    requires IdsAgree(infos, addrs, random, nIdCount)
    ensures forall id :: id in infos ==> 0 <= id < nIdCount
  {
    forall id | id in infos ensures 0 <= id < nIdCount { assert IdOk(infos, addrs, random, nIdCount, id); }
  }

  lemma {:induction false} OneId(infos: Infos, addrs: map<NetAddr, int>, random: seq<int>, nIdCount: int, id: int)
    requires IdsAgree(infos, addrs, random, nIdCount) && id in infos
    ensures forall k :: k in infos && infos[k].service.ip == infos[id].service.ip ==> k == id
  {
    assert IdOk(infos, addrs, random, nIdCount, id);
    forall k | k in infos && infos[k].service.ip == infos[id].service.ip ensures k == id {
      assert IdOk(infos, addrs, random, nIdCount, k);
    }
  }

  lemma {:induction false} ChangeEntry(infos: Infos, addrs: map<NetAddr, int>, random: seq<int>, nIdCount: int,
                                       id: int, info: AddrInfo)
    requires IdsAgree(infos, addrs, random, nIdCount)
    requires id in infos && info.service == infos[id].service && info.nRandomPos == infos[id].nRandomPos
    ensures IdsAgree(infos[id := info], addrs, random, nIdCount)
  {
    var infos' := infos[id := info];
    forall k | k in infos' ensures IdOk(infos', addrs, random, nIdCount, k) {
      assert IdOk(infos, addrs, random, nIdCount, k);
    }
  }

  lemma {:induction false} AppendEntry(infos: Infos, addrs: map<NetAddr, int>, random: seq<int>, id: int,
                                       info: AddrInfo)
    requires IdsAgree(infos, addrs, random, id) && info.service.ip !in addrs && info.nRandomPos == |random|
    ensures IdsAgree(infos[id := info], addrs[info.service.ip := id], random + [id], id + 1)
  {
    var infos', addrs', random' := infos[id := info], addrs[info.service.ip := id], random + [id];
    IdRange(infos, addrs, random, id);
    forall k | k in infos' ensures IdOk(infos', addrs', random', id + 1, k) {
      if k != id { assert IdOk(infos, addrs, random, id, k); }
    }
  }

  /** Dropping the entry in the last place of vRandom. */
  lemma {:induction false} DropLast(infos: Infos, addrs: map<NetAddr, int>, random: seq<int>, nIdCount: int, id: int)
    requires IdsAgree(infos, addrs, random, nIdCount) && id in infos && infos[id].nRandomPos == |random| - 1
    ensures |random| > 0 && IdsAgree(infos - {id}, addrs - {infos[id].service.ip}, random[..|random| - 1], nIdCount)
  {
    assert IdOk(infos, addrs, random, nIdCount, id);
    var infos', addrs', random' := infos - {id}, addrs - {infos[id].service.ip}, random[..|random| - 1];
    forall k | k in infos' ensures IdOk(infos', addrs', random', nIdCount, k) {
      assert IdOk(infos, addrs, random, nIdCount, k);
    }
  }

  // ------------------------------------------------------------------------------------------
  // Changes to the "new" table
  // ------------------------------------------------------------------------------------------

  /** One reference more, for a bucket the entry is still to be put in. */
  lemma {:induction false} Announce(infos: Infos, bs: Buckets, h: Hasher, vv: seq<seq<int>>, id: int, info': AddrInfo)
    requires NewAgree(infos, bs, -1) && TriedAgree(infos, h, vv) && TimesOk(infos) && id != -1 && -1 !in infos
    requires id in infos ==> !infos[id].fInTried && info'.nRefCount == infos[id].nRefCount + 1
    requires id !in infos ==> info'.nRefCount == 1
    requires !info'.fInTried && info'.nRefCount <= NEW_BUCKETS_PER_ADDRESS && info'.nLastTry >= 0
    requires info'.nLastSuccess >= 0
    ensures NewAgree(infos[id := info'], bs, id) && TriedAgree(infos[id := info'], h, vv) && TimesOk(infos[id := info'])
    ensures NewIds(infos[id := info']) == NewIds(infos) + {id} && TriedIds(infos[id := info']) == TriedIds(infos)
  {
    var infos' := infos[id := info'];
    CountSome(bs, id, |bs|);
    forall k | k in infos' ensures RefsOk(infos', bs, id, k) && TriedOk(infos', h, vv, k) {
      if k in infos { assert RefsOk(infos, bs, -1, k) && TriedOk(infos, h, vv, k); }
    }
    forall b | 0 <= b < |vv| ensures TriedBucketOk(infos', h, b, vv[b]) {
      assert TriedBucketOk(infos, h, b, vv[b]);
    }
  }

  /** The announced entry is put in its bucket. */
  lemma {:induction false} Settle(infos: Infos, bs: Buckets, id: int, b: nat)
    requires NewAgree(infos, bs, id) && id in infos && !infos[id].fInTried && -1 !in infos
    requires b < |bs| && id !in bs[b] && |bs[b]| < NEW_BUCKET_SIZE
    ensures NewAgree(infos, bs[b := bs[b] + {id}], -1)
  {
    var bs' := bs[b := bs[b] + {id}];
    forall k | k in infos ensures RefsOk(infos, bs', -1, k) {
      assert RefsOk(infos, bs, id, k);
      CountPut(bs, b, bs[b] + {id}, k, |bs|);
    }
  }

  /** The entries after one reference to id is dropped. */
  function Released(infos: Infos, id: int): Infos
    requires id in infos
  {
    if infos[id].nRefCount == 1 then infos - {id} else infos[id := infos[id].(nRefCount := infos[id].nRefCount - 1)]
  }

  lemma {:induction false} ReleaseOne(infos: Infos, h: Hasher, bs: Buckets, vv: seq<seq<int>>, pending: int, id: int,
                                      b: nat)
    requires NewAgree(infos, bs, pending) && TriedAgree(infos, h, vv) && TimesOk(infos)
    requires b < |bs| && id in bs[b] && id != pending
    ensures NewAgree(Released(infos, id), bs[b := bs[b] - {id}], pending)
    ensures TriedAgree(Released(infos, id), h, vv) && TimesOk(Released(infos, id))
    ensures NewIds(Released(infos, id)) == (if infos[id].nRefCount == 1 then NewIds(infos) - {id} else NewIds(infos))
    ensures TriedIds(Released(infos, id)) == TriedIds(infos)
  {
    var infos', bs' := Released(infos, id), bs[b := bs[b] - {id}];
    assert RefsOk(infos, bs, pending, id);
    CountPut(bs, b, bs[b] - {id}, id, |bs|);
    CountSome(bs', id, |bs|);
    forall k | k in infos' ensures RefsOk(infos', bs', pending, k) && TriedOk(infos', h, vv, k) {
      assert RefsOk(infos, bs, pending, k) && TriedOk(infos, h, vv, k);
      CountPut(bs, b, bs[b] - {id}, k, |bs|);
    }
    forall k | 0 <= k < |vv| ensures TriedBucketOk(infos', h, k, vv[k]) { assert TriedBucketOk(infos, h, k, vv[k]); }
  }

  // ------------------------------------------------------------------------------------------
  // Moves between the "new" and the tried table
  // ------------------------------------------------------------------------------------------

  function Promoted(info: AddrInfo): AddrInfo { info.(nRefCount := 0, fInTried := true) }

  function Demoted(info: AddrInfo): AddrInfo { info.(nRefCount := 1, fInTried := false) }

  ghost predicate Erased(bs: Buckets, bs': Buckets, id: int) {
    |bs'| == |bs| && forall b :: 0 <= b < |bs| ==> bs'[b] == bs[b] - {id}
  }

  lemma {:induction false} CountErased(bs: Buckets, bs': Buckets, id: int, k: int, n: nat)
    requires Erased(bs, bs', id) && n <= |bs|
    ensures Count(bs', k, n) == if k == id then 0 else Count(bs, k, n)
  {
    if n > 0 { CountErased(bs, bs', id, k, n - 1); }
  }

  lemma {:induction false} LeaveNew(infos: Infos, bs: Buckets, bs': Buckets, id: int)
    requires NewAgree(infos, bs, -1) && TimesOk(infos) && -1 !in infos
    requires id in infos && !infos[id].fInTried && Erased(bs, bs', id)
    ensures var infos' := infos[id := Promoted(infos[id])];
      && NewAgree(infos', bs', -1) && TimesOk(infos')
      && NewIds(infos') == NewIds(infos) - {id} && TriedIds(infos') == TriedIds(infos) + {id}
  {
    var infos' := infos[id := Promoted(infos[id])];
    forall k | k in infos' ensures RefsOk(infos', bs', -1, k) {
      assert RefsOk(infos, bs, -1, k);
      CountErased(bs, bs', id, k, |bs|);
    }
    forall b, k | 0 <= b < |bs'| && k in bs'[b] ensures k in infos' && !infos'[k].fInTried { assert k in bs[b]; }
    forall b | 0 <= b < |bs'| ensures |bs'[b]| <= NEW_BUCKET_SIZE { assert |bs[b]| <= NEW_BUCKET_SIZE; }
  }

  lemma {:induction false} ReturnToNew(infos: Infos, bs: Buckets, id: int, b: nat)
    requires NewAgree(infos, bs, -1) && TimesOk(infos) && -1 !in infos
    requires id in infos && infos[id].fInTried && b < |bs| && |bs[b]| < NEW_BUCKET_SIZE
    ensures var infos' := infos[id := Demoted(infos[id])];
      && NewAgree(infos', bs[b := bs[b] + {id}], -1) && TimesOk(infos')
      && NewIds(infos') == NewIds(infos) + {id} && TriedIds(infos') == TriedIds(infos) - {id}
  {
    var infos', bs' := infos[id := Demoted(infos[id])], bs[b := bs[b] + {id}];
    CountSome(bs, id, |bs|);
    forall k | k in infos' ensures RefsOk(infos', bs', -1, k) {
      assert RefsOk(infos, bs, -1, k);
      CountPut(bs, b, bs[b] + {id}, k, |bs|);
    }
  }

  /** The same entries in another order. */
  ghost predicate Reordered(s: seq<int>, s': seq<int>) {
    |s'| == |s| && Distinct(s') && forall x :: x in s <==> x in s'
  }

  lemma {:induction false} OrderIrrelevant(infos: Infos, h: Hasher, vv: seq<seq<int>>, k: nat, s': seq<int>)
    requires TriedAgree(infos, h, vv) && k < |vv| && Reordered(vv[k], s')
    ensures TriedAgree(infos, h, vv[k := s'])
  {
    var vv' := vv[k := s'];
    forall b | 0 <= b < |vv'| ensures TriedBucketOk(infos, h, b, vv'[b]) { assert TriedBucketOk(infos, h, b, vv[b]); }
    forall id | id in infos ensures TriedOk(infos, h, vv', id) { assert TriedOk(infos, h, vv, id); }
  }

  lemma {:induction false} JoinTried(infos: Infos, h: Hasher, vv: seq<seq<int>>, id: int)
    requires TriedAgree(infos, h, vv) && id in infos && !infos[id].fInTried && infos[id].nLastSuccess != 0
    requires |vv[h.TriedBucket(infos[id].service)]| < TRIED_BUCKET_SIZE
    ensures var k := h.TriedBucket(infos[id].service);
      TriedAgree(infos[id := Promoted(infos[id])], h, vv[k := vv[k] + [id]])
  {
    var k := h.TriedBucket(infos[id].service);
    var infos', vv' := infos[id := Promoted(infos[id])], vv[k := vv[k] + [id]];
    forall b | 0 <= b < |vv'| ensures TriedBucketOk(infos', h, b, vv'[b]) { assert TriedBucketOk(infos, h, b, vv[b]); }
    forall j | j in infos' ensures TriedOk(infos', h, vv', j) { assert TriedOk(infos, h, vv, j); }
  }

  lemma {:induction false} ReplaceTried(infos: Infos, h: Hasher, vv: seq<seq<int>>, id: int, p: nat)
    requires TriedAgree(infos, h, vv) && id in infos && !infos[id].fInTried && infos[id].nLastSuccess != 0
    requires p < |vv[h.TriedBucket(infos[id].service)]|
    ensures var k := h.TriedBucket(infos[id].service);
      var out := vv[k][p];
      && out in infos && out != id && infos[out].fInTried
      && TriedAgree(infos[id := Promoted(infos[id])][out := Demoted(infos[out])], h, vv[k := vv[k][p := id]])
  {
    var k := h.TriedBucket(infos[id].service);
    var s, out := vv[k], vv[k][p];
    assert TriedBucketOk(infos, h, k, s);
    var infos', vv' := infos[id := Promoted(infos[id])][out := Demoted(infos[out])], vv[k := s[p := id]];
    forall b | 0 <= b < |vv'| ensures TriedBucketOk(infos', h, b, vv'[b]) {
      assert TriedBucketOk(infos, h, b, vv[b]);
    }
    forall j | j in infos' ensures TriedOk(infos', h, vv', j) {
      assert TriedOk(infos, h, vv, j);
      if j in s && j != out {
        var q :| 0 <= q < |s| && s[q] == j;
        assert s[p := id][q] == j;
      }
      assert s[p := id][p] == id;
    }
  }

  /** Promotion into a tried bucket with room. */
  lemma {:induction false} Promotion(infos: Infos, addrs: map<NetAddr, int>, random: seq<int>, nIdCount: int,
                                     h: Hasher, bs: Buckets, bs': Buckets, vv: seq<seq<int>>, id: int)
    requires IdsAgree(infos, addrs, random, nIdCount) && NewAgree(infos, bs, -1) && TriedAgree(infos, h, vv)
    requires TimesOk(infos)
    requires id in infos && !infos[id].fInTried && infos[id].nLastSuccess != 0 && Erased(bs, bs', id)
    requires |vv[h.TriedBucket(infos[id].service)]| < TRIED_BUCKET_SIZE
    ensures var infos' := infos[id := Promoted(infos[id])];
      var k := h.TriedBucket(infos[id].service);
      && IdsAgree(infos', addrs, random, nIdCount) && NewAgree(infos', bs', -1) && TimesOk(infos')
      && TriedAgree(infos', h, vv[k := vv[k] + [id]])
      && |NewIds(infos')| == |NewIds(infos)| - 1 && |TriedIds(infos')| == |TriedIds(infos)| + 1
  {
    assert id in NewIds(infos) && id !in TriedIds(infos);
    hide IdsAgree, NewAgree, TriedAgree, TimesOk, NewIds, TriedIds, Erased, IdOk;
    IdRange(infos, addrs, random, nIdCount);
    LeaveNew(infos, bs, bs', id);
    JoinTried(infos, h, vv, id);
    ChangeEntry(infos, addrs, random, nIdCount, id, Promoted(infos[id]));
  }

  /** Promotion in the place p of a full tried bucket, whose entry there goes to "new" bucket u. */
  lemma {:induction false} Exchange(infos: Infos, addrs: map<NetAddr, int>, random: seq<int>, nIdCount: int,
                                    h: Hasher, bs: Buckets, bs': Buckets, vv: seq<seq<int>>, id: int, p: nat, u: nat)
    requires IdsAgree(infos, addrs, random, nIdCount) && NewAgree(infos, bs, -1) && TriedAgree(infos, h, vv)
    requires TimesOk(infos)
    requires id in infos && !infos[id].fInTried && infos[id].nLastSuccess != 0 && Erased(bs, bs', id)
    requires u < |bs'| && |bs'[u]| < NEW_BUCKET_SIZE && p < |vv[h.TriedBucket(infos[id].service)]|
    ensures var k := h.TriedBucket(infos[id].service);
      var out := vv[k][p];
      && out in infos && out != id
      && var infos' := infos[id := Promoted(infos[id])][out := Demoted(infos[out])];
        && IdsAgree(infos', addrs, random, nIdCount) && NewAgree(infos', bs'[u := bs'[u] + {out}], -1) &&
          TimesOk(infos')
        && TriedAgree(infos', h, vv[k := vv[k][p := id]])
        && |NewIds(infos')| == |NewIds(infos)| && |TriedIds(infos')| == |TriedIds(infos)|
  {
    assert |vv| == TRIED_BUCKET_COUNT;
    var k := h.TriedBucket(infos[id].service);
    var out := vv[k][p];
    assert id in NewIds(infos) && id !in TriedIds(infos);
    hide IdsAgree, NewAgree, TriedAgree, TimesOk, NewIds, TriedIds, Erased, IdOk;
    var infos1 := infos[id := Promoted(infos[id])];
    IdRange(infos, addrs, random, nIdCount);
    LeaveNew(infos, bs, bs', id);
    ReplaceTried(infos, h, vv, id, p);
    ChangeEntry(infos, addrs, random, nIdCount, id, Promoted(infos[id]));
    ReturnToNew(infos1, bs', out, u);
    ChangeEntry(infos1, addrs, random, nIdCount, out, Demoted(infos1[out]));
  }
}
