/** How much of the address tables one address range can take (the design goals in src/addrman.h): its
    tried addresses lie in 4 buckets, and what it announces goes to 32. */
module AddrGroups {
  import opened Basics
  import opened AddrTables

  ghost function Image(f: nat -> nat, n: nat): set<nat> { set k | 0 <= k < n :: f(k) }

  lemma {:induction false} ImageSize(f: nat -> nat, n: nat)
    ensures |Image(f, n)| <= n
  {
    if n > 0 {
      ImageSize(f, n - 1);
      assert Image(f, n) == Image(f, n - 1) + {f(n - 1)};
    }
  }

  lemma {:induction false} ImageHas(f: nat -> nat, n: nat, k: nat)
    requires k < n
    ensures f(k) in Image(f, n)
  {
  }

  /** The tried buckets an address range may use, and the "new" buckets of what it announces. */
  ghost function TriedBuckets(h: Hasher, g: Group): set<nat> { Image(TriedChoice(h, g), 4) }

  ghost function SourceBuckets(h: Hasher, g: Group): set<nat> { Image(NewChoice(h, g), 32) }

  ghost function TriedChoice(h: Hasher, g: Group): nat -> nat { (k: nat) => h.triedHash(g, k) % 64 }

  ghost function NewChoice(h: Hasher, g: Group): nat -> nat { (k: nat) => h.newHash(g, k) % 256 }

  /** The key picks 4 tried buckets for a range, the address one of them; the key picks 32 "new" buckets
      for the range of a source, the range of the address one of them. */
  lemma {:induction false} BucketsOfGroup(h: Hasher, g: Group)
    ensures |TriedBuckets(h, g)| <= 4 && |SourceBuckets(h, g)| <= 32
    ensures forall s: Service :: h.group(s.ip) == g ==> h.TriedBucket(s) in TriedBuckets(h, g)
    ensures forall s: Service, source: NetAddr :: h.group(source) == g ==> h.NewBucket(s, source) in SourceBuckets(h, g)
    ensures forall s: Service, t: Service, source: NetAddr ::
      h.group(s.ip) == h.group(t.ip) ==> h.NewBucket(s, source) == h.NewBucket(t, source)
  {
    var (tried, news) := (TriedChoice(h, g), NewChoice(h, g));
    ImageSize(tried, 4);
    ImageSize(news, 32);
    forall s: Service | h.group(s.ip) == g ensures h.TriedBucket(s) in TriedBuckets(h, g) {
      ImageHas(tried, 4, h.triedKey(s) % 4);
    }
    forall s: Service, source: NetAddr | h.group(source) == g ensures h.NewBucket(s, source) in SourceBuckets(h, g) {
      ImageHas(news, 32, h.newKey(h.group(s.ip), g) % 32);
    }
  }

  // ------------------------------------------------------------------------------------------
  // How many entries fit
  // ------------------------------------------------------------------------------------------

  ghost function Elements(v: seq<int>): set<int> { set k | 0 <= k < |v| :: v[k] }

  lemma {:induction false} ElementsSize(v: seq<int>)
    ensures |Elements(v)| <= |v| && forall x :: x in Elements(v) <==> x in v
  {
    if v != [] {
      var rest := v[..|v| - 1];
      ElementsSize(rest);
      assert Elements(v) == Elements(rest) + {v[|v| - 1]};
    }
  }

  /** A set whose elements lie in the named buckets, of at most m each. */
  lemma {:induction false} Holds(bs: Buckets, names: set<nat>, m: nat, ids: set<int>)
    requires forall b :: b in names ==> b < |bs| && |bs[b]| <= m
    requires forall id :: id in ids ==> exists b :: b in names && id in bs[b]
    ensures |ids| <= |names| * m
    decreases |names|
  {
    if names == {} {
      NoElements(ids);
    } else {
      var b := SomeElement(names);
      var (here, rest) := (ids * bs[b], ids - bs[b]);
      Holds(bs, names - {b}, m, rest);
      SubsetSize(here, bs[b]);
      assert ids == here + rest;
      assert |names| * m == (|names| - 1) * m + m;
    }
  }

  lemma {:induction false} NoElements(ids: set<int>)
    requires forall id :: id !in ids
    ensures |ids| == 0
  {
    if ids != {} { var id := SomeElement(ids); }
  }

  ghost function TriedOf(infos: Infos, h: Hasher, g: Group): set<int> {
    set id | id in infos && infos[id].fInTried && h.group(infos[id].service.ip) == g
  }

  lemma {:induction false} TriedHold(infos: Infos, h: Hasher, vv: seq<seq<int>>, names: set<nat>, ids: set<int>)
    requires TriedAgree(infos, h, vv) && forall b :: b in names ==> b < |vv|
    requires forall id :: id in ids ==> id in infos && infos[id].fInTried && h.TriedBucket(infos[id].service) in names
    ensures |ids| <= |names| * 64
  {
    var bs := seq(|vv|, b requires 0 <= b < |vv| => Elements(vv[b]));
    forall b | 0 <= b < |vv| ensures |bs[b]| <= 64 && forall x :: x in bs[b] <==> x in vv[b] {
      ElementsSize(vv[b]);
      assert TriedBucketOk(infos, h, b, vv[b]);
    }
    forall id | id in ids ensures exists b :: b in names && id in bs[b] {
      assert TriedOk(infos, h, vv, id);
      assert id in bs[h.TriedBucket(infos[id].service)];
    }
    Holds(bs, names, 64, ids);
  }

  ghost function Numbers(n: nat): (s: set<nat>)
    ensures |s| == n && forall b: nat :: b in s <==> b < n
  {
    if n == 0 then {} else Numbers(n - 1) + {n - 1}
  }

  /** Of one address range at most 256 entries are tried. */
  lemma {:induction false} RangeIsLimited(infos: Infos, h: Hasher, vv: seq<seq<int>>, g: Group)
    requires TriedAgree(infos, h, vv)
    ensures |TriedOf(infos, h, g)| <= 256
  {
    BucketsOfGroup(h, g);
    TriedHold(infos, h, vv, TriedBuckets(h, g), TriedOf(infos, h, g));
  }

  lemma {:induction false} NewHold(infos: Infos, bs: Buckets)
    requires NewAgree(infos, bs, -1) && -1 !in infos
    ensures |NewIds(infos)| <= 16_384
  {
    var names := Numbers(256);
    forall id | id in NewIds(infos) ensures exists b :: b in names && id in bs[b] {
      assert RefsOk(infos, bs, -1, id);
      CountSome(bs, id, |bs|);
      var b: nat :| b < |bs| && id in bs[b];
      assert b in names;
    }
    hide NewAgree, NewIds, Numbers;
    Holds(bs, names, 64, NewIds(infos));
  }

  /** The tables do not grow without bound: at most 4096 tried entries and 16384 others. */
  lemma {:induction false} TablesAreLimited(infos: Infos, h: Hasher, bs: Buckets, vv: seq<seq<int>>)
    requires NewAgree(infos, bs, -1) && TriedAgree(infos, h, vv) && -1 !in infos
    ensures |TriedIds(infos)| <= 4_096 && |NewIds(infos)| <= 16_384
  {
    NewHold(infos, bs);
    var names := Numbers(64);
    assert |vv| == 64 && forall b :: b in names ==> b < |vv|;
    hide NewAgree, Numbers;
    TriedHold(infos, h, vv, names, TriedIds(infos));
  }
}
