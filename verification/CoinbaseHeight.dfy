/** Why coinbases differ from block to block: AcceptBlock makes every coinbase script begin with the
    height of its block (src/main.cpp), and the scripts that push two different numbers never begin
    alike (push_int64, src/script.h). */
module CoinbaseHeight {
  import opened Transactions
  import opened Ledger
  import opened Blocks
  import opened BlockConnection
  import opened BlockTree

  const OP_1: nat := 0x51
  const OP_PUSHDATA1: nat := 76

  /** The bytes of n, least significant first, without leading zeros. */
  function Bytes(n: nat): seq<nat> { if n == 0 then [] else [n % 256] + Bytes(n / 256) }

  /** CBigNum::getvch of a number that is not negative: a zero byte keeps the sign bit clear. */
  function Vch(n: nat): seq<nat> {
    var b := Bytes(n);
    if |b| > 0 && b[|b| - 1] >= 0x80 then b + [0] else b
  }

  /** CScript() << n. */
  function PushInt(n: nat): seq<nat> {
    if 1 <= n <= 16 then [n + OP_1 - 1]
    else
      var v := Vch(n);
      (if |v| < OP_PUSHDATA1 then [|v|] else [OP_PUSHDATA1, |v|]) + v
  }

  function Value(b: seq<nat>): nat { if b == [] then 0 else b[0] + 256 * Value(b[1..]) }

  lemma {:induction false} ValueOfBytes(n: nat)
    ensures Value(Bytes(n)) == n
  {
    if n > 0 {
      ValueOfBytes(n / 256);
      assert Bytes(n)[1..] == Bytes(n / 256);
    }
  }

  lemma {:induction false} ValueTrailingZero(b: seq<nat>)
    ensures Value(b + [0]) == Value(b)
  {
    if b == [] {
      assert (b + [0])[1..] == [];
    } else {
      ValueTrailingZero(b[1..]);
      assert (b + [0])[1..] == b[1..] + [0];
    }
  }

  lemma {:induction false} ValueOfVch(n: nat)
    ensures Value(Vch(n)) == n
  {
    ValueOfBytes(n);
    ValueTrailingZero(Bytes(n));
  }

  lemma {:induction false} VchIs(n: nat)
    ensures forall i :: 0 <= i < |Vch(n)| ==> Vch(n)[i] < 256
    ensures n > 0 ==> |Vch(n)| > 0 && Vch(n)[|Vch(n)| - 1] < 0x80
    ensures n > 0 && Vch(n)[|Vch(n)| - 1] == 0 ==> |Vch(n)| > 1 && Vch(n)[|Vch(n)| - 2] >= 0x80
    ensures n == 0 ==> Vch(n) == []
  {
    BytesAre(n);
  }

  lemma {:induction false} BytesAre(n: nat)
    ensures forall i :: 0 <= i < |Bytes(n)| ==> Bytes(n)[i] < 256
    ensures n > 0 ==> |Bytes(n)| > 0 && Bytes(n)[|Bytes(n)| - 1] > 0
  {
    if n > 0 { BytesAre(n / 256); }
  }

  /** What a script holds after the push of a number: one opcode for 1 to 16, else the length and the
      bytes of the number, lowest first, whose last one has its top bit clear; none could be left out. */
  lemma {:induction false} PushIntIs(n: nat, v: seq<nat>)
    requires PushInt(n) == (if |v| < 76 then [|v|] else [76, |v|]) + v && !(1 <= n <= 16)
    ensures Value(v) == n && (forall i :: 0 <= i < |v| ==> v[i] < 256) && (n == 0 ==> v == [])
    ensures n > 0 ==> |v| > 0 && v[|v| - 1] < 0x80 && (v[|v| - 1] == 0 ==> |v| > 1 && v[|v| - 2] >= 0x80)
  {
    hide Vch;
    ValueOfVch(n);
    VchIs(n);
    assert PushInt(n)[0] == if |v| < 76 then |v| else 76;
    assert v == PushInt(n)[if |v| < 76 then 1 else 2..];
    assert Vch(n) == PushInt(n)[if |Vch(n)| < 76 then 1 else 2..];
  }

  lemma {:induction false} LongPushesAgree(m: nat, n: nat, script: seq<nat>)
    requires PushInt(m) <= script && PushInt(n) <= script && !(1 <= m <= 16) && !(1 <= n <= 16)
    ensures Vch(m) == Vch(n)
  {
    hide Vch;
    var (a, b) := (Vch(m), Vch(n));
    assert PushInt(m)[0] == script[0] == PushInt(n)[0];
    var k := if |a| < OP_PUSHDATA1 then 1 else 2;
    assert k == 2 ==> PushInt(m)[1] == script[1] == PushInt(n)[1];
    forall i | 0 <= i < |a| ensures a[i] == b[i] {
      assert PushInt(m)[k + i] == script[k + i] == PushInt(n)[k + i];
    }
  }

  /** No script begins with the pushes of two different numbers. */
  lemma {:induction false} PushIsPrefixFree(m: nat, n: nat, script: seq<nat>)
    requires PushInt(m) <= script && PushInt(n) <= script
    ensures m == n
  {
    hide Vch;
    ValueOfVch(m);
    ValueOfVch(n);
    assert PushInt(m)[0] == script[0] == PushInt(n)[0];
    if !(1 <= m <= 16) && !(1 <= n <= 16) { LongPushesAgree(m, n, script); }
  }

  /** The shape and the height rule that CheckBlock and AcceptBlock enforce on a block of the tree. */
  predicate BlockShaped(t: Tree, h: Hash)
    requires h in t
  {
    var vtx := t[h].block.vtx;
    && |vtx| > 0
    && vtx[0].IsCoinBase()
    && PushInt(t[h].nHeight) <= vtx[0].vin[0].scriptSig
    && (forall i :: 1 <= i < |vtx| ==> !vtx[i].IsCoinBase() && |vtx[i].vin| > 0)
  }

  ghost predicate Shaped(t: Tree) { forall h :: HasParent(t, h) ==> BlockShaped(t, h) }

  predicate SameContent(a: Transaction, b: Transaction) { a.vin == b.vin && a.vout == b.vout }

  /** Transaction hashing has no collisions among the blocks of the tree. */
  ghost predicate HashingFaithful(t: Tree) {
    forall a, b, i, j ::
      HasParent(t, a) && HasParent(t, b) && 0 <= i < |t[a].block.vtx| && 0 <= j < |t[b].block.vtx| ==>
        t[a].block.vtx[i].hash == t[b].block.vtx[j].hash ==> SameContent(t[a].block.vtx[i], t[b].block.vtx[j])
  }

  /** Where event i of a branch comes from. */
  function Origin(t: Tree, h: Hash, i: nat): (Hash, nat)
    requires i < |Events(t, h)|
    decreases Height(t, h)
  {
    var n := |Events(t, Parent(t, h))|;
    if i < n then Origin(t, Parent(t, h), i) else (h, i - n)
  }

  lemma {:induction false} OriginAt(t: Tree, h: Hash, i: nat)
    requires i < |Events(t, h)|
    ensures var (a, k) := Origin(t, h, i);
      HasParent(t, a) && Anc(t, a, h) && k < |t[a].block.vtx| && Events(t, h)[i].tx == t[a].block.vtx[k]
    decreases Height(t, h)
  {
    hide TxOffset;
    if i < |Events(t, Parent(t, h))| { OriginAt(t, Parent(t, h), i); }
  }

  /** Two coinbases of one branch come from blocks of different height. */
  lemma {:induction false} OriginsDiffer(t: Tree, h: Hash, i: nat, j: nat)
    requires i < j < |Events(t, h)| && h in t && Shaped(t)
    requires Events(t, h)[i].tx.IsCoinBase() && Events(t, h)[j].tx.IsCoinBase()
    ensures Height(t, Origin(t, h, i).0) < Height(t, Origin(t, h, j).0)
    decreases Height(t, h)
  {
    hide Placement;
    OriginAt(t, h, i);
    OriginAt(t, h, j);
    var p := Parent(t, h);
    var n := |Events(t, p)|;
    if j < n {
      assert Events(t, h)[i] == Events(t, p)[i] && Events(t, h)[j] == Events(t, p)[j];
      OriginsDiffer(t, p, i, j);
    } else {
      assert BlockShaped(t, h);
      assert i < n;
      OriginAt(t, p, i);
      AncInTree(t, Origin(t, p, i).0, p);
    }
  }

  lemma {:induction false} EventsHaveInputs(t: Tree, h: Hash, i: nat)
    requires i < |Events(t, h)| && Shaped(t)
    ensures |Events(t, h)[i].tx.vin| > 0
  {
    OriginAt(t, h, i);
    var a := Origin(t, h, i).0;
    assert BlockShaped(t, a);
  }

  lemma {:induction false} CoinbasesDiffer(t: Tree, h: Hash, i: nat, j: nat)
    requires h in t && Shaped(t) && HashingFaithful(t) && i < j < |Events(t, h)|
    requires Events(t, h)[i].tx.hash == Events(t, h)[j].tx.hash
    ensures SameContent(Events(t, h)[i].tx, Events(t, h)[j].tx) && !Events(t, h)[i].tx.IsCoinBase()
  {
    hide Events, Origin;
    OriginAt(t, h, i);
    OriginAt(t, h, j);
    var (x, y) := (Events(t, h)[i].tx, Events(t, h)[j].tx);
    var (a, b) := (Origin(t, h, i), Origin(t, h, j));
    assert SameContent(t[a.0].block.vtx[a.1], t[b.0].block.vtx[b.1]);
    if x.IsCoinBase() {
      OriginsDiffer(t, h, i, j);
      assert BlockShaped(t, a.0) && BlockShaped(t, b.0);
      PushIsPrefixFree(t[a.0].nHeight, t[b.0].nHeight, x.vin[0].scriptSig);
      assert false;
    }
  }

  /** Under the height rule and faithful hashing, coinbases are pairwise different along every branch,
      which is what keeps transaction ids from repeating (Ledger.NoIdRepeats). */
  lemma {:induction false} HeightRuleSeparates(t: Tree)
    requires Shaped(t) && HashingFaithful(t)
    ensures NoCollisions(t)
  {
    hide Events, Shaped, HashingFaithful;
    forall h | h in t
      ensures CollisionFree(Events(t, h)) && forall i :: 0 <= i < |Events(t, h)| ==> |Events(t, h)[i].tx.vin| > 0
    {
      forall i, j | 0 <= i < j < |Events(t, h)| && Events(t, h)[i].tx.hash == Events(t, h)[j].tx.hash
        ensures SameContent(Events(t, h)[i].tx, Events(t, h)[j].tx) && !Events(t, h)[i].tx.IsCoinBase()
      {
        CoinbasesDiffer(t, h, i, j);
      }
      forall i | 0 <= i < |Events(t, h)| ensures |Events(t, h)[i].tx.vin| > 0 { EventsHaveInputs(t, h, i); }
    }
  }
}
