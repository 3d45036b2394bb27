/** The next target (GetNextTargetRequiredV2, src/main.cpp): an exponential move towards the target
    spacing, clamped to the limit and stored in compact form. */
module Retarget {
  import opened Basics
  import opened BigNum
  import opened Compact

  type Word = n: nat | n < 0x1_0000_0000

  /** What retargeting reads of a block index; a path runs from genesis to the last block. */
  datatype Header = Header(nTime: int, nBits: Word, fProofOfStake: bool)

  const TARGET_SPACING: int := 60
  const TARGET_TIMESPAN: int := 16 * 60

  /** The last block of a kind at or below i, or genesis. */
  function LastOfKind(path: seq<Header>, i: nat, fProofOfStake: bool): (j: nat)
    requires i < |path|
    ensures j <= i && (j == 0 || path[j].fProofOfStake == fProofOfStake)
    ensures forall k :: j < k <= i ==> path[k].fProofOfStake != fProofOfStake
  {
    if i == 0 || path[i].fProofOfStake == fProofOfStake then i else LastOfKind(path, i - 1, fProofOfStake)
  }

  method GetLastBlockIndex(path: seq<Header>, i: nat, fProofOfStake: bool) returns (j: nat)
    requires i < |path|
    ensures j == LastOfKind(path, i, fProofOfStake)
  {
    j := i;
    while j > 0 && path[j].fProofOfStake != fProofOfStake
      invariant j <= i && LastOfKind(path, j, fProofOfStake) == LastOfKind(path, i, fProofOfStake)
    {
      j := j - 1;
    }
  }

  /** BN_div rounds towards zero. */
  function TruncDiv(a: int, b: nat): int
    requires b > 0
  {
    if a < 0 then -(-a / b) else a / b
  }

  lemma {:induction false} TruncDivIs(a: int, b: nat)
    requires b > 0
    ensures var r: int := a - b * TruncDiv(a, b); Abs(r) < b && (a > 0 ==> r >= 0) && (a < 0 ==> r <= 0)
  {
    var q := Abs(a) / b;
    assert Abs(a) == b * q + Abs(a) % b;
    assert b * -q == -(b * q);
  }

  function Adjusted(target: int, nActualSpacing: int): int {
    TruncDiv(target * (15 * 60 + 2 * nActualSpacing), 17 * 60)
  }

  function Clamped(target: int, limit: nat): nat { if target <= 0 || target > limit then limit else target }

  /** The two last blocks of the kind, if there are two above genesis. */
  predicate HasTwo(path: seq<Header>, fProofOfStake: bool) {
    && path != [] && LastOfKind(path, |path| - 1, fProofOfStake) > 0
    && LastOfKind(path, LastOfKind(path, |path| - 1, fProofOfStake) - 1, fProofOfStake) > 0
  }

  function Last(path: seq<Header>, fProofOfStake: bool): Header
    requires HasTwo(path, fProofOfStake)
  {
    path[LastOfKind(path, |path| - 1, fProofOfStake)]
  }

  /** The time between the last two blocks of the kind; a negative one is replaced. */
  function Spacing(path: seq<Header>, fProofOfStake: bool): (s: int)
    requires HasTwo(path, fProofOfStake)
    ensures s >= 0
  {
    var p := LastOfKind(path, |path| - 1, fProofOfStake);
    var s := path[p].nTime - path[LastOfKind(path, p - 1, fProofOfStake)].nTime;
    if s < 0 then TARGET_SPACING else s
  }

  function NextTarget(path: seq<Header>, fProofOfStake: bool, limit: nat): nat {
    if !HasTwo(path, fProofOfStake) then limit
    else Clamped(Adjusted(Decode(Last(path, fProofOfStake).nBits), Spacing(path, fProofOfStake)), limit)
  }

  method GetNextTargetRequiredV2(path: seq<Header>, fProofOfStake: bool, limit: nat) returns (nBits: nat)
    ensures nBits == Encode(NextTarget(path, fProofOfStake, limit))
  {
    hide Encode, Decode, LastOfKind;
    if path == [] {
      nBits := GetCompact(limit);
      return;
    }
    var pindexPrev := GetLastBlockIndex(path, |path| - 1, fProofOfStake);
    if pindexPrev == 0 {
      nBits := GetCompact(limit);
      return;
    }
    var pindexPrevPrev := GetLastBlockIndex(path, pindexPrev - 1, fProofOfStake);
    if pindexPrevPrev == 0 {
      nBits := GetCompact(limit);
      return;
    }
    var nActualSpacing := path[pindexPrev].nTime - path[pindexPrevPrev].nTime;
    if nActualSpacing < 0 { nActualSpacing := TARGET_SPACING; }
    var bnNew := SetCompact(path[pindexPrev].nBits);
    var nInterval := TARGET_TIMESPAN / TARGET_SPACING;
    assert nInterval == 16;
    bnNew := bnNew * ((nInterval - 1) * TARGET_SPACING + nActualSpacing + nActualSpacing);
    bnNew := TruncDiv(bnNew, (nInterval + 1) * TARGET_SPACING);
    if bnNew <= 0 || bnNew > limit { bnNew := limit; }
    nBits := GetCompact(bnNew);
  }

  // ------------------------------------------------------------------------------------------
  // The next target in numbers
  // ------------------------------------------------------------------------------------------

  /** p and q are the last two blocks of the kind, in this order, and neither is genesis. */
  ghost predicate LastTwo(path: seq<Header>, fProofOfStake: bool, p: nat, q: nat) {
    && 0 < p < q < |path| && path[p].fProofOfStake == path[q].fProofOfStake == fProofOfStake
    && forall k :: p < k < |path| && path[k].fProofOfStake == fProofOfStake ==> k == q
  }

  lemma {:induction false} LastTwoAre(path: seq<Header>, fProofOfStake: bool)
    ensures HasTwo(path, fProofOfStake) ==>
      var q := LastOfKind(path, |path| - 1, fProofOfStake);
      LastTwo(path, fProofOfStake, LastOfKind(path, q - 1, fProofOfStake), q)
    ensures forall p: nat, q: nat :: LastTwo(path, fProofOfStake, p, q) ==>
      && HasTwo(path, fProofOfStake) && q == LastOfKind(path, |path| - 1, fProofOfStake)
      && p == LastOfKind(path, q - 1, fProofOfStake)
  {
    hide LastOfKind;
    forall p: nat, q: nat | LastTwo(path, fProofOfStake, p, q)
      ensures HasTwo(path, fProofOfStake) && q == LastOfKind(path, |path| - 1, fProofOfStake)
      ensures p == LastOfKind(path, q - 1, fProofOfStake)
    {
      var q' := LastOfKind(path, |path| - 1, fProofOfStake);
      assert q' >= q;
      assert LastOfKind(path, q - 1, fProofOfStake) >= p;
    }
  }

  /** The spacing is the time of the last block of the kind less that of the one before it, or the
      target spacing when that is negative. */
  lemma {:induction false} SpacingIs(path: seq<Header>, fProofOfStake: bool, p: nat, q: nat)
    requires LastTwo(path, fProofOfStake, p, q)
    ensures HasTwo(path, fProofOfStake) && Last(path, fProofOfStake) == path[q]
    ensures path[q].nTime >= path[p].nTime ==> Spacing(path, fProofOfStake) == path[q].nTime - path[p].nTime
    ensures path[q].nTime < path[p].nTime ==> Spacing(path, fProofOfStake) == 60
  {
    hide LastOfKind;
    LastTwoAre(path, fProofOfStake);
  }

  /** The next target, without rounding to compact form: the limit without two blocks of the kind above
      genesis, else the last target times (900 + 2 * spacing) over 1020, cut to a whole number, unless
      that is not positive or above the limit. */
  lemma {:induction false} NextTargetIs(path: seq<Header>, fProofOfStake: bool, limit: nat)
    ensures (forall p: nat, q: nat :: !LastTwo(path, fProofOfStake, p, q)) ==>
      NextTarget(path, fProofOfStake, limit) == limit
    ensures forall p: nat, q: nat :: LastTwo(path, fProofOfStake, p, q) ==>
      var next := NextTarget(path, fProofOfStake, limit);
      var s := if path[q].nTime < path[p].nTime then 60 else path[q].nTime - path[p].nTime;
      var moved := Decode(path[q].nBits) * (900 + 2 * s);
      && (1_020 <= moved < 1_020 * (limit + 1) ==> 1_020 * next <= moved < 1_020 * (next + 1))
      && (moved < 1_020 || moved >= 1_020 * (limit + 1) ==> next == limit)
  {
    hide LastOfKind, Decode, Spacing, Last;
    if HasTwo(path, fProofOfStake) { LastTwoAre(path, fProofOfStake); }
    forall p: nat, q: nat | LastTwo(path, fProofOfStake, p, q)
      ensures var next := NextTarget(path, fProofOfStake, limit);
        var s := if path[q].nTime < path[p].nTime then 60 else path[q].nTime - path[p].nTime;
        var moved := Decode(path[q].nBits) * (900 + 2 * s);
        && (1_020 <= moved < 1_020 * (limit + 1) ==> 1_020 * next <= moved < 1_020 * (next + 1))
        && (moved < 1_020 || moved >= 1_020 * (limit + 1) ==> next == limit)
    {
      SpacingIs(path, fProofOfStake, p, q);
      TruncDivIs(Decode(path[q].nBits) * (900 + 2 * Spacing(path, fProofOfStake)), 1_020);
    }
  }

  // ------------------------------------------------------------------------------------------
  // What the bits decode to
  // ------------------------------------------------------------------------------------------

  lemma {:induction false} DecodedIs(target: nat, limit: nat)
    requires 0 < target <= limit && SizeOf(limit) < 256
    ensures Decode(Encode(target)) == Kept(target) && 0 < Kept(target) <= target
  {
    hide Encode, Decode, SizeOf, Kept;
    SizeMonotone(target, limit);
    DecodeEncode(target);
    KeptBounds(target);
    KeptSize(target);
    NoBytes(target);
    NoBytes(Kept(target));
  }

  /** Whatever the chain, the next bits decode to a positive target within the limit. */
  lemma {:induction false} NextTargetInRange(path: seq<Header>, fProofOfStake: bool, limit: nat)
    requires limit > 0 && SizeOf(limit) < 256
    ensures 0 < Decode(Encode(NextTarget(path, fProofOfStake, limit))) <= limit
  {
    DecodedIs(NextTarget(path, fProofOfStake, limit), limit);
  }

  lemma {:induction false} AdjustedBounds(target: nat, s: nat)
    requires target >= 2
    ensures Adjusted(target, s) >= target * 15 / 17 >= 1
    ensures s >= TARGET_SPACING ==> Adjusted(target, s) >= target
    ensures s <= TARGET_SPACING ==> Adjusted(target, s) <= target
  {
    assert target * (900 + 2 * s) == 900 * target + 2 * (target * s);
    assert target * s >= 0;
    if s >= 60 { assert target * (s - 60) >= 0; } else { assert target * (60 - s) >= 0; }
  }

  lemma {:induction false} AdjustedNegative(target: int, s: nat)
    requires target <= 0
    ensures Adjusted(target, s) <= 0
  {
    assert target * (900 + 2 * s) <= 0;
  }

  lemma {:induction false} AdjustedMonotone(target: nat, s: nat, s': nat)
    requires s <= s'
    ensures Adjusted(target, s) <= Adjusted(target, s')
  {
    assert target * (s' - s) >= 0;
    assert target * (900 + 2 * s') == target * (900 + 2 * s) + 2 * (target * (s' - s));
  }

  /** From a target of at least 2 within the limit, the next one never falls below what compact form
      keeps of 15/17 of it, and moves in the direction of the spacing. */
  lemma {:induction false} NextTargetFloor(path: seq<Header>, fProofOfStake: bool, limit: nat)
    requires HasTwo(path, fProofOfStake) && SizeOf(limit) < 256
    requires 2 <= Decode(Last(path, fProofOfStake).nBits) <= limit
    ensures var (target, next) :=
      (Decode(Last(path, fProofOfStake).nBits), Decode(Encode(NextTarget(path, fProofOfStake, limit))));
      && next >= Kept(target * 15 / 17)
      && (Spacing(path, fProofOfStake) >= TARGET_SPACING ==> next >= Kept(target))
      && (Spacing(path, fProofOfStake) <= TARGET_SPACING ==> next <= target)
  {
    hide Encode, Decode, SizeOf, Kept, LastOfKind;
    var (target, s) := (Decode(Last(path, fProofOfStake).nBits), Spacing(path, fProofOfStake));
    AdjustedBounds(target, s);
    var next := NextTarget(path, fProofOfStake, limit);
    DecodedIs(next, limit);
    KeptMonotone(target * 15 / 17, next);
    if s >= TARGET_SPACING { KeptMonotone(target, next); }
  }

  /** Apart from rounding to zero, the clamped and rounded target grows with the spacing. */
  lemma {:induction false} GrowsWithSpacing(target: int, s: nat, s': nat, limit: nat)
    requires 0 < limit && s <= s' && SizeOf(limit) < 256
    requires target == 1 ==> (s < TARGET_SPACING <==> s' < TARGET_SPACING)
    ensures Decode(Encode(Clamped(Adjusted(target, s), limit))) <= Decode(Encode(Clamped(Adjusted(target, s'), limit)))
  {
    hide Encode, Decode, SizeOf, Kept;
    var (a, b) := (Clamped(Adjusted(target, s), limit), Clamped(Adjusted(target, s'), limit));
    if target <= 0 {
      AdjustedNegative(target, s);
      AdjustedNegative(target, s');
    } else {
      AdjustedMonotone(target, s, s');
      if target > 1 { AdjustedBounds(target, s); }
    }
    DecodedIs(a, limit);
    DecodedIs(b, limit);
    KeptMonotone(a, b);
  }

  /** A target of 1 rounds to zero below the target spacing, and the clamp then gives the limit. */
  lemma {:induction false} FromTargetOne(s: nat, s': nat, limit: nat)
    requires 0 < limit && s < TARGET_SPACING <= s' && SizeOf(limit) < 256
    ensures Decode(Encode(Clamped(Adjusted(1, s), limit))) == Kept(limit)
    ensures Decode(Encode(Clamped(Adjusted(1, s'), limit))) < Kept(limit) <==> Kept((900 + 2 * s') / 1020) < Kept(limit)
  {
    hide Encode, Decode, SizeOf, Kept;
    var b := (900 + 2 * s') / 1020;
    assert Adjusted(1, s) == 0 && Adjusted(1, s') == b && b >= 1;
    DecodedIs(limit, limit);
    DecodedIs(Clamped(b, limit), limit);
    if b > limit { KeptMonotone(limit, b); }
  }

  /** Between two chains that end in the same bits, the one with the longer spacing gets the higher
      target, except exactly where a target of 1 rounds to zero for the shorter spacing only and the
      limit that replaces it lies, rounded, above what the longer spacing gives. */
  lemma {:induction false} NextTargetMonotone(p: seq<Header>, q: seq<Header>, fProofOfStake: bool, limit: nat)
    requires HasTwo(p, fProofOfStake) && HasTwo(q, fProofOfStake) && 0 < limit && SizeOf(limit) < 256
    requires Last(p, fProofOfStake).nBits == Last(q, fProofOfStake).nBits
    requires Spacing(p, fProofOfStake) <= Spacing(q, fProofOfStake)
    ensures Decode(Encode(NextTarget(p, fProofOfStake, limit))) <= Decode(Encode(NextTarget(q, fProofOfStake,
      limit))) <==>
            !(&& Decode(Last(p, fProofOfStake).nBits) == 1
              && Spacing(p, fProofOfStake) < TARGET_SPACING <= Spacing(q, fProofOfStake)
              && Kept((900 + 2 * Spacing(q, fProofOfStake)) / 1020) < Kept(limit))
  {
    hide Encode, Decode, SizeOf, Kept, Adjusted, LastOfKind, Spacing, Last, HasTwo;
    var (target, s, s') := (Decode(Last(p, fProofOfStake).nBits), Spacing(p, fProofOfStake), Spacing(q, fProofOfStake));
    if target == 1 && s < TARGET_SPACING <= s' {
      FromTargetOne(s, s', limit);
    } else {
      GrowsWithSpacing(target, s, s', limit);
    }
  }

  /** The exception occurs: from a target of 1 any spacing below the target spacing gives bits of the
      limit, and the target spacing gives bits of 1. */
  lemma {:induction false} TargetOneJumps(s: nat, limit: nat)
    requires s < TARGET_SPACING && limit > 1 && SizeOf(limit) < 256
    ensures Decode(Encode(Clamped(Adjusted(1, s), limit))) == Kept(limit) > 1
    ensures Decode(Encode(Clamped(Adjusted(1, TARGET_SPACING), limit))) == 1
  {
    assert Kept(1) == 1 && Kept(2) == 2;
    hide Encode, Decode, SizeOf, Kept;
    FromTargetOne(s, TARGET_SPACING, limit);
    KeptMonotone(2, limit);
    DecodedIs(1, limit);
  }
}
