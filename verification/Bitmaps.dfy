/** 64-bit words as sets of loop indexes: the ActiveLoops bitmap and math/bits. */
module Bitmaps {
  import opened Collections

  function MaskOf(i: nat): bv64
    requires i < 64
  {
    (1 as bv64) << i
  }

  function And(x: bv64, y: bv64): bv64 {
    x & y
  }

  predicate Meets(x: bv64, y: bv64) {
    And(x, y) != 0
  }

  /** The bits below the single bit of p. */
  function Below(p: bv64): bv64 {
    p - 1
  }

  predicate Bit(b: bv64, i: nat)
    requires i < 64
  {
    Meets(b, MaskOf(i))
  }

  function With(b: bv64, m: bv64): bv64 {
    b | m
  }

  function Without(b: bv64, m: bv64): bv64 {
    b & !m
  }

  function SetBit(b: bv64, i: nat): bv64
    requires i < 64
  {
    With(b, MaskOf(i))
  }

  function ClearBit(b: bv64, i: nat): bv64
    requires i < 64
  {
    Without(b, MaskOf(i))
  }

  // ----- single-bit masks -----------------------------------------------------------------------

  lemma MaskIsSingle(i: nat)
    requires i < 64
    ensures Meets(MaskOf(i), MaskOf(i)) && !Meets(MaskOf(i), Below(MaskOf(i)))
  {
  }

  lemma MaskStep(i: nat)
    requires i + 1 < 64
    ensures MaskOf(i + 1) == MaskOf(i) << 1
  {
  }

  lemma BelowTwice(p: bv64)
    requires Meets(p << 1, p << 1) && !Meets(p, Below(p))
    ensures Below(p << 1) == With(Below(p), p)
  {
  }

  lemma BelowNext(i: nat)
    requires i + 1 < 64
    ensures Below(MaskOf(i + 1)) == With(Below(MaskOf(i)), MaskOf(i))
  {
    hide MaskOf, Meets, Below, With;
    MaskStep(i);
    MaskIsSingle(i);
    MaskIsSingle(i + 1);
    BelowTwice(MaskOf(i));
  }

  lemma UnionKeeps(x: bv64, b: bv64, m: bv64)
    requires And(x, b) == x
    ensures And(x, With(b, m)) == x
  {
  }

  lemma UnionHolds(b: bv64, m: bv64)
    ensures And(m, With(b, m)) == m
  {
  }

  lemma UnionMisses(x: bv64, b: bv64, m: bv64)
    requires And(x, b) == 0 && And(x, m) == 0
    ensures And(x, With(b, m)) == 0
  {
  }

  lemma {:induction false} MaskBelow(j: nat, i: nat)
    requires j < i < 64
    ensures And(MaskOf(j), Below(MaskOf(i))) == MaskOf(j)
  {
    hide MaskOf, And, Below, With;
    BelowNext(i - 1);
    if j < i - 1 {
      MaskBelow(j, i - 1);
      UnionKeeps(MaskOf(j), Below(MaskOf(i - 1)), MaskOf(i - 1));
    } else {
      UnionHolds(Below(MaskOf(j)), MaskOf(j));
    }
  }

  lemma MissesPart(x: bv64, y: bv64, b: bv64)
    requires And(x, y) == x && And(b, y) == 0
    ensures And(b, x) == 0
  {
  }

  lemma AndCommutes(x: bv64, y: bv64)
    ensures And(x, y) == And(y, x)
  {
  }

  lemma DistinctMasks(i: nat, j: nat)
    requires i < 64 && j < 64 && i != j
    ensures !Meets(MaskOf(i), MaskOf(j))
  {
    hide MaskOf, And, Below;
    if i < j {
      MaskBelow(i, j);
      MaskIsSingle(j);
      MissesPart(MaskOf(i), Below(MaskOf(j)), MaskOf(j));
      AndCommutes(MaskOf(i), MaskOf(j));
    } else {
      MaskBelow(j, i);
      MaskIsSingle(i);
      MissesPart(MaskOf(j), Below(MaskOf(i)), MaskOf(i));
    }
  }

  // ----- Or and And on the bitmap ---------------------------------------------------------------

  lemma AndSelf(m: bv64)
    ensures And(m, m) == m
  {
  }

  lemma OrKeeps(b: bv64, m: bv64, n: bv64)
    requires And(m, n) == 0
    ensures And(With(b, m), n) == And(b, n)
  {
  }

  lemma AndNotClears(b: bv64, m: bv64)
    ensures And(Without(b, m), m) == 0
  {
  }

  lemma AndNotKeeps(b: bv64, m: bv64, n: bv64)
    requires And(m, n) == 0
    ensures And(Without(b, m), n) == And(b, n)
  {
  }

  lemma SetBitBits(b: bv64, i: nat, j: nat)
    requires i < 64 && j < 64
    ensures Bit(SetBit(b, i), j) <==> i == j || Bit(b, j)
  {
    hide MaskOf, And, With;
    if i == j {
      MaskIsSingle(i);
      UnionHolds(b, MaskOf(i));
      AndCommutes(With(b, MaskOf(i)), MaskOf(i));
      AndSelf(MaskOf(i));
    } else {
      DistinctMasks(i, j);
      OrKeeps(b, MaskOf(i), MaskOf(j));
    }
  }

  lemma ClearBitBits(b: bv64, i: nat, j: nat)
    requires i < 64 && j < 64
    ensures Bit(ClearBit(b, i), j) <==> i != j && Bit(b, j)
  {
    hide MaskOf, And, Without;
    if i == j {
      AndNotClears(b, MaskOf(i));
    } else {
      DistinctMasks(i, j);
      AndNotKeeps(b, MaskOf(i), MaskOf(j));
    }
  }

  lemma NoBits(i: nat)
    requires i < 64
    ensures !Bit(0, i)
  {
  }

  // ----- the lowest set bit ---------------------------------------------------------------------

  /** No bit below i is set. */
  predicate ClearBelow(b: bv64, i: nat)
    requires i < 64
  {
    !Meets(b, Below(MaskOf(i)))
  }

  lemma ClearBelowZero(b: bv64)
    ensures ClearBelow(b, 0)
  {
  }

  lemma ClearBelowStep(b: bv64, i: nat)
    requires i + 1 < 64 && ClearBelow(b, i) && !Bit(b, i)
    ensures ClearBelow(b, i + 1)
  {
    hide MaskOf, And, Below, With;
    BelowNext(i);
    UnionMisses(b, Below(MaskOf(i)), MaskOf(i));
  }

  lemma ClearBelowBits(b: bv64, i: nat, j: nat)
    requires j < i < 64 && ClearBelow(b, i)
    ensures !Bit(b, j)
  {
    hide MaskOf, And, Below;
    MaskBelow(j, i);
    MissesPart(MaskOf(j), Below(MaskOf(i)), b);
  }

  lemma TopBit(b: bv64)
    requires ClearBelow(b, 63) && b != 0
    ensures Bit(b, 63)
  {
  }

  /** bits.TrailingZeros64 of a non-zero word, counted from bit i. */
  function TrailingZerosFrom(b: bv64, i: nat): (r: nat)
    requires i < 64 && b != 0 && ClearBelow(b, i)
    ensures i <= r < 64 && Bit(b, r) && ClearBelow(b, r)
    decreases 64 - i
  {
    if Bit(b, i) then i
    else if i < 63 then
      ClearBelowStep(b, i);
      TrailingZerosFrom(b, i + 1)
    else
      TopBit(b);
      i
  }

  function TrailingZeros(b: bv64): (r: nat)
    requires b != 0
    ensures r < 64 && Bit(b, r) && ClearBelow(b, r)
  {
    ClearBelowZero(b);
    TrailingZerosFrom(b, 0)
  }

  /** bitmap &= bitmap - 1. */
  function DropLowest(b: bv64): bv64 {
    b & (b - 1)
  }

  lemma DropLowestClears(b: bv64, p: bv64)
    requires !Meets(p, Below(p)) && !Meets(b, Below(p)) && Meets(b, p)
    ensures DropLowest(b) == Without(b, p)
  {
    BorrowStopsAt(b, p);
  }

  lemma BorrowStopsAt(b: bv64, p: bv64)
    requires p & (p - 1) == 0 && b & (p - 1) == 0 && b & p != 0
    ensures b & (b - 1) == b & !p
  {
  }

  ghost function BitSet(b: bv64): set<nat> {
    set i: nat | i < 64 && Bit(b, i)
  }

  /** The loop's step removes exactly the smallest element. */
  lemma DropLowestBit(b: bv64)
    requires b != 0
    ensures BitSet(DropLowest(b)) == BitSet(b) - {TrailingZeros(b)}
    ensures TrailingZeros(b) in BitSet(b)
    ensures forall j | j in BitSet(b) :: TrailingZeros(b) <= j
  {
    hide MaskOf, Meets, Below, Without, DropLowest, TrailingZeros;
    var i := TrailingZeros(b);
    MaskIsSingle(i);
    DropLowestClears(b, MaskOf(i));
    forall j: nat | j < 64
      ensures Bit(DropLowest(b), j) <==> i != j && Bit(b, j)
      ensures Bit(b, j) ==> i <= j
    {
      ClearBitBits(b, i, j);
      if j < i {
        ClearBelowBits(b, i, j);
      }
    }
  }

  /** The loop of ActiveLoopIndexes: the set bits, strictly ascending. The number of set bits left
      (the popcount) is the termination measure. */
  method SetBits(bitmap: bv64) returns (indexes: seq<nat>)
    ensures Ascending(indexes)
    ensures forall i: nat :: i in indexes <==> i in BitSet(bitmap)
  {
    hide MaskOf, Bit, BitSet, TrailingZeros, DropLowest;
    var b := bitmap;
    indexes := [];
    EmptyWord();
    while b != 0
      invariant Ascending(indexes)
      invariant forall i, j | i in indexes && j in BitSet(b) :: i < j
      invariant forall i: nat :: i in BitSet(bitmap) <==> i in indexes || i in BitSet(b)
      decreases |BitSet(b)|
    {
      DropLowestBit(b);
      ghost var before, rest := indexes, BitSet(DropLowest(b));
      indexes := indexes + [TrailingZeros(b)];
      b := DropLowest(b);
      assert forall k | 0 <= k < |before| :: before[k] in before;
      forall i, j | i in indexes && j in rest
        ensures i < j
      {
        assert i in before || i == indexes[|before|];
      }
    }
  }

  lemma EmptyWord()
    ensures BitSet(0) == {}
  {
    hide MaskOf, Meets;
    forall i: nat | i < 64
      ensures !Bit(0, i)
    {
      NoBits(i);
    }
  }
}
