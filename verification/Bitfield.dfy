/** The bitfield word of a page (src/common.rs and the word operations of src/page).

    Bit i < 63 is 1 when block i is free; bit 63 is the arena's own bit. A word is the 64-bit
    unsigned integer the source stores, with wrap-around written out; the module gives each
    machine operation its meaning on the set of free block indices, so that the protocols and
    the allocators can reason about sets while they store words. */
module Bitfield {
  const BITFIELD_WIDTH: nat := 64
  const BLOCK_PER_PAGE: nat := BITFIELD_WIDTH - 1
  const WORD_LIMIT: nat := 0x1_0000_0000_0000_0000
  const MASK_ARENA_BIT: Word := 0x8000_0000_0000_0000
  const ALL_ONES: Word := 0xFFFF_FFFF_FFFF_FFFF

  type Word = w: nat | w < WORD_LIMIT

  // ---------------------------------------------------------------- machine operations

  function Pow2(k: nat): (r: nat)
    ensures r > 0
  {
    if k == 0 then 1 else 2 * Pow2(k - 1)
  }

  function BitOr(a: nat, b: nat): nat {
    if a == 0 && b == 0 then 0
    else (if a % 2 == 1 || b % 2 == 1 then 1 else 0) + 2 * BitOr(a / 2, b / 2)
  }

  function BitAnd(a: nat, b: nat): (r: nat)
    ensures r <= a
  {
    if a == 0 || b == 0 then 0
    else (if a % 2 == 1 && b % 2 == 1 then 1 else 0) + 2 * BitAnd(a / 2, b / 2)
  }

  /** Is bit i of w set? */
  predicate Test(w: nat, i: nat) {
    if i == 0 then w % 2 == 1 else Test(w / 2, i - 1)
  }

  /** `1 << i` */
  function Bit(i: nat): Word
    requires i < BITFIELD_WIDTH
  {
    Pow2Limit(i);
    Pow2(i)
  }

  /** `!w` */
  function Not(w: Word): Word {
    ALL_ONES - w
  }

  /** `a | b`, also what `fetch_or` stores */
  function Or(a: Word, b: Word): Word {
    Pow2Limit(BITFIELD_WIDTH);
    BitOrBound(a, b, BITFIELD_WIDTH);
    BitOr(a, b)
  }

  /** `a & b`, also what `fetch_and` stores */
  function And(a: Word, b: Word): Word {
    BitAnd(a, b)
  }

  /** what `fetch_add` stores */
  function WrappingAdd(a: Word, b: Word): Word {
    (a + b) % WORD_LIMIT
  }

  /** what `fetch_sub` stores */
  function WrappingSub(a: Word, b: Word): Word {
    (a + WORD_LIMIT - b) % WORD_LIMIT
  }

  /** `w.trailing_zeros()`: the index of the lowest set bit, 64 when there is none */
  function TrailingZeros(w: Word): (r: nat)
    ensures r <= BITFIELD_WIDTH
  {
    TrailingZerosUpTo(w, BITFIELD_WIDTH)
  }

  function TrailingZerosUpTo(w: nat, k: nat): (r: nat)
    ensures r <= k
  {
    if k == 0 || w % 2 == 1 then 0 else 1 + TrailingZerosUpTo(w / 2, k - 1)
  }

  /** `w.count_ones()` */
  function CountOnes(w: Word): nat {
    CountOnesBelow(w, BITFIELD_WIDTH)
  }

  function CountOnesBelow(w: nat, k: nat): nat {
    if k == 0 then 0 else CountOnesBelow(w, k - 1) + (if Test(w, k - 1) then 1 else 0)
  }

  /** `w.count_zeros()` */
  function CountZeros(w: Word): int {
    BITFIELD_WIDTH - CountOnes(w)
  }

  lemma Pow2Limit(k: nat)
    requires k <= BITFIELD_WIDTH
    ensures Pow2(k) <= WORD_LIMIT
    ensures k < BITFIELD_WIDTH ==> Pow2(k) < WORD_LIMIT
    ensures k == BITFIELD_WIDTH ==> Pow2(k) == WORD_LIMIT
    ensures k == BLOCK_PER_PAGE ==> Pow2(k) == MASK_ARENA_BIT
  {
    Pow2Width();
    Pow2Grows(k, BITFIELD_WIDTH);
  }

  lemma Pow2Width()
    ensures Pow2(BITFIELD_WIDTH) == WORD_LIMIT && Pow2(BLOCK_PER_PAGE) == MASK_ARENA_BIT
  {
    assert Pow2(8) == 0x100;
    Pow2Add(8, 8);
    Pow2Double(16, 0x1_0000);
    Pow2Double(32, 0x1_0000_0000);
  }

  lemma Pow2Double(k: nat, v: nat)
    requires Pow2(k) == v
    ensures Pow2(k + k) == v * v
  {
    Pow2Add(k, k);
  }

  lemma {:induction false} Pow2Grows(a: nat, b: nat)
    requires a <= b
    ensures if a < b then Pow2(a) < Pow2(b) else Pow2(a) == Pow2(b)
  {
    if a < b {
      Pow2Grows(a, b - 1);
    }
  }

  lemma {:induction false} Pow2Add(a: nat, b: nat)
    ensures Pow2(a + b) == Pow2(a) * Pow2(b)
  {
    if b > 0 {
      Pow2Add(a, b - 1);
      assert Pow2(a + b) == 2 * Pow2(a + (b - 1));
      assert Pow2(a) * Pow2(b) == Pow2(a) * (2 * Pow2(b - 1)) == 2 * (Pow2(a) * Pow2(b - 1));
    }
  }

  lemma {:induction false} BitOrBound(a: nat, b: nat, k: nat)
    requires a < Pow2(k) && b < Pow2(k)
    ensures BitOr(a, b) < Pow2(k)
  {
    if k > 0 {
      BitOrBound(a / 2, b / 2, k - 1);
    }
  }

  // ---------------------------------------------------------------- what they do to one bit

  lemma {:induction false} TestZero(i: nat)
    ensures !Test(0, i)
  {
    if i > 0 {
      TestZero(i - 1);
    }
  }

  lemma {:induction false} TestBitOr(a: nat, b: nat, i: nat)
    ensures Test(BitOr(a, b), i) <==> Test(a, i) || Test(b, i)
  {
    if a == 0 && b == 0 {
      TestZero(i);
    } else if i > 0 {
      TestBitOr(a / 2, b / 2, i - 1);
    }
  }

  lemma {:induction false} TestBitAnd(a: nat, b: nat, i: nat)
    ensures Test(BitAnd(a, b), i) <==> Test(a, i) && Test(b, i)
  {
    if a == 0 || b == 0 {
      TestZero(i);
    } else if i > 0 {
      TestBitAnd(a / 2, b / 2, i - 1);
    }
  }

  lemma {:induction false} TestPow2(k: nat, i: nat)
    ensures Test(Pow2(k), i) <==> i == k
  {
    if k == 0 {
      if i > 0 {
        TestZero(i - 1);
      }
    } else if i > 0 {
      assert Pow2(k) / 2 == Pow2(k - 1);
      TestPow2(k - 1, i - 1);
    }
  }

  lemma {:induction false} TestComplement(w: nat, k: nat, i: nat)
    requires w < Pow2(k) && i < k
    ensures Test(Pow2(k) - 1 - w, i) <==> !Test(w, i)
  {
    if i > 0 {
      assert (Pow2(k) - 1 - w) / 2 == Pow2(k - 1) - 1 - w / 2;
      TestComplement(w / 2, k - 1, i - 1);
    }
  }

  /** A number below 2^k is determined by its first k bits. */
  lemma {:induction false} BitsDetermine(a: nat, b: nat, k: nat)
    requires a < Pow2(k) && b < Pow2(k)
    requires forall i: nat | i < k :: Test(a, i) == Test(b, i)
    ensures a == b
  {
    if k > 0 {
      forall i: nat | i < k - 1
        ensures Test(a / 2, i) == Test(b / 2, i)
      {
        assert Test(a, i + 1) == Test(b, i + 1);
      }
      BitsDetermine(a / 2, b / 2, k - 1);
      assert Test(a, 0) == Test(b, 0);
    }
  }

  /** Adding 2^i is the "or" exactly when bit i was clear; otherwise the addition carries. */
  lemma {:induction false} AddPow2(w: nat, i: nat)
    ensures w + Pow2(i) == BitOr(w, Pow2(i)) <==> !Test(w, i)
  {
    if i == 0 {
      BitOrZero(w / 2);
    } else {
      AddPow2(w / 2, i - 1);
      assert (w + Pow2(i)) / 2 == w / 2 + Pow2(i - 1) && (w + Pow2(i)) % 2 == w % 2;
    }
  }

  lemma {:induction false} BitOrZero(w: nat)
    ensures BitOr(w, 0) == w
  {
    if w > 0 {
      BitOrZero(w / 2);
    }
  }

  // ---------------------------------------------------------------- words as sets of free blocks

  predicate IsIndex(i: nat) {
    i < BLOCK_PER_PAGE
  }

  /** Every block index of a page. */
  function Indices(): set<nat> {
    IndicesBelow(BLOCK_PER_PAGE)
  }

  function IndicesBelow(k: nat): set<nat> {
    set i: nat | i < k && IsIndex(i)
  }

  /** The free blocks a word records. */
  function Free(w: Word): set<nat> {
    set i: nat | i < BLOCK_PER_PAGE && Test(w, i)
  }

  lemma SomeIndex()
    ensures Indices() != {}
  {
    assert 0 in Indices();
  }

  /** Does the arena still reference the page? */
  predicate ArenaBit(w: Word) {
    Test(w, BLOCK_PER_PAGE)
  }

  /** What Arena::shrink_to_fit looks for in the two words of a page. */
  predicate LooksUnused(priv: Word, atom: Word) {
    Or(priv, atom) == ALL_ONES
  }

  /** A word is determined by its free blocks and its arena bit. */
  lemma WordExt(w: Word, v: Word)
    requires Free(w) == Free(v) && ArenaBit(w) == ArenaBit(v)
    ensures w == v
  {
    forall i: nat | i < BITFIELD_WIDTH
      ensures Test(w, i) == Test(v, i)
    {
      if i < BLOCK_PER_PAGE {
        assert i in Free(w) <==> i in Free(v);
      }
    }
    Pow2Limit(BITFIELD_WIDTH);
    BitsDetermine(w, v, BITFIELD_WIDTH);
  }

  lemma OrWords(w: Word, v: Word)
    ensures Free(Or(w, v)) == Free(w) + Free(v)
    ensures ArenaBit(Or(w, v)) <==> ArenaBit(w) || ArenaBit(v)
  {
    forall i: nat | i < BITFIELD_WIDTH
      ensures Test(Or(w, v), i) <==> Test(w, i) || Test(v, i)
    {
      TestBitOr(w, v, i);
    }
  }

  /** `bitfield |= 1 << i` inserts block i. */
  lemma SetBit(w: Word, i: nat)
    requires i < BLOCK_PER_PAGE
    ensures Free(Or(w, Bit(i))) == Free(w) + {i}
    ensures ArenaBit(Or(w, Bit(i))) == ArenaBit(w)
  {
    OrWords(w, Bit(i));
    forall j: nat | j < BITFIELD_WIDTH
      ensures Test(Bit(i), j) <==> j == i
    {
      TestPow2(i, j);
    }
    assert Free(Bit(i)) == {i};
  }

  lemma TestClear(w: Word, i: nat, j: nat)
    requires i < BITFIELD_WIDTH && j < BITFIELD_WIDTH
    ensures Test(And(w, Not(Bit(i))), j) <==> i != j && Test(w, j)
  {
    Pow2Limit(BITFIELD_WIDTH);
    TestBitAnd(w, Not(Bit(i)), j);
    TestComplement(Bit(i), BITFIELD_WIDTH, j);
    TestPow2(i, j);
  }

  /** `bitfield & !(1 << i)` removes block i. */
  lemma ClearBit(w: Word, i: nat)
    requires i < BLOCK_PER_PAGE
    ensures Free(And(w, Not(Bit(i)))) == Free(w) - {i}
    ensures ArenaBit(And(w, Not(Bit(i)))) == ArenaBit(w)
  {
    forall j: nat | j < BITFIELD_WIDTH
      ensures Test(And(w, Not(Bit(i))), j) <==> i != j && Test(w, j)
    {
      TestClear(w, i, j);
    }
  }

  /** `bitfield & (1 << i) != 0` asks whether block i is free. */
  lemma BitSet(w: Word, i: nat)
    requires i < BLOCK_PER_PAGE
    ensures And(w, Bit(i)) != 0 <==> i in Free(w)
  {
    forall j: nat | j < BITFIELD_WIDTH
      ensures Test(And(w, Bit(i)), j) <==> j == i && Test(w, i)
    {
      TestBitAnd(w, Bit(i), j);
      TestPow2(i, j);
    }
    if i in Free(w) {
      TestZero(i);
    } else {
      assert Free(And(w, Bit(i))) == {};
      ConstantWords();
      WordExt(And(w, Bit(i)), 0);
    }
  }

  /** `fetch_add(1 << i)` stores the intended "or" exactly when block i was not free. */
  lemma AddBit(w: Word, i: nat)
    requires i < BLOCK_PER_PAGE
    ensures WrappingAdd(w, Bit(i)) == Or(w, Bit(i)) <==> i !in Free(w)
  {
    hide Test, BitOr, Pow2;
    AddPow2(w, i);
    if i in Free(w) {
      // The carry leaves bit i clear, while the "or" has it set.
      SetBit(w, i);
      AddClearsBit(w, i);
      assert i in Free(Or(w, Bit(i)));
    }
  }

  /** Adding the bit of a free block leaves that bit clear, wrapped or not. */
  lemma AddClearsBit(w: Word, i: nat)
    requires i in Free(w)
    ensures i < BLOCK_PER_PAGE && i !in Free(WrappingAdd(w, Bit(i)))
  {
    AddClears(w, i);
    TestModulo(w + Pow2(i), i, BITFIELD_WIDTH);
    Pow2Limit(BITFIELD_WIDTH);
  }

  lemma {:induction false} AddClears(w: nat, i: nat)
    requires Test(w, i)
    ensures !Test(w + Pow2(i), i)
  {
    if i > 0 {
      AddClears(w / 2, i - 1);
      assert (w + Pow2(i)) / 2 == w / 2 + Pow2(i - 1);
    }
  }

  lemma {:induction false} TestModulo(x: nat, i: nat, k: nat)
    requires i < k
    ensures Test(x % Pow2(k), i) == Test(x, i)
  {
    HalfModulo(x, k);
    if i > 0 {
      TestModulo(x / 2, i - 1, k - 1);
    }
  }

  lemma HalfModulo(x: nat, k: nat)
    requires k > 0
    ensures (x % Pow2(k)) / 2 == (x / 2) % Pow2(k - 1)
    ensures (x % Pow2(k)) % 2 == x % 2
  {
    var p := Pow2(k - 1);
    var q, r := (x / 2) / p, (x / 2) % p;
    assert x / 2 == p * q + r;
    assert x == (2 * p) * q + (2 * r + x % 2) by {
      assert 2 * (p * q) == (2 * p) * q;
    }
    DivModUnique(x, 2 * p, q, 2 * r + x % 2);
  }

  lemma DivModUnique(x: nat, d: nat, q: nat, r: nat)
    requires d > 0 && x == d * q + r && r < d
    ensures x % d == r
  {
    var q', r' := x / d, x % d;
    assert x == d * q' + r';
    if q < q' {
      MulStep(d, q, q');
    } else if q' < q {
      MulStep(d, q', q);
    }
  }

  lemma {:induction false} MulStep(d: nat, a: nat, b: nat)
    requires a < b
    ensures d * b >= d * a + d
    decreases b
  {
    if a + 1 < b {
      MulStep(d, a, b - 1);
    }
    assert d * b == d * (b - 1) + d;
  }

  /** `fetch_sub(MASK_ARENA_BIT)` on a page the arena owns clears the arena bit, as
      `bitfield &= !MASK_ARENA_BIT` does, and touches nothing else. */
  lemma SubArenaBit(w: Word)
    requires ArenaBit(w)
    ensures Free(WrappingSub(w, MASK_ARENA_BIT)) == Free(w)
    ensures !ArenaBit(WrappingSub(w, MASK_ARENA_BIT))
    ensures WrappingSub(w, MASK_ARENA_BIT) == And(w, Not(MASK_ARENA_BIT))
  {
    hide Test, BitOr, BitAnd, Pow2;
    Pow2Limit(BLOCK_PER_PAGE);
    var v := And(w, Not(MASK_ARENA_BIT));
    forall j: nat | j < BITFIELD_WIDTH
      ensures Test(v, j) <==> j != BLOCK_PER_PAGE && Test(w, j)
    {
      TestClear(w, BLOCK_PER_PAGE, j);
    }
    assert Free(v) == Free(w);
    AddPow2(v, BLOCK_PER_PAGE);
    OrWords(v, MASK_ARENA_BIT);
    ConstantWords();
    WordExt(w, Or(v, MASK_ARENA_BIT));
    assert w == v + MASK_ARENA_BIT;
  }

  lemma ConstantWords()
    ensures Free(ALL_ONES) == Indices() && ArenaBit(ALL_ONES)
    ensures Free(Not(MASK_ARENA_BIT)) == Indices() && !ArenaBit(Not(MASK_ARENA_BIT))
    ensures Free(0) == {} && !ArenaBit(0)
    ensures Free(MASK_ARENA_BIT) == {} && ArenaBit(MASK_ARENA_BIT)
  {
    Pow2Limit(BITFIELD_WIDTH);
    Pow2Limit(BLOCK_PER_PAGE);
    forall j: nat | j < BITFIELD_WIDTH
      ensures !Test(0, j) && Test(ALL_ONES, j)
      ensures Test(MASK_ARENA_BIT, j) <==> j == BLOCK_PER_PAGE
      ensures Test(Not(MASK_ARENA_BIT), j) <==> j != BLOCK_PER_PAGE
    {
      TestZero(j);
      TestComplement(0, BITFIELD_WIDTH, j);
      TestPow2(BLOCK_PER_PAGE, j);
      TestComplement(MASK_ARENA_BIT, BITFIELD_WIDTH, j);
    }
    assert forall j: nat :: j in Indices() <==> j < BLOCK_PER_PAGE;
    assert Free(ALL_ONES) == Indices();
    assert Free(Not(MASK_ARENA_BIT)) == Indices();
    assert Free(0) == {};
    assert Free(MASK_ARENA_BIT) == {};
  }

  /** What each whole-word comparison of the page code decides: all blocks free and the arena
      still there, all blocks free and the arena gone, nothing free and the arena gone. */
  lemma WordTests(w: Word)
    ensures w == ALL_ONES <==> Free(w) == Indices() && ArenaBit(w)
    ensures Not(w) == 0 <==> Free(w) == Indices() && ArenaBit(w)
    ensures Not(w) == MASK_ARENA_BIT <==> Free(w) == Indices() && !ArenaBit(w)
    ensures w == 0 <==> Free(w) == {} && !ArenaBit(w)
  {
    ConstantWords();
    if Free(w) == Indices() {
      WordExt(w, if ArenaBit(w) then ALL_ONES else Not(MASK_ARENA_BIT));
    }
    if Free(w) == {} && !ArenaBit(w) {
      WordExt(w, 0);
    }
  }

  // ---------------------------------------------------------------- trailing zeros and counts

  predicate IsLeast(i: nat, s: set<nat>) {
    i in s && forall j | j in s :: i <= j
  }

  lemma {:induction false} TrailingZerosBits(w: nat, k: nat)
    ensures forall j: nat | j < TrailingZerosUpTo(w, k) :: !Test(w, j)
    ensures TrailingZerosUpTo(w, k) < k ==> Test(w, TrailingZerosUpTo(w, k))
  {
    if k > 0 && w % 2 == 0 {
      TrailingZerosBits(w / 2, k - 1);
      forall j: nat | j < TrailingZerosUpTo(w, k)
        ensures !Test(w, j)
      {
        if j > 0 {
          assert !Test(w / 2, j - 1);
        }
      }
    }
  }

  /** `trailing_zeros` finds the lowest free block; it reads 63 when only the arena bit is left
      and 64 when not even that is. */
  lemma TrailingZerosFinds(w: Word)
    ensures TrailingZeros(w) < BLOCK_PER_PAGE <==> Free(w) != {}
    ensures TrailingZeros(w) < BLOCK_PER_PAGE ==> IsLeast(TrailingZeros(w), Free(w))
    ensures TrailingZeros(w) == BLOCK_PER_PAGE <==> Free(w) == {} && ArenaBit(w)
    ensures TrailingZeros(w) == BITFIELD_WIDTH <==> Free(w) == {} && !ArenaBit(w)
  {
    TrailingZerosBits(w, BITFIELD_WIDTH);
    var r := TrailingZeros(w);
    if r < BLOCK_PER_PAGE {
      assert r in Free(w);
    } else {
      assert Free(w) == {};
    }
  }

  function TestedBelow(w: nat, k: nat): set<nat> {
    set i: nat | i < k && Test(w, i)
  }

  lemma {:induction false} CountTested(w: nat, k: nat)
    ensures CountOnesBelow(w, k) == |TestedBelow(w, k)|
  {
    if k == 0 {
      assert TestedBelow(w, 0) == {};
    } else {
      CountTested(w, k - 1);
      var below := TestedBelow(w, k - 1);
      assert TestedBelow(w, k) == if Test(w, k - 1) then below + {k - 1} else below;
    }
  }

  lemma {:induction false} IndicesSize(k: nat)
    requires k <= BLOCK_PER_PAGE
    ensures |IndicesBelow(k)| == k
  {
    if k == 0 {
      assert IndicesBelow(0) == {};
    } else {
      IndicesSize(k - 1);
      assert IsIndex(k - 1);
      assert IndicesBelow(k) == IndicesBelow(k - 1) + {k - 1};
    }
  }

  /** `count_ones` counts the free blocks and the arena bit; `count_zeros` therefore counts the
      blocks in use whenever the arena bit is set. */
  lemma Counts(w: Word)
    ensures CountOnes(w) == |Free(w)| + (if ArenaBit(w) then 1 else 0)
    ensures CountZeros(w) == |Indices() - Free(w)| + (if ArenaBit(w) then 0 else 1)
    ensures |Indices()| == BLOCK_PER_PAGE
    ensures |Free(w)| <= BLOCK_PER_PAGE
  {
    hide Test, CountOnesBelow, TestedBelow, Free, ArenaBit;
    CountTested(w, BITFIELD_WIDTH);
    AllTested(w);
    IndicesSize(BLOCK_PER_PAGE);
    FreeAreIndices(w);
    assert Free(w) + (Indices() - Free(w)) == Indices();
  }

  lemma AllTested(w: Word)
    ensures TestedBelow(w, BITFIELD_WIDTH) == if ArenaBit(w) then Free(w) + {BLOCK_PER_PAGE} else Free(w)
  {
    hide Test;
  }

  lemma FreeAreIndices(w: Word)
    ensures Free(w) <= Indices() && BLOCK_PER_PAGE !in Free(w)
  {
    hide Test;
    forall i | i in Free(w)
      ensures i in Indices()
    {
      assert IsIndex(i);
    }
  }
}
