/** One page word under any sequence of acquisitions and releases
    (src/page/shared_arena.rs:135-167, src/page/pool.rs:100-124). */
module PageWord {
  import opened Bitfield

  datatype Op = Acquire | Release(index: nat)

  /** ShiftOverflow is `1 << 64`, where the source would panic. */
  datatype Outcome = Taken(index: nat) | NoBlock | ShiftOverflow | Released

  /** The word level: find the lowest set bit and clear it; `fetch_add` the block's bit. */
  function WordStep(w: Word, op: Op): (Word, Outcome)
    requires op.Release? ==> op.index < BLOCK_PER_PAGE
  {
    match op
    case Acquire =>
      var index := TrailingZeros(w);
      if index == BLOCK_PER_PAGE then (w, NoBlock)
      else if index >= BITFIELD_WIDTH then (w, ShiftOverflow)
      else (And(w, Not(Bit(index))), Taken(index))
    case Release(index) =>
      (WrappingAdd(w, Bit(index)), Released)
  }

  /** The set level: take the least free block, if any; give a block back. */
  ghost predicate SetStep(free: set<nat>, op: Op, free': set<nat>, outcome: Outcome) {
    match op
    case Acquire =>
      if free == {} then free' == {} && outcome == NoBlock
      else outcome.Taken? && IsLeast(outcome.index, free) && free' == free - {outcome.index}
    case Release(index) =>
      free' == free + {index} && outcome == Released
  }

  /** Callers release only a block they hold. */
  predicate Allowed(w: Word, op: Op) {
    op.Release? ==> op.index < BLOCK_PER_PAGE && op.index !in Free(w)
  }

  /** ws are the words, outs the outcomes, of running ops. */
  ghost predicate Run(ws: seq<Word>, outs: seq<Outcome>, ops: seq<Op>) {
    |ws| == |ops| + 1 && |outs| == |ops| &&
    forall k | 0 <= k < |ops| :: Allowed(ws[k], ops[k]) && WordStep(ws[k], ops[k]) == (ws[k + 1], outs[k])
  }

  /** Blocks handed out minus blocks given back. */
  function Outstanding(outs: seq<Outcome>): int {
    if outs == [] then 0
    else
      Outstanding(outs[..|outs| - 1]) + Change(outs[|outs| - 1])
  }

  function Change(outcome: Outcome): int {
    match outcome
    case Taken(_) => 1
    case Released => -1
    case _ => 0
  }

  /** One operation on the word is the same operation on the set of free blocks; it leaves the
      arena bit alone and changes `count_zeros` by the block handed out or given back. */
  lemma StepRefines(w: Word, op: Op)
    requires ArenaBit(w) && Allowed(w, op)
    ensures var (w', outcome) := WordStep(w, op);
            ArenaBit(w') && SetStep(Free(w), op, Free(w'), outcome) &&
            CountZeros(w') == CountZeros(w) + Change(outcome)
  {
    hide Free, ArenaBit, TrailingZeros, CountZeros, WrappingAdd, Or, And, Not, Bit, Indices;
    match op
    case Acquire =>
      TrailingZerosFinds(w);
      var i := TrailingZeros(w);
      if i < BLOCK_PER_PAGE {
        ClearBit(w, i);
        CountsMove(And(w, Not(Bit(i))), w, i);
      }
    case Release(i) =>
      AddBit(w, i);
      SetBit(w, i);
      CountsMove(w, Or(w, Bit(i)), i);
  }

  /** One more free block is one zero less. */
  lemma CountsMove(w: Word, v: Word, i: nat)
    requires i < BLOCK_PER_PAGE && i !in Free(w) && Free(v) == Free(w) + {i} && ArenaBit(v) == ArenaBit(w)
    ensures CountZeros(w) == CountZeros(v) + 1
  {
    hide CountZeros, ArenaBit;
    Counts(w);
    Counts(v);
    assert i in Indices() - Free(w);
    assert Indices() - Free(v) == (Indices() - Free(w)) - {i};
  }

  /** Over any run from a fresh page the word level refines the set level step by step, the
      arena bit is never touched, the shift never overflows, and `count_zeros` is the number of
      blocks outstanding. */
  lemma RunRefines(ws: seq<Word>, outs: seq<Outcome>, ops: seq<Op>)
    requires Run(ws, outs, ops) && ws[0] == ALL_ONES
    ensures forall k | 0 <= k <= |ops| :: ArenaBit(ws[k])
    ensures forall k | 0 <= k < |ops| :: SetStep(Free(ws[k]), ops[k], Free(ws[k + 1]), outs[k])
    ensures CountZeros(ws[|ops|]) == Outstanding(outs) == |Indices() - Free(ws[|ops|])|
  {
    forall k | 0 <= k <= |ops|
      ensures ArenaBit(ws[k])
    {
      PrefixRefines(ws, outs, ops, k);
    }
    forall k | 0 <= k < |ops|
      ensures SetStep(Free(ws[k]), ops[k], Free(ws[k + 1]), outs[k])
    {
      StepRefines(ws[k], ops[k]);
    }
    PrefixRefines(ws, outs, ops, |ops|);
    assert outs[..|ops|] == outs;
    Counts(ws[|ops|]);
  }

  lemma {:induction false} PrefixRefines(ws: seq<Word>, outs: seq<Outcome>, ops: seq<Op>, n: nat)
    requires Run(ws, outs, ops) && ws[0] == ALL_ONES && n <= |ops|
    ensures ArenaBit(ws[n]) && CountZeros(ws[n]) == Outstanding(outs[..n])
  {
    hide WordStep, Free, ArenaBit, CountZeros, SetStep;
    if n == 0 {
      ConstantWords();
      Counts(ALL_ONES);
    } else {
      PrefixRefines(ws, outs, ops, n - 1);
      StepRefines(ws[n - 1], ops[n - 1]);
      assert outs[..n][..n - 1] == outs[..n - 1];
    }
  }

  /** A release records the block as free exactly when it was held: releasing a block that is
      free already carries into its neighbours and leaves the block recorded as held. */
  lemma DoubleReleaseCarries(w: Word, i: nat)
    requires i < BLOCK_PER_PAGE
    ensures var (w', _) := WordStep(w, Release(i)); i in Free(w') <==> i !in Free(w)
  {
    hide Or, WrappingAdd;
    AddBit(w, i);
    SetBit(w, i);
    if i in Free(w) {
      AddClearsBit(w, i);
    }
  }
}
