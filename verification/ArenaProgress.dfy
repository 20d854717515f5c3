/** shrink_to_fit ends (src/arena.rs:465-523): every access of the owner brings it closer to its
    return, no access of a dropper takes it back, and it can always take its next access. */
module ArenaProgress {
  import opened Options
  import opened Chains
  import opened ArenaLists
  import opened ArenaListsInv
  import opened ArenaShrink
  import opened ArenaClose
  import opened ArenaRuns

  /** The accesses of one turn of a loop still to come. */
  function Rank(at: Loc): nat {
    match at
    case LoadCurrent => 3
    case LoadNext(_) => 2
    case Test(_, _) => 1
    case Swing(_, _) => 0
  }

  /** A bound on the accesses the owner needs until it returns. */
  function Remaining(o: Owner, g: Lists): int {
    match o
    case FreeLoop(_, at) => 2 * |g.free0| + 4 * |g.full0| + 8 + 4 * (|g.free0| - g.n) + Rank(at)
    case FullLoop(c, at) => 2 * |c.toDrop| + 4 + 4 * (|g.full0| - g.n) + Rank(at)
    case DropCheck(_, toDrop, k) => 2 * (|toDrop| - k) + 2
    case DropOne(_, toDrop, k) => 2 * (|toDrop| - k) + 1
    case Finishing(_, _) => 1
    case _ => 0
  }

  /** The owner's next access. */
  function NextOp(o: Owner): ShrinkOp {
    match o
    case FreeLoop(_, _) => FreeStep
    case FullLoop(_, _) => FullStep
    case DropCheck(_, _, _) => CheckStep
    case DropOne(_, _, _) => DropStep
    case _ => FinishShrink
  }

  lemma {:induction false} WithinShort(s: seq<Addr>, r: set<Addr>)
    ensures |Within(s, r)| <= |s|
  {
    FilterElems(s, r);
  }

  lemma FewTaken(s: State, g: Lists, n: nat)
    requires ShrunkTo(s, g, n)
    ensures n <= |g.free0| && |ToDrop(s.owner)| <= |g.free0|
  {
    WithinShort(g.free0[..n], Elems(ToDrop(s.owner)));
  }

  /** Every access of the owner decreases the bound, which is positive while it runs. */
  lemma OwnerAdvances(s: State, g: Lists)
    requires Inv(s, g) && Shrinking(s.owner)
    ensures Enabled(s, Shrink(NextOp(s.owner)))
    ensures 0 <= Remaining(ShrinkStep(s, NextOp(s.owner)).owner, FollowShrink(s, g, NextOp(s.owner))) < Remaining(s.owner, g)
  {
    hide Inv;
    OwnerTouchesPages(s, g);
    match s.owner
    case FreeLoop(_, _) => FreeAdvances(s, g);
    case FullLoop(_, _) => FullAdvances(s, g);
    case DropCheck(_, _, _) => CheckAdvances(s, g);
    case DropOne(_, _, _) => CheckAdvances(s, g);
    case Finishing(_, _) =>
  }

  lemma FreeAdvances(s: State, g: Lists)
    requires Inv(s, g) && Enabled(s, Shrink(FreeStep))
    ensures 0 <= Remaining(ShrinkStep(s, FreeStep).owner, FollowShrink(s, g, FreeStep)) < Remaining(s.owner, g)
  {
    hide MemInv, ListInv, Flags, Pushers, Hands, FullMembers, OwnerInv;
    hide LoopInv, Swung, Cell, Remaining, ShrinkStep, FollowShrink;
    FreeCell(s, g);
    FreePosition(s, g);
    match s.owner.at
    case LoadCurrent => LoadAdvances(s, g);
    case LoadNext(_) => TestAdvances(s, g);
    case Test(_, _) => TestAdvances(s, g);
    case Swing(_, _) => SwungAdvances(s, g);
  }

  lemma LoadAdvances(s: State, g: Lists)
    requires Enabled(s, Shrink(FreeStep)) && s.owner.at.LoadCurrent?
    requires g.n <= |g.free0| && |s.owner.cursor.toDrop| <= |g.free0|
    requires Cell(s.nextFree, s.owner.cursor.start, s.owner.cursor.prev, At(g.free0, g.n))
    ensures 0 <= Remaining(ShrinkStep(s, FreeStep).owner, FollowShrink(s, g, FreeStep)) < Remaining(s.owner, g)
  {
    LoadsFree(s, g);
    hide FreeLoopStep, Cell, OwnerTouches;
  }

  lemma LoadsFree(s: State, g: Lists)
    requires OwnerTouches(s) && s.owner.FreeLoop? && s.owner.at.LoadCurrent? && g.n <= |g.free0|
    requires Cell(s.nextFree, s.owner.cursor.start, s.owner.cursor.prev, At(g.free0, g.n))
    ensures var c := s.owner.cursor;
            FreeLoopStep(s, c, LoadCurrent).owner ==
              if g.n < |g.free0| then FreeLoop(c, LoadNext(g.free0[g.n])) else FullLoop(c.(prev := None), LoadCurrent)
  {
  }

  lemma TestAdvances(s: State, g: Lists)
    requires Enabled(s, Shrink(FreeStep)) && (s.owner.at.LoadNext? || s.owner.at.Test?) && g.n < |g.free0|
    ensures 0 <= Remaining(ShrinkStep(s, FreeStep).owner, FollowShrink(s, g, FreeStep)) < Remaining(s.owner, g)
  {
  }

  lemma LoadFullAdvances(s: State, g: Lists)
    requires Enabled(s, Shrink(FullStep)) && s.owner.at.LoadCurrent? && g.n <= |g.full0|
    requires Cell(s.next, s.full, s.owner.cursor.prev, At(g.full0, g.n))
    ensures 0 <= Remaining(ShrinkStep(s, FullStep).owner, FollowShrink(s, g, FullStep)) < Remaining(s.owner, g)
  {
    LoadsFull(s, g);
    hide FullLoopStep, Cell, OwnerTouches;
  }

  lemma LoadsFull(s: State, g: Lists)
    requires OwnerTouches(s) && s.owner.FullLoop? && s.owner.at.LoadCurrent? && g.n <= |g.full0|
    requires Cell(s.next, s.full, s.owner.cursor.prev, At(g.full0, g.n))
    ensures var c := s.owner.cursor;
            FullLoopStep(s, c, LoadCurrent).owner ==
              if g.n < |g.full0| then FullLoop(c, LoadNext(g.full0[g.n])) else DropCheck(c.start, c.toDrop, 0)
  {
  }

  lemma TestFullAdvances(s: State, g: Lists)
    requires Enabled(s, Shrink(FullStep)) && (s.owner.at.LoadNext? || s.owner.at.Test?) && g.n < |g.full0|
    ensures 0 <= Remaining(ShrinkStep(s, FullStep).owner, FollowShrink(s, g, FullStep)) < Remaining(s.owner, g)
  {
  }

  lemma SwungAdvances(s: State, g: Lists)
    requires OwnerInv(s, g) && Enabled(s, Shrink(FreeStep)) && s.owner.at.Swing? && g.n < |g.free0|
    requires Cell(s.nextFree, s.owner.cursor.start, s.owner.cursor.prev, At(g.free0, g.n))
    ensures 0 <= Remaining(ShrinkStep(s, FreeStep).owner, FollowShrink(s, g, FreeStep)) < Remaining(s.owner, g)
  {
    hide OwnerInv, ShrinkStep, Cell;
    SwingSucceeds(s, g);
  }

  lemma SwungFullAdvances(s: State, g: Lists)
    requires OwnerInv(s, g) && Enabled(s, Shrink(FullStep)) && s.owner.at.Swing? && g.n < |g.full0|
    requires Cell(s.next, s.full, s.owner.cursor.prev, At(g.full0, g.n))
    ensures 0 <= Remaining(ShrinkStep(s, FullStep).owner, FollowShrink(s, g, FullStep)) < Remaining(s.owner, g)
  {
    hide OwnerInv, ShrinkStep, Cell;
    ExpectHolds(s, g);
  }

  /** The first loop is within its list, and has taken no more pages than it has. */
  lemma FreePosition(s: State, g: Lists)
    requires OwnerInv(s, g) && s.owner.FreeLoop?
    ensures g.n <= |g.free0| && |s.owner.cursor.toDrop| <= |g.free0| && (!s.owner.at.LoadCurrent? ==> g.n < |g.free0|)
  {
    hide ShrunkTo, LoopInv;
    FewTaken(s, g, g.n);
  }

  lemma FullAdvances(s: State, g: Lists)
    requires Inv(s, g) && Enabled(s, Shrink(FullStep))
    ensures 0 <= Remaining(ShrinkStep(s, FullStep).owner, FollowShrink(s, g, FullStep)) < Remaining(s.owner, g)
  {
    hide MemInv, ListInv, Flags, Pushers, Hands, FullMembers, OwnerInv;
    hide LoopInv, SwungFull, Cell, Remaining, ShrinkStep, FollowShrink;
    FullCell(s, g);
    FullPosition(s, g);
    match s.owner.at
    case LoadCurrent => LoadFullAdvances(s, g);
    case LoadNext(_) => TestFullAdvances(s, g);
    case Test(_, _) => TestFullAdvances(s, g);
    case Swing(_, _) => SwungFullAdvances(s, g);
  }

  lemma FullPosition(s: State, g: Lists)
    requires OwnerInv(s, g) && s.owner.FullLoop?
    ensures !s.owner.at.LoadCurrent? ==> g.n < |g.full0|
  {
    hide ShrunkTo, LoopInv;
  }

  lemma CheckAdvances(s: State, g: Lists)
    requires Inv(s, g) && (s.owner.DropCheck? || s.owner.DropOne?) && Enabled(s, Shrink(NextOp(s.owner)))
    ensures 0 <= Remaining(ShrinkStep(s, NextOp(s.owner)).owner, FollowShrink(s, g, NextOp(s.owner))) < Remaining(s.owner, g)
  {
    hide MemInv, ListInv, Flags, Pushers, Hands, ShrunkTo;
    if s.owner.DropCheck? {
      hide OwnerInv, FullMembers;
      CheckPasses(s, g);
    }
  }

  /** While shrink_to_fit runs, every step is the owner's next access or a dropper's, and a
      dropper's leaves the owner and the bound alone. */
  lemma OthersWait(s: State, g: Lists, step: Step)
    requires Shrinking(s.owner) && Enabled(s, step)
    ensures step == Shrink(NextOp(s.owner)) ||
            (Apply(s, step).owner == s.owner && Remaining(s.owner, Follow(s, g, step)) == Remaining(s.owner, g))
  {
  }

  /** k accesses of the owner, and of nobody else, lead from s to end. */
  ghost predicate OwnerRun(s: State, end: State, k: nat)
    decreases k
  {
    if k == 0 then s == end
    else Enabled(s, Shrink(NextOp(s.owner))) && OwnerRun(Apply(s, Shrink(NextOp(s.owner))), end, k - 1)
  }

  /** So from wherever it is, the owner alone reaches the end of shrink_to_fit, in no more accesses
      than the bound says. */
  lemma {:induction false} ShrinkCompletes(s: State, s': State, n: nat, g: Lists) returns (end: State, k: nat)
    requires ShrinkRun(s, s', n) && Inv(s', g)
    ensures OwnerRun(s', end, k) && k <= Remaining(s'.owner, g)
    ensures ShrinkRun(s, end, n + k) && end.owner.Finishing? && Enabled(end, Shrink(FinishShrink))
    decreases Remaining(s'.owner, g)
  {
    hide Inv, Apply, Follow, Enabled, Remaining, ShrinkStep, FollowShrink;
    RunShrinks(s, s', n);
    OwnerAdvances(s', g);
    if s'.owner.Finishing? {
      end, k := s', 0;
    } else {
      var op := NextOp(s'.owner);
      AsStep(s', g, op);
      StepKeepsInv(s', g, Shrink(op));
      var next := Apply(s', Shrink(op));
      assert Next(s', next);
      NotPanicked(next, Follow(s', g, Shrink(op)));
      StillShrinks(s', op);
      RunExtends(s, s', next, n);
      end, k := ShrinkCompletes(s, next, n + 1, Follow(s', g, Shrink(op)));
      k := k + 1;
    }
  }

  lemma Begins(s: State, g: Lists)
    requires Inv(s, g) && s.owner.Idle? && Enabled(s, Shrink(BeginShrink))
    ensures var s' := Apply(s, Shrink(BeginShrink)); ShrinkRun(s, s', 0) && Inv(s', Follow(s, g, Shrink(BeginShrink)))
  {
    hide Inv, Follow;
    StepKeepsInv(s, g, Shrink(BeginShrink));
  }

  /** Called on an idle arena and left alone, shrink_to_fit returns. */
  lemma RunsAlone(s: State) returns (end: State, n: nat)
    requires Reachable(s) && s.owner.Idle?
    ensures Enabled(s, Shrink(BeginShrink)) && OwnerRun(Apply(s, Shrink(BeginShrink)), end, n)
    ensures ShrinkRun(s, end, n) && Enabled(end, Shrink(FinishShrink))
  {
    hide Reachable, Inv, Follow, Remaining, OwnerRun, Apply, Enabled, ShrinkRun;
    var g := ReachableInv(s);
    BeginEnabled(s);
    Begins(s, g);
    end, n := ShrinkCompletes(s, Apply(s, Shrink(BeginShrink)), 0, Follow(s, g, Shrink(BeginShrink)));
  }

  lemma RunShrinks(s: State, s': State, n: nat)
    requires ShrinkRun(s, s', n)
    ensures Shrinking(s'.owner)
  {
  }

  lemma RunExtends(s: State, s': State, next: State, n: nat)
    requires ShrinkRun(s, s', n) && Next(s', next) && Shrinking(next.owner)
    ensures ShrinkRun(s, next, n + 1)
  {
  }

  lemma AsStep(s: State, g: Lists, op: ShrinkOp)
    requires Enabled(s, Shrink(op))
    ensures Apply(s, Shrink(op)) == ShrinkStep(s, op) && Follow(s, g, Shrink(op)) == FollowShrink(s, g, op)
  {
  }

  lemma NotPanicked(s: State, g: Lists)
    requires Inv(s, g)
    ensures !s.owner.Panicked?
  {
    hide MemInv, ListInv, Flags, Pushers, Hands, FullMembers, ShrunkTo, LoopInv;
  }

  lemma StillShrinks(s: State, op: ShrinkOp)
    requires Enabled(s, Shrink(op)) && op == NextOp(s.owner) && Shrinking(s.owner) && !s.owner.Finishing?
    ensures Shrinking(Apply(s, Shrink(op)).owner) || Apply(s, Shrink(op)).owner.Panicked?
  {
    hide FreeLoopStep, FullLoopStep;
    match s.owner
    case FreeLoop(c, at) => FreeLoopStays(s, c, at);
    case FullLoop(c, at) => FullLoopStays(s, c, at);
    case DropCheck(_, _, _) =>
    case DropOne(_, _, _) =>
  }

  lemma FreeLoopStays(s: State, c: Cursor, at: Loc)
    requires OwnerTouches(s) && s.owner == FreeLoop(c, at)
    ensures var o := FreeLoopStep(s, c, at).owner; o.FreeLoop? || o.FullLoop?
  {
    hide OwnerTouches;
    match at
    case LoadCurrent =>
    case LoadNext(_) =>
    case Test(_, _) =>
    case Swing(_, _) =>
  }

  lemma FullLoopStays(s: State, c: Cursor, at: Loc)
    requires OwnerTouches(s) && s.owner == FullLoop(c, at)
    ensures var o := FullLoopStep(s, c, at).owner; o.FullLoop? || o.DropCheck? || o.Panicked?
  {
    hide OwnerTouches;
    match at
    case LoadCurrent =>
    case LoadNext(_) =>
    case Test(_, _) =>
    case Swing(_, _) =>
  }
}
