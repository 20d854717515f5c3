/** What the operations on an Arena page do when their thread runs alone for a while, from any
    state that any interleaving reaches (src/page/arena.rs:124-171, src/page/arena.rs:198-210). */
module ArenaPageAlone {
  import opened Bitfield
  import opened ArenaPage

  /** These accesses lead from s to end. */
  ghost predicate Runs(s: State, steps: seq<Step>, end: State)
    decreases |steps|
  {
    if steps == [] then s == end else Enabled(s, steps[0]) && Runs(Apply(s, steps[0]), steps[1..], end)
  }

  lemma Reaches(s: State, step: Step)
    requires Reachable(s) && Enabled(s, step)
    ensures Reachable(Apply(s, step))
  {
    hide Apply, Enabled;
    var n: nat :| ReachableIn(s, n);
    assert Next(s, Apply(s, step));
    assert ReachableIn(Apply(s, step), n + 1);
  }

  lemma RunsOn(s: State, step: Step, steps: seq<Step>, end: State)
    requires Enabled(s, step) && Runs(Apply(s, step), steps, end)
    ensures Runs(s, [step] + steps, end)
  {
    hide Apply, Enabled;
    assert ([step] + steps)[1..] == steps;
  }

  // ---------------------------------------------------------------- acquire_free_block

  predicate Inside(o: OwnerPc) {
    o.Scan? || o.AtLoad? || o.AtSwap?
  }

  predicate OwnersStep(step: Step) {
    step.BeginAcquire? || step.ReadPrivate? || step.LoadAtomic? || step.SwapAtomic? || step.DropPage? || step.OwnerDeallocate?
  }

  /** A bound on the accesses the owner needs until it leaves acquire_free_block. */
  function Left(o: OwnerPc): nat {
    match o
    case Scan(pass) => if pass == 1 then 4 else 1
    case AtLoad(_) => 3
    case AtSwap(_) => 2
    case _ => 0
  }

  /** Inside acquire_free_block the owner can always take its next access, each lowers the bound, and
      no access of a dropper changes it. */
  lemma AcquireAdvances(s: State, step: Step)
    requires Reachable(s) && Inside(s.owner) && Enabled(s, step)
    ensures OwnersStep(step) ==> Left(Apply(s, step).owner) < Left(s.owner)
    ensures !OwnersStep(step) ==> Apply(s, step).owner == s.owner
    ensures exists own :: OwnersStep(own) && Enabled(s, own)
  {
    hide Reachable, Acquired, Free, TrailingZeros, And, Or, Not, Bit, WrappingAdd;
    SearchStep(s);
    var own := NextAccess(s.owner);
    assert OwnersStep(own) && Enabled(s, own);
    if OwnersStep(step) {
      assert step == own;
    } else {
      DroppersElsewhere(s, step);
    }
  }

  lemma DroppersElsewhere(s: State, step: Step)
    requires Enabled(s, step) && !OwnersStep(step)
    ensures Apply(s, step).owner == s.owner
  {
    hide TrailingZeros, And, Or, Not, Bit, WrappingAdd;
  }

  /** The free blocks the owner looks at: those of the private word, and those of the atomic one
      when it has none. */
  function Offered(s: State): set<nat> {
    if Free(s.priv) != {} then Free(s.priv) else Free(s.atom)
  }

  lemma ReadTakes(s: State) returns (i: nat)
    requires Reachable(s) && s.owner.Scan? && Free(s.priv) != {}
    ensures IsLeast(i, Free(s.priv))
    ensures var s' := Apply(s, ReadPrivate);
            s' == s.(priv := s'.priv, owner := Idle, held := s.held + {i}) && Free(s'.priv) == Free(s.priv) - {i}
  {
    ReachableInv(s);
    hide Partition;
    TrailingZerosFinds(s.priv);
    i := TrailingZeros(s.priv);
    ClearBit(s.priv, i);
  }

  lemma ReadFails(s: State)
    requires Reachable(s) && s.owner.Scan? && Free(s.priv) == {}
    ensures s.owner.pass == 1 && Apply(s, ReadPrivate) == s.(owner := AtLoad(1))
  {
    ReachableInv(s);
    hide Partition;
    TrailingZerosFinds(s.priv);
  }

  lemma LoadDecides(s: State)
    requires Reachable(s) && s.owner == AtLoad(1)
    ensures Free(s.priv) == {} && Apply(s, LoadAtomic) == s.(owner := if Free(s.atom) == {} then Idle else AtSwap(1))
  {
    ReachableInv(s);
    hide Partition;
    WordTests(s.atom);
  }

  lemma SwapMerges(s: State)
    requires Reachable(s) && s.owner == AtSwap(1)
    ensures var s' := Apply(s, SwapAtomic);
            s' == s.(priv := s'.priv, atom := 0, owner := Scan(2)) && Free(s'.priv) == Free(s.atom) != {} && Free(s'.atom) == {}
  {
    ReachableInv(s);
    hide Partition;
    OrWords(s.priv, s.atom);
    ConstantWords();
  }

  /** What acquire_free_block did: it took the least block on offer, or there was none. */
  ghost predicate Acquired(s: State, end: State) {
    end == s.(priv := end.priv, atom := end.atom, owner := Idle, held := end.held) &&
    if FreeBlocks(s) == {} then end == s.(owner := Idle)
    else exists i :: IsLeast(i, Offered(s)) && end.held == s.held + {i} && FreeBlocks(end) == FreeBlocks(s) - {i}
  }

  lemma TookOne(s: State, end: State, i: nat)
    requires Reachable(s) && Owned(s) && end == s.(priv := end.priv, atom := end.atom, owner := Idle, held := s.held + {i})
    requires IsLeast(i, Offered(s)) && Free(end.priv) + Free(end.atom) == FreeBlocks(s) - {i}
    ensures Acquired(s, end)
  {
    assert i in FreeBlocks(s);
  }

  /** A call of acquire_free_block, the owner alone at work, ends: with the least block of the private
      word, or of the atomic word if the private one has none; with no block if and only if no block
      of the page is free. */
  lemma AcquireAlone(s: State) returns (steps: seq<Step>, end: State)
    requires Reachable(s) && s.owner.Idle?
    ensures Runs(s, steps, end) && 2 <= |steps| <= 5 && steps[0] == BeginAcquire && forall step | step in steps :: OwnersStep(step)
    ensures Acquired(s, end)
  {
    hide Runs, Reachable, Free;
    Reaches(s, BeginAcquire);
    var s1 := Apply(s, BeginAcquire);
    steps, end := SearchAlone(s1);
    RunsOn(s, BeginAcquire, steps, end);
    steps := [BeginAcquire] + steps;
    SameFree(s, s1);
  }

  /** From wherever the search begins, also again after a merge, it takes at most four accesses. */
  lemma SearchAlone(s: State) returns (steps: seq<Step>, end: State)
    requires Reachable(s) && s.owner.Scan?
    ensures Runs(s, steps, end) && 1 <= |steps| <= 4 && forall step | step in steps :: OwnersStep(step)
    ensures Acquired(s, end)
  {
    hide Runs, Reachable, Free;
    if Free(s.priv) != {} {
      steps, end := TakesPrivate(s);
    } else {
      ReadFails(s);
      Reaches(s, ReadPrivate);
      var s1 := Apply(s, ReadPrivate);
      LoadDecides(s1);
      if Free(s.atom) == {} {
        end := Apply(s1, LoadAtomic);
        Last(s1, LoadAtomic);
        RunsOn(s, ReadPrivate, [LoadAtomic], end);
        steps := [ReadPrivate] + [LoadAtomic];
      } else {
        Reaches(s1, LoadAtomic);
        steps, end := TakesAtomic(s, Apply(s1, LoadAtomic));
        RunsOn(s1, LoadAtomic, steps, end);
        RunsOn(s, ReadPrivate, [LoadAtomic] + steps, end);
        steps := [ReadPrivate] + ([LoadAtomic] + steps);
      }
    }
  }

  lemma Last(s: State, step: Step)
    requires Enabled(s, step)
    ensures Runs(s, [step], Apply(s, step))
  {
    assert [step][1..] == [];
  }

  lemma TakesPrivate(s: State) returns (steps: seq<Step>, end: State)
    requires Reachable(s) && s.owner.Scan? && Free(s.priv) != {}
    ensures steps == [ReadPrivate] && Runs(s, steps, end) && Acquired(s, end)
  {
    hide Runs, Reachable, Free;
    var i := ReadTakes(s);
    end := Apply(s, ReadPrivate);
    steps := [ReadPrivate];
    Last(s, ReadPrivate);
    NotInBoth(s);
    TookOne(s, end, i);
  }

  lemma NotInBoth(s: State)
    requires Reachable(s) && Owned(s)
    ensures Free(s.priv) !! Free(s.atom)
  {
    WordsDisjoint(s);
  }

  /** After the load: swap, and search again. */
  lemma TakesAtomic(s: State, s2: State) returns (steps: seq<Step>, end: State)
    requires Reachable(s) && s.owner.Scan? && Free(s.priv) == {} && Free(s.atom) != {}
    requires Reachable(s2) && s2 == s.(owner := AtSwap(1))
    ensures |steps| == 2 && Runs(s2, steps, end) && Acquired(s, end) && forall step | step in steps :: OwnersStep(step)
  {
    hide Runs, Reachable, Free;
    SwapMerges(s2);
    Reaches(s2, SwapAtomic);
    var s3 := Apply(s2, SwapAtomic);
    var i := ReadTakes(s3);
    end := Apply(s3, ReadPrivate);
    Last(s3, ReadPrivate);
    RunsOn(s2, SwapAtomic, [ReadPrivate], end);
    steps := [SwapAtomic] + [ReadPrivate];
    TookOne(s, end, i);
  }

  /** The owner's next access inside acquire_free_block. */
  function NextAccess(o: OwnerPc): Step {
    match o
    case AtLoad(_) => LoadAtomic
    case AtSwap(_) => SwapAtomic
    case _ => ReadPrivate
  }

  /** From wherever it stands, the next access ends the search as it should, or leaves the same search
      with fewer accesses to go. */
  lemma SearchStep(s: State)
    requires Reachable(s) && Inside(s.owner)
    ensures Enabled(s, NextAccess(s.owner))
    ensures var step := NextAccess(s.owner);
            var s1 := Apply(s, step);
            if s1.owner.Idle? then Acquired(s, s1) && (step.ReadPrivate? <==> FreeBlocks(s) != {})
            else Inside(s1.owner) && Left(s1.owner) < Left(s.owner) && FreeBlocks(s1) == FreeBlocks(s) &&
                 forall end | Acquired(s1, end) :: Acquired(s, end)
  {
    hide Reachable, Free;
    match s.owner
    case Scan(_) =>
      if Free(s.priv) != {} {
        var i := ReadTakes(s);
        NotInBoth(s);
        TookOne(s, Apply(s, ReadPrivate), i);
      } else {
        ReadFails(s);
      }
    case AtLoad(_) =>
      PassIsOne(s);
      LoadDecides(s);
    case AtSwap(_) =>
      PassIsOne(s);
      SwapMerges(s);
      SwapKeeps(s, Apply(s, SwapAtomic));
    case _ =>
  }

  lemma PassIsOne(s: State)
    requires Reachable(s) && (s.owner.AtLoad? || s.owner.AtSwap?)
    ensures s.owner.pass == 1 && Free(s.priv) == {}
  {
    ReachableInv(s);
    hide Partition;
  }

  lemma SwapKeeps(s: State, s1: State)
    requires s.owner.AtSwap? && s1 == s.(priv := s1.priv, atom := 0, owner := Scan(2))
    requires Free(s.priv) == {} && Free(s1.priv) == Free(s.atom) != {} && Free(s1.atom) == {}
    ensures FreeBlocks(s1) == FreeBlocks(s) && forall end | Acquired(s1, end) :: Acquired(s, end)
  {
    hide Free;
    assert Offered(s1) == Offered(s);
  }

  // ---------------------------------------------------------------- drop_block and drop_page

  /** A thread that drops a block, alone: the block is free again, and the last block of a page let
      go deallocates the page. */
  lemma DropAlone(s: State, t: ThreadId, i: nat) returns (steps: seq<Step>, end: State)
    requires Reachable(s) && t !in s.droppers && i in s.held
    ensures Runs(s, steps, end) && steps <= [BeginDrop(t, i), FetchAdd(t), Deallocate(t)]
    ensures end == s.(atom := end.atom, held := s.held - {i}, deallocs := end.deallocs)
    ensures FreeBlocks(end) == FreeBlocks(s) + {i}
    ensures end.deallocs == if !Owned(s) && FreeBlocks(end) == Indices() then 1 else 0
  {
    hide Runs, Reachable, Free, FreeBlocks, WrappingAdd, Or, Bit;
    var s1 := Apply(s, BeginDrop(t, i));
    Reaches(s, BeginDrop(t, i));
    HeldIsIndex(s, i);
    var s2 := Apply(s1, FetchAdd(t));
    Drops(s1, t);
    Reaches(s1, FetchAdd(t));
    NothingAfterDeallocation(s, BeginDrop(t, i));
    assert s1.droppers - {t} == s.droppers;
    SameFree(s, s1);
    if t in s2.droppers {
      end := Apply(s2, Deallocate(t));
      assert s2.droppers - {t} == s.droppers;
      Last(s2, Deallocate(t));
      RunsOn(s1, FetchAdd(t), [Deallocate(t)], end);
      RunsOn(s, BeginDrop(t, i), [FetchAdd(t)] + [Deallocate(t)], end);
      steps := [BeginDrop(t, i)] + ([FetchAdd(t)] + [Deallocate(t)]);
    } else {
      end := s2;
      Last(s1, FetchAdd(t));
      RunsOn(s, BeginDrop(t, i), [FetchAdd(t)], end);
      steps := [BeginDrop(t, i)] + [FetchAdd(t)];
    }
    SameFree(s2, end);
  }

  /** Its two accesses before the deallocation. */
  lemma DropForm(s: State, t: ThreadId, i: nat)
    requires Reachable(s) && t !in s.droppers && i in s.held
    ensures Enabled(s, BeginDrop(t, i)) && Enabled(Apply(s, BeginDrop(t, i)), FetchAdd(t))
    ensures var s2 := Apply(Apply(s, BeginDrop(t, i)), FetchAdd(t));
            s2 == s.(atom := s2.atom, held := s.held - {i}, droppers := s2.droppers) && FreeBlocks(s2) == FreeBlocks(s) + {i} &&
            s2.droppers == if !Owned(s) && FreeBlocks(s2) == Indices() then s.droppers[t := DropperFreeing] else s.droppers
  {
    hide Reachable, Free, FreeBlocks, WrappingAdd, Or, Bit;
    var s1 := Apply(s, BeginDrop(t, i));
    Reaches(s, BeginDrop(t, i));
    HeldIsIndex(s, i);
    Drops(s1, t);
    assert s1.droppers - {t} == s.droppers;
    assert s1.droppers[t := DropperFreeing] == s.droppers[t := DropperFreeing];
    SameFree(s, s1);
  }

  lemma HeldIsIndex(s: State, i: nat)
    requires Reachable(s) && i in s.held
    ensures i < BLOCK_PER_PAGE
  {
    ReachableInv(s);
    assert i in Indices();
  }

  lemma SameFree(s: State, s': State)
    requires s'.priv == s.priv && s'.atom == s.atom && Owned(s') == Owned(s)
    ensures FreeBlocks(s') == FreeBlocks(s)
  {
  }

  lemma Drops(s: State, t: ThreadId)
    requires Reachable(s) && Enabled(s, FetchAdd(t))
    ensures var s', i := Apply(s, FetchAdd(t)), s.droppers[t].index;
            s' == s.(atom := s'.atom, droppers := s'.droppers) && FreeBlocks(s') == FreeBlocks(s) + {i} &&
            s'.droppers == if !Owned(s) && FreeBlocks(s') == Indices() then s.droppers[t := DropperFreeing] else s.droppers - {t}
  {
    ReachableInv(s);
    hide Partition, Free;
    SoleDropper(s, t);
    AddBit(s.atom, s.droppers[t].index);
    SetBit(s.atom, s.droppers[t].index);
    WordTests(Or(s.atom, Bit(s.droppers[t].index)));
    hide WrappingAdd, Or, Bit;
    FetchAddRefines(s, t);
    NothingOut(Apply(s, FetchAdd(t)));
    OwnedBit(s);
  }

  lemma OwnedBit(s: State)
    requires Reachable(s)
    ensures ArenaBit(s.atom) == !Owned(s)
  {
    ReachableInv(s);
  }

  /** drop_page, alone: the arena has let go of the page, which is deallocated if no block was out. */
  lemma LetGoAlone(s: State) returns (steps: seq<Step>, end: State)
    requires Reachable(s) && s.owner.Idle?
    ensures Runs(s, steps, end) && steps <= [DropPage, OwnerDeallocate]
    ensures end == s.(atom := end.atom, owner := Gone, deallocs := end.deallocs) && FreeBlocks(end) == FreeBlocks(s)
    ensures end.deallocs == if FreeBlocks(s) == Indices() then 1 else 0
  {
    hide Runs, Reachable, Free, FreeBlocks, Or;
    var s1 := Apply(s, DropPage);
    ReachableInv(s);
    DropPageRefines(s);
    NothingOut(s);
    NothingOut(s1);
    NothingAfterDeallocation(s, DropPage);
    OutIsRest(s);
    OutIsRest(s1);
    if s1.owner.Freeing? {
      end := Apply(s1, OwnerDeallocate);
      Last(s1, OwnerDeallocate);
      RunsOn(s, DropPage, [OwnerDeallocate], end);
      steps := [DropPage] + [OwnerDeallocate];
      SameFree(s1, end);
    } else {
      end := s1;
      Last(s, DropPage);
      steps := [DropPage];
    }
  }

  lemma OutIsRest(s: State)
    ensures FreeBlocks(s) == Indices() - Out(s)
  {
    assert FreeBlocks(s) <= Indices();
  }
}
