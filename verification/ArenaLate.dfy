/** Late accesses of drop_block (src/page/arena.rs:158-193). After its fetch_add a dropper goes on to
    the page's flag, its link and the pending list, and the page may be deallocated by then. Here
    is which of those accesses can come too late, and a run for each that can. */
module ArenaLate {
  import opened Options
  import opened Bitfield
  import opened Chains
  import opened ArenaLists
  import opened ArenaListsInv
  import opened ArenaRuns
  import opened ArenaProgress
  import opened ArenaMissed

  /** The next access of thread t is to a page that has been deallocated. */
  predicate TooLate(s: State, t: ThreadId) {
    t in s.droppers && s.droppers[t].page in s.deallocs && s.deallocs[s.droppers[t].page] > 0
  }

  /** It is exactly when the arena has let the page go and no block of it is out. Before Arena::drop,
      being let go is enough; no thread that has won the flag is ever too late then, and a thread
      that is finds the flag set and stops at that very access. */
  lemma WhoIsLate(s: State, t: ThreadId)
    requires Reachable(s) && t in s.droppers
    ensures var p := s.droppers[t].page;
            Known(s, p) && (TooLate(s, t) <==> p in s.released && s.held[p] == {}) &&
            (!Ending(s.owner) ==> (TooLate(s, t) <==> p in s.released)) &&
            (!Ending(s.owner) && Pushing(s.droppers[t]) ==> !TooLate(s, t)) &&
            (!Ending(s.owner) && TooLate(s, t) ==>
               s.inFree[p] && Enabled(s, DropperStep(t)) && Apply(s, DropperStep(t)) == s.(droppers := s.droppers - {t}))
  {
    var g := ReachableInv(s);
    var p := s.droppers[t].page;
    NothingPanics(s);
    DeallocsAre(s, g, p);
    hide MemInv, ListInv, Pushers, Hands, OwnerInv, FullMembers, OwnerTouches, DropStepOf;
    assert FlagInv(s, g, p);
    if Pushing(s.droppers[t]) {
      assert Pushes(s, t, p);
    } else if s.inFree[p] {
      SetFlagStops(s, t);
    }
  }

  /** A thread that has not won the flag stops at a flag that is set. */
  lemma SetFlagStops(s: State, t: ThreadId)
    requires t in s.droppers && !Pushing(s.droppers[t]) && Known(s, s.droppers[t].page) && s.inFree[s.droppers[t].page]
    ensures DropStepOf(s, t) == s.(droppers := s.droppers - {t})
  {
    var p := s.droppers[t].page;
    assert s.inFree[p := true] == s.inFree;
  }

  // ---------------------------------------------------------------- shrink_to_fit, nobody else at work

  lemma RunReaches(s: State, s': State, n: nat)
    requires Reachable(s) && ShrinkRun(s, s', n)
    ensures Reachable(s')
    decreases n
  {
    hide Reachable, Apply, Enabled;
    if n == 0 {
      BeginEnabled(s);
      Reaches(s, Shrink(BeginShrink), s');
    } else {
      var s0 :| ShrinkRun(s, s0, n - 1) && Next(s0, s');
      RunReaches(s, s0, n - 1);
      var step :| Enabled(s0, step) && s' == Apply(s0, step);
      Reaches(s0, step, s');
    }
  }

  lemma {:induction false} OwnerRunKeepsDroppers(s: State, end: State, k: nat)
    requires OwnerRun(s, end, k)
    ensures end.droppers == s.droppers
    decreases k
  {
    hide Apply, Enabled;
    if k > 0 {
      OwnerKeepsDroppers(s, NextOp(s.owner));
      OwnerRunKeepsDroppers(Apply(s, Shrink(NextOp(s.owner))), end, k - 1);
    }
  }

  lemma OwnerKeepsDroppers(s: State, op: ShrinkOp)
    requires Enabled(s, Shrink(op))
    ensures Apply(s, Shrink(op)).droppers == s.droppers
  {
    hide FreeLoopStep, FullLoopStep, OwnerTouches;
    match op
    case FreeStep => FreeKeepsDroppers(s, s.owner.cursor, s.owner.at);
    case FullStep => FullKeepsDroppers(s, s.owner.cursor, s.owner.at);
    case _ =>
  }

  lemma FreeKeepsDroppers(s: State, c: Cursor, at: Loc)
    requires OwnerTouches(s) && s.owner == FreeLoop(c, at)
    ensures FreeLoopStep(s, c, at).droppers == s.droppers
  {
    hide OwnerTouches;
    match at
    case LoadCurrent =>
    case LoadNext(_) =>
    case Test(_, _) =>
    case Swing(_, _) =>
  }

  lemma FullKeepsDroppers(s: State, c: Cursor, at: Loc)
    requires OwnerTouches(s) && s.owner == FullLoop(c, at)
    ensures FullLoopStep(s, c, at).droppers == s.droppers
  {
    hide OwnerTouches;
    match at
    case LoadCurrent =>
    case LoadNext(_) =>
    case Test(_, _) =>
    case Swing(_, _) =>
  }

  /** From an idle arena whose free list is one unused page, shrink_to_fit deallocates that page,
      wherever droppers stand. */
  lemma ShrinksAway(s: State, p: Addr) returns (after: State)
    requires Reachable(s) && s.owner.Idle? && Chain(s.nextFree, s.freeList, [p]) && p in s.held && s.held[p] == {}
    ensures Reachable(after) && after.owner.Idle? && after.droppers == s.droppers && p in after.deallocs && after.deallocs[p] == 1
  {
    hide Reachable, Inv, Apply, Enabled, ShrinkRun, OwnerRun, Chain;
    var g := ReachableInv(s);
    BeginEnabled(s);
    var end, n := RunsAlone(s);
    OwnerKeepsDroppers(s, BeginShrink);
    OwnerRunKeepsDroppers(Apply(s, Shrink(BeginShrink)), end, n);
    RunReaches(s, end, n);
    var free, full, removed;
    free, full, removed, after := ShrinkFilters(s, end, n);
    Reaches(end, Shrink(FinishShrink), after);
    OwnerKeepsDroppers(end, FinishShrink);
    ChainsOf(s, g);
    ChainUnique(s.nextFree, s.freeList, free, [p]);
    ChainUnique(s.nextFree, s.freeList, g.free, [p]);
    ChainUnique(s.next, s.full, full, g.full);
    FreeIsFull(s, g, p);
  }

  lemma FreeIsFull(s: State, g: Lists, p: Addr)
    requires Inv(s, g) && s.owner.Idle? && p in g.free && p in s.held
    ensures p in g.full
  {
    hide ListInv, Pushers, Hands, OwnerInv;
    assert p in s.held.Keys;
    assert FlagInv(s, g, p);
  }

  // ---------------------------------------------------------------- a look at the flag that comes too late

  /** A block is given back to a page on the free list, and shrink_to_fit takes the page away before
      the dropper has looked at its flag. */
  lemma LateLoad() returns (s: State)
    ensures Reachable(s) && s.owner.Idle? && s.droppers == map[0 := LoadFlag(0)] && TooLate(s, 0)
  {
    hide Reachable;
    FillingReached(1);
    var s0 := Filling(1);
    assert IndicesBelow(1) == {0};
    assert {0} - {0} == IndicesBelow(0);
    var s1 := Filling(0).(droppers := map[0 := LoadFlag(0)]);
    assert GiveBackStep(s0, 0, 0, 0) == s1;
    Reaches(s0, GiveBack(0, 0, 0), s1);
    assert Chain(s1.nextFree, s1.freeList, [0]) by { assert [0][1..] == []; }
    s := ShrinksAway(s1, 0);
  }

  // ---------------------------------------------------------------- a swap that comes too late

  /** One page with every block out but those in `back`, off every list; the owner is about to read
      the pending list. */
  function Away(back: set<nat>): State {
    Filling(BLOCK_PER_PAGE).(held := map[0 := Indices() - back], freeList := None, inFree := map[0 := false], owner := Scan)
  }

  /** A dropper has seen the flag clear. */
  lemma FirstLooks()
    ensures Reachable(Away({0}).(droppers := map[0 := SwapFlag(0)]))
  {
    hide Reachable;
    FirstPageLeaves();
    assert IndicesBelow(BLOCK_PER_PAGE) == Indices() && Indices() - {} == Indices();
    var s0 := Away({});
    assert 0 in Indices() && 1 in Indices() - {0};
    var s1 := Away({0}).(droppers := map[0 := LoadFlag(0)]);
    assert GiveBackStep(s0, 0, 0, 0) == s1;
    Reaches(s0, GiveBack(0, 0, 0), s1);
    Reaches(s1, DropperStep(0), Away({0}).(droppers := map[0 := SwapFlag(0)]));
  }

  /** A second one has too, has set it and listed the page. */
  lemma SecondPushes()
    ensures Reachable(Away({0, 1}).(inFree := map[0 := true], pending := Some(0), droppers := map[0 := SwapFlag(0)]))
  {
    hide Reachable;
    FirstLooks();
    var s2 := Away({0}).(droppers := map[0 := SwapFlag(0)]);
    assert 1 in Indices() && 2 in Indices() - {0, 1};
    assert (Indices() - {0}) - {1} == Indices() - {0, 1};
    var s3 := Away({0, 1}).(droppers := map[0 := SwapFlag(0), 1 := LoadFlag(0)]);
    assert GiveBackStep(s2, 1, 0, 1) == s3;
    Reaches(s2, GiveBack(1, 0, 1), s3);
    SecondWins(s3);
    var s5 := s3.(inFree := map[0 := true], droppers := map[0 := SwapFlag(0), 1 := Upgrade(0)]);
    Publishes(s5, 1, 0);
    assert s5.nextFree[0 := None] == s5.nextFree;
    assert s5.droppers - {1} == map[0 := SwapFlag(0)];
  }

  lemma SecondWins(s: State)
    requires Reachable(s) && s == Away({0, 1}).(droppers := map[0 := SwapFlag(0), 1 := LoadFlag(0)])
    ensures Reachable(s.(inFree := map[0 := true], droppers := map[0 := SwapFlag(0), 1 := Upgrade(0)]))
  {
    hide Reachable;
    var s1 := s.(droppers := map[0 := SwapFlag(0), 1 := SwapFlag(0)]);
    Reaches(s, DropperStep(1), s1);
    Reaches(s1, DropperStep(1), s.(inFree := map[0 := true], droppers := map[0 := SwapFlag(0), 1 := Upgrade(0)]));
  }

  /** The owner takes the page back and hands the two blocks out again. */
  lemma TakesBack()
    ensures Reachable(Filling(BLOCK_PER_PAGE).(droppers := map[0 := SwapFlag(0)]))
  {
    hide Reachable;
    SecondPushes();
    var s0 := Away({0, 1}).(inFree := map[0 := true], pending := Some(0), droppers := map[0 := SwapFlag(0)]);
    var s1 := s0.(owner := ReadPending);
    Reaches(s0, Find(ScanEnds), s1);
    var s2 := s1.(owner := SwapPending);
    Reaches(s1, Find(LoadPending), s2);
    var s3 := s2.(freeList := Some(0), pending := None, owner := Scan);
    Reaches(s2, Find(TakePending), s3);
    assert 0 in Indices() && 1 in Indices();
    assert (Indices() - {0, 1}) + {0} == Indices() - {1} && (Indices() - {1}) + {1} == Indices();
    assert IndicesBelow(BLOCK_PER_PAGE) == Indices();
    var s4 := s3.(held := map[0 := Indices() - {1}], owner := Idle);
    assert FindStep(s3, Acquire(0)) == s4;
    Reaches(s3, Find(Acquire(0)), s4);
    var s5 := s4.(owner := Scan);
    Reaches(s4, Find(FindPlace), s5);
    var s6 := Filling(BLOCK_PER_PAGE).(droppers := map[0 := SwapFlag(0)]);
    assert FindStep(s5, Acquire(1)) == s6;
    Reaches(s5, Find(Acquire(1)), s6);
  }

  /** Every block is given back, and shrink_to_fit takes the page away before the first dropper has
      made its swap. */
  lemma LateSwap() returns (s: State)
    ensures Reachable(s) && s.owner.Idle? && s.droppers == map[0 := SwapFlag(0)] && TooLate(s, 0)
  {
    hide Reachable;
    TakesBack();
    var s0 := Filling(BLOCK_PER_PAGE).(droppers := map[0 := SwapFlag(0)]);
    assert IndicesBelow(BLOCK_PER_PAGE) == Indices() && Indices() - IndicesBelow(0) == Indices();
    assert Indices() - IndicesBelow(BLOCK_PER_PAGE) == {};
    Drains(s0, 0, 1, 0, BLOCK_PER_PAGE);
    var s1 := s0.(held := map[0 := {}]);
    assert s0.held[0 := {}] == s1.held;
    assert Chain(s1.nextFree, s1.freeList, [0]) by { assert [0][1..] == []; }
    s := ShrinksAway(s1, 0);
  }

  // ---------------------------------------------------------------- a push that comes too late

  /** Arena::drop lets the page go while a thread that has won its flag is still to push it. */
  lemma LatePush() returns (s: State)
    ensures Reachable(s) && Ending(s.owner) && s.droppers == map[0 := Upgrade(0)] && TooLate(s, 0)
  {
    hide Reachable;
    FirstWins();
    var s0 := Two(Indices() - {0}, false).(inFree := map[0 := true, 1 := true], droppers := map[0 := Upgrade(0)]);
    assert IndicesBelow(1) == {0} && Indices() - IndicesBelow(BLOCK_PER_PAGE) == {};
    Drains(s0, 0, 1, 1, BLOCK_PER_PAGE);
    var s1 := s0.(held := map[0 := {}, 1 := {0}]);
    assert s0.held[0 := {}] == s1.held;
    s := Closes(s1);
  }

  /** Arena::drop lets the second page go. */
  lemma ClosesFirst(s: State)
    requires Reachable(s)
    requires s == Two({}, false).(inFree := map[0 := true, 1 := true], droppers := map[0 := Upgrade(0)])
    ensures Reachable(s.(released := {1}, owner := Closing(Some(0))))
  {
    hide Reachable;
    var s1 := s.(owner := Closing(Some(1)));
    Reaches(s, Shrink(BeginClose), s1);
    var s2 := s1.(released := {1}, owner := Closing(Some(0)));
    assert ShrinkStep(s1, CloseStep) == s2;
    Reaches(s1, Shrink(CloseStep), s2);
  }

  /** And the first, which has no block out. */
  lemma Closes(s: State) returns (after: State)
    requires Reachable(s)
    requires s == Two({}, false).(inFree := map[0 := true, 1 := true], droppers := map[0 := Upgrade(0)])
    ensures Reachable(after) && Ending(after.owner) && after.droppers == s.droppers && TooLate(after, 0)
  {
    hide Reachable;
    ClosesFirst(s);
    var s2 := s.(released := {1}, owner := Closing(Some(0)));
    after := s2.(released := {0, 1}, deallocs := map[0 := 1, 1 := 0], owner := Closing(None));
    assert s2.released + {0} == {0, 1};
    assert ShrinkStep(s2, CloseStep) == after;
    Reaches(s2, Shrink(CloseStep), after);
  }
}
