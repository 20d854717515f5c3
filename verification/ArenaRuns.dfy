/** What holds in every run of an Arena: one owner that allocates, shrinks and finally drops it,
    any number of remote droppers, every interleaving. */
module ArenaRuns {
  import opened Options
  import opened Chains
  import opened ArenaLists
  import opened ArenaListsInv
  import opened ArenaDroppers
  import opened ArenaFind
  import opened ArenaShrink
  import opened ArenaClose

  ghost predicate Next(s: State, s': State) {
    exists step :: Enabled(s, step) && s' == Apply(s, step)
  }

  ghost predicate ReachableIn(s: State, n: nat)
    decreases n
  {
    if n == 0 then Init(s) else exists s0 :: ReachableIn(s0, n - 1) && Next(s0, s)
  }

  ghost predicate Reachable(s: State) {
    exists n: nat :: ReachableIn(s, n)
  }

  lemma Reaches(s: State, step: Step, s': State)
    requires Reachable(s) && Enabled(s, step) && s' == Apply(s, step)
    ensures Reachable(s')
  {
    hide Enabled, Apply;
    var n: nat :| ReachableIn(s, n);
    assert Next(s, s');
    assert ReachableIn(s', n + 1);
  }

  // ---------------------------------------------------------------- the invariant over runs

  function FreshLists(news: seq<Addr>): Lists {
    Lists(news, [], news, [], [], {}, 0)
  }

  lemma InitInv(news: seq<Addr>)
    requires news != [] && NoDup(news)
    ensures Inv(Fresh(news), FreshLists(news))
  {
    hide Chain;
    NewLinksKeys(news, None);
    FreshChain(news);
    FreshPages(news);
  }

  lemma FreshChain(news: seq<Addr>)
    requires news != [] && NoDup(news)
    ensures Chain(NewLinks(news, None), Some(news[0]), news) && Chain(NewLinks(news, None), None, [])
  {
    var none: Links<Addr> := map[];
    ChainAppend(none, None, [], news);
    assert none + NewLinks(news, None) == NewLinks(news, None) && news + [] == news;
  }

  lemma FreshPages(news: seq<Addr>)
    requires news != [] && NewLinks(news, None).Keys == Elems(news)
    ensures MemInv(Fresh(news)) && Flags(Fresh(news), FreshLists(news))
  {
    var s, g := Fresh(news), FreshLists(news);
    assert Elems(news) == set p | p in news;
    forall p | p in s.next
      ensures Known(s, p) && PageInv(s, p) && FlagInv(s, g, p)
    {
      assert p in Elems(news);
    }
  }

  lemma StepKeepsInv(s: State, g: Lists, step: Step)
    requires Inv(s, g) && Enabled(s, step)
    ensures Inv(Apply(s, step), Follow(s, g, step))
  {
    hide Inv;
    match step
    case Find(op) => KeepsFindStep(s, g, op);
    case Shrink(op) => KeepsShrinkStep(s, g, op);
    case GiveBack(t, p, block) => KeepsGiveBack(s, g, t, p, block);
    case DropperStep(t) => KeepsDropperStep(s, g, t);
  }

  lemma {:induction false} ReachableInInv(s: State, n: nat) returns (g: Lists)
    requires ReachableIn(s, n)
    ensures Inv(s, g)
    decreases n
  {
    hide Inv, Apply, Enabled, Follow;
    if n == 0 {
      var news :| news != [] && NoDup(news) && s == Fresh(news);
      InitInv(news);
      g := FreshLists(news);
    } else {
      var s0 :| ReachableIn(s0, n - 1) && Next(s0, s);
      var g0 := ReachableInInv(s0, n - 1);
      var step :| Enabled(s0, step) && s == Apply(s0, step);
      StepKeepsInv(s0, g0, step);
      g := Follow(s0, g0, step);
    }
  }

  lemma ReachableInv(s: State) returns (g: Lists)
    requires Reachable(s)
    ensures Inv(s, g)
  {
    var n: nat :| ReachableIn(s, n);
    g := ReachableInInv(s, n);
  }

  // ---------------------------------------------------------------- the lists

  /** The owner holds p between two accesses: off the free list with the flag not yet cleared, or
      taken by shrink_to_fit. */
  predicate InHand(s: State, p: Addr) {
    s.owner == Popped(p) || p in ToDrop(s.owner)
  }

  /** In every reachable state the three chains are finite and duplicate-free, and the free and
      the pending one are disjoint. A page being pushed is in neither, is in nobody else's hands,
      and has one pusher. As long as the arena owns a page, its flag is set exactly when it is in
      one of the two chains, being pushed, or in the owner's hands. */
  lemma ListsAreSound(s: State) returns (free: seq<Addr>, pending: seq<Addr>, full: seq<Addr>)
    requires Reachable(s)
    ensures Chain(s.nextFree, FreeHead(s), free) && Chain(s.nextFree, s.pending, pending) && Chain(s.next, s.full, full)
    ensures NoDup(free) && NoDup(pending) && NoDup(full) && forall p | p in free :: p !in pending
    ensures forall t, p | Pushes(s, t, p) :: p !in free && p !in pending && !InHand(s, p)
    ensures forall t, u, p | Pushes(s, t, p) && Pushes(s, u, p) :: t == u
    ensures forall p | InHand(s, p) :: p !in free && p !in pending
    ensures !s.owner.Closed? ==> forall p | p in s.next && p !in s.released ::
              p in s.inFree && (s.inFree[p] <==> p in free || p in pending || Pushed(s, p) || InHand(s, p))
  {
    var g := ReachableInv(s);
    free, pending, full := g.free, g.pending, g.full;
    PushedElsewhere(s, g);
    HandsElsewhere(s, g);
    FlagsAreExact(s, g);
  }

  lemma PushedElsewhere(s: State, g: Lists)
    requires Pushers(s, g)
    ensures forall t, p | Pushes(s, t, p) :: p !in g.free && p !in g.pending && !InHand(s, p)
    ensures forall t, u, p | Pushes(s, t, p) && Pushes(s, u, p) :: t == u
  {
    forall t, p | Pushes(s, t, p)
      ensures p !in g.free && p !in g.pending && !InHand(s, p)
    {
      assert !Placed(s, g, p);
    }
  }

  lemma HandsElsewhere(s: State, g: Lists)
    requires Hands(s, g)
    ensures forall p | InHand(s, p) :: p !in g.free && p !in g.pending
  {
  }

  lemma FlagsAreExact(s: State, g: Lists)
    requires Flags(s, g)
    ensures !s.owner.Closed? ==> forall p | p in s.next && p !in s.released ::
              p in s.inFree && (s.inFree[p] <==> p in g.free || p in g.pending || Pushed(s, p) || InHand(s, p))
  {
    forall p | p in s.next && p !in s.released && !s.owner.Closed?
      ensures p in s.inFree && (s.inFree[p] <==> p in g.free || p in g.pending || Pushed(s, p) || InHand(s, p))
    {
      assert Known(s, p) && FlagInv(s, g, p);
    }
  }

  // ---------------------------------------------------------------- the assertions

  /** In no run does the assertion of alloc_new_page, the `expect` of shrink_to_fit or its final
      assertion fire, and no access of the owner or of a dropper strays off the allocated pages. */
  lemma NothingPanics(s: State)
    requires Reachable(s)
    ensures !s.owner.Panicked? && OwnerTouches(s)
    ensures forall t | t in s.droppers :: Known(s, s.droppers[t].page)
  {
    var g := ReachableInv(s);
    OwnerTouchesPages(s, g);
    forall t | t in s.droppers
      ensures Known(s, s.droppers[t].page)
    {
      KnownPage(s, s.droppers[t].page);
    }
  }

  lemma OwnerTouchesPages(s: State, g: Lists)
    requires Inv(s, g)
    ensures OwnerTouches(s)
  {
    hide MemInv, ListInv, Flags, Pushers, Hands, FullMembers, ShrunkTo, LoopInv;
    match s.owner
    case Scan => if s.freeList.Some? { HeadsListed(s, g); }
    case Exhausted(p) => HeadsListed(s, g);
    case Popped(p) => KnownPage(s, p);
    case FreeLoop(c, at) => FreeLoopTouches(s, g);
    case FullLoop(c, at) => FullLoopTouches(s, g);
    case DropCheck(_, toDrop, k) => if k < |toDrop| { TakenKnown(s, g, toDrop[k]); }
    case DropOne(_, toDrop, k) => TakenKnown(s, g, toDrop[k]);
    case Closing(current) => FullKnown(s, g);
    case _ =>
  }

  lemma HeadsListed(s: State, g: Lists)
    requires MemInv(s) && ListInv(s, g) && s.freeList.Some? && FreeHead(s) == s.freeList
    ensures Known(s, s.freeList.value)
  {
    KnownPage(s, g.free[0]);
  }

  lemma FullKnown(s: State, g: Lists)
    requires MemInv(s) && ListInv(s, g)
    ensures forall p | p in g.full :: Known(s, p)
  {
    forall p | p in g.full
      ensures Known(s, p)
    {
      var i :| 0 <= i < |g.full| && g.full[i] == p;
      KnownPage(s, p);
    }
  }

  lemma TakenKnown(s: State, g: Lists, p: Addr)
    requires MemInv(s) && ShrunkTo(s, g, |g.free0|) && p in ToDrop(s.owner)
    ensures Known(s, p)
  {
    KnownPage(s, p);
  }

  lemma FreeLoopTouches(s: State, g: Lists)
    requires MemInv(s) && ListInv(s, g) && OwnerInv(s, g) && s.owner.FreeLoop?
    ensures OwnerTouches(s)
  {
    hide ShrunkTo, LoopInv, MemInv;
    var c := s.owner.cursor;
    LoopCell(s.nextFree, c.start, g.free0, g.free, Elems(c.toDrop), g.n, c.prev);
    if c.prev.Some? {
      CursorKnown(s, c.prev.value);
    }
    if !s.owner.at.LoadCurrent? {
      CursorKnown(s, s.owner.at.page);
    }
  }

  lemma FullLoopTouches(s: State, g: Lists)
    requires MemInv(s) && ListInv(s, g) && OwnerInv(s, g) && s.owner.FullLoop?
    ensures OwnerTouches(s)
  {
    hide ShrunkTo, LoopInv, MemInv;
    var c := s.owner.cursor;
    LoopCell(s.next, s.full, g.full0, g.full, Elems(c.toDrop), g.n, c.prev);
    if c.prev.Some? {
      CursorKnown(s, c.prev.value);
    }
    if !s.owner.at.LoadCurrent? {
      CursorKnown(s, s.owner.at.page);
    }
  }

  lemma CursorKnown(s: State, p: Addr)
    requires MemInv(s) && (p in s.next || p in s.nextFree)
    ensures Known(s, p)
  {
    assert p in s.next.Keys;
  }

  /** Both compare-and-swaps of shrink_to_fit succeed whatever droppers do meanwhile: the first
      loop always takes the page it found unused, and the page is still unused. */
  lemma SwingsSucceed(s: State)
    requires Reachable(s)
    ensures s.owner.FreeLoop? && s.owner.at.Swing? ==>
              var p, s' := s.owner.at.page, ShrinkStepOf(s, FreeStep);
              p in s.held && s.held[p] == {} && ToDrop(s'.owner) == ToDrop(s.owner) + [p]
    ensures s.owner.FullLoop? && s.owner.at.Swing? ==> ShrinkStepOf(s, FullStep).owner == FullLoop(s.owner.cursor, LoadCurrent)
  {
    hide MemInv, ListInv, Flags, Pushers, Hands, OwnerInv, FullMembers;
    var g := ReachableInv(s);
    OwnerTouchesPages(s, g);
    if s.owner.FreeLoop? && s.owner.at.Swing? {
      FreeCell(s, g);
      SwingSucceeds(s, g);
    }
    if s.owner.FullLoop? && s.owner.at.Swing? {
      FullCell(s, g);
      ExpectHolds(s, g);
    }
  }

  function ShrinkStepOf(s: State, op: ShrinkOp): State {
    if OwnerTouches(s) && ShrinkEnabled(s, op) then ShrinkStep(s, op) else s
  }

  // ---------------------------------------------------------------- what shrink_to_fit does

  /** s' is reached n steps after shrink_to_fit was called in s, and it has not returned. */
  ghost predicate ShrinkRun(s: State, s': State, n: nat)
    decreases n
  {
    Shrinking(s'.owner) &&
    if n == 0 then s.owner.Idle? && s' == Apply(s, Shrink(BeginShrink))
    else exists s0 :: ShrinkRun(s, s0, n - 1) && Next(s0, s')
  }

  /** The lists as the running shrink_to_fit found them. */
  ghost predicate Remembers(s: State, g: Lists, s': State, g': Lists) {
    g'.free0 == g.free && g'.full0 == g.full && s'.next.Keys == s.next.Keys &&
    forall p :: p in g'.unused0 <==> p in g.free && p in s.held && s.held[p] == {}
  }

  lemma {:induction false} ShrinkRunInv(s: State, g: Lists, s': State, n: nat) returns (g': Lists)
    requires Inv(s, g) && ShrinkRun(s, s', n)
    ensures Inv(s', g') && Remembers(s, g, s', g')
    decreases n
  {
    hide Inv, Apply, Enabled, Follow, Remembers;
    if n == 0 {
      BeginEnabled(s);
      StepKeepsInv(s, g, Shrink(BeginShrink));
      g' := Follow(s, g, Shrink(BeginShrink));
      BeginRemembers(s, g);
    } else {
      var s0 :| ShrinkRun(s, s0, n - 1) && Next(s0, s');
      var g0 := ShrinkRunInv(s, g, s0, n - 1);
      var step :| Enabled(s0, step) && s' == Apply(s0, step);
      StepKeepsInv(s0, g0, step);
      g' := Follow(s0, g0, step);
      StepRemembers(s0, g0, step);
      StillRemembers(s, g, s0, g0, s', g');
    }
  }

  lemma BeginEnabled(s: State)
    requires s.owner.Idle?
    ensures Enabled(s, Shrink(BeginShrink))
  {
  }

  lemma BeginRemembers(s: State, g: Lists)
    requires s.owner.Idle?
    ensures Remembers(s, g, Apply(s, Shrink(BeginShrink)), Follow(s, g, Shrink(BeginShrink)))
  {
  }

  lemma StillRemembers(s: State, g: Lists, s0: State, g0: Lists, s': State, g': Lists)
    requires Remembers(s, g, s0, g0) && s'.next.Keys == s0.next.Keys
    requires g'.free0 == g0.free0 && g'.full0 == g0.full0 && g'.unused0 == g0.unused0
    ensures Remembers(s, g, s', g')
  {
  }

  lemma StepRemembers(s: State, g: Lists, step: Step)
    requires Shrinking(s.owner) && Enabled(s, step) && Inv(s, g)
    ensures var g' := Follow(s, g, step);
            g'.free0 == g.free0 && g'.full0 == g.full0 && g'.unused0 == g.unused0 && Apply(s, step).next.Keys == s.next.Keys
  {
    hide Inv, FollowShrink, ShrinkStep;
    match step
    case Find(op) =>
    case Shrink(op) => ShrinkRemembers(s, g, op);
    case GiveBack(t, p, block) =>
    case DropperStep(t) =>
  }

  lemma ShrinkRemembers(s: State, g: Lists, op: ShrinkOp)
    requires Shrinking(s.owner) && Enabled(s, Shrink(op)) && Inv(s, g)
    ensures var g' := FollowShrink(s, g, op);
            g'.free0 == g.free0 && g'.full0 == g.full0 && g'.unused0 == g.unused0 && ShrinkStep(s, op).next.Keys == s.next.Keys
  {
    hide Inv;
    if op.FullStep? {
      RelinksKnown(s, g);
    }
  }

  lemma RelinksKnown(s: State, g: Lists)
    requires Inv(s, g) && Enabled(s, Shrink(FullStep))
    ensures ShrinkStep(s, FullStep).next.Keys == s.next.Keys
  {
    hide MemInv, ListInv, Flags, Pushers, Hands, OwnerInv, FullMembers;
    if s.owner.at.Swing? {
      FullCell(s, g);
      ExpectHolds(s, g);
    }
  }

  /** shrink_to_fit, with remote drops interleaved anywhere, removes a set of pages from both
      lists and keeps the order of the rest. It removes only unused pages; of those that were
      unused when it was called, exactly the pages on the free list. It deallocates each removed
      page exactly once, and releases no other page. */
  lemma ShrinkFilters(s: State, s': State, n: nat)
      returns (free: seq<Addr>, full: seq<Addr>, removed: set<Addr>, after: State)
    requires Reachable(s) && ShrinkRun(s, s', n) && Enabled(s', Shrink(FinishShrink))
    ensures after == Apply(s', Shrink(FinishShrink)) && after.owner.Idle?
    ensures Chain(s.nextFree, s.freeList, free) && Chain(s.next, s.full, full)
    ensures Chain(after.nextFree, after.freeList, Without(free, removed)) && Chain(after.next, after.full, Without(full, removed))
    ensures forall p | p in full && p in s.held && s.held[p] == {} :: p in removed <==> p in free
    ensures forall p | p in removed :: p in free && p in full && p in after.held && after.held[p] == {}
    ensures forall p | p in removed :: p in s.deallocs && s.deallocs[p] == 0 && p in after.deallocs && after.deallocs[p] == 1
    ensures forall p | p in s.next && p !in removed :: p in after.released <==> p in s.released
    ensures after.npages == |Without(full, removed)|
  {
    hide Inv, Apply, FollowShrink, ShrinkStep, Chain, Enabled, ShrinkEnabled;
    var g := ReachableInv(s);
    ShrinkBegan(s, s', n);
    FinishReturns(s');
    var g' := ShrinkRunInv(s, g, s', n);
    after := Apply(s', Shrink(FinishShrink));
    free, full, removed := g.free, g.full, Elems(ToDrop(s'.owner));
    KeepsFinish(s', g');
    ChainsOf(s, g);
    ChainsOf(after, g');
    FinishedLists(s', g');
    FinishedPages(s, g, s', g');
    forall p | p in removed
      ensures p in after.held && after.held[p] == {} && p in after.deallocs && after.deallocs[p] == 1
    {
      assert p in ToDrop(s'.owner);
    }
  }

  lemma {:induction false} ShrinkBegan(s: State, s': State, n: nat)
    requires ShrinkRun(s, s', n)
    ensures s.owner.Idle?
    decreases n
  {
    hide Next, Shrinking;
    if n > 0 {
      var s0 :| ShrinkRun(s, s0, n - 1) && Next(s0, s');
      ShrinkBegan(s, s0, n - 1);
    }
  }

  lemma FinishReturns(s: State)
    requires Enabled(s, Shrink(FinishShrink))
    ensures OwnerTouches(s) && ShrinkEnabled(s, FinishShrink) && s.owner.Finishing?
    ensures var s' := ShrinkStep(s, FinishShrink);
            s' == Apply(s, Shrink(FinishShrink)) && s'.owner.Idle? &&
            s'.held == s.held && s'.deallocs == s.deallocs && s'.released == s.released
    ensures forall g :: FollowShrink(s, g, FinishShrink) == g
  {
  }

  lemma ChainsOf(s: State, g: Lists)
    requires Inv(s, g) && s.owner.Idle?
    ensures Chain(s.nextFree, s.freeList, g.free) && Chain(s.next, s.full, g.full) && s.npages == |g.full|
  {
    hide MemInv, Flags, Pushers, Hands;
  }

  lemma FinishedLists(s: State, g: Lists)
    requires Inv(s, g) && s.owner.Finishing?
    ensures g.free == Without(g.free0, Elems(ToDrop(s.owner))) && g.full == Without(g.full0, Elems(ToDrop(s.owner)))
  {
    hide MemInv, ListInv, Flags, Pushers, Hands, FullMembers, ShrunkTo;
  }

  lemma FinishedPages(s: State, g: Lists, s': State, g': Lists)
    requires Inv(s, g) && s.owner.Idle? && Inv(s', g') && Remembers(s, g, s', g') && s'.owner.Finishing?
    ensures forall p | p in g.free && p in s.held && s.held[p] == {} :: p in ToDrop(s'.owner)
    ensures forall p | p in ToDrop(s'.owner) :: p in g.free && p in g.full && p in s'.held && s'.held[p] == {}
    ensures forall p | p in ToDrop(s'.owner) :: p in s.deallocs && s.deallocs[p] == 0 && p in s'.deallocs && s'.deallocs[p] == 1
    ensures forall p | p in s.next && p !in ToDrop(s'.owner) :: p in s'.released <==> p in s.released
  {
    hide Inv;
    TakenPages(s', g');
    FinishedReleases(s', g');
    InvOwns(s, g);
    FilterMembers(g.full, ToDrop(s'.owner));
    forall p | p in ToDrop(s'.owner)
      ensures p in g.free && p in g.full && p in s.deallocs && s.deallocs[p] == 0 && p in s'.deallocs && s'.deallocs[p] == 1
    {
      DeallocsAre(s, g, p);
      DeallocsAre(s', g', p);
    }
  }

  lemma InvOwns(s: State, g: Lists)
    requires Inv(s, g) && s.owner.Idle?
    ensures forall p | p in s.next :: p in g.full <==> p !in s.released
  {
    hide MemInv, ListInv, Flags, Pushers, Hands;
  }

  lemma DeallocsAre(s: State, g: Lists, p: Addr)
    requires Inv(s, g) && p in s.next
    ensures Known(s, p) && s.deallocs[p] == if p in s.released && s.held[p] == {} then 1 else 0
  {
    hide ListInv, Flags, Pushers, Hands, OwnerInv, FullMembers;
    assert PageInv(s, p);
  }

  lemma TakenPages(s: State, g: Lists)
    requires Inv(s, g) && s.owner.Finishing?
    ensures forall p | p in g.unused0 && p in g.free0 :: p in ToDrop(s.owner)
    ensures forall p | p in ToDrop(s.owner) :: p in g.free0 && p in g.full0 && p in s.next && p in s.held && s.held[p] == {}
  {
    hide ListInv, Flags, Pushers, Hands, FullMembers, Shrunk;
    var toDrop := ToDrop(s.owner);
    FilterElems(g.free0[..|g.free0|], Elems(toDrop));
    forall p | p in toDrop
      ensures p in g.free0 && p in g.full0
    {
      assert p in Elems(Within(g.free0[..|g.free0|], Elems(toDrop)));
      assert p in Elems(g.free0[..|g.free0|]);
    }
    forall p | p in g.unused0 && p in g.free0
      ensures p in toDrop
    {
      var i: nat :| i < |g.free0| && g.free0[i] == p;
    }
  }

  lemma FinishedReleases(s: State, g: Lists)
    requires Inv(s, g) && s.owner.Finishing?
    ensures forall p | p in s.next :: p in Without(g.full0, Elems(ToDrop(s.owner))) <==> p !in s.released
  {
    hide MemInv, ListInv, Flags, Pushers, Hands, ShrunkTo;
    assert ToDrop(s.owner)[|ToDrop(s.owner)|..] == [];
  }

  // ---------------------------------------------------------------- deallocation

  /** No page is ever deallocated twice; a page is deallocated as soon as, and only if, the arena
      has let go of it and nothing in it is held. */
  lemma DeallocatedOnce(s: State, p: Addr)
    requires Reachable(s) && p in s.next
    ensures p in s.deallocs && p in s.held && s.deallocs[p] <= 1
    ensures s.deallocs[p] == 1 <==> p in s.released && s.held[p] == {}
  {
    var g := ReachableInv(s);
    DeallocsAre(s, g, p);
  }

  /** Once the arena has been dropped and every block given back, every page ever made has been
      deallocated, exactly once. */
  lemma NoLeak(s: State)
    requires Reachable(s) && s.owner.Closed? && forall p | p in s.held :: s.held[p] == {}
    ensures forall p | p in s.next :: p in s.deallocs && s.deallocs[p] == 1
  {
    var g := ReachableInv(s);
    hide Inv;
    ClosedReleases(s, g);
    forall p | p in s.next
      ensures p in s.deallocs && s.deallocs[p] == 1
    {
      DeallocsAre(s, g, p);
    }
  }

  lemma ClosedReleases(s: State, g: Lists)
    requires Inv(s, g) && s.owner.Closed?
    ensures forall p | p in s.next :: p in s.released
  {
    hide MemInv, ListInv, Flags, Pushers, Hands;
  }
}
