/** A page that shrink_to_fit misses. The documentation of Arena::shrink_to_fit (src/arena.rs:434-439)
    promises to drop every unused page; a page that waits on the pending list is not looked at.
    Here is a run that leads to one: fill the first page, let find_place make a second one, give
    all blocks of the first page back, and shrink. */
module ArenaMissed {
  import opened Options
  import opened Bitfield
  import opened Chains
  import opened ArenaLists
  import opened ArenaListsInv
  import opened ArenaRuns
  import opened ArenaProgress

  // ---------------------------------------------------------------- filling the first page

  /** One page, of which the first k blocks are in use. */
  function Filling(k: nat): State {
    State(map[0 := None], map[0 := None], map[0 := true], map[0 := IndicesBelow(k)], {}, map[0 := 0],
          Some(0), None, Some(0), 1, Idle, map[])
  }

  lemma OnePage()
    ensures var news: seq<Addr> := [0];
            NewLinks(news, None) == map[0 := None] && FillPages(news, true) == map[0 := true] &&
            FillPages<nat>(news, 0) == map[0 := 0] && FillPages<set<nat>>(news, {}) == map[0 := IndicesBelow(0)]
  {
    var news: seq<Addr> := [0];
    assert news[1..] == [];
    assert IndicesBelow(0) == {};
  }

  lemma FillingBegins()
    ensures Reachable(Filling(0))
  {
    hide NewLinks, FillPages;
    var news: seq<Addr> := [0];
    OnePage();
    var s := Fresh(news);
    assert s.nextFree == s.next == map[0 := None];
    assert s.inFree == map[0 := true];
    assert s.held == map[0 := IndicesBelow(0)];
    assert s.deallocs == map[0 := 0];
    assert Filling(0) == s;
    assert Init(Filling(0));
    assert ReachableIn(Filling(0), 0);
  }

  lemma FillingNext(k: nat)
    requires k < BLOCK_PER_PAGE && Reachable(Filling(k))
    ensures Reachable(Filling(k + 1))
  {
    hide Reachable;
    var s := Filling(k);
    var s1 := s.(owner := Scan);
    Reaches(s, Find(FindPlace), s1);
    assert IndicesBelow(k) + {k} == IndicesBelow(k + 1);
    assert Apply(s1, Find(Acquire(k))) == Filling(k + 1);
    Reaches(s1, Find(Acquire(k)), Filling(k + 1));
  }

  lemma {:induction false} FillingReached(k: nat)
    requires k <= BLOCK_PER_PAGE
    ensures Reachable(Filling(k))
  {
    hide Reachable;
    if k == 0 {
      FillingBegins();
    } else {
      FillingReached(k - 1);
      FillingNext(k - 1);
    }
  }

  // ---------------------------------------------------------------- the second page

  /** Two pages. The first is off the free list, with `held` in use, and flagged if pushed; one
      block of the second is in use. */
  function Two(held: set<nat>, pushed: bool): State {
    State(map[0 := None, 1 := None], map[0 := None, 1 := Some(0)], map[0 := pushed, 1 := true], map[0 := held, 1 := {0}], {},
          map[0 := 0, 1 := 0], Some(1), if pushed then Some(0) else None, Some(1), 2, Idle, map[])
  }

  /** The owner finds the first page full and takes it off the free list. */
  lemma FirstPageLeaves()
    ensures Reachable(Filling(BLOCK_PER_PAGE).(freeList := None, inFree := map[0 := false], owner := Scan))
  {
    hide Reachable;
    FillingReached(BLOCK_PER_PAGE);
    var s0 := Filling(BLOCK_PER_PAGE);
    assert IndicesBelow(BLOCK_PER_PAGE) == Indices();
    var s1 := s0.(owner := Scan);
    Reaches(s0, Find(FindPlace), s1);
    var s2 := s1.(owner := Exhausted(0));
    Reaches(s1, Find(AcquireFails), s2);
    var s3 := s2.(freeList := None, owner := Popped(0));
    Reaches(s2, Find(Pop), s3);
    Reaches(s3, Find(ClearFlag), s3.(inFree := map[0 := false], owner := Scan));
  }

  /** It finds nothing pending and makes a second page. */
  lemma SecondPage()
    ensures Reachable(Two(Indices(), false))
  {
    hide Reachable;
    FirstPageLeaves();
    var s4 := Filling(BLOCK_PER_PAGE).(freeList := None, inFree := map[0 := false], owner := Scan);
    var s5 := s4.(owner := ReadPending);
    Reaches(s4, Find(ScanEnds), s5);
    var s6 := s5.(owner := Growing);
    Reaches(s5, Find(LoadPending), s6);
    GrowSecond(s6);
    var s7 := Two(Indices(), false).(held := map[0 := Indices(), 1 := {}], owner := Scan);
    var one := s7.held[1] + {0};
    assert one == {0};
    assert s7.held[1 := one] == Two(Indices(), false).held;
    assert FindStep(s7, Acquire(0)) == Two(Indices(), false);
    Reaches(s7, Find(Acquire(0)), Two(Indices(), false));
  }

  lemma SecondLinks()
    ensures var news: seq<Addr> := [1];
            NewLinks(news, None) == map[1 := None] && NewLinks(news, Some(0)) == map[1 := Some(0)] && FillPages(news, true) == map[1 := true] &&
            FillPages<nat>(news, 0) == map[1 := 0] && FillPages<set<nat>>(news, {}) == map[1 := {}]
  {
    var news: seq<Addr> := [1];
    assert news[1..] == [];
  }

  lemma GrowSecond(s: State)
    requires Reachable(s) && s == Filling(BLOCK_PER_PAGE).(freeList := None, inFree := map[0 := false], owner := Growing)
    ensures Reachable(Two(Indices(), false).(held := map[0 := Indices(), 1 := {}], owner := Scan))
  {
    hide Reachable, FindStep;
    var news: seq<Addr> := [1];
    GrowsTo(s, news);
    Reaches(s, Find(Grow(news)), Two(Indices(), false).(held := map[0 := Indices(), 1 := {}], owner := Scan));
  }

  lemma GrowsTo(s: State, news: seq<Addr>)
    requires s == Filling(BLOCK_PER_PAGE).(freeList := None, inFree := map[0 := false], owner := Growing) && news == [1]
    ensures Enabled(s, Find(Grow(news)))
    ensures FindStep(s, Grow(news)) == Two(Indices(), false).(held := map[0 := Indices(), 1 := {}], owner := Scan)
  {
    hide NewLinks, FillPages;
    SecondLinks();
    assert IndicesBelow(BLOCK_PER_PAGE) == Indices();
    hide IndicesBelow, Indices;
    TwoPages(s.next, None, map[1 := Some(0)], Some(0));
    TwoPages(s.nextFree, None, map[1 := None], None);
    TwoPages(s.inFree, false, map[1 := true], true);
    TwoPages(s.held, Indices(), map[1 := {}], {});
    TwoPages(s.deallocs, 0, map[1 := 0], 0);
  }

  lemma TwoPages<V>(first: map<Addr, V>, v: V, second: map<Addr, V>, w: V)
    requires first == map[0 := v] && second == map[1 := w]
    ensures first + second == map[0 := v, 1 := w]
  {
  }

  // ---------------------------------------------------------------- giving the first page back

  /** The thread that gives the first block back wins the flag. */
  lemma FirstWins()
    ensures Reachable(Two(Indices() - {0}, false).(inFree := map[0 := true, 1 := true], droppers := map[0 := Upgrade(0)]))
  {
    hide Reachable;
    SecondPage();
    var s0 := Two(Indices(), false);
    var rest := Indices() - {0};
    assert 0 in Indices() && 1 in rest;
    var s1 := Two(rest, false).(droppers := map[0 := LoadFlag(0)]);
    assert GiveBackStep(s0, 0, 0, 0) == s1;
    Reaches(s0, GiveBack(0, 0, 0), s1);
    var s2 := s1.(droppers := map[0 := SwapFlag(0)]);
    Reaches(s1, DropperStep(0), s2);
    var s3 := s2.(inFree := map[0 := true, 1 := true], droppers := map[0 := Upgrade(0)]);
    assert DropStepOf(s2, 0) == s3;
    Reaches(s2, DropperStep(0), s3);
  }

  /** A thread that has won the flag pushes the page, nobody else at work. */
  lemma Publishes(s: State, t: ThreadId, p: Addr)
    requires Reachable(s) && !s.owner.Closed? && t in s.droppers && s.droppers[t] == Upgrade(p) && Known(s, p)
    ensures Reachable(s.(nextFree := s.nextFree[p := s.pending], pending := Some(p), droppers := s.droppers - {t}))
  {
    hide Reachable;
    var s1 := s.(droppers := s.droppers[t := LoadHead(p)]);
    Reaches(s, DropperStep(t), s1);
    var s2 := s.(droppers := s.droppers[t := StoreNext(p, s.pending)]);
    assert s1.droppers[t := StoreNext(p, s.pending)] == s2.droppers;
    Reaches(s1, DropperStep(t), s2);
    var s3 := s.(nextFree := s.nextFree[p := s.pending], droppers := s.droppers[t := CasHead(p, s.pending)]);
    assert s2.droppers[t := CasHead(p, s.pending)] == s3.droppers;
    Reaches(s2, DropperStep(t), s3);
    assert s3.droppers - {t} == s.droppers - {t};
    Reaches(s3, DropperStep(t), s3.(pending := Some(p), droppers := s.droppers - {t}));
  }

  /** It puts the page on the pending list. */
  lemma FirstDrop()
    ensures Reachable(Two(Indices() - {0}, true))
  {
    hide Reachable;
    FirstWins();
    var s := Two(Indices() - {0}, false).(inFree := map[0 := true, 1 := true], droppers := map[0 := Upgrade(0)]);
    Publishes(s, 0, 0);
    assert s.nextFree[0 := None] == s.nextFree;
    assert s.droppers - {0} == map[];
  }

  /** A block given back to a page whose flag is set: the thread stops at its first look. */
  lemma GivesBack(s: State, p: Addr, t: ThreadId, i: nat)
    requires Reachable(s) && Known(s, p) && s.inFree[p] && p !in s.released && t !in s.droppers && i in s.held[p]
    ensures Reachable(s.(held := s.held[p := s.held[p] - {i}]))
  {
    hide Reachable;
    var s1 := s.(held := s.held[p := s.held[p] - {i}]);
    var s2 := s1.(droppers := s.droppers[t := LoadFlag(p)]);
    Reaches(s, GiveBack(t, p, i), s2);
    assert s2.droppers - {t} == s.droppers;
    Reaches(s2, DropperStep(t), s1);
  }

  /** The blocks from the j-th up to the k-th are given back, one by one. */
  lemma {:induction false} Drains(s: State, p: Addr, t: ThreadId, j: nat, k: nat)
    requires Reachable(s) && Known(s, p) && s.inFree[p] && p !in s.released && t !in s.droppers
    requires j <= k <= BLOCK_PER_PAGE && s.held[p] == Indices() - IndicesBelow(j)
    ensures Reachable(s.(held := s.held[p := Indices() - IndicesBelow(k)]))
  {
    hide Reachable;
    if j == k {
      assert s.held[p := s.held[p]] == s.held;
    } else {
      Drains(s, p, t, j, k - 1);
      assert IsIndex(k - 1);
      assert (Indices() - IndicesBelow(k - 1)) - {k - 1} == Indices() - IndicesBelow(k);
      var s' := s.(held := s.held[p := Indices() - IndicesBelow(k - 1)]);
      assert s'.held[p := Indices() - IndicesBelow(k)] == s.held[p := Indices() - IndicesBelow(k)];
      GivesBack(s', p, t, k - 1);
    }
  }

  /** All blocks of the first page have been given back. */
  lemma AllDropped()
    ensures Reachable(Two({}, true))
  {
    hide Reachable;
    FirstDrop();
    assert IndicesBelow(1) == {0} && Indices() - IndicesBelow(BLOCK_PER_PAGE) == {};
    var s := Two(Indices() - {0}, true);
    Drains(s, 0, 0, 1, BLOCK_PER_PAGE);
    assert s.held[0 := {}] == Two({}, true).held;
  }

  /** A page of the full list that shrink_to_fit did not find on the free list is not released by
      it, at any point of its run. */
  lemma UntakenStays(s: State, g: Lists, p: Addr)
    requires Inv(s, g) && Shrinking(s.owner) && p in g.full0 && p !in g.free0 && p in s.next
    ensures p !in s.released
  {
    hide MemInv, ListInv, Flags, Pushers, Hands, LoopInv;
    TakenFromFree(s, g);
    FilterMembers(g.full0, ToDrop(s.owner));
  }

  /** shrink_to_fit takes its pages from the free list. */
  lemma TakenFromFree(s: State, g: Lists)
    requires OwnerInv(s, g) && Shrinking(s.owner)
    ensures forall p | p in ToDrop(s.owner) :: p in g.free0
  {
    hide LoopInv, LocInv, Shrunk;
    var n := if s.owner.FreeLoop? then g.n else |g.free0|;
    var toDrop := ToDrop(s.owner);
    FilterElems(g.free0[..n], Elems(toDrop));
    forall p | p in toDrop
      ensures p in g.free0
    {
      assert p in Elems(Within(g.free0[..n], Elems(toDrop)));
      assert p in Elems(g.free0[..n]);
    }
  }

  /** The arena is idle and owns a page without a block in use, which is on no list but the
      pending one; whatever run of shrink_to_fit follows, with or without droppers at work, does
      not let the page go at any point, nor when it returns. */
  lemma ShrinkMissesPending(s': State, n: nat)
    requires ShrinkRun(Two({}, true), s', n)
    ensures Reachable(Two({}, true)) && Two({}, true).owner.Idle? && Two({}, true).held[0] == {}
    ensures 0 in s'.next && 0 !in s'.released
    ensures Enabled(s', Shrink(FinishShrink)) ==> 0 !in Apply(s', Shrink(FinishShrink)).released
  {
    hide Reachable, ShrinkRun, Inv;
    var s := Two({}, true);
    AllDropped();
    var g := ReachableInv(s);
    ChainsOf(s, g);
    assert Chain(s.nextFree, s.freeList, [1]) && Chain(s.next, s.full, [1, 0]);
    ChainUnique(s.nextFree, s.freeList, g.free, [1]);
    ChainUnique(s.next, s.full, g.full, [1, 0]);
    var g' := ShrinkRunInv(s, g, s', n);
    RunShrinks(s, s', n);
    UntakenStays(s', g', 0);
  }

  /** And such a run exists: shrink_to_fit, left alone, returns. */
  lemma ShrinkReturns() returns (end: State, n: nat)
    ensures ShrinkRun(Two({}, true), end, n) && Enabled(end, Shrink(FinishShrink))
  {
    hide Reachable, ShrinkRun, Enabled, Apply;
    AllDropped();
    end, n := RunsAlone(Two({}, true));
  }
}
