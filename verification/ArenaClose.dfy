/** The second loop of shrink_to_fit, the release of the pages it took, and Arena::drop: every
    access keeps the invariant of the Arena's lists. */
module ArenaClose {
  import opened Chains
  import opened ArenaLists
  import opened ArenaListsInv
  import opened ArenaDroppers
  import opened ArenaShrink

  // ---------------------------------------------------------------- the second loop

  lemma FullCell(s: State, g: Lists)
    requires ListInv(s, g) && OwnerInv(s, g) && s.owner.FullLoop?
    ensures Cell(s.next, s.full, s.owner.cursor.prev, At(g.full0, g.n))
    ensures g.n <= |g.full0|
  {
    var c := s.owner.cursor;
    LoopCell(s.next, s.full, g.full0, g.full, Elems(c.toDrop), g.n, c.prev);
  }

  lemma KeepsFullLoad(s: State, g: Lists)
    requires Inv(s, g) && Enabled(s, Shrink(FullStep)) && s.owner.at.LoadCurrent?
    ensures Inv(ShrinkStep(s, FullStep), FollowShrink(s, g, FullStep))
  {
    hide MemInv, ListInv, Flags, Pushers, Hands, OwnerInv, FullMembers;
    FullCell(s, g);
    if g.n == |g.full0| {
      FullLoopEnds(s, g);
    } else {
      FullLoads(s, g);
    }
    MovesOwner(s, g, ShrinkStep(s, FullStep).owner, g);
  }

  lemma FullLoads(s: State, g: Lists)
    requires OwnerInv(s, g) && FullMembers(s, g) && s.owner.FullLoop? && g.n < |g.full0|
    ensures var s' := s.(owner := FullLoop(s.owner.cursor, LoadNext(g.full0[g.n])));
            OwnerInv(s', g) && FullMembers(s', g)
  {
    hide ShrunkTo, LoopInv;
    ShrunkFrame(s, s.(owner := FullLoop(s.owner.cursor, LoadNext(g.full0[g.n]))), g, |g.free0|);
  }

  lemma FullLoopEnds(s: State, g: Lists)
    requires OwnerInv(s, g) && FullMembers(s, g) && Hands(s, g) && s.owner.FullLoop? && g.n == |g.full0|
    ensures var s' := s.(owner := DropCheck(s.owner.cursor.start, s.owner.cursor.toDrop, 0));
            OwnerInv(s', g) && FullMembers(s', g)
  {
    hide ShrunkTo, LoopInv;
    var c := s.owner.cursor;
    var s' := s.(owner := DropCheck(c.start, c.toDrop, 0));
    LoopEnds(g.full0, g.full, Elems(c.toDrop), c.prev);
    ShrunkFrame(s, s', g, |g.free0|);
    TakenAreFull(s, g, c.toDrop);
    FilterCounts(g.full0, c.toDrop);
    assert c.toDrop[0..] == c.toDrop;
    FilterMembers(g.full0, c.toDrop);
  }

  /** The pages taken off the free list are on the full list. */
  lemma TakenAreFull(s: State, g: Lists, toDrop: seq<Addr>)
    requires ShrunkTo(s, g, |g.free0|) && ToDrop(s.owner) == toDrop && Hands(s, g)
    ensures NoDup(g.full0) && NoDup(toDrop) && forall p | p in toDrop :: p in g.full0
  {
    FilterElems(g.free0[..|g.free0|], Elems(toDrop));
    forall p | p in toDrop
      ensures p in g.full0
    {
      assert p in Elems(Within(g.free0[..|g.free0|], Elems(toDrop)));
      assert p in Elems(g.free0[..|g.free0|]);
      assert p in g.free0;
    }
  }

  lemma KeepsFullNext(s: State, g: Lists)
    requires Inv(s, g) && Enabled(s, Shrink(FullStep)) && s.owner.at.LoadNext?
    ensures Inv(ShrinkStep(s, FullStep), FollowShrink(s, g, FullStep))
  {
    hide MemInv, ListInv, Flags, Pushers, Hands;
    MovesOwner(s, g, ShrinkStep(s, FullStep).owner, g);
  }

  lemma KeepsFullTest(s: State, g: Lists)
    requires Inv(s, g) && Enabled(s, Shrink(FullStep)) && s.owner.at.Test?
    ensures Inv(ShrinkStep(s, FullStep), FollowShrink(s, g, FullStep))
  {
    hide MemInv, ListInv, Flags, Pushers, Hands, OwnerInv, FullMembers;
    var s', g' := ShrinkStep(s, FullStep), FollowShrink(s, g, FullStep);
    FullTestOwner(s, g);
    MovesOwner(s, g, s'.owner, g');
  }

  lemma FullTestOwner(s: State, g: Lists)
    requires OwnerInv(s, g) && FullMembers(s, g)
    requires Enabled(s, Shrink(FullStep)) && s.owner.FullLoop? && s.owner.at.Test?
    ensures var s', g' := ShrinkStep(s, FullStep), FollowShrink(s, g, FullStep);
            OwnerInv(s', g') && FullMembers(s', g')
  {
    hide LoopInv, ShrunkTo;
    var c, p := s.owner.cursor, s.owner.at.page;
    var s', g' := ShrinkStep(s, FullStep), FollowShrink(s, g, FullStep);
    ShrunkFrame(s, s', g, |g.free0|);
    if p !in c.toDrop {
      LoopKeeps(g.full0, g.full, Elems(c.toDrop), g.n, c.prev);
      SameShrunk(s', g, g', |g.free0|);
    }
  }

  /** The state after the compare-and-swap of the second loop. */
  ghost predicate SwungFull(s: State, g: Lists, s': State) {
    s.owner.FullLoop? && s.owner.at.Swing? &&
    var c, p := s.owner.cursor, s.owner.at.page;
    s' == s.(next := s'.next, full := s'.full, owner := FullLoop(c, LoadCurrent)) &&
    g.n < |g.full0| && p == g.full0[g.n] && p in s.next && p in c.toDrop &&
    if c.prev.None? then s'.next == s.next && s'.full == s.next[p]
    else c.prev.value in s.next && s'.next == s.next[c.prev.value := s.next[p]] && s'.full == s.full
  }

  /** The `expect` of the second loop never fires. */
  lemma ExpectHolds(s: State, g: Lists)
    requires OwnerInv(s, g) && s.owner.FullLoop? && s.owner.at.Swing? && OwnerTouches(s)
    requires Cell(s.next, s.full, s.owner.cursor.prev, At(g.full0, g.n))
    ensures SwungFull(s, g, ShrinkStep(s, FullStep))
  {
    hide LoopInv, ShrunkTo;
  }

  lemma KeepsFullSwing(s: State, g: Lists)
    requires Inv(s, g) && Enabled(s, Shrink(FullStep)) && s.owner.at.Swing?
    ensures Inv(ShrinkStep(s, FullStep), FollowShrink(s, g, FullStep))
  {
    hide MemInv, ListInv, Flags, Pushers, Hands, OwnerInv, FullMembers, SwungFull, LoopInv;
    FullCell(s, g);
    ExpectHolds(s, g);
    SwungFullKeeps(s, g, ShrinkStep(s, FullStep), FollowShrink(s, g, FullStep));
  }

  lemma SwungFullKeeps(s: State, g: Lists, s': State, g': Lists)
    requires Inv(s, g) && SwungFull(s, g, s')
    requires g' == g.(full := Unlinked(g, g.full0, g.full, Elems(s.owner.cursor.toDrop)), n := g.n + 1)
    ensures Inv(s', g')
  {
    hide MemInv, ListInv, Flags, Pushers, Hands, OwnerInv, FullMembers, Unlinked;
    SwungFullLists(s, g, s', g');
    RelinkedRest(s, g, s', g');
    SwungFullOwner(s, g, s', g');
    SwungFullMembers(s, g, s', g');
  }

  lemma SwungFullMembers(s: State, g: Lists, s': State, g': Lists)
    requires FullMembers(s, g) && SwungFull(s, g, s') && g' == g.(full := g'.full, n := g'.n)
    ensures FullMembers(s', g')
  {
  }

  lemma SwungFullLists(s: State, g: Lists, s': State, g': Lists)
    requires ListInv(s, g) && OwnerInv(s, g) && SwungFull(s, g, s')
    requires g' == g.(full := Unlinked(g, g.full0, g.full, Elems(s.owner.cursor.toDrop)), n := g.n + 1)
    ensures ListInv(s', g') && s'.next.Keys == s.next.Keys
  {
    hide ShrunkTo, LoopInv, Unlinked, ListInv;
    var c := s.owner.cursor;
    assert LoopInv(g.full0, g.full, Elems(c.toDrop), g.n, c.prev);
    SwungFullChain(s, g, s', g'.full);
    RelinkedLists(s, g, s', g');
  }

  lemma SwungFullChain(s: State, g: Lists, s': State, full: seq<Addr>)
    requires ListInv(s, g) && s.owner.FullLoop? && s.owner.at.Swing? && SwungFull(s, g, s')
    requires LoopInv(g.full0, g.full, Elems(s.owner.cursor.toDrop), g.n, s.owner.cursor.prev)
    requires full == Unlinked(g, g.full0, g.full, Elems(s.owner.cursor.toDrop))
    ensures Chain(s'.next, s'.full, full) && NoDup(full) && s'.next.Keys == s.next.Keys
  {
    hide LoopInv;
    var c := s.owner.cursor;
    LoopChain(s.next, s.full, g.full0, g.full, Elems(c.toDrop), g.n, c.prev, s'.next, s'.full);
  }

  lemma RelinkedLists(s: State, g: Lists, s': State, g': Lists)
    requires ListInv(s, g) && s.owner.FullLoop? && s'.owner == FullLoop(s.owner.cursor, LoadCurrent)
    requires s' == s.(next := s'.next, full := s'.full, owner := s'.owner) && g' == g.(full := g'.full, n := g'.n)
    requires Chain(s'.next, s'.full, g'.full) && NoDup(g'.full)
    ensures ListInv(s', g')
  {
  }

  /** Only links of the full list changed. */
  lemma RelinkedRest(s: State, g: Lists, s': State, g': Lists)
    requires MemInv(s) && Flags(s, g) && Pushers(s, g) && Hands(s, g) && s.owner.FullLoop? && s'.owner.FullLoop?
    requires s' == s.(next := s'.next, full := s'.full, owner := s'.owner) && s'.next.Keys == s.next.Keys
    requires ToDrop(s'.owner) == ToDrop(s.owner) && g' == g.(full := g'.full, n := g'.n)
    ensures MemInv(s') && Flags(s', g') && Pushers(s', g') && Hands(s', g')
  {
    assert SamePushes(s, s');
    forall q | q in s'.next
      ensures Known(s', q) && PageInv(s', q) && FlagInv(s', g', q)
    {
      SamePushed(s, s', q);
      assert Known(s, q) && PageInv(s, q) && FlagInv(s, g, q);
    }
    forall t, p | Pushes(s', t, p)
      ensures !Placed(s', g', p)
    {
      assert Pushes(s, t, p);
    }
  }

  lemma SwungFullOwner(s: State, g: Lists, s': State, g': Lists)
    requires OwnerInv(s, g) && SwungFull(s, g, s')
    requires g' == g.(full := Unlinked(g, g.full0, g.full, Elems(s.owner.cursor.toDrop)), n := g.n + 1)
    ensures OwnerInv(s', g')
  {
    hide LoopInv, ShrunkTo;
    var c, p := s.owner.cursor, s.owner.at.page;
    FullNoDup(s, g);
    LoopUnlinks(g.full0, g.full, Elems(c.toDrop), g.n, c.prev);
    assert Elems(c.toDrop) + {p} == Elems(c.toDrop);
    ShrunkFrame(s, s', g, |g.free0|);
    SameShrunk(s', g, g.(n := g.n + 1), |g.free0|);
    ShrunkIgnoresFull(s', g.(n := g.n + 1), g');
  }

  lemma FullNoDup(s: State, g: Lists)
    requires ShrunkTo(s, g, |g.free0|)
    ensures NoDup(g.full0)
  {
  }

  lemma ShrunkIgnoresFull(s: State, g: Lists, g': Lists)
    requires ShrunkTo(s, g, |g.free0|) && g' == g.(full := g'.full)
    ensures ShrunkTo(s, g', |g.free0|)
  {
  }

  lemma KeepsFullStep(s: State, g: Lists)
    requires Inv(s, g) && Enabled(s, Shrink(FullStep))
    ensures Inv(ShrinkStep(s, FullStep), FollowShrink(s, g, FullStep))
  {
    hide Inv;
    match s.owner.at
    case LoadCurrent => KeepsFullLoad(s, g);
    case LoadNext(_) => KeepsFullNext(s, g);
    case Test(_, _) => KeepsFullTest(s, g);
    case Swing(_, _) => KeepsFullSwing(s, g);
  }

  // ---------------------------------------------------------------- letting the pages go

  /** The assertion before drop_page never fires: the pages taken are still unused. */
  lemma KeepsCheck(s: State, g: Lists)
    requires Inv(s, g) && Enabled(s, Shrink(CheckStep))
    ensures Inv(ShrinkStep(s, CheckStep), FollowShrink(s, g, CheckStep))
  {
    hide MemInv, ListInv, Flags, Pushers, Hands, FullMembers, OwnerInv;
    CheckOwner(s, g);
    hide ShrinkStep;
    MovesOwner(s, g, ShrinkStep(s, CheckStep).owner, g);
  }

  lemma CheckOwner(s: State, g: Lists)
    requires OwnerInv(s, g) && FullMembers(s, g) && Enabled(s, Shrink(CheckStep))
    ensures var s' := ShrinkStep(s, CheckStep);
            OwnerInv(s', g) && FullMembers(s', g) && SameHands(s, s'.owner) && s' == s.(owner := s'.owner)
  {
    hide OwnerInv, FullMembers;
    CheckPasses(s, g);
    CheckMoves(s, g, ShrinkStep(s, CheckStep).owner);
  }

  lemma CheckPasses(s: State, g: Lists)
    requires OwnerInv(s, g) && FullMembers(s, g) && s.owner.DropCheck?
    ensures s.owner.k <= |s.owner.toDrop|
    ensures s.owner.k < |s.owner.toDrop| ==> var p := s.owner.toDrop[s.owner.k]; p in s.held && s.held[p] == {}
  {
    hide ShrunkTo;
    if s.owner.k < |s.owner.toDrop| {
      TakenUnused(s, g, s.owner.toDrop[s.owner.k]);
    }
  }

  lemma CheckMoves(s: State, g: Lists, o: Owner)
    requires OwnerInv(s, g) && FullMembers(s, g) && s.owner.DropCheck?
    requires var start, toDrop, k := s.owner.start, s.owner.toDrop, s.owner.k;
             if k == |toDrop| then o == Finishing(start, toDrop) else k < |toDrop| && o == DropOne(start, toDrop, k)
    ensures OwnerInv(s.(owner := o), g) && FullMembers(s.(owner := o), g)
  {
    hide ShrunkTo;
    ShrunkFrame(s, s.(owner := o), g, |g.free0|);
  }

  lemma TakenUnused(s: State, g: Lists, p: Addr)
    requires ShrunkTo(s, g, |g.free0|) && p in ToDrop(s.owner)
    ensures p in s.held && s.held[p] == {}
  {
  }

  lemma KeepsDrop(s: State, g: Lists)
    requires Inv(s, g) && Enabled(s, Shrink(DropStep))
    ensures Inv(ShrinkStep(s, DropStep), FollowShrink(s, g, DropStep))
  {
    hide MemInv, ListInv, Flags, Pushers, Hands, FullMembers, OwnerInv;
    var s' := ShrinkStep(s, DropStep);
    var k, toDrop := s.owner.k, s.owner.toDrop;
    DropMembers(s, g);
    ReleaseMem(s, toDrop[k], s');
    DropFlags(s, g, toDrop[k], s');
    MovesLists(s, g, s'.owner, g);
    MovesRest(s, g, s'.owner, g);
    ReleasedRest(s.(owner := s'.owner), s', g);
  }

  lemma ReleasedRest(s: State, s': State, g: Lists)
    requires ListInv(s, g) && Pushers(s, g) && Hands(s, g)
    requires s' == s.(released := s'.released, deallocs := s'.deallocs)
    ensures ListInv(s', g) && Pushers(s', g) && Hands(s', g)
  {
    assert SamePushes(s, s');
  }

  lemma DropMembers(s: State, g: Lists)
    requires OwnerInv(s, g) && FullMembers(s, g) && Hands(s, g) && Enabled(s, Shrink(DropStep))
    ensures OwnerInv(ShrinkStep(s, DropStep), g) && FullMembers(ShrinkStep(s, DropStep), g)
    ensures var p := s.owner.toDrop[s.owner.k]; p !in s.released && p in s.next && s.held[p] == {}
  {
    hide ShrunkTo;
    var k, toDrop := s.owner.k, s.owner.toDrop;
    TakenUnused(s, g, toDrop[k]);
    ShrunkFrame(s, ShrinkStep(s, DropStep), g, |g.free0|);
    TailSplits(toDrop, k);
  }

  /** The first release of a page deallocates it if and only if nothing is held in it. */
  lemma ReleaseMem(s: State, p: Addr, s': State)
    requires MemInv(s) && p in s.next && p !in s.released && Known(s, p)
    requires s' == DropPage(s, p).(owner := s'.owner)
    ensures MemInv(s')
  {
    forall q | q in s'.next
      ensures Known(s', q) && PageInv(s', q)
    {
      assert Known(s, q) && PageInv(s, q);
    }
  }

  lemma DropFlags(s: State, g: Lists, p: Addr, s': State)
    requires Flags(s, g) && Pushers(s, g) && Hands(s, g) && s.owner.DropOne? && s'.owner.DropCheck?
    requires Known(s, p) && p in ToDrop(s.owner) && ToDrop(s'.owner) == ToDrop(s.owner) && s.held[p] == {}
    requires s' == DropPage(s, p).(owner := s'.owner)
    ensures Flags(s', g)
  {
    forall q | q in s'.next
      ensures Known(s', q) && FlagInv(s', g, q)
    {
      SamePushed(s, s', q);
      assert Known(s, q) && FlagInv(s, g, q);
      assert Placed(s', g, q) <==> Placed(s, g, q);
    }
  }

  lemma KeepsFinish(s: State, g: Lists)
    requires Inv(s, g) && Enabled(s, Shrink(FinishShrink))
    ensures Inv(ShrinkStep(s, FinishShrink), FollowShrink(s, g, FinishShrink))
  {
    hide MemInv, ListInv, Flags, Pushers, Hands, FullMembers, OwnerInv;
    var s' := ShrinkStep(s, FinishShrink);
    FinishMembers(s, g);
    MemFrame(s, s');
    FinishLists(s, g);
    FinishFlags(s, g);
  }

  lemma FinishMembers(s: State, g: Lists)
    requires OwnerInv(s, g) && FullMembers(s, g) && Enabled(s, Shrink(FinishShrink)) && MemInv(s)
    ensures OwnerInv(ShrinkStep(s, FinishShrink), g) && FullMembers(ShrinkStep(s, FinishShrink), g)
    ensures forall p | p in s.owner.toDrop :: p in s.released
  {
    var toDrop := s.owner.toDrop;
    assert toDrop[|toDrop|..] == [];
  }

  lemma FinishLists(s: State, g: Lists)
    requires ListInv(s, g) && Hands(s, g) && Pushers(s, g) && Enabled(s, Shrink(FinishShrink))
    ensures var s' := ShrinkStep(s, FinishShrink); ListInv(s', g) && Hands(s', g) && Pushers(s', g)
  {
    assert SamePushes(s, ShrinkStep(s, FinishShrink));
  }

  lemma FinishFlags(s: State, g: Lists)
    requires Flags(s, g) && Enabled(s, Shrink(FinishShrink))
    requires forall p | p in s.owner.toDrop :: p in s.released
    ensures Flags(ShrinkStep(s, FinishShrink), g)
  {
    var s' := ShrinkStep(s, FinishShrink);
    forall q | q in s'.next
      ensures Known(s', q) && FlagInv(s', g, q)
    {
      SamePushed(s, s', q);
      assert Known(s, q) && FlagInv(s, g, q);
    }
  }

  // ---------------------------------------------------------------- Arena::drop

  lemma KeepsBeginClose(s: State, g: Lists)
    requires Inv(s, g) && Enabled(s, Shrink(BeginClose))
    ensures Inv(ShrinkStep(s, BeginClose), FollowShrink(s, g, BeginClose))
  {
    hide MemInv, ListInv, Flags, Pushers, Hands, FullMembers, OwnerInv;
    var s', g' := ShrinkStep(s, BeginClose), FollowShrink(s, g, BeginClose);
    MemFrame(s, s');
    CloseLists(s, g, s', g');
    EndingFlags(s, g, s', g');
    ClosingMembers(s, g);
  }

  lemma ClosingMembers(s: State, g: Lists)
    requires ListInv(s, g) && FullMembers(s, g) && Enabled(s, Shrink(BeginClose))
    ensures var s', g' := ShrinkStep(s, BeginClose), FollowShrink(s, g, BeginClose); OwnerInv(s', g') && FullMembers(s', g')
  {
    assert g.full[0..] == g.full;
  }

  /** Once Arena::drop has begun, nothing is asked any more of pages that were let go. */
  lemma EndingFlags(s: State, g: Lists, s': State, g': Lists)
    requires Flags(s, g) && Pushers(s, g) && (s.owner.Idle? || s.owner.Closing?) && Ending(s'.owner)
    requires s' == s.(released := s'.released, deallocs := s'.deallocs, owner := s'.owner) && s.released <= s'.released
    requires s'.deallocs.Keys == s.deallocs.Keys && g' == g.(n := g'.n)
    ensures Flags(s', g') && Pushers(s', g')
  {
    assert SamePushes(s, s');
    forall q | q in s'.next
      ensures Known(s', q) && FlagInv(s', g', q)
    {
      SamePushed(s, s', q);
      assert Known(s, q) && FlagInv(s, g, q);
    }
    forall t, p | Pushes(s', t, p)
      ensures !Placed(s', g', p)
    {
      assert Pushes(s, t, p);
    }
  }

  lemma KeepsClose(s: State, g: Lists)
    requires Inv(s, g) && Enabled(s, Shrink(CloseStep))
    ensures Inv(ShrinkStep(s, CloseStep), FollowShrink(s, g, CloseStep))
  {
    hide MemInv, ListInv, Flags, Pushers, Hands, FullMembers, OwnerInv;
    var s', g' := ShrinkStep(s, CloseStep), FollowShrink(s, g, CloseStep);
    CloseMembers(s, g);
    if s.owner.current.Some? {
      ReleaseMem(s, s.owner.current.value, s');
    } else {
      MemFrame(s, s');
    }
    CloseLists(s, g, s', g');
    EndingFlags(s, g, s', g');
  }

  lemma CloseLists(s: State, g: Lists, s': State, g': Lists)
    requires ListInv(s, g) && Hands(s, g) && (s.owner.Idle? || s.owner.Closing?) && Ending(s'.owner)
    requires s' == s.(released := s'.released, deallocs := s'.deallocs, owner := s'.owner) && g' == g.(n := g'.n)
    ensures ListInv(s', g') && Hands(s', g')
  {
  }

  lemma CloseMembers(s: State, g: Lists)
    requires OwnerInv(s, g) && FullMembers(s, g) && ListInv(s, g) && Enabled(s, Shrink(CloseStep)) && MemInv(s)
    ensures var s', g' := ShrinkStep(s, CloseStep), FollowShrink(s, g, CloseStep);
            OwnerInv(s', g') && FullMembers(s', g')
    ensures s.owner.current.Some? ==> s.owner.current.value in s.next && s.owner.current.value !in s.released
  {
    hide ListInv, MemInv;
    if s.owner.current.Some? {
      var p, n := s.owner.current.value, g.n;
      FullAt(s, g, n);
      KnownPage(s, p);
      assert g.full[n..] == [p] + g.full[n + 1..];
    } else {
      assert g.full[g.n..] == [];
    }
  }

  lemma FullAt(s: State, g: Lists, n: nat)
    requires ListInv(s, g) && n < |g.full|
    ensures g.full[n] in s.next && s.next[g.full[n]] == At(g.full, n + 1) && g.full[n] !in g.full[n + 1..]
  {
  }

  lemma KnownPage(s: State, p: Addr)
    requires MemInv(s)
    ensures p in s.next <==> Known(s, p)
  {
  }

  lemma KeepsFreeStep(s: State, g: Lists)
    requires Inv(s, g) && Enabled(s, Shrink(FreeStep))
    ensures Inv(ShrinkStep(s, FreeStep), FollowShrink(s, g, FreeStep))
  {
    hide Inv;
    match s.owner.at
    case LoadCurrent => KeepsFreeLoad(s, g);
    case LoadNext(_) => KeepsFreeNext(s, g);
    case Test(_, _) => KeepsFreeTest(s, g);
    case Swing(_, _) => KeepsFreeSwing(s, g);
  }

  lemma KeepsShrinkStep(s: State, g: Lists, op: ShrinkOp)
    requires Inv(s, g) && Enabled(s, Shrink(op))
    ensures Inv(ShrinkStep(s, op), FollowShrink(s, g, op))
  {
    hide Inv;
    match op
    case BeginShrink => KeepsBeginShrink(s, g);
    case FreeStep => KeepsFreeStep(s, g);
    case FullStep => KeepsFullStep(s, g);
    case CheckStep => KeepsCheck(s, g);
    case DropStep => KeepsDrop(s, g);
    case FinishShrink => KeepsFinish(s, g);
    case BeginClose => KeepsBeginClose(s, g);
    case CloseStep => KeepsClose(s, g);
  }
}
