/** Every access of shrink_to_fit and of Arena::drop keeps the invariant of the Arena's lists,
    with remote droppers at work between any two of them. */
module ArenaShrink {
  import opened Options
  import opened Chains
  import opened ArenaLists
  import opened ArenaListsInv
  import opened ArenaDroppers
  import opened ArenaFind

  // ---------------------------------------------------------------- moves that touch no memory

  /** Positions that own the same pages through the same head. */
  predicate SameHands(s: State, o: Owner) {
    ToDrop(o) == ToDrop(s.owner) && FreeHead(s.(owner := o)) == FreeHead(s) &&
    !s.owner.Popped? && !o.Popped? && Ending(o) == Ending(s.owner) && !o.Closed? && !s.owner.Closed? &&
    (Shrinking(o) ==> Shrinking(s.owner))
  }

  lemma MovesOwner(s: State, g: Lists, o: Owner, g': Lists)
    requires MemInv(s) && ListInv(s, g) && Flags(s, g) && Pushers(s, g) && Hands(s, g) && SameHands(s, o)
    requires g' == g.(n := g'.n)
    ensures var s' := s.(owner := o);
            MemInv(s') && ListInv(s', g') && Flags(s', g') && Pushers(s', g') && Hands(s', g')
  {
    hide MemInv, ListInv, Flags, Pushers, Hands;
    MemFrame(s, s.(owner := o));
    MovesLists(s, g, o, g');
    MovesFlags(s, g, o, g');
    MovesRest(s, g, o, g');
  }

  lemma MovesLists(s: State, g: Lists, o: Owner, g': Lists)
    requires ListInv(s, g) && SameHands(s, o) && g' == g.(n := g'.n)
    ensures ListInv(s.(owner := o), g')
  {
  }

  lemma MovesFlags(s: State, g: Lists, o: Owner, g': Lists)
    requires Flags(s, g) && SameHands(s, o) && g' == g.(n := g'.n)
    ensures Flags(s.(owner := o), g')
  {
    var s' := s.(owner := o);
    forall p | p in s'.next
      ensures Known(s', p) && FlagInv(s', g', p)
    {
      SamePushed(s, s', p);
      assert Known(s, p) && FlagInv(s, g, p);
      assert Placed(s', g', p) == Placed(s, g, p);
    }
  }

  lemma MovesRest(s: State, g: Lists, o: Owner, g': Lists)
    requires Pushers(s, g) && Hands(s, g) && SameHands(s, o) && g' == g.(n := g'.n)
    ensures Pushers(s.(owner := o), g') && Hands(s.(owner := o), g')
  {
    var s' := s.(owner := o);
    assert SamePushes(s, s');
    forall t, p | Pushes(s', t, p)
      ensures !Placed(s', g', p)
    {
      assert Pushes(s, t, p);
    }
  }

  // ---------------------------------------------------------------- the first loop

  lemma KeepsBeginShrink(s: State, g: Lists)
    requires Inv(s, g) && Enabled(s, Shrink(BeginShrink))
    ensures Inv(ShrinkStep(s, BeginShrink), FollowShrink(s, g, BeginShrink))
  {
    hide MemInv, ListInv, Flags, Pushers, Hands, OwnerInv, FullMembers;
    var s', g' := ShrinkStep(s, BeginShrink), FollowShrink(s, g, BeginShrink);
    MemFrame(s, s');
    BegunLists(s, g);
    SamePlaces(s, g, s', g');
    FreeInFull(s, g);
    BegunOwner(s, g);
  }

  lemma BegunOwner(s: State, g: Lists)
    requires FullMembers(s, g) && s.owner.Idle? && NoDup(g.free) && NoDup(g.full) && forall p | p in g.free :: p in g.full
    ensures var s', g' := ShrinkStep(s, BeginShrink), FollowShrink(s, g, BeginShrink); OwnerInv(s', g') && FullMembers(s', g')
  {
    hide NoDup;
    LoopBegins(g.free, {});
  }

  lemma BegunLists(s: State, g: Lists)
    requires ListInv(s, g) && Hands(s, g) && s.owner.Idle?
    ensures ListInv(ShrinkStep(s, BeginShrink), FollowShrink(s, g, BeginShrink))
    ensures Hands(ShrinkStep(s, BeginShrink), FollowShrink(s, g, BeginShrink))
    ensures NoDup(g.free) && NoDup(g.full)
  {
  }

  /** Pages on the free list have not been let go, so they are on the full list. */
  lemma FreeInFull(s: State, g: Lists)
    requires MemInv(s) && ListInv(s, g) && Flags(s, g) && FullMembers(s, g) && s.owner.Idle?
    ensures forall p | p in g.free :: p in g.full
  {
    ListedKnown(s, g);
    forall p | p in g.free
      ensures p in g.full
    {
      assert Known(s, p) && FlagInv(s, g, p);
    }
  }

  lemma KeepsFreeLoad(s: State, g: Lists)
    requires Inv(s, g) && Enabled(s, Shrink(FreeStep)) && s.owner.at.LoadCurrent?
    ensures Inv(ShrinkStep(s, FreeStep), FollowShrink(s, g, FreeStep))
  {
    hide MemInv, ListInv, Flags, Pushers, Hands, OwnerInv, FullMembers;
    var s', g' := ShrinkStep(s, FreeStep), FollowShrink(s, g, FreeStep);
    FreeLoadOwner(s, g);
    MovesOwner(s, g, s'.owner, g');
  }

  lemma FreeLoadOwner(s: State, g: Lists)
    requires ListInv(s, g) && OwnerInv(s, g) && FullMembers(s, g)
    requires OwnerTouches(s) && s.owner.FreeLoop? && s.owner.at.LoadCurrent?
    ensures var s', g' := ShrinkStep(s, FreeStep), FollowShrink(s, g, FreeStep);
            OwnerInv(s', g') && FullMembers(s', g') && SameHands(s, s'.owner) && s' == s.(owner := s'.owner) &&
            g' == g.(n := g'.n)
  {
    hide ListInv, ShrunkTo, LoopInv, OwnerInv, FullMembers;
    var c := s.owner.cursor;
    FreeCell(s, g);
    FreeInRange(s, g);
    if g.n == |g.free0| {
      FreeLoopEnds(s, g);
    } else {
      FreeLoads(s, g);
    }
  }

  lemma FreeLoads(s: State, g: Lists)
    requires OwnerInv(s, g) && FullMembers(s, g) && s.owner.FreeLoop? && g.n < |g.free0|
    ensures var s' := s.(owner := FreeLoop(s.owner.cursor, LoadNext(g.free0[g.n])));
            OwnerInv(s', g) && FullMembers(s', g)
  {
    hide ShrunkTo, LoopInv;
    ShrunkFrame(s, s.(owner := FreeLoop(s.owner.cursor, LoadNext(g.free0[g.n]))), g, g.n);
  }

  lemma FreeLoopEnds(s: State, g: Lists)
    requires OwnerInv(s, g) && FullMembers(s, g) && s.owner.FreeLoop? && g.n == |g.free0|
    ensures var c := s.owner.cursor;
            var s', g' := s.(owner := FullLoop(c.(prev := None), LoadCurrent)), g.(n := 0);
            OwnerInv(s', g') && FullMembers(s', g')
  {
    hide ShrunkTo, LoopInv;
    var c := s.owner.cursor;
    var s' := s.(owner := FullLoop(c.(prev := None), LoadCurrent));
    LoopEnds(g.free0, g.free, Elems(c.toDrop), c.prev);
    LoopBegins(g.full0, Elems(c.toDrop));
    ShrunkFrame(s, s', g, |g.free0|);
    SameShrunk(s', g, g.(n := 0), |g.free0|);
  }

  lemma FreeInRange(s: State, g: Lists)
    requires OwnerInv(s, g) && s.owner.FreeLoop?
    ensures g.n <= |g.free0|
  {
  }

  /** ShrunkTo looks at the pages to drop and at what is held. */
  lemma ShrunkFrame(s: State, s': State, g: Lists, n: nat)
    requires ShrunkTo(s, g, n) && ToDrop(s'.owner) == ToDrop(s.owner) && s'.held == s.held
    ensures ShrunkTo(s', g, n)
  {
  }

  lemma SameShrunk(s: State, g: Lists, g': Lists, n: nat)
    requires ShrunkTo(s, g, n) && g' == g.(n := g'.n)
    ensures ShrunkTo(s, g', n)
  {
  }

  lemma FreeCell(s: State, g: Lists)
    requires ListInv(s, g) && OwnerInv(s, g) && s.owner.FreeLoop?
    ensures Cell(s.nextFree, s.owner.cursor.start, s.owner.cursor.prev, At(g.free0, g.n))
    ensures g.n < |g.free0| ==> g.free0[g.n] in g.free
  {
    var c := s.owner.cursor;
    LoopCell(s.nextFree, c.start, g.free0, g.free, Elems(c.toDrop), g.n, c.prev);
  }

  lemma KeepsFreeNext(s: State, g: Lists)
    requires Inv(s, g) && Enabled(s, Shrink(FreeStep)) && s.owner.at.LoadNext?
    ensures Inv(ShrinkStep(s, FreeStep), FollowShrink(s, g, FreeStep))
  {
    hide MemInv, ListInv, Flags, Pushers, Hands;
    MovesOwner(s, g, ShrinkStep(s, FreeStep).owner, g);
  }

  lemma KeepsFreeTest(s: State, g: Lists)
    requires Inv(s, g) && Enabled(s, Shrink(FreeStep)) && s.owner.at.Test?
    ensures Inv(ShrinkStep(s, FreeStep), FollowShrink(s, g, FreeStep))
  {
    hide MemInv, ListInv, Flags, Pushers, Hands, OwnerInv, FullMembers;
    var s', g' := ShrinkStep(s, FreeStep), FollowShrink(s, g, FreeStep);
    FreeTestOwner(s, g);
    MovesOwner(s, g, s'.owner, g');
  }

  lemma FreeTestOwner(s: State, g: Lists)
    requires ListInv(s, g) && OwnerInv(s, g) && FullMembers(s, g) && Hands(s, g)
    requires Enabled(s, Shrink(FreeStep)) && s.owner.FreeLoop? && s.owner.at.Test?
    ensures var s', g' := ShrinkStep(s, FreeStep), FollowShrink(s, g, FreeStep);
            OwnerInv(s', g') && FullMembers(s', g')
  {
    hide ListInv, LoopInv, Hands, ShrunkTo;
    var c := s.owner.cursor;
    if s.held[s.owner.at.page] != {} {
      FreeCell(s, g);
      NotToDrop(s, g, s.owner.at.page);
      LoopKeeps(g.free0, g.free, Elems(c.toDrop), g.n, c.prev);
      ShrunkKeeps(s, ShrinkStep(s, FreeStep), g);
    } else {
      ShrunkFrame(s, ShrinkStep(s, FreeStep), g, g.n);
    }
  }

  /** A page with a held block is not one of those unused from the start. */
  lemma ShrunkKeeps(s: State, s': State, g: Lists)
    requires ShrunkTo(s, g, g.n) && g.n < |g.free0| && ToDrop(s'.owner) == ToDrop(s.owner) && s'.held == s.held
    requires g.free0[g.n] in s.held && s.held[g.free0[g.n]] != {}
    requires Within(g.free0[..g.n + 1], Elems(ToDrop(s.owner))) == Within(g.free0[..g.n], Elems(ToDrop(s.owner)))
    ensures ShrunkTo(s', g.(n := g.n + 1), g.n + 1)
  {
  }

  lemma NotToDrop(s: State, g: Lists, p: Addr)
    requires Hands(s, g) && p in g.free
    ensures p !in ToDrop(s.owner)
  {
  }

  lemma KeepsFreeSwing(s: State, g: Lists)
    requires Inv(s, g) && Enabled(s, Shrink(FreeStep)) && s.owner.at.Swing?
    ensures Inv(ShrinkStep(s, FreeStep), FollowShrink(s, g, FreeStep))
  {
    hide MemInv, ListInv, Flags, Pushers, Hands, OwnerInv, FullMembers, Swung, LoopInv;
    FreeCell(s, g);
    SwingSucceeds(s, g);
    SwungKeeps(s, g, ShrinkStep(s, FreeStep), FollowShrink(s, g, FreeStep));
  }

  lemma SwungKeeps(s: State, g: Lists, s': State, g': Lists)
    requires Inv(s, g) && Swung(s, g, s')
    requires g' == g.(free := Unlinked(g, g.free0, g.free, Elems(s.owner.cursor.toDrop)), n := g.n + 1)
    ensures Inv(s', g')
  {
    hide MemInv, ListInv, Flags, Pushers, Hands, OwnerInv, FullMembers, Unlinked;
    MemFrame(s, s');
    SwungPlaces(s, g, s', g');
    SwungFlags(s, g, s', g');
    SwungOwner(s, g, s', g');
    SwungMembers(s, g, s', g');
  }

  /** The state after a successful compare-and-swap of the first loop. */
  ghost predicate Swung(s: State, g: Lists, s': State) {
    s.owner.FreeLoop? && s.owner.at.Swing? &&
    var c, p := s.owner.cursor, s.owner.at.page;
    s' == s.(nextFree := s'.nextFree, owner := s'.owner) &&
    g.n < |g.free0| && p == g.free0[g.n] && p in s.nextFree && p in s.held && s.held[p] == {} &&
    s'.owner == FreeLoop(Cursor(c.prev, FreeHead(s'), c.toDrop + [p]), LoadCurrent) &&
    if c.prev.None? then s'.nextFree == s.nextFree && FreeHead(s') == s.nextFree[p]
    else c.prev.value in s.nextFree && s'.nextFree == s.nextFree[c.prev.value := s.nextFree[p]] && FreeHead(s') == FreeHead(s)
  }

  /** The compare-and-swap of the first loop always succeeds. */
  lemma SwingSucceeds(s: State, g: Lists)
    requires OwnerInv(s, g) && s.owner.FreeLoop? && s.owner.at.Swing? && OwnerTouches(s)
    requires Cell(s.nextFree, s.owner.cursor.start, s.owner.cursor.prev, At(g.free0, g.n))
    ensures Swung(s, g, ShrinkStep(s, FreeStep))
    ensures ShrinkStep(s, FreeStep).nextFree.Keys == s.nextFree.Keys
  {
    hide LoopInv, ShrunkTo;
  }

  lemma SwungPlaces(s: State, g: Lists, s': State, g': Lists)
    requires ListInv(s, g) && Hands(s, g) && OwnerInv(s, g) && Swung(s, g, s')
    requires g' == g.(free := Unlinked(g, g.free0, g.free, Elems(s.owner.cursor.toDrop)), n := g.n + 1)
    ensures ListInv(s', g') && Hands(s', g') && Elems(g'.free) == Elems(g.free) - {s.owner.at.page} && s.owner.at.page in g.free
    ensures s.owner.cursor.prev.Some? ==> s.owner.cursor.prev.value in g.free
  {
    hide ShrunkTo, LoopInv, LocInv, ListInv, Unlinked;
    var c, p := s.owner.cursor, s.owner.at.page;
    assert LoopInv(g.free0, g.free, Elems(c.toDrop), g.n, c.prev);
    SwungChain(s, g, s', g'.free);
    SwungHands(s, g, p);
    forall q
      ensures q in g'.free <==> q in g.free && q != p
    {
      assert q in g'.free <==> q in Elems(g'.free);
      assert q in g.free <==> q in Elems(g.free);
    }
    SwungLists(s, g, s', g');
  }

  lemma SwungChain(s: State, g: Lists, s': State, free: seq<Addr>)
    requires ListInv(s, g) && s.owner.FreeLoop? && s.owner.at.Swing?
    requires var c, p := s.owner.cursor, s.owner.at.page;
             LoopInv(g.free0, g.free, Elems(c.toDrop), g.n, c.prev) && g.n < |g.free0| && p == g.free0[g.n] && p in s.nextFree &&
             free == Unlinked(g, g.free0, g.free, Elems(c.toDrop)) &&
             (if c.prev.None? then s'.nextFree == s.nextFree && FreeHead(s') == s.nextFree[p]
              else c.prev.value in s.nextFree && s'.nextFree == s.nextFree[c.prev.value := s.nextFree[p]] && FreeHead(s') == FreeHead(s))
    ensures Chain(s'.nextFree, FreeHead(s'), free) && NoDup(free) && Elems(free) == Elems(g.free) - {s.owner.at.page}
    ensures s.owner.at.page in g.free
    ensures s.owner.cursor.prev.Some? ==> s.owner.cursor.prev.value in g.free
  {
    var c := s.owner.cursor;
    LoopChain(s.nextFree, c.start, g.free0, g.free, Elems(c.toDrop), g.n, c.prev, s'.nextFree, FreeHead(s'));
  }

  lemma SwungLists(s: State, g: Lists, s': State, g': Lists)
    requires ListInv(s, g) && s.owner.FreeLoop? && s'.owner.FreeLoop? && g' == g.(free := g'.free, n := g'.n)
    requires s' == s.(nextFree := s'.nextFree, owner := s'.owner)
    requires Chain(s'.nextFree, FreeHead(s'), g'.free) && NoDup(g'.free) && forall q | q in g'.free :: q in g.free
    requires forall q | q in s.nextFree && q !in g.free :: q in s'.nextFree && s'.nextFree[q] == s.nextFree[q]
    ensures ListInv(s', g')
  {
    ChainFrame(s.nextFree, s'.nextFree, s.pending, g.pending);
  }

  lemma SwungHands(s: State, g: Lists, p: Addr)
    requires Hands(s, g) && ListInv(s, g) && s.owner.FreeLoop? && p in g.free
    ensures NoDup(s.owner.cursor.toDrop + [p]) && p !in g.pending && p !in s.owner.cursor.toDrop
    ensures forall q | q in s.owner.cursor.toDrop + [p] :: q !in g.pending && (q == p || q !in g.free)
  {
    AppendNoDup(s.owner.cursor.toDrop, p);
  }

  lemma SwungFlags(s: State, g: Lists, s': State, g': Lists)
    requires Flags(s, g) && Pushers(s, g) && Swung(s, g, s') && g' == g.(free := g'.free, n := g'.n)
    requires Elems(g'.free) == Elems(g.free) - {s.owner.at.page} && s.owner.at.page in g.free
    requires s.owner.cursor.prev.Some? ==> s.owner.cursor.prev.value in g.free
    ensures Flags(s', g') && Pushers(s', g')
  {
    hide Flags, Pushers;
    forall q
      ensures Placed(s', g', q) <==> Placed(s, g, q)
    {
      assert q in g'.free <==> q in Elems(g'.free);
      assert q in g.free <==> q in Elems(g.free);
    }
    forall q | q in g'.free
      ensures q in g.free
    {
      assert q in Elems(g'.free);
    }
    TookPage(s, g, s', g');
  }

  lemma TookPage(s: State, g: Lists, s': State, g': Lists)
    requires Flags(s, g) && Pushers(s, g) && s.owner.FreeLoop? && s'.owner.FreeLoop?
    requires s' == s.(nextFree := s'.nextFree, owner := s'.owner) && s'.nextFree.Keys == s.nextFree.Keys
    requires forall p | p in s.nextFree && !Placed(s, g, p) :: s'.nextFree[p] == s.nextFree[p]
    requires forall p :: Placed(s', g', p) <==> Placed(s, g, p)
    requires g'.pending == g.pending && forall p | p in g'.free :: p in g.free
    ensures Flags(s', g') && Pushers(s', g')
  {
    assert SamePushes(s, s');
    forall p | p in s'.next
      ensures Known(s', p) && FlagInv(s', g', p)
    {
      SamePushed(s, s', p);
      assert Known(s, p) && FlagInv(s, g, p);
      assert Placed(s', g', p) <==> Placed(s, g, p);
    }
    forall t, p | Pushes(s', t, p)
      ensures !Placed(s', g', p)
    {
      assert Pushes(s, t, p);
    }
    forall t | t in s'.droppers && s'.droppers[t].CasHead?
      ensures s'.droppers[t].page in s'.nextFree && s'.nextFree[s'.droppers[t].page] == s'.droppers[t].head
    {
      assert Pushes(s, t, s.droppers[t].page);
    }
  }

  lemma SwungOwner(s: State, g: Lists, s': State, g': Lists)
    requires OwnerInv(s, g) && Swung(s, g, s')
    requires g' == g.(free := Unlinked(g, g.free0, g.free, Elems(s.owner.cursor.toDrop)), n := g.n + 1)
    ensures OwnerInv(s', g')
  {
    hide LoopInv, ShrunkTo;
    var c, p := s.owner.cursor, s.owner.at.page;
    ShrunkNoDup(s, g);
    LoopUnlinks(g.free0, g.free, Elems(c.toDrop), g.n, c.prev);
    ElemsAppend(c.toDrop, [p]);
    assert Elems([p]) == {p};
    ShrunkTakes(s, s', g, g');
  }

  lemma ShrunkNoDup(s: State, g: Lists)
    requires ShrunkTo(s, g, g.n)
    ensures NoDup(g.free0)
  {
  }

  lemma ShrunkTakes(s: State, s': State, g: Lists, g': Lists)
    requires ShrunkTo(s, g, g.n) && g.n < |g.free0| && s'.held == s.held && g' == g.(free := g'.free, n := g.n + 1)
    requires var p := g.free0[g.n];
             ToDrop(s'.owner) == ToDrop(s.owner) + [p] && p in s.held && s.held[p] == {} &&
             Within(g.free0[..g.n + 1], Elems(ToDrop(s'.owner))) == Within(g.free0[..g.n], Elems(ToDrop(s.owner))) + [p]
    ensures ShrunkTo(s', g', g.n + 1)
  {
    assert forall q :: q in ToDrop(s'.owner) <==> q in ToDrop(s.owner) || q == g.free0[g.n];
  }

  lemma SwungMembers(s: State, g: Lists, s': State, g': Lists)
    requires FullMembers(s, g) && Swung(s, g, s') && g' == g.(free := g'.free, n := g'.n)
    ensures FullMembers(s', g')
  {
  }
}
