/** Every access of find_place and alloc_new_page keeps the invariant of the Arena's lists. */
module ArenaFind {
  import opened Options
  import opened Bitfield
  import opened Chains
  import opened ArenaLists
  import opened ArenaListsInv
  import opened ArenaDroppers

  /** The owner holds no page between accesses and is neither shrinking nor ending. */
  predicate Calm(o: Owner) {
    o.Idle? || o.Scan? || o.Exhausted? || o.ReadPending? || o.SwapPending? || o.Growing?
  }

  /** Moving between calm positions changes nothing but the position. */
  lemma KeepsCalm(s: State, g: Lists, o: Owner)
    requires Inv(s, g) && Calm(s.owner) && Calm(o) && OwnerInv(s.(owner := o), g)
    ensures Inv(s.(owner := o), g)
  {
    hide MemInv, ListInv, Flags, Pushers, Hands, FullMembers, OwnerInv;
    MemFrame(s, s.(owner := o));
    CalmLists(s, g, o);
    CalmFlags(s, g, o);
    CalmRest(s, g, o);
  }

  lemma CalmRest(s: State, g: Lists, o: Owner)
    requires Pushers(s, g) && Hands(s, g) && FullMembers(s, g) && Calm(s.owner) && Calm(o)
    ensures Pushers(s.(owner := o), g) && Hands(s.(owner := o), g) && FullMembers(s.(owner := o), g)
  {
    assert SamePushes(s, s.(owner := o));
  }

  lemma CalmLists(s: State, g: Lists, o: Owner)
    requires ListInv(s, g) && Calm(s.owner) && Calm(o)
    ensures ListInv(s.(owner := o), g)
  {
  }

  lemma CalmFlags(s: State, g: Lists, o: Owner)
    requires Flags(s, g) && Calm(s.owner) && Calm(o)
    ensures Flags(s.(owner := o), g)
  {
    var s' := s.(owner := o);
    forall p | p in s'.next
      ensures Known(s', p) && FlagInv(s', g, p)
    {
      SamePushed(s, s', p);
      assert Known(s, p) && FlagInv(s, g, p);
    }
  }

  /** The head of the free list is the first page of the chain, and nobody else's. */
  lemma FreeListHead(s: State, g: Lists)
    requires Inv(s, g) && Calm(s.owner) && s.freeList.Some?
    ensures var p := s.freeList.value;
            g.free != [] && g.free[0] == p && Known(s, p) && p !in s.released && s.inFree[p] && !Pushed(s, p) &&
            Chain(s.nextFree, s.nextFree[p], g.free[1..])
  {
    ChainTail(s.nextFree, s.freeList, g.free);
    var p := s.freeList.value;
    assert p in g.free;
    assert Known(s, p) && FlagInv(s, g, p);
  }

  lemma KeepsAcquire(s: State, g: Lists, index: nat)
    requires Inv(s, g) && Enabled(s, Find(Acquire(index)))
    ensures Inv(FindStep(s, Acquire(index)), g)
  {
    hide ListInv, Flags, Pushers, FullMembers;
    var p := s.freeList.value;
    var s' := FindStep(s, Acquire(index));
    FreeListHead(s, g);
    assert MemInv(s') by {
      assert IsIndex(index);
      forall q | q in s'.next
        ensures Known(s', q) && PageInv(s', q)
      {
        assert Known(s, q) && PageInv(s, q);
      }
    }
    assert SamePushes(s, s');
    AcquireFlags(s, g, p, s');
    AcquireRest(s, g, s');
  }

  lemma AcquireRest(s: State, g: Lists, s': State)
    requires ListInv(s, g) && FullMembers(s, g) && Pushers(s, g) && s.owner.Scan?
    requires s' == s.(held := s'.held, owner := Idle)
    ensures ListInv(s', g) && FullMembers(s', g) && Pushers(s', g)
  {
    assert SamePushes(s, s');
  }

  lemma AcquireFlags(s: State, g: Lists, p: Addr, s': State)
    requires Flags(s, g) && s.owner.Scan? && p !in s.released
    requires s' == s.(held := s'.held, owner := Idle) && s'.held.Keys == s.held.Keys
    requires forall q | q in s.held && q != p :: s'.held[q] == s.held[q]
    ensures Flags(s', g)
  {
    forall q | q in s'.next
      ensures Known(s', q) && FlagInv(s', g, q)
    {
      SamePushed(s, s', q);
      assert Known(s, q) && FlagInv(s, g, q);
    }
  }

  lemma PopLists(s: State, g: Lists)
    requires ListInv(s, g) && Hands(s, g) && Enabled(s, Find(Pop)) && s.freeList == Some(s.owner.page)
    ensures g.free != [] && g.free[0] == s.owner.page && s.owner.page !in g.free[1..] && s.owner.page !in g.pending
    ensures forall q :: q in g.free <==> q == s.owner.page || q in g.free[1..]
    ensures ListInv(FindStep(s, Pop), FollowFind(s, g, Pop)) && Hands(FindStep(s, Pop), FollowFind(s, g, Pop))
  {
    ChainTail(s.nextFree, s.freeList, g.free);
    assert g.free == [s.owner.page] + g.free[1..];
  }

  lemma KeepsPop(s: State, g: Lists)
    requires Inv(s, g) && Enabled(s, Find(Pop))
    ensures Inv(FindStep(s, Pop), FollowFind(s, g, Pop))
  {
    hide MemInv, ListInv, Flags, Pushers, Hands;
    var s', g' := FindStep(s, Pop), FollowFind(s, g, Pop);
    PopLists(s, g);
    MemFrame(s, s');
    SamePlaces(s, g, s', g');
    FreeListPageKnown(s, g);
  }

  lemma FreeListPageKnown(s: State, g: Lists)
    requires MemInv(s) && Enabled(s, Find(Pop))
    ensures s.owner.page in s.next
  {
  }

  /** Steps that move pages between lists and the owner's hands without unplacing any. */
  lemma SamePlaces(s: State, g: Lists, s': State, g': Lists)
    requires Flags(s, g) && Pushers(s, g) && s' == s.(freeList := s'.freeList, pending := s'.pending, owner := s'.owner)
    requires !Ending(s.owner) && !Ending(s'.owner)
    requires forall p :: Placed(s', g', p) <==> Placed(s, g, p)
    requires ToDrop(s'.owner) == [] || ToDrop(s'.owner) == ToDrop(s.owner)
    requires ToDrop(s.owner) == [] || ToDrop(s'.owner) == ToDrop(s.owner)
    requires forall p | p in g.free || p in g.pending || s.owner == Popped(p) ::
               p in g'.free || p in g'.pending || s'.owner == Popped(p)
    requires forall p | p in g'.free || p in g'.pending || s'.owner == Popped(p) ::
               p in g.free || p in g.pending || s.owner == Popped(p)
    ensures Flags(s', g') && Pushers(s', g')
  {
    assert SamePushes(s, s');
    forall p | p in s'.next
      ensures Known(s', p) && FlagInv(s', g', p)
    {
      SamePushed(s, s', p);
      assert Known(s, p) && FlagInv(s, g, p);
      assert Placed(s', g', p) <==> Placed(s, g, p);
    }
    forall t, p | Pushes(s', t, p)
      ensures !Placed(s', g', p)
    {
      assert Pushes(s, t, p);
    }
  }

  lemma KeepsClearFlag(s: State, g: Lists)
    requires Inv(s, g) && Enabled(s, Find(ClearFlag))
    ensures Inv(FindStep(s, ClearFlag), g)
  {
    hide MemInv, ListInv, Flags, Pushers, Hands, FullMembers;
    var s' := FindStep(s, ClearFlag);
    assert s'.inFree.Keys == s.inFree.Keys;
    MemFrame(s, s');
    ClearedFlags(s, g);
    ClearedRest(s, g);
  }

  lemma ClearedRest(s: State, g: Lists)
    requires ListInv(s, g) && FullMembers(s, g) && Hands(s, g) && Enabled(s, Find(ClearFlag))
    ensures ListInv(FindStep(s, ClearFlag), g) && FullMembers(FindStep(s, ClearFlag), g) && Hands(FindStep(s, ClearFlag), g)
  {
  }

  lemma ClearedFlags(s: State, g: Lists)
    requires Flags(s, g) && Pushers(s, g) && Hands(s, g) && s.owner.Popped? && s.owner.page in s.next && Known(s, s.owner.page)
    ensures var s' := s.(inFree := s.inFree[s.owner.page := false], owner := Scan);
            Flags(s', g) && Pushers(s', g)
  {
    var page := s.owner.page;
    var s' := s.(inFree := s.inFree[page := false], owner := Scan);
    assert SamePushes(s, s');
    assert FlagInv(s, g, page) && Placed(s, g, page);
    forall t
      ensures !Pushes(s, t, page)
    {
    }
    forall p | p in s'.next
      ensures Known(s', p) && FlagInv(s', g, p)
    {
      SamePushed(s, s', p);
      assert Known(s, p) && FlagInv(s, g, p);
    }
    forall t, p | Pushes(s', t, p)
      ensures !Placed(s', g, p)
    {
      assert Pushes(s, t, p);
    }
  }

  lemma EmptyFreeList(s: State, g: Lists)
    requires ListInv(s, g) && FreeHead(s) == None
    ensures g.free == []
  {
  }

  lemma TakenLists(s: State, g: Lists)
    requires ListInv(s, g) && s.owner.SwapPending? && s.freeList == None
    ensures g.free == [] && ListInv(FindStep(s, TakePending), FollowFind(s, g, TakePending))
  {
    EmptyFreeList(s, g);
  }

  lemma KeepsTakePending(s: State, g: Lists)
    requires Inv(s, g) && Enabled(s, Find(TakePending))
    ensures Inv(FindStep(s, TakePending), FollowFind(s, g, TakePending))
  {
    hide MemInv, ListInv, Flags, Pushers;
    var s', g' := FindStep(s, TakePending), FollowFind(s, g, TakePending);
    TakenLists(s, g);
    MemFrame(s, s');
    SamePlaces(s, g, s', g');
  }

  // ---------------------------------------------------------------- growing

  lemma GrowMem(s: State, news: seq<Addr>)
    requires MemInv(s) && Enabled(s, Find(Grow(news)))
    ensures MemInv(FindStep(s, Grow(news)))
  {
    var s' := FindStep(s, Grow(news));
    NewLinksKeys(news, None);
    NewLinksKeys(news, s.full);
    assert s'.next.Keys == s.next.Keys + Elems(news);
    forall q | q in s'.next
      ensures Known(s', q) && PageInv(s', q)
    {
      if q !in news {
        assert Known(s, q) && PageInv(s, q);
      }
    }
  }

  lemma ListedKnown(s: State, g: Lists)
    requires MemInv(s) && ListInv(s, g)
    ensures forall p | p in g.free || p in g.pending || p in g.full :: p in s.next && p in s.nextFree
  {
    forall p | p in g.free
      ensures p in s.nextFree
    {
      var i :| 0 <= i < |g.free| && g.free[i] == p;
    }
    forall p | p in g.pending
      ensures p in s.nextFree
    {
      var i :| 0 <= i < |g.pending| && g.pending[i] == p;
    }
    forall p | p in g.full
      ensures p in s.next
    {
      var i :| 0 <= i < |g.full| && g.full[i] == p;
    }
  }

  lemma GrowLists(s: State, g: Lists, news: seq<Addr>)
    requires MemInv(s) && ListInv(s, g) && s.freeList == None && Enabled(s, Find(Grow(news)))
    ensures g.free == [] && news != []
    ensures ListInv(FindStep(s, Grow(news)), FollowFind(s, g, Grow(news)))
  {
    hide Chain, NoDup, MemInv, ListInv;
    EmptyFreeList(s, g);
    ListedKnown(s, g);
    LinksKnown(s);
    GrownFree(s, g, news);
    GrownFull(s, g, news);
    GrownLists(s, g, news);
  }

  lemma LinksKnown(s: State)
    requires MemInv(s)
    ensures s.nextFree.Keys == s.next.Keys
  {
  }

  lemma GrownFree(s: State, g: Lists, news: seq<Addr>)
    requires ListInv(s, g) && s.nextFree.Keys == s.next.Keys && NoDup(news) && news != []
    requires forall p | p in news :: p !in s.next
    ensures Chain(s.nextFree + NewLinks(news, None), Some(news[0]), news)
    ensures Chain(s.nextFree + NewLinks(news, None), s.pending, g.pending)
  {
    NewLinksKeys(news, None);
    ChainAppend(s.nextFree, None, [], news);
    assert news + [] == news;
    ChainFrame(s.nextFree, s.nextFree + NewLinks(news, None), s.pending, g.pending);
  }

  lemma GrownFull(s: State, g: Lists, news: seq<Addr>)
    requires ListInv(s, g) && NoDup(news) && news != []
    requires forall p | p in news :: p !in s.next
    ensures Chain(s.next + NewLinks(news, s.full), Some(news[0]), news + g.full)
  {
    ChainAppend(s.next, s.full, g.full, news);
  }

  lemma GrownLists(s: State, g: Lists, news: seq<Addr>)
    requires ListInv(s, g) && s.freeList == None && Enabled(s, Find(Grow(news))) && news != []
    requires forall p | p in g.pending || p in g.full :: p in s.next
    requires Chain(s.nextFree + NewLinks(news, None), Some(news[0]), news)
    requires Chain(s.nextFree + NewLinks(news, None), s.pending, g.pending)
    requires Chain(s.next + NewLinks(news, s.full), Some(news[0]), news + g.full)
    ensures ListInv(FindStep(s, Grow(news)), FollowFind(s, g, Grow(news)))
  {
    hide Chain, NoDup, NewLinks, FillPages;
    JoinNoDup(news, g.full);
  }

  lemma GrowFlags(s: State, g: Lists, news: seq<Addr>)
    requires MemInv(s) && Flags(s, g) && Pushers(s, g) && Enabled(s, Find(Grow(news))) && g.free == [] && s.freeList == None
    requires MemInv(FindStep(s, Grow(news)))
    ensures Flags(FindStep(s, Grow(news)), FollowFind(s, g, Grow(news)))
    ensures Pushers(FindStep(s, Grow(news)), FollowFind(s, g, Grow(news)))
  {
    hide NoDup, NewLinks, Flags, Pushers, FlagInv, PageInv;
    var s', g' := FindStep(s, Grow(news)), FollowFind(s, g, Grow(news));
    NewLinksKeys(news, None);
    NewLinksKeys(news, s.full);
    assert SamePushes(s, s');
    forall t, p | Pushes(s', t, p)
      ensures Pushes(s, t, p) && p !in news
    {
    }
    GrownPushers(s, g, news, s');
    GrownFlags(s, g, news, s');
  }

  lemma GrownPushers(s: State, g: Lists, news: seq<Addr>, s': State)
    requires Pushers(s, g) && Calm(s.owner) && Calm(s'.owner) && g.free == [] && s'.droppers == s.droppers
    requires forall p | p in s.nextFree :: p !in news
    requires s'.nextFree == s.nextFree + NewLinks(news, None) && NewLinks(news, None).Keys == Elems(news)
    requires forall t, p | Pushes(s', t, p) :: Pushes(s, t, p) && p !in news
    ensures Pushers(s', g.(free := news, full := news + g.full))
  {
  }

  lemma GrownFlags(s: State, g: Lists, news: seq<Addr>, s': State)
    requires Flags(s, g) && Calm(s.owner) && Calm(s'.owner) && g.free == [] && SamePushes(s, s')
    requires s'.next.Keys == s.next.Keys + Elems(news) && (forall p | p in s'.next :: Known(s', p))
    requires s'.released == s.released && (forall p | p in s.released :: p in s.next)
    requires forall p | p in s.next :: p !in news
    requires forall p | p in s.inFree && p !in news :: p in s'.inFree && s'.inFree[p] == s.inFree[p]
    requires forall p | p in s.held && p !in news :: p in s'.held && s'.held[p] == s.held[p]
    requires forall p | p in news :: p in s'.inFree && s'.inFree[p]
    ensures Flags(s', g.(free := news, full := news + g.full))
  {
    var g' := g.(free := news, full := news + g.full);
    forall p | p in s'.next
      ensures Known(s', p) && FlagInv(s', g', p)
    {
      SamePushed(s, s', p);
      if p !in news {
        assert Known(s, p) && FlagInv(s, g, p);
      }
    }
  }

  lemma KeepsGrow(s: State, g: Lists, news: seq<Addr>)
    requires Inv(s, g) && Enabled(s, Find(Grow(news)))
    ensures Inv(FindStep(s, Grow(news)), FollowFind(s, g, Grow(news)))
  {
    hide MemInv, ListInv, Flags, Pushers;
    var s', g' := FindStep(s, Grow(news)), FollowFind(s, g, Grow(news));
    GrowMem(s, news);
    GrowLists(s, g, news);
    GrowFlags(s, g, news);
    GrowMembers(s, g, news);
  }

  lemma GrowMembers(s: State, g: Lists, news: seq<Addr>)
    requires MemInv(s) && FullMembers(s, g) && OwnerInv(s, g) && Enabled(s, Find(Grow(news)))
    ensures FullMembers(FindStep(s, Grow(news)), FollowFind(s, g, Grow(news)))
  {
    NewLinksKeys(news, s.full);
  }

  lemma KeepsFindStep(s: State, g: Lists, op: FindOp)
    requires Inv(s, g) && Enabled(s, Find(op))
    ensures Inv(FindStep(s, op), FollowFind(s, g, op))
  {
    hide MemInv, ListInv, Flags, Pushers, Hands, FullMembers;
    match op {
      case FindPlace => KeepsCalm(s, g, Scan);
      case Acquire(index) => KeepsAcquire(s, g, index);
      case AcquireFails => KeepsCalm(s, g, Exhausted(s.freeList.value));
      case Pop => KeepsPop(s, g);
      case ClearFlag => KeepsClearFlag(s, g);
      case ScanEnds => KeepsCalm(s, g, ReadPending);
      case LoadPending => KeepsCalm(s, g, if s.pending.Some? then SwapPending else Growing);
      case TakePending => KeepsTakePending(s, g);
      case Grow(news) => KeepsGrow(s, g, news);
    }
  }
}
