/** Every step of a remote dropper keeps the invariant of the Arena's lists, whatever the owner
    is in the middle of. */
module ArenaDroppers {
  import opened Options
  import opened Chains
  import opened ArenaLists
  import opened ArenaListsInv

  // ---------------------------------------------------------------- what a step leaves alone

  ghost predicate SamePushes(s: State, s': State) {
    forall t, p :: Pushes(s', t, p) == Pushes(s, t, p)
  }

  lemma SamePushed(s: State, s': State, p: Addr)
    requires forall t :: Pushes(s', t, p) == Pushes(s, t, p)
    ensures Pushed(s', p) == Pushed(s, p)
  {
    if t :| t in s.droppers && Pushes(s, t, p) {
      assert Pushes(s', t, p);
    }
    if t :| t in s'.droppers && Pushes(s', t, p) {
      assert Pushes(s, t, p);
    }
  }

  lemma FlagsFrame(s: State, s': State, g: Lists)
    requires Flags(s, g) && SamePushes(s, s')
    requires s'.owner == s.owner && s'.released == s.released && s'.inFree == s.inFree
    requires s'.next == s.next && s'.nextFree.Keys == s.nextFree.Keys
    requires s'.held.Keys == s.held.Keys && s'.deallocs.Keys == s.deallocs.Keys
    requires forall p | p in s.held :: s'.held[p] <= s.held[p]
    ensures Flags(s', g)
  {
    forall p | p in s'.next
      ensures Known(s', p) && FlagInv(s', g, p)
    {
      SamePushed(s, s', p);
      assert Known(s, p) && FlagInv(s, g, p);
    }
  }

  lemma PushersFrame(s: State, s': State, g: Lists)
    requires Pushers(s, g) && SamePushes(s, s')
    requires s'.owner == s.owner && s'.nextFree == s.nextFree
    requires forall t | t in s'.droppers && s'.droppers[t].CasHead? :: t in s.droppers && s'.droppers[t] == s.droppers[t]
    ensures Pushers(s', g)
  {
    forall t, p | Pushes(s', t, p)
      ensures !Placed(s', g, p)
    {
      assert Pushes(s, t, p);
    }
    forall t, u, p | Pushes(s', t, p) && Pushes(s', u, p)
      ensures t == u
    {
      assert Pushes(s, t, p) && Pushes(s, u, p);
    }
  }

  /** Losing held blocks, or links outside its lists, costs the owner nothing. */
  lemma OwnerFrame(s: State, s': State, g: Lists)
    requires OwnerInv(s, g) && FullMembers(s, g)
    requires s'.owner == s.owner && s'.next == s.next && s'.npages == s.npages && s'.released == s.released
    requires s'.freeList == s.freeList && (s.pending.Some? ==> s'.pending.Some?)
    requires s'.held.Keys == s.held.Keys && forall p | p in s.held :: s'.held[p] <= s.held[p]
    requires forall p | p in s.nextFree && p in g.free :: p in s'.nextFree && s'.nextFree[p] == s.nextFree[p]
    ensures OwnerInv(s', g) && FullMembers(s', g)
  {
    if s.owner.FreeLoop? && g.n < |g.free0| {
      assert g.free0[g.n] == g.free0[g.n..][0];
      assert g.free0[g.n] in g.free;
    }
  }

  lemma ListFrame(s: State, s': State, g: Lists)
    requires ListInv(s, g)
    requires s'.owner == s.owner && s'.freeList == s.freeList && s'.pending == s.pending
    requires s'.full == s.full && s'.next == s.next
    requires forall p | p in s.nextFree && (p in g.free || p in g.pending) :: p in s'.nextFree && s'.nextFree[p] == s.nextFree[p]
    ensures ListInv(s', g)
  {
    ChainFrame(s.nextFree, s'.nextFree, FreeHead(s), g.free);
    ChainFrame(s.nextFree, s'.nextFree, s.pending, g.pending);
  }

  lemma MemFrame(s: State, s': State)
    requires MemInv(s)
    requires s'.next == s.next && s'.nextFree.Keys == s.nextFree.Keys && s'.inFree.Keys == s.inFree.Keys
    requires s'.held == s.held && s'.deallocs == s.deallocs && s'.released == s.released
    requires s'.droppers == s.droppers || forall t | t in s'.droppers :: s'.droppers[t].page in s.next
    ensures MemInv(s')
  {
    forall q | q in s'.next
      ensures Known(s', q) && PageInv(s', q)
    {
      assert Known(s, q) && PageInv(s, q);
    }
  }

  // ---------------------------------------------------------------- giving a block back

  lemma GiveBackMem(s: State, t: ThreadId, p: Addr, block: nat)
    requires MemInv(s) && Enabled(s, GiveBack(t, p, block))
    ensures MemInv(GiveBackStep(s, t, p, block))
  {
    var s' := GiveBackStep(s, t, p, block);
    forall q | q in s'.next
      ensures Known(s', q) && PageInv(s', q)
    {
      assert Known(s, q) && PageInv(s, q);
    }
  }

  lemma GiveBackPushes(s: State, t: ThreadId, p: Addr, block: nat)
    requires Enabled(s, GiveBack(t, p, block))
    ensures var s' := GiveBackStep(s, t, p, block);
            SamePushes(s, s') && s' == s.(held := s'.held, deallocs := s'.deallocs, droppers := s'.droppers) &&
            s'.held.Keys == s.held.Keys && s'.deallocs.Keys == s.deallocs.Keys &&
            (forall q | q in s.held :: s'.held[q] <= s.held[q]) &&
            (forall u | u in s'.droppers && s'.droppers[u].CasHead? :: u in s.droppers && s'.droppers[u] == s.droppers[u])
  {
  }

  lemma KeepsGiveBack(s: State, g: Lists, t: ThreadId, p: Addr, block: nat)
    requires Inv(s, g) && Enabled(s, GiveBack(t, p, block))
    ensures Inv(GiveBackStep(s, t, p, block), g)
  {
    hide MemInv, ListInv, Flags, Pushers, Hands, FullMembers, OwnerInv, SamePushes;
    var s' := GiveBackStep(s, t, p, block);
    GiveBackMem(s, t, p, block);
    GiveBackPushes(s, t, p, block);
    hide GiveBackStep;
    FlagsFrame(s, s', g);
    PushersFrame(s, s', g);
    OwnerFrame(s, s', g);
    ListFrame(s, s', g);
    HandsFrame(s, s', g);
  }

  lemma HandsFrame(s: State, s': State, g: Lists)
    requires Hands(s, g) && s'.owner == s.owner
    ensures Hands(s', g)
  {
  }

  // ---------------------------------------------------------------- pushing the page

  /** A dropper that neither changes a shared cell nor begins or ends a push. */
  lemma KeepsMove(s: State, g: Lists, s': State)
    requires Inv(s, g) && SamePushes(s, s')
    requires s' == s.(droppers := s'.droppers)
    requires forall t | t in s'.droppers :: s'.droppers[t].page in s.next
    requires forall t | t in s'.droppers && s'.droppers[t].CasHead? :: t in s.droppers && s'.droppers[t] == s.droppers[t]
    ensures Inv(s', g)
  {
    hide MemInv, ListInv, Flags, Pushers, Hands, FullMembers, OwnerInv;
    MemFrame(s, s');
    FlagsFrame(s, s', g);
    PushersFrame(s, s', g);
    OwnerFrame(s, s', g);
    ListFrame(s, s', g);
    HandsFrame(s, s', g);
  }

  lemma PagesKnown(s: State, t: ThreadId, s': State)
    requires MemInv(s) && t in s.droppers
    requires s'.droppers == s.droppers - {t} ||
             (t in s'.droppers && s'.droppers == s.droppers[t := s'.droppers[t]] && s'.droppers[t].page == s.droppers[t].page)
    ensures forall u | u in s'.droppers :: s'.droppers[u].page in s.next
  {
  }

  /** The flag was set: the page is somebody else's to push. */
  lemma LosesFlag(s: State, g: Lists, t: ThreadId)
    requires Inv(s, g) && t in s.droppers && s.droppers[t].SwapFlag?
    ensures Inv(Stop(s, t), g)
  {
    hide MemInv, ListInv, Flags, Pushers, Hands, FullMembers, OwnerInv;
    PagesKnown(s, t, Stop(s, t));
    KeepsMove(s, g, Stop(s, t));
  }

  lemma KeepsSwapFlag(s: State, g: Lists, t: ThreadId)
    requires Inv(s, g) && Enabled(s, DropperStep(t)) && s.droppers[t].SwapFlag?
    ensures Inv(DropStepOf(s, t), g)
  {
    hide MemInv, ListInv, Flags, Pushers, Hands, FullMembers, OwnerInv;
    var p := s.droppers[t].page;
    var s' := DropStepOf(s, t);
    if s.inFree[p] {
      assert s.inFree[p := true] == s.inFree;
      LosesFlag(s, g, t);
    } else {
      PagesKnown(s, t, s');
      MemFrame(s, s');
      OwnerFrame(s, s', g);
      ListFrame(s, s', g);
      HandsFrame(s, s', g);
      WinsFlag(s, g, t, s');
    }
  }

  /** A page whose flag was clear is nowhere, so the winner is its only pusher. */
  lemma WinsFlag(s: State, g: Lists, t: ThreadId, s': State)
    requires Flags(s, g) && Pushers(s, g) && t in s.droppers && s.droppers[t].SwapFlag? && s.droppers[t].page in s.next
    requires var p := s.droppers[t].page;
             Known(s, p) && !s.inFree[p] && s' == Goto(s.(inFree := s.inFree[p := true]), t, Upgrade(p))
    ensures Flags(s', g) && Pushers(s', g)
  {
    var page := s.droppers[t].page;
    assert FlagInv(s, g, page);
    forall u, p
      ensures Pushes(s', u, p) <==> Pushes(s, u, p) || (u == t && p == page)
    {
    }
    forall p | p in s'.next
      ensures Known(s', p) && FlagInv(s', g, p)
    {
      assert Known(s, p) && FlagInv(s, g, p);
      if p == page {
        assert Pushes(s', t, page);
      } else {
        SamePushed(s, s', p);
      }
    }
    forall u
      ensures !Pushes(s, u, page)
    {
      assert Pushes(s, u, page) ==> Pushed(s, page);
    }
    WinnerPushes(s, g, t, s');
  }

  lemma WinnerPushes(s: State, g: Lists, t: ThreadId, s': State)
    requires Pushers(s, g) && s'.owner == s.owner && s'.nextFree == s.nextFree
    requires t in s'.droppers && s'.droppers[t].Upgrade? && s'.droppers == s.droppers[t := s'.droppers[t]]
    requires var page := s'.droppers[t].page;
             !Placed(s, g, page) &&
             (forall u :: !Pushes(s, u, page)) &&
             forall u, p :: Pushes(s', u, p) <==> Pushes(s, u, p) || (u == t && p == page)
    ensures Pushers(s', g)
  {
  }

  /** The push is abandoned when the arena is gone. */
  lemma KeepsUpgrade(s: State, g: Lists, t: ThreadId)
    requires Inv(s, g) && Enabled(s, DropperStep(t)) && s.droppers[t].Upgrade?
    ensures Inv(DropStepOf(s, t), g)
  {
    hide MemInv, ListInv, Flags, Pushers, Hands, FullMembers, OwnerInv;
    var s' := DropStepOf(s, t);
    PagesKnown(s, t, s');
    if !PendingAlive(s) {
      MemFrame(s, s');
      OwnerFrame(s, s', g);
      ListFrame(s, s', g);
      HandsFrame(s, s', g);
      Abandons(s, g, t);
    } else {
      assert SamePushes(s, s');
      KeepsMove(s, g, s');
    }
  }

  lemma Abandons(s: State, g: Lists, t: ThreadId)
    requires Flags(s, g) && Pushers(s, g) && s.owner.Closed?
    ensures Flags(Stop(s, t), g) && Pushers(Stop(s, t), g)
  {
    var s' := Stop(s, t);
    forall u, p
      ensures Pushes(s', u, p) ==> Pushes(s, u, p)
    {
    }
    forall p | p in s'.next
      ensures Known(s', p) && FlagInv(s', g, p)
    {
      assert Known(s, p) && FlagInv(s, g, p);
      if u :| u in s'.droppers && Pushes(s', u, p) {
        assert Pushes(s, u, p);
      }
    }
  }

  lemma KeepsStoreNext(s: State, g: Lists, t: ThreadId)
    requires Inv(s, g) && Enabled(s, DropperStep(t)) && s.droppers[t].StoreNext?
    ensures Inv(DropStepOf(s, t), g)
  {
    hide MemInv, ListInv, Flags, Pushers, Hands, FullMembers, OwnerInv;
    var page := s.droppers[t].page;
    var s' := DropStepOf(s, t);
    OwnPageUnlisted(s, g, t);
    PagesKnown(s, t, s');
    assert s'.nextFree.Keys == s.nextFree.Keys;
    MemFrame(s, s');
    OwnerFrame(s, s', g);
    ListFrame(s, s', g);
    HandsFrame(s, s', g);
    assert SamePushes(s, s');
    FlagsFrame(s, s', g);
    LinksOwnPage(s, g, t);
  }

  lemma OwnPageUnlisted(s: State, g: Lists, t: ThreadId)
    requires Pushers(s, g) && t in s.droppers && Pushing(s.droppers[t])
    ensures !Placed(s, g, s.droppers[t].page)
  {
    assert Pushes(s, t, s.droppers[t].page);
  }

  /** Only the pusher of a page writes its link, so no other pusher's reading goes stale. */
  lemma LinksOwnPage(s: State, g: Lists, t: ThreadId)
    requires Pushers(s, g) && Enabled(s, DropperStep(t)) && s.droppers[t].StoreNext?
    ensures Pushers(DropStepOf(s, t), g)
  {
    var s' := DropStepOf(s, t);
    assert Pushes(s, t, s.droppers[t].page);
    assert SamePushes(s, s');
    forall u | u in s'.droppers && s'.droppers[u].CasHead?
      ensures s'.droppers[u].page in s'.nextFree && s'.nextFree[s'.droppers[u].page] == s'.droppers[u].head
    {
      if u != t {
        assert Pushes(s, u, s.droppers[u].page);
      }
    }
    forall u, p | Pushes(s', u, p)
      ensures Pushes(s, u, p) && !Placed(s', g, p)
    {
    }
  }

  /** A successful compare-and-swap moves the page from its pusher to the head of the pending
      list; that the head may have changed and changed back meanwhile makes no difference. */
  lemma Publishes(s: State, g: Lists, t: ThreadId)
    requires Inv(s, g) && Enabled(s, DropperStep(t)) && s.droppers[t].CasHead? && s.pending == s.droppers[t].head
    ensures Inv(DropStepOf(s, t), FollowDropper(s, g, t))
  {
    hide MemInv, Flags, Pushers, FullMembers, OwnerInv;
    var page := s.droppers[t].page;
    var s', g' := DropStepOf(s, t), FollowDropper(s, g, t);
    OwnPageUnlisted(s, g, t);
    PagesKnown(s, t, s');
    MemFrame(s, s');
    OwnerFrame(s, s', g);
    OwnerIgnoresPending(s', g, g');
    LinkIsHead(s, g, t);
    ChainPush(s.nextFree, s.pending, g.pending, page);
    assert ListInv(s', g') && Hands(s', g');
    PublishedPlace(s, g, t);
  }

  lemma LinkIsHead(s: State, g: Lists, t: ThreadId)
    requires Pushers(s, g) && t in s.droppers && s.droppers[t].CasHead?
    ensures s.droppers[t].page in s.nextFree && s.nextFree[s.droppers[t].page] == s.droppers[t].head
  {
  }

  lemma OwnerIgnoresPending(s: State, g: Lists, g': Lists)
    requires OwnerInv(s, g) && FullMembers(s, g) && g' == g.(pending := g'.pending)
    ensures OwnerInv(s, g') && FullMembers(s, g')
  {
  }

  lemma PublishedPlace(s: State, g: Lists, t: ThreadId)
    requires Flags(s, g) && Pushers(s, g) && t in s.droppers && s.droppers[t].CasHead?
    ensures var page := s.droppers[t].page;
            var s', g' := Stop(s.(pending := Some(page)), t), g.(pending := [page] + g.pending);
            Flags(s', g') && Pushers(s', g')
  {
    var page := s.droppers[t].page;
    var s', g' := Stop(s.(pending := Some(page)), t), g.(pending := [page] + g.pending);
    assert Pushes(s, t, page);
    forall u, p
      ensures Pushes(s', u, p) <==> Pushes(s, u, p) && p != page
    {
    }
    forall p
      ensures Placed(s', g', p) <==> Placed(s, g, p) || p == page
    {
    }
    forall p | p in s'.next
      ensures Known(s', p) && FlagInv(s', g', p)
    {
      assert Known(s, p) && FlagInv(s, g, p);
      if p == page {
        assert Pushed(s, p);
        assert !Pushed(s', p);
      } else {
        SamePushed(s, s', p);
      }
    }
  }

  /** No step of a dropper disturbs the lists. */
  lemma KeepsDropperStep(s: State, g: Lists, t: ThreadId)
    requires Inv(s, g) && Enabled(s, DropperStep(t))
    ensures Inv(DropStepOf(s, t), FollowDropper(s, g, t))
  {
    hide MemInv, ListInv, Flags, Pushers, Hands, FullMembers, OwnerInv;
    var s' := DropStepOf(s, t);
    match s.droppers[t] {
      case LoadFlag(p) =>
        PagesKnown(s, t, s');
        assert SamePushes(s, s');
        KeepsMove(s, g, s');
      case SwapFlag(p) => KeepsSwapFlag(s, g, t);
      case Upgrade(p) => KeepsUpgrade(s, g, t);
      case LoadHead(p) =>
        PagesKnown(s, t, s');
        assert SamePushes(s, s');
        KeepsMove(s, g, s');
      case StoreNext(p, head) => KeepsStoreNext(s, g, t);
      case CasHead(p, head) =>
        if s.pending == head {
          Publishes(s, g, t);
        } else {
          PagesKnown(s, t, s');
          assert SamePushes(s, s');
          KeepsMove(s, g, s');
        }
    }
  }
}
