/** The arena as a whole simulates ArenaLists: each of its accesses is an access of ArenaLists, or
    does not show there. What ArenaRuns and ArenaPage prove of every reachable state, or of every
    access, holds of it. ArenaWholeShrink carries the results about runs of shrink_to_fit over. */
module ArenaWholeRuns {
  import opened Options
  import opened Bitfield
  import opened Chains
  import opened ArenaWhole
  import I = ArenaListsInv
  import S = ArenaShrink

  lemma AbsSteps(s: L.State, step: L.Step)
    requires R.Reachable(s) && L.Enabled(s, step)
    ensures R.Reachable(L.Apply(s, step)) && R.Next(s, L.Apply(s, step))
  {
    hide L.Apply, L.Enabled;
    assert R.Next(s, L.Apply(s, step));
    R.Reaches(s, step, L.Apply(s, step));
  }

  /** What the lists see of an access: nothing, or an access of their own. */
  ghost predicate Shows(w: Whole, w': Whole) {
    Abs(w') == Abs(w) || R.Next(Abs(w), Abs(w'))
  }

  /** The access of the lists that one access shows as. */
  ghost predicate ShowsAs(w: Whole, w': Whole, step: L.Step) {
    L.Enabled(Abs(w), step) && Abs(w') == L.Apply(Abs(w), step)
  }

  lemma AsNext(w: Whole, w': Whole, step: L.Step)
    requires ShowsAs(w, w', step)
    ensures R.Next(Abs(w), Abs(w'))
  {
    hide L.Enabled, L.Apply, Abs;
  }

  // ---------------------------------------------------------------- accesses to the lists

  /** A whole arena that stands for a reachable state of ArenaLists. */
  lemma LandsOn(w: Whole, s: L.State)
    requires R.Reachable(s) && Agree(w.lists, s) && PagesOk(w) && ThreadsOk(w)
    requires s.held == HeldOf(w.pages) && s.released == ReleasedOf(w.pages) && s.deallocs == DeallocsOf(w.pages)
    ensures Inv(w) && Abs(w) == s
  {
    AbsIs(w, s);
  }

  lemma AbsFields(w: Whole)
    ensures var s := Abs(w);
            Agree(w.lists, s) && s.held == HeldOf(w.pages) && s.released == ReleasedOf(w.pages) && s.deallocs == DeallocsOf(w.pages)
  {
  }

  lemma KeepsOnLists(w: Whole, step: L.Step)
    requires Inv(w) && Enabled(w, OnLists(step))
    ensures Inv(Apply(w, OnLists(step))) && ShowsAs(w, Apply(w, OnLists(step)), step)
  {
    hide L.Enabled, L.Apply, Abs, Agree, Inv, PagesOk, ThreadsOk, Bare, Keeps, Blind, HeldOf, ReleasedOf, DeallocsOf, NewPages;
    UnfoldInv(w);
    AbsFields(w);
    AbsSteps(Abs(w), step);
    var s, w' := L.Apply(Abs(w), step), Apply(w, OnLists(step));
    BareAgrees(s);
    BlindAgrees(w, step);
    if Grows(step) {
      GrowFacts(Abs(w), step);
      GrownPages(w, w', s, step);
    } else {
      BlindKeeps(Abs(w), step);
      NoNewPages(step);
      assert w.pages + NewPages(step) == w.pages;
      KeptFields(Abs(w), s);
      KeptThreads(w, w', s);
    }
    LandsOn(w', s);
  }

  lemma UnfoldInv(w: Whole)
    requires Inv(w)
    ensures PagesOk(w) && ThreadsOk(w) && R.Reachable(Abs(w))
  {
  }

  lemma BlindAgrees(w: Whole, step: L.Step)
    requires Blind(w.lists, step)
    ensures Blind(Abs(w), step)
  {
  }

  lemma BareAgrees(s: L.State)
    ensures Agree(Bare(s), s)
  {
  }

  lemma NoNewPages(step: L.Step)
    requires !Grows(step)
    ensures NewPages(step) == map[]
  {
  }

  lemma KeptFields(s: L.State, s': L.State)
    requires Keeps(s, s')
    ensures s'.held == s.held && s'.released == s.released && s'.deallocs == s.deallocs && s'.next.Keys == s.next.Keys
  {
  }

  lemma KeptThreads(w: Whole, w': Whole, s: L.State)
    requires PagesOk(w) && ThreadsOk(w) && Keeps(Abs(w), s) && Agree(w'.lists, s) && w'.pages == w.pages
    ensures PagesOk(w') && ThreadsOk(w')
  {
    hide P.Reachable, HeldOf, DeallocsOf, ReleasedOf;
  }

  // ---------------------------------------------------------------- new pages

  /** A new page has every block in its private word. */
  lemma FreshPageFacts()
    ensures P.Reachable(FreshPage()) && P.Out(FreshPage()) == {} && P.Owned(FreshPage()) && Deallocs(FreshPage()) == 0
  {
    assert P.ReachableIn(FreshPage(), 0);
    ConstantWords();
  }

  /** What growth does in ArenaLists. */
  lemma GrowFacts(s: L.State, step: L.Step)
    requires Grows(step) && L.Enabled(s, step)
    ensures var s', news := L.Apply(s, step), step.find.news;
            s'.held == s.held + L.FillPages<set<nat>>(news, {}) && s'.released == s.released && s'.droppers == s.droppers &&
            s'.deallocs == s.deallocs + L.FillPages<nat>(news, 0) && s'.next.Keys == s.next.Keys + Elems(news)
    ensures s.owner.Growing? && forall p | p in step.find.news :: p !in s.next
  {
    hide NewLinks, L.FillPages, L.OwnerTouches, L.ShrinkStep, L.DropStepOf, L.GiveBackStep, L.ShrinkEnabled;
    NewLinksKeys(step.find.news, s.full);
  }

  lemma GrownPages(w: Whole, w': Whole, s: L.State, step: L.Step)
    requires PagesOk(w) && ThreadsOk(w) && Grows(step) && Agree(w'.lists, s) && w'.pages == w.pages + NewPages(step)
    requires w.lists.owner.Growing? && forall p | p in step.find.news :: p !in w.lists.next
    requires s.held == HeldOf(w.pages) + L.FillPages<set<nat>>(step.find.news, {}) && s.released == ReleasedOf(w.pages)
    requires s.deallocs == DeallocsOf(w.pages) + L.FillPages<nat>(step.find.news, 0) && s.droppers == w.lists.droppers
    requires s.next.Keys == w.lists.next.Keys + Elems(step.find.news)
    ensures s.held == HeldOf(w'.pages) && s.released == ReleasedOf(w'.pages) && s.deallocs == DeallocsOf(w'.pages)
    ensures PagesOk(w') && ThreadsOk(w')
  {
    hide P.Reachable, HeldOf, DeallocsOf, ReleasedOf, L.FillPages, NewPages, ThreadsOk, FreshPage;
    NewPagesAre(w.pages, step);
    GrownMaps(w.pages, w'.pages, step.find.news);
    GrownThreads(w, w', step.find.news);
    FreshPageFacts();
  }

  lemma GrownThreads(w: Whole, w': Whole, news: seq<Addr>)
    requires ThreadsOk(w) && w.lists.owner.Growing? && w'.lists.droppers == w.lists.droppers
    requires w'.pages.Keys == w.pages.Keys + Elems(news)
    requires forall p | p in w'.pages :: w'.pages[p] == if p in news then FreshPage() else w.pages[p]
    ensures ThreadsOk(w')
  {
    assert FreshPage().droppers == map[] && !Inside(FreshPage());
    hide FreshPage;
    forall p, t | p in w'.pages && t in w'.pages[p].droppers
      ensures p in w.pages && w'.pages[p] == w.pages[p]
    {
    }
    forall p | p in w'.pages
      ensures !Inside(w'.pages[p])
    {
      assert p !in news ==> p in w.pages;
    }
  }

  lemma NewPagesAre(pages: map<Addr, P.State>, step: L.Step)
    requires Grows(step)
    ensures var pages', news := pages + NewPages(step), step.find.news;
            pages'.Keys == pages.Keys + Elems(news) && forall p | p in pages' :: pages'[p] == if p in news then FreshPage() else pages[p]
  {
  }

  lemma GrownMaps(pages: map<Addr, P.State>, pages': map<Addr, P.State>, news: seq<Addr>)
    requires pages'.Keys == pages.Keys + Elems(news) && forall p | p in news :: p !in pages
    requires forall p | p in pages' :: pages'[p] == if p in news then FreshPage() else pages[p]
    ensures HeldOf(pages') == HeldOf(pages) + L.FillPages<set<nat>>(news, {})
    ensures DeallocsOf(pages') == DeallocsOf(pages) + L.FillPages<nat>(news, 0)
    ensures ReleasedOf(pages') == ReleasedOf(pages)
  {
    hide P.Out, P.Owned, Deallocs, FreshPage;
    FreshPageFacts();
    GrownReleased(pages, pages', news);
    hide ReleasedOf;
  }

  lemma GrownReleased(pages: map<Addr, P.State>, pages': map<Addr, P.State>, news: seq<Addr>)
    requires pages'.Keys == pages.Keys + Elems(news) && forall p | p in news :: p !in pages
    requires forall p | p in pages' :: pages'[p] == if p in news then FreshPage() else pages[p]
    requires P.Owned(FreshPage())
    ensures ReleasedOf(pages') == ReleasedOf(pages)
  {
    hide P.Owned, FreshPage;
  }

  // ---------------------------------------------------------------- accesses to the words

  lemma TurnedPages(w: Whole, p: Addr, step: P.Step, w': Whole)
    requires PagesOk(w) && p in w.pages && P.Enabled(w.pages[p], step)
    requires w'.pages == Turn(w, p, step) && w'.lists.next == w.lists.next
    ensures PagesOk(w')
  {
    hide P.Apply, P.Enabled, P.Reachable, P.Owned;
    PageSteps(w.pages[p], step);
  }

  lemma TurnedThreads(w: Whole, p: Addr, page: P.State, w': Whole)
    requires ThreadsOk(w) && p in w.pages && w'.pages == w.pages[p := page]
    requires forall t | t in page.droppers :: t !in w'.lists.droppers && (t in w.pages[p].droppers || !Busy(w, t))
    requires forall t | t in w'.lists.droppers && t !in w.lists.droppers :: t in w.pages[p].droppers
    requires Inside(page) ==> w'.lists.owner.Scan? && w'.lists.freeList == Some(p)
    requires w.lists.owner.Scan? && w.lists.freeList != Some(p) ==>
               w'.lists.owner == w.lists.owner && w'.lists.freeList == w.lists.freeList
    ensures ThreadsOk(w')
  {
    hide Inside;
    forall q, t | q in w'.pages && t in w'.pages[q].droppers
      ensures t !in w'.lists.droppers
    {
    }
    forall q, r, t | q in w'.pages && r in w'.pages && t in w'.pages[q].droppers && t in w'.pages[r].droppers
      ensures q == r
    {
    }
    forall q | q in w'.pages && Inside(w'.pages[q])
      ensures w'.lists.owner.Scan? && w'.lists.freeList == Some(q)
    {
    }
  }

  /** Accesses that do not show in the lists. */
  lemma KeepsQuiet(w: Whole, p: Addr, step: P.Step)
    requires Inv(w) && p in w.pages && P.Enabled(w.pages[p], step) && !step.DropPage?
    requires P.Out(P.Apply(w.pages[p], step)) == P.Out(w.pages[p])
    requires ThreadsOk(w.(pages := Turn(w, p, step)))
    ensures Inv(w.(pages := Turn(w, p, step))) && Abs(w.(pages := Turn(w, p, step))) == Abs(w)
  {
    hide PagesOk, ThreadsOk, Abs, Turn, P.Out, P.Apply, P.Enabled;
    QuietTurn(w, p, step);
    TurnedPages(w, p, step, w.(pages := Turn(w, p, step)));
  }

  lemma KeepsOwnerFrees(w: Whole, p: Addr)
    requires Inv(w) && Enabled(w, OwnerFrees(p))
    ensures Inv(Apply(w, OwnerFrees(p))) && Abs(Apply(w, OwnerFrees(p))) == Abs(w)
  {
    var page := P.Apply(w.pages[p], P.OwnerDeallocate);
    P.RefinesLists(w.pages[p], P.OwnerDeallocate);
    hide P.Out, Abs, P.Reachable, HeldOf, ReleasedOf, DeallocsOf, R.Reachable;
    TurnedThreads(w, p, page, Apply(w, OwnerFrees(p)));
    KeepsQuiet(w, p, P.OwnerDeallocate);
  }

  lemma KeepsFrees(w: Whole, t: ThreadId, p: Addr)
    requires Inv(w) && Enabled(w, Frees(t, p))
    ensures Inv(Apply(w, Frees(t, p))) && Abs(Apply(w, Frees(t, p))) == Abs(w)
  {
    var page := P.Apply(w.pages[p], P.Deallocate(t));
    P.RefinesLists(w.pages[p], P.Deallocate(t));
    hide P.Out, Abs, P.Reachable, HeldOf, ReleasedOf, DeallocsOf, R.Reachable;
    TurnedThreads(w, p, page, Apply(w, Frees(t, p)));
    KeepsQuiet(w, p, P.Deallocate(t));
  }

  lemma KeepsBeginDrop(w: Whole, t: ThreadId, p: Addr, i: nat)
    requires Inv(w) && Enabled(w, BeginDrop(t, p, i))
    ensures Inv(Apply(w, BeginDrop(t, p, i))) && Abs(Apply(w, BeginDrop(t, p, i))) == Abs(w)
  {
    var page := P.Apply(w.pages[p], P.BeginDrop(t, i));
    P.RefinesLists(w.pages[p], P.BeginDrop(t, i));
    hide P.Out, Abs, P.Reachable, HeldOf, ReleasedOf, DeallocsOf, R.Reachable;
    TurnedThreads(w, p, page, Apply(w, BeginDrop(t, p, i)));
    KeepsQuiet(w, p, P.BeginDrop(t, i));
  }

  // ---------------------------------------------------------------- acquire_free_block

  /** What the owner's access to the words of page p amounts to. */
  lemma KeepsInPage(w: Whole, step: P.Step)
    requires Inv(w) && Enabled(w, InPage(step))
    ensures Inv(Apply(w, InPage(step))) && Shows(w, Apply(w, InPage(step)))
  {
    hide P.Out, Abs, P.Reachable, Inv, PagesOk, ThreadsOk;
    UnfoldInv(w);
    var p := w.lists.freeList.value;
    var page, w' := P.Apply(w.pages[p], step), Apply(w, InPage(step));
    SearchedThreads(w, step);
    AtReachable(w, p);
    P.RefinesLists(w.pages[p], step);
    SearchEnds(w.pages[p], step);
    if !page.owner.Idle? {
      assert w' == w.(pages := Turn(w, p, step));
      KeepsQuiet(w, p, step);
    } else if step.ReadPrivate? {
      var i :| i in Indices() && i !in P.Out(w.pages[p]) && P.Out(page) == P.Out(w.pages[p]) + {i};
      KeepsAcquire(w, i);
    } else {
      KeepsAcquireFails(w);
    }
  }

  lemma AtReachable(w: Whole, p: Addr)
    requires PagesOk(w) && p in w.pages
    ensures P.Reachable(w.pages[p])
  {
  }

  lemma SearchedThreads(w: Whole, step: P.Step)
    requires ThreadsOk(w) && Enabled(w, InPage(step))
    ensures ThreadsOk(Apply(w, InPage(step)))
  {
    var p := w.lists.freeList.value;
    TurnedThreads(w, p, P.Apply(w.pages[p], step), Apply(w, InPage(step)));
  }

  /** A read that ends the search has found a free block. */
  lemma SearchEnds(p: P.State, step: P.Step)
    requires P.Reachable(p) && OwnersAccess(step) && P.Enabled(p, step)
    ensures P.Apply(p, step).owner.Idle? ==> step.LoadAtomic? || step.ReadPrivate?
    ensures step.ReadPrivate? ==> (P.Apply(p, step).owner.Idle? <==> Free(p.priv) != {})
  {
    P.ReachableInv(p);
    TrailingZerosFinds(p.priv);
  }

  lemma KeepsAcquire(w: Whole, i: nat)
    requires Inv(w) && Enabled(w, InPage(P.ReadPrivate)) && ThreadsOk(Apply(w, InPage(P.ReadPrivate)))
    requires var page := w.pages[w.lists.freeList.value];
             var page' := P.Apply(page, P.ReadPrivate);
             page'.owner.Idle? && i in Indices() && i !in P.Out(page) && P.Out(page') == P.Out(page) + {i}
    ensures Inv(Apply(w, InPage(P.ReadPrivate))) && R.Next(Abs(w), Abs(Apply(w, InPage(P.ReadPrivate))))
  {
    hide Abs, P.Apply, P.Out, Deallocs, HeldOf, ReleasedOf, DeallocsOf, ThreadsOk, PagesOk, P.Reachable, R.Reachable;
    UnfoldInv(w);
    AbsFields(w);
    var p, s := w.lists.freeList.value, Abs(w);
    var w' := Apply(w, InPage(P.ReadPrivate));
    R.NothingPanics(s);
    OwnedDeallocs(w, p, P.ReadPrivate);
    TurnAbs(w, p, P.ReadPrivate);
    AtPage(w.pages, p);
    AbsSteps(s, L.Find(L.Acquire(i)));
    TurnedPages(w, p, P.ReadPrivate, w');
    LandsOn(w', L.Apply(s, L.Find(L.Acquire(i))));
  }

  /** Inside acquire_free_block nothing is deallocated. */
  lemma OwnedDeallocs(w: Whole, p: Addr, step: P.Step)
    requires PagesOk(w) && p in w.pages && OwnersAccess(step) && P.Enabled(w.pages[p], step)
    ensures Deallocs(P.Apply(w.pages[p], step)) == Deallocs(w.pages[p]) == 0
  {
    DeallocsAre(w.pages[p]);
    PageSteps(w.pages[p], step);
    DeallocsAre(P.Apply(w.pages[p], step));
  }

  lemma KeepsAcquireFails(w: Whole)
    requires Inv(w) && Enabled(w, InPage(P.LoadAtomic)) && ThreadsOk(Apply(w, InPage(P.LoadAtomic)))
    requires var page := w.pages[w.lists.freeList.value];
             var page' := P.Apply(page, P.LoadAtomic);
             page'.owner.Idle? && P.Out(page) == Indices() && P.Out(page') == P.Out(page)
    ensures Inv(Apply(w, InPage(P.LoadAtomic))) && R.Next(Abs(w), Abs(Apply(w, InPage(P.LoadAtomic))))
  {
    hide Abs, P.Apply, P.Out, Deallocs, HeldOf, ReleasedOf, DeallocsOf, ThreadsOk, PagesOk, P.Reachable, R.Reachable;
    UnfoldInv(w);
    AbsFields(w);
    var p, s := w.lists.freeList.value, Abs(w);
    var w' := Apply(w, InPage(P.LoadAtomic));
    R.NothingPanics(s);
    OwnedDeallocs(w, p, P.LoadAtomic);
    TurnAbs(w, p, P.LoadAtomic);
    AtPage(w.pages, p);
    AbsSteps(s, L.Find(L.AcquireFails));
    TurnedPages(w, p, P.LoadAtomic, w');
    LandsOn(w', L.Apply(s, L.Find(L.AcquireFails)));
  }

  // ---------------------------------------------------------------- drop_block

  lemma KeepsFetchAdd(w: Whole, t: ThreadId, p: Addr)
    requires Inv(w) && Enabled(w, FetchAdd(t, p))
    ensures Inv(Apply(w, FetchAdd(t, p))) && R.Next(Abs(w), Abs(Apply(w, FetchAdd(t, p))))
  {
    hide Abs, P.Out, Deallocs, HeldOf, ReleasedOf, DeallocsOf, ThreadsOk, PagesOk, P.Reachable, R.Reachable, R.Next, Inv;
    UnfoldInv(w);
    AbsFields(w);
    AtReachable(w, p);
    var s, i := Abs(w), w.pages[p].droppers[t].index;
    var w' := Apply(w, FetchAdd(t, p));
    P.RefinesLists(w.pages[p], P.FetchAdd(t));
    GivesBack(w, t, p);
    AtPage(w.pages, p);
    DroppedDeallocs(w.pages[p], t);
    TurnAbs(w, p, P.FetchAdd(t));
    hide P.Apply;
    GaveBack(s, t, p, i);
    AbsSteps(s, L.GiveBack(t, p, i));
    TurnedPages(w, p, P.FetchAdd(t), w');
    hide L.Apply, L.Enabled;
    LandsOn(w', L.Apply(s, L.GiveBack(t, p, i)));
  }

  lemma GivesBack(w: Whole, t: ThreadId, p: Addr)
    requires PagesOk(w) && ThreadsOk(w) && R.Reachable(Abs(w)) && Enabled(w, FetchAdd(t, p))
    ensures t !in w.lists.droppers && L.Known(Abs(w), p) && ThreadsOk(Apply(w, FetchAdd(t, p)))
  {
    hide P.Out, HeldOf, ReleasedOf, DeallocsOf, P.Reachable;
    PageKnown(w, p);
    TurnedThreads(w, p, P.Apply(w.pages[p], P.FetchAdd(t)), Apply(w, FetchAdd(t, p)));
  }

  lemma PageKnown(w: Whole, p: Addr)
    requires PagesOk(w) && R.Reachable(Abs(w)) && p in w.pages
    ensures L.Known(Abs(w), p)
  {
    hide I.ListInv, I.Flags, I.Pushers, I.Hands, I.FullMembers, I.OwnerInv;
    var g := R.ReachableInv(Abs(w));
    R.CursorKnown(Abs(w), p);
  }

  /** The last block of a page let go leaves the dropper about to deallocate it. */
  lemma DroppedDeallocs(p: P.State, t: ThreadId)
    requires P.Reachable(p) && P.Enabled(p, P.FetchAdd(t))
    ensures var p' := P.Apply(p, P.FetchAdd(t));
            Deallocs(p) == 0 && Deallocs(p') == (if !P.Owned(p) && P.Out(p') == {} then 1 else 0)
  {
    P.RefinesLists(p, P.FetchAdd(t));
    DeallocsAre(p);
    PageSteps(p, P.FetchAdd(t));
    DeallocsAre(P.Apply(p, P.FetchAdd(t)));
  }

  /** The same access in ArenaLists. */
  lemma GaveBack(s: L.State, t: ThreadId, p: Addr, i: nat)
    requires t !in s.droppers && L.Known(s, p) && i in s.held[p]
    ensures var step := L.GiveBack(t, p, i);
            L.Enabled(s, step) &&
            var s' := L.Apply(s, step);
            var last := s.held[p] - {i} == {} && p in s.released;
            Agree(s'.(droppers := s.droppers), s) && s'.held == s.held[p := s.held[p] - {i}] && s'.released == s.released &&
            s'.deallocs == s.deallocs[p := s.deallocs[p] + (if last then 1 else 0)] &&
            s'.droppers == (if last then s.droppers else s.droppers[t := L.LoadFlag(p)])
  {
    assert s.deallocs[p := s.deallocs[p]] == s.deallocs;
  }

  // ---------------------------------------------------------------- the tests of shrink_to_fit

  /** Both words of a page the arena owns are all ones together exactly when no block is out. */
  lemma LooksRight(w: Whole, p: Addr)
    requires PagesOk(w) && p in w.pages && p !in ReleasedOf(w.pages)
    ensures p in HeldOf(w.pages) && (FindsUnused(w, p) <==> HeldOf(w.pages)[p] == {})
  {
    P.ReachableInv(w.pages[p]);
    P.TestFindsUnused(w.pages[p]);
  }

  /** The owner moves and no word changes. */
  lemma KeepsOwnerMove(w: Whole, o: L.Owner, step: L.Step)
    requires Inv(w) && L.Enabled(Abs(w), step) && L.Apply(Abs(w), step) == Abs(w).(owner := o) && !w.lists.owner.Scan?
    ensures Inv(w.(lists := w.lists.(owner := o))) && Abs(w.(lists := w.lists.(owner := o))) == L.Apply(Abs(w), step)
  {
    hide L.Apply, L.Enabled;
    AbsSteps(Abs(w), step);
    var w' := w.(lists := w.lists.(owner := o));
    AbsIs(w', L.Apply(Abs(w), step));
  }

  lemma KeepsTest(w: Whole)
    requires Inv(w) && Enabled(w, Test)
    ensures Inv(Apply(w, Test)) && ShowsAs(w, Apply(w, Test), L.Shrink(L.FreeStep))
  {
    hide Abs, HeldOf, ReleasedOf, DeallocsOf, ThreadsOk, PagesOk, Inv;
    UnfoldInv(w);
    AbsFields(w);
    var p := w.lists.owner.at.page;
    TestedIsOwned(Abs(w));
    LooksRight(w, p);
    KeepsOwnerMove(w, TestTurn(w).owner, L.Shrink(L.FreeStep));
  }

  lemma TestedIsOwned(s: L.State)
    requires R.Reachable(s) && s.owner.FreeLoop? && s.owner.at.Test?
    ensures s.owner.at.page !in s.released
  {
    var g := R.ReachableInv(s);
    S.FreeCell(s, g);
    var p := s.owner.at.page;
    R.NothingPanics(s);
    assert I.FlagInv(s, g, p);
  }

  lemma KeepsCheck(w: Whole)
    requires Inv(w) && Enabled(w, Check)
    ensures Inv(Apply(w, Check)) && ShowsAs(w, Apply(w, Check), L.Shrink(L.CheckStep))
  {
    hide Abs, HeldOf, ReleasedOf, DeallocsOf, ThreadsOk, PagesOk, Inv;
    UnfoldInv(w);
    AbsFields(w);
    var toDrop, k := w.lists.owner.toDrop, w.lists.owner.k;
    CheckedIsOwned(Abs(w));
    if k < |toDrop| {
      LooksRight(w, toDrop[k]);
    }
    KeepsOwnerMove(w, CheckTurn(w).owner, L.Shrink(L.CheckStep));
  }

  lemma CheckedIsOwned(s: L.State)
    requires R.Reachable(s) && s.owner.DropCheck?
    ensures s.owner.k <= |s.owner.toDrop|
    ensures s.owner.k < |s.owner.toDrop| ==> s.owner.toDrop[s.owner.k] !in s.released
  {
    var g := R.ReachableInv(s);
    R.NothingPanics(s);
    hide I.MemInv, I.ListInv, I.Flags, I.Pushers, I.Hands, I.OwnerInv;
    var toDrop, k := s.owner.toDrop, s.owner.k;
    if k < |toDrop| {
      assert toDrop[k..][0] == toDrop[k];
    }
  }

  // ---------------------------------------------------------------- drop_page

  /** The access of ArenaLists that calls drop_page. */
  function LeavingStep(w: Whole): L.Step {
    L.Shrink(if w.lists.owner.DropOne? then L.DropStep else L.CloseStep)
  }

  lemma KeepsLetGo(w: Whole)
    requires Inv(w) && Enabled(w, LetGo)
    ensures Inv(Apply(w, LetGo)) && ShowsAs(w, Apply(w, LetGo), LeavingStep(w))
  {
    hide Abs, P.Out, P.Apply, P.Enabled, Deallocs, HeldOf, ReleasedOf, DeallocsOf, ThreadsOk, PagesOk, P.Reachable, R.Reachable, Inv;
    UnfoldInv(w);
    AbsFields(w);
    var p, s, w' := Leaving(w.lists.owner).value, Abs(w), Apply(w, LetGo);
    var step := LeavingStep(w);
    LetGoDeallocs(w, p);
    AtPage(w.pages, p);
    TurnAbs(w, p, P.DropPage);
    LetGoForm(w, s);
    LetGoThreads(w, p, w');
    TurnedPages(w, p, P.DropPage, w');
    hide L.Apply, L.Enabled, LeaveTurn, Leaving;
    AbsSteps(s, step);
    LandsOn(w', L.Apply(s, step));
  }

  lemma LetGoDeallocs(w: Whole, p: Addr)
    requires PagesOk(w) && p in w.pages && P.Enabled(w.pages[p], P.DropPage)
    ensures var page, page' := w.pages[p], P.Apply(w.pages[p], P.DropPage);
            P.Out(page') == P.Out(page) && Deallocs(page) == 0 && Deallocs(page') == if P.Out(page) == {} then 1 else 0
  {
    P.RefinesLists(w.pages[p], P.DropPage);
    DeallocsAre(w.pages[p]);
    PageSteps(w.pages[p], P.DropPage);
    DeallocsAre(P.Apply(w.pages[p], P.DropPage));
  }

  lemma LetGoThreads(w: Whole, p: Addr, w': Whole)
    requires ThreadsOk(w) && Enabled(w, LetGo) && p == Leaving(w.lists.owner).value && w' == Apply(w, LetGo)
    ensures ThreadsOk(w')
  {
    TurnedThreads(w, p, P.Apply(w.pages[p], P.DropPage), w');
  }

  /** The same access in ArenaLists. */
  lemma LetGoForm(w: Whole, s: L.State)
    requires Agree(w.lists, s) && L.OwnerTouches(s) && Leaving(w.lists.owner).Some? && Leaving(w.lists.owner).value in w.lists.next
    ensures var p, step := Leaving(w.lists.owner).value, LeavingStep(w);
            L.Known(s, p) && L.Enabled(s, step) &&
            var s' := L.Apply(s, step);
            Agree(LeaveTurn(w.lists, p), s') && s'.held == s.held && s'.released == s.released + {p} &&
            s'.deallocs == s.deallocs[p := s.deallocs[p] + (if s.held[p] == {} then 1 else 0)]
  {
    var p := Leaving(w.lists.owner).value;
    assert L.Known(s, p);
    assert s.deallocs[p := s.deallocs[p]] == s.deallocs;
  }

  // ---------------------------------------------------------------- every run

  /** Every access of every thread is an access of ArenaLists or does not show there; it keeps the
      pages in states their words can reach and the lists in states ArenaLists can reach. */
  lemma StepKeepsInv(w: Whole, move: Move)
    requires Inv(w) && Enabled(w, move)
    ensures Inv(Apply(w, move))
    ensures Abs(Apply(w, move)) == Abs(w) || R.Next(Abs(w), Abs(Apply(w, move)))
  {
    hide Inv, Enabled, Apply, Abs, ShowsAs, R.Next;
    match move
    case OnLists(step) => KeepsOnLists(w, step); AsNext(w, Apply(w, move), step);
    case InPage(step) => KeepsInPage(w, step);
    case Test => KeepsTest(w); AsNext(w, Apply(w, move), L.Shrink(L.FreeStep));
    case Check => KeepsCheck(w); AsNext(w, Apply(w, move), L.Shrink(L.CheckStep));
    case LetGo => KeepsLetGo(w); AsNext(w, Apply(w, move), LeavingStep(w));
    case OwnerFrees(p) => KeepsOwnerFrees(w, p);
    case BeginDrop(t, p, i) => KeepsBeginDrop(w, t, p, i);
    case FetchAdd(t, p) => KeepsFetchAdd(w, t, p);
    case Frees(t, p) => KeepsFrees(w, t, p);
  }

  lemma FreshMaps(news: seq<Addr>)
    ensures var pages := map p | p in news :: FreshPage();
            HeldOf(pages) == L.FillPages<set<nat>>(news, {}) && DeallocsOf(pages) == L.FillPages<nat>(news, 0) && ReleasedOf(pages) == {}
  {
    hide P.Out, P.Owned, Deallocs, FreshPage;
    FreshPageFacts();
  }

  lemma FreshThreads(news: seq<Addr>)
    requires news != []
    ensures ThreadsOk(Whole(Bare(L.Fresh(news)), map p | p in news :: FreshPage()))
  {
  }

  lemma InitInv(news: seq<Addr>)
    requires news != [] && NoDup(news)
    ensures Inv(Whole(Bare(L.Fresh(news)), map p | p in news :: FreshPage()))
  {
    var w := Whole(Bare(L.Fresh(news)), map p | p in news :: FreshPage());
    hide HeldOf, ReleasedOf, DeallocsOf, FreshPage, NewLinks, L.FillPages;
    FreshPageFacts();
    NewLinksKeys(news, None);
    FreshMaps(news);
    FreshThreads(news);
    assert R.ReachableIn(L.Fresh(news), 0);
    LandsOn(w, L.Fresh(news));
  }

  ghost predicate Next(w: Whole, w': Whole) {
    exists move :: Enabled(w, move) && w' == Apply(w, move)
  }

  ghost predicate ReachableIn(w: Whole, n: nat)
    decreases n
  {
    if n == 0 then Init(w) else exists w0 :: ReachableIn(w0, n - 1) && Next(w0, w)
  }

  ghost predicate Reachable(w: Whole) {
    exists n: nat :: ReachableIn(w, n)
  }

  lemma {:induction false} ReachableInInv(w: Whole, n: nat)
    requires ReachableIn(w, n)
    ensures Inv(w)
    decreases n
  {
    hide Inv, Enabled, Apply;
    if n == 0 {
      var news: seq<Addr> :| news != [] && NoDup(news) && w == Whole(Bare(L.Fresh(news)), map p | p in news :: FreshPage());
      InitInv(news);
    } else {
      var w0 :| ReachableIn(w0, n - 1) && Next(w0, w);
      ReachableInInv(w0, n - 1);
      var move :| Enabled(w0, move) && w == Apply(w0, move);
      StepKeepsInv(w0, move);
    }
  }

  /** The arena as a whole simulates ArenaLists, and each page of it ArenaPage: whatever ArenaRuns
      and ArenaPage prove of every reachable state holds of every state it reaches. */
  lemma Simulates(w: Whole)
    requires Reachable(w)
    ensures R.Reachable(Abs(w))
    ensures w.pages.Keys == w.lists.next.Keys && forall p | p in w.pages :: P.Reachable(w.pages[p])
  {
    var n: nat :| ReachableIn(w, n);
    ReachableInInv(w, n);
  }

  /** No assertion fires and no access strays off the pages, reading words instead of sets of blocks. */
  lemma NothingPanics(w: Whole)
    requires Reachable(w)
    ensures !w.lists.owner.Panicked? && L.OwnerTouches(Abs(w)) && forall p | p in w.pages :: !w.pages[p].owner.Panicked?
  {
    hide L.OwnerTouches, P.Reachable, P.Inv;
    Simulates(w);
    R.NothingPanics(Abs(w));
    forall p | p in w.pages
      ensures !w.pages[p].owner.Panicked?
    {
      P.ReachableInv(w.pages[p]);
      P.WordsDisjoint(w.pages[p]);
    }
  }

  /** No page is ever deallocated twice; and once the arena is gone, nobody holds or is giving back
      a block, and drop_page has returned, every page ever allocated has been deallocated. */
  lemma NoLeak(w: Whole)
    requires Reachable(w)
    ensures forall p | p in w.pages :: w.pages[p].deallocs <= 1
    ensures w.lists.owner.Closed? &&
            (forall p | p in w.pages :: var page := w.pages[p]; page.held == {} && page.droppers == map[] && !page.owner.Freeing?) ==>
              forall p | p in w.pages :: w.pages[p].deallocs == 1
  {
    hide P.Reachable, R.Reachable;
    Simulates(w);
    ClosedOwnsNothing(w);
    forall p | p in w.pages
      ensures w.pages[p].deallocs <= 1
      ensures w.pages[p].owner.Gone? && w.pages[p].held == {} && w.pages[p].droppers == map[] ==> w.pages[p].deallocs == 1
    {
      P.DeallocatedExactlyOnce(w.pages[p]);
    }
  }

  lemma ClosedOwnsNothing(w: Whole)
    requires R.Reachable(Abs(w)) && w.pages.Keys == w.lists.next.Keys
    ensures w.lists.owner.Closed? ==> forall p | p in w.pages :: !P.Owned(w.pages[p])
  {
    var g := R.ReachableInv(Abs(w));
    hide I.Inv;
    if w.lists.owner.Closed? {
      R.ClosedReleases(Abs(w), g);
      assert forall p | p in w.pages :: p in ReleasedOf(w.pages);
    }
  }

  // ---------------------------------------------------------------- the words never hold the owner up

  /** Wherever the owner's next access reads or writes words, it can make it: the page it is at
      exists, has not been let go, and the owner is in no operation on another page. */
  lemma OwnerCanMove(w: Whole)
    requires Reachable(w)
    ensures w.lists.owner.Scan? && w.lists.freeList.Some? ==> exists step :: Enabled(w, InPage(step))
    ensures w.lists.owner.FreeLoop? && w.lists.owner.at.Test? ==> Enabled(w, Test)
    ensures w.lists.owner.DropCheck? ==> Enabled(w, Check)
    ensures Leaving(w.lists.owner).Some? ==> Enabled(w, LetGo)
  {
    hide Inv, Enabled, Leaving;
    var n: nat :| ReachableIn(w, n);
    ReachableInInv(w, n);
    CanMove(w);
  }

  lemma CanMove(w: Whole)
    requires Inv(w)
    ensures w.lists.owner.Scan? && w.lists.freeList.Some? ==> exists step :: Enabled(w, InPage(step))
    ensures w.lists.owner.FreeLoop? && w.lists.owner.at.Test? ==> Enabled(w, Test)
    ensures w.lists.owner.DropCheck? ==> Enabled(w, Check)
    ensures Leaving(w.lists.owner).Some? ==> Enabled(w, LetGo)
  {
    hide Inv, Abs, Agree, PagesOk, ThreadsOk, Enabled, Leaving, L.OwnerTouches, P.Reachable, R.Reachable;
    UnfoldInv(w);
    AbsFields(w);
    R.NothingPanics(Abs(w));
    OwnerAt(w);
    if w.lists.owner.Scan? && w.lists.freeList.Some? {
      var step := SearchCanMove(w);
      assert Enabled(w, InPage(step)) by { CanSearch(w, step); }
    }
    CanTest(w);
    if Leaving(w.lists.owner).Some? {
      CanLetGo(w, Leaving(w.lists.owner).value);
    }
  }

  lemma CanSearch(w: Whole, step: P.Step)
    requires Searching(w) && OwnersAccess(step) && P.Enabled(w.pages[w.lists.freeList.value], step)
    ensures Enabled(w, InPage(step))
  {
  }

  lemma CanTest(w: Whole)
    requires PagesOk(w) && L.OwnerTouches(Abs(w))
    ensures w.lists.owner.FreeLoop? && w.lists.owner.at.Test? ==> Enabled(w, Test)
    ensures w.lists.owner.DropCheck? ==> Enabled(w, Check)
  {
    OwnerAt(w);
    hide L.OwnerTouches, PagesOk;
  }

  lemma OwnerAt(w: Whole)
    requires PagesOk(w) && L.OwnerTouches(Abs(w))
    ensures w.lists.owner.Scan? && w.lists.freeList.Some? ==> w.lists.freeList.value in w.pages
    ensures w.lists.owner.FreeLoop? && w.lists.owner.at.Test? ==> w.lists.owner.at.page in w.pages
    ensures w.lists.owner.DropCheck? && w.lists.owner.k < |w.lists.owner.toDrop| ==> w.lists.owner.toDrop[w.lists.owner.k] in w.pages
    ensures Leaving(w.lists.owner).Some? ==> Leaving(w.lists.owner).value in w.pages
  {
    hide P.Reachable, HeldOf, DeallocsOf, ReleasedOf;
    assert w.pages.Keys == w.lists.next.Keys;
  }

  lemma SearchCanMove(w: Whole) returns (step: P.Step)
    requires PagesOk(w) && R.Reachable(Abs(w)) && Searching(w)
    ensures OwnersAccess(step) && P.Enabled(w.pages[w.lists.freeList.value], step)
  {
    hide R.Reachable;
    var page := w.pages[w.lists.freeList.value];
    SearchedIsOwned(Abs(w));
    AtPage(w.pages, w.lists.freeList.value);
    P.ReachableInv(page);
    hide P.Partition, Abs, P.Reachable;
    step := match page.owner
      case Idle => P.BeginAcquire
      case Scan(_) => P.ReadPrivate
      case AtLoad(_) => P.LoadAtomic
      case _ => P.SwapAtomic;
  }

  lemma SearchedIsOwned(s: L.State)
    requires R.Reachable(s) && s.owner.Scan? && s.freeList.Some?
    ensures s.freeList.value !in s.released
  {
    var g := R.ReachableInv(s);
    R.NothingPanics(s);
    hide I.MemInv, I.Pushers, I.Hands, I.FullMembers, I.OwnerInv;
    assert I.FlagInv(s, g, s.freeList.value);
  }

  lemma LeavingIsOwned(s: L.State, p: Addr)
    requires R.Reachable(s) && Leaving(s.owner) == Some(p)
    ensures p !in s.released
  {
    var g := R.ReachableInv(s);
    R.NothingPanics(s);
    hide I.MemInv, I.ListInv, I.Flags, I.Pushers, I.Hands;
    match s.owner
    case DropOne(_, toDrop, k) => assert toDrop[k..][0] == p;
    case Closing(_) => assert g.full[g.n..][0] == p;
    case _ =>
  }

  lemma CanLetGo(w: Whole, p: Addr)
    requires PagesOk(w) && ThreadsOk(w) && R.Reachable(Abs(w)) && p in w.pages && Leaving(w.lists.owner) == Some(p)
    requires L.OwnerTouches(Abs(w))
    ensures Enabled(w, LetGo)
  {
    hide ThreadsOk, PagesOk, Abs, R.Reachable, L.OwnerTouches, HeldOf, DeallocsOf, ReleasedOf, P.Reachable, P.Enabled, P.Owned;
    AbsFields(w);
    LeavingIsOwned(Abs(w), p);
    AtPage(w.pages, p);
    AtReachable(w, p);
    OwnerIsOutside(w, p);
    IdleIfOwned(w.pages[p]);
    InNext(w, p);
  }

  lemma InNext(w: Whole, p: Addr)
    requires PagesOk(w) && p in w.pages
    ensures p in w.lists.next
  {
    assert p in w.pages.Keys;
  }

  lemma OwnerIsOutside(w: Whole, p: Addr)
    requires ThreadsOk(w) && p in w.pages && !w.lists.owner.Scan?
    ensures !Inside(w.pages[p])
  {
  }

  lemma IdleIfOwned(p: P.State)
    requires P.Reachable(p) && P.Owned(p)
    ensures P.Enabled(p, P.DropPage) || Inside(p)
  {
    P.ReachableInv(p);
  }
}
