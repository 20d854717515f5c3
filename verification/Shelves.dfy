/** What the invariants of Arena and SharedArena say about their pages, apart from the heap and
    the words: a pure state, and the moves that their methods, taken as atomic, make on it. */
module Shelves {
  import opened Bitfield
  import opened Chains
  import opened Tally
  import opened Growth

  datatype Shelf<A> = Shelf(
    held: map<A, set<nat>>,      // every page ever made: its blocks in use
    owned: map<A, bool>,         // its arena bit
    deallocs: map<A, nat>,
    full: seq<A>,                // the list of all pages of the arena
    free: seq<A>,
    pending: seq<A>,
    toFree: seq<A>,              // pages shrunk away, whose deallocation is delayed
    alive: bool,                 // the arena has not been dropped
    npages: nat,
    initial: nat,                // the blocks it was created with
    peak: nat)                   // the most blocks ever in use together

  /** The blocks in use. */
  ghost function Live<A>(b: Shelf<A>): set<Place<A>> {
    Places(b.held.Keys, b.held)
  }

  ghost predicate PageOk<A>(b: Shelf<A>, p: A)
    requires p in b.held && p in b.owned && p in b.deallocs
  {
    b.held[p] <= Indices() &&
    b.owned[p] == (p in b.full || p in b.toFree) &&
    b.deallocs[p] == (if !b.owned[p] && b.held[p] == {} then 1 else 0) &&
    (b.alive && p !in b.full ==> b.held[p] == {})
  }

  ghost predicate PagesOk<A>(b: Shelf<A>) {
    b.held.Keys == b.owned.Keys == b.deallocs.Keys &&
    forall p | p in b.held :: p in b.owned && p in b.deallocs && PageOk(b, p)
  }

  ghost predicate OrderOk<A>(b: Shelf<A>) {
    && NoDup(b.full) && NoDup(b.free) && NoDup(b.pending) && NoDup(b.toFree)
    && (forall p | p in b.free :: p in b.full && p !in b.pending)
    && (forall p | p in b.pending :: p in b.full)
    && (forall p | p in b.full :: p in b.held && p !in b.toFree)
    && (forall p | p in b.toFree :: p in b.held)
    && (!b.alive ==> b.full == [] && b.toFree == [])
  }

  /** Every listed page with a free block is on the free or the pending list, and every pending
      page has a free block. */
  ghost predicate Stocked<A>(b: Shelf<A>) {
    (forall p | p in b.full && p in b.held && b.held[p] != Indices() :: p in b.free || p in b.pending) &&
    (forall p | p in b.pending && p in b.held :: b.held[p] != Indices())
  }

  ghost predicate Bounded<A>(b: Shelf<A>) {
    BLOCK_PER_PAGE <= b.initial && |Live(b)| <= b.peak && b.npages * BLOCK_PER_PAGE <= Max(b.initial, 2 * b.peak) &&
    (b.alive ==> b.npages == |b.full|)
  }

  ghost predicate ShelfOk<A>(b: Shelf<A>) {
    PagesOk(b) && OrderOk(b) && Stocked(b) && Bounded(b)
  }

  // ---------------------------------------------------------------- counting

  /** The blocks in use are those of the listed pages. */
  lemma LiveTotal<A>(b: Shelf<A>)
    requires PagesOk(b) && OrderOk(b) && b.alive
    ensures (forall p | p in b.full :: p in b.held) && |Live(b)| == Total(b.full, b.held)
  {
    TotalIsPlaces(b.full, b.held);
    forall p | p in b.held && p !in b.full
      ensures b.held[p] == {}
    {
      assert PageOk(b, p);
    }
    assert Live(b) == Places(Elems(b.full), b.held);
  }

  /** With nothing on the free and the pending list, every block of every listed page is in use. */
  lemma AllInUse<A>(b: Shelf<A>)
    requires ShelfOk(b) && b.alive && b.free == [] && b.pending == []
    ensures |Live(b)| == b.npages * BLOCK_PER_PAGE
  {
    hide Live, PageOk;
    LiveTotal(b);
    TotalFull(b.full, b.held);
  }

  lemma HeldIndices<A>(b: Shelf<A>)
    requires PagesOk(b)
    ensures forall p | p in b.held :: b.held[p] <= Indices()
  {
    assert forall p | p in b.held :: PageOk(b, p);
  }

  /** The free blocks, counted on the free and the pending list only. */
  lemma FreeTotal<A>(b: Shelf<A>)
    requires ShelfOk(b) && b.alive
    ensures forall p | p in b.free + b.pending :: p in b.held
    ensures Spare(b.free + b.pending, b.held) + |Live(b)| == b.npages * BLOCK_PER_PAGE
  {
    hide Live, PageOk;
    LiveTotal(b);
    HeldIndices(b);
    SpareTotal(b.full, b.held);
    JoinNoDup(b.free, b.pending);
    SpareElsewhere(b.full, b.free + b.pending, b.held);
  }

  // ---------------------------------------------------------------- fresh, new and old pages

  lemma FreshOk<A>(b: Shelf<A>)
    requires b.held.Keys == b.owned.Keys == b.deallocs.Keys == Elems(b.full) && NoDup(b.full) && b.free == b.full && b.full != []
    requires forall p | p in b.held :: b.held[p] == {} && p in b.owned && b.owned[p] && p in b.deallocs && b.deallocs[p] == 0
    requires b.npages == |b.full| && b.initial == b.npages * BLOCK_PER_PAGE && b.pending == [] && b.toFree == [] && b.alive
    ensures ShelfOk(b) && Live(b) == {}
  {
    assert forall p | p in b.held :: PageOk(b, p);
    assert Live(b) == {};
  }

  /** Fresh pages in front of both lists. */
  ghost predicate Grown<A>(b: Shelf<A>, b': Shelf<A>, news: seq<A>) {
    NoDup(news) && (forall p | p in news :: p !in b.held) && |news| <= AtLeastOne(b.npages) &&
    b' == b.(held := b'.held, owned := b'.owned, deallocs := b'.deallocs, full := news + b.full, free := news, npages := b.npages + |news|) &&
    b'.held.Keys == b'.owned.Keys == b'.deallocs.Keys == b.held.Keys + Elems(news) &&
    (forall p | p in b.held && p in b.owned && p in b.deallocs ::
       b'.held[p] == b.held[p] && b'.owned[p] == b.owned[p] && b'.deallocs[p] == b.deallocs[p]) &&
    (forall p | p in news :: b'.held[p] == {} && b'.owned[p] && b'.deallocs[p] == 0)
  }

  lemma KeepsGrown<A>(b: Shelf<A>, b': Shelf<A>, news: seq<A>)
    requires ShelfOk(b) && b.alive && b.free == [] && b.pending == [] && Grown(b, b', news)
    ensures ShelfOk(b') && Live(b') == Live(b)
  {
    hide PageOk, Live;
    GrownPages(b, b', news);
    GrownLive(b, b', news);
    GrownOrder(b, b', news);
    AllInUse(b);
    GrowthBounded(b.npages, |news|, b.initial, b.peak);
  }

  lemma GrownPages<A>(b: Shelf<A>, b': Shelf<A>, news: seq<A>)
    requires PagesOk(b) && Grown(b, b', news)
    ensures PagesOk(b')
  {
    forall p | p in b'.held
      ensures PageOk(b', p)
    {
      if p in b.held {
        assert PageOk(b, p);
      }
    }
  }

  lemma GrownOrder<A>(b: Shelf<A>, b': Shelf<A>, news: seq<A>)
    requires OrderOk(b) && b.alive && b.free == [] && b.pending == [] && Stocked(b) && Grown(b, b', news) && PagesOk(b)
    ensures OrderOk(b') && Stocked(b')
  {
    hide PageOk;
    JoinNoDup(news, b.full);
  }

  lemma GrownLive<A>(b: Shelf<A>, b': Shelf<A>, news: seq<A>)
    requires Grown(b, b', news) && PagesOk(b)
    ensures Live(b') == Live(b)
  {
    hide PageOk;
    assert forall p | p in b'.held && p !in b.held :: p in news;
  }

  /** Pages whose deallocation was delayed go back in front of both lists; a prefix stays. */
  ghost predicate Reinserted<A>(b: Shelf<A>, b': Shelf<A>, pages: seq<A>, rest: seq<A>) {
    b.toFree == rest + pages && pages != [] && |pages| <= AtLeastOne(b.npages) &&
    b' == b.(full := pages + b.full, free := pages, toFree := rest, npages := b.npages + |pages|)
  }

  lemma KeepsReinserted<A>(b: Shelf<A>, b': Shelf<A>, pages: seq<A>, rest: seq<A>)
    requires ShelfOk(b) && b.alive && b.free == [] && b.pending == [] && Reinserted(b, b', pages, rest)
    ensures ShelfOk(b') && Live(b') == Live(b)
  {
    hide PageOk;
    SplitNoDup(rest, pages);
    ReinsertedPages(b, b', pages, rest);
    JoinNoDup(pages, b.full);
    AllInUse(b);
    GrowthBounded(b.npages, |pages|, b.initial, b.peak);
  }

  lemma ReinsertedPages<A>(b: Shelf<A>, b': Shelf<A>, pages: seq<A>, rest: seq<A>)
    requires PagesOk(b) && Reinserted(b, b', pages, rest)
    ensures PagesOk(b')
  {
    forall p | p in b'.held
      ensures PageOk(b', p)
    {
      assert PageOk(b, p);
    }
  }

  // ---------------------------------------------------------------- searching

  /** A full page leaves the free list. */
  lemma KeepsPopped<A>(b: Shelf<A>)
    requires ShelfOk(b) && b.free != [] && b.free[0] in b.held && b.held[b.free[0]] == Indices()
    ensures ShelfOk(b.(free := b.free[1..])) && Live(b.(free := b.free[1..])) == Live(b)
  {
    hide Live;
    var b' := b.(free := b.free[1..]);
    assert b.free == [b.free[0]] + b.free[1..];
    assert forall p | p in b.held :: PageOk(b, p) ==> PageOk(b', p);
    SamePlaces(b, b');
  }

  lemma SamePlaces<A>(b: Shelf<A>, b': Shelf<A>)
    requires b'.held == b.held
    ensures Live(b') == Live(b)
  {
  }

  /** The pending list becomes the free list. */
  lemma KeepsTaken<A>(b: Shelf<A>)
    requires ShelfOk(b) && b.free == []
    ensures ShelfOk(b.(free := b.pending, pending := [])) && Live(b.(free := b.pending, pending := [])) == Live(b)
  {
    hide Live;
    var b' := b.(free := b.pending, pending := []);
    assert forall p | p in b.held :: PageOk(b, p) ==> PageOk(b', p);
    SamePlaces(b, b');
  }

  /** Block i of a page on the free list is taken. */
  ghost predicate Acquired<A>(b: Shelf<A>, b': Shelf<A>, p: A, i: nat) {
    p in b.free && p in b.held && i in Indices() && i !in b.held[p] &&
    var held := b.held[p := b.held[p] + {i}];
    b' == b.(held := held, peak := Max(b.peak, |Places(held.Keys, held)|))
  }

  lemma KeepsAcquired<A>(b: Shelf<A>, b': Shelf<A>, p: A, i: nat)
    requires ShelfOk(b) && b.alive && Acquired(b, b', p, i)
    ensures ShelfOk(b') && Place(p, i) !in Live(b) && Live(b') == Live(b) + {Place(p, i)}
    ensures b'.peak == Max(b.peak, |Live(b')|)
  {
    hide PageOk, Live, Places;
    AcquiredPages(b, b', p, i);
    AcquiredLive(b, b', p, i);
  }

  lemma AcquiredLive<A>(b: Shelf<A>, b': Shelf<A>, p: A, i: nat)
    requires Acquired(b, b', p, i)
    ensures Place(p, i) !in Live(b) && Live(b') == Live(b) + {Place(p, i)} && b'.peak == Max(b.peak, |Live(b')|)
  {
    assert Live(b') == Live(b) + {Place(p, i)};
  }

  lemma AcquiredPages<A>(b: Shelf<A>, b': Shelf<A>, p: A, i: nat)
    requires PagesOk(b) && OrderOk(b) && Acquired(b, b', p, i)
    ensures PagesOk(b')
  {
    forall q | q in b'.held
      ensures PageOk(b', q)
    {
      assert PageOk(b, q);
    }
  }

  // ---------------------------------------------------------------- giving back

  /** A block is given back: the last one of a page without owner deallocates it; a listed page
      ends on the free or the pending list. */
  ghost predicate Returned<A>(b: Shelf<A>, b': Shelf<A>, p: A, i: nat) {
    p in b.held && p in b.owned && p in b.deallocs && i in b.held[p] &&
    var last := !b.owned[p] && b.held[p] - {i} == {};
    b' == b.(held := b.held[p := b.held[p] - {i}], deallocs := b.deallocs[p := b.deallocs[p] + (if last then 1 else 0)],
             pending := b'.pending) &&
    (b.alive ==> b'.pending == if p in b.free || p in b.pending then b.pending else [p] + b.pending) &&
    (!b.alive ==> b'.pending == b.pending)
  }

  lemma KeepsReturned<A>(b: Shelf<A>, b': Shelf<A>, p: A, i: nat)
    requires ShelfOk(b) && Returned(b, b', p, i)
    ensures ShelfOk(b') && Live(b') == Live(b) - {Place(p, i)}
  {
    ReturnedPages(b, b', p, i);
    ReturnedOrder(b, b', p, i);
    ReturnedLive(b, b', p, i);
  }

  lemma ReturnedPages<A>(b: Shelf<A>, b': Shelf<A>, p: A, i: nat)
    requires PagesOk(b) && Returned(b, b', p, i)
    ensures PagesOk(b')
  {
    forall q | q in b'.held
      ensures PageOk(b', q)
    {
      assert PageOk(b, q);
    }
  }

  lemma ReturnedOrder<A>(b: Shelf<A>, b': Shelf<A>, p: A, i: nat)
    requires PagesOk(b) && OrderOk(b) && Stocked(b) && Returned(b, b', p, i)
    ensures OrderOk(b') && Stocked(b')
  {
    assert PageOk(b, p);
    assert i in Indices() && i !in b'.held[p];
  }

  lemma ReturnedLive<A>(b: Shelf<A>, b': Shelf<A>, p: A, i: nat)
    requires Returned(b, b', p, i) && Bounded(b)
    ensures Live(b') == Live(b) - {Place(p, i)} && Bounded(b')
  {
    assert Place(p, i) in Live(b);
    assert Live(b') == Live(b) - {Place(p, i)};
  }

  // ---------------------------------------------------------------- letting pages go

  /** The pages of r lose their arena bit, and those with nothing held are deallocated. */
  ghost predicate LetGo<A>(b: Shelf<A>, b': Shelf<A>, r: set<A>) {
    b'.held == b.held && b'.owned.Keys == b.owned.Keys && b'.deallocs.Keys == b.deallocs.Keys &&
    b'.initial == b.initial && b'.peak == b.peak &&
    forall p | p in b.held && p in b.owned && p in b.deallocs ::
      b'.owned[p] == (b.owned[p] && p !in r) &&
      b'.deallocs[p] == b.deallocs[p] + (if p in r && b.held[p] == {} then 1 else 0)
  }

  /** toDrop are unused pages of the full list. */
  ghost predicate UnusedPages<A>(b: Shelf<A>, toDrop: seq<A>) {
    NoDup(toDrop) && |toDrop| <= b.npages &&
    (forall p | p in toDrop :: p in b.free && p in b.full && p in b.held && b.held[p] == {}) &&
    (forall p | p in b.free && p in b.held :: p in toDrop <==> b.held[p] == {})
  }

  lemma UnusedCount<A>(b: Shelf<A>, toDrop: seq<A>)
    requires OrderOk(b) && b.npages == |b.full| && NoDup(toDrop)
    requires forall p | p in toDrop :: p in b.free && p in b.held && b.held[p] == {}
    requires forall p | p in b.free && p in b.held && b.held[p] == {} :: p in toDrop
    ensures UnusedPages(b, toDrop)
  {
    FilterCounts(b.full, toDrop);
  }

  /** The documentation promises that shrink_to_fit drops every unused page
      (src/arena.rs:434-439, src/shared_arena.rs:587-592). It misses exactly those that wait on
      the pending list, so it keeps the promise if and only if no unused page waits there. */
  lemma ShrinkIsComplete<A>(b: Shelf<A>, toDrop: seq<A>)
    requires ShelfOk(b) && UnusedPages(b, toDrop)
    ensures forall p | p in b.full && p in b.held && b.held[p] == {} :: p in toDrop <==> p !in b.pending
    ensures (forall p | p in b.full && p in b.held && b.held[p] == {} :: p in toDrop) <==>
            (forall p | p in b.pending && p in b.held :: b.held[p] != {})
  {
    hide Live, PageOk;
    assert 0 in Indices();
    forall p | p in b.full && p in b.held && b.held[p] == {}
      ensures p in toDrop <==> p !in b.pending
    {
      assert p in b.free || p in b.pending;
    }
  }

  lemma PendingStays<A>(b: Shelf<A>, toDrop: seq<A>, p: A)
    requires ShelfOk(b) && UnusedPages(b, toDrop) && p in b.pending && p in b.held && b.held[p] == {}
    ensures p !in toDrop && p in Without(b.full, Elems(toDrop)) && p !in Without(b.free, Elems(toDrop))
  {
    hide PagesOk, Stocked, Bounded;
    FilterMembers(b.full, toDrop);
    FilterMembers(b.free, toDrop);
  }

  /** Arena::shrink_to_fit: unused pages leave both lists and are deallocated. */
  ghost predicate Shrunk<A>(b: Shelf<A>, b': Shelf<A>, toDrop: seq<A>) {
    UnusedPages(b, toDrop) && LetGo(b, b', Elems(toDrop)) &&
    b' == b.(owned := b'.owned, deallocs := b'.deallocs, full := Without(b.full, Elems(toDrop)),
             free := Without(b.free, Elems(toDrop)), npages := b.npages - |toDrop|)
  }

  lemma KeepsShrunk<A>(b: Shelf<A>, b': Shelf<A>, toDrop: seq<A>)
    requires ShelfOk(b) && b.alive && Shrunk(b, b', toDrop)
    ensures ShelfOk(b') && Live(b') == Live(b)
  {
    hide PageOk, PagesOk, OrderOk, Stocked, Live;
    FilterMembers(b.full, toDrop);
    SamePlaces(b, b');
    ShrunkPages(b, b', toDrop);
    ShrunkOrder(b, b', toDrop);
  }

  lemma ShrunkOrder<A>(b: Shelf<A>, b': Shelf<A>, toDrop: seq<A>)
    requires OrderOk(b) && Stocked(b) && b.alive && b.npages == |b.full| && Shrunk(b, b', toDrop)
    ensures OrderOk(b') && Stocked(b') && b'.npages == |b'.full|
  {
    FilterMembers(b.full, toDrop);
    FilterMembers(b.free, toDrop);
    FilterNoDup(b.full, Elems(toDrop));
    FilterNoDup(b.free, Elems(toDrop));
    FilterCounts(b.full, toDrop);
    hide Without, NoDup;
  }

  lemma ShrunkPages<A>(b: Shelf<A>, b': Shelf<A>, toDrop: seq<A>)
    requires PagesOk(b) && OrderOk(b) && b.alive && Shrunk(b, b', toDrop)
    requires forall p :: p in b'.full <==> p in b.full && p !in toDrop
    ensures PagesOk(b')
  {
    forall p | p in b'.held
      ensures PageOk(b', p)
    {
      assert PageOk(b, p);
    }
  }

  /** SharedArena::shrink_to_fit: unused pages leave both lists; their deallocation is delayed. */
  ghost predicate Delayed<A>(b: Shelf<A>, b': Shelf<A>, toDrop: seq<A>) {
    UnusedPages(b, toDrop) &&
    b' == b.(full := Without(b.full, Elems(toDrop)), free := Without(b.free, Elems(toDrop)),
             toFree := b.toFree + toDrop, npages := b.npages - |toDrop|)
  }

  lemma KeepsDelayed<A>(b: Shelf<A>, b': Shelf<A>, toDrop: seq<A>)
    requires ShelfOk(b) && b.alive && Delayed(b, b', toDrop)
    ensures ShelfOk(b') && Live(b') == Live(b)
  {
    hide PageOk, PagesOk, OrderOk, Stocked, Live;
    FilterMembers(b.full, toDrop);
    SamePlaces(b, b');
    DelayedPages(b, b', toDrop);
    DelayedOrder(b, b', toDrop);
  }

  lemma DelayedOrder<A>(b: Shelf<A>, b': Shelf<A>, toDrop: seq<A>)
    requires OrderOk(b) && Stocked(b) && b.alive && b.npages == |b.full| && Delayed(b, b', toDrop)
    ensures OrderOk(b') && Stocked(b') && b'.npages == |b'.full|
  {
    FilterMembers(b.full, toDrop);
    FilterMembers(b.free, toDrop);
    FilterNoDup(b.full, Elems(toDrop));
    FilterNoDup(b.free, Elems(toDrop));
    FilterCounts(b.full, toDrop);
    JoinNoDup(b.toFree, toDrop);
    hide Without, NoDup;
  }

  lemma DelayedPages<A>(b: Shelf<A>, b': Shelf<A>, toDrop: seq<A>)
    requires PagesOk(b) && OrderOk(b) && b.alive && Delayed(b, b', toDrop)
    requires forall p :: p in b'.full <==> p in b.full && p !in toDrop
    ensures PagesOk(b')
  {
    forall p | p in b'.held
      ensures PageOk(b', p)
    {
      assert PageOk(b, p);
    }
  }

  /** The delay is over: the pages are deallocated. */
  lemma KeepsFreed<A>(b: Shelf<A>, b': Shelf<A>)
    requires ShelfOk(b) && b.alive && LetGo(b, b', Elems(b.toFree))
    requires b' == b.(owned := b'.owned, deallocs := b'.deallocs, toFree := [])
    ensures ShelfOk(b') && Live(b') == Live(b)
    ensures forall p | p in b.toFree :: p in b.deallocs && b.deallocs[p] == 0 && b'.deallocs[p] == 1
  {
    forall p | p in b'.held
      ensures PageOk(b', p)
    {
      assert PageOk(b, p);
    }
    assert forall p | p in b.toFree :: PageOk(b, p);
  }

  /** The arena is dropped: it lets all its pages go; blocks in use stay. */
  lemma KeepsClosed<A>(b: Shelf<A>, b': Shelf<A>)
    requires ShelfOk(b) && b.alive && LetGo(b, b', Elems(b.full + b.toFree))
    requires b' == b.(owned := b'.owned, deallocs := b'.deallocs, full := [], free := [], pending := [], toFree := [], alive := false)
    ensures ShelfOk(b') && Live(b') == Live(b)
  {
    forall p | p in b'.held
      ensures PageOk(b', p)
    {
      assert PageOk(b, p);
    }
  }

  // ---------------------------------------------------------------- what follows

  /** Where a page can be. */
  datatype Fate = Listed | DelayedFree | Orphaned | Deallocated

  ghost predicate Has<A>(b: Shelf<A>, p: A, fate: Fate)
    requires p in b.held && p in b.deallocs
  {
    match fate
    case Listed => p in b.full
    case DelayedFree => p in b.toFree
    case Orphaned => p !in b.full && p !in b.toFree && !b.alive && b.held[p] != {}
    case Deallocated => b.deallocs[p] == 1
  }

  /** Every page ever made is in exactly one of these places, and none is deallocated twice. */
  lemma OneFate<A>(b: Shelf<A>, p: A)
    requires ShelfOk(b) && p in b.held
    ensures p in b.deallocs && b.deallocs[p] <= 1
    ensures exists fate :: Has(b, p, fate) && forall other | Has(b, p, other) :: other == fate
  {
    assert PageOk(b, p);
    if p in b.full {
      assert Has(b, p, Listed);
    } else if p in b.toFree {
      assert Has(b, p, DelayedFree);
    } else if b.held[p] != {} {
      assert Has(b, p, Orphaned);
    } else {
      assert Has(b, p, Deallocated);
    }
  }

  /** Once the arena and every block are gone, every page has been deallocated exactly once. */
  lemma NothingLeaks<A>(b: Shelf<A>)
    requires ShelfOk(b) && !b.alive && Live(b) == {}
    ensures forall p | p in b.held :: p in b.deallocs && b.deallocs[p] == 1
  {
    forall p | p in b.held
      ensures p in b.deallocs && b.deallocs[p] == 1
    {
      assert PageOk(b, p);
      HeldIsLive(b, p);
    }
  }

  lemma HeldIsLive<A>(b: Shelf<A>, p: A)
    requires p in b.held
    ensures forall i | i in b.held[p] :: Place(p, i) in Live(b)
  {
  }
}
