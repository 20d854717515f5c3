/** A page that SharedArena::shrink_to_fit misses. Its documentation (src/shared_arena.rs:587-592)
    promises to drop every unused page; here is an arena with one that stays. */
module SharedMissed {
  import opened Bitfield
  import opened Chains
  import opened Tally
  import opened PageList
  import opened Shelves
  import opened SharedPageOps
  import opened SharedArenas

  type Block = Place<PageSharedArena>

  /** A new arena whose only page is full. */
  method FillPage() returns (arena: SharedArena, blocks: seq<Block>, ghost page: PageSharedArena)
    ensures fresh(arena) && fresh(arena.list) && fresh(arena.made)
    ensures arena.Valid() && arena.list.alive && arena.npages == 1 && arena.full == [page]
    ensures |blocks| == BLOCK_PER_PAGE && NoDup(blocks) && arena.InUse() == Elems(blocks)
    ensures forall block | block in blocks :: block.page == page
  {
    hide SharedArena.Valid, SharedArena.InUse;
    arena := new SharedArena(BLOCK_PER_PAGE);
    blocks := [];
    while |blocks| < BLOCK_PER_PAGE
      invariant fresh(arena) && fresh(arena.list) && fresh(arena.made)
      invariant arena.Valid() && arena.list.alive && arena.npages == 1
      invariant |blocks| <= BLOCK_PER_PAGE && NoDup(blocks) && arena.InUse() == Elems(blocks)
    {
      hide NoDup, Elems;
      NoDupSize(blocks);
      var block := arena.FindPlace();
      AppendNoDup(blocks, block);
      ElemsAdd(blocks, block);
      blocks := blocks + [block];
    }
    arena.UseFits();
    arena.UsedIsListed();
    page := arena.full[0];
    assert forall block | block in blocks :: block in Elems(blocks);
  }

  lemma ElemsAdd<A>(s: seq<A>, x: A)
    ensures Elems(s + [x]) == Elems(s) + {x}
  {
  }

  /** One block more makes a second page, and takes the full one off the free list. */
  method SecondPage() returns (arena: SharedArena, blocks: seq<Block>, last: Block, ghost page: PageSharedArena)
    ensures fresh(arena) && fresh(arena.list) && fresh(arena.made)
    ensures arena.Valid() && arena.list.alive && page in arena.made && page in arena.full && page !in arena.free
    ensures NoDup(blocks) && blocks != [] && last !in blocks && last.page != page && arena.InUse() == Elems(blocks) + {last}
    ensures forall block | block in blocks :: block.page == page
  {
    hide SharedArena.Valid, SharedArena.InUse, NoDup, Elems;
    arena, blocks, page := FillPage();
    NoDupSize(blocks);
    last := arena.FindPlace();
    arena.UseFits();
    arena.UsedIsListed();
    ElemsIn(blocks);
    arena.UsedIsSafe(blocks[0]);
  }

  lemma ElemsIn<A>(s: seq<A>)
    ensures forall x :: x in Elems(s) <==> x in s
  {
  }

  /** Giving all blocks of the first page back leaves it on the pending list, unused. */
  method UnusedPending() returns (arena: SharedArena, ghost page: PageSharedArena)
    ensures fresh(arena) && fresh(arena.list) && fresh(arena.made) && arena.Valid() && arena.list.alive
    ensures page in arena.made && page in arena.full && page in arena.pending && page !in arena.free && Held(page.data) == {}
  {
    hide SharedArena.Valid, SharedArena.InUse, NoDup, Elems;
    var blocks, last;
    arena, blocks, last, page := SecondPage();
    var n := 0;
    while n < |blocks|
      invariant n <= |blocks| && fresh(arena) && fresh(arena.list) && fresh(arena.made)
      invariant arena.Valid() && arena.list.alive && arena.InUse() == Elems(blocks[n..]) + {last}
      invariant page in arena.made && page in arena.full && page !in arena.free && (n > 0 ==> page in arena.pending)
    {
      RestElems(blocks, n, last);
      arena.UsedIsSafe(blocks[n]);
      arena.GiveBack(blocks[n]);
      n := n + 1;
    }
    assert blocks[n..] == [];
    NoElems<Block>();
    arena.NothingHeldIn(page);
  }

  /** Giving block n back leaves the later ones. */
  lemma RestElems(blocks: seq<Block>, n: nat, last: Block)
    requires NoDup(blocks) && n < |blocks| && last !in blocks
    ensures blocks[n] in Elems(blocks[n..]) && (Elems(blocks[n..]) + {last}) - {blocks[n]} == Elems(blocks[n + 1..]) + {last}
  {
    TailSplits(blocks, n);
    assert last != blocks[n];
    forall x
      ensures x in (Elems(blocks[n..]) + {last}) - {blocks[n]} <==> x in Elems(blocks[n + 1..]) + {last}
    {
    }
  }

  /** Whatever arena it is called on, shrink_to_fit leaves an unused page that is pending where it
      is: it takes all the unused pages of the free list, and that page stays on the pending list
      and on the list of all pages, neither waiting to be freed nor freed. */
  method ShrinkLeaves(arena: SharedArena, ghost page: PageSharedArena) returns (ghost removed: seq<PageSharedArena>)
    requires arena.Valid() && arena.list.alive && page in arena.pending && Held(page.data) == {}
    modifies arena`freeList, arena`fullList, arena`npages, arena`toFree, arena`toFreeDelay, arena`full, arena`free
    modifies arena.made`next, arena.made`nextFree
    ensures arena.Valid() && arena.list.alive && UnusedPages(old(arena.View()), removed) && page !in removed
    ensures arena.full == Without(old(arena.full), Elems(removed)) && arena.free == Without(old(arena.free), Elems(removed))
    ensures Vec(arena.toFree) == Vec(old(arena.toFree)) + removed
    ensures page in arena.pending && page in arena.full && page !in arena.free && page !in Vec(arena.toFree)
    ensures page in arena.made && page.deallocs == 0
  {
    hide SharedArena.Valid, SharedArena.InUse, SharedArena.View, Held, Elems, Without, UnusedPages;
    ghost var before := arena.View();
    arena.PendingMissed(page);
    var ok;
    ok, removed := arena.ShrinkToFit();
    assert page in before.pending && before.full == old(arena.full);
    PendingStays(before, removed, page);
    arena.ListedStays(page);
  }

  /** A history that leads there: the one page of a new arena is filled, a block more makes a second
      page, the first is given back and waits on the pending list, and shrink_to_fit is called.
      `before` is the arena at that call. */
  method ShrinkMissesPending()
    returns (arena: SharedArena, ghost page: PageSharedArena, ghost before: Shelf<PageSharedArena>, ghost removed: seq<PageSharedArena>)
    ensures ShelfOk(before) && before.alive && page in before.pending && page in before.full && page in before.held && before.held[page] == {}
    ensures UnusedPages(before, removed) && page !in removed
    ensures arena.Valid() && arena.list.alive && arena.full == Without(before.full, Elems(removed))
    ensures page in arena.full && page in arena.pending && page.deallocs == 0 && page !in Vec(arena.toFree)
  {
    hide SharedArena.InUse, SharedArena.View, Held, Elems, Without, UnusedPages, ShelfOk;
    arena, page := UnusedPending();
    before := arena.View();
    arena.PendingMissed(page);
    hide SharedArena.Valid;
    removed := ShrinkLeaves(arena, page);
  }
}
