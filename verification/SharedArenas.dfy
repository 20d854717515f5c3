/** SharedArena with each operation taken as atomic (src/shared_arena.rs:85-279,
    src/shared_arena.rs:627-869). */
module SharedArenas {
  import opened Options
  import opened Bitfield
  import opened Chains
  import opened Tally
  import opened Growth
  import opened PageList
  import opened Shelves
  import opened SharedPageOps

  const DELAY_DROP_SHRINK: nat := 10

  function Vec(pages: Option<seq<PageSharedArena>>): seq<PageSharedArena> {
    if pages.Some? then pages.value else []
  }

  class SharedArena {
    const list: ListHead<Word>                   // `pending_free_list`, shared with the pages
    var freeList: Page?<Word>
    var fullList: Page?<Word>
    var npages: nat
    var toFree: Option<seq<PageSharedArena>>
    var toFreeDelay: nat

    ghost var made: set<PageSharedArena>         // every page ever made
    ghost var full: seq<PageSharedArena>
    ghost var free: seq<PageSharedArena>
    ghost var pending: seq<PageSharedArena>
    ghost var initial: nat                       // the blocks it was created with
    ghost var peak: nat                          // the most blocks ever in use together

    ghost function View(): Shelf<PageSharedArena>
      reads this`made, this`full, this`free, this`pending, this`toFree, this`npages, this`initial, this`peak
      reads list`alive, made`data, made`deallocs
    {
      Shelf(map p | p in made :: Held(p.data), map p | p in made :: ArenaBit(p.data), map p | p in made :: p.deallocs,
            full, free, pending, Vec(toFree), list.alive, npages, initial, peak)
    }

    /** View, field by field and page by page. */
    lemma ViewFacts()
      ensures var b := View();
              b.held.Keys == b.owned.Keys == b.deallocs.Keys == made && SamePages(b) && SameFields(b) &&
              b.full == full && b.free == free && b.pending == pending && b.toFree == Vec(toFree) &&
              b.npages == npages && b.initial == initial && b.peak == peak && b.alive == list.alive
    {
    }

    lemma ViewIs(b: Shelf<PageSharedArena>)
      requires b.held.Keys == made && SamePages(b) && SameFields(b)
      requires b.full == full && b.free == free && b.pending == pending && b.npages == npages && b.alive == list.alive
      ensures View() == b
    {
      assert View().held == b.held && View().owned == b.owned && View().deallocs == b.deallocs;
    }

    ghost predicate SameFields(b: Shelf<PageSharedArena>)
      reads this`toFree, this`initial, this`peak
    {
      Vec(toFree) == b.toFree && initial == b.initial && peak == b.peak
    }

    /** The pages known to b are as they were. */
    ghost predicate SamePages(b: Shelf<PageSharedArena>)
      reads b.held.Keys`data, b.held.Keys`deallocs
    {
      b.held.Keys == b.owned.Keys == b.deallocs.Keys &&
      forall p | p in b.held :: Held(p.data) == b.held[p] && ArenaBit(p.data) == b.owned[p] && p.deallocs == b.deallocs[p]
    }

    /** The blocks in use. */
    ghost function InUse(): set<Place<PageSharedArena>>
      reads this`made, this`full, this`free, this`pending, this`toFree, this`npages, this`initial, this`peak
      reads list`alive, made`data, made`deallocs
    {
      Live(View())
    }

    /** The three lists are well formed, and the flag of a listed page says whether it is on the
        free or the pending list. */
    ghost predicate ListsOk()
      reads this`made, this`full, this`free, this`pending, this`fullList, this`freeList, list
      reads made`next, made`nextFree, made`inFreeList
    {
      Belongs() &&
      (list.alive ==>
         FullList(made, fullList, full) && FreeList(made, freeList, free) && FreeList(made, list.head, pending) &&
         Flagged(made, full, free + pending))
    }

    ghost predicate Belongs()
      reads this`made
    {
      forall p | p in made :: p.list == list
    }

    /** Pages wait in to_free exactly while the delay is running. */
    predicate DelayOk()
      reads this`toFree, this`toFreeDelay, list`alive
    {
      toFreeDelay <= DELAY_DROP_SHRINK && (toFree.Some? ==> toFree.value != []) &&
      (list.alive ==> (toFree.Some? <==> toFreeDelay < DELAY_DROP_SHRINK))
    }

    ghost predicate Valid()
      reads this, list, made
    {
      ListsOk() && ShelfOk(View()) && DelayOk()
    }

    // -------------------------------------------------------------- creation

    constructor (cap: nat)
      ensures Valid() && list.alive && fresh(list) && fresh(made) && InUse() == {}
      ensures npages == PagesFor(cap) && initial == npages * BLOCK_PER_PAGE && peak == 0 && toFree.None? && toFreeDelay == 10
    {
      hide ListsOk, FullList, FreeList, Flagged, NoDup, ShelfOk, Live, View, PagesFor;
      var n := PagesFor(cap);
      var head := new ListHead();
      ghost var none: set<PageSharedArena> := {};
      EmptyLists(none);
      var first, news := GrowLists(n, ALL_ONES, head, null, null, none, [], []);
      list, freeList, fullList, npages := head, first, first, n;
      toFree, toFreeDelay := None, DELAY_DROP_SHRINK;
      assert none + Elems(news) == Elems(news) && news + [] == news;
      made, full, free, pending := Elems(news), news, news, [];
      initial, peak := n * BLOCK_PER_PAGE, 0;
      new;
      FreshLists();
      FreshView();
    }

    lemma FreshLists()
      requires FullList(made, fullList, full) && FreeList(made, freeList, free) && pending == [] && free == full && list.head == null
      requires Belongs() && forall p | p in full :: p in made && p.inFreeList
      ensures ListsOk()
    {
      EmptyLists(made);
      assert free + pending == free;
    }

    lemma FreshView()
      requires made == Elems(full) && NoDup(full) && free == full && full != [] && pending == [] && toFree.None? && list.alive
      requires forall p | p in made :: p.data == ALL_ONES && p.deallocs == 0
      requires npages == |full| && initial == npages * BLOCK_PER_PAGE
      ensures ShelfOk(View()) && InUse() == {}
    {
      NewWord();
      FreshOk(View());
    }

    // -------------------------------------------------------------- putting pages in the lists

    /** put_pages_in_lists: its assertions hold, because free_list is null. */
    method PutPagesInLists(n: nat, first: PageSharedArena, last: PageSharedArena, ghost pages: seq<PageSharedArena>)
      requires freeList == null && FullList(made, fullList, full) && NoDup(pages) && pages != [] && n == |pages|
      requires first == pages[0] && last == pages[n - 1] && forall p | p in pages :: p in made && p !in full
      requires forall i: nat | i < |pages| :: Opt(pages[i].next) == Opt(pages[i].nextFree) == At(pages, i + 1)
      modifies last`next, this`fullList, this`freeList, this`npages
      ensures FullList(made, fullList, pages + full) && FreeList(made, freeList, pages) && npages == old(npages) + n
      ensures freeList == first
    {
      hide NoDup, FullList;
      ghost var links := NextOf(made);
      FullFacts();
      var current := fullList;
      last.next := current;
      fullList := first;
      assert freeList == null;
      freeList := first;
      npages := npages + n;
      assert NextOf(made) == links[last := Opt(current)];
      PutLists(links, current, pages);
    }

    lemma FullFacts()
      requires FullList(made, fullList, full)
      ensures Chain(NextOf(made), Opt(fullList), full) && NoDup(full)
    {
    }

    lemma PutLists(links: Links<PageSharedArena>, head: Page?<Word>, pages: seq<PageSharedArena>)
      requires Chain(links, Opt(head), full) && NoDup(full) && NoDup(pages) && pages != []
      requires NextOf(made) == links[pages[|pages| - 1] := Opt(head)] && forall p | p in pages :: p in made && p !in full
      requires forall i: nat | i < |pages| ::
                 Opt(pages[i].nextFree) == At(pages, i + 1) && (i + 1 < |pages| ==> Opt(pages[i].next) == At(pages, i + 1))
      ensures FullList(made, pages[0], pages + full) && FreeList(made, pages[0], pages)
    {
      EmptyLists(made);
      ChainFrame(links, NextOf(made), Opt(head), full);
      assert pages[|pages| - 1] in NextOf(made);
      JoinFull(made, pages, head, full);
      JoinFree(made, pages, null, []);
      assert pages + [] == pages;
    }

    /** New pages in front of both lists, when every block is in use. */
    method AllocNewPage()
      requires Valid() && list.alive && freeList == null && list.head == null
      modifies this`npages, this`made, this`full, this`free, this`freeList, this`fullList
      ensures Valid() && list.alive && InUse() == old(InUse()) && fresh(made - old(made)) && old(made) <= made
      ensures npages == (if old(npages) == 0 then 1 else if old(npages) <= 900_000 then 2 * old(npages) else old(npages) + 900_000)
      ensures old(|InUse()|) == old(npages) * BLOCK_PER_PAGE
      ensures fresh(free) && NoDup(free) && made == old(made) + Elems(free) && full == free + old(full) && npages == old(npages) + |free|
      ensures free != [] && free[0] in made && Held(free[0].data) == {}
      ensures pending == [] && forall p | p in old(full) :: p !in free
    {
      hide ListsOk, FullList, FreeList, NoDup, ShelfOk, Live, Held, ArenaBit, GrowthSize, Flagged, NewPages, View, SameFields, SamePages, Belongs, NoFlags;
      ghost var before := View();
      ViewFacts();
      NothingListed();
      AllInUse(before);
      var toAllocate := GrowthSize(npages);
      ghost var news := PutNewPages(toAllocate);
      full, free := news + full, news;
      GrownView(before, news);
      GrownLists(before.full, news);
    }

    method PutNewPages(n: nat) returns (ghost news: seq<PageSharedArena>)
      requires n > 0 && freeList == null && FullList(made, fullList, full) && Belongs()
      modifies this`made, this`freeList, this`fullList, this`npages
      ensures |news| == n && fresh(news) && NoDup(news) && made == old(made) + Elems(news) && NewPages(news, full) && Belongs()
      ensures FullList(made, fullList, news + full) && FreeList(made, freeList, news) && npages == old(npages) + n
    {
      hide FullList, FreeList, NoDup, NewPages, Belongs;
      var first, last, pages := MakePages(n);
      NewPagesFacts(pages, full);
      PutPagesInLists(n, first, last, pages);
      news := pages;
    }

    ghost predicate NewPages(news: seq<PageSharedArena>, full0: seq<PageSharedArena>)
      reads news`data, news`deallocs, news`inFreeList
    {
      NoDup(news) && forall p | p in news :: p !in full0 && p.data == ALL_ONES && p.deallocs == 0 && p.inFreeList && p.list == list
    }

    method MakePages(n: nat) returns (first: PageSharedArena, last: PageSharedArena, ghost news: seq<PageSharedArena>)
      requires n > 0 && FullList(made, fullList, full) && Belongs()
      modifies this`made
      ensures |news| == n && NoDup(news) && fresh(news) && made == old(made) + Elems(news)
      ensures first == news[0] && last == news[n - 1] && FullList(made, fullList, full)
      ensures forall i: nat | i < |news| :: Opt(news[i].next) == Opt(news[i].nextFree) == At(news, i + 1)
      ensures NewPages(news, full) && Belongs()
    {
      hide FullList, NoDup;
      first, last, news := MakeList(n, ALL_ONES, list);
      LinkedFields(news, ALL_ONES, list, null, null);
      ListedMade(made, fullList, full);
      MoreMade(made, made + Elems(news));
      made := made + Elems(news);
    }

    /** With free_list and the pending list null, no page is flagged. */
    lemma NothingListed()
      requires ListsOk() && list.alive && freeList == null && list.head == null
      ensures free == [] && pending == [] && FullList(made, fullList, full) && Belongs() && NoFlags(full)
    {
    }

    lemma NewPagesFacts(news: seq<PageSharedArena>, full0: seq<PageSharedArena>)
      requires NewPages(news, full0)
      ensures NoDup(news) && forall p | p in news :: p !in full0
    {
    }

    lemma GrownLists(full0: seq<PageSharedArena>, news: seq<PageSharedArena>)
      requires pending == [] && free == news && full == news + full0 && list.head == null
      requires FullList(made, fullList, full) && FreeList(made, freeList, free) && Belongs()
      requires NewPages(news, full0) && NoFlags(full0)
      ensures ListsOk() && forall p | p in full0 :: p !in free
    {
      hide FullList, FreeList;
      ListedMade(made, fullList, full);
      EmptyLists(made);
      assert free + pending == news;
    }

    lemma GrownView(before: Shelf<PageSharedArena>, news: seq<PageSharedArena>)
      requires ShelfOk(before) && before.alive && before.free == [] && before.pending == [] && |news| == GrowthSize(before.npages)
      requires NewPages(news, before.full) && SameFields(before) && SamePages(before)
      requires (forall p | p in news :: p !in before.held) && made == before.held.Keys + Elems(news)
      requires full == news + before.full && free == news && pending == before.pending
      requires npages == before.npages + |news| && list.alive
      ensures ShelfOk(View()) && InUse() == Live(before) && forall p | p in news :: Held(p.data) == {}
    {
      hide ShelfOk, Live, Held, ArenaBit;
      NewWord();
      assert Grown(before, View(), news);
      KeepsGrown(before, View(), news);
    }

    // -------------------------------------------------------------- delayed deallocation

    /** The pages in `gone` have been let go since the state was `before`, each once. */
    ghost predicate Released(before: Shelf<PageSharedArena>, gone: set<PageSharedArena>)
      reads before.held.Keys`data, before.held.Keys`deallocs
    {
      before.held.Keys == before.owned.Keys == before.deallocs.Keys &&
      forall p | p in before.held ::
        Held(p.data) == before.held[p] && ArenaBit(p.data) == (before.owned[p] && p !in gone) &&
        p.deallocs == before.deallocs[p] + if p in gone && before.held[p] == {} then 1 else 0
    }

    lemma NoneReleased(before: Shelf<PageSharedArena>)
      requires SamePages(before)
      ensures Released(before, {})
    {
    }

    /** One more drop_page. */
    method DropOne(page: PageSharedArena, ghost before: Shelf<PageSharedArena>, ghost gone: set<PageSharedArena>)
      requires Released(before, gone) && page in before.held && page !in gone && before.owned[page]
      modifies page`data, page`deallocs
      ensures Released(before, gone + {page})
    {
      hide Held, ArenaBit;
      DropPage(page);
    }

    /** drop_page on each page of a vector. */
    method DropEach(pages: seq<PageSharedArena>, ghost before: Shelf<PageSharedArena>)
      requires NoDup(pages) && before.held.Keys == made && before.owned.Keys == made
      requires Released(before, {}) && forall p | p in pages :: p in made && before.owned[p]
      modifies made`data, made`deallocs
      ensures Released(before, Elems(pages))
    {
      hide NoDup, Released;
      NoElems<PageSharedArena>();
      assert pages[..0] == [];
      for n := 0 to |pages|
        invariant Released(before, Elems(pages[..n]))
      {
        FrontSplits(pages, n);
        FrontElems(pages, n);
        DropOne(pages[n], before, Elems(pages[..n]));
      }
      assert pages[..|pages|] == pages;
    }

    /** The loop of Drop, along the full list. */
    method DropListed(ghost before: Shelf<PageSharedArena>, ghost gone: set<PageSharedArena>)
      requires before.held.Keys == made && before.owned.Keys == made && FullList(made, fullList, full)
      requires Released(before, gone) && forall p | p in full :: p in made && before.owned[p] && p !in gone
      modifies made`data, made`deallocs
      ensures Released(before, gone + Elems(full))
    {
      hide NoDup, Released, FullList;
      NoElems<PageSharedArena>();
      var next := fullList;
      ghost var n := 0;
      FullAt(made, fullList, full, 0);
      assert gone + Elems(full[..0]) == gone;
      while next != null
        invariant n <= |full| && Opt(next) == At(full, n) && Released(before, gone + Elems(full[..n]))
        decreases |full| - n
      {
        FullAt(made, fullList, full, n);
        FrontSplits(full, n);
        FrontElems(full, n);
        var page: PageSharedArena := next;
        var nextNext := page.next;
        ghost var sofar := gone + Elems(full[..n]);
        DropOne(page, before, sofar);
        assert sofar + {page} == gone + Elems(full[..n + 1]);
        next := nextNext;
        n := n + 1;
      }
      assert full[..n] == full;
    }

    /** maybe_free_pages: the tenth call since the last shrink deallocates the waiting pages. */
    method MaybeFreePages()
      requires Valid() && list.alive
      modifies this`toFree, this`toFreeDelay, made`data, made`deallocs
      ensures Valid() && InUse() == old(InUse())
      ensures toFreeDelay == (if old(toFreeDelay) < 10 then old(toFreeDelay) + 1 else 10) && (toFree.Some? <==> toFreeDelay < 10)
      ensures forall p | p in made :: Held(p.data) == old(Held(p.data))
      ensures toFree.Some? ==> toFree == old(toFree) && forall p | p in made :: p.deallocs == old(p.deallocs)
      ensures toFree.None? ==> forall p | p in Vec(old(toFree)) :: p in made && old(p.deallocs) == 0 && p.deallocs == 1
      ensures forall p | p in made && p !in Vec(old(toFree)) :: p.deallocs == old(p.deallocs)
    {
      hide ListsOk, ShelfOk, Live, Held, ArenaBit;
      if toFreeDelay < DELAY_DROP_SHRINK {
        var oldDelay := toFreeDelay;
        toFreeDelay := toFreeDelay + 1;
        if oldDelay == DELAY_DROP_SHRINK - 1 {
          FreeWaiting();
        }
      }
    }

    /** Pages left in to_free are deallocated, once, as soon as the delay and the calls of
        maybe_free_pages since add up to ten, whatever their number, and not before; no other
        page is ever touched. */
    method MaybeFreePagesTimes(calls: nat)
      requires Valid() && list.alive
      modifies this`toFree, this`toFreeDelay, made`data, made`deallocs
      ensures Valid() && InUse() == old(InUse()) && forall p | p in made :: Held(p.data) == old(Held(p.data))
      ensures old(toFreeDelay) + calls >= 10 ==>
                toFree.None? && forall p | p in Vec(old(toFree)) :: p in made && old(p.deallocs) == 0 && p.deallocs == 1
      ensures old(toFreeDelay) + calls < 10 ==>
                toFree == old(toFree) && toFreeDelay == old(toFreeDelay) + calls && forall p | p in made :: p.deallocs == old(p.deallocs)
      ensures forall p | p in made && p !in Vec(old(toFree)) :: p.deallocs == old(p.deallocs)
    {
      hide ListsOk, ShelfOk, Live, Held;
      DelayInTime();
      for n := 0 to calls
        invariant Valid() && InUse() == old(InUse()) && forall p | p in made :: Held(p.data) == old(Held(p.data))
        invariant toFreeDelay == if old(toFreeDelay) + n < 10 then old(toFreeDelay) + n else 10
        invariant toFree.Some? ==> toFree == old(toFree) && forall p | p in made :: p.deallocs == old(p.deallocs)
        invariant toFree.None? ==> forall p | p in Vec(old(toFree)) :: p in made && old(p.deallocs) == 0 && p.deallocs == 1
        invariant forall p | p in made && p !in Vec(old(toFree)) :: p.deallocs == old(p.deallocs)
      {
        MaybeFreePages();
      }
    }

    lemma DelayInTime()
      requires DelayOk()
      ensures toFreeDelay <= DELAY_DROP_SHRINK && (list.alive ==> (toFree.Some? <==> toFreeDelay < DELAY_DROP_SHRINK))
    {
    }

    /** Takes the vector out of to_free and drops its pages. */
    method FreeWaiting()
      requires ShelfOk(View()) && list.alive
      modifies this`toFree, made`data, made`deallocs
      ensures ShelfOk(View()) && InUse() == old(InUse()) && toFree.None?
      ensures forall p | p in made :: Held(p.data) == old(Held(p.data))
      ensures forall p | p in Vec(old(toFree)) :: p in made && old(p.deallocs) == 0 && p.deallocs == 1
      ensures forall p | p in made && p !in Vec(old(toFree)) :: p.deallocs == old(p.deallocs)
    {
      hide ShelfOk, Live, Held, ArenaBit, NoDup, View, SamePages, SameFields, Released;
      ghost var before := View();
      ViewFacts();
      WaitingPages();
      NoneReleased(before);
      NoElems<PageSharedArena>();
      var taken := toFree;
      toFree := None;
      if taken.Some? {
        DropEach(taken.value, before);
      }
      FreedView(before);
    }

    lemma FreedView(before: Shelf<PageSharedArena>)
      requires ShelfOk(before) && before.alive && before.held.Keys == made && Released(before, Elems(before.toFree))
      requires full == before.full && free == before.free && pending == before.pending && toFree.None? && list.alive
      requires npages == before.npages && initial == before.initial && peak == before.peak
      ensures ShelfOk(View()) && InUse() == Live(before)
      ensures forall p | p in made :: Held(p.data) == before.held[p]
      ensures forall p | p in before.toFree :: p in made && before.deallocs[p] == 0 && p.deallocs == 1
      ensures forall p | p in made && p !in before.toFree :: p.deallocs == before.deallocs[p]
    {
      hide ShelfOk, Live, Held, ArenaBit;
      assert View().held == before.held;
      assert LetGo(before, View(), Elems(before.toFree));
      KeepsFreed(before, View());
    }

    lemma WaitingPages()
      requires ShelfOk(View())
      ensures NoDup(Vec(toFree)) && forall p | p in Vec(toFree) :: p in made && View().owned[p] && p !in full
    {
      hide ArenaBit;
      forall p | p in Vec(toFree)
        ensures p in made && View().owned[p] && p !in full
      {
        assert PageOk(View(), p);
      }
    }

    // -------------------------------------------------------------- reusing pages that wait

    /** Links the pages to each other and puts them in front of both lists. */
    method PutOldPages(pages: seq<PageSharedArena>)
      requires freeList == null && FullList(made, fullList, full) && NoDup(pages) && pages != [] && NoFlags(full)
      requires forall p | p in pages :: p in made && p !in full
      modifies this`freeList, this`fullList, this`npages, made`next, made`nextFree, made`inFreeList
      ensures FullList(made, fullList, pages + full) && FreeList(made, freeList, pages) && npages == old(npages) + |pages|
      ensures NoFlags(full) && forall p | p in pages :: p.inFreeList
    {
      hide FullList, FreeList, NoDup;
      ghost var links := NextOf(made);
      FullFacts();
      var first, last := MakeListFromSlice(pages);
      ListedIn(links, Opt(fullList), full);
      FullKeeps(made, links, fullList, full);
      PutPagesInLists(|pages|, first, last, pages);
    }

    lemma ListedIn(links: Links<PageSharedArena>, head: Option<PageSharedArena>, s: seq<PageSharedArena>)
      requires Chain(links, head, s)
      ensures forall p | p in s :: p in links
    {
      forall p | p in s
        ensures p in links
      {
        var i: nat :| i < |s| && s[i] == p;
      }
    }

    /** take_pages_to_be_freed: splits the waiting pages into a prefix that goes on waiting and a
        non-empty suffix, no longer than the list of all pages, that is used again. Its `unwrap` of
        the first page and its assertion hold. */
    method TakePagesToBeFreed() returns (ghost reinserted: seq<PageSharedArena>)
      requires Valid() && list.alive && freeList == null && list.head == null && toFree.Some?
      modifies this`toFree, this`toFreeDelay, this`full, this`free, this`freeList, this`fullList, this`npages
      modifies made`next, made`nextFree, made`inFreeList
      ensures Valid() && InUse() == old(InUse()) && old(|InUse()|) == old(npages) * BLOCK_PER_PAGE
      ensures Vec(old(toFree)) == Vec(toFree) + reinserted && full == reinserted + old(full) && free == reinserted
      ensures var len, max := |Vec(old(toFree))|, if old(npages) == 0 then 1 else old(npages);
              0 < |reinserted| == if len < max then len else max
      ensures npages == old(npages) + |reinserted|
      ensures toFreeDelay == if toFree.Some? then 0 else 10
      ensures free != [] && free[0] in made && Held(free[0].data) == {}
      ensures pending == [] && forall p | p in old(full) :: p !in free
    {
      hide ListsOk, FullList, FreeList, NoDup, ShelfOk, Live, Held, ArenaBit, Flagged, View, SameFields, SamePages, Belongs, NoFlags, TruncateAt, AtLeastOne;
      ghost var before := View();
      ViewFacts();
      NothingListed();
      AllInUse(before);
      var pages := toFree.value;
      toFree := None;
      var rest, toReinsert := Reuse(pages, before);
      reinserted := toReinsert;
      FinishReuse(before, toReinsert, rest);
    }

    /** What take_pages_to_be_freed does once the suffix is linked. */
    method FinishReuse(ghost before: Shelf<PageSharedArena>, ghost reinserted: seq<PageSharedArena>, rest: seq<PageSharedArena>)
      requires ShelfOk(before) && before.alive && before.free == [] && before.pending == [] && SamePages(before)
      requires before.held.Keys == made && before.toFree == rest + reinserted && reinserted != [] && |reinserted| <= AtLeastOne(before.npages)
      requires full == before.full && pending == before.pending && toFree.None? && list.alive && list.head == null
      requires npages == before.npages + |reinserted| && initial == before.initial && peak == before.peak
      requires FullList(made, fullList, reinserted + full) && FreeList(made, freeList, reinserted) && Belongs()
      requires (forall p | p in reinserted :: p.inFreeList && p !in full) && NoFlags(full)
      modifies this`toFree, this`toFreeDelay, this`full, this`free
      ensures Valid() && InUse() == Live(before) && Vec(toFree) == rest
      ensures full == reinserted + before.full && free == reinserted && toFreeDelay == if toFree.Some? then 0 else DELAY_DROP_SHRINK
      ensures free != [] && free[0] in made && Held(free[0].data) == {} && forall p | p in before.full :: p !in free
    {
      hide ListsOk, FullList, FreeList, NoDup, ShelfOk, Live, Held, ArenaBit, Flagged, View, SamePages, Belongs, NoFlags, AtLeastOne;
      KeepRest(rest);
      full, free := reinserted + full, reinserted;
      ReinsertedView(before, reinserted, rest);
      ReinsertedLists(before.full, reinserted);
    }

    /** Splits the waiting pages and puts the suffix back in both lists. */
    method Reuse(pages: seq<PageSharedArena>, ghost before: Shelf<PageSharedArena>)
      returns (rest: seq<PageSharedArena>, toReinsert: seq<PageSharedArena>)
      requires ShelfOk(before) && before.toFree == pages != [] && before.held.Keys == made && before.full == full
      requires freeList == null && FullList(made, fullList, full) && NoFlags(full)
      modifies this`freeList, this`fullList, this`npages, made`next, made`nextFree, made`inFreeList
      ensures pages == rest + toReinsert
      ensures var len, max := |pages|, AtLeastOne(old(npages)); 0 < |toReinsert| == if len < max then len else max
      ensures FullList(made, fullList, toReinsert + full) && FreeList(made, freeList, toReinsert) && NoFlags(full)
      ensures npages == old(npages) + |toReinsert| && forall p | p in toReinsert :: p.inFreeList && p !in full
    {
      hide FullList, FreeList, NoDup, ShelfOk, NoFlags, TruncateAt, AtLeastOne;
      var truncateAt := TruncateAt(|pages|, npages);
      CutIsProper(|pages|, npages);
      rest, toReinsert := pages[..truncateAt], pages[truncateAt..];
      assert pages == rest + toReinsert;
      WaitingSplit(before, rest, toReinsert);
      PutOldPages(toReinsert);
    }

    /** The pages not needed wait for another ten calls. */
    method KeepRest(rest: seq<PageSharedArena>)
      requires toFree.None?
      modifies this`toFree, this`toFreeDelay
      ensures toFree == (if rest != [] then Some(rest) else None) && toFreeDelay == if rest != [] then 0 else DELAY_DROP_SHRINK
    {
      if |rest| != 0 {
        assert toFree.None?;
        toFree := Some(rest);
        toFreeDelay := 0;
      } else {
        toFreeDelay := DELAY_DROP_SHRINK;
      }
    }

    lemma WaitingSplit(before: Shelf<PageSharedArena>, rest: seq<PageSharedArena>, pages: seq<PageSharedArena>)
      requires ShelfOk(before) && before.toFree == rest + pages && before.held.Keys == made
      ensures NoDup(pages) && forall p | p in pages :: p in made && p !in before.full
      ensures forall p | p in pages && p in before.held && before.alive :: before.held[p] == {}
    {
      hide NoDup;
      SplitNoDup(rest, pages);
      forall p | p in pages
        ensures p in made && p !in before.full && (before.alive ==> before.held[p] == {})
      {
        assert p in before.toFree && PageOk(before, p);
      }
    }

    lemma ReinsertedView(before: Shelf<PageSharedArena>, pages: seq<PageSharedArena>, rest: seq<PageSharedArena>)
      requires ShelfOk(before) && before.alive && before.free == [] && before.pending == [] && SamePages(before)
      requires before.held.Keys == made && before.toFree == rest + pages && pages != [] && |pages| <= AtLeastOne(before.npages)
      requires full == pages + before.full && free == pages && pending == before.pending && Vec(toFree) == rest
      requires npages == before.npages + |pages| && initial == before.initial && peak == before.peak && list.alive
      ensures ShelfOk(View()) && InUse() == Live(before) && pages[0] in made && Held(pages[0].data) == {}
    {
      hide ShelfOk, Live, Held, ArenaBit;
      assert View().held == before.held && View().owned == before.owned && View().deallocs == before.deallocs;
      assert Reinserted(before, View(), pages, rest);
      KeepsReinserted(before, View(), pages, rest);
      WaitingSplit(before, rest, pages);
      assert pages[0] in pages;
    }

    lemma ReinsertedLists(full0: seq<PageSharedArena>, pages: seq<PageSharedArena>)
      requires pending == [] && free == pages && full == pages + full0 && list.head == null && list.alive
      requires FullList(made, fullList, full) && FreeList(made, freeList, free) && Belongs()
      requires (forall p | p in pages :: p.inFreeList && p !in full0) && NoFlags(full0)
      ensures ListsOk()
    {
      hide FullList, FreeList;
      ListedMade(made, fullList, full);
      EmptyLists(made);
      assert free + pending == pages;
    }

    // -------------------------------------------------------------- searching for a block

    /** The head of the free list is the first page of it. */
    lemma HeadOfFree()
      requires Valid() && list.alive && freeList != null
      ensures free != [] && free[0] == freeList && free[0] in made && free[0] in full && ArenaBit(free[0].data)
      ensures FreeList(made, free[0].nextFree, free[1..]) && free[0] !in free[1..] && free[0] !in pending
    {
      hide ArenaBit, Held, Stocked, Bounded;
      ChainTail(NextFreeOf(made), Opt(freeList), free);
      assert PageOk(View(), free[0]);
    }

    /** Takes a block of the head page, if it has one. */
    method TakeFromHead(page: PageSharedArena) returns (block: Option<nat>)
      requires Valid() && list.alive && freeList == page
      modifies page`data, this`peak
      ensures block.None? ==>
                Valid() && Held(page.data) == Indices() && View() == old(View()) && InUse() == old(InUse()) &&
                page.data == old(page.data) && peak == old(peak)
      ensures block.Some? ==>
                Valid() && Place(page, block.value) !in old(InUse()) && InUse() == old(InUse()) + {Place(page, block.value)} &&
                peak == Max(old(peak), |InUse()|) && forall i: nat | i < block.value :: Place(page, i) in old(InUse())
      ensures block.Some? ==> old(Held(page.data)) != Indices()
    {
      hide ListsOk, FullList, FreeList, DelayOk, ShelfOk, Live, Free, ArenaBit, Held, IsLeast, Places, View, SamePages, SameOthers;
      ghost var before := View();
      ViewFacts();
      HeadOfFree();
      OthersSame(before, page);
      block := AcquireFreeBlock(page);
      if block.Some? {
        ghost var held := before.held[page := Held(page.data)];
        ghost var after := before.(held := held, peak := Max(peak, |Places(held.Keys, held)|));
        peak := after.peak;
        assert Acquired(before, after, page, block.value);
        KeepsAcquired(before, after, page, block.value);
        HeldIsLive(before, page);
        OtherTaken(before, after, page);
        ViewIs(after);
      } else {
        ViewIs(before);
      }
    }

    /** The pages after a block of this one was taken. */
    lemma OtherTaken(before: Shelf<PageSharedArena>, after: Shelf<PageSharedArena>, page: PageSharedArena)
      requires SameOthers(before, page) && page in before.held && after == before.(held := before.held[page := Held(page.data)], peak := after.peak)
      requires ArenaBit(page.data) == before.owned[page] && page.deallocs == before.deallocs[page]
      ensures SamePages(after)
    {
      hide Held, ArenaBit;
    }

    /** A full page leaves the free list. */
    method PopHead(page: PageSharedArena)
      requires Valid() && list.alive && freeList == page && Held(page.data) == Indices()
      modifies this`freeList, page`inFreeList, this`free
      ensures Valid() && old(free) != [] && free == old(free)[1..] && InUse() == old(InUse())
      ensures View() == old(View()).(free := free)
    {
      hide FullList, FreeList, ShelfOk, Live, Held, ArenaBit, View, SamePages;
      ghost var before := View();
      ViewFacts();
      HeadOfFree();
      KeepsPopped(before);
      var next := page.nextFree;
      freeList := next;
      page.inFreeList := false;
      free := free[1..];
      assert before.free == [page] + free;
      ViewIs(before.(free := free));
      PoppedFlags(made, full, before.free, free, pending, page);
    }

    /** The pending list becomes the free list. */
    method TakePending()
      requires Valid() && list.alive && freeList == null && list.head != null
      modifies this`freeList, list`head, this`free, this`pending
      ensures Valid() && InUse() == old(InUse()) && View() == old(View()).(free := free, pending := pending)
      ensures free == old(pending) && pending == []
      ensures free != [] && free[0] in made && Held(free[0].data) != Indices()
    {
      hide ListsOk, FullList, FreeList, Flagged, Belongs, ShelfOk, Live, Held, ArenaBit, View, SamePages, SameFields, OrderOk;
      ghost var before := View();
      ViewFacts();
      EmptyFree();
      OwnLists();
      KeepsTaken(before);
      PendingHead();
      var head := list.head;
      list.head := null;
      assert freeList == null;
      freeList := head;
      free, pending := pending, [];
      assert before.free + before.pending == free + pending;
      EmptyLists(made);
      IsLists();
      ViewIs(before.(free := free, pending := pending));
    }

    lemma OwnLists()
      requires ListsOk() && list.alive
      ensures FullList(made, fullList, full) && FreeList(made, freeList, free) && FreeList(made, list.head, pending)
      ensures Flagged(made, full, free + pending) && Belongs()
    {
    }

    lemma IsLists()
      requires FullList(made, fullList, full) && FreeList(made, freeList, free) && FreeList(made, list.head, pending)
      requires Flagged(made, full, free + pending) && Belongs()
      ensures ListsOk()
    {
    }

    lemma EmptyFree()
      requires Valid() && list.alive && freeList == null
      ensures free == []
    {
      hide ShelfOk, FullList, View;
    }

    /** Every pending page has a free block. */
    lemma PendingHead()
      requires Valid() && list.alive && list.head != null
      ensures pending != [] && pending[0] in made && Held(pending[0].data) != Indices()
    {
      assert pending[0] in pending;
      ListedMade(made, list.head, pending);
    }

    /** A call of maybe_free_pages: the tenth since the last shrink deallocates the waiting pages. */
    twostate predicate Counted()
      reads this`made, this`toFree, this`toFreeDelay, made`deallocs
    {
      toFreeDelay == (if old(toFreeDelay) < 10 then old(toFreeDelay) + 1 else 10) &&
      (if old(toFreeDelay) == 9 then toFree.None? else toFree == old(toFree)) &&
      forall p | p in old(made) && p in made ::
        p.deallocs == old(p.deallocs) + if old(toFreeDelay) == 9 && p in Vec(old(toFree)) then 1 else 0
    }

    /** Nothing was deallocated, and no page left to_free. */
    twostate predicate Undropped()
      reads this`made, made`deallocs
    {
      old(made) <= made && forall p | p in old(made) && p in made :: p.deallocs == old(p.deallocs)
    }

    /** Of the three ways to new pages the first that gives any: the pending list, with a call of
        maybe_free_pages; a suffix of the pages that wait to be freed, as many as there are pages,
        the others to wait again; fresh pages, doubling their number. */
    twostate predicate Refilled()
      reads this`pending, this`free, this`full, this`made, this`npages, this`toFree, this`toFreeDelay, made`deallocs
    {
      pending == [] && old(made) <= made &&
      if old(pending) != [] then
        free == old(pending) && full == old(full) && made == old(made) && npages == old(npages) && Counted()
      else if old(toFree).Some? then
        Vec(old(toFree)) == Vec(toFree) + free && full == free + old(full) && made == old(made) && npages == old(npages) + |free| &&
        |free| == (if |Vec(old(toFree))| < old(npages) then |Vec(old(toFree))| else if old(npages) == 0 then 1 else old(npages)) &&
        toFreeDelay == (if toFree.Some? then 0 else 10) && Undropped()
      else
        fresh(free) && NoDup(free) && full == free + old(full) && made == old(made) + Elems(free) && npages == old(npages) + |free| &&
        |free| == (if old(npages) == 0 then 1 else if old(npages) <= 900_000 then old(npages) else 900_000) &&
        toFree == old(toFree) && toFreeDelay == old(toFreeDelay) && Undropped()
    }

    /** The part of find_place that runs under the writer lock, with free_list null: afterwards
        the first page of the free list has a free block. */
    method Refill()
      requires Valid() && list.alive && freeList == null
      modifies this`freeList, this`fullList, this`npages, this`toFree, this`toFreeDelay, this`made, this`full, this`free, this`pending
      modifies list`head, made
      ensures Valid() && list.alive && InUse() == old(InUse()) && old(made) <= made && fresh(made - old(made))
      ensures initial == old(initial)
      ensures free != [] && free[0] in made && Held(free[0].data) != Indices()
      ensures npages == old(npages) ||
              (npages <= old(npages) + AtLeastOne(old(npages)) && old(|InUse()|) == old(npages) * BLOCK_PER_PAGE &&
               pending == [] && forall p | p in old(full) :: p !in free)
      ensures Refilled()
      ensures forall p | p in old(made) :: Held(p.data) == old(Held(p.data))
    {
      hide ListsOk, ShelfOk, Live, Held, DelayOk, View, AtLeastOne, NoDup;
      SomeIndex();
      DelayInTime();
      if list.head != null {
        TakePending();
        MaybeFreePages();
      } else if toFree.Some? {
        ghost var pages := TakePagesToBeFreed();
      } else {
        AllocNewPage();
      }
    }

    /** No page of the free list has a free block. */
    ghost predicate Exhausted()
      reads this`free, free`data
    {
      forall p | p in free :: Held(p.data) == Indices()
    }

    /** Only the free list got shorter. */
    twostate predicate Unrefilled()
      reads this`pending, this`full, this`made, this`npages, this`toFree, this`toFreeDelay, made`deallocs
    {
      made == old(made) && npages == old(npages) && full == old(full) && pending == old(pending) &&
      toFree == old(toFree) && toFreeDelay == old(toFreeDelay) && Undropped()
    }

    /** The inner loop of find_place: loses full pages in front of the free list until one has a
        free block. */
    method TakeListed() returns (place: Option<Place<PageSharedArena>>, ghost lost: nat)
      requires Valid() && list.alive
      modifies this`freeList, this`free, this`peak, made`data, made`inFreeList
      ensures Valid() && Unrefilled()
      ensures lost <= |old(free)| && free == old(free)[lost..] && forall i: nat | i < lost :: old(Held(free[i].data)) == Indices()
      ensures place.Some? ==>
                lost < |old(free)| && old(Held(free[lost].data)) != Indices() && place.value.page == free[0] &&
                place.value !in old(InUse()) && InUse() == old(InUse()) + {place.value} && peak == Max(old(peak), |InUse()|) &&
                forall i: nat | i < place.value.index :: Place(place.value.page, i) in old(InUse())
      ensures place.None? ==>
                freeList == null && free == [] && InUse() == old(InUse()) && peak == old(peak) &&
                forall p | p in made :: Held(p.data) == old(Held(p.data))
    {
      hide Valid, InUse, View, Held, Max;
      lost := 0;
      while freeList != null
        invariant Valid() && InUse() == old(InUse()) && peak == old(peak) && Unrefilled()
        invariant lost <= |old(free)| && free == old(free)[lost..] && forall i: nat | i < lost :: old(Held(free[i].data)) == Indices()
        invariant forall p | p in made :: Held(p.data) == old(Held(p.data))
        decreases |free|
      {
        HeadOfFree();
        var page: PageSharedArena := freeList;
        var block := TakeFromHead(page);
        if block.Some? {
          return Some(Place(page, block.value)), lost;
        }
        PopHead(page);
        lost := lost + 1;
      }
      EmptyFree();
      place := None;
    }

    /** find_place: loses full pages in front of the free list, refills it exactly if all were full,
        and takes the least free block of the first page that has one. */
    method FindPlace() returns (place: Place<PageSharedArena>)
      requires Valid() && list.alive
      modifies this`freeList, this`fullList, this`npages, this`toFree, this`toFreeDelay, this`made, this`full, this`free, this`pending, this`peak
      modifies list`head, made
      ensures Valid() && list.alive && initial == old(initial) && old(made) <= made && fresh(made - old(made))
      ensures place !in old(InUse()) && InUse() == old(InUse()) + {place}
      ensures free != [] && place.page == free[0]
      ensures peak == Max(old(peak), |InUse()|)
      ensures npages == old(npages) ||
              (npages <= old(npages) + AtLeastOne(old(npages)) && old(|InUse()|) == old(npages) * BLOCK_PER_PAGE &&
               pending == [] && forall p | p in old(full) :: p !in free)
      ensures forall i: nat | i < place.index :: Place(place.page, i) in old(InUse())
      ensures if old(Exhausted()) then Refilled() else Unrefilled() && exists k: nat :: k < |old(free)| && free == old(free)[k..]
    {
      hide Valid, InUse, View, Held, AtLeastOne;
      ghost var refilled := false;
      while true
        invariant Valid() && list.alive && initial == old(initial) && InUse() == old(InUse()) && peak == old(peak)
        invariant old(made) <= made && fresh(made - old(made))
        invariant refilled ==> free != [] && Held(free[0].data) != Indices() && Refilled() && old(Exhausted())
        invariant !refilled ==> Unrefilled() && free == old(free) && forall p | p in free :: Held(p.data) == old(Held(p.data))
        invariant npages == old(npages) || (refilled && npages <= old(npages) + AtLeastOne(old(npages)) &&
                                            old(|InUse()|) == old(npages) * BLOCK_PER_PAGE &&
                                            pending == [] && forall p | p in old(full) :: p !in free)
        decreases !refilled
      {
        var found;
        ghost var lost;
        found, lost := TakeListed();
        if found.Some? {
          return found.value;
        }
        Refill();
        refilled := true;
      }
    }

    // -------------------------------------------------------------- giving a block back

    /** Where a block in use is. */
    lemma UsedPlace(place: Place<PageSharedArena>)
      requires Valid() && place in InUse()
      ensures place.page in made && place.index in Held(place.page.data) && place.page.deallocs == 0 && place.page.list == list
      ensures list.alive ==>
                place.page in full && ArenaBit(place.page.data) && FlaggedBut(made, full, free + pending, place.page) &&
                (place.page.inFreeList <==> place.page in free || place.page in pending)
    {
      hide ArenaBit;
      assert PageOk(View(), place.page);
      assert list.alive ==> (place.page in free + pending <==> place.page in free || place.page in pending);
    }

    /** The pages other than this one are as they were. */
    ghost predicate SameOthers(b: Shelf<PageSharedArena>, page: PageSharedArena)
      reads (b.held.Keys - {page})`data, (b.held.Keys - {page})`deallocs
    {
      b.held.Keys == b.owned.Keys == b.deallocs.Keys &&
      forall p | p in b.held && p != page ::
        Held(p.data) == b.held[p] && ArenaBit(p.data) == b.owned[p] && p.deallocs == b.deallocs[p]
    }

    lemma OthersSame(b: Shelf<PageSharedArena>, page: PageSharedArena)
      requires SamePages(b) && page in b.held
      ensures SameOthers(b, page) && page in b.owned && page in b.deallocs
      ensures Held(page.data) == b.held[page] && ArenaBit(page.data) == b.owned[page] && page.deallocs == b.deallocs[page]
    {
    }

    /** Dropping the last handle of a block. */
    method GiveBack(place: Place<PageSharedArena>)
      requires Valid() && place in InUse()
      modifies place.page`data, place.page`deallocs, place.page`inFreeList, place.page`nextFree, list`head, this`pending
      ensures Valid() && InUse() == old(InUse()) - {place}
      ensures list.alive ==>
                pending == if place.page in free || place.page in old(pending) then old(pending) else [place.page] + old(pending)
    {
      hide ListsOk, FullList, FreeList, ShelfOk, Live, Held, ArenaBit, View, Flagged, FlaggedBut, Belongs, SamePages, SameOthers, SameFields;
      ghost var before := View();
      ViewFacts();
      UsedPlace(place);
      var page := place.page;
      OthersSame(before, page);
      OwnedOnly();
      if list.alive {
        OwnLists();
      }
      ghost var nowPending := DropBlock(page, place.index, made, pending, freeList, free);
      pending := nowPending;
      GivenView(before, place);
      GivenLists(before.pending, page);
    }

    lemma OwnedOnly()
      requires ListsOk()
      ensures Belongs()
    {
    }

    lemma GivenView(before: Shelf<PageSharedArena>, place: Place<PageSharedArena>)
      requires ShelfOk(before) && before.held.Keys == made && SameOthers(before, place.page) && SameFields(before)
      requires before.full == full && before.free == free && before.npages == npages && before.alive == list.alive
      requires place.page in made && place.index in before.held[place.page]
      requires Held(place.page.data) == before.held[place.page] - {place.index} && ArenaBit(place.page.data) == before.owned[place.page]
      requires place.page.deallocs == before.deallocs[place.page] +
                 (if Held(place.page.data) == {} && !ArenaBit(place.page.data) then 1 else 0)
      requires pending == if list.alive && !(place.page in free || place.page in before.pending) then [place.page] + before.pending
                          else before.pending
      ensures ShelfOk(View()) && InUse() == Live(before) - {place}
    {
      hide ShelfOk, Live, Held, ArenaBit;
      var p := place.page;
      assert View().held == before.held[p := Held(p.data)];
      assert View().owned == before.owned;
      assert View().deallocs == before.deallocs[p := p.deallocs];
      assert Returned(before, View(), p, place.index);
      KeepsReturned(before, View(), p, place.index);
    }

    lemma GivenLists(pending0: seq<PageSharedArena>, page: PageSharedArena)
      requires Belongs() && page in made
      requires list.alive ==>
                 FullList(made, fullList, full) && FreeList(made, freeList, free) && FreeList(made, list.head, pending) &&
                 FlaggedBut(made, full, free + pending0, page) && page in full && page.inFreeList &&
                 pending == if page in free || page in pending0 then pending0 else [page] + pending0
      ensures ListsOk()
    {
      hide FullList, FreeList;
      if list.alive {
        ListedFlags(made, full, free + pending0, free + pending, page);
      }
    }

    // -------------------------------------------------------------- shrinking

    /** The first loop of shrink_to_fit, on the detached free list, finds its unused pages. */
    method UnlinkFree() returns (start: Page?<Word>, toDrop: seq<PageSharedArena>)
      requires Valid() && list.alive
      modifies this`freeList, made`nextFree
      ensures freeList == null && UnusedPages(View(), toDrop)
      ensures FreeList(made, start, Without(free, Elems(toDrop))) && FreeList(made, list.head, pending)
    {
      hide ListsOk, FullList, FreeList, ShelfOk, Live, Held, ArenaBit, Elems, Without, Flagged, NoDup, View;
      OwnLists();
      ListedFacts();
      start := freeList;
      freeList := null;
      start, toDrop := UnlinkBeside(start, made, free, (w: Word) => w == ALL_ONES, list.head, pending);
      UnusedAre(toDrop);
    }

    lemma ListedFacts()
      requires Valid() && list.alive
      ensures (forall p | p in pending :: p !in free) && forall p | p in free :: p in made && ArenaBit(p.data)
    {
      hide ArenaBit;
      forall p | p in free
        ensures p in made && ArenaBit(p.data)
      {
        assert PageOk(View(), p);
      }
    }

    lemma UnusedAre(toDrop: seq<PageSharedArena>)
      requires ShelfOk(View()) && list.alive && NoDup(toDrop)
      requires forall p | p in free :: p in made && ArenaBit(p.data)
      requires forall p | p in free :: p in toDrop <==> p.data == ALL_ONES
      requires forall p | p in toDrop :: p in free
      ensures UnusedPages(View(), toDrop)
    {
      hide ArenaBit, Held, PageOk, Stocked, Live;
      forall p | p in free
        ensures p in toDrop <==> Held(p.data) == {}
      {
        UnusedWord(p.data);
      }
      UnusedCount(View(), toDrop);
    }

    /** `retain`: with nobody else at work, no page has been used again. */
    method Retain(toDrop: seq<PageSharedArena>) returns (kept: seq<PageSharedArena>)
      requires forall p | p in toDrop :: p.data == ALL_ONES
      ensures kept == toDrop
    {
      kept := [];
      for n := 0 to |toDrop|
        invariant kept == toDrop[..n]
      {
        if toDrop[n].data == ALL_ONES {
          kept := kept + [toDrop[n]];
        }
      }
    }

    /** The pages join those that wait in to_free, and the delay starts again. */
    method QueueDropped(toDrop: seq<PageSharedArena>)
      requires DelayOk() && list.alive
      modifies this`toFree, this`toFreeDelay
      ensures DelayOk() && Vec(toFree) == Vec(old(toFree)) + toDrop
      ensures toFreeDelay == if toDrop != [] then 0 else old(toFreeDelay)
    {
      if |toDrop| != 0 {
        toFreeDelay := 0;
        var taken := toFree;
        toFree := None;
        if taken.Some? {
          assert toFree.None?;
          toFree := Some(taken.value + toDrop);
        } else {
          assert toFree.None?;
          toFree := Some(toDrop);
        }
      }
    }

    /** shrink_to_fit: the unused pages of the free list leave both lists, which keep their order,
        and wait in to_free; nothing is deallocated yet. */
    method ShrinkToFit() returns (ok: bool, ghost removed: seq<PageSharedArena>)
      requires Valid() && list.alive
      modifies this`freeList, this`fullList, this`npages, this`toFree, this`toFreeDelay, this`full, this`free, made`next, made`nextFree
      ensures Valid() && ok && InUse() == old(InUse()) && UnusedPages(old(View()), removed)
      ensures full == Without(old(full), Elems(removed)) && free == Without(old(free), Elems(removed))
      ensures Vec(toFree) == Vec(old(toFree)) + removed && npages == old(npages) - |removed|
      ensures toFreeDelay == if removed != [] then 0 else old(toFreeDelay)
    {
      hide ListsOk, FullList, FreeList, Flagged, Belongs, ShelfOk, Live, Held, View, SamePages, SameFields, Without, UnusedPages, DelayOk, Elems;
      ghost var before := View();
      ViewFacts();
      OwnLists();
      var start, toDrop := UnlinkBoth();
      removed := toDrop;
      FinishShrink(start, toDrop, before);
      ok := true;
    }

    /** What shrink_to_fit does after its loops. */
    method FinishShrink(start: Page?<Word>, toDrop: seq<PageSharedArena>, ghost before: Shelf<PageSharedArena>)
      requires ShelfOk(before) && UnusedPages(before, toDrop) && before == View() && list.alive && DelayOk() && Belongs()
      requires freeList == null && FullList(made, fullList, Without(full, Elems(toDrop)))
      requires FreeList(made, start, Without(free, Elems(toDrop))) && FreeList(made, list.head, pending)
      requires Flagged(made, full, free + pending)
      modifies this`freeList, this`npages, this`toFree, this`toFreeDelay, this`full, this`free
      ensures Valid() && InUse() == Live(before)
      ensures full == Without(before.full, Elems(toDrop)) && free == Without(before.free, Elems(toDrop))
      ensures Vec(toFree) == before.toFree + toDrop && npages == before.npages - |toDrop|
      ensures toFreeDelay == if toDrop != [] then 0 else old(toFreeDelay)
    {
      hide ListsOk, FullList, FreeList, Flagged, Belongs, ShelfOk, Live, Held, View, SamePages, SameFields, Without, UnusedPages, DelayOk, Elems;
      ViewFacts();
      FewUnused(before, toDrop);
      var nfreed := |toDrop|;
      QueueDropped(toDrop);
      assert freeList == null;
      freeList := start;
      npages := npages - nfreed;
      full, free := Without(before.full, Elems(toDrop)), Without(before.free, Elems(toDrop));
      DelayedView(before, toDrop);
      ShrunkLists(before, toDrop);
    }

    /** Both loops: the unused pages leave the detached free list and the full list. */
    method UnlinkBoth() returns (start: Page?<Word>, toDrop: seq<PageSharedArena>)
      requires Valid() && list.alive
      modifies this`freeList, this`fullList, made`nextFree, made`next
      ensures freeList == null && UnusedPages(old(View()), toDrop) && View() == old(View())
      ensures FullList(made, fullList, Without(full, Elems(toDrop)))
      ensures FreeList(made, start, Without(free, Elems(toDrop))) && FreeList(made, list.head, pending)
    {
      hide ListsOk, FullList, FreeList, ShelfOk, Live, Held, View, Without, UnusedPages, Elems;
      OwnLists();
      start, toDrop := UnlinkFree();
      AllOnes(toDrop);
      toDrop := Retain(toDrop);
      fullList := UnlinkTaken(fullList, made, full, toDrop);
    }

    lemma FewUnused(before: Shelf<PageSharedArena>, toDrop: seq<PageSharedArena>)
      requires UnusedPages(before, toDrop)
      ensures |toDrop| <= before.npages
    {
    }

    lemma AllOnes(toDrop: seq<PageSharedArena>)
      requires ShelfOk(View()) && list.alive && UnusedPages(View(), toDrop)
      ensures forall p | p in toDrop :: p in made && p.data == ALL_ONES
    {
      hide ArenaBit, Held;
      forall p | p in toDrop
        ensures p in made && p.data == ALL_ONES
      {
        assert PageOk(View(), p);
        UnusedWord(p.data);
      }
    }

    lemma DelayedView(before: Shelf<PageSharedArena>, toDrop: seq<PageSharedArena>)
      requires ShelfOk(before) && before.alive && before.held.Keys == made && SamePages(before) && UnusedPages(before, toDrop)
      requires full == Without(before.full, Elems(toDrop)) && free == Without(before.free, Elems(toDrop)) && pending == before.pending
      requires Vec(toFree) == before.toFree + toDrop && initial == before.initial && peak == before.peak && list.alive
      requires npages == before.npages - |toDrop|
      ensures ShelfOk(View()) && InUse() == Live(before)
    {
      hide ShelfOk, Live, Held, ArenaBit;
      assert View().held == before.held && View().owned == before.owned && View().deallocs == before.deallocs;
      assert Delayed(before, View(), toDrop);
      KeepsDelayed(before, View(), toDrop);
    }

    lemma ShrunkLists(before: Shelf<PageSharedArena>, toDrop: seq<PageSharedArena>)
      requires ShelfOk(before) && UnusedPages(before, toDrop) && pending == before.pending
      requires FullList(made, fullList, full) && FreeList(made, freeList, free) && FreeList(made, list.head, pending) && Belongs()
      requires full == Without(before.full, Elems(toDrop)) && free == Without(before.free, Elems(toDrop))
      requires Flagged(made, before.full, before.free + pending)
      ensures ListsOk()
    {
      hide FullList, FreeList, PagesOk, Stocked, Bounded;
      FilterMembers(before.full, toDrop);
      FilterMembers(before.free, toDrop);
    }

    // -------------------------------------------------------------- statistics

    /** stats: from the free and the pending list alone, the exact number of blocks in use and of
        free blocks; neither subtraction underflows. */
    method Stats() returns (used: nat, unused: nat)
      requires Valid() && list.alive
      ensures used == |InUse()| && used + unused == npages * BLOCK_PER_PAGE
    {
      hide ListsOk, ShelfOk, Live, FullList, FreeList, Held, View, Spare;
      ghost var held := View().held;
      StatsFacts();
      var onFree := CountList(freeList, free, held);
      var onPending := CountList(list.head, pending, held);
      SpareAppend(free, pending, held);
      unused := onFree + onPending;
      used := npages * BLOCK_PER_PAGE - unused;
    }

    lemma StatsFacts()
      requires Valid() && list.alive
      ensures FreeList(made, freeList, free) && FreeList(made, list.head, pending)
      ensures forall p | p in free || p in pending ::
                p in made && p in View().held && View().held[p] == Held(p.data) && ArenaBit(p.data)
      ensures Spare(free + pending, View().held) + |InUse()| == npages * BLOCK_PER_PAGE
    {
      hide ArenaBit, Live, Stocked;
      forall p | p in full
        ensures p in made && ArenaBit(p.data)
      {
        assert PageOk(View(), p);
      }
      FreeTotal(View());
    }

    /** One loop of stats: the free blocks of the pages along `next_free`. */
    method CountList(head: Page?<Word>, ghost s: seq<PageSharedArena>, ghost held: map<PageSharedArena, set<nat>>) returns (count: nat)
      requires FreeList(made, head, s) && forall p | p in s :: p in made && p in held && held[p] == Held(p.data) && ArenaBit(p.data)
      ensures count == Spare(s, held)
    {
      hide FreeList, Spare, Held, ArenaBit;
      count := 0;
      var next := head;
      ghost var n := 0;
      FreeAt(made, head, s, 0);
      NoSpare(held);
      while next != null
        invariant n <= |s| && Opt(next) == At(s, n) && count == Spare(s[..n], held)
        decreases |s| - n
      {
        FreeAt(made, head, s, n);
        var page: PageSharedArena := next;
        WordCounts(page.data);
        SpareNext(s, held, n);
        var ones := CountOnes(page.data);
        count := count + (ones - 1);
        next := page.nextFree;
        n := n + 1;
      }
      assert s[..n] == s;
    }

    /** The page count of Debug, over the full list: it agrees with stats. */
    method DebugUsed() returns (used: nat)
      requires Valid() && list.alive
      ensures used == |InUse()|
    {
      hide ListsOk, ShelfOk, Live, FullList, Held, View, Total;
      ghost var held := View().held;
      DebugFacts();
      used := 0;
      var next := fullList;
      ghost var n := 0;
      FullAt(made, fullList, full, 0);
      while next != null
        invariant n <= |full| && Opt(next) == At(full, n) && used == Total(full[..n], held)
        decreases |full| - n
      {
        FullAt(made, fullList, full, n);
        var page: PageSharedArena := next;
        WordCounts(page.data);
        TotalNext(full, held, n);
        used := used + CountZeros(page.data);
        next := page.next;
        n := n + 1;
      }
      assert full[..n] == full;
    }

    lemma DebugFacts()
      requires Valid() && list.alive
      ensures FullList(made, fullList, full)
      ensures forall p | p in full :: p in made && p in View().held && View().held[p] == Held(p.data) && ArenaBit(p.data)
      ensures Total(full, View().held) == |InUse()| && Total([], View().held) == 0
    {
      hide ArenaBit, Live, Stocked;
      forall p | p in full
        ensures p in made && ArenaBit(p.data)
      {
        assert PageOk(View(), p);
      }
      LiveTotal(View());
    }

    // -------------------------------------------------------------- the end

    /** Drop for SharedArena: lets go of the waiting and of the listed pages; the blocks in use
        outlive the arena. */
    method Drop()
      requires Valid() && list.alive
      modifies this`toFree, this`full, this`free, this`pending, list`alive, made`data, made`deallocs
      ensures Valid() && !list.alive && InUse() == old(InUse())
    {
      hide ListsOk, FullList, FreeList, Flagged, Belongs, ShelfOk, Live, Held, ArenaBit, NoDup, View, SamePages, SameFields, Released;
      ghost var before := View();
      ViewFacts();
      OwnLists();
      DropAll(before);
      toFree := None;
      list.alive := false;
      full, free, pending := [], [], [];
      ClosedView(before);
      ClosedLists();
    }

    method DropAll(ghost before: Shelf<PageSharedArena>)
      requires Valid() && list.alive && before == View()
      modifies made`data, made`deallocs
      ensures Released(before, Elems(before.toFree) + Elems(before.full))
    {
      hide ListsOk, FullList, FreeList, Flagged, Belongs, ShelfOk, Live, Held, ArenaBit, NoDup, View, SamePages, SameFields, Released;
      ViewFacts();
      OwnLists();
      WaitingPages();
      ListedOwned();
      NoneReleased(before);
      NoElems<PageSharedArena>();
      if toFree.Some? {
        DropEach(toFree.value, before);
      }
      DropListed(before, Elems(before.toFree));
    }

    lemma ListedOwned()
      requires ShelfOk(View())
      ensures forall p | p in full :: p in made && View().owned[p] && p !in Elems(Vec(toFree))
    {
      hide ArenaBit;
      forall p | p in full
        ensures p in made && View().owned[p] && p !in Elems(Vec(toFree))
      {
        assert PageOk(View(), p);
      }
    }

    lemma ClosedView(before: Shelf<PageSharedArena>)
      requires ShelfOk(before) && before.alive && before.held.Keys == made && Released(before, Elems(before.toFree) + Elems(before.full))
      requires full == [] && free == [] && pending == [] && toFree.None? && !list.alive
      requires npages == before.npages && initial == before.initial && peak == before.peak
      ensures ShelfOk(View()) && InUse() == Live(before)
    {
      hide ShelfOk, Live, Held, ArenaBit;
      assert View().held == before.held;
      ElemsAppend(before.full, before.toFree);
      assert LetGo(before, View(), Elems(before.full + before.toFree));
      KeepsClosed(before, View());
    }

    lemma ClosedLists()
      requires Belongs() && !list.alive
      ensures ListsOk()
    {
    }

    // -------------------------------------------------------------- what clients may rely on

    /** The page of a block in use has not been deallocated, even after the arena is gone. */
    lemma UsedIsSafe(place: Place<PageSharedArena>)
      requires Valid() && place in InUse()
      ensures place.page in made && place.page.deallocs == 0
    {
      UsedPlace(place);
    }

    lemma UseFits()
      requires Valid() && list.alive
      ensures |InUse()| <= npages * BLOCK_PER_PAGE && npages == |full|
    {
      hide Live, Spare;
      StatsFacts();
    }

    /** A listed page has not been deallocated and does not wait for it. */
    lemma ListedStays(page: PageSharedArena)
      requires Valid() && list.alive && page in full
      ensures page in made && page.deallocs == 0 && page !in Vec(toFree)
    {
      assert PageOk(View(), page);
    }

    /** The arena as shrink_to_fit finds it, with an unused page that is pending. */
    lemma PendingMissed(page: PageSharedArena)
      requires Valid() && list.alive && page in pending && Held(page.data) == {}
      ensures var b := View();
              ShelfOk(b) && b.alive && b.pending == pending && b.full == full && b.free == free && b.toFree == Vec(toFree) &&
              page in b.full && page in b.held && b.held[page] == {}
    {
      hide PagesOk, Stocked, Bounded, Held;
    }

    lemma UsedIsListed()
      requires Valid() && list.alive
      ensures forall place | place in InUse() :: place.page in full
    {
      forall place | place in InUse()
        ensures place.page in full
      {
        UsedPlace(place);
      }
    }

    /** A page none of whose blocks is in use holds nothing. */
    lemma NothingHeldIn(page: PageSharedArena)
      requires Valid() && page in made && forall place | place in InUse() :: place.page != page
      ensures Held(page.data) == {}
    {
      hide ShelfOk, Live, Held;
      HeldIsLive(View(), page);
      assert forall i | i in Held(page.data) :: Place(page, i) in InUse();
    }

    /** Every page ever made is in exactly one place: on the full list, waiting in to_free,
        orphaned with blocks in use after the arena is gone, or deallocated, once. */
    lemma PageFate(p: PageSharedArena)
      requires Valid() && p in made
      ensures p.deallocs <= 1 && exists fate :: Has(View(), p, fate) && forall other | Has(View(), p, other) :: other == fate
    {
      hide ShelfOk;
      OneFate(View(), p);
    }

    /** Once the arena and every block are gone, every page ever made has been deallocated exactly
        once. */
    lemma NoLeak()
      requires Valid() && !list.alive && InUse() == {}
      ensures forall p | p in made :: p.deallocs == 1
    {
      hide ShelfOk, Live;
      NothingLeaks(View());
      assert forall p | p in made :: p in View().held && View().deallocs[p] == p.deallocs;
    }

    /** Capacity never exceeds what the arena started with, or twice the most blocks ever in use
        together: `peak` starts at 0, FindPlace raises it to the number of blocks in use, and no
        other method changes it. */
    lemma GrowthIsBounded()
      requires Valid()
      ensures npages * BLOCK_PER_PAGE <= Max(initial, 2 * peak) && |InUse()| <= peak
    {
    }
  }
}
