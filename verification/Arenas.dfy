/** Arena with each operation taken as atomic (src/arena.rs:46-102, src/arena.rs:119-131,
    src/arena.rs:465-568, src/arena.rs:621-631); modules ArenaLists and ArenaPage take the accesses
    one by one. */
module Arenas {
  import opened Options
  import opened Bitfield
  import opened Chains
  import opened Tally
  import opened Growth
  import opened PageList
  import opened Shelves
  import opened ArenaPageOps

  class Arena {
    const list: ListHead<Words>                  // `pending_free_list`, shared with the pages
    var freeList: Page?<Words>
    var fullList: Page?<Words>
    var npages: nat

    ghost var made: set<PageArena>               // every page ever made
    ghost var full: seq<PageArena>
    ghost var free: seq<PageArena>
    ghost var pending: seq<PageArena>
    ghost var initial: nat                       // the blocks it was created with
    ghost var peak: nat                          // the most blocks ever in use together

    ghost function View(): Shelf<PageArena>
      reads this`made, this`full, this`free, this`pending, this`npages, this`initial, this`peak
      reads list`alive, made`data, made`deallocs
    {
      Shelf(map p | p in made :: Held(p.data), map p | p in made :: Owned(p.data), map p | p in made :: p.deallocs,
            full, free, pending, [], list.alive, npages, initial, peak)
    }

    /** The blocks in use. */
    ghost function InUse(): set<Place<PageArena>>
      reads this`made, this`full, this`free, this`pending, this`npages, this`initial, this`peak
      reads list`alive, made`data, made`deallocs
    {
      Live(View())
    }

    ghost predicate Belongs()
      reads this`made
    {
      forall p | p in made :: p.list == list
    }

    /** The three lists are well formed, and the flag of a listed page says whether it is on the
        free or the pending list. */
    ghost predicate ListsOk()
      reads this`made, this`full, this`free, this`pending, this`fullList, this`freeList, list
      reads made`next, made`nextFree, made`inFreeList
    {
      Belongs() &&
      (list.alive ==>
         FullList(made, fullList, full) && FreeList(made, freeList, free) && FreeList(made, list.head, pending) &&
         Flagged(made, full, free + pending))
    }

    ghost predicate AllWordsOk()
      reads this`made, made`data
    {
      forall p | p in made :: WordsOk(p.data)
    }

    ghost predicate Valid()
      reads this, list, made
    {
      ListsOk() && ShelfOk(View()) && AllWordsOk()
    }

    // -------------------------------------------------------------- views

    /** View, field by field and page by page. */
    lemma ViewFacts()
      ensures var b := View();
              b.held.Keys == b.owned.Keys == b.deallocs.Keys == made &&
              b.full == full && b.free == free && b.pending == pending && b.toFree == [] &&
              b.npages == npages && b.initial == initial && b.peak == peak && b.alive == list.alive
      ensures AllWordsOk() ==> SamePages(View())
    {
    }

    lemma ViewIs(b: Shelf<PageArena>)
      requires b.held.Keys == made && SamePages(b) && b.initial == initial && b.peak == peak && b.toFree == []
      requires b.full == full && b.free == free && b.pending == pending && b.npages == npages && b.alive == list.alive
      ensures View() == b && AllWordsOk()
    {
      assert View().held == b.held && View().owned == b.owned && View().deallocs == b.deallocs;
    }

    /** The pages known to b are as they were. */
    ghost predicate SamePages(b: Shelf<PageArena>)
      reads b.held.Keys`data, b.held.Keys`deallocs
    {
      Released(b, {})
    }

    /** The pages in `gone` have been let go since the state was `before`, each once. */
    ghost predicate Released(before: Shelf<PageArena>, gone: set<PageArena>)
      reads before.held.Keys`data, before.held.Keys`deallocs
    {
      before.held.Keys == before.owned.Keys == before.deallocs.Keys &&
      forall p | p in before.held ::
        WordsOk(p.data) && Held(p.data) == before.held[p] && Owned(p.data) == (before.owned[p] && p !in gone) &&
        p.deallocs == before.deallocs[p] + if p in gone && before.held[p] == {} then 1 else 0
    }

    lemma SameMoved(b: Shelf<PageArena>, b': Shelf<PageArena>)
      requires SamePages(b) && b'.held == b.held && b'.owned == b.owned && b'.deallocs == b.deallocs
      ensures SamePages(b')
    {
    }

    lemma OwnLists()
      requires ListsOk() && list.alive
      ensures FullList(made, fullList, full) && FreeList(made, freeList, free) && FreeList(made, list.head, pending)
      ensures Flagged(made, full, free + pending) && Belongs()
    {
    }

    lemma IsLists()
      requires FullList(made, fullList, full) && FreeList(made, freeList, free) && FreeList(made, list.head, pending)
      requires Flagged(made, full, free + pending) && Belongs()
      ensures ListsOk()
    {
    }

    // -------------------------------------------------------------- creation and growth

    constructor (cap: nat)
      ensures Valid() && list.alive && fresh(list) && fresh(made) && InUse() == {}
      ensures npages == PagesFor(cap) && initial == npages * BLOCK_PER_PAGE && peak == 0
    {
      hide ListsOk, FullList, FreeList, Flagged, NoDup, ShelfOk, Live, View, PagesFor, WordsOk;
      var n := PagesFor(cap);
      var head := new ListHead();
      ghost var none: set<PageArena> := {};
      EmptyLists(none);
      var first, news := GrowLists(n, NewWords(), head, null, null, none, [], []);
      list, freeList, fullList, npages := head, first, first, n;
      assert none + Elems(news) == Elems(news) && news + [] == news;
      made, full, free, pending := Elems(news), news, news, [];
      initial, peak := n * BLOCK_PER_PAGE, 0;
      new;
      FreshLists();
      FreshView();
    }

    lemma FreshLists()
      requires FullList(made, fullList, full) && FreeList(made, freeList, free) && pending == [] && free == full && list.head == null
      requires Belongs() && forall p | p in full :: p in made && p.inFreeList
      ensures ListsOk()
    {
      EmptyLists(made);
      assert free + pending == free;
    }

    lemma FreshView()
      requires made == Elems(full) && NoDup(full) && free == full && full != [] && pending == [] && list.alive
      requires forall p | p in made :: p.data == NewWords() && p.deallocs == 0
      requires npages == |full| && initial == npages * BLOCK_PER_PAGE
      ensures ShelfOk(View()) && InUse() == {} && AllWordsOk()
    {
      NewWordsOk();
      FreshOk(View());
    }

    /** alloc_new_page: its assertion holds, because free_list is null. */
    method AllocNewPage()
      requires Valid() && list.alive && freeList == null && list.head == null
      modifies this`npages, this`made, this`full, this`free, this`freeList, this`fullList
      ensures Valid() && list.alive && InUse() == old(InUse()) && fresh(made - old(made)) && old(made) <= made
      ensures npages == (if old(npages) == 0 then 1 else if old(npages) <= 900_000 then 2 * old(npages) else old(npages) + 900_000)
      ensures old(|InUse()|) == old(npages) * BLOCK_PER_PAGE
      ensures fresh(free) && NoDup(free) && made == old(made) + Elems(free) && full == free + old(full) && npages == old(npages) + |free|
      ensures free != [] && free[0] in made && Held(free[0].data) == {} && pending == [] && forall p | p in free :: p.data == NewWords()
    {
      hide ListsOk, FullList, FreeList, NoDup, ShelfOk, Live, Held, GrowthSize, Flagged, View, SamePages, Released, Belongs, NoFlags,
           NewPages, AllWordsOk;
      ghost var before := View();
      ViewFacts();
      NothingListed();
      AllInUse(before);
      var toAllocate := GrowthSize(npages);
      ghost var news := PutNewPages(toAllocate);
      full, free := news + full, news;
      GrownView(before, news);
      GrownLists(before.full, news);
    }

    method PutNewPages(n: nat) returns (ghost news: seq<PageArena>)
      requires n > 0 && freeList == null && free == [] && FullList(made, fullList, full) && Belongs()
      modifies this`made, this`freeList, this`fullList, this`npages
      ensures |news| == n && fresh(news) && NoDup(news) && made == old(made) + Elems(news) && NewPages(news, full) && Belongs()
      ensures forall p | p in news :: p.data == NewWords()
      ensures FullList(made, fullList, news + full) && FreeList(made, freeList, news) && npages == old(npages) + n
    {
      hide FullList, FreeList, NoDup;
      EmptyLists(made);
      ListedMade(made, fullList, full);
      var first, pages := GrowLists(n, NewWords(), list, fullList, null, made, full, []);
      fullList := first;
      assert freeList == null;
      freeList := first;
      npages := npages + n;
      made := made + Elems(pages);
      news := pages;
      assert news + [] == news;
    }

    ghost predicate NewPages(news: seq<PageArena>, full0: seq<PageArena>)
      reads news`data, news`deallocs, news`inFreeList
    {
      NoDup(news) && forall p | p in news :: p !in full0 && p.data == NewWords() && p.deallocs == 0 && p.inFreeList && p.list == list
    }

    /** With free_list and the pending list null, no page is flagged. */
    lemma NothingListed()
      requires ListsOk() && list.alive && freeList == null && list.head == null
      ensures free == [] && pending == [] && FullList(made, fullList, full) && Belongs() && NoFlags(full)
    {
    }

    lemma GrownLists(full0: seq<PageArena>, news: seq<PageArena>)
      requires pending == [] && free == news && full == news + full0 && list.head == null
      requires FullList(made, fullList, full) && FreeList(made, freeList, free) && Belongs()
      requires NewPages(news, full0) && NoFlags(full0)
      ensures ListsOk()
    {
      hide FullList, FreeList;
      ListedMade(made, fullList, full);
      EmptyLists(made);
      assert free + pending == news;
    }

    lemma GrownView(before: Shelf<PageArena>, news: seq<PageArena>)
      requires ShelfOk(before) && before.alive && before.free == [] && before.pending == [] && |news| == GrowthSize(before.npages)
      requires NewPages(news, before.full) && before.toFree == [] && before.initial == initial && before.peak == peak && SamePages(before)
      requires (forall p | p in news :: p !in before.held) && made == before.held.Keys + Elems(news)
      requires full == news + before.full && free == news && pending == before.pending
      requires npages == before.npages + |news| && list.alive
      ensures ShelfOk(View()) && InUse() == Live(before) && AllWordsOk()
      ensures news != [] && news[0] in made && Held(news[0].data) == {}
    {
      hide ShelfOk, Live, Held, WordsOk;
      NewWordsOk();
      assert Grown(before, View(), news);
      KeepsGrown(before, View(), news);
      assert news[0] in news;
    }

    // -------------------------------------------------------------- searching for a block

    /** The head of the free list is the first page of it. */
    lemma HeadOfFree()
      requires Valid() && list.alive && freeList != null
      ensures free != [] && free[0] == freeList && free[0] in made && free[0] in full && Owned(free[0].data)
      ensures WordsOk(free[0].data) && FreeList(made, free[0].nextFree, free[1..]) && free[0] !in free[1..] && free[0] !in pending
    {
      hide Held, Owned, WordsOk, Stocked, Bounded;
      ChainTail(NextFreeOf(made), Opt(freeList), free);
      assert PageOk(View(), free[0]);
    }

    /** Takes a block of the head page, if it has one. */
    method TakeFromHead(page: PageArena) returns (block: Option<nat>)
      requires Valid() && list.alive && freeList == page
      modifies page`data, this`peak
      ensures block.None? ==>
                Valid() && Held(page.data) == Indices() && View() == old(View()) && InUse() == old(InUse()) &&
                page.data == old(page.data) && peak == old(peak)
      ensures block.Some? ==>
                Valid() && Place(page, block.value) !in old(InUse()) && InUse() == old(InUse()) + {Place(page, block.value)} &&
                peak == Max(old(peak), |InUse()|) && IsLeast(block.value, Offered(old(page.data))) && old(Held(page.data)) != Indices()
    {
      hide ListsOk, FullList, FreeList, ShelfOk, Live, Free, Owned, WordsOk, Held, IsLeast, Offered, Places, View;
      ghost var before := View();
      ViewFacts();
      HeadOfFree();
      block := AcquireFreeBlock(page);
      if block.Some? {
        ghost var held := before.held[page := Held(page.data)];
        ghost var after := before.(held := held, peak := Max(peak, |Places(held.Keys, held)|));
        peak := after.peak;
        assert Acquired(before, after, page, block.value);
        KeepsAcquired(before, after, page, block.value);
        ViewIs(after);
      } else {
        ViewIs(before);
      }
    }

    /** A full page leaves the free list. */
    method PopHead(page: PageArena)
      requires Valid() && list.alive && freeList == page && Held(page.data) == Indices()
      modifies this`freeList, page`inFreeList, this`free
      ensures Valid() && old(free) != [] && free == old(free)[1..] && InUse() == old(InUse())
      ensures View() == old(View()).(free := free)
    {
      hide FullList, FreeList, ShelfOk, Live, Held, Owned, WordsOk, View, SamePages, AllWordsOk;
      ghost var before := View();
      ViewFacts();
      HeadOfFree();
      PageHeld(page);
      KeepsPopped(before);
      var next := page.nextFree;
      freeList := next;
      page.inFreeList := false;
      free := free[1..];
      assert before.free == [page] + free;
      SameMoved(before, before.(free := free));
      ViewIs(before.(free := free));
      PoppedFlags(made, full, before.free, free, pending, page);
    }

    lemma PageHeld(page: PageArena)
      requires page in made
      ensures page in View().held && View().held[page] == Held(page.data)
    {
    }

    /** The pending list becomes the free list. */
    method TakePending()
      requires Valid() && list.alive && freeList == null && list.head != null
      modifies this`freeList, list`head, this`free, this`pending
      ensures Valid() && InUse() == old(InUse()) && free == old(pending) && pending == []
      ensures free != [] && free[0] in made && Held(free[0].data) != Indices()
    {
      hide ListsOk, FullList, FreeList, Flagged, Belongs, ShelfOk, Live, Held, View, SamePages, OrderOk, AllWordsOk;
      ghost var before := View();
      ViewFacts();
      EmptyFree();
      OwnLists();
      KeepsTaken(before);
      PendingHead();
      var head := list.head;
      list.head := null;
      freeList := head;
      free, pending := pending, [];
      assert before.free + before.pending == free + pending;
      EmptyLists(made);
      IsLists();
      SameMoved(before, before.(free := free, pending := pending));
      ViewIs(before.(free := free, pending := pending));
    }

    lemma EmptyFree()
      requires Valid() && list.alive && freeList == null
      ensures free == []
    {
      hide ShelfOk, FullList, View;
    }

    /** Every pending page has a free block. */
    lemma PendingHead()
      requires Valid() && list.alive && list.head != null
      ensures pending != [] && pending[0] in made && Held(pending[0].data) != Indices()
    {
      hide Held, Owned, WordsOk;
      assert pending[0] in pending;
      ListedMade(made, list.head, pending);
    }

    /** The pending list, if it is not empty; else fresh pages, doubling their number. */
    twostate predicate Refilled()
      reads this`pending, this`free, this`full, this`made, this`npages
    {
      pending == [] && old(made) <= made &&
      if old(pending) != [] then
        free == old(pending) && full == old(full) && made == old(made) && npages == old(npages)
      else
        fresh(free) && NoDup(free) && full == free + old(full) && made == old(made) + Elems(free) && npages == old(npages) + |free| &&
        |free| == (if old(npages) == 0 then 1 else if old(npages) <= 900_000 then old(npages) else 900_000)
    }

    /** What find_place does when the free list is empty: takes over the pending list, or makes new
        pages. */
    method Refill()
      requires Valid() && list.alive && freeList == null
      modifies this`freeList, this`fullList, this`npages, this`made, this`full, this`free, this`pending
      modifies list`head, made
      ensures Valid() && list.alive && InUse() == old(InUse()) && old(made) <= made && fresh(made - old(made))
      ensures free != [] && free[0] in made && Held(free[0].data) != Indices()
      ensures npages == old(npages) ||
              (npages == (if old(npages) == 0 then 1 else if old(npages) <= 900_000 then 2 * old(npages) else old(npages) + 900_000) &&
               old(|InUse()|) == old(npages) * BLOCK_PER_PAGE)
      ensures Refilled() && (forall p | p in old(made) :: p.data == old(p.data)) && forall p | p in made - old(made) :: p.data == NewWords()
    {
      hide ListsOk, ShelfOk, Live, Held, View, GrowthSize, AllWordsOk, NoDup;
      SomeIndex();
      if list.head != null {
        TakePending();
      } else {
        AllocNewPage();
      }
    }

    /** No page of the free list has a free block. */
    ghost predicate Exhausted()
      reads this`free, free`data
    {
      forall p | p in free :: Held(p.data) == Indices()
    }

    /** Only the free list got shorter. */
    twostate predicate Unrefilled()
      reads this`pending, this`full, this`made, this`npages
    {
      made == old(made) && npages == old(npages) && full == old(full) && pending == old(pending)
    }

    /** The inner loop of find_place: loses full pages in front of the free list until one has a
        free block. */
    method TakeListed() returns (place: Option<Place<PageArena>>, ghost lost: nat)
      requires Valid() && list.alive
      modifies this`freeList, this`free, this`peak, made`data, made`inFreeList
      ensures Valid() && Unrefilled()
      ensures lost <= |old(free)| && free == old(free)[lost..] && forall i: nat | i < lost :: old(Held(free[i].data)) == Indices()
      ensures place.Some? ==>
                lost < |old(free)| && old(Held(free[lost].data)) != Indices() && place.value.page == free[0] && free[0] in made &&
                place.value !in old(InUse()) && InUse() == old(InUse()) + {place.value} && peak == Max(old(peak), |InUse()|) &&
                IsLeast(place.value.index, old(Offered(free[lost].data)))
      ensures place.None? ==>
                freeList == null && free == [] && InUse() == old(InUse()) && peak == old(peak) &&
                forall p | p in made :: p.data == old(p.data)
    {
      hide Valid, InUse, View, Held, Max, IsLeast, Offered;
      lost := 0;
      while freeList != null
        invariant Valid() && InUse() == old(InUse()) && peak == old(peak) && Unrefilled()
        invariant lost <= |old(free)| && free == old(free)[lost..] && forall i: nat | i < lost :: old(Held(free[i].data)) == Indices()
        invariant forall p | p in made :: p.data == old(p.data)
        decreases |free|
      {
        HeadOfFree();
        var page: PageArena := freeList;
        var block := TakeFromHead(page);
        if block.Some? {
          return Some(Place(page, block.value)), lost;
        }
        PopHead(page);
        lost := lost + 1;
      }
      EmptyFree();
      place := None;
    }

    /** find_place: loses full pages in front of the free list, refills it exactly if all were full,
        and takes the next free block of the first page that has one. */
    method FindPlace() returns (place: Place<PageArena>)
      requires Valid() && list.alive
      modifies this`freeList, this`fullList, this`npages, this`made, this`full, this`free, this`pending, this`peak
      modifies list`head, made
      ensures Valid() && list.alive && initial == old(initial) && old(made) <= made && fresh(made - old(made))
      ensures place !in old(InUse()) && InUse() == old(InUse()) + {place}
      ensures free != [] && place.page == free[0]
      ensures peak == Max(old(peak), |InUse()|)
      ensures npages == old(npages) ||
              (npages == (if old(npages) == 0 then 1 else if old(npages) <= 900_000 then 2 * old(npages) else old(npages) + 900_000) &&
               old(|InUse()|) == old(npages) * BLOCK_PER_PAGE)
      ensures if place.page in old(made) then IsLeast(place.index, Offered(old(place.page.data))) else place.index == 0
      ensures if old(Exhausted()) then Refilled() else Unrefilled() && exists k: nat :: k < |old(free)| && free == old(free)[k..]
    {
      hide Valid, InUse, View, Held, GrowthSize, IsLeast, Offered;
      ghost var refilled := false;
      while true
        invariant Valid() && list.alive && initial == old(initial) && InUse() == old(InUse()) && peak == old(peak)
        invariant old(made) <= made && fresh(made - old(made))
        invariant refilled ==> free != [] && Held(free[0].data) != Indices() && Refilled() && old(Exhausted())
        invariant !refilled ==> Unrefilled() && free == old(free)
        invariant (forall p | p in old(made) :: p.data == old(p.data)) && forall p | p in made - old(made) :: p.data == NewWords()
        invariant npages == old(npages) || (refilled && Grew(old(npages), npages) &&
                                            old(|InUse()|) == old(npages) * BLOCK_PER_PAGE)
        decreases !refilled
      {
        var found;
        ghost var lost;
        found, lost := TakeListed();
        if found.Some? {
          FirstOfNew();
          return found.value;
        }
        Refill();
        refilled := true;
      }
    }

    lemma FirstOfNew()
      ensures forall i | IsLeast(i, Offered(NewWords())) :: i == 0
    {
      ConstantWords();
      assert 0 in Indices();
      assert Offered(NewWords()) == Indices();
    }

    // -------------------------------------------------------------- giving a block back

    /** Where a block in use is. */
    lemma UsedPlace(place: Place<PageArena>)
      requires Valid() && place in InUse()
      ensures place.page in made && place.index in Held(place.page.data) && place.page.deallocs == 0 && place.page.list == list
      ensures WordsOk(place.page.data)
      ensures list.alive ==>
                place.page in full && Owned(place.page.data) && FlaggedBut(made, full, free + pending, place.page) &&
                (place.page.inFreeList <==> place.page in free || place.page in pending)
    {
      hide Owned, WordsOk;
      assert PageOk(View(), place.page);
      assert list.alive ==> (place.page in free + pending <==> place.page in free || place.page in pending);
    }

    /** The pages other than this one are as they were. */
    ghost predicate SameOthers(b: Shelf<PageArena>, page: PageArena)
      reads (b.held.Keys - {page})`data, (b.held.Keys - {page})`deallocs
    {
      b.held.Keys == b.owned.Keys == b.deallocs.Keys &&
      forall p | p in b.held && p != page ::
        WordsOk(p.data) && Held(p.data) == b.held[p] && Owned(p.data) == b.owned[p] && p.deallocs == b.deallocs[p]
    }

    lemma OthersSame(b: Shelf<PageArena>, page: PageArena)
      requires SamePages(b) && page in b.held
      ensures SameOthers(b, page) && page in b.owned && page in b.deallocs
      ensures Held(page.data) == b.held[page] && Owned(page.data) == b.owned[page] && page.deallocs == b.deallocs[page]
    {
      hide WordsOk, Held, Owned;
    }

    /** Dropping the last handle of a block. */
    method GiveBack(place: Place<PageArena>)
      requires Valid() && place in InUse()
      modifies place.page`data, place.page`deallocs, place.page`inFreeList, place.page`nextFree, list`head, this`pending
      ensures Valid() && InUse() == old(InUse()) - {place}
      ensures list.alive ==>
                pending == if place.page in free || place.page in old(pending) then old(pending) else [place.page] + old(pending)
    {
      hide ListsOk, FullList, FreeList, ShelfOk, Live, Held, Owned, WordsOk, View, Flagged, FlaggedBut, Belongs, SamePages, SameOthers,
           AllWordsOk;
      ghost var before := View();
      ViewFacts();
      UsedPlace(place);
      var page := place.page;
      OthersSame(before, page);
      BelongsOnly();
      if list.alive {
        OwnLists();
      }
      ghost var nowPending := DropBlock(page, place.index, made, pending, freeList, free);
      pending := nowPending;
      GivenView(before, place);
      GivenLists(before.pending, page);
    }

    lemma BelongsOnly()
      requires ListsOk()
      ensures Belongs()
    {
    }

    lemma GivenView(before: Shelf<PageArena>, place: Place<PageArena>)
      requires ShelfOk(before) && before.held.Keys == made && SameOthers(before, place.page) && WordsOk(place.page.data)
      requires before.initial == initial && before.peak == peak && before.toFree == []
      requires before.full == full && before.free == free && before.npages == npages && before.alive == list.alive
      requires place.page in made && place.index in before.held[place.page]
      requires Held(place.page.data) == before.held[place.page] - {place.index} && Owned(place.page.data) == before.owned[place.page]
      requires place.page.deallocs == before.deallocs[place.page] + if Held(place.page.data) == {} && !Owned(place.page.data) then 1 else 0
      requires pending == if list.alive && !(place.page in free || place.page in before.pending) then [place.page] + before.pending
                          else before.pending
      ensures ShelfOk(View()) && InUse() == Live(before) - {place} && AllWordsOk()
    {
      hide ShelfOk, Live, Held, Owned, WordsOk;
      var p := place.page;
      assert View().held == before.held[p := Held(p.data)];
      assert View().owned == before.owned;
      assert View().deallocs == before.deallocs[p := p.deallocs];
      assert Returned(before, View(), p, place.index);
      KeepsReturned(before, View(), p, place.index);
    }

    lemma GivenLists(pending0: seq<PageArena>, page: PageArena)
      requires Belongs() && page in made
      requires list.alive ==>
                 FullList(made, fullList, full) && FreeList(made, freeList, free) && FreeList(made, list.head, pending) &&
                 FlaggedBut(made, full, free + pending0, page) && page in full && page.inFreeList &&
                 pending == if page in free || page in pending0 then pending0 else [page] + pending0
      ensures ListsOk()
    {
      hide FullList, FreeList;
      if list.alive {
        ListedFlags(made, full, free + pending0, free + pending, page);
      }
    }

    // -------------------------------------------------------------- letting pages go

    /** One more drop_page. */
    method DropOne(page: PageArena, ghost before: Shelf<PageArena>, ghost gone: set<PageArena>)
      requires Released(before, gone) && page in before.held && page !in gone && before.owned[page]
      modifies page`data, page`deallocs
      ensures Released(before, gone + {page})
    {
      hide Held, Owned, WordsOk;
      DropPage(page);
    }

    /** The last loop of shrink_to_fit: its assertion, that the page is still unused, holds. */
    method DropEach(pages: seq<PageArena>, ghost before: Shelf<PageArena>)
      requires NoDup(pages) && before.held.Keys == made && before.owned.Keys == made && Released(before, {})
      requires forall p | p in pages :: p in made && before.owned[p] && before.held[p] == {}
      modifies made`data, made`deallocs
      ensures Released(before, Elems(pages))
    {
      hide NoDup, Released;
      NoElems<PageArena>();
      assert pages[..0] == [];
      for n := 0 to |pages|
        invariant Released(before, Elems(pages[..n]))
      {
        FrontSplits(pages, n);
        FrontElems(pages, n);
        StillUnused(before, Elems(pages[..n]), pages[n]);
        assert WordsLookUnused(pages[n].data);
        DropOne(pages[n], before, Elems(pages[..n]));
      }
      assert pages[..|pages|] == pages;
    }

    lemma StillUnused(before: Shelf<PageArena>, gone: set<PageArena>, page: PageArena)
      requires Released(before, gone) && page in before.held && before.held[page] == {}
      ensures WordsLookUnused(page.data)
    {
      UnusedWords(page.data);
    }

    /** The loop of Drop, along the full list. */
    method DropListed(ghost before: Shelf<PageArena>)
      requires before.held.Keys == made && before.owned.Keys == made && FullList(made, fullList, full)
      requires Released(before, {}) && forall p | p in full :: p in made && before.owned[p]
      modifies made`data, made`deallocs
      ensures Released(before, Elems(full))
    {
      hide NoDup, Released, FullList;
      NoElems<PageArena>();
      var next := fullList;
      ghost var n := 0;
      FullAt(made, fullList, full, 0);
      assert full[..0] == [];
      while next != null
        invariant n <= |full| && Opt(next) == At(full, n) && Released(before, Elems(full[..n]))
        decreases |full| - n
      {
        FullAt(made, fullList, full, n);
        FrontSplits(full, n);
        FrontElems(full, n);
        var page: PageArena := next;
        var nextNext := page.next;
        DropOne(page, before, Elems(full[..n]));
        next := nextNext;
        n := n + 1;
      }
      assert full[..n] == full;
    }

    lemma ListedOwned()
      requires ShelfOk(View())
      ensures forall p | p in full :: p in made && View().owned[p]
    {
      hide Owned, Held;
      forall p | p in full
        ensures p in made && View().owned[p]
      {
        assert PageOk(View(), p);
      }
    }

    // -------------------------------------------------------------- shrinking

    /** The first loop of shrink_to_fit, on the detached free list, finds its unused pages. */
    method UnlinkFree() returns (start: Page?<Words>, toDrop: seq<PageArena>)
      requires Valid() && list.alive
      modifies this`freeList, made`nextFree
      ensures freeList == null && UnusedPages(View(), toDrop)
      ensures FreeList(made, start, Without(free, Elems(toDrop))) && FreeList(made, list.head, pending)
    {
      hide ListsOk, FullList, FreeList, ShelfOk, Live, Held, Owned, WordsOk, Elems, Without, Flagged, NoDup, View, WordsLookUnused;
      OwnLists();
      ListedFacts();
      start := freeList;
      freeList := null;
      start, toDrop := UnlinkBeside(start, made, free, WordsLookUnused, list.head, pending);
      UnusedAre(toDrop);
    }

    lemma ListedFacts()
      requires Valid() && list.alive
      ensures (forall p | p in pending :: p !in free) && forall p | p in free :: p in made && WordsOk(p.data)
    {
      hide Held, Owned, WordsOk;
    }

    lemma UnusedAre(toDrop: seq<PageArena>)
      requires ShelfOk(View()) && list.alive && NoDup(toDrop)
      requires forall p | p in free :: p in made && WordsOk(p.data)
      requires forall p | p in free :: p in toDrop <==> WordsLookUnused(p.data)
      requires forall p | p in toDrop :: p in free
      ensures UnusedPages(View(), toDrop)
    {
      hide Held, Owned, WordsOk, WordsLookUnused, PageOk, Stocked, Live;
      forall p | p in free
        ensures p in toDrop <==> Held(p.data) == {}
      {
        UnusedWords(p.data);
      }
      UnusedCount(View(), toDrop);
    }

    /** Both loops: the unused pages leave the detached free list and the full list. */
    method UnlinkBoth() returns (start: Page?<Words>, toDrop: seq<PageArena>)
      requires Valid() && list.alive
      modifies this`freeList, this`fullList, made`nextFree, made`next
      ensures freeList == null && UnusedPages(old(View()), toDrop) && View() == old(View())
      ensures FullList(made, fullList, Without(full, Elems(toDrop)))
      ensures FreeList(made, start, Without(free, Elems(toDrop))) && FreeList(made, list.head, pending)
    {
      hide ListsOk, FullList, FreeList, ShelfOk, Live, Held, View, SamePages, AllWordsOk, Without, UnusedPages;
      ghost var before := View();
      ViewFacts();
      OwnLists();
      start, toDrop := UnlinkFree();
      ViewIs(before);
      fullList := UnlinkTaken(fullList, made, full, toDrop);
    }

    /** shrink_to_fit: the unused pages of the free list leave both lists, which keep their order,
        and are deallocated. */
    method ShrinkToFit() returns (ok: bool, ghost removed: seq<PageArena>)
      requires Valid() && list.alive
      modifies this`freeList, this`fullList, this`npages, this`full, this`free, made
      ensures Valid() && ok && InUse() == old(InUse()) && UnusedPages(old(View()), removed)
      ensures full == Without(old(full), Elems(removed)) && free == Without(old(free), Elems(removed))
      ensures npages == old(npages) - |removed|
      ensures forall p | p in removed :: p in made && old(p.deallocs) == 0 && p.deallocs == 1
    {
      hide ListsOk, FullList, FreeList, Flagged, Belongs, ShelfOk, Live, Held, View, SamePages, Released, Without, UnusedPages, AllWordsOk,
           Elems, NoDup;
      ghost var before := View();
      ViewFacts();
      DeallocsAre();
      OwnLists();
      var start, toDrop := UnlinkBoth();
      removed := toDrop;
      AsReleased(before);
      ToDropFacts(before, toDrop);
      DropEach(toDrop, before);
      DroppedOnce(before, toDrop);
      FinishShrink(start, toDrop, before);
      ok := true;
    }

    lemma DeallocsAre()
      ensures forall p | p in made :: p in View().deallocs && View().deallocs[p] == p.deallocs
    {
    }

    /** What shrink_to_fit does after its loops. */
    method FinishShrink(start: Page?<Words>, toDrop: seq<PageArena>, ghost before: Shelf<PageArena>)
      requires ShelfOk(before) && UnusedPages(before, toDrop) && before.alive && before.held.Keys == made && before.toFree == []
      requires before.full == full && before.free == free && before.pending == pending && before.npages == npages
      requires before.initial == initial && before.peak == peak && list.alive && Released(before, Elems(toDrop)) && Belongs()
      requires FullList(made, fullList, Without(full, Elems(toDrop)))
      requires FreeList(made, start, Without(free, Elems(toDrop))) && FreeList(made, list.head, pending)
      requires Flagged(made, full, free + pending)
      modifies this`freeList, this`npages, this`full, this`free
      ensures Valid() && InUse() == Live(before)
      ensures full == Without(before.full, Elems(toDrop)) && free == Without(before.free, Elems(toDrop))
      ensures npages == before.npages - |toDrop|
    {
      hide ListsOk, FullList, FreeList, Flagged, Belongs, ShelfOk, Live, Held, View, Released, Without, UnusedPages, AllWordsOk, Elems;
      ToDropFacts(before, toDrop);
      freeList := start;
      npages := npages - |toDrop|;
      full, free := Without(full, Elems(toDrop)), Without(free, Elems(toDrop));
      ShrunkView(before, toDrop);
      ShrunkLists(before, toDrop);
    }

    lemma AsReleased(before: Shelf<PageArena>)
      requires SamePages(before)
      ensures Released(before, {})
    {
    }

    lemma ToDropFacts(before: Shelf<PageArena>, toDrop: seq<PageArena>)
      requires ShelfOk(before) && UnusedPages(before, toDrop)
      ensures |toDrop| <= before.npages && NoDup(toDrop)
      ensures forall p | p in toDrop :: p in before.held && p in before.owned && before.owned[p] && before.held[p] == {}
    {
      assert forall p | p in toDrop :: PageOk(before, p);
    }

    lemma ShrunkView(before: Shelf<PageArena>, toDrop: seq<PageArena>)
      requires ShelfOk(before) && before.alive && before.held.Keys == made && UnusedPages(before, toDrop)
      requires Released(before, Elems(toDrop)) && before.toFree == []
      requires full == Without(before.full, Elems(toDrop)) && free == Without(before.free, Elems(toDrop)) && pending == before.pending
      requires initial == before.initial && peak == before.peak && list.alive && npages == before.npages - |toDrop|
      ensures ShelfOk(View()) && InUse() == Live(before) && AllWordsOk()
    {
      hide ShelfOk, Live, Held, Owned, WordsOk, UnusedPages;
      assert View().held == before.held;
      assert LetGo(before, View(), Elems(toDrop));
      assert Shrunk(before, View(), toDrop);
      KeepsShrunk(before, View(), toDrop);
    }

    lemma DroppedOnce(before: Shelf<PageArena>, toDrop: seq<PageArena>)
      requires ShelfOk(before) && UnusedPages(before, toDrop) && Released(before, Elems(toDrop))
      ensures forall p | p in toDrop :: p in before.deallocs && before.deallocs[p] == 0 && p.deallocs == 1
    {
      hide Held, Owned, WordsOk;
      forall p | p in toDrop
        ensures p in before.deallocs && before.deallocs[p] == 0 && p.deallocs == 1
      {
        assert PageOk(before, p);
      }
    }

    lemma ShrunkLists(before: Shelf<PageArena>, toDrop: seq<PageArena>)
      requires ShelfOk(before) && UnusedPages(before, toDrop) && pending == before.pending
      requires FullList(made, fullList, full) && FreeList(made, freeList, free) && FreeList(made, list.head, pending) && Belongs()
      requires full == Without(before.full, Elems(toDrop)) && free == Without(before.free, Elems(toDrop))
      requires Flagged(made, before.full, before.free + pending)
      ensures ListsOk()
    {
      hide FullList, FreeList, PagesOk, Stocked, Bounded;
      FilterMembers(before.full, toDrop);
      FilterMembers(before.free, toDrop);
    }

    // -------------------------------------------------------------- statistics

    /** stats: its assertion holds, and the zeros of both words together are the blocks in use. */
    method Stats() returns (used: nat, unused: nat)
      requires Valid() && list.alive
      ensures used == |InUse()| && used + unused == npages * BLOCK_PER_PAGE
    {
      hide ListsOk, ShelfOk, Live, FullList, Held, View, Total, WordsOk;
      ghost var held := View().held;
      StatsFacts();
      used := 0;
      var count := 0;
      var next := fullList;
      FullAt(made, fullList, full, 0);
      while next != null
        invariant count <= |full| && Opt(next) == At(full, count) && used == Total(full[..count], held) <= count * BLOCK_PER_PAGE
        decreases |full| - count
      {
        FullAt(made, fullList, full, count);
        var page: PageArena := next;
        WordCounts(page.data);
        TotalNext(full, held, count);
        var zeros := CountZeros(Or(page.data.bitfield, page.data.atomic));
        used := used + zeros;
        next := page.next;
        count := count + 1;
      }
      assert full[..count] == full;
      assert count == npages;
      unused := count * BLOCK_PER_PAGE - used;
    }

    lemma StatsFacts()
      requires Valid() && list.alive
      ensures FullList(made, fullList, full) && npages == |full|
      ensures forall p | p in full :: p in made && p in View().held && View().held[p] == Held(p.data) && WordsOk(p.data)
      ensures Total(full, View().held) == |InUse()| && Total([], View().held) == 0
    {
      hide WordsOk, Live, Stocked, Held;
      LiveTotal(View());
    }

    // -------------------------------------------------------------- the end

    /** Drop for Arena: lets go of every listed page; the blocks in use outlive the arena. */
    method Drop()
      requires Valid() && list.alive
      modifies this`full, this`free, this`pending, list`alive, made`data, made`deallocs
      ensures Valid() && !list.alive && InUse() == old(InUse())
    {
      hide ListsOk, FullList, FreeList, Flagged, Belongs, ShelfOk, Live, View, SamePages, Released, AllWordsOk;
      ghost var before := View();
      ViewFacts();
      OwnLists();
      ListedOwned();
      AsReleased(before);
      DropListed(before);
      list.alive := false;
      full, free, pending := [], [], [];
      ClosedView(before);
      ClosedLists();
    }

    lemma ClosedView(before: Shelf<PageArena>)
      requires ShelfOk(before) && before.alive && before.held.Keys == made && Released(before, Elems(before.full)) && before.toFree == []
      requires full == [] && free == [] && pending == [] && !list.alive
      requires npages == before.npages && initial == before.initial && peak == before.peak
      ensures ShelfOk(View()) && InUse() == Live(before) && AllWordsOk()
    {
      hide ShelfOk, Live, Held, Owned, WordsOk;
      assert View().held == before.held;
      assert before.full + before.toFree == before.full;
      assert LetGo(before, View(), Elems(before.full + before.toFree));
      KeepsClosed(before, View());
    }

    lemma ClosedLists()
      requires Belongs() && !list.alive
      ensures ListsOk()
    {
    }

    // -------------------------------------------------------------- what clients may rely on

    /** The page of a block in use has not been deallocated, even after the arena is gone. */
    lemma UsedIsSafe(place: Place<PageArena>)
      requires Valid() && place in InUse()
      ensures place.page in made && place.page.deallocs == 0
    {
      UsedPlace(place);
    }

    /** Once the arena and every block are gone, every page ever made has been deallocated exactly
        once. */
    lemma NoLeak()
      requires Valid() && !list.alive && InUse() == {}
      ensures forall p | p in made :: p.deallocs == 1
    {
      hide ShelfOk, Live;
      NothingLeaks(View());
      assert forall p | p in made :: p in View().held && View().deallocs[p] == p.deallocs;
    }

    /** Capacity never exceeds what the arena started with, or twice the most blocks ever in use
        together: `peak` starts at 0, FindPlace raises it to the number of blocks in use, and no
        other method changes it. */
    lemma GrowthIsBounded()
      requires Valid()
      ensures npages * BLOCK_PER_PAGE <= Max(initial, 2 * peak) && |InUse()| <= peak
    {
    }
  }
}
