/** The single-threaded Pool and its handles PoolBox and ArenaRc (src/pool.rs:39-540,
    src/arena_rc.rs:93-174). A handle is identified with the block it refers to; an ArenaRc may
    have any number of copies. Handles outlive the pool. */
module Pools {
  import opened Options
  import opened Bitfield
  import opened Chains
  import opened Tally
  import opened Growth
  import opened PageList
  import opened PoolPage
  import opened PoolBooks

  type Handle<T> = Place<PagePool<T>>

  class Pool<T> {
    const list: ListHead<PoolData<T>>           // `free`, shared with the pages
    var pageList: Page?<PoolData<T>>
    var npages: nat

    ghost var made: set<PagePool<T>>            // every page ever made
    ghost var pages: seq<PagePool<T>>           // the page list
    ghost var free: seq<PagePool<T>>            // the free list
    ghost var boxes: set<Handle<T>>             // the handles that are PoolBoxes
    ghost var initial: nat                      // the blocks it was created with
    ghost var peak: nat                         // the most blocks ever in use together

    ghost function View(): Books<PagePool<T>, T>
      reads this`made, this`pages, this`free, this`boxes, this`npages, this`initial, this`peak
      reads list`alive, made`data, made`deallocs
    {
      Books(map p | p in made :: p.data, map p | p in made :: p.deallocs, pages, free, boxes, list.alive, npages, initial, peak)
    }

    /** Every block with a handle, with its value and the number of its handles. */
    ghost function LiveBlocks(): map<Handle<T>, Entry<T>>
      reads this`made, this`pages, this`free, this`boxes, this`npages, this`initial, this`peak
      reads list`alive, made`data, made`deallocs
    {
      Live(View())
    }

    /** The page list and the free list are well formed, the free list is part of the page list,
        and the flag of a page says whether it is on the free list. */
    ghost predicate ListsOk()
      reads this`made, this`pages, this`free, this`pageList, list
      reads made`next, made`nextFree, made`inFreeList
    {
      (forall p | p in made :: p.list == list) &&
      if list.alive then
        FullList(made, pageList, pages) && FreeList(made, list.head, free) && Flagged(made, pages, free)
      else pages == []
    }

    /** The invariant, between the search for a block and the making of its handle. */
    ghost predicate ValidBut(news: set<Handle<T>>)
      reads this, list, made
    {
      ListsOk() && BooksOk(View(), news)
    }

    ghost predicate Valid()
      reads this, list, made
    {
      ValidBut({})
    }

    // -------------------------------------------------------------- creation and growth

    constructor (cap: nat)
      ensures Valid() && list.alive && fresh(list) && fresh(made)
      ensures LiveBlocks() == map[] && boxes == {}
      ensures npages == PagesFor(cap) && initial == npages * BLOCK_PER_PAGE && peak == 0
    {
      hide ListsOk, Flagged, FullList, FreeList, NoDup, LiveOf, BooksOk, Live, Free, PagesFor, NewData;
      var n := PagesFor(cap);
      var head := new ListHead();
      ghost var none: set<PagePool<T>> := {};
      EmptyLists(none);
      var first, news := GrowLists(n, NewData(), head, null, null, none, [], []);
      head.head := first;
      list, pageList, npages := head, first, n;
      assert none + Elems(news) == Elems(news) && news + [] == news;
      made, pages, free := Elems(news), news, news;
      boxes, initial, peak := {}, n * BLOCK_PER_PAGE, 0;
      new;
      FrontLists([], news);
      FreshOk(View());
    }

    /** New pages stand in front of the others, none of which is on the free list. */
    lemma FrontLists(pages0: seq<PagePool<T>>, news: seq<PagePool<T>>)
      requires list.alive && pages == news + pages0 && free == news && forall p | p in made :: p.list == list
      requires FullList(made, pageList, pages) && FreeList(made, list.head, free)
      requires (forall p | p in news :: p.inFreeList) && forall p | p in pages0 :: !p.inFreeList && p !in news
      ensures ListsOk()
    {
      ListedMade(made, pageList, pages);
    }

    /** New pages in front of both lists. Only called when the free list is empty. */
    method AllocNewPage() returns (ghost news: seq<PagePool<T>>)
      requires Valid() && list.alive && list.head == null
      modifies this`pageList, this`npages, this`made, this`pages, this`free, list`head
      ensures Valid() && list.alive && made == old(made) + Elems(news) && fresh(news)
      ensures npages == (if old(npages) == 0 then 1 else if old(npages) <= 900_000 then 2 * old(npages) else old(npages) + 900_000)
      ensures npages == old(npages) + |news| && pages == news + old(pages) && free == news
      ensures LiveBlocks() == old(LiveBlocks()) && old(|LiveBlocks()|) == old(npages) * BLOCK_PER_PAGE
      ensures forall p | p in news :: Free(p.data.bitfield) == Indices()
    {
      hide ListsOk, Flagged, FullList, FreeList, NoDup, BooksOk, Live, Free, NewData, GrowthSize;
      ghost var before := View();
      EmptyFreeList();
      UnlistedPages();
      AllInUse(before);
      var toAllocate := GrowthSize(npages);
      news := PutNewPages(toAllocate);
      pages, free := news + pages, news;
      FrontLists(before.pages, news);
      GrownBooks(before, news);
    }

    /** The pages are made and linked in front of both lists. */
    method PutNewPages(n: nat) returns (ghost news: seq<PagePool<T>>)
      requires n > 0 && free == [] && FullList(made, pageList, pages) && FreeList(made, list.head, free)
      modifies this`pageList, this`npages, this`made, list`head
      ensures |news| == n && NoDup(news) && fresh(news) && made == old(made) + Elems(news) && npages == old(npages) + n
      ensures FullList(made, pageList, news + pages) && FreeList(made, list.head, news)
      ensures forall p | p in news :: p.data == NewData() && p.inFreeList && p.deallocs == 0 && p.list == list
    {
      hide FullList, FreeList, NoDup, NewData;
      var first, added := GrowLists(n, NewData(), list, pageList, list.head, made, pages, free);
      news := added;
      list.head := first;
      pageList := first;
      npages := npages + n;
      made := made + Elems(news);
      assert news + [] == news;
    }

    lemma GrownBooks(before: Books<PagePool<T>, T>, news: seq<PagePool<T>>)
      requires BooksOk(before, {}) && before.alive && before.free == [] && |news| == GrowthSize(before.npages)
      requires NoDup(news) && before.datas.Keys == before.deallocs.Keys && forall p | p in news :: p !in before.datas
      requires made == before.datas.Keys + Elems(news)
      requires forall p | p in before.datas :: p.data == before.datas[p] && p.deallocs == before.deallocs[p]
      requires forall p | p in news :: p.data == NewData() && p.deallocs == 0
      requires View() == before.(datas := View().datas, deallocs := View().deallocs, pages := news + before.pages,
                                 free := news + before.free, npages := before.npages + |news|)
      ensures BooksOk(View(), {}) && LiveBlocks() == Live(before)
      ensures forall p | p in news :: Free(p.data.bitfield) == Indices()
    {
      hide BooksOk, Live, LiveOf, Free, NewData, NoDup;
      GrownView(before, news);
      KeepsGrown(before, View(), news);
      NewDataOk<T>();
    }

    lemma GrownView(before: Books<PagePool<T>, T>, news: seq<PagePool<T>>)
      requires NoDup(news) && before.datas.Keys == before.deallocs.Keys && forall p | p in news :: p !in before.datas
      requires made == before.datas.Keys + Elems(news)
      requires forall p | p in before.datas :: p.data == before.datas[p] && p.deallocs == before.deallocs[p]
      requires forall p | p in news :: p.data == NewData() && p.deallocs == 0
      requires View() == before.(datas := View().datas, deallocs := View().deallocs, pages := news + before.pages,
                                 free := news + before.free, npages := before.npages + |news|)
      ensures Grown(before, View(), news)
    {
    }

    lemma UnlistedPages()
      requires ListsOk() && list.alive && free == []
      ensures FullList(made, pageList, pages) && FreeList(made, list.head, free) && (forall p | p in made :: p.list == list)
      ensures forall p | p in pages :: p in made && !p.inFreeList
    {
    }

    lemma EmptyFreeList()
      requires ListsOk() && list.alive && list.head == null
      ensures free == []
    {
    }

    // -------------------------------------------------------------- searching for a block

    /** The head of the free list is the first page of it. */
    lemma HeadOfFree()
      requires Valid() && list.alive && list.head != null
      ensures free != [] && free[0] == list.head && free[0] in made && free[0] in pages && free[0].list == list
      ensures ArenaBit(free[0].data.bitfield)
      ensures FreeList(made, free[0].nextFree, free[1..]) && free[0] !in free[1..]
    {
      hide BlocksOk, Stocked, BoxesOk, Bounded, ArenaBit, Free;
      ChainTail(NextFreeOf(made), Opt(list.head), free);
      assert PageOk(View().datas[free[0]], true, View().deallocs[free[0]]);
    }

    /** Takes a block of the head page, if it has one. */
    method TakeFromHead() returns (block: Option<nat>)
      requires Valid() && list.alive && list.head != null
      modifies list.head`data, this`peak
      ensures block.None? ==> Valid() && Free(list.head.data.bitfield) == {} && View() == old(View()) && list.head.data == old(list.head.data)
      ensures block.Some? ==>
                var h := Place(list.head, block.value);
                ValidBut({h}) && h !in old(LiveBlocks()) && Taken(old(LiveBlocks()), LiveBlocks(), h) &&
                peak == Max(old(peak), |LiveBlocks()|) && IsLeast(block.value, Free(old(list.head.data.bitfield)))
    {
      hide FullList, FreeList, BooksOk, LiveOf, Free, ArenaBit, IsLeast;
      ghost var before := View();
      HeadOfFree();
      var page := list.head;
      block := AcquireFreeBlock(page);
      if block.Some? {
        LeastIsFree(block.value, Free(before.datas[page].bitfield));
        ghost var datas := before.datas[page := page.data];
        peak := Max(peak, |LiveOf(datas)|);
        assert View().datas == datas && View().deallocs == before.deallocs;
        assert Acquired(before, View(), page, block.value);
        KeepsAcquired(before, View(), page, block.value);
      } else {
        assert View() == before;
      }
    }

    /** A full page leaves the free list. */
    method PopHead()
      requires Valid() && list.alive && list.head != null && Free(list.head.data.bitfield) == {}
      modifies list`head, list.head`inFreeList, this`free
      ensures Valid() && old(free) != [] && free == old(free)[1..] && View() == old(View()).(free := free)
    {
      hide FullList, FreeList, BooksOk, Live, Free, ArenaBit;
      ghost var before := View();
      HeadOfFree();
      KeepsPopped(before);
      var page := list.head;
      list.head := page.nextFree;
      page.inFreeList := false;
      free := free[1..];
      assert before.free == [page] + free;
      assert View() == before.(free := free);
    }

    /** No page of the free list has a free block. */
    ghost predicate Exhausted()
      reads this`free, free`data
    {
      forall p | p in free :: Free(p.data.bitfield) == {}
    }

    /** Only the free list got shorter. */
    twostate predicate Unrefilled()
      reads this`pages, this`made, this`npages
    {
      made == old(made) && npages == old(npages) && pages == old(pages)
    }

    /** The free list is fresh pages, which double their number. */
    twostate predicate Refilled()
      reads this`pages, this`made, this`npages, this`free
    {
      fresh(free) && made == old(made) + Elems(free) && pages == free + old(pages) && npages == old(npages) + |free| &&
      |free| == if old(npages) == 0 then 1 else if old(npages) <= 900_000 then old(npages) else 900_000
    }

    /** The inner loop of find_place: loses full pages in front of the free list until one has a
        free block. */
    method TakeListed() returns (h: Option<Handle<T>>, ghost lost: nat)
      requires Valid() && list.alive
      modifies list`head, this`free, this`peak, made`data, made`inFreeList
      ensures Unrefilled() && lost <= |old(free)| && free == old(free)[lost..]
      ensures forall i: nat | i < lost :: old(Free(free[i].data.bitfield)) == {}
      ensures h.Some? ==>
                lost < |old(free)| && old(Free(free[lost].data.bitfield)) != {} && h.value.page == free[0] && free[0] in made &&
                ValidBut({h.value}) && h.value !in old(LiveBlocks()) && Taken(old(LiveBlocks()), LiveBlocks(), h.value) &&
                peak == Max(old(peak), |LiveBlocks()|) && IsLeast(h.value.index, old(Free(free[lost].data.bitfield)))
      ensures h.None? ==>
                Valid() && list.head == null && free == [] && LiveBlocks() == old(LiveBlocks()) && peak == old(peak) &&
                forall p | p in made :: p.data == old(p.data)
    {
      hide FullList, FreeList, BooksOk, LiveOf, Free, ListsOk, Taken, IsLeast;
      lost := 0;
      while list.head != null
        invariant Valid() && LiveBlocks() == old(LiveBlocks()) && peak == old(peak) && Unrefilled()
        invariant lost <= |old(free)| && free == old(free)[lost..]
        invariant forall i: nat | i < lost :: old(Free(free[i].data.bitfield)) == {}
        invariant forall p | p in made :: p.data == old(p.data)
        decreases |free|
      {
        HeadOfFree();
        var page := list.head;
        var block := TakeFromHead();
        if block.Some? {
          LeastExists(block.value, old(Free(free[lost].data.bitfield)));
          return Some(Place(page, block.value)), lost;
        }
        PopHead();
        lost := lost + 1;
      }
      EmptyFreeList();
      h := None;
    }

    lemma LeastExists(i: nat, s: set<nat>)
      requires IsLeast(i, s)
      ensures s != {}
    {
    }

    /** Finds a free block: the least one of the first page of the free list that has one, or of a
        new page, exactly if all of them were full. The outer loop runs at most twice. */
    method FindPlace() returns (h: Handle<T>)
      requires Valid() && list.alive
      modifies this`pageList, this`npages, this`made, this`pages, this`free, this`peak, list`head, made`data, made`inFreeList
      ensures ValidBut({h}) && list.alive && boxes == old(boxes) && initial == old(initial)
      ensures old(made) <= made && fresh(made - old(made))
      ensures h !in old(LiveBlocks()) && Taken(old(LiveBlocks()), LiveBlocks(), h)
      ensures free != [] && h.page == free[0]
      ensures peak == Max(old(peak), |LiveBlocks()|)
      ensures npages == old(npages) ||
              (npages == (if old(npages) == 0 then 1 else if old(npages) <= 900_000 then 2 * old(npages) else old(npages) + 900_000) &&
               old(|LiveBlocks()|) == old(npages) * BLOCK_PER_PAGE)
      ensures if h.page in old(made) then IsLeast(h.index, Free(old(h.page.data.bitfield))) else h.index == 0
      ensures if old(Exhausted()) then Refilled() else Unrefilled() && exists k: nat :: k < |old(free)| && free == old(free)[k..]
    {
      hide FullList, FreeList, BooksOk, LiveOf, Free, ListsOk, GrowthSize, Taken, IsLeast;
      ghost var grown := false;
      while true
        invariant Valid() && list.alive && boxes == old(boxes) && initial == old(initial)
        invariant LiveBlocks() == old(LiveBlocks()) && peak == old(peak)
        invariant old(made) <= made && fresh(made - old(made))
        invariant (forall p | p in old(made) :: p.data == old(p.data)) && forall p | p in made - old(made) :: Free(p.data.bitfield) == Indices()
        invariant if grown then free != [] && free[0] in made - old(made) && Refilled() && old(Exhausted()) else Unrefilled() && free == old(free)
        invariant grown ==> Grew(old(npages), npages) && old(|LiveBlocks()|) == old(npages) * BLOCK_PER_PAGE
        decreases !grown
      {
        var found;
        ghost var lost;
        found, lost := TakeListed();
        FirstOfAll();
        if found.Some? {
          return found.value;
        }
        ghost var news := AllocNewPage();
        assert free[0] in news;
        grown := true;
      }
    }

    lemma FirstOfAll()
      ensures Indices() != {} && forall i | IsLeast(i, Indices()) :: i == 0
    {
      assert 0 in Indices();
    }

    // -------------------------------------------------------------- handles

    /** PoolBox::new and ArenaRc::new on a block just found: their assertion holds. */
    method NewHandle(h: Handle<T>, value: T, ghost isBox: bool)
      requires ValidBut({h}) && h in LiveBlocks() && LiveBlocks()[h].handles == 0 && h !in boxes
      modifies h.page`data, this`boxes
      ensures Valid() && LiveBlocks() == old(LiveBlocks())[h := Entry(Some(value), 1)]
      ensures boxes == if isBox then old(boxes) + {h} else old(boxes)
    {
      hide FullList, FreeList, BooksOk, LiveOf, Free;
      ghost var before := View();
      HandlePlace(h, {h});
      var page, i := h.page, h.index;
      page.data := page.data.(blocks := page.data.blocks[i := page.data.blocks[i].(value := Some(value))]);
      var counter := page.data.blocks[i].counter;
      assert counter == 0;
      page.data := page.data.(blocks := page.data.blocks[i := page.data.blocks[i].(counter := 1)]);
      boxes := if isBox then boxes + {h} else boxes;
      WrittenView(before, h, Block(Some(value), 1), {h});
    }

    /** Where a live block is. */
    lemma HandlePlace(h: Handle<T>, news: set<Handle<T>>)
      requires ValidBut(news) && h in LiveBlocks()
      ensures h.page in made && h.page.list == list && h.index in Held(h.page.data)
      ensures h.index < BLOCK_PER_PAGE == |h.page.data.blocks|
      ensures LiveBlocks()[h] == Entry(h.page.data.blocks[h.index].value, h.page.data.blocks[h.index].counter)
      ensures BlockOk(h.page.data, h.index, h in news) && ArenaBit(h.page.data.bitfield) == (h.page in pages)
      ensures list.alive ==> h.page in pages
    {
      hide Live, BlockOk, BlocksOk;
      LivePlace(View(), h, news);
      assert PageOk(View().datas[h.page], h.page in pages, View().deallocs[h.page]);
    }

    /** A block was written, and nothing else. */
    lemma WrittenView(before: Books<PagePool<T>, T>, h: Handle<T>, block: Block<T>, news: set<Handle<T>>)
      requires BooksOk(before, news) && news <= {h} && h in Live(before) && h.page in made
      requires h.index < |before.datas[h.page].blocks|
      requires before.datas.Keys == made
      requires h.page.data == before.datas[h.page].(blocks := before.datas[h.page].blocks[h.index := block])
      requires forall p | p in made :: (p != h.page ==> p.data == before.datas[p]) && p in before.deallocs && p.deallocs == before.deallocs[p]
      requires before.deallocs.Keys == made && View() == before.(datas := View().datas, deallocs := View().deallocs, boxes := boxes)
      requires block.value.Some? && block.counter > 0
      requires forall k | k in boxes :: if k == h then block.counter == 1 else k in before.boxes
      ensures BooksOk(View(), {}) && LiveBlocks() == Live(before)[h := Entry(block.value, block.counter)]
    {
      hide BooksOk, LiveOf;
      KeepsWritten(before, h, block, boxes, news);
      assert View().datas == Written(before.datas, h, block) && View().deallocs == before.deallocs;
    }

    /** Pool::alloc. */
    method Alloc(value: T) returns (box: Handle<T>)
      requires Valid() && list.alive
      modifies this`pageList, this`npages, this`made, this`pages, this`free, this`peak, this`boxes, list`head, made`data, made`inFreeList
      ensures Valid() && list.alive && initial == old(initial)
      ensures old(made) <= made && fresh(made - old(made))
      ensures box !in old(LiveBlocks()) && LiveBlocks() == old(LiveBlocks())[box := Entry(Some(value), 1)]
      ensures boxes == old(boxes) + {box}
      ensures peak == Max(old(peak), |LiveBlocks()|)
      ensures npages == old(npages) ||
              (npages == (if old(npages) == 0 then 1 else if old(npages) <= 900_000 then 2 * old(npages) else old(npages) + 900_000) &&
               old(|LiveBlocks()|) == old(npages) * BLOCK_PER_PAGE)
    {
      hide ListsOk, BooksOk, LiveOf, GrowthSize;
      BoxesAreLive();
      box := FindPlace();
      NewHandleInMade(box);
      WrittenSize(LiveBlocks(), box, Entry(Some(value), 1));
      NewHandle(box, value, true);
    }

    /** Pool::alloc_rc. */
    method AllocRc(value: T) returns (rc: Handle<T>)
      requires Valid() && list.alive
      modifies this`pageList, this`npages, this`made, this`pages, this`free, this`peak, this`boxes, list`head, made`data, made`inFreeList
      ensures Valid() && list.alive && initial == old(initial)
      ensures old(made) <= made && fresh(made - old(made))
      ensures rc !in old(LiveBlocks()) && LiveBlocks() == old(LiveBlocks())[rc := Entry(Some(value), 1)]
      ensures boxes == old(boxes) && rc !in boxes
      ensures peak == Max(old(peak), |LiveBlocks()|)
      ensures npages == old(npages) ||
              (npages == (if old(npages) == 0 then 1 else if old(npages) <= 900_000 then 2 * old(npages) else old(npages) + 900_000) &&
               old(|LiveBlocks()|) == old(npages) * BLOCK_PER_PAGE)
    {
      hide ListsOk, BooksOk, LiveOf, GrowthSize;
      BoxesAreLive();
      rc := FindPlace();
      NewHandleInMade(rc);
      WrittenSize(LiveBlocks(), rc, Entry(Some(value), 1));
      NewHandle(rc, value, false);
    }

    lemma BoxesAreLive()
      requires Valid()
      ensures forall h | h in boxes :: h in LiveBlocks() && LiveBlocks()[h].handles == 1
    {
    }

    lemma NewHandleInMade(h: Handle<T>)
      requires ValidBut({h}) && h in LiveBlocks()
      ensures h.page in made
    {
      HandlePlace(h, {h});
    }

    /** ArenaRc::clone. */
    method CloneRc(rc: Handle<T>) returns (copy: Handle<T>)
      requires Valid() && rc in LiveBlocks() && rc !in boxes && LiveBlocks()[rc].handles < ISIZE_MAX
      modifies rc.page`data
      ensures Valid() && copy == rc
      ensures LiveBlocks() == old(LiveBlocks())[rc := Entry(old(LiveBlocks())[rc].value, old(LiveBlocks())[rc].handles + 1)]
    {
      hide FullList, FreeList, BooksOk, LiveOf, Free;
      ghost var before := View();
      HandlePlace(rc, {});
      var page, i := rc.page, rc.index;
      var counter := page.data.blocks[i].counter;
      assert counter < ISIZE_MAX;
      page.data := page.data.(blocks := page.data.blocks[i := page.data.blocks[i].(counter := counter + 1)]);
      BlockInUse(before.datas[page], i);
      WrittenView(before, rc, page.data.blocks[i], {});
      copy := rc;
    }

    /** Deref of PoolBox and ArenaRc. */
    method Read(h: Handle<T>) returns (value: T)
      requires Valid() && h in LiveBlocks()
      ensures LiveBlocks()[h].value == Some(value)
    {
      hide ListsOk, BooksOk, LiveOf;
      HandlePlace(h, {});
      HandleIsSafe(h);
      value := h.page.data.blocks[h.index].value.value;
    }

    /** DerefMut of PoolBox. */
    method Write(box: Handle<T>, value: T)
      requires Valid() && box in boxes
      modifies box.page`data
      ensures Valid() && LiveBlocks() == old(LiveBlocks())[box := Entry(Some(value), 1)]
    {
      hide FullList, FreeList, BooksOk, LiveOf, Free;
      ghost var before := View();
      BoxesAreLive();
      HandlePlace(box, {});
      var page, i := box.page, box.index;
      page.data := page.data.(blocks := page.data.blocks[i := page.data.blocks[i].(value := Some(value))]);
      WrittenView(before, box, page.data.blocks[i], {});
    }

    /** The last handle of a block goes: its counter becomes 0 and the block is given back. */
    method GiveBack(h: Handle<T>)
      requires Valid() && h in LiveBlocks() && LiveBlocks()[h].handles == 1
      modifies h.page, list`head, this`free, this`boxes
      ensures Valid() && boxes == old(boxes) - {h} && LiveBlocks() == old(LiveBlocks()) - {h}
    {
      hide FullList, FreeList, BooksOk, LiveOf, Free, ArenaBit, Held;
      ghost var before := View();
      HandlePlace(h, {});
      var page, i := h.page, h.index;
      page.data := page.data.(blocks := page.data.blocks[i := page.data.blocks[i].(counter := 0)]);
      ghost var nowFree := DropBlock(page, i, made, free);
      boxes, free := boxes - {h}, if list.alive then nowFree else free;
      if list.alive {
        Relisted(before.free, page);
      }
      ReturnedView(before, h);
    }

    /** The lists after drop_block has listed the page. */
    lemma Relisted(before: seq<PagePool<T>>, page: PagePool<T>)
      requires list.alive && page in made && page in pages && page.inFreeList && (forall p | p in made :: p.list == list)
      requires FullList(made, pageList, pages) && FreeList(made, list.head, free)
      requires free == if page in before then before else [page] + before
      requires forall p | p in pages && p != page :: p in made && (p.inFreeList <==> p in before)
      requires forall p | p in before :: p in pages
      ensures ListsOk()
    {
      hide FullList, FreeList;
    }

    /** A block was given back, and nothing else. */
    lemma ReturnedView(before: Books<PagePool<T>, T>, h: Handle<T>)
      requires BooksOk(before, {}) && h in Live(before) && h.page in made
      requires before.datas.Keys == before.deallocs.Keys == made && h.index < |before.datas[h.page].blocks|
      requires var d := before.datas[h.page];
               GaveBack(d.(blocks := d.blocks[h.index := d.blocks[h.index].(counter := 0)]), h.page.data, h.index)
      requires h.page.deallocs == before.deallocs[h.page] +
                 (if Held(h.page.data) == {} && !ArenaBit(h.page.data.bitfield) then 1 else 0)
      requires forall p | p in made && p != h.page :: p.data == before.datas[p] && p.deallocs == before.deallocs[p]
      requires View() == before.(datas := View().datas, deallocs := View().deallocs, boxes := before.boxes - {h}, free := free)
      requires (forall p | p in before.free :: p in free) && (h.page in pages ==> h.page in free)
      ensures BooksOk(View(), {}) && LiveBlocks() == Live(before) - {h}
    {
      hide BooksOk, LiveOf, Free, ArenaBit, Held;
      assert View().datas == before.datas[h.page := h.page.data];
      assert View().deallocs == before.deallocs[h.page := h.page.deallocs];
      assert Returned(before, View(), h);
      KeepsReturned(before, View(), h);
    }

    /** Pool::drop of a PoolBox: its assertion, that the counter is 1, holds. */
    method DropBox(box: Handle<T>)
      requires Valid() && box in boxes
      modifies box.page, list`head, this`free, this`boxes
      ensures Valid() && boxes == old(boxes) - {box}
      ensures box in old(LiveBlocks()) && LiveBlocks() == old(LiveBlocks()) - {box}
    {
      hide ListsOk, BooksOk, LiveOf;
      BoxesAreLive();
      HandlePlace(box, {});
      assert box.page.data.blocks[box.index].counter == 1;
      GiveBack(box);
    }

    /** ArenaRc::drop: only the last handle gives the block back. */
    method DropRc(rc: Handle<T>)
      requires Valid() && rc in LiveBlocks() && rc !in boxes
      modifies rc.page, list`head, this`free, this`boxes
      ensures Valid() && boxes == old(boxes)
      ensures LiveBlocks() == if old(LiveBlocks())[rc].handles == 1 then old(LiveBlocks()) - {rc}
                              else old(LiveBlocks())[rc := Fewer(old(LiveBlocks())[rc])]
    {
      hide FullList, FreeList, BooksOk, LiveOf, Free;
      ghost var before := View();
      HandlePlace(rc, {});
      BlockInUse(rc.page.data, rc.index);
      var page, i := rc.page, rc.index;
      var counter := page.data.blocks[i].counter - 1;
      if counter == 0 {
        GiveBack(rc);
        assert boxes == old(boxes);
      } else {
        page.data := page.data.(blocks := page.data.blocks[i := page.data.blocks[i].(counter := counter)]);
        WrittenView(before, rc, page.data.blocks[i], {});
      }
    }

    // -------------------------------------------------------------- statistics

    /** Pool::stats: its assertion holds, and it counts exactly the blocks in use. */
    method Stats() returns (used: nat, unused: nat)
      requires Valid() && list.alive
      ensures used == |LiveBlocks()| && used + unused == npages * BLOCK_PER_PAGE
    {
      hide FullList, FreeList, BooksOk, LiveOf, Free, ArenaBit, Held, Total, NoDup;
      ghost var held := HeldOf(View().datas);
      StatsFacts();
      var next := pageList;
      used := 0;
      var count := 0;
      FullAt(made, pageList, pages, 0);
      while next != null
        invariant count <= |pages| && Opt(next) == At(pages, count)
        invariant used == Total(pages[..count], held) <= count * BLOCK_PER_PAGE
        decreases |pages| - count
      {
        FullAt(made, pageList, pages, count);
        ZerosAreHeld(next.data);
        TotalNext(pages, held, count);
        var zeros := CountZeros(next.data.bitfield);
        used := used + zeros;
        next := next.next;
        count := count + 1;
      }
      assert pages[..count] == pages;
      assert count == npages;
      unused := count * BLOCK_PER_PAGE - used;
    }

    lemma StatsFacts()
      requires Valid() && list.alive
      ensures FullList(made, pageList, pages) && npages == |pages|
      ensures forall p | p in pages :: p in HeldOf(View().datas) && ArenaBit(p.data.bitfield) && HeldOf(View().datas)[p] == Held(p.data)
      ensures Total(pages, HeldOf(View().datas)) == |LiveBlocks()| && Total([], HeldOf(View().datas)) == 0
    {
      hide BlocksOk, Stocked, BoxesOk, Bounded, ArenaBit, Held, Live;
      LiveTotal(View());
      forall p | p in pages
        ensures ArenaBit(p.data.bitfield)
      {
        assert PageOk(View().datas[p], true, View().deallocs[p]);
      }
    }

    // -------------------------------------------------------------- letting pages go

    /** drop_page on each page, last page first. */
    method DropPages(toDrop: seq<PagePool<T>>, ghost before: Books<PagePool<T>, T>)
      requires NoDup(toDrop) && (forall p | p in toDrop :: p in made && ArenaBit(p.data.bitfield))
      requires before.datas.Keys == before.deallocs.Keys == made
      requires forall p | p in made :: p.data == before.datas[p] && p.deallocs == before.deallocs[p]
      modifies made`data, made`deallocs
      ensures forall p | p in made ::
                if p in toDrop then LetGoPage(before.datas[p], p.data, before.deallocs[p], p.deallocs)
                else p.data == before.datas[p] && p.deallocs == before.deallocs[p]
    {
      hide LetGoPage, ArenaBit, NoDup;
      for i := |toDrop| downto 0
        invariant forall p | p in made ::
                    if p in toDrop[i..] then LetGoPage(before.datas[p], p.data, before.deallocs[p], p.deallocs)
                    else p.data == before.datas[p] && p.deallocs == before.deallocs[p]
      {
        var page := toDrop[i];
        TailSplits(toDrop, i);
        DropPage(page);
        WasLetGo(before.datas[page], page.data, before.deallocs[page], page.deallocs);
      }
      assert toDrop[0..] == toDrop;
    }

    lemma WasLetGo(d: PoolData<T>, d': PoolData<T>, deallocs: nat, deallocs': nat)
      requires Free(d'.bitfield) == Free(d.bitfield) && !ArenaBit(d'.bitfield) && d'.blocks == d.blocks
      requires deallocs' == deallocs + if Held(d') == {} then 1 else 0
      ensures LetGoPage(d, d', deallocs, deallocs')
    {
    }

    /** The first loop of shrink_to_fit finds exactly the unused pages. */
    method UnlinkFree() returns (toDrop: seq<PagePool<T>>)
      requires Valid() && list.alive
      modifies list`head, made`nextFree
      ensures Unused(View(), toDrop) && FreeList(made, list.head, Without(free, Elems(toDrop)))
    {
      hide FullList, FreeList, BooksOk, LiveOf, Free, ArenaBit, Held, NoDup, Unused, Elems;
      OwnLists();
      assert forall p | p in free :: p in pages && p in made;
      var head;
      head, toDrop := UnlinkUnused(list.head, made, free, (d: PoolData<T>) => d.bitfield == ALL_ONES);
      list.head := head;
      UnusedPages(View(), toDrop);
    }

    /** Pool::shrink_to_fit: every unused page leaves both lists, which keep their order, and is
        deallocated; every block in use stays as it is. */
    method ShrinkToFit() returns (ghost removed: seq<PagePool<T>>)
      requires Valid() && list.alive
      modifies this`pageList, this`npages, this`pages, this`free, list`head, made
      ensures Valid() && list.alive && made == old(made) && initial == old(initial) && boxes == old(boxes)
      ensures LiveBlocks() == old(LiveBlocks()) && Unused(old(View()), removed)
      ensures pages == Without(old(pages), Elems(removed)) && free == Without(old(free), Elems(removed))
      ensures forall p | p in removed :: p in made && old(p.deallocs) == 0 && p.deallocs == 1
    {
      hide ListsOk, BooksOk, Live, Held, Unused, Flagged, FullList, FreeList, Without, Elems, View;
      OwnLists();
      var toDrop := UnlinkBoth();
      removed := toDrop;
      FinishShrink(toDrop);
    }

    /** Both loops of shrink_to_fit. */
    method UnlinkBoth() returns (toDrop: seq<PagePool<T>>)
      requires Valid() && list.alive
      modifies list`head, this`pageList, made`nextFree, made`next
      ensures Unused(View(), toDrop) && FreeList(made, list.head, Without(free, Elems(toDrop)))
      ensures FullList(made, pageList, Without(pages, Elems(toDrop)))
    {
      hide ListsOk, BooksOk, Unused, Flagged, FullList, FreeList, Without, Elems, View;
      OwnLists();
      toDrop := UnlinkFree();
      pageList := UnlinkTaken(pageList, made, pages, toDrop);
    }

    method FinishShrink(toDrop: seq<PagePool<T>>)
      requires list.alive && BooksOk(View(), {}) && Unused(View(), toDrop)
      requires Flagged(made, pages, free)
      requires forall p | p in made :: p.list == list
      requires FreeList(made, list.head, Without(free, Elems(toDrop)))
      requires FullList(made, pageList, Without(pages, Elems(toDrop)))
      modifies this`npages, this`pages, this`free, made`data, made`deallocs
      ensures Valid() && LiveBlocks() == old(LiveBlocks())
      ensures pages == Without(old(pages), Elems(toDrop)) && free == Without(old(free), Elems(toDrop))
      ensures forall p | p in toDrop :: p in made && old(p.deallocs) == 0 && p.deallocs == 1
    {
      hide FullList, FreeList, Flagged, BooksOk, LiveOf, Free, ArenaBit, Held, NoDup, Without, LetGoPage;
      ghost var before, r := View(), Elems(toDrop);
      assert forall p | p in toDrop :: p in made && p.data == before.datas[p] && p.deallocs == before.deallocs[p];
      npages := npages - |toDrop|;
      DropPages(toDrop, before);
      pages, free := Without(pages, r), Without(free, r);
      ShrunkView(before, toDrop);
      DroppedOnce(before, toDrop);
      ShrunkLists(before.pages, before.free, r);
    }

    lemma ShrunkView(before: Books<PagePool<T>, T>, toDrop: seq<PagePool<T>>)
      requires BooksOk(before, {}) && before.alive && before.datas.Keys == before.deallocs.Keys == made && Unused(before, toDrop)
      requires forall p | p in made ::
                 if p in toDrop then LetGoPage(before.datas[p], p.data, before.deallocs[p], p.deallocs)
                 else p.data == before.datas[p] && p.deallocs == before.deallocs[p]
      requires View() == before.(datas := View().datas, deallocs := View().deallocs, pages := Without(before.pages, Elems(toDrop)),
                                 free := Without(before.free, Elems(toDrop)), npages := before.npages - |toDrop|)
      ensures BooksOk(View(), {}) && LiveBlocks() == Live(before)
    {
      hide BooksOk, LiveOf, LetGoPage, Held, ArenaBit, NoDup;
      assert LetGo(before, View(), Elems(toDrop));
      hide Unused;
      KeepsShrunk(before, View(), toDrop);
    }

    lemma DroppedOnce(before: Books<PagePool<T>, T>, toDrop: seq<PagePool<T>>)
      requires Unused(before, toDrop) && before.datas.Keys == before.deallocs.Keys == made
      requires forall p | p in made && p in toDrop :: LetGoPage(before.datas[p], p.data, before.deallocs[p], p.deallocs)
      ensures forall p | p in toDrop :: p in made && before.deallocs[p] == 0 && p.deallocs == 1
    {
      hide Free, ArenaBit;
      forall p | p in toDrop
        ensures p in made && before.deallocs[p] == 0 && p.deallocs == 1
      {
        assert Held(p.data) == Held(before.datas[p]);
      }
    }

    lemma ShrunkLists(pages0: seq<PagePool<T>>, free0: seq<PagePool<T>>, r: set<PagePool<T>>)
      requires list.alive && (forall p | p in made :: p.list == list)
      requires FullList(made, pageList, pages) && FreeList(made, list.head, free)
      requires pages == Without(pages0, r) && free == Without(free0, r)
      requires Flagged(made, pages0, free0)
      ensures ListsOk()
    {
      hide FullList, FreeList, Without;
      WithoutMembers(pages0, r);
      WithoutMembers(free0, r);
    }

    lemma OwnLists()
      requires ListsOk() && list.alive
      ensures FreeList(made, list.head, free) && FullList(made, pageList, pages)
      ensures Flagged(made, pages, free) && forall p | p in made :: p.list == list
    {
    }

    /** Drop for Pool: every listed page is let go; the blocks in use outlive the pool. */
    method Drop()
      requires Valid() && list.alive
      modifies this`pages, this`free, list`alive, made`data, made`deallocs
      ensures Valid() && !list.alive && LiveBlocks() == old(LiveBlocks())
    {
      hide FullList, FreeList, Flagged, BooksOk, Live, LetGoPage;
      ghost var before := View();
      OwnLists();
      DropAll();
      list.alive := false;
      free := Without(free, Elems(pages));
      pages := [];
      ClosedView(before);
    }

    /** The loop of Drop, along the page list. */
    method DropAll()
      requires Valid() && list.alive
      modifies made`data, made`deallocs
      ensures forall p | p in made ::
                if p in pages then LetGoPage(old(View()).datas[p], p.data, old(View()).deallocs[p], p.deallocs)
                else p.data == old(View()).datas[p] && p.deallocs == old(View()).deallocs[p]
    {
      hide FullList, FreeList, Flagged, BooksOk, Live, LiveOf, Free, ArenaBit, Held, NoDup, LetGoPage;
      ghost var before := View();
      OwnLists();
      ListedPages();
      assert forall p | p in pages :: p in before.datas && ArenaBit(before.datas[p].bitfield);
      var next := pageList;
      ghost var n := 0;
      FullAt(made, pageList, pages, 0);
      while next != null
        invariant n <= |pages| && Opt(next) == At(pages, n) && FullList(made, pageList, pages)
        invariant forall p | p in made ::
                    if p in pages[..n] then LetGoPage(before.datas[p], p.data, before.deallocs[p], p.deallocs)
                    else p.data == before.datas[p] && p.deallocs == before.deallocs[p]
        decreases |pages| - n
      {
        FullAt(made, pageList, pages, n);
        FrontSplits(pages, n);
        assert next in pages && next.data == before.datas[next];
        var nextNext := next.next;
        DropPage(next);
        WasLetGo(before.datas[next], next.data, before.deallocs[next], next.deallocs);
        next := nextNext;
        n := n + 1;
      }
      assert pages[..n] == pages;
    }

    lemma ClosedView(before: Books<PagePool<T>, T>)
      requires BooksOk(before, {}) && before.alive && before.datas.Keys == before.deallocs.Keys == made
      requires forall p | p in made ::
                 if p in before.pages then LetGoPage(before.datas[p], p.data, before.deallocs[p], p.deallocs)
                 else p.data == before.datas[p] && p.deallocs == before.deallocs[p]
      requires View() == before.(datas := View().datas, deallocs := View().deallocs, pages := [],
                                 free := Without(before.free, Elems(before.pages)), alive := false)
      ensures BooksOk(View(), {}) && LiveBlocks() == Live(before)
    {
      hide BooksOk, LiveOf, LetGoPage, Held, ArenaBit;
      WithoutAll(before.pages, Elems(before.pages));
      assert LetGo(before, View(), Elems(before.pages));
      KeepsClosed(before, View());
    }

    lemma ListedPages()
      requires Valid() && list.alive
      ensures forall p | p in pages :: p in made && p in View().datas && ArenaBit(View().datas[p].bitfield)
    {
      hide BlocksOk, Stocked, BoxesOk, Bounded, ArenaBit, Held, Live;
      forall p | p in pages
        ensures p in made && ArenaBit(p.data.bitfield)
      {
        assert PageOk(View().datas[p], true, View().deallocs[p]);
      }
    }

    // -------------------------------------------------------------- what clients may rely on

    /** While a block has a handle its page has not been deallocated and its value is there, even
        after the pool is gone. */
    lemma HandleIsSafe(h: Handle<T>)
      requires Valid() && h in LiveBlocks()
      ensures h.page in made && h.page.deallocs == 0 && LiveBlocks()[h].value.Some? && LiveBlocks()[h].handles > 0
    {
      hide BooksOk, Live;
      HandlePlace(h, {});
      LiveNotDeallocated(View(), h);
    }

    /** Capacity never exceeds what the pool started with, or twice the most blocks ever in use
        together: `peak` starts at 0, Alloc and AllocRc raise it to the number of live blocks, and
        no other method changes it. */
    lemma GrowthIsBounded()
      requires Valid()
      ensures npages * BLOCK_PER_PAGE <= Max(initial, 2 * peak) && |LiveBlocks()| <= peak
    {
    }

    /** Once the pool and every handle are gone, every page ever made has been deallocated exactly
        once. */
    lemma NoLeak()
      requires Valid() && !list.alive && LiveBlocks() == map[]
      ensures forall p | p in made :: p.deallocs == 1
    {
      hide BooksOk, Live;
      NothingLeaks(View());
      forall p | p in made
        ensures p.deallocs == 1
      {
        assert p in View().datas;
      }
    }
  }

  lemma BlockInUse<T>(d: PoolData<T>, i: nat)
    requires BlockOk(d, i, false) && i in Held(d) && i < |d.blocks|
    ensures d.blocks[i].value.Some? && d.blocks[i].counter > 0
  {
  }

  lemma LeastIsFree(i: nat, s: set<nat>)
    requires IsLeast(i, s)
    ensures i in s
  {
  }

  /** A block without a handle has joined the live ones. */
  ghost predicate Taken<T>(live: map<Handle<T>, Entry<T>>, live': map<Handle<T>, Entry<T>>, h: Handle<T>) {
    h in live' && live' == live[h := Entry(live'[h].value, 0)]
  }
}