/** Pages of a SharedArena with each operation taken as atomic (src/page/shared_arena.rs:115-220);
    module SharedPage has the same operations access by access. */
module SharedPageOps {
  import opened Options
  import opened Bitfield
  import opened Chains
  import opened PageList

  type PageSharedArena = Page<Word>

  /** The blocks handed out. */
  ghost function Held(w: Word): set<nat> {
    Indices() - Free(w)
  }

  /** make_list_from_slice: links the pages to each other, in order. */
  method MakeListFromSlice(pages: seq<PageSharedArena>) returns (first: PageSharedArena, last: PageSharedArena)
    requires pages != [] && NoDup(pages)
    modifies pages`next, pages`nextFree, pages`inFreeList
    ensures first == pages[0] && last == pages[|pages| - 1]
    ensures forall i: nat | i < |pages| :: Opt(pages[i].next) == Opt(pages[i].nextFree) == At(pages, i + 1)
    ensures forall p | p in pages :: p.inFreeList
  {
    for index := 0 to |pages|
      invariant forall i: nat | i < index ::
                  Opt(pages[i].next) == Opt(pages[i].nextFree) == At(pages, i + 1) && pages[i].inFreeList
    {
      var next: Page?<Word> := if index + 1 < |pages| then pages[index + 1] else null;
      pages[index].nextFree := next;
      pages[index].next := next;
      pages[index].inFreeList := true;
    }
    first, last := pages[0], pages[|pages| - 1];
  }

  method AcquireFreeBlock(page: PageSharedArena) returns (block: Option<nat>)
    requires ArenaBit(page.data)
    modifies page`data
    ensures block.None? ==> Held(page.data) == Indices() && page.data == old(page.data)
    ensures block.Some? ==>
              IsLeast(block.value, Free(old(page.data))) && ArenaBit(page.data) && block.value !in Held(old(page.data)) &&
              block.value in Indices() && Held(page.data) == Held(old(page.data)) + {block.value}
    ensures block.Some? ==> forall i: nat | i < block.value :: i in Held(old(page.data))
  {
    var bitfield := page.data;
    var index := TrailingZeros(bitfield);
    TrailingZerosFinds(bitfield);
    if index == BLOCK_PER_PAGE {
      return None;
    }
    ClearBit(bitfield, index);
    page.data := And(page.data, Not(Bit(index)));
    assert index in Indices();
    return Some(index);
  }

  /** The last block of a page that its arena has let go deallocates the page; otherwise an
      unlisted page goes to the front of the pending list, if the arena is still there. `fetch_add`
      sets just the bit, because it was clear. */
  method DropBlock(page: PageSharedArena, index: nat, ghost made: set<PageSharedArena>, ghost pending: seq<PageSharedArena>,
                   ghost head: Page?<Word>, ghost free: seq<PageSharedArena>)
      returns (ghost pending': seq<PageSharedArena>)
    requires index in Held(page.data)
    requires page.list.alive ==>
               ArenaBit(page.data) && page in made && FreeList(made, page.list.head, pending) && FreeList(made, head, free) &&
               (!page.inFreeList ==> page !in pending && page !in free)
    modifies page`data, page`deallocs, page`inFreeList, page`nextFree, page.list`head
    ensures Held(page.data) == Held(old(page.data)) - {index} && ArenaBit(page.data) == ArenaBit(old(page.data))
    ensures var last := Held(page.data) == {} && !ArenaBit(page.data);
            page.deallocs == old(page.deallocs) + (if last then 1 else 0)
    ensures page.list.alive ==>
              page.inFreeList && FreeList(made, page.list.head, pending') && FreeList(made, head, free) &&
              pending' == if old(page.inFreeList) then pending else [page] + pending
    ensures !page.list.alive ==> pending' == pending
  {
    hide FreeList;
    pending' := pending;
    var bit := Bit(index);
    var oldBitfield := page.data;
    AddBit(oldBitfield, index);
    SetBit(oldBitfield, index);
    page.data := WrappingAdd(oldBitfield, bit);
    var newBitfield := Or(oldBitfield, bit);
    WordTests(newBitfield);
    NothingHeld(newBitfield);
    if Not(newBitfield) == MASK_ARENA_BIT {
      page.deallocs := page.deallocs + 1;
      return;
    }
    pending' := ListPage(page, made, pending, head, free);
  }

  lemma NothingHeld(w: Word)
    ensures Held(w) == {} <==> Free(w) == Indices()
    ensures Held(w) == Indices() <==> Free(w) == {}
  {
    assert Free(w) <= Indices();
    assert forall i | i in Indices() :: i in Free(w) || i in Held(w);
  }

  /** Lets go of a page: it is deallocated now if nothing in it is held. */
  method DropPage(page: PageSharedArena)
    requires ArenaBit(page.data)
    modifies page`data, page`deallocs
    ensures Held(page.data) == Held(old(page.data)) && !ArenaBit(page.data)
    ensures page.deallocs == old(page.deallocs) + if Held(page.data) == {} then 1 else 0
  {
    var oldBitfield := page.data;
    SubArenaBit(oldBitfield);
    page.data := WrappingSub(oldBitfield, MASK_ARENA_BIT);
    WordTests(oldBitfield);
    NothingHeld(oldBitfield);
    if Not(oldBitfield) == 0 {
      page.deallocs := page.deallocs + 1;
    }
  }

  /** An owned page with nothing held is the word of all ones. */
  lemma UnusedWord(w: Word)
    requires ArenaBit(w)
    ensures w == ALL_ONES <==> Held(w) == {}
  {
    WordTests(w);
    NothingHeld(w);
  }

  /** What the counts of zeros and ones mean for an owned page. */
  lemma WordCounts(w: Word)
    requires ArenaBit(w)
    ensures CountZeros(w) == |Held(w)| <= BLOCK_PER_PAGE && CountOnes(w) - 1 == |Indices() - Held(w)|
  {
    Counts(w);
    assert Free(w) <= Indices();
    assert Indices() - Held(w) == Free(w);
    assert Indices() == Held(w) + Free(w);
  }

  lemma NewWord()
    ensures Held(ALL_ONES) == {} && ArenaBit(ALL_ONES)
  {
    ConstantWords();
  }
}
