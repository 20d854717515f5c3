/** Pages of an Arena with each operation taken as atomic (src/page/arena.rs:100-210); module
    ArenaPage has the same operations access by access. */
module ArenaPageOps {
  import opened Options
  import opened Bitfield
  import opened PageList

  /** The word private to the owner, and the one that remote drops use. */
  datatype Words = Words(bitfield: Word, atomic: Word)

  type PageArena = Page<Words>

  function NewWords(): Words {
    Words(ALL_ONES, 0)
  }

  /** The blocks handed out: those free in neither word. */
  ghost function Held(d: Words): set<nat> {
    Indices() - (Free(d.bitfield) + Free(d.atomic))
  }

  /** drop_page, which merges the words, has not been called. */
  predicate Owned(d: Words) {
    !ArenaBit(d.atomic)
  }

  /** The private word always has the arena's bit; the words share no free block until drop_page
      has merged the private one into the other. */
  ghost predicate WordsOk(d: Words) {
    ArenaBit(d.bitfield) && if Owned(d) then Free(d.bitfield) !! Free(d.atomic) else Free(d.bitfield) <= Free(d.atomic)
  }

  /** The free blocks the owner looks at: those of the private word, and those of the other word when
      it has none. */
  function Offered(d: Words): set<nat> {
    if Free(d.bitfield) != {} then Free(d.bitfield) else Free(d.atomic)
  }

  /** acquire_free_block: none if and only if every block is out; otherwise the lowest free block
      of the private word, which takes the other word over when it has none. */
  method AcquireFreeBlock(page: PageArena) returns (block: Option<nat>)
    requires WordsOk(page.data) && Owned(page.data)
    modifies page`data
    ensures WordsOk(page.data) && Owned(page.data)
    ensures block.None? ==> Held(page.data) == Indices() && page.data == old(page.data)
    ensures block.Some? ==>
              block.value in Indices() && block.value !in Held(old(page.data)) && Held(page.data) == Held(old(page.data)) + {block.value} &&
              IsLeast(block.value, Offered(old(page.data)))
  {
    ghost var before, merged := page.data, false;
    while true
      invariant WordsOk(page.data) && Owned(page.data) && Held(page.data) == Held(before)
      invariant merged ==> Free(page.data.bitfield) != {} && Free(before.bitfield) == {} && Free(page.data.bitfield) == Free(before.atomic)
      invariant !merged ==> page.data == before
      decreases !merged
    {
      var index := TrailingZeros(page.data.bitfield);
      TrailingZerosFinds(page.data.bitfield);
      if index == BLOCK_PER_PAGE {
        WordTests(page.data.atomic);
        if page.data.atomic != 0 {
          Merge(page.data);
          page.data := Words(Or(page.data.bitfield, page.data.atomic), 0);
          merged := true;
          continue;
        }
        NothingFree(page.data);
        return None;
      }
      Take(page.data, index);
      page.data := page.data.(bitfield := And(page.data.bitfield, Not(Bit(index))));
      return Some(index);
    }
  }

  /** Taking over the other word loses no free block. */
  lemma Merge(d: Words)
    requires WordsOk(d) && Owned(d)
    ensures var d' := Words(Or(d.bitfield, d.atomic), 0);
            WordsOk(d') && Owned(d') && Held(d') == Held(d) && Free(d'.bitfield) == Free(d.bitfield) + Free(d.atomic)
  {
    OrWords(d.bitfield, d.atomic);
    ConstantWords();
  }

  lemma Take(d: Words, i: nat)
    requires WordsOk(d) && Owned(d) && i in Free(d.bitfield)
    ensures var d' := d.(bitfield := And(d.bitfield, Not(Bit(i))));
            i in Indices() && WordsOk(d') && Owned(d') && i !in Held(d) && Held(d') == Held(d) + {i}
  {
    ClearBit(d.bitfield, i);
    assert i in Indices();
  }

  lemma NothingFree(d: Words)
    ensures Held(d) == Indices() <==> Free(d.bitfield) == {} && Free(d.atomic) == {}
    ensures Held(d) == {} <==> Free(d.bitfield) + Free(d.atomic) == Indices()
  {
    assert Free(d.bitfield) <= Indices() && Free(d.atomic) <= Indices();
    assert forall i | i in Indices() :: i in Free(d.bitfield) || i in Free(d.atomic) || i in Held(d);
    assert forall i | i in Free(d.bitfield) + Free(d.atomic) :: i in Indices() && i !in Held(d);
  }

  /** The last block of a page that its arena has let go deallocates the page; otherwise an
      unlisted page goes to the front of the pending list, if the arena is still there. `fetch_add`
      sets just the bit, because it was clear. */
  method DropBlock(page: PageArena, index: nat, ghost made: set<PageArena>, ghost pending: seq<PageArena>,
                   ghost head: Page?<Words>, ghost free: seq<PageArena>)
      returns (ghost pending': seq<PageArena>)
    requires WordsOk(page.data) && index in Held(page.data)
    requires page.list.alive ==>
               Owned(page.data) && page in made && FreeList(made, page.list.head, pending) && FreeList(made, head, free) &&
               (!page.inFreeList ==> page !in pending && page !in free)
    modifies page`data, page`deallocs, page`inFreeList, page`nextFree, page.list`head
    ensures WordsOk(page.data) && Held(page.data) == Held(old(page.data)) - {index} && Owned(page.data) == Owned(old(page.data))
    ensures page.deallocs == old(page.deallocs) + if Held(page.data) == {} && !Owned(page.data) then 1 else 0
    ensures page.list.alive ==>
              page.inFreeList && FreeList(made, page.list.head, pending') && FreeList(made, head, free) &&
              pending' == if old(page.inFreeList) then pending else [page] + pending
    ensures !page.list.alive ==> pending' == pending
  {
    hide FreeList;
    pending' := pending;
    var bit := Bit(index);
    var oldBitfield := page.data.atomic;
    GiveBack(page.data, index);
    page.data := page.data.(atomic := WrappingAdd(oldBitfield, bit));
    var newBitfield := Or(oldBitfield, bit);
    if newBitfield == ALL_ONES {
      page.deallocs := page.deallocs + 1;
      return;
    }
    pending' := ListPage(page, made, pending, head, free);
  }

  lemma GiveBack(d: Words, i: nat)
    requires WordsOk(d) && i in Held(d)
    ensures var d' := d.(atomic := WrappingAdd(d.atomic, Bit(i)));
            WordsOk(d') && Held(d') == Held(d) - {i} && Owned(d') == Owned(d) && d'.atomic == Or(d.atomic, Bit(i)) &&
            (d'.atomic == ALL_ONES <==> Held(d') == {} && !Owned(d'))
  {
    AddBit(d.atomic, i);
    SetBit(d.atomic, i);
    var d' := d.(atomic := Or(d.atomic, Bit(i)));
    WordTests(d'.atomic);
    NothingFree(d');
    assert !Owned(d') ==> Free(d'.bitfield) + Free(d'.atomic) == Free(d'.atomic);
  }

  /** Lets go of a page: the words are merged, and the page is deallocated now if nothing in it
      is held. */
  method DropPage(page: PageArena)
    requires WordsOk(page.data) && Owned(page.data)
    modifies page`data, page`deallocs
    ensures WordsOk(page.data) && Held(page.data) == Held(old(page.data)) && !Owned(page.data)
    ensures page.deallocs == old(page.deallocs) + if Held(page.data) == {} then 1 else 0
  {
    var bitfield := page.data.bitfield;
    var oldBitfield := page.data.atomic;
    OrWords(oldBitfield, bitfield);
    page.data := page.data.(atomic := Or(oldBitfield, bitfield));
    WordTests(page.data.atomic);
    NothingFree(page.data);
    assert Free(page.data.bitfield) + Free(page.data.atomic) == Free(page.data.atomic);
    if Or(oldBitfield, bitfield) == ALL_ONES {
      page.deallocs := page.deallocs + 1;
    }
  }

  /** What shrink_to_fit looks for. */
  predicate WordsLookUnused(d: Words) {
    LooksUnused(d.bitfield, d.atomic)
  }

  lemma UnusedWords(d: Words)
    requires WordsOk(d)
    ensures WordsLookUnused(d) <==> Held(d) == {}
  {
    OrWords(d.bitfield, d.atomic);
    WordTests(Or(d.bitfield, d.atomic));
    NothingFree(d);
  }

  /** The zeros of the two words together are the blocks in use. */
  lemma WordCounts(d: Words)
    requires WordsOk(d)
    ensures CountZeros(Or(d.bitfield, d.atomic)) == |Held(d)| <= BLOCK_PER_PAGE
  {
    OrWords(d.bitfield, d.atomic);
    Counts(Or(d.bitfield, d.atomic));
    assert Held(d) == Indices() - Free(Or(d.bitfield, d.atomic));
    assert Indices() == Held(d) + (Indices() - Held(d));
  }

  lemma NewWordsOk()
    ensures WordsOk(NewWords()) && Held(NewWords()) == {} && Owned(NewWords())
  {
    ConstantWords();
  }
}
