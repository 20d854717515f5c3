/** Pages of a Pool, one non-atomic access after another (src/page/pool.rs:36-158). */
module PoolPage {
  import opened Options
  import opened Bitfield
  import opened Tally
  import opened PageList

  /** A block: its value, if one has been written and not dropped, and its reference counter. */
  datatype Block<T> = Block(value: Option<T>, counter: nat)

  datatype PoolData<T> = PoolData(bitfield: Word, blocks: seq<Block<T>>)

  type PagePool<T> = Page<PoolData<T>>

  function NewData<T>(): PoolData<T> {
    PoolData(ALL_ONES, seq(BLOCK_PER_PAGE, i => Block(None, 0)))
  }

  /** The blocks handed out. */
  ghost function Held<T>(d: PoolData<T>): set<nat> {
    Indices() - Free(d.bitfield)
  }

  function BlockAt<T>(d: PoolData<T>, i: nat): Block<T> {
    if i < |d.blocks| then d.blocks[i] else Block(None, 0)
  }

  // ---------------------------------------------------------------- what is live

  /** What the handles of a block see: its value, and how many handles there are. */
  datatype Entry<T> = Entry(value: Option<T>, handles: nat)

  ghost function EntryAt<T>(d: PoolData<T>, i: nat): Entry<T> {
    Entry(BlockAt(d, i).value, BlockAt(d, i).counter)
  }

  ghost function HeldOf<A, T>(datas: map<A, PoolData<T>>): map<A, set<nat>> {
    map p | p in datas :: Held(datas[p])
  }

  /** The abstract state: every block handed out, with its value and its number of handles. */
  ghost function LiveOf<A, T>(datas: map<A, PoolData<T>>): map<Place<A>, Entry<T>> {
    map h: Place<A> | h in Places(datas.Keys, HeldOf(datas)) :: EntryAt(datas[h.page], h.index)
  }

  lemma LiveIs<A, T>(datas: map<A, PoolData<T>>, h: Place<A>)
    ensures h in LiveOf(datas) <==> h.page in datas && h.index in Held(datas[h.page])
    ensures h in LiveOf(datas) ==> LiveOf(datas)[h] == EntryAt(datas[h.page], h.index)
  {
  }

  /** One page changed, and in it at most one block. */
  lemma LiveChanges<A, T>(datas: map<A, PoolData<T>>, p: A, i: nat, d: PoolData<T>)
    requires p in datas
    requires forall j: nat | j != i :: (j in Held(d) <==> j in Held(datas[p])) && BlockAt(d, j) == BlockAt(datas[p], j)
    ensures var live, live' := LiveOf(datas), LiveOf(datas[p := d]);
            live' == if i in Held(d) then live[Place(p, i) := EntryAt(d, i)] else live - {Place(p, i)}
  {
    hide HeldOf, Held, BlockAt;
    var datas' := datas[p := d];
    var live, live' := LiveOf(datas), LiveOf(datas');
    var expected := if i in Held(d) then live[Place(p, i) := EntryAt(d, i)] else live - {Place(p, i)};
    forall h: Place<A> | h in live' || h in expected
      ensures h in live' && h in expected && live'[h] == expected[h]
    {
      LiveIs(datas, h);
      LiveIs(datas', h);
      assert h == Place(h.page, h.index);
    }
    assert live' == expected;
  }

  /** Nothing live changed: held blocks and their contents are the same. */
  lemma LiveFrame<A, T>(datas: map<A, PoolData<T>>, datas': map<A, PoolData<T>>)
    requires forall p | p in datas :: p in datas' && Held(datas'[p]) == Held(datas[p]) && datas'[p].blocks == datas[p].blocks
    requires forall p | p in datas' && p !in datas :: Held(datas'[p]) == {}
    ensures LiveOf(datas') == LiveOf(datas)
  {
    hide HeldOf, Held;
    forall h: Place<A> | h in LiveOf(datas') || h in LiveOf(datas)
      ensures h in LiveOf(datas') && h in LiveOf(datas) && LiveOf(datas')[h] == LiveOf(datas)[h]
    {
      LiveIs(datas, h);
      LiveIs(datas', h);
    }
    assert LiveOf(datas') == LiveOf(datas);
  }

  // ---------------------------------------------------------------- operations

  method AcquireFreeBlock<T>(page: PagePool<T>) returns (block: Option<nat>)
    requires ArenaBit(page.data.bitfield)
    modifies page`data
    ensures block.None? ==> Free(page.data.bitfield) == {} && page.data == old(page.data)
    ensures block.Some? ==>
              IsLeast(block.value, Free(old(page.data.bitfield))) && ArenaBit(page.data.bitfield) &&
              Free(page.data.bitfield) == Free(old(page.data.bitfield)) - {block.value} &&
              page.data.blocks == old(page.data.blocks)
  {
    var word := page.data.bitfield;
    var index := TrailingZeros(word);
    TrailingZerosFinds(word);
    if index == BLOCK_PER_PAGE {
      return None;
    }
    ClearBit(word, index);
    page.data := page.data.(bitfield := And(word, Not(Bit(index))));
    return Some(index);
  }

  /** The state of a page after its block i has been given back. */
  ghost predicate GaveBack<T>(d: PoolData<T>, d': PoolData<T>, i: nat) {
    Free(d'.bitfield) == Free(d.bitfield) + {i} && ArenaBit(d'.bitfield) == ArenaBit(d.bitfield) &&
    i < |d.blocks| && d'.blocks == d.blocks[i := Block(None, d.blocks[i].counter)]
  }

  /** The last block of a page that its pool has let go deallocates the page; otherwise an
      unlisted page goes to the front of the free list, if the pool is still there. */
  method DropBlock<T>(page: PagePool<T>, index: nat, ghost made: set<PagePool<T>>, ghost free: seq<PagePool<T>>)
      returns (ghost free': seq<PagePool<T>>)
    requires index < BLOCK_PER_PAGE && index < |page.data.blocks|
    requires page.list.alive ==>
               page in made && FreeList(made, page.list.head, free) && (page.inFreeList <==> page in free)
    modifies page`data, page`deallocs, page`inFreeList, page`nextFree, page.list`head
    ensures GaveBack(old(page.data), page.data, index)
    ensures var last := Held(page.data) == {} && !ArenaBit(page.data.bitfield);
            page.deallocs == old(page.deallocs) + (if last then 1 else 0) &&
            (!last ==> page.inFreeList) &&
            (page.list.alive ==>
               FreeList(made, page.list.head, free') && (last ==> page.inFreeList == old(page.inFreeList)) &&
               free' == if last || page in free then free else [page] + free)
  {
    hide FreeList;
    free' := free;
    var d := page.data;
    SetBit(d.bitfield, index);
    page.data := d.(bitfield := Or(d.bitfield, Bit(index)), blocks := d.blocks[index := Block(None, d.blocks[index].counter)]);
    WordTests(page.data.bitfield);
    NothingHeld(page.data);
    if Not(page.data.bitfield) == MASK_ARENA_BIT {
      page.deallocs := page.deallocs + 1;
      return;
    }
    EmptyLists(made);
    free' := ListPage(page, made, free, null, []);
  }

  lemma NothingHeld<T>(d: PoolData<T>)
    ensures Held(d) == {} <==> Free(d.bitfield) == Indices()
  {
    assert Free(d.bitfield) <= Indices();
    assert forall i | i in Indices() :: i in Free(d.bitfield) || i in Held(d);
  }

  /** Lets go of a page: it is deallocated now if nothing in it is held. */
  method DropPage<T>(page: PagePool<T>)
    requires ArenaBit(page.data.bitfield)
    modifies page`data, page`deallocs
    ensures Free(page.data.bitfield) == Free(old(page.data.bitfield)) && !ArenaBit(page.data.bitfield)
    ensures page.data.blocks == old(page.data.blocks)
    ensures page.deallocs == old(page.deallocs) + if Held(page.data) == {} then 1 else 0
  {
    var word := page.data.bitfield;
    SubArenaBit(word);
    page.data := page.data.(bitfield := And(word, Not(MASK_ARENA_BIT)));
    WordTests(page.data.bitfield);
    NothingHeld(page.data);
    if Not(page.data.bitfield) == MASK_ARENA_BIT {
      page.deallocs := page.deallocs + 1;
    }
  }
}
