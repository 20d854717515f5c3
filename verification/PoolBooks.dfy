/** What a Pool's invariant says about its pages' words, blocks and counters, apart from the heap:
    a pure state, and the moves the Pool's methods make on it. */
module PoolBooks {
  import opened Options
  import opened Bitfield
  import opened Chains
  import opened Tally
  import opened Growth
  import opened PoolPage

  const ISIZE_MAX: nat := 0x7FFF_FFFF_FFFF_FFFF

  datatype Books<A, T> = Books(
    datas: map<A, PoolData<T>>,       // every page ever made
    deallocs: map<A, nat>,
    pages: seq<A>,                    // the page list
    free: seq<A>,                     // the free list
    boxes: set<Place<A>>,             // the handles that are PoolBoxes
    alive: bool,                      // the pool has not been dropped
    npages: nat,
    initial: nat,                     // the blocks it was created with
    peak: nat)                        // the most blocks ever in use together

  /** Every block with a handle, with its value and the number of its handles. */
  ghost function Live<A, T>(b: Books<A, T>): map<Place<A>, Entry<T>> {
    LiveOf(b.datas)
  }

  /** The arena bit is set exactly on listed pages, and an unlisted page has been deallocated,
      once, exactly when nothing in it is held. */
  ghost predicate PageOk<T>(d: PoolData<T>, listed: bool, deallocs: nat) {
    |d.blocks| == BLOCK_PER_PAGE && ArenaBit(d.bitfield) == listed &&
    deallocs == if !listed && Held(d) == {} then 1 else 0
  }

  /** A free block has no handle; a block handed out has one or more, unless it is brand new. */
  ghost predicate BlockOk<T>(d: PoolData<T>, i: nat, isNew: bool) {
    if i in Free(d.bitfield) then BlockAt(d, i).counter == 0
    else if isNew then BlockAt(d, i).counter == 0
    else BlockAt(d, i).counter > 0 && BlockAt(d, i).value.Some?
  }

  ghost predicate BlocksOk<A, T>(b: Books<A, T>, p: A, news: set<Place<A>>)
    requires p in b.datas
  {
    forall i | i in Indices() :: BlockOk(b.datas[p], i, Place(p, i) in news)
  }

  ghost predicate PagesOk<A, T>(b: Books<A, T>, news: set<Place<A>>) {
    && b.datas.Keys == b.deallocs.Keys
    && (forall p | p in b.pages :: p in b.datas)
    && (forall p | p in b.datas :: PageOk(b.datas[p], p in b.pages, b.deallocs[p]) && BlocksOk(b, p, news))
    && (b.alive ==> forall p | p in b.datas && p !in b.pages :: Held(b.datas[p]) == {})
  }

  /** Every listed page with a free block is on the free list. */
  ghost predicate Stocked<A, T>(b: Books<A, T>) {
    forall p | p in b.pages && p in b.datas && Free(b.datas[p].bitfield) != {} :: p in b.free
  }

  ghost predicate BoxesOk<A, T>(b: Books<A, T>) {
    forall h | h in b.boxes :: h in Live(b) && Live(b)[h].handles == 1
  }

  ghost predicate Bounded<A, T>(b: Books<A, T>) {
    BLOCK_PER_PAGE <= b.initial && |Live(b)| <= b.peak && b.npages * BLOCK_PER_PAGE <= Max(b.initial, 2 * b.peak)
  }

  /** The invariant; `news` are the blocks found but not yet wrapped in a handle. */
  ghost predicate BooksOk<A, T>(b: Books<A, T>, news: set<Place<A>>) {
    NoDup(b.pages) && (b.alive ==> b.npages == |b.pages|) &&
    PagesOk(b, news) && Stocked(b) && BoxesOk(b) && Bounded(b)
  }

  // ---------------------------------------------------------------- counting

  /** The blocks in use are those of the listed pages. */
  lemma LiveTotal<A, T>(b: Books<A, T>)
    requires NoDup(b.pages) && PagesOk(b, {}) && b.alive
    ensures (forall p | p in b.pages :: p in HeldOf(b.datas)) && |Live(b)| == Total(b.pages, HeldOf(b.datas))
  {
    hide BlocksOk, PageOk;
    TotalIsPlaces(b.pages, HeldOf(b.datas));
    assert Places(b.datas.Keys, HeldOf(b.datas)) == Places(Elems(b.pages), HeldOf(b.datas));
    assert Live(b).Keys == Places(b.datas.Keys, HeldOf(b.datas));
  }

  /** A listed page counts as many zeros as it has blocks in use. */
  lemma ZerosAreHeld<T>(d: PoolData<T>)
    requires ArenaBit(d.bitfield)
    ensures CountZeros(d.bitfield) == |Held(d)| <= BLOCK_PER_PAGE
  {
    Counts(d.bitfield);
    Sub(Held(d), Indices());
  }

  /** With the free list empty, every block of every listed page is in use. */
  lemma AllInUse<A, T>(b: Books<A, T>)
    requires BooksOk(b, {}) && b.alive && b.free == []
    ensures |Live(b)| == b.npages * BLOCK_PER_PAGE
  {
    hide BlocksOk, PageOk, Live;
    LiveTotal(b);
    forall p | p in b.pages
      ensures p in HeldOf(b.datas) && HeldOf(b.datas)[p] == Indices()
    {
      assert Free(b.datas[p].bitfield) == {};
    }
    TotalFull(b.pages, HeldOf(b.datas));
  }

  // ---------------------------------------------------------------- creation and growth

  lemma NewDataOk<T>()
    ensures Free(NewData<T>().bitfield) == Indices() && Held<T>(NewData()) == {}
    ensures PageOk<T>(NewData(), true, 0) && forall i | i in Indices() :: BlockOk<T>(NewData(), i, false)
  {
    ConstantWords();
  }

  lemma FreshOk<A, T>(b: Books<A, T>)
    requires b.datas.Keys == b.deallocs.Keys == Elems(b.pages) && NoDup(b.pages) && b.free == b.pages && b.pages != []
    requires forall p | p in b.datas :: b.datas[p] == NewData() && b.deallocs[p] == 0
    requires b.npages == |b.pages| && b.initial == b.npages * BLOCK_PER_PAGE && b.boxes == {}
    ensures BooksOk(b, {}) && Live(b) == map[]
  {
    hide Free, PageOk, BlockOk;
    NewDataOk<T>();
    assert forall p | p in b.datas :: BlocksOk(b, p, {});
    var none: map<A, PoolData<T>> := map[];
    LiveFrame(none, b.datas);
    assert LiveOf(none) == map[];
  }

  /** Fresh pages in front of both lists. */
  ghost predicate Grown<A, T>(b: Books<A, T>, b': Books<A, T>, news: seq<A>) {
    NoDup(news) && (forall p | p in news :: p !in b.datas) &&
    b' == b.(datas := b'.datas, deallocs := b'.deallocs, pages := news + b.pages, free := news + b.free, npages := b.npages + |news|) &&
    b'.datas.Keys == b'.deallocs.Keys == b.datas.Keys + Elems(news) &&
    (forall p | p in b.datas :: b'.datas[p] == b.datas[p]) &&
    (forall p | p in b.deallocs :: p in b'.deallocs && b'.deallocs[p] == b.deallocs[p]) &&
    (forall p | p in news :: b'.datas[p] == NewData() && b'.deallocs[p] == 0)
  }

  lemma KeepsGrown<A, T>(b: Books<A, T>, b': Books<A, T>, news: seq<A>)
    requires BooksOk(b, {}) && b.alive && b.free == [] && Grown(b, b', news) && |news| == GrowthSize(b.npages)
    ensures BooksOk(b', {}) && Live(b') == Live(b)
  {
    hide Bounded, PagesOk, Live, Stocked, BoxesOk, Held;
    NewDataOk<T>();
    GrownPages(b, b', news);
    GrownLive(b, b', news);
    GrownBound(b, b', news);
  }

  lemma GrownPages<A, T>(b: Books<A, T>, b': Books<A, T>, news: seq<A>)
    requires PagesOk(b, {}) && NoDup(b.pages) && Stocked(b) && Grown(b, b', news)
    ensures PagesOk(b', {}) && NoDup(b'.pages) && Stocked(b')
  {
    hide PageOk, BlockOk;
    NewDataOk<T>();
    JoinNoDup(news, b.pages);
    forall p | p in b'.datas
      ensures PageOk(b'.datas[p], p in b'.pages, b'.deallocs[p]) && BlocksOk(b', p, {})
    {
      if p in b.datas {
        assert BlocksOk(b, p, {});
      }
    }
  }

  lemma GrownLive<A, T>(b: Books<A, T>, b': Books<A, T>, news: seq<A>)
    requires Grown(b, b', news) && BoxesOk(b)
    ensures Live(b') == Live(b) && BoxesOk(b')
  {
    NewDataOk<T>();
    LiveFrame(b.datas, b'.datas);
  }

  lemma GrownBound<A, T>(b: Books<A, T>, b': Books<A, T>, news: seq<A>)
    requires BooksOk(b, {}) && b.alive && b.free == [] && Grown(b, b', news) && |news| == GrowthSize(b.npages)
    requires Live(b') == Live(b)
    ensures Bounded(b')
  {
    hide PagesOk, Live, Stocked, BoxesOk, GrowthSize, Max;
    AllInUse(b);
    GrowthBounded(b.npages, |news|, b.initial, b.peak);
  }

  // ---------------------------------------------------------------- searching

  /** A full page leaves the free list. */
  lemma KeepsPopped<A, T>(b: Books<A, T>)
    requires BooksOk(b, {}) && b.free != [] && b.free[0] in b.datas && Free(b.datas[b.free[0]].bitfield) == {}
    ensures BooksOk(b.(free := b.free[1..]), {}) && Live(b.(free := b.free[1..])) == Live(b)
  {
    hide PageOk, BlockOk, LiveOf, Held, Free;
    var b' := b.(free := b.free[1..]);
    assert b.free == [b.free[0]] + b.free[1..];
    assert forall p | p in b'.datas :: BlocksOk(b, p, {}) ==> BlocksOk(b', p, {});
  }

  lemma FreeIsIndex(w: Word)
    ensures Free(w) <= Indices()
  {
  }

  /** Block i of page p is taken. */
  ghost predicate Acquired<A, T>(b: Books<A, T>, b': Books<A, T>, p: A, i: nat) {
    p in b.pages && p in b.datas && i in Free(b.datas[p].bitfield) && p in b'.datas &&
    var d, d' := b.datas[p], b'.datas[p];
    Free(d'.bitfield) == Free(d.bitfield) - {i} && ArenaBit(d'.bitfield) == ArenaBit(d.bitfield) && d'.blocks == d.blocks &&
    b' == b.(datas := b.datas[p := d'], peak := Max(b.peak, |Live(b')|))
  }

  /** The block found was not live, and is now live without a handle. */
  lemma KeepsAcquired<A, T>(b: Books<A, T>, b': Books<A, T>, p: A, i: nat)
    requires BooksOk(b, {}) && Acquired(b, b', p, i)
    ensures BooksOk(b', {Place(p, i)})
    ensures Place(p, i) !in Live(b)
    ensures Live(b') == Live(b)[Place(p, i) := Entry(BlockAt(b.datas[p], i).value, 0)]
  {
    hide Free, ArenaBit, LiveOf, PagesOk, Bounded, BlockAt;
    AcquiredLive(b, b', p, i);
    AcquiredPages(b, b', p, i);
    AcquiredBound(b, b', p, i);
  }

  lemma AcquiredLive<A, T>(b: Books<A, T>, b': Books<A, T>, p: A, i: nat)
    requires PagesOk(b, {}) && Acquired(b, b', p, i)
    ensures Place(p, i) !in Live(b)
    ensures Live(b') == Live(b)[Place(p, i) := Entry(BlockAt(b.datas[p], i).value, 0)]
  {
    hide Free, ArenaBit, LiveOf, Places, HeldOf, Indices;
    FreeIsIndex(b.datas[p].bitfield);
    LiveIs(b.datas, Place(p, i));
    LiveChanges(b.datas, p, i, b'.datas[p]);
  }

  lemma AcquiredPages<A, T>(b: Books<A, T>, b': Books<A, T>, p: A, i: nat)
    requires PagesOk(b, {}) && Acquired(b, b', p, i)
    ensures PagesOk(b', {Place(p, i)})
  {
    hide Free, ArenaBit, LiveOf, Places, HeldOf, Indices;
    forall q | q in b'.datas
      ensures PageOk(b'.datas[q], q in b'.pages, b'.deallocs[q]) && BlocksOk(b', q, {Place(p, i)})
    {
      assert BlocksOk(b, q, {});
    }
  }

  lemma AcquiredBound<A, T>(b: Books<A, T>, b': Books<A, T>, p: A, i: nat)
    requires Bounded(b) && Acquired(b, b', p, i)
    ensures Bounded(b')
  {
  }

  // ---------------------------------------------------------------- handles

  lemma LivePlace<A, T>(b: Books<A, T>, h: Place<A>, news: set<Place<A>>)
    requires PagesOk(b, news) && h in Live(b)
    ensures h.page in b.datas && h.page in b.deallocs && h.index in Held(b.datas[h.page])
    ensures h.index < BLOCK_PER_PAGE == |b.datas[h.page].blocks| && BlockOk(b.datas[h.page], h.index, h in news)
    ensures Live(b)[h] == Entry(b.datas[h.page].blocks[h.index].value, b.datas[h.page].blocks[h.index].counter)
  {
    hide Free;
    LiveIs(b.datas, h);
    assert BlocksOk(b, h.page, news) && PageOk(b.datas[h.page], h.page in b.pages, b.deallocs[h.page]);
    assert h == Place(h.page, h.index);
  }

  /** One block of a page gets new contents; the words stay. */
  function Written<A, T>(datas: map<A, PoolData<T>>, h: Place<A>, block: Block<T>): map<A, PoolData<T>>
    requires h.page in datas && h.index < |datas[h.page].blocks|
  {
    var d := datas[h.page];
    datas[h.page := d.(blocks := d.blocks[h.index := block])]
  }

  /** One handle fewer. */
  function Fewer<T>(e: Entry<T>): Entry<T> {
    if e.handles > 0 then e.(handles := e.handles - 1) else e
  }

  /** A write to a block in use that leaves it with a value and at least one handle. */
  lemma KeepsWritten<A, T>(b: Books<A, T>, h: Place<A>, block: Block<T>, boxes: set<Place<A>>, news: set<Place<A>>)
    requires BooksOk(b, news) && news <= {h} && h in Live(b)
    requires block.value.Some? && block.counter > 0
    requires forall k | k in boxes :: if k == h then block.counter == 1 else k in b.boxes
    ensures h.page in b.datas && h.index < |b.datas[h.page].blocks|
    ensures var b' := b.(datas := Written(b.datas, h, block), boxes := boxes);
            BooksOk(b', {}) && Live(b') == Live(b)[h := Entry(block.value, block.counter)]
  {
    hide Free, ArenaBit, LiveOf, PageOk, BlockOk, Indices;
    LivePlace(b, h, news);
    var b' := b.(datas := Written(b.datas, h, block), boxes := boxes);
    LiveChanges(b.datas, h.page, h.index, b'.datas[h.page]);
    WrittenPages(b, h, block, news, b');
    WrittenSize(Live(b), h, Entry(block.value, block.counter));
  }

  lemma WrittenSize<K, V>(m: map<K, V>, k: K, v: V)
    requires k in m
    ensures |m[k := v]| == |m|
  {
    assert m[k := v].Keys == m.Keys;
  }

  lemma WrittenPages<A, T>(b: Books<A, T>, h: Place<A>, block: Block<T>, news: set<Place<A>>, b': Books<A, T>)
    requires PagesOk(b, news) && news <= {h} && h.page in b.datas && h.index in Held(b.datas[h.page])
    requires h.index < |b.datas[h.page].blocks| && block.value.Some? && block.counter > 0
    requires b' == b.(datas := Written(b.datas, h, block), boxes := b'.boxes)
    ensures PagesOk(b', {})
  {
    hide Free, ArenaBit, Held, PageOk, BlockOk;
    assert BlocksOk(b, h.page, news) && PageOk(b.datas[h.page], h.page in b.pages, b.deallocs[h.page]);
    WrittenPage(b.datas[h.page], h.index, block, h.page in b.pages, b.deallocs[h.page]);
    forall q | q in b'.datas
      ensures PageOk(b'.datas[q], q in b'.pages, b'.deallocs[q]) && BlocksOk(b', q, {})
    {
      assert BlocksOk(b, q, news);
      assert b'.datas[q] == if q == h.page then b.datas[q].(blocks := b.datas[q].blocks[h.index := block]) else b.datas[q];
    }
  }

  lemma WrittenPage<T>(d: PoolData<T>, i: nat, block: Block<T>, listed: bool, deallocs: nat)
    requires PageOk(d, listed, deallocs) && i in Held(d) && i < |d.blocks| && block.value.Some? && block.counter > 0
    ensures var d' := d.(blocks := d.blocks[i := block]);
            PageOk(d', listed, deallocs) && BlockOk(d', i, false) &&
            forall j, isNew | BlockOk(d, j, isNew) && j != i :: BlockOk(d', j, isNew)
  {
    hide Free, ArenaBit, Indices;
  }

  /** The last handle of a block goes: the block is free again, its value dropped. An unlisted
      page whose last block this was is deallocated, and a listed page is on the free list. */
  ghost predicate Returned<A, T>(b: Books<A, T>, b': Books<A, T>, h: Place<A>) {
    h.page in b.datas && h.page in b.deallocs && h.page in b'.datas && h.index < |b.datas[h.page].blocks| &&
    var p, d, d' := h.page, b.datas[h.page], b'.datas[h.page];
    Free(d'.bitfield) == Free(d.bitfield) + {h.index} && ArenaBit(d'.bitfield) == ArenaBit(d.bitfield) &&
    d'.blocks == d.blocks[h.index := Block(None, 0)] &&
    b' == b.(datas := b.datas[p := d'], free := b'.free, boxes := b.boxes - {h},
             deallocs := b.deallocs[p := b.deallocs[p] + (if Held(d') == {} && !ArenaBit(d'.bitfield) then 1 else 0)]) &&
    (forall q | q in b.free :: q in b'.free) && (p in b.pages ==> p in b'.free)
  }

  lemma KeepsReturned<A, T>(b: Books<A, T>, b': Books<A, T>, h: Place<A>)
    requires BooksOk(b, {}) && h in Live(b) && Returned(b, b', h)
    ensures BooksOk(b', {}) && Live(b') == Live(b) - {h}
  {
    hide Free, ArenaBit, LiveOf, PagesOk, Bounded, Indices;
    LivePlace(b, h, {});
    LiveChanges(b.datas, h.page, h.index, b'.datas[h.page]);
    ReturnedPages(b, b', h);
    ReturnedBound(b, b', h);
  }

  lemma ReturnedPages<A, T>(b: Books<A, T>, b': Books<A, T>, h: Place<A>)
    requires PagesOk(b, {}) && Returned(b, b', h) && h.index in Held(b.datas[h.page])
    ensures PagesOk(b', {})
  {
    hide Free, ArenaBit, Held, PageOk, BlockOk;
    assert BlocksOk(b, h.page, {}) && PageOk(b.datas[h.page], h.page in b.pages, b.deallocs[h.page]);
    ReturnedPage(b.datas[h.page], b'.datas[h.page], h.index, h.page in b.pages, b.deallocs[h.page]);
    forall q | q in b'.datas
      ensures PageOk(b'.datas[q], q in b'.pages, b'.deallocs[q]) && BlocksOk(b', q, {})
    {
      assert BlocksOk(b, q, {});
    }
  }

  lemma ReturnedPage<T>(d: PoolData<T>, d': PoolData<T>, i: nat, listed: bool, deallocs: nat)
    requires PageOk(d, listed, deallocs) && i in Held(d) && i < |d.blocks|
    requires Free(d'.bitfield) == Free(d.bitfield) + {i} && ArenaBit(d'.bitfield) == ArenaBit(d.bitfield)
    requires d'.blocks == d.blocks[i := Block(None, 0)]
    ensures PageOk(d', listed, deallocs + if Held(d') == {} && !ArenaBit(d'.bitfield) then 1 else 0)
    ensures Held(d') == Held(d) - {i}
    ensures forall j, isNew | BlockOk(d, j, isNew) && (j == i ==> !isNew) :: BlockOk(d', j, isNew)
  {
    hide Free, ArenaBit, Indices;
  }

  lemma ReturnedBound<A, T>(b: Books<A, T>, b': Books<A, T>, h: Place<A>)
    requires Bounded(b) && h in Live(b) && Live(b') == Live(b) - {h}
    requires b' == b.(datas := b'.datas, free := b'.free, boxes := b'.boxes, deallocs := b'.deallocs)
    ensures Bounded(b')
  {
    assert Live(b).Keys == Live(b').Keys + {h};
  }

  // ---------------------------------------------------------------- letting pages go

  /** A page is let go: its arena bit is cleared, and it is deallocated if nothing in it is held. */
  ghost predicate LetGoPage<T>(d: PoolData<T>, d': PoolData<T>, deallocs: nat, deallocs': nat) {
    Free(d'.bitfield) == Free(d.bitfield) && !ArenaBit(d'.bitfield) && d'.blocks == d.blocks &&
    deallocs' == deallocs + if Held(d') == {} then 1 else 0
  }

  /** The pages of r are let go, and leave both lists. */
  ghost predicate LetGo<A, T>(b: Books<A, T>, b': Books<A, T>, r: set<A>) {
    b'.datas.Keys == b.datas.Keys && b'.deallocs.Keys == b.deallocs.Keys &&
    b' == b.(datas := b'.datas, deallocs := b'.deallocs, pages := Without(b.pages, r), free := Without(b.free, r),
             npages := b'.npages, alive := b'.alive) &&
    (forall p | p in b.datas && p in b.deallocs ::
      if p in r then LetGoPage(b.datas[p], b'.datas[p], b.deallocs[p], b'.deallocs[p])
      else b'.datas[p] == b.datas[p] && b'.deallocs[p] == b.deallocs[p])
  }

  /** toDrop are the unused pages of the page list. */
  ghost predicate Unused<A, T>(b: Books<A, T>, toDrop: seq<A>) {
    NoDup(toDrop) && |toDrop| <= b.npages &&
    (forall p | p in toDrop ::
       p in b.pages && p in b.datas && ArenaBit(b.datas[p].bitfield) && Held(b.datas[p]) == {} &&
       p in b.deallocs && b.deallocs[p] == 0) &&
    (forall p | p in b.pages && p in b.datas :: p in toDrop <==> Held(b.datas[p]) == {})
  }

  /** The pages shrink_to_fit takes off the free list are exactly the unused pages. */
  lemma UnusedPages<A, T>(b: Books<A, T>, toDrop: seq<A>)
    requires BooksOk(b, {}) && b.alive && NoDup(toDrop)
    requires forall p | p in b.free :: p in b.pages && p in b.datas && (p in toDrop <==> b.datas[p].bitfield == ALL_ONES)
    requires forall p | p in toDrop :: p in b.free
    ensures Unused(b, toDrop)
  {
    hide BlocksOk, BoxesOk, Bounded, Free, ArenaBit, Held;
    FilterCounts(b.pages, toDrop);
    forall p | p in b.pages
      ensures p in b.datas && p in b.deallocs && ArenaBit(b.datas[p].bitfield) && b.deallocs[p] == 0
      ensures p in toDrop <==> Held(b.datas[p]) == {}
    {
      assert PageOk(b.datas[p], true, b.deallocs[p]);
      UnusedWord(b.datas[p]);
    }
  }

  lemma UnusedWord<T>(d: PoolData<T>)
    requires ArenaBit(d.bitfield)
    ensures d.bitfield == ALL_ONES <==> Held(d) == {}
    ensures Held(d) == {} ==> Free(d.bitfield) != {}
  {
    WordTests(d.bitfield);
    NothingHeld(d);
    assert 0 in Indices();
  }

  lemma LetGoLive<A, T>(b: Books<A, T>, b': Books<A, T>, r: set<A>)
    requires PagesOk(b, {}) && LetGo(b, b', r)
    ensures Live(b') == Live(b)
  {
    hide Free, ArenaBit, PageOk, BlocksOk;
    LiveFrame(b.datas, b'.datas);
  }

  lemma LetGoStocked<A, T>(b: Books<A, T>, b': Books<A, T>, r: set<A>)
    requires PagesOk(b, {}) && Stocked(b) && LetGo(b, b', r)
    ensures Stocked(b')
  {
    hide Free, ArenaBit, PageOk, BlocksOk, Held;
    WithoutMembers(b.free, r);
    WithoutMembers(b.pages, r);
  }

  /** shrink_to_fit: the pages let go are listed and unused. */
  lemma KeepsShrunk<A, T>(b: Books<A, T>, b': Books<A, T>, toDrop: seq<A>)
    requires BooksOk(b, {}) && b.alive && b'.alive && LetGo(b, b', Elems(toDrop)) && Unused(b, toDrop)
    requires b'.npages == b.npages - |toDrop|
    ensures BooksOk(b', {}) && Live(b') == Live(b)
  {
    hide PagesOk, Stocked, Live;
    var r := Elems(toDrop);
    LetGoLive(b, b', r);
    FilterCounts(b.pages, toDrop);
    FilterNoDup(b.pages, r);
    LetGoPages(b, b', r);
    LetGoStocked(b, b', r);
  }

  lemma LetGoPages<A, T>(b: Books<A, T>, b': Books<A, T>, r: set<A>)
    requires PagesOk(b, {}) && LetGo(b, b', r) && (forall p | p in r :: p in b.pages) && (b'.alive ==> b.alive)
    requires b'.alive ==> forall p | p in r && p in b.datas :: Held(b.datas[p]) == {}
    ensures PagesOk(b', {})
  {
    hide Free, ArenaBit, LiveOf, Places, HeldOf, Indices;
    WithoutMembers(b.pages, r);
    forall q | q in b'.datas
      ensures PageOk(b'.datas[q], q in b'.pages, b'.deallocs[q]) && BlocksOk(b', q, {})
    {
      assert BlocksOk(b, q, {});
    }
  }

  lemma {:induction false} WithoutAll<A>(s: seq<A>, r: set<A>)
    requires forall x | x in s :: x in r
    ensures Without(s, r) == []
  {
    if s != [] {
      assert s[|s| - 1] in s && forall x | x in s[..|s| - 1] :: x in s;
      WithoutAll(s[..|s| - 1], r);
    }
  }

  /** Dropping the pool lets every listed page go; the blocks in use stay live. */
  lemma KeepsClosed<A, T>(b: Books<A, T>, b': Books<A, T>)
    requires BooksOk(b, {}) && b.alive && !b'.alive && LetGo(b, b', Elems(b.pages)) && b'.npages == b.npages
    ensures BooksOk(b', {}) && Live(b') == Live(b) && b'.pages == []
  {
    hide PageOk, Free, ArenaBit, Indices, Places, HeldOf, Live;
    LetGoLive(b, b', Elems(b.pages));
    WithoutAll(b.pages, Elems(b.pages));
    LetGoPages(b, b', Elems(b.pages));
  }

  // ---------------------------------------------------------------- what follows

  /** The page of a live block has not been deallocated, and no page is deallocated twice. */
  lemma LiveNotDeallocated<A, T>(b: Books<A, T>, h: Place<A>)
    requires BooksOk(b, {}) && h in Live(b)
    ensures h.page in b.deallocs && b.deallocs[h.page] == 0
    ensures Live(b)[h].value.Some? && Live(b)[h].handles > 0
  {
    hide Free, ArenaBit, LiveOf, Places, HeldOf, Indices;
    LiveIs(b.datas, h);
    assert BlocksOk(b, h.page, {});
  }

  /** Once the pool and every handle are gone, every page ever made has been deallocated exactly
      once. */
  lemma NothingLeaks<A, T>(b: Books<A, T>)
    requires BooksOk(b, {}) && !b.alive && b.pages == [] && Live(b) == map[]
    ensures forall p | p in b.datas :: p in b.deallocs && b.deallocs[p] == 1
  {
    forall p | p in b.datas
      ensures p in b.deallocs && b.deallocs[p] == 1
    {
      if i :| i in Held(b.datas[p]) {
        LiveIs(b.datas, Place(p, i));
      }
    }
  }
}
