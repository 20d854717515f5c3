/** Pages on the heap and the lists threaded through them (src/page/pool.rs:36-95,
    src/page/arena.rs:65-119, src/page/shared_arena.rs:61-130, and the link-rewriting loops of
    src/pool.rs:460-491, src/arena.rs:465-508, src/shared_arena.rs:634-686). The three page types
    differ only in `data`: their words and blocks. */
module PageList {
  import opened Options
  import opened Chains

  /** The counted pointer to a list head that pages refer to weakly; it dies with its arena. */
  class ListHead<D> {
    var head: Page?<D>
    var alive: bool

    constructor ()
      ensures head == null && alive
    {
      head, alive := null, true;
    }
  }

  class Page<D> {
    var data: D
    var nextFree: Page?<D>
    var next: Page?<D>
    var inFreeList: bool
    var deallocs: nat
    const list: ListHead<D>

    constructor (data: D, list: ListHead<D>, next: Page?<D>)
      ensures this.data == data && this.list == list && this.next == next && nextFree == next && inFreeList && deallocs == 0
    {
      this.data, this.list := data, list;
      this.nextFree, this.next := next, next;
      inFreeList, deallocs := true, 0;
    }
  }

  function Opt<D>(p: Page?<D>): Option<Page<D>> {
    if p == null then None else Some(p)
  }

  ghost function NextOf<D>(made: set<Page<D>>): Links<Page<D>>
    reads made`next
  {
    map p | p in made :: Opt(p.next)
  }

  ghost function NextFreeOf<D>(made: set<Page<D>>): Links<Page<D>>
    reads made`nextFree
  {
    map p | p in made :: Opt(p.nextFree)
  }

  /** The pages from head along `next`. */
  ghost predicate FullList<D>(made: set<Page<D>>, head: Page?<D>, s: seq<Page<D>>)
    reads made`next
  {
    Chain(NextOf(made), Opt(head), s) && NoDup(s)
  }

  /** The pages from head along `next_free`. */
  ghost predicate FreeList<D>(made: set<Page<D>>, head: Page?<D>, s: seq<Page<D>>)
    reads made`nextFree
  {
    Chain(NextFreeOf(made), Opt(head), s) && NoDup(s)
  }

  /** The flag of a listed page says whether it is also on the free list. */
  ghost predicate Flagged<D>(made: set<Page<D>>, s: seq<Page<D>>, free: seq<Page<D>>)
    reads made`inFreeList
  {
    (forall p | p in s :: p in made && (p.inFreeList <==> p in free)) && (forall p | p in free :: p in s)
  }

  ghost predicate FlaggedBut<D>(made: set<Page<D>>, s: seq<Page<D>>, free: seq<Page<D>>, page: Page<D>)
    reads (made - {page})`inFreeList
  {
    (forall p | p in s && p != page :: p in made && (p.inFreeList <==> p in free)) && (forall p | p in free :: p in s)
  }

  ghost predicate NoFlags<D>(s: seq<Page<D>>)
    reads s`inFreeList
  {
    forall p | p in s :: !p.inFreeList
  }

  /** After find_place has taken a full page off the free list. */
  lemma PoppedFlags<D>(made: set<Page<D>>, s: seq<Page<D>>, free: seq<Page<D>>, free': seq<Page<D>>, pending: seq<Page<D>>, page: Page<D>)
    requires free == [page] + free' && page !in free' && page !in pending && !page.inFreeList
    requires forall p | p in s :: p in made && (p != page ==> (p.inFreeList <==> p in free + pending))
    requires forall p | p in free + pending :: p in s
    ensures Flagged(made, s, free' + pending)
  {
  }

  /** After drop_block has listed the page. */
  lemma ListedFlags<D>(made: set<Page<D>>, s: seq<Page<D>>, free: seq<Page<D>>, free': seq<Page<D>>, page: Page<D>)
    requires FlaggedBut(made, s, free, page) && page in s && page in made && page.inFreeList
    requires forall p :: p in free' <==> p in free || p == page
    ensures Flagged(made, s, free')
  {
  }

  // ---------------------------------------------------------------- making a list

  /** `next` and `next_free` lead from each page to the following one, and from the last page
      to the given tails. */
  ghost predicate Linked<D>(s: seq<Page<D>>, d: D, list: ListHead<D>, next: Page?<D>, nextFree: Page?<D>)
    reads s
  {
    forall i: nat | i < |s| ::
      Opt(s[i].next) == LinkAfter(s, i, Opt(next)) && Opt(s[i].nextFree) == LinkAfter(s, i, Opt(nextFree)) &&
      s[i].data == d && s[i].inFreeList && s[i].deallocs == 0 && s[i].list == list
  }

  lemma LinkedPush<D>(page: Page<D>, s: seq<Page<D>>, d: D, list: ListHead<D>)
    requires Linked(s, d, list, null, null) && NoDup(s) && page !in s
    requires Opt(page.next) == Opt(page.nextFree) == At(s, 0)
    requires page.data == d && page.inFreeList && page.deallocs == 0 && page.list == list
    ensures Linked([page] + s, d, list, null, null) && NoDup([page] + s)
  {
    var t := [page] + s;
    assert forall j: nat | 0 < j < |t| :: t[j] == s[j - 1] && LinkAfter(t, j, None) == LinkAfter(s, j - 1, None);
    assert forall j: nat | j < |s| :: s[j] in s;
  }

  method MakeList<D>(npages: nat, d: D, list: ListHead<D>) returns (first: Page<D>, last: Page<D>, ghost news: seq<Page<D>>)
    requires npages > 0
    ensures |news| == npages && NoDup(news) && fresh(news) && Linked(news, d, list, null, null)
    ensures first == news[0] && last == news[npages - 1]
  {
    hide NoDup;
    last := new Page(d, list, null);
    first := last;
    news := [];
    LinkedPush(last, [], d, list);
    news := [last] + news;
    for i := 0 to npages - 1
      invariant |news| == i + 1 && NoDup(news) && fresh(news) && Linked(news, d, list, null, null)
      invariant first == news[0] && last == news[i]
    {
      hide Linked;
      var page := new Page(d, list, first);
      LinkedPush(page, news, d, list);
      news := [page] + news;
      first := page;
    }
  }

  /** Links the last page of a fresh list to the lists it goes in front of. */
  method Attach<D>(ghost news: seq<Page<D>>, last: Page<D>, next: Page?<D>, nextFree: Page?<D>, ghost d: D, ghost list: ListHead<D>)
    requires Linked(news, d, list, null, null) && NoDup(news) && news != [] && last == news[|news| - 1]
    modifies last`next, last`nextFree
    ensures Linked(news, d, list, next, nextFree)
  {
    last.nextFree := nextFree;
    last.next := next;
  }

  // ---------------------------------------------------------------- a fresh list in front of an old one

  /** Pages linked to each other, and the last of them to an old list, make one list. */
  lemma JoinFull<D>(made: set<Page<D>>, news: seq<Page<D>>, head: Page?<D>, s: seq<Page<D>>)
    requires FullList(made, head, s) && NoDup(news) && news != [] && forall p | p in news :: p in made && p !in s
    requires forall i: nat | i < |news| :: Opt(news[i].next) == LinkAfter(news, i, Opt(head))
    ensures FullList(made, news[0], news + s)
  {
    var t := news + s;
    JoinNoDup(news, s);
    forall i: nat | i < |t|
      ensures t[i] in NextOf(made) && NextOf(made)[t[i]] == At(t, i + 1)
    {
      if i < |news| {
        assert news[i] in news;
      } else {
        assert t[i] == s[i - |news|] && NextOf(made)[s[i - |news|]] == At(s, i - |news| + 1);
      }
    }
  }

  lemma JoinFree<D>(made: set<Page<D>>, news: seq<Page<D>>, head: Page?<D>, s: seq<Page<D>>)
    requires FreeList(made, head, s) && NoDup(news) && news != [] && forall p | p in news :: p in made && p !in s
    requires forall i: nat | i < |news| :: Opt(news[i].nextFree) == LinkAfter(news, i, Opt(head))
    ensures FreeList(made, news[0], news + s)
  {
    var t := news + s;
    JoinNoDup(news, s);
    forall i: nat | i < |t|
      ensures t[i] in NextFreeOf(made) && NextFreeOf(made)[t[i]] == At(t, i + 1)
    {
      if i < |news| {
        assert news[i] in news;
      } else {
        assert t[i] == s[i - |news|] && NextFreeOf(made)[s[i - |news|]] == At(s, i - |news| + 1);
      }
    }
  }

  /** A list stays one when more pages are known. */
  lemma MoreMade<D>(made: set<Page<D>>, more: set<Page<D>>)
    requires made <= more
    ensures forall head, s | FullList(made, head, s) :: FullList(more, head, s)
    ensures forall head, s | FreeList(made, head, s) :: FreeList(more, head, s)
  {
    forall head, s | FullList(made, head, s)
      ensures FullList(more, head, s)
    {
      ChainFrame(NextOf(made), NextOf(more), Opt(head), s);
    }
    forall head, s | FreeList(made, head, s)
      ensures FreeList(more, head, s)
    {
      ChainFrame(NextFreeOf(made), NextFreeOf(more), Opt(head), s);
    }
  }

  /** A list stays one when the links of its pages do. */
  lemma FullKeeps<D>(made: set<Page<D>>, links: Links<Page<D>>, head: Page?<D>, s: seq<Page<D>>)
    requires Chain(links, Opt(head), s) && NoDup(s)
    requires forall p | p in s && p in links :: p in made && Opt(p.next) == links[p]
    ensures FullList(made, head, s)
  {
    ChainFrame(links, NextOf(made), Opt(head), s);
  }

  lemma FreeKeeps<D>(made: set<Page<D>>, links: Links<Page<D>>, head: Page?<D>, s: seq<Page<D>>)
    requires Chain(links, Opt(head), s) && NoDup(s)
    requires forall p | p in s && p in links :: p in made && Opt(p.nextFree) == links[p]
    ensures FreeList(made, head, s)
  {
    ChainFrame(links, NextFreeOf(made), Opt(head), s);
  }

  lemma ListedMade<D>(made: set<Page<D>>, head: Page?<D>, s: seq<Page<D>>)
    requires FullList(made, head, s) || FreeList(made, head, s)
    ensures forall p | p in s :: p in made
  {
    forall p | p in s
      ensures p in made
    {
      var i: nat :| i < |s| && s[i] == p;
    }
  }

  lemma EmptyLists<D>(made: set<Page<D>>)
    ensures FullList(made, null, []) && FreeList(made, null, [])
  {
  }

  lemma LinkedFields<D>(news: seq<Page<D>>, d: D, list: ListHead<D>, next: Page?<D>, nextFree: Page?<D>)
    requires Linked(news, d, list, next, nextFree)
    ensures forall i: nat | i < |news| ::
              Opt(news[i].next) == LinkAfter(news, i, Opt(next)) && Opt(news[i].nextFree) == LinkAfter(news, i, Opt(nextFree))
    ensures forall p | p in news :: p.data == d && p.inFreeList && p.deallocs == 0 && p.list == list
  {
    forall p | p in news
      ensures p.data == d && p.inFreeList && p.deallocs == 0 && p.list == list
    {
      var i: nat :| i < |news| && news[i] == p;
    }
  }

  /** Following the page list. */
  lemma FullAt<D>(made: set<Page<D>>, head: Page?<D>, s: seq<Page<D>>, n: nat)
    requires FullList(made, head, s)
    ensures n < |s| ==> s[n] in made && Opt(s[n].next) == At(s, n + 1)
    ensures Opt(head) == At(s, 0) && NoDup(s)
  {
  }

  lemma FreeAt<D>(made: set<Page<D>>, head: Page?<D>, s: seq<Page<D>>, n: nat)
    requires FreeList(made, head, s)
    ensures n < |s| ==> s[n] in made && Opt(s[n].nextFree) == At(s, n + 1)
    ensures Opt(head) == At(s, 0) && NoDup(s)
  {
  }

  /** Pushing a page on the list along `next_free`. */
  lemma PushFree<D>(made: set<Page<D>>, links: Links<Page<D>>, head: Page?<D>, s: seq<Page<D>>, page: Page<D>)
    requires Chain(links, Opt(head), s) && NoDup(s) && page in made && page !in s && page in links
    requires NextFreeOf(made) == links[page := Opt(head)]
    ensures FreeList(made, page, [page] + s)
  {
    ChainFrame(links, NextFreeOf(made), Opt(head), s);
    ChainPush(NextFreeOf(made), Opt(head), s, page);
  }

  /** Links of pages outside a list do not matter to it. */
  lemma FreeFrame<D>(made: set<Page<D>>, links: Links<Page<D>>, head: Page?<D>, s: seq<Page<D>>, page: Page<D>, to: Option<Page<D>>)
    requires Chain(links, Opt(head), s) && NoDup(s) && page !in s && NextFreeOf(made) == links[page := to]
    ensures FreeList(made, head, s)
  {
    ChainFrame(links, NextFreeOf(made), Opt(head), s);
  }

  /** The end of drop_block: an unlisted page goes to the front of its list, if the arena still
      exists, and is marked as listed in any case. Another list along `next_free` stays. */
  method ListPage<D>(page: Page<D>, ghost made: set<Page<D>>, ghost s: seq<Page<D>>, ghost head: Page?<D>, ghost other: seq<Page<D>>)
      returns (ghost s': seq<Page<D>>)
    requires page.list.alive ==>
               page in made && FreeList(made, page.list.head, s) && FreeList(made, head, other) &&
               (!page.inFreeList ==> page !in s && page !in other)
    modifies page`inFreeList, page`nextFree, page.list`head
    ensures page.inFreeList
    ensures page.list.alive ==>
              FreeList(made, page.list.head, s') && FreeList(made, head, other) &&
              s' == if old(page.inFreeList) then s else [page] + s
    ensures !page.list.alive ==> s' == s
  {
    s' := s;
    if !page.inFreeList {
      page.inFreeList := true;
      if page.list.alive {
        ghost var links, oldHead := NextFreeOf(made), page.list.head;
        page.nextFree := page.list.head;
        page.list.head := page;
        assert NextFreeOf(made) == links[page := Opt(oldHead)];
        PushFree(made, links, oldHead, s, page);
        FreeFrame(made, links, head, other, page, Opt(oldHead));
        s' := [page] + s;
      }
    }
  }

  /** Makes npages pages and puts them in front of the list from `next` and of the free list
      from `nextFree`. */
  method GrowLists<D>(npages: nat, d: D, list: ListHead<D>, next: Page?<D>, nextFree: Page?<D>,
                      ghost made: set<Page<D>>, ghost full: seq<Page<D>>, ghost free: seq<Page<D>>)
      returns (first: Page<D>, ghost news: seq<Page<D>>)
    requires npages > 0 && FullList(made, next, full) && FreeList(made, nextFree, free)
    ensures |news| == npages && NoDup(news) && fresh(news) && first == news[0]
    ensures FullList(made + Elems(news), first, news + full)
    ensures FreeList(made + Elems(news), first, news + free)
    ensures forall p | p in news :: p.data == d && p.inFreeList && p.deallocs == 0 && p.list == list
  {
    hide FullList, FreeList, Linked, NoDup;
    var last;
    first, last, news := MakeList(npages, d, list);
    Attach(news, last, next, nextFree, d, list);
    LinkedFields(news, d, list, next, nextFree);
    ListedMade(made, next, full);
    ListedMade(made, nextFree, free);
    MoreMade(made, made + Elems(news));
    JoinFull(made + Elems(news), news, next, full);
    JoinFree(made + Elems(news), news, nextFree, free);
  }

  // ---------------------------------------------------------------- the first loop of shrink_to_fit

  /** What has been taken so far: exactly the unused pages among the first n, in order. */
  ghost predicate Takes<D>(before: seq<Page<D>>, n: nat, taken: seq<Page<D>>, used: set<Page<D>>) {
    n <= |before| && taken == Within(before[..n], Elems(taken)) &&
    (forall i: nat | i < n :: before[i] in taken <==> before[i] !in used) &&
    (forall p | p in taken :: p in before[..n])
  }

  lemma TakesNext<D>(before: seq<Page<D>>, n: nat, taken: seq<Page<D>>, used: set<Page<D>>)
    requires Takes(before, n, taken, used) && n < |before| && NoDup(before)
    ensures before[n] in used ==> Takes(before, n + 1, taken, used) && before[n] !in Elems(taken)
    ensures before[n] !in used ==>
              Takes(before, n + 1, taken + [before[n]], used) && Elems(taken + [before[n]]) == Elems(taken) + {before[n]}
  {
    var x, r := before[n], Elems(taken);
    assert before[..n + 1] == before[..n] + [x];
    assert x !in before[..n];
    FilterNext(before, r, n);
    FilterNext(before, r + {x}, n);
    FilterIgnores(before[..n], r, x);
    ElemsAppend(taken, [x]);
    assert Elems([x]) == {x};
  }

  /** The list once the page at position n has joined those taken out. */
  function Unlinked<A(==)>(before: seq<A>, n: nat, r: set<A>): seq<A>
    requires n < |before|
  {
    Without(before[..n + 1], r + {before[n]}) + before[n + 1..]
  }

  lemma UnlinkNext<A>(links: Links<A>, head: Option<A>, before: seq<A>, now: seq<A>, r: set<A>, n: nat, prev: Option<A>,
                      links': Links<A>, head': Option<A>)
    requires Chain(links, head, now) && NoDup(now) && LoopInv(before, now, r, n, prev) && n < |before| && before[n] in links
    requires NoDup(before)
    requires if prev.None? then links' == links && head' == links[before[n]]
             else links' == links[prev.value := links[before[n]]] && head' == head
    ensures var now' := Unlinked(before, n, r);
            Chain(links', head', now') && NoDup(now') && LoopInv(before, now', r + {before[n]}, n + 1, prev)
  {
    LoopUnlinks(before, now, r, n, prev);
    LoopChain(links, head, before, now, r, n, prev, links', head');
  }

  lemma TakesAll<D>(before: seq<Page<D>>, taken: seq<Page<D>>, used: set<Page<D>>)
    requires Takes(before, |before|, taken, used) && NoDup(before)
    ensures taken == Within(before, Elems(taken)) && NoDup(taken)
    ensures forall p | p in before :: p in taken <==> p !in used
    ensures forall p | p in taken :: p in before
  {
    assert before[..|before|] == before;
    FilterNoDup(before, Elems(taken));
  }

  lemma FreeCursor<D>(made: set<Page<D>>, head: Page?<D>, before: seq<Page<D>>, now: seq<Page<D>>, r: set<Page<D>>, n: nat, prev: Page?<D>)
    requires FreeList(made, head, now) && LoopInv(before, now, r, n, Opt(prev))
    ensures n <= |before| && (prev != null ==> prev in made && prev in before)
    ensures Opt(if prev == null then head else prev.nextFree) == At(before, n)
    ensures n < |before| ==> before[n] in made
  {
    LoopCell(NextFreeOf(made), Opt(head), before, now, r, n, Opt(prev));
    FilterElems(before[..n], r);
    if prev != null {
      assert prev in Elems(Without(before[..n], r)) && prev in before[..n];
    }
  }

  /** Writes the successor of the page at position n over the link that leads to it. */
  method SwingFree<D>(start: Page?<D>, prev: Page?<D>, next: Page?<D>, ghost made: set<Page<D>>,
                      ghost before: seq<Page<D>>, ghost now: seq<Page<D>>, ghost r: set<Page<D>>, ghost n: nat)
      returns (head: Page?<D>)
    requires FreeList(made, start, now) && NoDup(before) && LoopInv(before, now, r, n, Opt(prev))
    requires n < |before| && before[n] in made && next == before[n].nextFree && (prev != null ==> prev in made && prev in before)
    modifies made`nextFree
    ensures FreeList(made, head, Unlinked(before, n, r)) && LoopInv(before, Unlinked(before, n, r), r + {before[n]}, n + 1, Opt(prev))
    ensures forall p | p in made && p !in before :: p.nextFree == old(p.nextFree)
  {
    hide LoopInv, NoDup, Chain, Unlinked;
    ghost var links := NextFreeOf(made);
    head := start;
    if prev == null {
      head := next;
    } else {
      prev.nextFree := next;
    }
    assert NextFreeOf(made) == if prev == null then links else links[prev := Opt(next)];
    UnlinkNext(links, Opt(start), before, now, r, n, Opt(prev), NextFreeOf(made), Opt(head));
  }

  method UnlinkUnused<D>(start: Page?<D>, ghost made: set<Page<D>>, ghost before: seq<Page<D>>, unused: D -> bool)
      returns (head: Page?<D>, toDrop: seq<Page<D>>)
    requires FreeList(made, start, before)
    modifies made`nextFree
    ensures FreeList(made, head, Without(before, Elems(toDrop)))
    ensures toDrop == Within(before, Elems(toDrop)) && NoDup(toDrop)
    ensures forall p | p in before :: p in toDrop <==> unused(p.data)
    ensures forall p | p in toDrop :: p in before
    ensures forall p | p in made && p !in before :: p.nextFree == old(p.nextFree)
  {
    hide FreeList, LoopInv, NoDup, Takes, Unlinked, UsedIn, Elems;
    FreeListNoDup(made, start, before);
    head, toDrop := start, [];
    var prev: Page?<D> := null;
    var current := head;
    ghost var n, now, used := 0, before, UsedIn(before, unused);
    UsedPages(before, unused);
    NoElems<Page<D>>();
    LoopBegins(before, Elems(toDrop));
    TakesNone(before, used);
    FreeCursor(made, head, before, now, Elems(toDrop), n, prev);
    while current != null
      invariant FreeList(made, head, now) && NoDup(before)
      invariant LoopInv(before, now, Elems(toDrop), n, Opt(prev)) && Takes(before, n, toDrop, used)
      invariant n <= |before| && (prev != null ==> prev in made && prev in before)
      invariant Opt(current) == At(before, n) && (n < |before| ==> before[n] in made)
      invariant forall p | p in made && p !in before :: p.nextFree == old(p.nextFree)
      decreases |before| - n
    {
      ghost var r := Elems(toDrop);
      TakesNext(before, n, toDrop, used);
      var page: Page<D> := current;
      var next := page.nextFree;
      if unused(page.data) {
        head := SwingFree(head, prev, next, made, before, now, r, n);
        now := Unlinked(before, n, r);
        toDrop := toDrop + [page];
      } else {
        LoopKeeps(before, now, r, n, Opt(prev));
        prev := page;
      }
      n := n + 1;
      FreeCursor(made, head, before, now, Elems(toDrop), n, prev);
      current := if prev == null then head else prev.nextFree;
    }
    assert n == |before|;
    hide FreeList;
    LoopEnds(before, now, Elems(toDrop), Opt(prev));
    TakesAll(before, toDrop, used);
  }

  lemma FreeListNoDup<D>(made: set<Page<D>>, head: Page?<D>, s: seq<Page<D>>)
    requires FreeList(made, head, s)
    ensures NoDup(s)
  {
  }

  ghost function UsedIn<D>(s: seq<Page<D>>, unused: D -> bool): set<Page<D>>
    reads s`data
  {
    set p | p in s && !unused(p.data)
  }

  lemma UsedPages<D>(s: seq<Page<D>>, unused: D -> bool)
    ensures forall p | p in s :: p in UsedIn(s, unused) <==> !unused(p.data)
  {
  }

  lemma ElemsHave<A>(s: seq<A>, x: A)
    ensures if x in s then Elems(s) + {x} == Elems(s) else x !in Elems(s)
  {
  }

  lemma NoElems<A>()
    ensures Elems<A>([]) == {}
  {
  }

  lemma TakesNone<D>(before: seq<Page<D>>, used: set<Page<D>>)
    ensures Takes(before, 0, [], used)
  {
  }

  /** The same, beside another list along `next_free`. */
  method UnlinkBeside<D>(start: Page?<D>, ghost made: set<Page<D>>, ghost before: seq<Page<D>>, unused: D -> bool,
                         ghost otherHead: Page?<D>, ghost other: seq<Page<D>>)
      returns (head: Page?<D>, toDrop: seq<Page<D>>)
    requires FreeList(made, start, before) && FreeList(made, otherHead, other) && forall p | p in other :: p !in before
    modifies made`nextFree
    ensures FreeList(made, head, Without(before, Elems(toDrop))) && FreeList(made, otherHead, other)
    ensures NoDup(toDrop) && forall p | p in before :: p in toDrop <==> unused(p.data)
    ensures forall p | p in toDrop :: p in before
  {
    hide FreeList, NoDup, Elems, Without;
    ghost var links := NextFreeOf(made);
    FreeFacts(made, otherHead, other);
    head, toDrop := UnlinkUnused(start, made, before, unused);
    FreeKeeps(made, links, otherHead, other);
  }

  lemma FreeFacts<D>(made: set<Page<D>>, head: Page?<D>, s: seq<Page<D>>)
    requires FreeList(made, head, s)
    ensures Chain(NextFreeOf(made), Opt(head), s) && NoDup(s) && forall p | p in s :: p in made
  {
    ListedMade(made, head, s);
  }

  // ---------------------------------------------------------------- the second loop of shrink_to_fit

  lemma FullCursor<D>(made: set<Page<D>>, head: Page?<D>, before: seq<Page<D>>, now: seq<Page<D>>, r: set<Page<D>>, n: nat, prev: Page?<D>)
    requires FullList(made, head, now) && LoopInv(before, now, r, n, Opt(prev))
    ensures n <= |before| && (prev != null ==> prev in made && prev in before)
    ensures Opt(if prev == null then head else prev.next) == At(before, n)
    ensures n < |before| ==> before[n] in made
  {
    LoopCell(NextOf(made), Opt(head), before, now, r, n, Opt(prev));
    FilterElems(before[..n], r);
    if prev != null {
      assert prev in Elems(Without(before[..n], r)) && prev in before[..n];
    }
  }

  /** Writes the successor of the page at position n over the link that leads to it. */
  method SwingFull<D>(start: Page?<D>, prev: Page?<D>, next: Page?<D>, ghost made: set<Page<D>>,
                      ghost before: seq<Page<D>>, ghost now: seq<Page<D>>, ghost r: set<Page<D>>, ghost n: nat)
      returns (head: Page?<D>)
    requires FullList(made, start, now) && NoDup(before) && LoopInv(before, now, r, n, Opt(prev))
    requires n < |before| && before[n] in made && next == before[n].next && (prev != null ==> prev in made && prev in before)
    modifies made`next
    ensures FullList(made, head, Unlinked(before, n, r)) && LoopInv(before, Unlinked(before, n, r), r + {before[n]}, n + 1, Opt(prev))
    ensures forall p | p in made && p !in before :: p.next == old(p.next)
  {
    hide LoopInv, NoDup, Chain, Unlinked;
    ghost var links := NextOf(made);
    head := start;
    if prev == null {
      head := next;
    } else {
      prev.next := next;
    }
    assert NextOf(made) == if prev == null then links else links[prev := Opt(next)];
    UnlinkNext(links, Opt(start), before, now, r, n, Opt(prev), NextOf(made), Opt(head));
  }

  method UnlinkTaken<D>(start: Page?<D>, ghost made: set<Page<D>>, ghost before: seq<Page<D>>, toDrop: seq<Page<D>>)
      returns (head: Page?<D>)
    requires FullList(made, start, before)
    modifies made`next
    ensures FullList(made, head, Without(before, Elems(toDrop)))
    ensures forall p | p in made && p !in before :: p.next == old(p.next)
  {
    hide FullList, LoopInv, NoDup, Unlinked, Elems;
    FullAt(made, start, before, 0);
    head := start;
    var prev: Page?<D> := null;
    var current := head;
    ghost var n, now, r := 0, before, Elems(toDrop);
    LoopBegins(before, r);
    FullCursor(made, head, before, now, r, n, prev);
    while current != null
      invariant FullList(made, head, now) && NoDup(before) && LoopInv(before, now, r, n, Opt(prev))
      invariant n <= |before| && (prev != null ==> prev in made && prev in before)
      invariant Opt(current) == At(before, n) && (n < |before| ==> before[n] in made)
      invariant forall p | p in made && p !in before :: p.next == old(p.next)
      decreases |before| - n
    {
      var page: Page<D> := current;
      var next := page.next;
      ElemsHave(toDrop, page);
      if page in toDrop {
        head := SwingFull(head, prev, next, made, before, now, r, n);
        now := Unlinked(before, n, r);
      } else {
        LoopKeeps(before, now, r, n, Opt(prev));
        prev := page;
      }
      n := n + 1;
      FullCursor(made, head, before, now, r, n, prev);
      current := if prev == null then head else prev.next;
    }
    assert n == |before|;
    LoopEnds(before, now, r, Opt(prev));
  }
}
