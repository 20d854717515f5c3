# shared-arena, verified

`shared-arena` allocates values in pages of 63 blocks. A page has a word (for `Arena` two words)
whose low 63 bits say which blocks are free and whose top bit says whether the arena still owns the
page; pages are threaded on intrusive `next` and `next_free` lists; whoever leaves a page last
deallocates it. There are three allocators: `Pool` (one thread), `Arena` (one allocating thread, any
number of threads dropping) and `SharedArena` (any number of threads doing both).

The project models them in four layers.

1. **Words.** `Bitfield` defines the word operations on 64-bit words and the set of free blocks a
   word stands for. `PageWord` shows that any sequence of word operations is the same sequence of
   set operations. `TaggedPtr` packs page address, block index and page kind in one word.
2. **The life of a page, access by access.** `SharedPage` is a `PageSharedArena` with its `ArenaArc`
   and `ArenaBox` handles, `ArenaPage` a `PageArena` with its two words. Threads interleave single
   atomic accesses; the theorems hold in every reachable state.
3. **The lists, access by access.** `ArenaLists` is an `Arena` whose owner runs `find_place`,
   `shrink_to_fit` and finally `drop`, while droppers push pages with a test-and-set flag and a
   compare-and-swap loop. `ArenaListsInv` states the invariant; `ArenaDroppers`, `ArenaFind`,
   `ArenaShrink` and `ArenaClose` show that every access keeps it; `ArenaRuns` draws the
   conclusions, `ArenaAlone` says when `find_place` turns to the pending list and when it makes
   pages, `ArenaProgress` shows that `shrink_to_fit` ends, `ArenaLate` says which accesses of a
   dropper can find their page deallocated, and `ArenaMissed` is one concrete run. `ArenaWhole` is
   the arena of these lists with the two words of `ArenaPage` for every page, all accesses
   interleaved; `ArenaWholeRuns` shows that it simulates `ArenaLists` access by access, and
   `ArenaWholeShrink` what whole runs of `shrink_to_fit` do in it. `SharedLock` is the writer-lock
   protocol of `SharedArena`, in which a thread may read anything at all from `next_free`.
4. **The allocators as classes on the heap, operations atomic.** `PageList` has the page objects,
   their two link fields, and the loops that build and rewrite lists. `Pools.Pool`,
   `Arenas.Arena` and `SharedArenas.SharedArena` have the fields and methods of the originals. Each
   method is proved against a pure state (`PoolBooks.Books`, `Shelves.Shelf`): what is in use, which
   page is on which list, what has been deallocated. Those two modules hold the invariants; `Tally`
   counts blocks, `Growth` has the growth policy, `Chains` the theory of linked lists and of the
   link-rewriting loops, which layers 3 and 4 share. `SharedMissed` is one concrete history of a
   `SharedArena`.

The modules named `...Alone`, with `ArenaWholeDrop`, say what each operation of layers 2 and 3 does as
a whole: from any state that any interleaving reaches, with the other threads standing still wherever
they are, the operation ends (unless one of them has the writer lock it waits for) and has the outcome
the source promises of it.

Pages are never freed in the model: a counter says how often they have been deallocated, so that
"exactly once" and "not while something is held" can be stated.

## Where the code and its documentation disagree

`Arena::shrink_to_fit` and `SharedArena::shrink_to_fit` promise to drop all unused pages
(src/arena.rs:434-439, src/shared_arena.rs:587-592). They look at the free list only, so an unused
page that waits on the pending list stays. `Shelves.ShrinkIsComplete` proves that they miss exactly
those pages, hence keep the promise if and only if no unused page is pending when they are called;
`ArenaMissed.ShrinkMissesPending` (an `Arena`, access by access) and
`SharedMissed.ShrinkMissesPending` (a `SharedArena`: fill the only page, allocate once more, give
the blocks of the first page back, shrink) lead there, and `SharedMissed.ShrinkLeaves` shows the page
stays in any arena that is led there. `Pool` has no pending list and keeps the promise
(`Pools.Pool.ShrinkToFit`).

A thread that gives a block back holds no reference to the page after its `fetch_add`, but goes on
to the page's flag, its link and the arena's pending list (src/page/arena.rs:174-193,
src/page/shared_arena.rs:184-204). `ArenaLate.WhoIsLate` says exactly when the page has been
deallocated by then: the arena has let it go and no block of it is out. Before `Arena::drop` that
never happens to a thread that has won the flag, and a thread it happens to stops at that access,
its read or its swap of the flag. `ArenaLate.LateLoad`, `LateSwap` and `LatePush` are runs in which
the read, the swap, and (after `Arena::drop` has begun) the rest of the push come too late.

## Model

| member | source | states |
|---|---|---|
| Bitfield.TrailingZerosFinds | src/page/shared_arena.rs:137-145 | the number of trailing zeros is the least free block; it is 63 exactly when nothing is free and the arena owns the page, and 64 exactly when not even that bit is set |
| Bitfield.ClearBit | src/page/pool.rs:107-108 | and-ing with the complement of one bit removes just that block and leaves the arena's bit |
| Bitfield.AddBit | src/page/shared_arena.rs:169-174 | adding a block's bit stores the same word as or-ing it if and only if the block is not free yet |
| Bitfield.SubArenaBit | src/page/shared_arena.rs:210-214 | subtracting the arena's bit clears it and touches no block |
| Bitfield.WordTests | src/page/shared_arena.rs:176-177 | what each comparison of a word with a mask means for its free blocks and its owner |
| Bitfield.Counts | src/pool.rs:394-395 | ones and zeros of a word count the free and the held blocks, plus the arena's bit |
| PageWord.StepRefines | src/page/pool.rs:100-124 | one acquire or release on a word is "take the least free block" or "insert the block" on its set, and changes the number of zeros accordingly |
| PageWord.RunRefines | src/page/shared_arena.rs:135-174 | the same for any sequence of operations from a fresh page: the arena's bit stays, zeros count the blocks handed out and not given back |
| PageWord.DoubleReleaseCarries | src/page/shared_arena.rs:169-172 | for every word and block, a release records the block as free exactly when it was held: releasing a free one, which callers must not do, carries and leaves it recorded as held |
| TaggedPtr.PtrRoundTrip | src/block.rs:96-129 | the page address is read back as packed if and only if its top byte is the sign extension of bit 55 and it is not null |
| TaggedPtr.IndexRoundTrip | src/block.rs:140-147 | the index is read back if and only if it is below 64 |
| TaggedPtr.KindRoundTrip | src/block.rs:157-173 | the page kind is read back for every index below 64 |
| TaggedPtr.DropReachesOwnPage | src/block.rs:38-57 | dropping a block reaches the routine of its own page kind, its own page and its own bit, exactly for the addresses and indices the tag has room for |
| TaggedPtr.TaggedPtrInjective | src/block.rs:94-102 | two blocks have different tagged pointers |
| SharedPage.StepKeepsInv | src/page/shared_arena.rs:135-182 | every single access of acquire, release, clone, drop and drop_page keeps the invariant of the page |
| SharedPage.CountersAreHandles | src/arena_arc.rs:102-184 | in every reachable state no counter assertion has fired, each counter is the number of live handles, and a free block has counter 0 and nobody at work on it |
| SharedPage.MutualExclusion | src/page/shared_arena.rs:135-155 | no block is held by two threads, or by a thread and a handle; an `ArenaBox` is the only handle of its block |
| SharedPage.ReleaseNeverCarries | src/page/shared_arena.rs:167-174 | a block is released after its last handle is gone, and `fetch_add` then stores exactly the "or" computed beside it |
| SharedPageAlone.LoadFinds | src/page/shared_arena.rs:137-145 | others at work, an acquiring thread leaves without a block if and only if none is free at its load, and else goes for the least free one |
| SharedPageAlone.FetchAndTakes | src/page/shared_arena.rs:147-153 | its `fetch_and` makes a block still free its own and no longer free; on a block already taken it changes nothing and the thread starts again |
| SharedPageAlone.OnlyTaken | src/page/shared_arena.rs:147-153 | a block stops being free only when a thread gets it, so a failed `fetch_and` means another thread's success |
| SharedPageAlone.AcquireAlone | src/page/shared_arena.rs:135-155 | acquiring and making the handle, alone: a new handle on the least free block with its counter at 1, or nothing if and only if none is free |
| SharedPageAlone.CloneCounts | src/arena_arc.rs:132-161 | a clone is one handle more on the same block, counted, and nothing else |
| SharedPageAlone.DropArcAlone | src/arena_arc.rs:174-184 | the drop of an `ArenaArc`, alone: one handle fewer; after the last the block is free, and the last block of a page let go deallocates the page |
| SharedPageAlone.DropBoxAlone | src/arena_box.rs:143-156 | the drop of an `ArenaBox`, alone: the same, and its assertion holds |
| SharedPageAlone.LetGoAlone | src/page/shared_arena.rs:209-220 | `drop_page` alone takes the arena's reference away, and deallocates the page if and only if no block is in use |
| SharedPage.NothingAfterDeallocation | src/page/shared_arena.rs:167-182 | no access to the word or the counters of a page is possible once the page has been deallocated |
| SharedPage.NoThreadStuck | src/arena_box.rs:143-156 | a thread inside an operation can always take its next step |
| SharedPage.DeallocatedExactlyOnce | src/page/shared_arena.rs:209-220 | the page is deallocated at most once, and has been if and only if the arena, every handle and every operation in progress are gone |
| ArenaPage.StepKeepsInv | src/page/arena.rs:124-171 | every access of the owner and of the droppers keeps the invariant of the two words |
| ArenaPage.WordsDisjoint | src/page/arena.rs:128-141 | while the arena owns the page the words share no free block, and a block is held or being dropped exactly when it is free in neither |
| ArenaPage.ReleaseNeverCarries | src/page/arena.rs:158-163 | the `fetch_add` of a drop stores exactly the "or" computed beside it |
| ArenaPage.AcquireOutcome | src/page/arena.rs:124-144 | acquiring fails exactly when both words have no free block at that access, else takes the lowest block of the private word, after at most one merge, which loses no free block |
| ArenaPage.RefinesLists | src/page/arena.rs:124-171 | seen from the lists, a page is the set of its blocks out: each access takes one that was not out, gives one back, or changes nothing; acquiring fails only with all out, the last drop and `drop_page` deallocate exactly a page let go with none out, and the test of `shrink_to_fit` on both words finds exactly the pages with none out |
| ArenaPageAlone.AcquireAdvances | src/page/arena.rs:124-144 | inside `acquire_free_block` the owner can always take its next access, each lowers a bound of four, and no access of a dropper changes it |
| ArenaPageAlone.AcquireAlone | src/page/arena.rs:124-144 | a call by the owner alone takes the least block of the private word, or of the atomic word if the private one has none, and returns without a block if and only if none of the page is free |
| ArenaPageAlone.SearchStep | src/page/arena.rs:124-144 | from wherever it stands, the next access of the search ends it with that outcome or leaves the same search with fewer accesses to go |
| ArenaPageAlone.DropAlone | src/page/arena.rs:158-171 | a drop by a thread alone frees exactly its block, and deallocates the page if that was the last block of a page let go |
| ArenaPageAlone.LetGoAlone | src/page/arena.rs:198-210 | `drop_page` alone lets the page go, keeps its free blocks, and deallocates it if and only if no block is out |
| ArenaPage.NothingAfterDeallocation | src/page/arena.rs:158-171 | no access to the two words of a page is possible once the page has been deallocated |
| ArenaPage.DeallocatedExactlyOnce | src/page/arena.rs:198-210 | the page is deallocated at most once, and has been if and only if the arena let it go, no block is out and no drop is in progress |
| Chains.ChainUnique | src/page/pool.rs:14-15 | a head and the links determine the list |
| Chains.LoopUnlinks | src/arena.rs:475-488 | position by position, a pointer-to-link loop that removes some pages leaves the order-preserving filter of the part it has seen in front of the rest |
| Chains.LoopChain | src/arena.rs:480-484 | writing a page's successor over the link that leads to it, a field or the head cell, unlinks exactly that page |
| ArenaDroppers.KeepsDropperStep | src/page/arena.rs:174-193 | every access of a dropper that lists its page keeps the invariant of the lists, whatever the owner is in the middle of |
| ArenaDroppers.KeepsGiveBack | src/page/arena.rs:158-171 | giving a block back keeps it too, and deallocates a released page with its last block |
| ArenaFind.KeepsFindStep | src/arena.rs:46-102 | every access of `find_place` and `alloc_new_page` keeps it |
| ArenaClose.KeepsShrinkStep | src/arena.rs:465-523 | every access of `shrink_to_fit` and of `Arena::drop` keeps it |
| ArenaRuns.ListsAreSound | src/page/arena.rs:174-193 | in every reachable state the three chains are finite and duplicate-free, free and pending are disjoint, a page being pushed is on neither and has one pusher, and the flag of an owned page is set exactly when it is on a chain, being pushed, or in the owner's hands |
| ArenaRuns.NothingPanics | src/arena.rs:67-68 | in no run does the assertion of `alloc_new_page`, the `expect` of `shrink_to_fit` or its last assertion fire, and no access leaves the allocated pages |
| ArenaRuns.SwingsSucceed | src/arena.rs:479-504 | both compare-and-swaps of `shrink_to_fit` succeed in every run, and the page taken is still unused then |
| ArenaRuns.ShrinkFilters | src/arena.rs:465-523 | with drops interleaved anywhere, `shrink_to_fit` leaves both lists as order-preserving filters without one set of pages: all unused, containing every page on the free list that was unused at the call and no other page unused then, each deallocated exactly once; no other page is released |
| ArenaRuns.DeallocatedOnce | src/page/arena.rs:198-210 | no page is deallocated twice, and it has been exactly when the arena has let it go and nothing in it is held |
| ArenaRuns.NoLeak | src/arena.rs:621-631 | once the arena is dropped and every block given back, every page ever made has been deallocated exactly once |
| ArenaMissed.ShrinkMissesPending | src/arena.rs:475-488 | a reachable idle arena owns a wholly unused page that no following `shrink_to_fit` releases, at any point of any run or when it returns, because it is pending |
| ArenaMissed.ShrinkReturns | src/arena.rs:465-523 | a run of `shrink_to_fit` from that arena up to its return exists |
| ArenaProgress.OwnerAdvances | src/arena.rs:465-523 | in the middle of `shrink_to_fit` the owner can always take its next access, and each brings it closer to its return |
| ArenaProgress.OthersWait | src/page/arena.rs:146-193 | no access of a dropper takes it back |
| ArenaProgress.ShrinkCompletes | src/arena.rs:465-523 | from any point of any run of `shrink_to_fit`, the owner's own accesses reach its return, in no more than the bound says |
| ArenaAlone.PendingFirst | src/arena.rs:90-99 | droppers at work, the owner sets out to make pages only by an access that finds the pending list null; if that access finds it not null, the next one makes its head the free list and empties it |
| ArenaAlone.FindAlone | src/arena.rs:46-102 | a call of `find_place`, alone, ends: the pages of the free list and then of the pending list are asked in order, the first that has a block gives one, full ones before it leave their list with their flags cleared, the pending list is taken over only if the whole free list is full, and pages are made, doubling their number, only if both are |
| ArenaDropAlone.ListsAlone | src/page/arena.rs:174-193 | from any position, and whatever head it read before, a dropper alone ends in at most six accesses: its page is the new head of the pending list if the flag was clear and the list is alive, and nothing else changed |
| ArenaDropAlone.DropBlockAlone | src/page/arena.rs:146-195 | the whole of `drop_block`, alone: the block is given back, and the page deallocated or listed |
| ArenaDropAlone.CloseAlone | src/arena.rs:621-631 | `Arena::drop`, alone, lets every page go in one access per page and two, and deallocates those with no block out |
| ArenaLate.WhoIsLate | src/page/arena.rs:174-193 | a dropper's next access is to a deallocated page exactly when the arena has let the page go and none of its blocks is out; before `Arena::drop` this never happens to a thread that has won the flag, and any other thread finds the flag set and stops |
| ArenaLate.LateLoad | src/page/arena.rs:174-176 | a run, without `Arena::drop`, in which a dropper is about to read the flag of a deallocated page |
| ArenaLate.LateSwap | src/page/arena.rs:176-180 | a run, without `Arena::drop`, in which a dropper is about to swap the flag of a deallocated page |
| ArenaLate.LatePush | src/page/arena.rs:180-191 | a run, with `Arena::drop`, in which a thread that has won the flag of a page is late to push it |
| ArenaWhole.BlindIgnores | src/page/arena.rs:174-193 | the accesses taken over from `ArenaLists` do the same whatever the pages' words hold |
| ArenaWholeRuns.StepKeepsInv | src/page/arena.rs:124-210 | with every page's two words and the lists in one system, every access of every thread is an access of `ArenaLists` or changes nothing it sees, and keeps every page in a state `ArenaPage` reaches |
| ArenaWholeRuns.Simulates | src/arena.rs:46-102 | every state that system reaches stands for a reachable state of `ArenaLists`, and each of its pages is in a reachable state of `ArenaPage` |
| ArenaWholeShrink.RunShows | src/arena.rs:465-523 | every run of `shrink_to_fit` in it is a run of `ArenaLists` with the accesses left out that do not show |
| ArenaWholeShrink.ShrinkFilters | src/arena.rs:465-523 | with droppers changing words and lists between any two accesses, `shrink_to_fit` leaves both lists as order-preserving filters without one set of pages: of those with no block out at the call exactly the ones on the free list; it lets go of these pages and no other, and each is deallocated, or about to be by its own `drop_page`, once |
| ArenaWholeShrink.ShrinkCompletes | src/arena.rs:465-523 | from any point of such a run the owner, reading words, reaches the return by its own accesses, in no more than the bound says |
| ArenaWholeShrink.ShrinkAlone | src/arena.rs:465-523 | a call on an idle arena, left alone, reaches the return |
| ArenaWholeAlone.PendingFirst | src/arena.rs:90-99 | in it too, pages are made only after an access that found the pending list null, and a list found not null is taken over |
| ArenaWholeAlone.PageAlone | src/page/arena.rs:124-144 | in it the search of a page, alone, from wherever it stands, ends with the least block on offer, or moves on if no block of the page is free |
| ArenaWholeAlone.FindAlone | src/arena.rs:46-102 | in it `find_place`, alone and reading words, has the outcome `ArenaAlone.FindAlone` states, and one page has given its least block on offer |
| ArenaWholeDrop.DropAlone | src/page/arena.rs:146-195 | in it `drop_block` of a held block, alone, frees the block in the words of its page, deallocates a page let go with its last block, and else lists the page as `ArenaDropAlone` states |
| ArenaWholeDrop.CloseAlone | src/arena.rs:621-631 | in it `Arena::drop`, alone, lets every page go |
| ArenaWholeDrop.FreesWhatIsLeft | src/page/arena.rs:205-209 | a page `drop_page` found unused can be deallocated, and is once |
| ArenaWholeRuns.NothingPanics | src/arena.rs:506-511 | no assertion fires in it, the one before `drop_page` included, which reads both words |
| ArenaWholeRuns.OwnerCanMove | src/arena.rs:76-95 | wherever the owner's next access reads or writes words, it can make it |
| ArenaWholeRuns.NoLeak | src/arena.rs:621-631 | in it no page is deallocated twice, and after the arena, the last block and the last operation are gone every page has been |
| SharedLock.StepKeepsInv | src/shared_arena.rs:140-246 | every access of `find_place`, `maybe_free_pages`, `take_pages_to_be_freed` and `shrink_to_fit`, by any thread, keeps what each thread relies on |
| SharedLock.NothingPanics | src/shared_arena.rs:100-109 | in no run does an assertion, `unwrap` or `expect` fire, whatever the threads read from `next_free` and the bitfields |
| SharedLock.OneWriterOneShrinker | src/shared_arena.rs:59-82 | at most one thread holds the writer lock, the flag says whether one does, and at most one thread is shrinking |
| SharedLock.OnlyTheHolder | src/shared_arena.rs:162-191 | only the lock holder ends a spell of a null `free_list`, changes the full list, its links or `npages`, or makes `to_free` non-null, and a vector behind `to_free` is never empty |
| SharedLock.NullStaysNull | src/shared_arena.rs:634-704 | between the first and the last access of a refill or shrink to `free_list`, no access of another thread makes it non-null |
| SharedLockAlone.PendingIsKept | src/shared_arena.rs:171-177 | others at work, the head a thread takes from the pending list is what `free_list` holds after that thread's next access to it |
| SharedLockAlone.PopAlone | src/shared_arena.rs:142-160 | alone, the page in front gives a block, or leaves the free list to the page read as its successor |
| SharedLockAlone.BusyAlone | src/shared_arena.rs:190-198 | with the lock taken by another thread nothing changes, but for one count of `maybe_free_pages` if the free list has been refilled |
| SharedLockAlone.YieldsAlone | src/shared_arena.rs:59-82 | a thread with the lock leaves a refilled free list as it is; `shrink_to_fit` gives up if another one is running and waits for the lock |
| SharedLockAlone.TakesPendingAlone | src/shared_arena.rs:162-179 | a refill, alone, with pages pending: they become the free list, and `maybe_free_pages` counts once up to ten, taking the waiting pages with the tenth |
| SharedLockAlone.ReusesAlone | src/shared_arena.rs:180-246 | a refill with none pending and pages waiting: as many as there are pages, from the end, go in front of both lists in order, the others wait again |
| SharedLockAlone.MakesAlone | src/shared_arena.rs:114-122 | a refill with none anywhere: new pages go in front of both lists, doubling their number up to 900 000 more |
| SharedLockAlone.ShrinkAlone | src/shared_arena.rs:627-711 | `shrink_to_fit`, alone: whatever pages its first loop took and found unused again leave the list of all pages, which keeps its order, join those that wait, and start the delay anew; both flags are cleared |
| SharedLockAlone.CallAlone | src/shared_arena.rs:140 | each such run is a run of the arena, with the other threads anywhere |
| Growth.PagesFor | src/pool.rs:130 | the pages for a capacity: at least one, room for the capacity, and less than one page too much |
| Growth.GrowthBounded | src/arena.rs:47-50 | growth with every block in use at most doubles the capacity, and never exceeds the larger of the initial capacity and twice the peak |
| Tally.TotalIsPlaces | src/pool.rs:391-400 | summing over the pages of a list counts the blocks in use, in any order |
| Tally.SpareElsewhere | src/shared_arena.rs:732-744 | counting free blocks may skip the pages that have none |
| PageList.MakeList | src/page/pool.rs:78-95 | makes that many distinct fresh pages, linked in order by both links, flagged as listed, with the first and the last returned |
| PageList.ListPage | src/page/arena.rs:174-193 | the end of `drop_block`: an unlisted page becomes the head of the pending list if the arena is still there, and other lists are untouched |
| PageList.UnlinkUnused | src/pool.rs:462-476 | the first loop of `shrink_to_fit` takes out exactly the pages that pass the test, in order, and leaves the filtered list |
| PageList.UnlinkTaken | src/pool.rs:478-491 | the second loop leaves the list of all pages without the pages taken, in order |
| PoolPage.AcquireFreeBlock | src/page/pool.rs:100-111 | takes the least free block, if there is one, and changes nothing else |
| PoolPage.DropBlock | src/page/pool.rs:113-143 | frees the block and drops its value; deallocates the page if it was the last block of a page let go, else lists an unlisted page |
| PoolPage.DropPage | src/page/pool.rs:146-158 | clears the arena's bit only, and deallocates the page exactly when nothing is held |
| PoolPage.LiveChanges | src/page/pool.rs:107-124 | changing one block of one page changes one entry of the map from live blocks to values |
| PoolBooks.AllInUse | src/pool.rs:166-180 | with the free list empty, every block of every page is in use, so new pages are made only then |
| PoolBooks.KeepsReturned | src/page/pool.rs:123-142 | giving a block back removes just its entry and keeps the invariant, whether or not the pool still exists |
| PoolBooks.KeepsShrunk | src/pool.rs:460-498 | letting unused pages go keeps the invariant and every live block |
| PoolBooks.LiveNotDeallocated | src/pool.rs:530-540 | the page of a live block has not been deallocated, in any state the invariant allows |
| PoolBooks.NothingLeaks | src/pool.rs:530-540 | once the pool and all handles are gone, every page has been deallocated exactly once |
| Pools.Pool.constructor | src/pool.rs:129-144 | a valid pool with nothing live and just enough pages |
| Pools.Pool.AllocNewPage | src/pool.rs:146-164 | fresh pages in front of both lists, all free: one if there was none, as many as there were up to 900 000, else 900 000; nothing live changes |
| Pools.Pool.FindPlace | src/pool.rs:166-180 | terminates with a block that was not live and now has no handle: the least free one of the first page on the free list that has one, which the full pages before it leave; fresh pages are made exactly if all of them were full |
| Pools.Pool.NewHandle | src/pool.rs:40-49 | the counter of a block just found is 0, as the source asserts; afterwards the block is live with the value and one handle |
| Pools.Pool.Alloc | src/pool.rs:196-205 | adds one entry, for a block that was not live, with the value and one handle; every other entry is unchanged |
| Pools.Pool.AllocRc | src/pool.rs:291-300 | the same for an `ArenaRc` |
| Pools.Pool.CloneRc | src/arena_rc.rs:120-130 | one handle more on that block, nothing else |
| Pools.Pool.DropRc | src/arena_rc.rs:162-173 | one handle fewer, and the entry goes with the last one; nothing else |
| Pools.Pool.DropBox | src/pool.rs:68-80 | the counter is 1, as the source asserts; the entry goes, nothing else, before or after the pool is dropped |
| Pools.Pool.Read | src/pool.rs:52-57 | the value a handle shows is the one the map has |
| Pools.Pool.Write | src/pool.rs:59-63 | changes the value of that block only |
| Pools.Pool.Stats | src/pool.rs:386-407 | the `npages` assertion holds, `used` is the number of live blocks, and used and free add up to 63 times `npages` |
| Pools.Pool.ShrinkToFit | src/pool.rs:460-498 | removes exactly the unused pages, from both lists, keeping order; each is deallocated once; every live block stays as it is |
| Pools.Pool.Drop | src/pool.rs:530-540 | every live block stays live with its value and handles |
| Pools.Pool.HandleIsSafe | src/pool.rs:166-205 | in every valid state, also after the pool is gone, a live block has a value and its page is not deallocated |
| Pools.Pool.GrowthIsBounded | src/pool.rs:146-164 | capacity never exceeds the larger of the initial capacity and twice the peak of live blocks, which every contract that could change it pins to the true maximum |
| Pools.Pool.NoLeak | src/pool.rs:530-540 | after the pool and the last handle are gone every page ever made has been deallocated exactly once |
| Shelves.LiveTotal | src/arena.rs:539-558 | the blocks in use are those of the listed pages |
| Shelves.FreeTotal | src/shared_arena.rs:727-749 | the free blocks on the free and the pending list, plus the blocks in use, are all blocks |
| Shelves.KeepsReinserted | src/shared_arena.rs:224-246 | pages used again are in both lists, the rest goes on waiting, no page is lost or duplicated, and the growth bound holds |
| Shelves.KeepsReturned | src/page/shared_arena.rs:167-206 | giving a block back keeps the invariant: the page, if owned, is on the free or the pending list |
| Shelves.ShrinkIsComplete | src/shared_arena.rs:647-662 | of the unused pages `shrink_to_fit` misses exactly the pending ones, so it drops all of them if and only if none is pending |
| Shelves.OneFate | src/shared_arena.rs:802-823 | every page ever made is in exactly one place: listed, waiting in `to_free`, orphaned with blocks in use, or deallocated |
| SharedPageOps.MakeListFromSlice | src/page/shared_arena.rs:115-130 | links the pages in the order of the slice by both links and flags them |
| SharedPageOps.AcquireFreeBlock | src/page/shared_arena.rs:135-155 | takes the least free block, if there is one |
| SharedPageOps.DropBlock | src/page/shared_arena.rs:157-206 | frees just that block; deallocates the page if it was the last of a page let go, else lists an unlisted page |
| SharedPageOps.DropPage | src/page/shared_arena.rs:209-220 | lets the page go and deallocates it exactly when nothing is held |
| SharedArenas.SharedArena.constructor | src/shared_arena.rs:263-279 | a valid arena with nothing in use and just enough pages |
| SharedArenas.SharedArena.PutPagesInLists | src/shared_arena.rs:85-112 | given a null `free_list`, both lists begin with the new pages and the assertions hold |
| SharedArenas.SharedArena.AllocNewPage | src/shared_arena.rs:114-122 | runs only when every block is in use; puts fresh pages in front of both lists, one if there was none, as many as there were up to 900 000, else 900 000 |
| SharedArenas.SharedArena.MaybeFreePages | src/shared_arena.rs:124-138 | counts the delay up to ten; when it gets there exactly the waiting pages are deallocated, once |
| SharedArenas.SharedArena.MaybeFreePagesTimes | src/shared_arena.rs:124-138 | any number of calls: the waiting pages are deallocated, once, as soon as the delay so far and the calls add up to ten, and none before; no other page is ever touched |
| SharedArenas.SharedArena.TakePagesToBeFreed | src/shared_arena.rs:224-246 | splits the waiting pages into a prefix that waits on and a non-empty suffix of length min(len, max(npages, 1)) that is listed again; `unwrap` and assertion hold |
| SharedArenas.SharedArena.TakePending | src/shared_arena.rs:171-177 | the pending list becomes the free list, and its first page has a free block |
| SharedArenas.SharedArena.Refill | src/shared_arena.rs:162-187 | of the three ways to pages the first that gives any: the pending list, with a call of `maybe_free_pages` and its effect on the waiting pages; a suffix of the waiting pages, the others to wait again; fresh pages, only if none is pending and none waits, with `to_free` and its delay as they were |
| SharedArenas.SharedArena.FindPlace | src/shared_arena.rs:140-192 | terminates with a block that was not in use, the least free one of its page; refills exactly if every page of the free list is full, with all that `Refill` states, and otherwise only shortens the free list |
| SharedArenas.SharedArena.GiveBack | src/page/shared_arena.rs:157-206 | exactly that block stops being in use, before or after the arena is dropped |
| SharedArenas.SharedArena.ShrinkToFit | src/shared_arena.rs:627-711 | the unused pages of the free list leave both lists, which keep their order, and join the waiting ones; the delay starts again if there were any |
| SharedArenas.SharedArena.Stats | src/shared_arena.rs:727-749 | counting the free and the pending list only, `used` is the exact number of blocks in use, and no subtraction underflows |
| SharedArenas.SharedArena.DebugUsed | src/shared_arena.rs:844-861 | the count over the full list is the same number |
| SharedArenas.SharedArena.Drop | src/shared_arena.rs:802-823 | every block in use stays in use |
| SharedArenas.SharedArena.UsedIsSafe | src/page/shared_arena.rs:176-182 | the page of a block in use is not deallocated, also after the arena is gone |
| SharedArenas.SharedArena.PageFate | src/shared_arena.rs:688-706 | every page ever made is listed, waiting, orphaned or deallocated once, and only one of these |
| SharedArenas.SharedArena.NoLeak | src/shared_arena.rs:802-823 | after the arena and the last block are gone every page has been deallocated exactly once |
| SharedMissed.UnusedPending | src/page/shared_arena.rs:184-204 | a `SharedArena` is led to own a wholly unused page that is pending and not on the free list |
| SharedMissed.ShrinkLeaves | src/shared_arena.rs:647-686 | on any arena `shrink_to_fit` leaves an unused page that is pending on the pending list and the list of all pages, while it takes every unused page of the free list |
| SharedMissed.ShrinkMissesPending | src/shared_arena.rs:647-686 | a history with such a page: before `shrink_to_fit` it is pending and unused, afterwards it is still on both lists, neither waiting nor deallocated |
| SharedArenas.SharedArena.GrowthIsBounded | src/shared_arena.rs:114-122 | capacity never exceeds the larger of the initial capacity and twice the peak of blocks in use, reuse included; `FindPlace` alone moves the peak, to the true maximum |
| ArenaPageOps.AcquireFreeBlock | src/page/arena.rs:124-144 | fails exactly when every block is out, else takes the lowest free block of the private word, or of the other word if that has none |
| ArenaPageOps.DropBlock | src/page/arena.rs:146-195 | frees just that block, in the atomic word; deallocates the page if it was the last of a page let go, else lists an unlisted page |
| ArenaPageOps.DropPage | src/page/arena.rs:198-210 | merges the words without losing a free block and deallocates the page exactly when nothing is held |
| Arenas.Arena.constructor | src/arena.rs:119-131 | a valid arena with nothing in use and just enough pages |
| Arenas.Arena.AllocNewPage | src/arena.rs:46-74 | runs only when every block is in use; its assertion holds; fresh pages in front of both lists, one if there was none, as many as there were up to 900 000, else 900 000 |
| Arenas.Arena.FindPlace | src/arena.rs:76-102 | terminates with a block that was not in use, the next one on offer of its page; exactly if every page of the free list is full it takes the pending list over, or makes pages if that is empty, and otherwise only shortens the free list |
| Arenas.Arena.GiveBack | src/page/arena.rs:146-195 | exactly that block stops being in use, before or after the arena is dropped |
| Arenas.Arena.ShrinkToFit | src/arena.rs:465-523 | the unused pages of the free list leave both lists, which keep their order, and each is deallocated once; the assertion before `drop_page` holds |
| Arenas.Arena.Stats | src/arena.rs:539-568 | the `npages` assertion holds, `used` is the exact number of blocks in use from the "or" of both words, and used and free add up |
| Arenas.Arena.Drop | src/arena.rs:621-631 | every block in use stays in use |
| Arenas.Arena.NoLeak | src/arena.rs:621-631 | after the arena and the last block are gone every page has been deallocated exactly once |
| Arenas.Arena.GrowthIsBounded | src/arena.rs:46-74 | capacity never exceeds the larger of the initial capacity and twice the peak of blocks in use; `FindPlace` alone moves the peak, to the true maximum |

## Left out

- Weak memory orderings: threads interleave sequentially consistent accesses.
- Page records outlive deallocation in the model, so that an access after it is only counted (`ArenaLate`), not given a meaning; for a `SharedArena`, whose `drop_block` has the same late accesses, they are not modelled.
- `ArenaWhole` takes the test of both words as one access: only the owner reads or writes the private word, so the load of the atomic one decides. A deallocation by `drop_page` may come at any later access.
- That a dropper's compare-and-swap loop, the `fetch_and` loop of a `SharedArena` page or the search of a `SharedArena` ends under interference is not claimed: they are lock-free only (`SharedPageAlone.OnlyTaken`), and end when their thread runs alone.
- That every page with a free block is listed, and every pending page has one, is not claimed under interleaving, where it fails for a moment; the classes of layer 4 have it.
- List membership and `npages` of a `SharedArena` under interleaving: a lock-free pop may install a stale link, so only the assertions are proved there, and structure in layer 4.
- `drop_page` of a `PageSharedArena` is taken when no acquire is in flight on the page; that ten calls of `maybe_free_pages` are enough for that is a heuristic of the source.
- The writer lock and the `shrinking` flag in `SharedArenas`: operations are atomic there, so both are always free.
- `alloc_with` and its panics, destructors that call the allocator again, and allocation failure.
- Pools.Pool.CloneRc: takes fewer than `isize::MAX` handles on a block for granted, which the source asserts at run time.
- Handles and values in `Arenas` and `SharedArenas`: a block is in use or not; counters are in `SharedPage`, values in `Pools`.
- The 32-bit tagged pointer, `Display` and `Pointer` formatting, `display_list`, `CacheAligned`, raw allocation and layouts.
