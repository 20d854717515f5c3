/** The lists of an Arena under one owner and any number of remote droppers
    (src/arena.rs:46-102, src/arena.rs:465-523, src/arena.rs:621-631, src/page/arena.rs:146-210).

    The owner allocates, shrinks and finally drops the arena; droppers give blocks back and push
    pages on the pending list with a test-and-set flag and a compare-and-swap loop. Threads
    interleave single accesses to shared memory. `held` abstracts a page's two words: the blocks
    handed out and not yet given back (module ArenaPage shows that the words implement it).
    Page records outlive deallocation, which only counts, so that nothing is assumed about
    accesses after it. */
module ArenaLists {
  import opened Options
  import opened Bitfield
  import opened Chains
  import opened Growth

  type ThreadId = nat

  /** The `&AtomicPtr` cursor of shrink_to_fit: the link field of `prev`, or the loop's own head
      cell; `start` is the local head cell of the detached free list. */
  datatype Cursor = Cursor(prev: Option<Addr>, start: Option<Addr>, toDrop: seq<Addr>)

  datatype Loc =
    | LoadCurrent
    | LoadNext(page: Addr)
    | Test(page: Addr, next: Option<Addr>)
    | Swing(page: Addr, next: Option<Addr>)    // about to compare-and-swap

  datatype Owner =
    | Idle
    | Scan                                     // find_place, at the head of its inner loop
    | Exhausted(page: Addr)                    // the page had no free block
    | Popped(page: Addr)                       // off the free list, flag not yet cleared
    | ReadPending
    | SwapPending
    | Growing
    | FreeLoop(cursor: Cursor, at: Loc)        // shrink_to_fit, first loop
    | FullLoop(cursor: Cursor, at: Loc)        // shrink_to_fit, second loop
    | DropCheck(start: Option<Addr>, toDrop: seq<Addr>, k: nat)
    | DropOne(start: Option<Addr>, toDrop: seq<Addr>, k: nat)
    | Finishing(start: Option<Addr>, toDrop: seq<Addr>)
    | Closing(current: Option<Addr>)           // Arena::drop
    | Closed
    | Panicked

  datatype Dropper =
    | LoadFlag(page: Addr)
    | SwapFlag(page: Addr)
    | Upgrade(page: Addr)                      // won the flag
    | LoadHead(page: Addr)
    | StoreNext(page: Addr, head: Option<Addr>)
    | CasHead(page: Addr, head: Option<Addr>)

  datatype State = State(
    nextFree: Links<Addr>,
    next: Links<Addr>,
    inFree: map<Addr, bool>,
    held: map<Addr, set<nat>>,
    released: set<Addr>,                       // drop_page has been called on them
    deallocs: map<Addr, nat>,
    freeList: Option<Addr>,
    pending: Option<Addr>,
    full: Option<Addr>,
    npages: int,
    owner: Owner,
    droppers: map<ThreadId, Dropper>)

  /** One access of find_place. */
  datatype FindOp =
    | FindPlace
    | Acquire(index: nat)
    | AcquireFails
    | Pop
    | ClearFlag
    | ScanEnds
    | LoadPending
    | TakePending
    | Grow(news: seq<Addr>)

  /** One access of shrink_to_fit, or of Arena::drop. */
  datatype ShrinkOp =
    | BeginShrink
    | FreeStep
    | FullStep
    | CheckStep
    | DropStep
    | FinishShrink
    | BeginClose
    | CloseStep

  datatype Step =
    | Find(find: FindOp)
    | Shrink(shrink: ShrinkOp)
    | GiveBack(t: ThreadId, page: Addr, block: nat)
    | DropperStep(t: ThreadId)

  // ---------------------------------------------------------------- steps of the owner

  predicate Known(s: State, p: Addr) {
    p in s.nextFree && p in s.next && p in s.inFree && p in s.held && p in s.deallocs
  }

  predicate KnownPrev(s: State, c: Cursor) {
    c.prev.Some? ==> Known(s, c.prev.value)
  }

  /** Pages the owner's next access touches are allocated records; Inv shows it is no restriction. */
  predicate OwnerTouches(s: State) {
    match s.owner
    case Scan => s.freeList.Some? ==> Known(s, s.freeList.value)
    case Exhausted(p) => Known(s, p)
    case Popped(p) => Known(s, p)
    case FreeLoop(c, at) => KnownPrev(s, c) && (!at.LoadCurrent? ==> Known(s, at.page))
    case FullLoop(c, at) => KnownPrev(s, c) && (!at.LoadCurrent? ==> Known(s, at.page))
    case DropCheck(_, toDrop, k) => k < |toDrop| ==> Known(s, toDrop[k])
    case DropOne(_, toDrop, k) => k < |toDrop| && Known(s, toDrop[k])
    case Closing(current) => current.Some? ==> Known(s, current.value)
    case _ => true
  }

  ghost predicate Enabled(s: State, step: Step) {
    match step
    case Find(op) => OwnerTouches(s) && FindEnabled(s, op)
    case Shrink(op) => OwnerTouches(s) && ShrinkEnabled(s, op)
    case GiveBack(t, p, block) => t !in s.droppers && Known(s, p) && block in s.held[p]
    case DropperStep(t) => t in s.droppers && Known(s, s.droppers[t].page)
  }

  ghost predicate FindEnabled(s: State, op: FindOp)
    requires OwnerTouches(s)
  {
    match op
    case FindPlace => s.owner.Idle?
    case Acquire(index) => s.owner.Scan? && s.freeList.Some? && index < BLOCK_PER_PAGE && index !in s.held[s.freeList.value]
    case AcquireFails => s.owner.Scan? && s.freeList.Some? && s.held[s.freeList.value] == Indices()
    case ScanEnds => s.owner.Scan? && s.freeList.None?
    case Pop => s.owner.Exhausted?
    case ClearFlag => s.owner.Popped?
    case LoadPending => s.owner.ReadPending?
    case TakePending => s.owner.SwapPending?
    case Grow(news) => s.owner.Growing? && NoDup(news) && |news| == GrowthSize(s.npages) && forall p | p in news :: p !in s.next
  }

  predicate ShrinkEnabled(s: State, op: ShrinkOp) {
    match op
    case BeginShrink => s.owner.Idle?
    case FreeStep => s.owner.FreeLoop?
    case FullStep => s.owner.FullLoop?
    case CheckStep => s.owner.DropCheck?
    case DropStep => s.owner.DropOne?
    case FinishShrink => s.owner.Finishing?
    case BeginClose => s.owner.Idle?
    case CloseStep => s.owner.Closing?
  }

  function FillPages<T>(news: seq<Addr>, x: T): map<Addr, T> {
    map p | p in news :: x
  }

  /** drop_page: let go of the page, and deallocate it if nothing is held. */
  function DropPage(s: State, p: Addr): State
    requires Known(s, p)
  {
    s.(released := s.released + {p},
       deallocs := if s.held[p] == {} then s.deallocs[p := s.deallocs[p] + 1] else s.deallocs)
  }

  function FindStep(s: State, op: FindOp): State
    requires OwnerTouches(s) && FindEnabled(s, op)
  {
    match op
    case FindPlace => s.(owner := Scan)
    case Acquire(index) =>
      var p := s.freeList.value;
      s.(held := s.held[p := s.held[p] + {index}], owner := Idle)
    case AcquireFails => s.(owner := Exhausted(s.freeList.value))
    case Pop => s.(freeList := s.nextFree[s.owner.page], owner := Popped(s.owner.page))
    case ClearFlag => s.(inFree := s.inFree[s.owner.page := false], owner := Scan)
    case ScanEnds => s.(owner := ReadPending)
    case LoadPending => s.(owner := if s.pending.Some? then SwapPending else Growing)
    case TakePending => s.(freeList := s.pending, pending := None, owner := Scan)
    case Grow(news) =>
      var s' := s.(nextFree := s.nextFree + NewLinks(news, None),
                   next := s.next + NewLinks(news, s.full),
                   inFree := s.inFree + FillPages(news, true),
                   held := s.held + FillPages(news, {}),
                   deallocs := s.deallocs + FillPages(news, 0),
                   full := Some(news[0]),
                   npages := s.npages + |news|);
      if s.freeList.Some? then s'.(owner := Panicked) else s'.(freeList := Some(news[0]), owner := Scan)
  }

  /** One access of the first loop of shrink_to_fit. */
  function FreeLoopStep(s: State, c: Cursor, at: Loc): State
    requires OwnerTouches(s) && s.owner == FreeLoop(c, at)
  {
    match at
    case LoadCurrent =>
      var current := if c.prev.None? then c.start else s.nextFree[c.prev.value];
      if current.Some? then s.(owner := FreeLoop(c, LoadNext(current.value)))
      else s.(owner := FullLoop(c.(prev := None), LoadCurrent))
    case LoadNext(p) => s.(owner := FreeLoop(c, Test(p, s.nextFree[p])))
    case Test(p, next) =>
      if s.held[p] == {} then s.(owner := FreeLoop(c, Swing(p, next)))
      else s.(owner := FreeLoop(c.(prev := Some(p)), LoadCurrent))
    case Swing(p, next) =>
      if c.prev.None? then
        if c.start == Some(p) then s.(owner := FreeLoop(c.(start := next, toDrop := c.toDrop + [p]), LoadCurrent))
        else s.(owner := FreeLoop(c, LoadCurrent))
      else
        if s.nextFree[c.prev.value] == Some(p) then
          s.(nextFree := s.nextFree[c.prev.value := next], owner := FreeLoop(c.(toDrop := c.toDrop + [p]), LoadCurrent))
        else s.(owner := FreeLoop(c, LoadCurrent))
  }

  /** One access of the second loop; its compare-and-swap is followed by `expect`. */
  function FullLoopStep(s: State, c: Cursor, at: Loc): State
    requires OwnerTouches(s) && s.owner == FullLoop(c, at)
  {
    match at
    case LoadCurrent =>
      var current := if c.prev.None? then s.full else s.next[c.prev.value];
      if current.Some? then s.(owner := FullLoop(c, LoadNext(current.value)))
      else s.(owner := DropCheck(c.start, c.toDrop, 0))
    case LoadNext(p) => s.(owner := FullLoop(c, Test(p, s.next[p])))
    case Test(p, next) =>
      if p in c.toDrop then s.(owner := FullLoop(c, Swing(p, next)))
      else s.(owner := FullLoop(c.(prev := Some(p)), LoadCurrent))
    case Swing(p, next) =>
      if c.prev.None? then
        if s.full == Some(p) then s.(full := next, owner := FullLoop(c, LoadCurrent)) else s.(owner := Panicked)
      else
        if s.next[c.prev.value] == Some(p) then
          s.(next := s.next[c.prev.value := next], owner := FullLoop(c, LoadCurrent))
        else s.(owner := Panicked)
  }

  function ShrinkStep(s: State, op: ShrinkOp): State
    requires OwnerTouches(s) && ShrinkEnabled(s, op)
  {
    match op
    case BeginShrink => s.(freeList := None, owner := FreeLoop(Cursor(None, s.freeList, []), LoadCurrent))
    case FreeStep => FreeLoopStep(s, s.owner.cursor, s.owner.at)
    case FullStep => FullLoopStep(s, s.owner.cursor, s.owner.at)
    case CheckStep =>
      var k := s.owner.k;
      if k == |s.owner.toDrop| then s.(owner := Finishing(s.owner.start, s.owner.toDrop))
      else if k < |s.owner.toDrop| && s.held[s.owner.toDrop[k]] == {} then s.(owner := DropOne(s.owner.start, s.owner.toDrop, k))
      else s.(owner := Panicked)
    case DropStep =>
      DropPage(s, s.owner.toDrop[s.owner.k]).(owner := DropCheck(s.owner.start, s.owner.toDrop, s.owner.k + 1))
    case FinishShrink => s.(freeList := s.owner.start, npages := s.npages - |s.owner.toDrop|, owner := Idle)
    case BeginClose => s.(owner := Closing(s.full))
    case CloseStep =>
      if s.owner.current.None? then s.(owner := Closed)
      else
        var p := s.owner.current.value;
        DropPage(s, p).(owner := Closing(s.next[p]))
  }

  // ---------------------------------------------------------------- steps of a dropper

  function Stop(s: State, t: ThreadId): State {
    s.(droppers := s.droppers - {t})
  }

  function Goto(s: State, t: ThreadId, d: Dropper): State {
    s.(droppers := s.droppers[t := d])
  }

  /** The `fetch_add` of drop_block: the block leaves `held`; the last block of a released page
      deallocates it. */
  function GiveBackStep(s: State, t: ThreadId, p: Addr, block: nat): State
    requires Known(s, p)
  {
    var s' := s.(held := s.held[p := s.held[p] - {block}]);
    if s'.held[p] == {} && p in s.released then s'.(deallocs := s.deallocs[p := s.deallocs[p] + 1])
    else Goto(s', t, LoadFlag(p))
  }

  /** The pending list has a strong reference: the arena's own, until it is gone, or one that a
      dropper has upgraded to and not let go yet. `Weak::upgrade` succeeds exactly then. */
  predicate PendingAlive(s: State) {
    !s.owner.Closed? ||
    exists t | t in s.droppers :: s.droppers[t].LoadHead? || s.droppers[t].StoreNext? || s.droppers[t].CasHead?
  }

  function DropStepOf(s: State, t: ThreadId): State
    requires t in s.droppers && Known(s, s.droppers[t].page)
  {
    match s.droppers[t]
    case LoadFlag(p) => if s.inFree[p] then Stop(s, t) else Goto(s, t, SwapFlag(p))
    case SwapFlag(p) =>
      var s' := s.(inFree := s.inFree[p := true]);
      if s.inFree[p] then Stop(s', t) else Goto(s', t, Upgrade(p))
    case Upgrade(p) => if PendingAlive(s) then Goto(s, t, LoadHead(p)) else Stop(s, t)
    case LoadHead(p) => Goto(s, t, StoreNext(p, s.pending))
    case StoreNext(p, head) => Goto(s.(nextFree := s.nextFree[p := head]), t, CasHead(p, head))
    case CasHead(p, head) =>
      if s.pending == head then Stop(s.(pending := Some(p)), t) else Goto(s, t, LoadHead(p))
  }

  function Apply(s: State, step: Step): State
    requires Enabled(s, step)
  {
    match step
    case Find(op) => FindStep(s, op)
    case Shrink(op) => ShrinkStep(s, op)
    case GiveBack(t, p, block) => GiveBackStep(s, t, p, block)
    case DropperStep(t) => DropStepOf(s, t)
  }

  /** Arena::with_capacity: n fresh pages, all on the free list. */
  ghost predicate Init(s: State) {
    exists news: seq<Addr> :: news != [] && NoDup(news) && s == Fresh(news)
  }

  function Fresh(news: seq<Addr>): State
    requires news != []
  {
    State(NewLinks(news, None), NewLinks(news, None), FillPages(news, true), FillPages(news, {}), {},
          FillPages(news, 0), Some(news[0]), None, Some(news[0]), |news|, Idle, map[])
  }
}
