/** The writer lock of a SharedArena (src/shared_arena.rs:55-246, src/shared_arena.rs:627-711):
    any number of threads in find_place and shrink_to_fit, interleaved one access at a time.

    What a thread reads from `next_free` and from a page's bitfield is arbitrary here: the thread
    chooses it, because a lock-free pop may install a stale link. Everything the source asserts
    holds all the same. */
module SharedLock {
  import opened Options
  import opened Chains
  import opened Growth

  type ThreadId = nat

  const WIDTH: nat := 0x1_0000_0000_0000_0000
  const DELAY_DROP_SHRINK: nat := 10

  /** Vectors of pages behind `to_free` are owned by whoever swaps them out. */
  datatype Mem = Mem(
    freeList: Option<Addr>,
    pending: Option<Addr>,
    full: Option<Addr>,
    next: Links<Addr>,
    npages: nat,
    writer: bool,
    shrinking: bool,
    toFree: Option<seq<Addr>>,
    delay: nat)

  /** The lock-free part of find_place. */
  datatype FindPc =
    | LoadFree
    | AcquireIn(page: Addr)
    | LoadNextFree(page: Addr)
    | CasFree(page: Addr, next: Option<Addr>)
    | TestLock
    | SwapLock
    | Recheck

  datatype DelayPc = LoadDelay | AddDelay | SwapToFree

  /** The part of find_place, and of take_pages_to_be_freed, that runs under the lock. */
  datatype RefillPc =
    | StillNull
    | LoadPending
    | SwapPending
    | StorePending(head: Option<Addr>)
    | LoadToFree
    | TakeToFree
    | Split(pages: seq<Addr>)
    | Relink(pages: seq<Addr>, rest: seq<Addr>, i: nat)     // make_list_from_slice
    | ReadCount
    | MakeList(n: nat)
    | StoreRest(rest: seq<Addr>)
    | SetDelay(delay: nat)
    | Unlock

  /** put_pages_in_lists. */
  datatype PutPc =
    | LoadFull
    | LinkLast(current: Option<Addr>)
    | SwapFull(current: Option<Addr>)
    | TestFree
    | SwapFree
    | AddCount

  /** The link cell the second loop of shrink_to_fit points at: the field of `prev`, or full_list. */
  datatype FullPc = LoadCurrent | LoadNext(page: Addr) | Compare(page: Addr, next: Option<Addr>) | Swing(page: Addr, next: Option<Addr>)

  datatype ShrinkPc =
    | TakeFree
    | Look(toDrop: seq<Addr>)
    | Retain(toDrop: seq<Addr>, start: Option<Addr>)
    | Full(toDrop: seq<Addr>, start: Option<Addr>, prev: Option<Addr>, at: FullPc)
    | ResetDelay(toDrop: seq<Addr>, start: Option<Addr>)
    | TakeOld(toDrop: seq<Addr>, start: Option<Addr>)
    | StoreToFree(pages: seq<Addr>, nfreed: nat, start: Option<Addr>)
    | Publish(start: Option<Addr>, nfreed: nat)
    | SubCount(nfreed: nat)
    | ClearShrinking
    | Release

  datatype Pc =
    | Find(find: FindPc)
    | Maybe(delay: DelayPc, held: bool)                     // maybe_free_pages, with or without the lock
    | Refill(refill: RefillPc)
    | Put(pages: seq<Addr>, rest: Option<seq<Addr>>, put: PutPc)
    | BeginShrink
    | LockShrink
    | Shrink(shrink: ShrinkPc)
    | Returned
    | Panicked

  /** What a thread reads where the model leaves memory out. */
  datatype Seen = Seen(yes: bool, link: Option<Addr>, page: Addr, pages: seq<Addr>, dropped: set<Addr>)

  datatype State = State(mem: Mem, threads: map<ThreadId, Pc>)

  datatype Step =
    | Call(t: ThreadId, shrink: bool)
    | Run(t: ThreadId, seen: Seen)
    | Push(page: Addr)                                      // a drop_block puts a page on the pending list

  function NextOf(m: Mem, p: Addr): Option<Addr> {
    if p in m.next then m.next[p] else None
  }

  // ---------------------------------------------------------------- one access

  function FindAccess(m: Mem, pc: FindPc, seen: Seen): (Mem, Pc) {
    match pc
    case LoadFree => (m, Find(if m.freeList.Some? then AcquireIn(m.freeList.value) else TestLock))
    case AcquireIn(p) => (m, if seen.yes then Returned else Find(LoadNextFree(p)))
    case LoadNextFree(p) => (m, Find(CasFree(p, seen.link)))
    case CasFree(p, next) => (if m.freeList == Some(p) then m.(freeList := next) else m, Find(LoadFree))
    case TestLock => (m, Find(if m.writer then Recheck else SwapLock))
    case SwapLock => (m.(writer := true), if m.writer then Find(Recheck) else Refill(StillNull))
    case Recheck => (m, if m.freeList.Some? then Maybe(LoadDelay, false) else Find(LoadFree))
  }

  function AfterDelay(held: bool): Pc {
    if held then Refill(Unlock) else Find(LoadFree)
  }

  function DelayAccess(m: Mem, pc: DelayPc, held: bool): (Mem, Pc) {
    match pc
    case LoadDelay => (m, if m.delay < DELAY_DROP_SHRINK then Maybe(AddDelay, held) else AfterDelay(held))
    case AddDelay =>
      (m.(delay := (m.delay + 1) % 0x1_0000),
       if m.delay == DELAY_DROP_SHRINK - 1 then Maybe(SwapToFree, held) else AfterDelay(held))
    case SwapToFree => (m.(toFree := None), AfterDelay(held))
  }

  function RefillAccess(m: Mem, pc: RefillPc, seen: Seen): (Mem, Pc) {
    match pc
    case StillNull => (m, Refill(if m.freeList.None? then LoadPending else Unlock))
    case LoadPending => (m, Refill(if m.pending.Some? then SwapPending else LoadToFree))
    case SwapPending => (m.(pending := None), Refill(StorePending(m.pending)))
    case StorePending(head) => (m.(freeList := head), if m.freeList.Some? then Panicked else Maybe(LoadDelay, true))
    case LoadToFree => (m, Refill(if m.toFree.Some? then TakeToFree else ReadCount))
    case TakeToFree => (m.(toFree := None), if m.toFree.Some? then Refill(Split(m.toFree.value)) else Refill(Unlock))
    case Split(pages) =>
      var cut := TruncateAt(|pages|, m.npages);
      (m, Refill(Relink(pages[cut..], pages[..cut], 0)))
    case Relink(pages, rest, i) =>
      if i < |pages| then (m.(next := m.next[pages[i] := At(pages, i + 1)]), Refill(Relink(pages, rest, i + 1)))
      else (m, if pages == [] then Panicked else Put(pages, Some(rest), LoadFull))
    case ReadCount => (m, Refill(MakeList(GrowthSize(m.npages))))
    case MakeList(n) =>
      // The allocator may hand out any n pages.
      if |seen.pages| == n && n > 0 then (m.(next := m.next + NewLinks(seen.pages, None)), Put(seen.pages, None, LoadFull))
      else (m, Refill(MakeList(n)))
    case StoreRest(rest) => (m.(toFree := Some(rest)), if m.toFree.Some? then Panicked else Refill(SetDelay(0)))
    case SetDelay(d) => (m.(delay := d), Refill(Unlock))
    case Unlock => (m.(writer := false), Find(LoadFree))
  }

  function AfterPut(rest: Option<seq<Addr>>): Pc {
    match rest
    case None => Refill(Unlock)
    case Some(pages) => Refill(if pages != [] then StoreRest(pages) else SetDelay(DELAY_DROP_SHRINK))
  }

  function PutAccess(m: Mem, pages: seq<Addr>, rest: Option<seq<Addr>>, pc: PutPc): (Mem, Pc)
    requires pages != []
  {
    match pc
    case LoadFull => (m, Put(pages, rest, LinkLast(m.full)))
    case LinkLast(current) => (m.(next := m.next[pages[|pages| - 1] := current]), Put(pages, rest, SwapFull(current)))
    case SwapFull(current) => (m.(full := Some(pages[0])), if m.full != current then Panicked else Put(pages, rest, TestFree))
    case TestFree => (m, if m.freeList.Some? then Panicked else Put(pages, rest, SwapFree))
    case SwapFree => (m.(freeList := Some(pages[0])), if m.freeList.Some? then Panicked else Put(pages, rest, AddCount))
    case AddCount => (m.(npages := (m.npages + |pages|) % WIDTH), AfterPut(rest))
  }

  function CellOf(m: Mem, prev: Option<Addr>): Option<Addr> {
    if prev.None? then m.full else NextOf(m, prev.value)
  }

  function FullAccess(m: Mem, toDrop: seq<Addr>, start: Option<Addr>, prev: Option<Addr>, at: FullPc): (Mem, Pc) {
    match at
    case LoadCurrent =>
      var current := CellOf(m, prev);
      (m, if current.Some? then Shrink(Full(toDrop, start, prev, LoadNext(current.value)))
          else if toDrop != [] then Shrink(ResetDelay(toDrop, start))
          else Shrink(Publish(start, 0)))
    case LoadNext(p) => (m, Shrink(Full(toDrop, start, prev, Compare(p, NextOf(m, p)))))
    case Compare(p, next) =>
      (m, Shrink(if p in toDrop then Full(toDrop, start, prev, Swing(p, next)) else Full(toDrop, start, Some(p), LoadCurrent)))
    case Swing(p, next) =>
      if CellOf(m, prev) != Some(p) then (m, Panicked)
      else (if prev.None? then m.(full := next) else m.(next := m.next[prev.value := next]),
            Shrink(Full(toDrop, start, prev, LoadCurrent)))
  }

  function ShrinkAccess(m: Mem, pc: ShrinkPc, seen: Seen): (Mem, Pc) {
    match pc
    case TakeFree => (m.(freeList := None), Shrink(Look([])))
    // The first loop looks at arbitrary pages, takes some, and leaves an arbitrary list.
    case Look(toDrop) => (m, Shrink(if seen.yes then Look(toDrop + [seen.page]) else Retain(toDrop, seen.link)))
    case Retain(toDrop, start) => (m, Shrink(Full(Without(toDrop, seen.dropped), start, None, LoadCurrent)))
    case Full(toDrop, start, prev, at) => FullAccess(m, toDrop, start, prev, at)
    case ResetDelay(toDrop, start) => (m.(delay := 0), Shrink(TakeOld(toDrop, start)))
    case TakeOld(toDrop, start) =>
      (m.(toFree := None),
       Shrink(StoreToFree(if m.toFree.Some? then m.toFree.value + toDrop else toDrop, |toDrop|, start)))
    case StoreToFree(pages, nfreed, start) =>
      (m.(toFree := Some(pages)), if m.toFree.Some? then Panicked else Shrink(Publish(start, nfreed)))
    case Publish(start, nfreed) => (m.(freeList := start), if m.freeList.Some? then Panicked else Shrink(SubCount(nfreed)))
    case SubCount(nfreed) => (m.(npages := (m.npages - nfreed) % WIDTH), Shrink(ClearShrinking))
    case ClearShrinking => (m.(shrinking := false), Shrink(Release))
    case Release => (m.(writer := false), Returned)
  }

  predicate Formed(pc: Pc) {
    pc.Put? ==> pc.pages != []
  }

  function Access(m: Mem, pc: Pc, seen: Seen): (Mem, Pc)
    requires Formed(pc)
  {
    match pc
    case Find(at) => FindAccess(m, at, seen)
    case Maybe(at, held) => DelayAccess(m, at, held)
    case Refill(at) => RefillAccess(m, at, seen)
    case Put(pages, rest, at) => PutAccess(m, pages, rest, at)
    case BeginShrink => (m.(shrinking := true), if m.shrinking then Returned else LockShrink)
    case LockShrink => (m.(writer := true), if m.writer then LockShrink else Shrink(TakeFree))
    case Shrink(at) => ShrinkAccess(m, at, seen)
    case Returned => (m, Returned)
    case Panicked => (m, Panicked)
  }

  predicate Enabled(s: State, step: Step) {
    match step
    case Call(t, _) => t !in s.threads || s.threads[t].Returned?
    case Run(t, _) => t in s.threads && Formed(s.threads[t])
    case Push(_) => true
  }

  function Apply(s: State, step: Step): State
    requires Enabled(s, step)
  {
    match step
    case Call(t, shrink) => s.(threads := s.threads[t := if shrink then BeginShrink else Find(LoadFree)])
    case Run(t, seen) =>
      var r := Access(s.mem, s.threads[t], seen);
      State(r.0, s.threads[t := r.1])
    case Push(p) => s.(mem := s.mem.(pending := Some(p)))
  }

  /** SharedArena::with_capacity. */
  predicate Init(s: State) {
    s.threads == map[] && !s.mem.writer && !s.mem.shrinking && s.mem.toFree.None? && s.mem.delay == DELAY_DROP_SHRINK &&
    s.mem.freeList.Some? && s.mem.full == s.mem.freeList && s.mem.pending.None?
  }

  // ---------------------------------------------------------------- the invariant

  /** The thread has the writer lock. */
  predicate Holds(pc: Pc) {
    pc.Refill? || pc.Put? || pc.Shrink? || (pc.Maybe? && pc.held)
  }

  /** The thread has set the `shrinking` flag. */
  predicate Shrinks(pc: Pc) {
    pc.LockShrink? || (pc.Shrink? && !pc.shrink.Release?)
  }

  /** Positions whose thread relies on free_list being null. */
  predicate NeedsNullFree(pc: Pc) {
    match pc
    case Refill(at) => !(at.StillNull? || at.StoreRest? || at.SetDelay? || at.Unlock?)
    case Put(_, _, at) => !at.AddCount?
    case Shrink(at) => !(at.TakeFree? || at.SubCount? || at.ClearShrinking? || at.Release?)
    case _ => false
  }

  /** Positions whose thread relies on to_free being null. */
  predicate NeedsNullToFree(pc: Pc) {
    match pc
    case Refill(at) => at.Split? || at.Relink? || at.StoreRest?
    case Put(_, rest, _) => rest.Some?
    case Shrink(at) => at.StoreToFree?
    case _ => false
  }

  predicate FullLocal(m: Mem, prev: Option<Addr>, at: FullPc) {
    at.LoadCurrent? || CellOf(m, prev) == Some(at.page)
  }

  /** Vectors in flight are not empty, and what the lock holder last read from the full list is
      still there. */
  predicate Details(m: Mem, pc: Pc) {
    match pc
    case Refill(at) =>
      (at.SwapPending? ==> m.pending.Some?) &&
      (at.Split? || at.Relink? ==> at.pages != []) && (at.StoreRest? ==> at.rest != []) && (at.MakeList? ==> at.n > 0)
    case Put(pages, rest, at) => pages != [] && (at.LinkLast? || at.SwapFull? ==> m.full == at.current)
    case Shrink(at) =>
      (at.ResetDelay? || at.TakeOld? ==> at.toDrop != []) && (at.StoreToFree? ==> at.pages != []) &&
      (at.Full? ==> FullLocal(m, at.prev, at.at))
    case Panicked => false
    case _ => true
  }

  predicate Local(m: Mem, pc: Pc) {
    (NeedsNullFree(pc) ==> m.freeList.None?) && (NeedsNullToFree(pc) ==> m.toFree.None?) && Details(m, pc)
  }

  predicate MemInv(m: Mem) {
    m.toFree.Some? ==> m.toFree.value != []
  }

  ghost predicate Inv(s: State) {
    && MemInv(s.mem)
    && (forall t | t in s.threads :: Local(s.mem, s.threads[t]))
    && (s.mem.writer <==> exists t :: t in s.threads && Holds(s.threads[t]))
    && (forall t, u | t in s.threads && u in s.threads && Holds(s.threads[t]) && Holds(s.threads[u]) :: t == u)
    && (s.mem.shrinking <==> exists t :: t in s.threads && Shrinks(s.threads[t]))
    && (forall t, u | t in s.threads && u in s.threads && Shrinks(s.threads[t]) && Shrinks(s.threads[u]) :: t == u)
  }

  // ---------------------------------------------------------------- what one access does

  /** All that an access without the lock can do to memory the lock protects. */
  predicate Quiet(m: Mem, m': Mem) {
    m'.full == m.full && m'.next == m.next && m'.npages == m.npages &&
    (m.freeList.None? ==> m'.freeList.None?) && (m'.toFree == m.toFree || m'.toFree.None?) &&
    (m.pending.Some? ==> m'.pending.Some?)
  }

  lemma QuietWithoutLock(m: Mem, pc: Pc, seen: Seen)
    requires !Holds(pc)
    ensures Quiet(m, Access(m, pc, seen).0)
  {
  }

  lemma RefillLocal(m: Mem, pc: RefillPc, seen: Seen)
    requires MemInv(m) && Local(m, Refill(pc))
    ensures var r := RefillAccess(m, pc, seen); MemInv(r.0) && Local(r.0, r.1)
  {
    if pc.Split? {
      CutIsProper(|pc.pages|, m.npages);
    }
  }

  lemma PutLocal(m: Mem, pages: seq<Addr>, rest: Option<seq<Addr>>, pc: PutPc)
    requires MemInv(m) && Local(m, Put(pages, rest, pc))
    ensures var r := PutAccess(m, pages, rest, pc); MemInv(r.0) && Local(r.0, r.1)
  {
  }

  lemma ShrinkLocal(m: Mem, pc: ShrinkPc, seen: Seen)
    requires MemInv(m) && Local(m, Shrink(pc))
    ensures var r := ShrinkAccess(m, pc, seen); MemInv(r.0) && Local(r.0, r.1)
  {
  }

  /** A thread alone keeps its own knowledge, so it never panics. */
  lemma AccessLocal(m: Mem, pc: Pc, seen: Seen)
    requires MemInv(m) && Local(m, pc)
    ensures var r := Access(m, pc, seen); MemInv(r.0) && Local(r.0, r.1)
  {
    hide FindAccess, DelayAccess, RefillAccess, PutAccess, ShrinkAccess;
    match pc
    case Refill(at) => RefillLocal(m, at, seen);
    case Put(pages, rest, at) => PutLocal(m, pages, rest, at);
    case Shrink(at) => ShrinkLocal(m, at, seen);
    case Find(at) => FindLocal(m, at, seen);
    case Maybe(at, held) => DelayLocal(m, at, held);
    case _ =>
  }

  lemma FindLocal(m: Mem, pc: FindPc, seen: Seen)
    requires MemInv(m)
    ensures var r := FindAccess(m, pc, seen); MemInv(r.0) && Local(r.0, r.1)
  {
  }

  lemma DelayLocal(m: Mem, pc: DelayPc, held: bool)
    requires MemInv(m)
    ensures var r := DelayAccess(m, pc, held); MemInv(r.0) && Local(r.0, r.1)
  {
  }

  /** Others cannot spoil what the lock holder knows. */
  lemma QuietKeepsLocal(m: Mem, m': Mem, pc: Pc)
    requires Local(m, pc) && Quiet(m, m')
    ensures Local(m', pc)
  {
  }

  /** What a thread without the lock knows does not depend on memory. */
  lemma LocalWithoutLock(m: Mem, m': Mem, pc: Pc)
    requires Local(m, pc) && !Holds(pc)
    ensures Local(m', pc)
  {
  }

  /** The lock and the flag move with the thread that takes or leaves them. */
  predicate LocksMove(m: Mem, pc: Pc, m': Mem, pc': Pc) {
    (if Holds(pc) == Holds(pc') then m'.writer == m.writer
     else if Holds(pc) then !m'.writer
     else !m.writer && m'.writer) &&
    (if Shrinks(pc) == Shrinks(pc') then m'.shrinking == m.shrinking
     else if Shrinks(pc) then !m'.shrinking
     else !m.shrinking && m'.shrinking)
  }

  lemma AccessLocks(m: Mem, pc: Pc, seen: Seen)
    requires Local(m, pc)
    ensures var r := Access(m, pc, seen); LocksMove(m, pc, r.0, r.1)
  {
    hide FindAccess, DelayAccess, RefillAccess, PutAccess, ShrinkAccess;
    match pc
    case Find(at) => FindLocks(m, at, seen);
    case Maybe(at, held) => DelayLocks(m, at, held);
    case Refill(at) => RefillLocks(m, at, seen);
    case Put(pages, rest, at) => PutLocks(m, pages, rest, at);
    case Shrink(at) => ShrinkLocks(m, at, seen);
    case _ =>
  }

  lemma FindLocks(m: Mem, pc: FindPc, seen: Seen)
    ensures var r := FindAccess(m, pc, seen); LocksMove(m, Find(pc), r.0, r.1)
  {
  }

  lemma DelayLocks(m: Mem, pc: DelayPc, held: bool)
    ensures var r := DelayAccess(m, pc, held); LocksMove(m, Maybe(pc, held), r.0, r.1)
  {
  }

  lemma RefillLocks(m: Mem, pc: RefillPc, seen: Seen)
    requires Local(m, Refill(pc))
    ensures var r := RefillAccess(m, pc, seen); LocksMove(m, Refill(pc), r.0, r.1)
  {
  }

  lemma PutLocks(m: Mem, pages: seq<Addr>, rest: Option<seq<Addr>>, pc: PutPc)
    requires Local(m, Put(pages, rest, pc))
    ensures var r := PutAccess(m, pages, rest, pc); LocksMove(m, Put(pages, rest, pc), r.0, r.1)
  {
  }

  lemma ShrinkLocks(m: Mem, pc: ShrinkPc, seen: Seen)
    requires Local(m, Shrink(pc))
    ensures var r := ShrinkAccess(m, pc, seen); LocksMove(m, Shrink(pc), r.0, r.1)
  {
  }

  // ---------------------------------------------------------------- every run

  lemma InitInv(s: State)
    requires Init(s)
    ensures Inv(s)
  {
  }

  lemma StartLocal(m: Mem)
    ensures forall pc: Pc | pc == Find(LoadFree) || pc.BeginShrink? :: Local(m, pc)
    ensures forall pc: Pc | pc == Find(LoadFree) || pc.BeginShrink? || pc.Returned? :: !Holds(pc) && !Shrinks(pc)
  {
  }

  lemma CallKeepsInv(s: State, t: ThreadId, shrink: bool)
    requires Inv(s) && Enabled(s, Call(t, shrink))
    ensures Inv(Apply(s, Call(t, shrink)))
  {
    hide Local, Holds, Shrinks, MemInv;
    StartLocal(s.mem);
    var s' := Apply(s, Call(t, shrink));
    assert forall u | u in s'.threads :: u == t || (u in s.threads && s'.threads[u] == s.threads[u]);
    assert forall u | u in s.threads && (Holds(s.threads[u]) || Shrinks(s.threads[u])) :: u in s'.threads && s'.threads[u] == s.threads[u];
  }

  lemma PushKeepsInv(s: State, p: Addr)
    requires Inv(s)
    ensures Inv(Apply(s, Push(p)))
  {
    forall t | t in s.threads
      ensures Local(Apply(s, Push(p)).mem, s.threads[t])
    {
      QuietKeepsLocal(s.mem, Apply(s, Push(p)).mem, s.threads[t]);
    }
  }

  /** After an access of thread t every thread still knows what it relies on: the others either
      do not hold the lock, or t does not. */
  lemma RunKeepsLocal(s: State, t: ThreadId, seen: Seen)
    requires Inv(s) && Enabled(s, Run(t, seen))
    ensures var s' := Apply(s, Run(t, seen));
            MemInv(s'.mem) && forall u | u in s'.threads :: Local(s'.mem, s'.threads[u])
  {
    hide Access, Local, Quiet, MemInv;
    var s' := Apply(s, Run(t, seen));
    AccessLocal(s.mem, s.threads[t], seen);
    forall u | u in s'.threads
      ensures Local(s'.mem, s'.threads[u])
    {
      if u != t {
        if Holds(s.threads[u]) {
          QuietWithoutLock(s.mem, s.threads[t], seen);
          QuietKeepsLocal(s.mem, s'.mem, s.threads[u]);
        } else {
          LocalWithoutLock(s.mem, s'.mem, s.threads[u]);
        }
      }
    }
  }

  lemma RunKeepsInv(s: State, t: ThreadId, seen: Seen)
    requires Inv(s) && Enabled(s, Run(t, seen))
    ensures Inv(Apply(s, Run(t, seen)))
  {
    hide Access, Local, MemInv, Holds, Shrinks;
    var s' := Apply(s, Run(t, seen));
    RunKeepsLocal(s, t, seen);
    AccessLocks(s.mem, s.threads[t], seen);
    assert forall u | u in s'.threads && u != t :: u in s.threads && s'.threads[u] == s.threads[u];
    assert forall u | u in s.threads && u != t :: u in s'.threads && s'.threads[u] == s.threads[u];
    assert t in s'.threads;
  }

  ghost predicate Next(s: State, s': State) {
    exists step :: Enabled(s, step) && s' == Apply(s, step)
  }

  ghost predicate ReachableIn(s: State, n: nat)
    decreases n
  {
    if n == 0 then Init(s) else exists s0 :: ReachableIn(s0, n - 1) && Next(s0, s)
  }

  ghost predicate Reachable(s: State) {
    exists n: nat :: ReachableIn(s, n)
  }

  lemma {:induction false} ReachableInInv(s: State, n: nat)
    requires ReachableIn(s, n)
    ensures Inv(s)
    decreases n
  {
    hide Inv, Apply, Enabled;
    if n == 0 {
      InitInv(s);
    } else {
      var s0 :| ReachableIn(s0, n - 1) && Next(s0, s);
      ReachableInInv(s0, n - 1);
      var step :| Enabled(s0, step) && s == Apply(s0, step);
      StepKeepsInv(s0, step);
    }
  }

  lemma StepKeepsInv(s: State, step: Step)
    requires Inv(s) && Enabled(s, step)
    ensures Inv(Apply(s, step))
  {
    hide Inv, Access;
    match step
    case Call(t, shrink) => CallKeepsInv(s, t, shrink);
    case Run(t, seen) => RunKeepsInv(s, t, seen);
    case Push(p) => PushKeepsInv(s, p);
  }

  lemma ReachableInv(s: State)
    requires Reachable(s)
    ensures Inv(s)
  {
    var n: nat :| ReachableIn(s, n);
    ReachableInInv(s, n);
  }

  /** In no run does an assertion, `unwrap` or `expect` of the source fire, whatever values the
      threads read from `next_free` and from the bitfields. */
  lemma NothingPanics(s: State)
    requires Reachable(s)
    ensures forall t | t in s.threads :: !s.threads[t].Panicked? && Formed(s.threads[t])
  {
    ReachableInv(s);
    forall t | t in s.threads
      ensures !s.threads[t].Panicked? && Formed(s.threads[t])
    {
      assert Local(s.mem, s.threads[t]);
    }
  }

  /** The writer flag is a lock, and at most one thread is inside shrink_to_fit. */
  lemma OneWriterOneShrinker(s: State)
    requires Reachable(s)
    ensures forall t, u | t in s.threads && u in s.threads && Holds(s.threads[t]) && Holds(s.threads[u]) :: t == u
    ensures s.mem.writer <==> exists t :: t in s.threads && Holds(s.threads[t])
    ensures forall t, u | t in s.threads && u in s.threads && Shrinks(s.threads[t]) && Shrinks(s.threads[u]) :: t == u
  {
    ReachableInv(s);
  }

  /** Only the lock holder ends a spell of a null free_list, changes the full list, its links or
      npages, or makes to_free non-null; and a vector behind to_free is never empty. */
  lemma OnlyTheHolder(s: State, step: Step)
    requires Reachable(s) && Enabled(s, step)
    ensures var m, m' := s.mem, Apply(s, step).mem;
            (m.freeList.None? && m'.freeList.Some?) || m'.full != m.full || m'.next != m.next || m'.npages != m.npages ||
            (m'.toFree.Some? && m'.toFree != m.toFree) || (m.pending.Some? && m'.pending.None?)
            ==> step.Run? && Holds(s.threads[step.t]) && m.writer
    ensures s.mem.toFree.Some? ==> s.mem.toFree.value != []
  {
    hide Access;
    ReachableInv(s);
    if step.Run? && !Holds(s.threads[step.t]) {
      QuietWithoutLock(s.mem, s.threads[step.t], step.seen);
    }
  }

  /** While a refill or a shrink is between its first and last access to free_list, the list
      stays null for everybody. */
  lemma NullStaysNull(s: State, t: ThreadId, u: ThreadId, seen: Seen)
    requires Reachable(s) && t in s.threads && NeedsNullFree(s.threads[t]) && u != t && Enabled(s, Run(u, seen))
    ensures s.mem.freeList.None? && Apply(s, Run(u, seen)).mem.freeList.None?
  {
    hide Access;
    ReachableInv(s);
    assert Local(s.mem, s.threads[t]);
    assert Holds(s.threads[t]) && !Holds(s.threads[u]);
    QuietWithoutLock(s.mem, s.threads[u], seen);
  }
}
