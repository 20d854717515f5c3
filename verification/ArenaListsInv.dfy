/** The invariant of the Arena's lists: which list, hand or thread every page is with. */
module ArenaListsInv {
  import opened Options
  import opened Bitfield
  import opened Chains
  import opened ArenaLists

  /** What the link fields spell out: the free list, the pending list, the full list; and, while
      shrink_to_fit runs, those lists as it found them, the free pages that were already unused
      when it began, and how far its current loop has come. */
  datatype Lists = Lists(
    free: seq<Addr>, pending: seq<Addr>, full: seq<Addr>,
    free0: seq<Addr>, full0: seq<Addr>, unused0: set<Addr>, n: nat)

  // ---------------------------------------------------------------- the owner's position

  predicate Shrinking(o: Owner) {
    o.FreeLoop? || o.FullLoop? || o.DropCheck? || o.DropOne? || o.Finishing?
  }

  /** Arena::drop has begun. */
  predicate Ending(o: Owner) {
    o.Closing? || o.Closed?
  }

  /** The head of the free list, which shrink_to_fit keeps in a local cell. */
  function FreeHead(s: State): Option<Addr> {
    match s.owner
    case FreeLoop(c, _) => c.start
    case FullLoop(c, _) => c.start
    case DropCheck(start, _, _) => start
    case DropOne(start, _, _) => start
    case Finishing(start, _) => start
    case _ => s.freeList
  }

  /** The pages shrink_to_fit has taken off the free list. */
  function ToDrop(o: Owner): seq<Addr> {
    match o
    case FreeLoop(c, _) => c.toDrop
    case FullLoop(c, _) => c.toDrop
    case DropCheck(_, toDrop, _) => toDrop
    case DropOne(_, toDrop, _) => toDrop
    case Finishing(_, toDrop) => toDrop
    case _ => []
  }

  /** How many of them it has already let go. */
  function Dropped(o: Owner): nat {
    match o
    case DropCheck(_, _, k) => k
    case DropOne(_, _, k) => k
    case Finishing(_, toDrop) => |toDrop|
    case _ => 0
  }

  // ---------------------------------------------------------------- memory

  ghost predicate PageInv(s: State, p: Addr)
    requires Known(s, p)
  {
    s.held[p] <= Indices() &&
    s.deallocs[p] == if p in s.released && s.held[p] == {} then 1 else 0
  }

  ghost predicate MemInv(s: State) {
    && s.next.Keys == s.nextFree.Keys == s.inFree.Keys == s.held.Keys == s.deallocs.Keys
    && s.released <= s.next.Keys
    && (forall p | p in s.next :: Known(s, p) && PageInv(s, p))
    && (forall t | t in s.droppers :: s.droppers[t].page in s.next)
  }

  // ---------------------------------------------------------------- lists

  ghost predicate ListInv(s: State, g: Lists) {
    && Chain(s.nextFree, FreeHead(s), g.free)
    && Chain(s.nextFree, s.pending, g.pending)
    && Chain(s.next, s.full, g.full)
    && NoDup(g.free) && NoDup(g.pending) && NoDup(g.full)
    && (forall p | p in g.free :: p !in g.pending)
    && (Shrinking(s.owner) ==> s.freeList == None)
  }

  // ---------------------------------------------------------------- who has a page

  predicate Pushing(d: Dropper) {
    d.Upgrade? || d.LoadHead? || d.StoreNext? || d.CasHead?
  }

  /** Thread t is between winning the flag of p and publishing p on the pending list. */
  predicate Pushes(s: State, t: ThreadId, p: Addr) {
    t in s.droppers && Pushing(s.droppers[t]) && s.droppers[t].page == p
  }

  predicate Pushed(s: State, p: Addr) {
    exists t | t in s.droppers :: Pushes(s, t, p)
  }

  /** Listed pages, and pages the owner holds between two accesses. */
  predicate Placed(s: State, g: Lists, p: Addr) {
    p in g.free || p in g.pending || s.owner == Popped(p) || p in ToDrop(s.owner)
  }

  ghost predicate FlagInv(s: State, g: Lists, p: Addr)
    requires Known(s, p)
  {
    // The flag is set exactly for pages that are in a chain, being pushed, or in the owner's hands.
    && (Placed(s, g, p) || Pushed(s, p) ==> s.inFree[p])
    && (!s.owner.Closed? && p !in s.released && s.inFree[p] ==> Placed(s, g, p) || Pushed(s, p))
    // A page let go by shrink_to_fit keeps its flag, so nobody pushes it again.
    && (!Ending(s.owner) && p in s.released ==>
          s.inFree[p] && s.held[p] == {} && p !in g.free && p !in g.pending && s.owner != Popped(p) && !Pushed(s, p))
  }

  ghost predicate Flags(s: State, g: Lists) {
    forall p | p in s.next :: Known(s, p) && FlagInv(s, g, p)
  }

  /** A page being pushed is nowhere else, only one thread pushes it, and its link is the head
      that thread last read. */
  ghost predicate Pushers(s: State, g: Lists) {
    && (forall t, p | Pushes(s, t, p) :: !Placed(s, g, p))
    && (forall t, u, p | Pushes(s, t, p) && Pushes(s, u, p) :: t == u)
    && (forall t | t in s.droppers && s.droppers[t].CasHead? ::
          s.droppers[t].page in s.nextFree && s.nextFree[s.droppers[t].page] == s.droppers[t].head)
  }

  /** Pages in the owner's hands are off the lists. */
  ghost predicate Hands(s: State, g: Lists) {
    && (s.owner.Popped? ==> s.owner.page !in g.free && s.owner.page !in g.pending)
    && (forall p | p in ToDrop(s.owner) :: p !in g.free && p !in g.pending)
    && NoDup(ToDrop(s.owner))
  }

  // ---------------------------------------------------------------- the owner

  ghost predicate FullMembers(s: State, g: Lists) {
    match s.owner
    case FullLoop(_, _) =>
      (forall p | p in s.next :: p in g.full0 <==> p !in s.released) && s.npages == |g.full0|
    case DropCheck(_, _, _) => FullPlusToDrop(s, g)
    case DropOne(_, _, _) => FullPlusToDrop(s, g)
    case Finishing(_, _) => FullPlusToDrop(s, g)
    case Closing(_) => g.n <= |g.full| && (forall p | p in s.next :: p in g.full[g.n..] <==> p !in s.released)
    case Closed => (forall p | p in s.next :: p in s.released)
    case _ => (forall p | p in s.next :: p in g.full <==> p !in s.released) && s.npages == |g.full|
  }

  ghost predicate FullPlusToDrop(s: State, g: Lists) {
    Dropped(s.owner) <= |ToDrop(s.owner)| &&
    (forall p | p in s.next :: p in g.full || p in ToDrop(s.owner)[Dropped(s.owner)..] <==> p !in s.released) &&
    (forall p | p in g.full :: p !in ToDrop(s.owner)) &&
    s.npages == |g.full| + |ToDrop(s.owner)|
  }

  ghost predicate LocInv(at: Loc, before: seq<Addr>, n: nat, links: Links<Addr>) {
    match at
    case LoadCurrent => true
    case LoadNext(p) => n < |before| && p == before[n]
    case Test(p, next) => n < |before| && p == before[n] && p in links && next == links[p]
    case Swing(p, next) => n < |before| && p == before[n] && p in links && next == links[p]
  }

  /** What the first loop has achieved by position n: exactly the pages it found unused are off
      the free list, among them every one that was unused from the start. */
  ghost predicate ShrunkTo(s: State, g: Lists, n: nat) {
    n <= |g.free0| && NoDup(g.free0) && NoDup(g.full0) &&
    (forall p | p in g.free0 :: p in g.full0) &&
    ToDrop(s.owner) == Within(g.free0[..n], Elems(ToDrop(s.owner))) &&
    (forall p | p in g.unused0 || p in ToDrop(s.owner) :: p in s.held && s.held[p] == {}) &&
    (forall i: nat | i < n && g.free0[i] in g.unused0 :: g.free0[i] in ToDrop(s.owner))
  }

  ghost predicate OwnerInv(s: State, g: Lists) {
    match s.owner
    case Exhausted(p) => s.freeList == Some(p)
    case Popped(p) => p in s.next
    case SwapPending => s.freeList.None? && s.pending.Some?
    case ReadPending => s.freeList.None?
    case Growing => s.freeList.None?
    case FreeLoop(c, at) =>
      LoopInv(g.free0, g.free, Elems(c.toDrop), g.n, c.prev) && LocInv(at, g.free0, g.n, s.nextFree) &&
      ShrunkTo(s, g, g.n) && g.full == g.full0 && (at.Swing? ==> at.page in s.held && s.held[at.page] == {})
    case FullLoop(c, at) =>
      LoopInv(g.full0, g.full, Elems(c.toDrop), g.n, c.prev) && LocInv(at, g.full0, g.n, s.next) &&
      ShrunkTo(s, g, |g.free0|) && g.free == Without(g.free0, Elems(c.toDrop)) && (at.Swing? ==> at.page in c.toDrop)
    case DropCheck(_, toDrop, k) => ShrunkTo(s, g, |g.free0|) && Shrunk(s, g)
    case DropOne(_, toDrop, k) => ShrunkTo(s, g, |g.free0|) && Shrunk(s, g) && k < |toDrop|
    case Finishing(_, _) => ShrunkTo(s, g, |g.free0|) && Shrunk(s, g)
    case Closing(current) => g.n <= |g.full| && current == At(g.full, g.n)
    case Panicked => false
    case _ => true
  }

  /** Both lists are order-preserving filters of what they were. */
  ghost predicate Shrunk(s: State, g: Lists) {
    g.free == Without(g.free0, Elems(ToDrop(s.owner))) && g.full == Without(g.full0, Elems(ToDrop(s.owner)))
  }

  ghost predicate Inv(s: State, g: Lists) {
    MemInv(s) && ListInv(s, g) && Flags(s, g) && Pushers(s, g) && Hands(s, g) && FullMembers(s, g) && OwnerInv(s, g)
  }

  // ---------------------------------------------------------------- how the lists move

  /** The lists after a step: a function of the step and what it saw. */
  function Follow(s: State, g: Lists, step: Step): Lists {
    match step
    case Find(op) => FollowFind(s, g, op)
    case Shrink(op) => FollowShrink(s, g, op)
    case GiveBack(_, _, _) => g
    case DropperStep(t) => FollowDropper(s, g, t)
  }

  function FollowDropper(s: State, g: Lists, t: ThreadId): Lists {
    if t in s.droppers && s.droppers[t].CasHead? && s.pending == s.droppers[t].head
    then g.(pending := [s.droppers[t].page] + g.pending) else g
  }

  function FollowFind(s: State, g: Lists, op: FindOp): Lists {
    match op
    case Pop => if g.free == [] then g else g.(free := g.free[1..])
    case TakePending => g.(free := g.pending, pending := [])
    case Grow(news) => g.(free := news, full := news + g.full)
    case _ => g
  }

  function FollowShrink(s: State, g: Lists, op: ShrinkOp): Lists {
    match op
    case BeginShrink =>
      g.(free0 := g.free, full0 := g.full, n := 0, unused0 := set p | p in g.free && p in s.held && s.held[p] == {})
    case FreeStep =>
      if !s.owner.FreeLoop? then g else
      (match s.owner.at
       case LoadCurrent => if g.n < |g.free0| then g else g.(n := 0)
       case LoadNext(_) => g
       case Test(p, _) => if p in s.held && s.held[p] == {} then g else g.(n := g.n + 1)
       case Swing(_, _) => g.(free := Unlinked(g, g.free0, g.free, Elems(s.owner.cursor.toDrop)), n := g.n + 1))
    case FullStep =>
      if !s.owner.FullLoop? then g else
      (match s.owner.at
       case LoadCurrent => g
       case LoadNext(_) => g
       case Test(p, _) => if p in s.owner.cursor.toDrop then g else g.(n := g.n + 1)
       case Swing(_, _) => g.(full := Unlinked(g, g.full0, g.full, Elems(s.owner.cursor.toDrop)), n := g.n + 1))
    case BeginClose => g.(n := 0)
    case CloseStep => if s.owner.Closing? && s.owner.current.Some? then g.(n := g.n + 1) else g
    case _ => g
  }

  /** `now` without the page at position n of `before`. */
  function Unlinked(g: Lists, before: seq<Addr>, now: seq<Addr>, r: set<Addr>): seq<Addr> {
    if g.n < |before| && |Without(before[..g.n], r)| < |now| then Remove(now, |Without(before[..g.n], r)|) else now
  }
}
