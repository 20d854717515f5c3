/** An Arena as a whole: the list protocol of ArenaLists run together with the words of ArenaPage,
    one per page (src/page/arena.rs:124-210, src/arena.rs:46-102, src/arena.rs:465-523). The accesses
    of acquire_free_block, of drop_block and of drop_page to a page's words interleave with the
    accesses to the lists, and every test reads words. The system simulates ArenaLists access by
    access (ArenaWholeRuns). */
module ArenaWhole {
  import opened Options
  import opened Bitfield
  import opened Chains
  import L = ArenaLists
  import P = ArenaPage
  import R = ArenaRuns

  type ThreadId = nat

  /** Of `lists`, the fields `held`, `released` and `deallocs` are not used: the pages' words and
      their own counts are the truth. */
  datatype Whole = Whole(lists: L.State, pages: map<Addr, P.State>)

  datatype Move =
    | OnLists(access: L.Step)                           // an access that looks at no word
    | InPage(wordAccess: P.Step)                        // the owner inside acquire_free_block
    | Test                                              // shrink_to_fit: is the page unused?
    | Check                                             // its assertion, the same question
    | LetGo                                             // drop_page, in shrink_to_fit or Arena::drop
    | OwnerFrees(page: Addr)
    | BeginDrop(t: ThreadId, page: Addr, block: nat)
    | FetchAdd(t: ThreadId, page: Addr)
    | Frees(t: ThreadId, page: Addr)

  // ---------------------------------------------------------------- what the lists see

  /** How often the page has been deallocated, counting who is about to do it. */
  function Deallocs(p: P.State): nat {
    p.deallocs + |P.Freeers(p.droppers)| + if p.owner.Freeing? then 1 else 0
  }

  function HeldOf(pages: map<Addr, P.State>): map<Addr, set<nat>> {
    map p | p in pages :: P.Out(pages[p])
  }

  function ReleasedOf(pages: map<Addr, P.State>): set<Addr> {
    set p | p in pages && !P.Owned(pages[p])
  }

  function DeallocsOf(pages: map<Addr, P.State>): map<Addr, nat> {
    map p | p in pages :: Deallocs(pages[p])
  }

  /** The state of ArenaLists that a whole arena stands for. */
  function Abs(w: Whole): L.State {
    w.lists.(held := HeldOf(w.pages), released := ReleasedOf(w.pages), deallocs := DeallocsOf(w.pages))
  }

  /** The part of a list state that is kept. */
  function Bare(s: L.State): L.State {
    s.(held := map[], released := {}, deallocs := map[])
  }

  // ---------------------------------------------------------------- the accesses

  /** Accesses to the lists that look at no word. */
  predicate Blind(s: L.State, step: L.Step) {
    match step
    case Find(op) => !op.Acquire? && !op.AcquireFails?
    case Shrink(op) =>
      !(op.FreeStep? && s.owner.FreeLoop? && s.owner.at.Test?) && !op.CheckStep? && !op.DropStep? &&
      !(op.CloseStep? && s.owner.Closing? && s.owner.current.Some?)
    case GiveBack(_, _, _) => false
    case DropperStep(_) => true
  }

  /** The page the owner searches. */
  predicate Searching(w: Whole) {
    w.lists.owner.Scan? && w.lists.freeList.Some? && w.lists.freeList.value in w.pages
  }

  predicate OwnersAccess(step: P.Step) {
    step.BeginAcquire? || step.ReadPrivate? || step.LoadAtomic? || step.SwapAtomic?
  }

  /** The page drop_page is called on. */
  function Leaving(owner: L.Owner): Option<Addr> {
    match owner
    case DropOne(_, toDrop, k) => At(toDrop, k)
    case Closing(current) => current
    case _ => None
  }

  /** The thread is inside an operation on some page or on the lists. */
  predicate Busy(w: Whole, t: ThreadId) {
    t in w.lists.droppers || exists p | p in w.pages :: t in w.pages[p].droppers
  }

  ghost predicate Enabled(w: Whole, move: Move) {
    match move
    case OnLists(step) => Blind(w.lists, step) && L.Enabled(Abs(w), step)
    case InPage(step) => Searching(w) && OwnersAccess(step) && P.Enabled(w.pages[w.lists.freeList.value], step)
    case Test => w.lists.owner.FreeLoop? && w.lists.owner.at.Test? && w.lists.owner.at.page in w.pages && L.OwnerTouches(Abs(w))
    case Check =>
      w.lists.owner.DropCheck? && L.OwnerTouches(Abs(w)) &&
      (w.lists.owner.k < |w.lists.owner.toDrop| ==> w.lists.owner.toDrop[w.lists.owner.k] in w.pages)
    case LetGo =>
      L.OwnerTouches(Abs(w)) && Leaving(w.lists.owner).Some? && Leaving(w.lists.owner).value in w.pages && Leaving(w.lists.owner).value in w.lists.next &&
      P.Enabled(w.pages[Leaving(w.lists.owner).value], P.DropPage)
    case OwnerFrees(p) => p in w.pages && P.Enabled(w.pages[p], P.OwnerDeallocate)
    case BeginDrop(t, p, i) => p in w.pages && !Busy(w, t) && P.Enabled(w.pages[p], P.BeginDrop(t, i))
    case FetchAdd(t, p) => p in w.pages && P.Enabled(w.pages[p], P.FetchAdd(t))
    case Frees(t, p) => p in w.pages && P.Enabled(w.pages[p], P.Deallocate(t))
  }

  /** New pages have all their blocks in the private word. */
  function NewPages(step: L.Step): map<Addr, P.State> {
    if step.Find? && step.find.Grow? then map p | p in step.find.news :: FreshPage() else map[]
  }

  function FreshPage(): P.State {
    P.State(ALL_ONES, 0, P.Idle, {}, map[], 0)
  }

  function Turn(w: Whole, p: Addr, step: P.Step): map<Addr, P.State>
    requires p in w.pages && P.Enabled(w.pages[p], step)
  {
    w.pages[p := P.Apply(w.pages[p], step)]
  }

  function SearchTurn(w: Whole, step: P.Step): Whole
    requires Searching(w) && OwnersAccess(step) && P.Enabled(w.pages[w.lists.freeList.value], step)
  {
    var p := w.lists.freeList.value;
    var page := P.Apply(w.pages[p], step);
    // Back from acquire_free_block: with a block after a read, without one after a load.
    var owner := if !page.owner.Idle? then w.lists.owner else if step.ReadPrivate? then L.Idle else L.Exhausted(p);
    Whole(w.lists.(owner := owner), w.pages[p := page])
  }

  /** shrink_to_fit reads both words of the page. */
  predicate FindsUnused(w: Whole, p: Addr) {
    p in w.pages && LooksUnused(w.pages[p].priv, w.pages[p].atom)
  }

  function TestTurn(w: Whole): L.State
    requires w.lists.owner.FreeLoop? && w.lists.owner.at.Test?
  {
    var c, p, next := w.lists.owner.cursor, w.lists.owner.at.page, w.lists.owner.at.next;
    w.lists.(owner := if FindsUnused(w, p) then L.FreeLoop(c, L.Swing(p, next)) else L.FreeLoop(c.(prev := Some(p)), L.LoadCurrent))
  }

  function CheckTurn(w: Whole): L.State
    requires w.lists.owner.DropCheck?
  {
    var start, toDrop, k := w.lists.owner.start, w.lists.owner.toDrop, w.lists.owner.k;
    w.lists.(owner :=
      if k == |toDrop| then L.Finishing(start, toDrop)
      else if k < |toDrop| && FindsUnused(w, toDrop[k]) then L.DropOne(start, toDrop, k)
      else L.Panicked)
  }

  function LeaveTurn(s: L.State, p: Addr): L.State
    requires p in s.next
  {
    match s.owner
    case DropOne(start, toDrop, k) => s.(owner := L.DropCheck(start, toDrop, k + 1))
    case _ => s.(owner := L.Closing(s.next[p]))
  }

  ghost function Apply(w: Whole, move: Move): Whole
    requires Enabled(w, move)
  {
    match move
    case OnLists(step) => Whole(Bare(L.Apply(Abs(w), step)), w.pages + NewPages(step))
    case InPage(step) => SearchTurn(w, step)
    case Test => w.(lists := TestTurn(w))
    case Check => w.(lists := CheckTurn(w))
    case LetGo =>
      var p := Leaving(w.lists.owner).value;
      Whole(LeaveTurn(w.lists, p), Turn(w, p, P.DropPage))
    case OwnerFrees(p) => w.(pages := Turn(w, p, P.OwnerDeallocate))
    case BeginDrop(t, p, i) => w.(pages := Turn(w, p, P.BeginDrop(t, i)))
    case FetchAdd(t, p) =>
      var pages := Turn(w, p, P.FetchAdd(t));
      Whole(if t in pages[p].droppers then w.lists else w.lists.(droppers := w.lists.droppers[t := L.LoadFlag(p)]), pages)
    case Frees(t, p) => w.(pages := Turn(w, p, P.Deallocate(t)))
  }

  /** Arena::with_capacity. */
  ghost predicate Init(w: Whole) {
    exists news: seq<Addr> :: news != [] && NoDup(news) && w == Whole(Bare(L.Fresh(news)), map p | p in news :: FreshPage())
  }

  // ---------------------------------------------------------------- accesses that look at no word

  /** The states agree on everything but what the words stand for. */
  predicate Agree(a: L.State, b: L.State) {
    a.nextFree == b.nextFree && a.next == b.next && a.inFree == b.inFree && a.freeList == b.freeList && a.pending == b.pending &&
    a.full == b.full && a.npages == b.npages && a.owner == b.owner && a.droppers == b.droppers
  }

  predicate Grows(step: L.Step) {
    step.Find? && step.find.Grow?
  }

  /** OnLists accesses do not depend on the fields the words stand for, so a whole arena may leave
      those fields unused. */
  lemma BlindIgnores(a: L.State, b: L.State, step: L.Step)
    requires Agree(a, b) && Blind(a, step) && L.Enabled(a, step) && L.Enabled(b, step)
    ensures Agree(L.Apply(a, step), L.Apply(b, step))
  {
    hide L.FindStep, L.ShrinkStep, L.DropStepOf;
    match step
    case Find(op) => BlindFind(a, b, op);
    case Shrink(op) => BlindShrink(a, b, op);
    case DropperStep(t) => BlindDropper(a, b, t);
  }

  lemma BlindFind(a: L.State, b: L.State, op: L.FindOp)
    requires Agree(a, b) && Blind(a, L.Find(op)) && L.Enabled(a, L.Find(op)) && L.Enabled(b, L.Find(op))
    ensures Agree(L.FindStep(a, op), L.FindStep(b, op))
  {
    hide NewLinks, L.FillPages, L.FindEnabled, L.OwnerTouches, Blind;
    match op
    case FindPlace =>
    case Acquire(_) =>
    case AcquireFails =>
    case Pop =>
    case ClearFlag =>
    case ScanEnds =>
    case LoadPending =>
    case TakePending =>
    case Grow(_) => GrowAgrees(a, b, op);
  }

  lemma GrowAgrees(a: L.State, b: L.State, op: L.FindOp)
    requires Agree(a, b) && op.Grow? && L.Enabled(a, L.Find(op)) && L.Enabled(b, L.Find(op))
    ensures Agree(L.FindStep(a, op), L.FindStep(b, op))
  {
    hide NewLinks, L.FillPages, L.FindEnabled, L.OwnerTouches;
  }

  lemma BlindDropper(a: L.State, b: L.State, t: ThreadId)
    requires Agree(a, b) && L.Enabled(a, L.DropperStep(t)) && L.Enabled(b, L.DropperStep(t))
    ensures Agree(L.DropStepOf(a, t), L.DropStepOf(b, t))
  {
    hide L.PendingAlive, L.DropStepOf, DropperReads;
    PendingAgrees(a, b);
    DropperForm(a, t);
    DropperForm(b, t);
  }

  /** A dropper's next position, if it goes on, and what it writes to `in_free_list`, its link and
      the pending list. */
  datatype Access = Access(goes: Option<L.Dropper>, flag: bool, link: Option<Option<Addr>>, pending: Option<Addr>)

  function DropperReads(d: L.Dropper, flag: bool, pending: Option<Addr>, alive: bool): Access {
    match d
    case LoadFlag(p) => Access(if flag then None else Some(L.SwapFlag(p)), flag, None, pending)
    case SwapFlag(p) => Access(if flag then None else Some(L.Upgrade(p)), true, None, pending)
    case Upgrade(p) => Access(if alive then Some(L.LoadHead(p)) else None, flag, None, pending)
    case LoadHead(p) => Access(Some(L.StoreNext(p, pending)), flag, None, pending)
    case StoreNext(p, head) => Access(Some(L.CasHead(p, head)), flag, Some(head), pending)
    case CasHead(p, head) =>
      if pending == head then Access(None, flag, None, Some(p)) else Access(Some(L.LoadHead(p)), flag, None, pending)
  }

  lemma DropperForm(s: L.State, t: ThreadId)
    requires L.Enabled(s, L.DropperStep(t))
    ensures var p := s.droppers[t].page;
            var s', r := L.DropStepOf(s, t), DropperReads(s.droppers[t], s.inFree[p], s.pending, L.PendingAlive(s));
            s' == s.(nextFree := s'.nextFree, inFree := s'.inFree, pending := s'.pending, droppers := s'.droppers) &&
            s'.nextFree == (if r.link.Some? then s.nextFree[p := r.link.value] else s.nextFree) &&
            s'.inFree == (if s.droppers[t].SwapFlag? then s.inFree[p := r.flag] else s.inFree) && s'.pending == r.pending &&
            s'.droppers == if r.goes.Some? then s.droppers[t := r.goes.value] else s.droppers - {t}
  {
    hide L.PendingAlive;
    match s.droppers[t]
    case LoadFlag(_) =>
    case SwapFlag(_) =>
    case Upgrade(_) =>
    case LoadHead(_) =>
    case StoreNext(_, _) =>
    case CasHead(_, _) =>
  }

  lemma PendingAgrees(a: L.State, b: L.State)
    requires Agree(a, b)
    ensures L.PendingAlive(a) == L.PendingAlive(b)
  {
  }

  lemma BlindShrink(a: L.State, b: L.State, op: L.ShrinkOp)
    requires Agree(a, b) && Blind(a, L.Shrink(op)) && L.Enabled(a, L.Shrink(op)) && L.Enabled(b, L.Shrink(op))
    ensures Agree(L.ShrinkStep(a, op), L.ShrinkStep(b, op))
  {
    hide L.FreeLoopStep, L.FullLoopStep;
    match op
    case BeginShrink =>
    case FreeStep => BlindFree(a, b);
    case FullStep => BlindFull(a, b);
    case FinishShrink =>
    case BeginClose =>
    case CloseStep =>
  }

  lemma BlindFree(a: L.State, b: L.State)
    requires Agree(a, b) && L.OwnerTouches(a) && L.OwnerTouches(b) && a.owner.FreeLoop? && !a.owner.at.Test?
    ensures Agree(L.FreeLoopStep(a, a.owner.cursor, a.owner.at), L.FreeLoopStep(b, b.owner.cursor, b.owner.at))
  {
    hide L.FreeLoopStep, L.OwnerTouches, FreeReads;
    FreeForm(a, a.owner.cursor, a.owner.at);
    FreeForm(b, b.owner.cursor, b.owner.at);
  }

  lemma BlindFull(a: L.State, b: L.State)
    requires Agree(a, b) && L.OwnerTouches(a) && L.OwnerTouches(b) && a.owner.FullLoop?
    ensures Agree(L.FullLoopStep(a, a.owner.cursor, a.owner.at), L.FullLoopStep(b, b.owner.cursor, b.owner.at))
  {
    hide L.FullLoopStep, L.OwnerTouches, FullReads;
    FullForm(a, a.owner.cursor, a.owner.at);
    FullForm(b, b.owner.cursor, b.owner.at);
  }

  /** The first loop, but for its test, reads and writes `next_free` links and its own position. */
  function FreeReads(c: L.Cursor, at: L.Loc, links: Links<Addr>): (Links<Addr>, L.Owner) {
    var cell := if c.prev.None? then c.start else if c.prev.value in links then links[c.prev.value] else None;
    match at
    case LoadCurrent =>
      (links, if cell.Some? then L.FreeLoop(c, L.LoadNext(cell.value)) else L.FullLoop(c.(prev := None), L.LoadCurrent))
    case LoadNext(p) => (links, L.FreeLoop(c, L.Test(p, if p in links then links[p] else None)))
    case Test(p, next) => (links, L.FreeLoop(c, at))
    case Swing(p, next) =>
      if cell != Some(p) then (links, L.FreeLoop(c, L.LoadCurrent))
      else if c.prev.None? then (links, L.FreeLoop(c.(start := next, toDrop := c.toDrop + [p]), L.LoadCurrent))
      else (links[c.prev.value := next], L.FreeLoop(c.(toDrop := c.toDrop + [p]), L.LoadCurrent))
  }

  lemma FreeSwingForm(s: L.State, c: L.Cursor, at: L.Loc)
    requires L.OwnerTouches(s) && s.owner == L.FreeLoop(c, at) && at.Swing?
    ensures var s', r := L.FreeLoopStep(s, c, at), FreeReads(c, at, s.nextFree);
            s' == s.(nextFree := s'.nextFree, owner := s'.owner) && s'.nextFree == r.0 && s'.owner == r.1
  {
  }

  lemma FreeForm(s: L.State, c: L.Cursor, at: L.Loc)
    requires L.OwnerTouches(s) && s.owner == L.FreeLoop(c, at) && !at.Test?
    ensures var s', r := L.FreeLoopStep(s, c, at), FreeReads(c, at, s.nextFree);
            s' == s.(nextFree := s'.nextFree, owner := s'.owner) && s'.nextFree == r.0 && s'.owner == r.1
  {
    assert (!at.LoadCurrent? ==> at.page in s.nextFree) && (c.prev.Some? ==> c.prev.value in s.nextFree);
    hide L.OwnerTouches;
    match at
    case LoadCurrent =>
    case LoadNext(_) =>
    case Swing(_, _) => FreeSwingForm(s, c, at);
  }

  /** The second loop reads and writes `next` links, the head of the full list and its own position. */
  function FullReads(c: L.Cursor, at: L.Loc, links: Links<Addr>, full: Option<Addr>): (Links<Addr>, Option<Addr>, L.Owner) {
    var cell := if c.prev.None? then full else if c.prev.value in links then links[c.prev.value] else None;
    match at
    case LoadCurrent =>
      (links, full, if cell.Some? then L.FullLoop(c, L.LoadNext(cell.value)) else L.DropCheck(c.start, c.toDrop, 0))
    case LoadNext(p) => (links, full, L.FullLoop(c, L.Test(p, if p in links then links[p] else None)))
    case Test(p, next) =>
      (links, full, if p in c.toDrop then L.FullLoop(c, L.Swing(p, next)) else L.FullLoop(c.(prev := Some(p)), L.LoadCurrent))
    case Swing(p, next) =>
      if cell != Some(p) then (links, full, L.Panicked)
      else if c.prev.None? then (links, next, L.FullLoop(c, L.LoadCurrent))
      else (links[c.prev.value := next], full, L.FullLoop(c, L.LoadCurrent))
  }

  lemma FullSwingForm(s: L.State, c: L.Cursor, at: L.Loc)
    requires L.OwnerTouches(s) && s.owner == L.FullLoop(c, at) && at.Swing?
    ensures var s', r := L.FullLoopStep(s, c, at), FullReads(c, at, s.next, s.full);
            s' == s.(next := s'.next, full := s'.full, owner := s'.owner) && s'.next == r.0 && s'.full == r.1 && s'.owner == r.2
  {
  }

  lemma FullForm(s: L.State, c: L.Cursor, at: L.Loc)
    requires L.OwnerTouches(s) && s.owner == L.FullLoop(c, at)
    ensures var s', r := L.FullLoopStep(s, c, at), FullReads(c, at, s.next, s.full);
            s' == s.(next := s'.next, full := s'.full, owner := s'.owner) && s'.next == r.0 && s'.full == r.1 && s'.owner == r.2
  {
    assert (!at.LoadCurrent? ==> at.page in s.next) && (c.prev.Some? ==> c.prev.value in s.next);
    hide L.OwnerTouches;
    match at
    case LoadCurrent =>
    case LoadNext(_) =>
    case Test(_, _) =>
    case Swing(_, _) => FullSwingForm(s, c, at);
  }

  /** They do not change those fields either. */
  lemma BlindKeeps(s: L.State, step: L.Step)
    requires Blind(s, step) && !Grows(step) && L.Enabled(s, step)
    ensures Keeps(s, L.Apply(s, step))
  {
    hide L.FindStep, L.ShrinkStep, L.DropStepOf, Keeps;
    match step
    case Find(op) => FindKeeps(s, op);
    case Shrink(op) => ShrinkKeeps(s, op);
    case DropperStep(t) => DropperKeeps(s, t);
  }

  predicate Keeps(s: L.State, s': L.State) {
    s'.held == s.held && s'.released == s.released && s'.deallocs == s.deallocs && s'.next.Keys == s.next.Keys &&
    s'.droppers.Keys <= s.droppers.Keys && (s.owner.Scan? && s.freeList.Some? ==> s'.owner == s.owner && s'.freeList == s.freeList)
  }

  lemma FindKeeps(s: L.State, op: L.FindOp)
    requires Blind(s, L.Find(op)) && !op.Grow? && L.Enabled(s, L.Find(op))
    ensures Keeps(s, L.FindStep(s, op))
  {
  }

  lemma DropperKeeps(s: L.State, t: ThreadId)
    requires L.Enabled(s, L.DropperStep(t))
    ensures Keeps(s, L.DropStepOf(s, t))
  {
  }

  lemma ShrinkKeeps(s: L.State, op: L.ShrinkOp)
    requires Blind(s, L.Shrink(op)) && L.Enabled(s, L.Shrink(op))
    ensures Keeps(s, L.ShrinkStep(s, op))
  {
    hide L.FreeLoopStep, L.FullLoopStep;
    match op
    case BeginShrink =>
    case FreeStep => FreeKeeps(s);
    case FullStep => FullKeeps(s);
    case FinishShrink =>
    case BeginClose =>
    case CloseStep =>
  }

  lemma FreeKeeps(s: L.State)
    requires L.OwnerTouches(s) && s.owner.FreeLoop? && !s.owner.at.Test?
    ensures Keeps(s, L.FreeLoopStep(s, s.owner.cursor, s.owner.at))
  {
    FreeForm(s, s.owner.cursor, s.owner.at);
    hide L.FreeLoopStep, FreeReads, L.OwnerTouches;
  }

  lemma FullKeeps(s: L.State)
    requires L.OwnerTouches(s) && s.owner.FullLoop?
    ensures Keeps(s, L.FullLoopStep(s, s.owner.cursor, s.owner.at))
  {
    FullForm(s, s.owner.cursor, s.owner.at);
    hide L.FullLoopStep;
  }

  // ---------------------------------------------------------------- one page

  /** Every page that nobody holds a block of and the arena has let go is deallocated, or about to be. */
  lemma DeallocsAre(p: P.State)
    requires P.Reachable(p)
    ensures Deallocs(p) == if !P.Owned(p) && P.Out(p) == {} then 1 else 0
  {
    P.ReachableInv(p);
    P.NothingOut(p);
  }

  lemma PageSteps(p: P.State, step: P.Step)
    requires P.Reachable(p) && P.Enabled(p, step)
    ensures P.Reachable(P.Apply(p, step)) && P.Owned(P.Apply(p, step)) == (P.Owned(p) && !step.DropPage?)
  {
    hide P.Apply, P.Enabled;
    OwnedMoves(p, step);
    assert P.Next(p, P.Apply(p, step));
    var n: nat :| P.ReachableIn(p, n);
    assert P.ReachableIn(P.Apply(p, step), n + 1);
  }

  lemma OwnedMoves(p: P.State, step: P.Step)
    requires P.Enabled(p, step)
    ensures P.Owned(P.Apply(p, step)) == (P.Owned(p) && !step.DropPage?)
  {
  }

  // ---------------------------------------------------------------- the invariant

  /** The owner is inside acquire_free_block on the page. */
  predicate Inside(p: P.State) {
    p.owner.Scan? || p.owner.AtLoad? || p.owner.AtSwap?
  }

  ghost predicate PagesOk(w: Whole) {
    w.pages.Keys == w.lists.next.Keys && forall p | p in w.pages :: P.Reachable(w.pages[p])
  }

  /** A thread is in one operation at a time, and the owner searches the page it says. */
  ghost predicate ThreadsOk(w: Whole) {
    && (forall p, t | p in w.pages && t in w.pages[p].droppers :: t !in w.lists.droppers)
    && (forall p, q, t | p in w.pages && q in w.pages && t in w.pages[p].droppers && t in w.pages[q].droppers :: p == q)
    && (forall p | p in w.pages && Inside(w.pages[p]) :: w.lists.owner.Scan? && w.lists.freeList == Some(p))
  }

  ghost predicate Inv(w: Whole) {
    PagesOk(w) && ThreadsOk(w) && R.Reachable(Abs(w))
  }

  // ---------------------------------------------------------------- abstract states

  lemma AbsIs(w: Whole, s: L.State)
    requires Agree(w.lists, s) && s.held == HeldOf(w.pages) && s.released == ReleasedOf(w.pages) && s.deallocs == DeallocsOf(w.pages)
    ensures Abs(w) == s
  {
  }

  /** What one access to one page's words does to the abstract state. */
  lemma TurnAbs(w: Whole, p: Addr, step: P.Step)
    requires PagesOk(w) && p in w.pages && P.Enabled(w.pages[p], step)
    ensures var pages, page := Turn(w, p, step), P.Apply(w.pages[p], step);
            HeldOf(pages) == HeldOf(w.pages)[p := P.Out(page)] && DeallocsOf(pages) == DeallocsOf(w.pages)[p := Deallocs(page)] &&
            ReleasedOf(pages) == ReleasedOf(w.pages) + (if step.DropPage? then {p} else {})
  {
    hide P.Apply, P.Out, P.Owned, Deallocs, P.Enabled, P.Reachable;
    PageSteps(w.pages[p], step);
    var pages := Turn(w, p, step);
    assert forall q | q in pages :: pages[q] == if q == p then P.Apply(w.pages[p], step) else w.pages[q];
  }

  /** Accesses that leave the blocks out as they are do not show in the lists. */
  lemma QuietTurn(w: Whole, p: Addr, step: P.Step)
    requires PagesOk(w) && p in w.pages && P.Enabled(w.pages[p], step) && !step.DropPage?
    requires P.Out(P.Apply(w.pages[p], step)) == P.Out(w.pages[p])
    ensures Abs(w.(pages := Turn(w, p, step))) == Abs(w)
  {
    hide P.Apply, P.Out, P.Owned, Deallocs, P.Enabled, P.Reachable, HeldOf, ReleasedOf, DeallocsOf;
    TurnAbs(w, p, step);
    PageSteps(w.pages[p], step);
    DeallocsAre(w.pages[p]);
    DeallocsAre(P.Apply(w.pages[p], step));
    AtPage(w.pages, p);
    AbsIs(w.(pages := Turn(w, p, step)), Abs(w));
  }

  lemma AtPage(pages: map<Addr, P.State>, p: Addr)
    requires p in pages
    ensures p in HeldOf(pages) && HeldOf(pages)[p] == P.Out(pages[p]) && HeldOf(pages)[p := P.Out(pages[p])] == HeldOf(pages)
    ensures p in DeallocsOf(pages) && DeallocsOf(pages)[p] == Deallocs(pages[p]) &&
            DeallocsOf(pages)[p := Deallocs(pages[p])] == DeallocsOf(pages)
    ensures p in ReleasedOf(pages) <==> !P.Owned(pages[p])
  {
  }
}
