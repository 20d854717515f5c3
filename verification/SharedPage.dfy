/** The life of one SharedArena page under any number of threads
    (src/page/shared_arena.rs:135-220, src/arena_arc.rs:101-184, src/arena_box.rs:82-157).

    Threads interleave single atomic accesses to the page's word and to its blocks' counters.
    A handle is an ArenaArc or an ArenaBox; handles travel between threads freely. */
module SharedPage {
  import opened Bitfield

  type ThreadId = nat
  type HandleId = nat

  const ISIZE_MAX: nat := 0x7FFF_FFFF_FFFF_FFFF

  datatype Kind = Box | Arc
  datatype Handle = Handle(index: nat, kind: Kind)

  /** Where a thread stands inside an operation; a thread not in the map is between operations. */
  datatype Pc =
    | Acquiring               // acquire_free_block, at the head of its loop
    | Loaded(index: nat)      // has read the word, about to `fetch_and`
    | Taken(index: nat)       // won the block, about to read its counter
    | Checked(index: nat)     // read 0, about to store 1
    | BoxChecked(id: HandleId) // ArenaBox::drop read 1, about to store 0
    | Dropping(index: nat)    // last reference gone, about to `fetch_add`
    | Freeing                 // saw the page unused, about to deallocate it
    | Panicked

  datatype State = State(
    word: Word,
    counters: seq<Word>,
    handles: map<HandleId, Handle>,
    threads: map<ThreadId, Pc>,
    arenaRef: bool,           // drop_page has not been called
    deallocs: nat)

  datatype Step =
    | BeginAcquire(t: ThreadId)
    | LoadWord(t: ThreadId)
    | FetchAnd(t: ThreadId)
    | ReadCounter(t: ThreadId)
    | StoreOne(t: ThreadId, id: HandleId, kind: Kind)
    | CloneArc(id: HandleId, newId: HandleId)
    | DropArc(t: ThreadId, id: HandleId)
    | BoxRead(t: ThreadId, id: HandleId)
    | BoxStore(t: ThreadId)
    | FetchAdd(t: ThreadId)
    | DropPage(t: ThreadId)
    | Deallocate(t: ThreadId)

  predicate Init(s: State) {
    s == State(ALL_ONES, seq(BLOCK_PER_PAGE, _ => 0), map[], map[], true, 0)
  }

  predicate At(s: State, t: ThreadId, pc: Pc) {
    t in s.threads && s.threads[t] == pc
  }

  predicate AcquireInFlight(s: State) {
    exists t | t in s.threads :: s.threads[t].Acquiring? || s.threads[t].Loaded?
  }

  /** A handle being dropped by a thread is nobody else's to use. */
  predicate Available(s: State, id: HandleId, kind: Kind) {
    id in s.handles && s.handles[id].kind == kind && s.handles[id].index < |s.counters| &&
    forall t | t in s.threads :: s.threads[t] != BoxChecked(id)
  }

  /** Blocks a thread is working on lie on the page; unreachable otherwise (see Inv). */
  predicate OnPage(s: State, pc: Pc) {
    match pc
    case Loaded(i) => i < BLOCK_PER_PAGE
    case Taken(i) => i < |s.counters|
    case Checked(i) => i < |s.counters|
    case Dropping(i) => i < BLOCK_PER_PAGE
    case BoxChecked(id) => id in s.handles && s.handles[id].index < |s.counters|
    case _ => true
  }

  predicate Enabled(s: State, step: Step) {
    match step
    case BeginAcquire(t) => t !in s.threads && s.arenaRef
    case LoadWord(t) => At(s, t, Acquiring)
    case FetchAnd(t) => t in s.threads && s.threads[t].Loaded? && OnPage(s, s.threads[t])
    case ReadCounter(t) => t in s.threads && s.threads[t].Taken? && OnPage(s, s.threads[t])
    case StoreOne(t, id, kind) =>
      t in s.threads && s.threads[t].Checked? && OnPage(s, s.threads[t]) && id !in s.handles
    case CloneArc(id, newId) =>
      Available(s, id, Arc) && newId !in s.handles && s.counters[s.handles[id].index] < ISIZE_MAX
    case DropArc(t, id) => t !in s.threads && Available(s, id, Arc)
    case BoxRead(t, id) => t !in s.threads && Available(s, id, Box)
    case BoxStore(t) => t in s.threads && s.threads[t].BoxChecked? && OnPage(s, s.threads[t])
    case FetchAdd(t) => t in s.threads && s.threads[t].Dropping? && OnPage(s, s.threads[t])
    case DropPage(t) => t !in s.threads && s.arenaRef && !AcquireInFlight(s)
    case Deallocate(t) => At(s, t, Freeing)
  }

  function Goto(s: State, t: ThreadId, pc: Pc): State {
    s.(threads := s.threads[t := pc])
  }

  function Done(s: State, t: ThreadId): State {
    s.(threads := s.threads - {t})
  }

  /** One atomic access and the local work up to the next one. */
  function Apply(s: State, step: Step): State
    requires Enabled(s, step)
  {
    match step
    case BeginAcquire(t) =>
      Goto(s, t, Acquiring)
    case LoadWord(t) =>
      var index := TrailingZeros(s.word);
      if index == BLOCK_PER_PAGE then Done(s, t)          // returns None
      else if index >= BITFIELD_WIDTH then Goto(s, t, Panicked) // `1 << 64`
      else Goto(s, t, Loaded(index))
    case FetchAnd(t) =>
      var index := s.threads[t].index;
      var s' := s.(word := And(s.word, Not(Bit(index))));
      if And(s.word, Bit(index)) != 0 then Goto(s', t, Taken(index)) else Goto(s', t, Acquiring)
    case ReadCounter(t) =>
      var index := s.threads[t].index;
      if s.counters[index] == 0 then Goto(s, t, Checked(index)) else Goto(s, t, Panicked)
    case StoreOne(t, id, kind) =>
      var index := s.threads[t].index;
      Done(s.(counters := s.counters[index := 1], handles := s.handles[id := Handle(index, kind)]), t)
    case CloneArc(id, newId) =>
      var index := s.handles[id].index;
      s.(counters := s.counters[index := WrappingAdd(s.counters[index], 1)],
         handles := s.handles[newId := Handle(index, Arc)])
    case DropArc(t, id) =>
      var index := s.handles[id].index;
      var count := s.counters[index];
      var s' := s.(counters := s.counters[index := WrappingSub(count, 1)], handles := s.handles - {id});
      if count == 1 then Goto(s', t, Dropping(index)) else s'
    case BoxRead(t, id) =>
      if s.counters[s.handles[id].index] == 1 then Goto(s, t, BoxChecked(id)) else Goto(s, t, Panicked)
    case BoxStore(t) =>
      var id := s.threads[t].id;
      var index := s.handles[id].index;
      Goto(s.(counters := s.counters[index := 0], handles := s.handles - {id}), t, Dropping(index))
    case FetchAdd(t) =>
      var index := s.threads[t].index;
      var s' := s.(word := WrappingAdd(s.word, Bit(index)));
      if Not(Or(s.word, Bit(index))) == MASK_ARENA_BIT then Goto(s', t, Freeing) else Done(s', t)
    case DropPage(t) =>
      var s' := s.(word := WrappingSub(s.word, MASK_ARENA_BIT), arenaRef := false);
      if Not(s.word) == 0 then Goto(s', t, Freeing) else s'
    case Deallocate(t) =>
      Done(s.(deallocs := s.deallocs + 1), t)
  }

  // ---------------------------------------------------------------- the invariant

  /** The live handles of block i. */
  function HandlesOf(handles: map<HandleId, Handle>, i: nat): set<HandleId> {
    set id | id in handles && handles[id].index == i
  }

  predicate Owns(pc: Pc, i: nat) {
    pc == Taken(i) || pc == Checked(i) || pc == Dropping(i)
  }

  /** The threads between winning block i and publishing a handle, or between the last handle's
      death and the release of the bit. */
  function OwnersOf(threads: map<ThreadId, Pc>, i: nat): set<ThreadId> {
    set t | t in threads && Owns(threads[t], i)
  }

  function Freeers(threads: map<ThreadId, Pc>): set<ThreadId> {
    set t | t in threads && threads[t].Freeing?
  }

  /** A block is free, or belongs to one thread, or is shared by its handles. */
  ghost predicate BlockInv(s: State, i: nat)
    requires i < |s.counters|
  {
    var handles, owners := HandlesOf(s.handles, i), OwnersOf(s.threads, i);
    s.counters[i] == |handles| &&
    if i in Free(s.word) then handles == {} && owners == {}
    else (handles == {} && |owners| == 1) || (handles != {} && owners == {})
  }

  /** No block in use and no arena: nothing can touch the page any more. */
  predicate Unused(s: State) {
    Free(s.word) == Indices() && !s.arenaRef
  }

  ghost predicate ThreadInv(s: State, t: ThreadId)
    requires t in s.threads
  {
    match s.threads[t]
    case Acquiring => s.arenaRef
    case Loaded(i) => i < BLOCK_PER_PAGE && s.arenaRef
    case Taken(i) => i < BLOCK_PER_PAGE
    case Checked(i) => i < BLOCK_PER_PAGE
    case Dropping(i) => i < BLOCK_PER_PAGE
    case BoxChecked(id) => id in s.handles && s.handles[id].kind == Box
    case Freeing => true
    case Panicked => false
  }

  ghost predicate HandleInv(s: State, id: HandleId)
    requires id in s.handles
  {
    s.handles[id].index < BLOCK_PER_PAGE &&
    (s.handles[id].kind == Box ==> HandlesOf(s.handles, s.handles[id].index) == {id})
  }

  ghost predicate Inv(s: State) {
    && |s.counters| == BLOCK_PER_PAGE
    && ArenaBit(s.word) == s.arenaRef
    && (forall i: nat | i < BLOCK_PER_PAGE :: BlockInv(s, i))
    && (forall t | t in s.threads :: ThreadInv(s, t))
    && (forall id | id in s.handles :: HandleInv(s, id))
    && (forall t, u | t in s.threads && u in s.threads && s.threads[t].BoxChecked? && s.threads[t] == s.threads[u] :: t == u)
    && s.deallocs + |Freeers(s.threads)| == if Unused(s) then 1 else 0
  }

  // ---------------------------------------------------------------- how the derived sets move

  lemma HandleAdded(handles: map<HandleId, Handle>, id: HandleId, h: Handle)
    requires id !in handles
    ensures HandlesOf(handles[id := h], h.index) == HandlesOf(handles, h.index) + {id}
    ensures id !in HandlesOf(handles, h.index)
    ensures forall i | i != h.index :: HandlesOf(handles[id := h], i) == HandlesOf(handles, i)
  {
  }

  lemma HandleRemoved(handles: map<HandleId, Handle>, id: HandleId)
    requires id in handles
    ensures id in HandlesOf(handles, handles[id].index)
    ensures HandlesOf(handles - {id}, handles[id].index) == HandlesOf(handles, handles[id].index) - {id}
    ensures forall i | i != handles[id].index :: HandlesOf(handles - {id}, i) == HandlesOf(handles, i)
  {
  }

  predicate OwnedBy(threads: map<ThreadId, Pc>, t: ThreadId, i: nat) {
    t in threads && Owns(threads[t], i)
  }

  predicate IsFreeing(threads: map<ThreadId, Pc>, t: ThreadId) {
    t in threads && threads[t].Freeing?
  }

  predicate Moves(threads: map<ThreadId, Pc>, t: ThreadId, threads': map<ThreadId, Pc>) {
    threads' == threads - {t} || (t in threads' && threads' == threads[t := threads'[t]])
  }

  /** Moving thread t touches the owners of block i at most. */
  lemma OwnersMove(threads: map<ThreadId, Pc>, t: ThreadId, threads': map<ThreadId, Pc>, i: nat)
    requires Moves(threads, t, threads')
    requires forall j | j != i :: OwnedBy(threads, t, j) == OwnedBy(threads', t, j)
    ensures forall j | j != i :: OwnersOf(threads', j) == OwnersOf(threads, j)
    ensures OwnersOf(threads', i) ==
            if OwnedBy(threads', t, i) then OwnersOf(threads, i) + {t} else OwnersOf(threads, i) - {t}
  {
    forall j | j != i
      ensures OwnersOf(threads', j) == OwnersOf(threads, j)
    {
      assert OwnedBy(threads, t, j) == OwnedBy(threads', t, j);
    }
  }

  lemma FreeersMove(threads: map<ThreadId, Pc>, t: ThreadId, threads': map<ThreadId, Pc>)
    requires Moves(threads, t, threads')
    ensures |Freeers(threads')| ==
            |Freeers(threads)| - (if IsFreeing(threads, t) then 1 else 0) + (if IsFreeing(threads', t) then 1 else 0)
  {
    var rest := Freeers(threads) - {t};
    assert Freeers(threads) == if IsFreeing(threads, t) then rest + {t} else rest;
    assert Freeers(threads') == if IsFreeing(threads', t) then rest + {t} else rest;
  }

  lemma ThreadMoves(s: State, t: ThreadId, s': State, i: nat)
    requires Inv(s) && Moves(s.threads, t, s'.threads)
    requires forall j | j != i :: OwnedBy(s.threads, t, j) == OwnedBy(s'.threads, t, j)
    ensures forall j | j != i :: OwnersOf(s'.threads, j) == OwnersOf(s.threads, j)
    ensures OwnersOf(s'.threads, i) ==
            if OwnedBy(s'.threads, t, i) then OwnersOf(s.threads, i) + {t} else OwnersOf(s.threads, i) - {t}
    ensures |Freeers(s'.threads)| ==
            |Freeers(s.threads)| - (if IsFreeing(s.threads, t) then 1 else 0) + (if IsFreeing(s'.threads, t) then 1 else 0)
  {
    OwnersMove(s.threads, t, s'.threads, i);
    FreeersMove(s.threads, t, s'.threads);
  }

  ghost predicate BlockUnmoved(s: State, s': State, i: nat)
    requires i < |s.counters| == |s'.counters|
  {
    s'.counters[i] == s.counters[i] && (i in Free(s.word) <==> i in Free(s'.word)) &&
    HandlesOf(s'.handles, i) == HandlesOf(s.handles, i) && OwnersOf(s'.threads, i) == OwnersOf(s.threads, i)
  }

  /** A step that moves block `moved` at most has only that block to account for. */
  lemma OtherBlocks(s: State, s': State, moved: nat)
    requires Inv(s) && |s'.counters| == BLOCK_PER_PAGE
    requires forall i: nat | i < BLOCK_PER_PAGE && i != moved :: BlockUnmoved(s, s', i)
    requires moved < BLOCK_PER_PAGE ==> BlockInv(s', moved)
    ensures forall i: nat | i < BLOCK_PER_PAGE :: BlockInv(s', i)
  {
    forall i: nat | i < BLOCK_PER_PAGE
      ensures BlockInv(s', i)
    {
      if i != moved {
        assert BlockUnmoved(s, s', i) && BlockInv(s, i);
      }
    }
  }

  /** A thread that owns a block owns it alone: no handle, counter 0, bit clear. */
  lemma SoleOwner(s: State, t: ThreadId, i: nat)
    requires Inv(s) && OwnedBy(s.threads, t, i) && i < BLOCK_PER_PAGE
    ensures i !in Free(s.word) && s.counters[i] == 0 && HandlesOf(s.handles, i) == {}
    ensures OwnersOf(s.threads, i) == {t}
  {
    assert t in OwnersOf(s.threads, i);
    assert BlockInv(s, i);
    assert |OwnersOf(s.threads, i) - {t}| == 0;
  }

  /** A handle means its block is in use, shared by the block's handles only. */
  lemma HandleHolds(s: State, id: HandleId)
    requires Inv(s) && id in s.handles
    ensures var i := s.handles[id].index;
            i < BLOCK_PER_PAGE && i !in Free(s.word) && OwnersOf(s.threads, i) == {} &&
            id in HandlesOf(s.handles, i) && s.counters[i] == |HandlesOf(s.handles, i)| > 0
  {
    assert HandleInv(s, id);
    assert BlockInv(s, s.handles[id].index);
    assert id in HandlesOf(s.handles, s.handles[id].index);
  }

  // ---------------------------------------------------------------- every step keeps the invariant

  lemma InitInv(s: State)
    requires Init(s)
    ensures Inv(s)
  {
    ConstantWords();
  }

  lemma KeepsLoadWord(s: State, t: ThreadId)
    requires Inv(s) && Enabled(s, LoadWord(t))
    ensures Inv(Apply(s, LoadWord(t)))
  {
    TrailingZerosFinds(s.word);
    ThreadMoves(s, t, Apply(s, LoadWord(t)), BLOCK_PER_PAGE);
    OtherBlocks(s, Apply(s, LoadWord(t)), BLOCK_PER_PAGE);
  }

  lemma KeepsFetchAnd(s: State, t: ThreadId)
    requires Inv(s) && Enabled(s, FetchAnd(t))
    ensures Inv(Apply(s, FetchAnd(t)))
  {
    var index := s.threads[t].index;
    FetchAndWord(s.word, index);
    var word := And(s.word, Not(Bit(index)));
    if index in Free(s.word) {
      WinsBlock(s, t, word, index);
    } else {
      LosesBlock(s, t, word);
    }
  }

  lemma WinsBlock(s: State, t: ThreadId, word: Word, index: nat)
    requires Inv(s) && At(s, t, Loaded(index)) && index in Free(s.word)
    requires Free(word) == Free(s.word) - {index} && ArenaBit(word) == ArenaBit(s.word)
    ensures Inv(Goto(s.(word := word), t, Taken(index)))
  {
    var s' := Goto(s.(word := word), t, Taken(index));
    ThreadMoves(s, t, s', index);
    assert BlockInv(s, index);
    OtherBlocks(s, s', index);
  }

  lemma LosesBlock(s: State, t: ThreadId, word: Word)
    requires Inv(s) && t in s.threads && s.threads[t].Loaded?
    requires Free(word) == Free(s.word) && ArenaBit(word) == ArenaBit(s.word)
    ensures Inv(Goto(s.(word := word), t, Acquiring))
  {
    var s' := Goto(s.(word := word), t, Acquiring);
    ThreadMoves(s, t, s', BLOCK_PER_PAGE);
    OtherBlocks(s, s', BLOCK_PER_PAGE);
  }

  lemma FetchAndWord(w: Word, index: nat)
    requires index < BLOCK_PER_PAGE
    ensures Free(And(w, Not(Bit(index)))) == Free(w) - {index}
    ensures ArenaBit(And(w, Not(Bit(index)))) == ArenaBit(w)
    ensures And(w, Bit(index)) != 0 <==> index in Free(w)
  {
    ClearBit(w, index);
    BitSet(w, index);
  }

  lemma KeepsReadCounter(s: State, t: ThreadId)
    requires Inv(s) && Enabled(s, ReadCounter(t))
    ensures Inv(Apply(s, ReadCounter(t)))
  {
    SoleOwner(s, t, s.threads[t].index);
    ThreadMoves(s, t, Apply(s, ReadCounter(t)), s.threads[t].index);
    OtherBlocks(s, Apply(s, ReadCounter(t)), BLOCK_PER_PAGE);
  }

  lemma KeepsStoreOne(s: State, t: ThreadId, id: HandleId, kind: Kind)
    requires Inv(s) && Enabled(s, StoreOne(t, id, kind))
    ensures Inv(Apply(s, StoreOne(t, id, kind)))
  {
    hide Free, ArenaBit, Freeers, HandlesOf, OwnersOf, BlockInv;
    var index := s.threads[t].index;
    SoleOwner(s, t, index);
    ThreadMoves(s, t, Apply(s, StoreOne(t, id, kind)), index);
    HandleAdded(s.handles, id, Handle(index, kind));
    StoredBlock(s, t, Apply(s, StoreOne(t, id, kind)), id, index);
    OtherBlocks(s, Apply(s, StoreOne(t, id, kind)), index);
  }

  /** The counter of the block is 1 now, like its only handle. */
  lemma StoredBlock(s: State, t: ThreadId, s': State, id: HandleId, i: nat)
    requires i < |s'.counters| && s'.counters[i] == 1 && s'.word == s.word && i !in Free(s.word)
    requires HandlesOf(s'.handles, i) == {id} && OwnersOf(s'.threads, i) == {}
    ensures BlockInv(s', i)
  {
  }

  lemma KeepsCloneArc(s: State, id: HandleId, newId: HandleId)
    requires Inv(s) && Enabled(s, CloneArc(id, newId))
    ensures Inv(Apply(s, CloneArc(id, newId)))
  {
    hide Free, ArenaBit, Freeers;
    HandleHolds(s, id);
    HandleAdded(s.handles, newId, Handle(s.handles[id].index, Arc));
    OtherBlocks(s, Apply(s, CloneArc(id, newId)), s.handles[id].index);
  }

  lemma KeepsDropArc(s: State, t: ThreadId, id: HandleId)
    requires Inv(s) && Enabled(s, DropArc(t, id))
    ensures Inv(Apply(s, DropArc(t, id)))
  {
    var index := s.handles[id].index;
    HandleHolds(s, id);
    if s.counters[index] == 1 {
      assert HandlesOf(s.handles, index) == {id} by {
        assert |HandlesOf(s.handles, index) - {id}| == 0;
      }
      LastHandleDies(s, t, id);
    } else {
      var s' := Apply(s, DropArc(t, id));
      HandleRemoved(s.handles, id);
      OtherBlocks(s, s', index);
    }
  }

  /** The last handle's death makes the dying thread the block's sole owner. */
  lemma LastHandleDies(s: State, t: ThreadId, id: HandleId)
    requires Inv(s) && id in s.handles && HandlesOf(s.handles, s.handles[id].index) == {id}
    requires t !in s.threads || s.threads[t] == BoxChecked(id)
    requires forall u | u in s.threads && u != t :: s.threads[u] != BoxChecked(id)
    ensures var index := s.handles[id].index;
            index < |s.counters| &&
            Inv(Goto(s.(counters := s.counters[index := 0], handles := s.handles - {id}), t, Dropping(index)))
  {
    hide Free, ArenaBit, Freeers, ThreadInv, HandleInv;
    var index := s.handles[id].index;
    HandleHolds(s, id);
    HandleRemoved(s.handles, id);
    var s' := Goto(s.(counters := s.counters[index := 0], handles := s.handles - {id}), t, Dropping(index));
    ThreadMoves(s, t, s', index);
    assert OwnersOf(s'.threads, index) == {t};
    assert HandlesOf(s'.handles, index) == {};
    OtherBlocks(s, s', index);
    LastHandleRest(s, t, id, s');
  }

  lemma LastHandleRest(s: State, t: ThreadId, id: HandleId, s': State)
    requires Inv(s) && id in s.handles && HandlesOf(s.handles, s.handles[id].index) == {id}
    requires forall u | u in s.threads && u != t :: s.threads[u] != BoxChecked(id)
    requires s'.handles == s.handles - {id} && s'.threads == s.threads[t := Dropping(s.handles[id].index)] && s'.arenaRef == s.arenaRef
    ensures forall u | u in s'.threads :: ThreadInv(s', u)
    ensures forall h | h in s'.handles :: HandleInv(s', h)
    ensures forall u, v | u in s'.threads && v in s'.threads && s'.threads[u].BoxChecked? && s'.threads[u] == s'.threads[v] :: u == v
  {
    HandleRemoved(s.handles, id);
    assert HandleInv(s, id);
    forall u | u in s'.threads
      ensures ThreadInv(s', u)
    {
      assert u != t ==> ThreadInv(s, u);
    }
    forall h | h in s'.handles
      ensures HandleInv(s', h)
    {
      assert HandleInv(s, h);
    }
  }

  lemma KeepsBoxRead(s: State, t: ThreadId, id: HandleId)
    requires Inv(s) && Enabled(s, BoxRead(t, id))
    ensures Inv(Apply(s, BoxRead(t, id)))
  {
    HandleHolds(s, id);
    ThreadMoves(s, t, Apply(s, BoxRead(t, id)), BLOCK_PER_PAGE);
    OtherBlocks(s, Apply(s, BoxRead(t, id)), BLOCK_PER_PAGE);
  }

  lemma KeepsBoxStore(s: State, t: ThreadId)
    requires Inv(s) && Enabled(s, BoxStore(t))
    ensures Inv(Apply(s, BoxStore(t)))
  {
    HandleHolds(s, s.threads[t].id);
    LastHandleDies(s, t, s.threads[t].id);
  }

  lemma KeepsFetchAdd(s: State, t: ThreadId)
    requires Inv(s) && Enabled(s, FetchAdd(t))
    ensures Inv(Apply(s, FetchAdd(t)))
  {
    var index := s.threads[t].index;
    SoleOwner(s, t, index);
    FetchAddWord(s.word, index);
    ThreadMoves(s, t, Apply(s, FetchAdd(t)), index);
    OtherBlocks(s, Apply(s, FetchAdd(t)), index);
  }

  lemma FetchAddWord(w: Word, index: nat)
    requires index < BLOCK_PER_PAGE && index !in Free(w)
    ensures var w' := WrappingAdd(w, Bit(index));
            w' == Or(w, Bit(index)) && Free(w') == Free(w) + {index} && ArenaBit(w') == ArenaBit(w) &&
            (Not(w') == MASK_ARENA_BIT <==> Free(w') == Indices() && !ArenaBit(w'))
  {
    AddBit(w, index);
    SetBit(w, index);
    WordTests(Or(w, Bit(index)));
  }

  lemma KeepsDropPage(s: State, t: ThreadId)
    requires Inv(s) && Enabled(s, DropPage(t))
    ensures Inv(Apply(s, DropPage(t)))
  {
    var s' := Apply(s, DropPage(t));
    DropPageWord(s.word);
    ThreadMoves(s, t, if t in s'.threads then s' else Done(s', t), BLOCK_PER_PAGE);
    OtherBlocks(s, s', BLOCK_PER_PAGE);
  }

  lemma DropPageWord(w: Word)
    requires ArenaBit(w)
    ensures Free(WrappingSub(w, MASK_ARENA_BIT)) == Free(w) && !ArenaBit(WrappingSub(w, MASK_ARENA_BIT))
    ensures Not(w) == 0 <==> Free(w) == Indices()
  {
    SubArenaBit(w);
    WordTests(w);
  }

  lemma KeepsDeallocate(s: State, t: ThreadId)
    requires Inv(s) && Enabled(s, Deallocate(t))
    ensures Inv(Apply(s, Deallocate(t)))
  {
    ThreadMoves(s, t, Apply(s, Deallocate(t)), BLOCK_PER_PAGE);
    OtherBlocks(s, Apply(s, Deallocate(t)), BLOCK_PER_PAGE);
  }

  lemma StepKeepsInv(s: State, step: Step)
    requires Inv(s) && Enabled(s, step)
    ensures Inv(Apply(s, step))
  {
    match step
    case BeginAcquire(t) =>
      ThreadMoves(s, t, Apply(s, step), BLOCK_PER_PAGE);
      OtherBlocks(s, Apply(s, step), BLOCK_PER_PAGE);
    case LoadWord(t) => KeepsLoadWord(s, t);
    case FetchAnd(t) => KeepsFetchAnd(s, t);
    case ReadCounter(t) => KeepsReadCounter(s, t);
    case StoreOne(t, id, kind) => KeepsStoreOne(s, t, id, kind);
    case CloneArc(id, newId) => KeepsCloneArc(s, id, newId);
    case DropArc(t, id) => KeepsDropArc(s, t, id);
    case BoxRead(t, id) => KeepsBoxRead(s, t, id);
    case BoxStore(t) => KeepsBoxStore(s, t);
    case FetchAdd(t) => KeepsFetchAdd(s, t);
    case DropPage(t) => KeepsDropPage(s, t);
    case Deallocate(t) => KeepsDeallocate(s, t);
  }

  // ---------------------------------------------------------------- every run

  ghost predicate Next(s: State, s': State) {
    exists step :: Enabled(s, step) && s' == Apply(s, step)
  }

  ghost predicate ReachableIn(s: State, n: nat)
    decreases n
  {
    if n == 0 then Init(s) else exists s0 :: ReachableIn(s0, n - 1) && Next(s0, s)
  }

  /** Some run, of any length and any interleaving, ends in s. */
  ghost predicate Reachable(s: State) {
    exists n: nat :: ReachableIn(s, n)
  }

  lemma NextKeepsInv(s: State, s': State)
    requires Inv(s) && Next(s, s')
    ensures Inv(s')
  {
    var step :| Enabled(s, step) && s' == Apply(s, step);
    StepKeepsInv(s, step);
  }

  lemma {:induction false} ReachableInInv(s: State, n: nat)
    requires ReachableIn(s, n)
    ensures Inv(s)
    decreases n
  {
    if n == 0 {
      InitInv(s);
    } else {
      var s0 :| ReachableIn(s0, n - 1) && Next(s0, s);
      ReachableInInv(s0, n - 1);
      NextKeepsInv(s0, s);
    }
  }

  lemma ReachableInv(s: State)
    requires Reachable(s)
    ensures Inv(s)
  {
    var n: nat :| ReachableIn(s, n);
    ReachableInInv(s, n);
  }

  /** In every reachable state no assertion of the source has fired, each counter is the number
      of live handles, and a free bit means counter 0 and nobody at work on the block. */
  lemma CountersAreHandles(s: State)
    requires Reachable(s)
    ensures |s.counters| == BLOCK_PER_PAGE
    ensures forall t | t in s.threads :: s.threads[t] != Panicked
    ensures forall i: nat | i < BLOCK_PER_PAGE :: s.counters[i] == |HandlesOf(s.handles, i)|
    ensures forall i | i in Free(s.word) :: s.counters[i] == 0 && OwnersOf(s.threads, i) == {}
  {
    ReachableInv(s);
    forall t | t in s.threads
      ensures s.threads[t] != Panicked
    {
      assert ThreadInv(s, t);
    }
    forall i: nat | i < BLOCK_PER_PAGE
      ensures s.counters[i] == |HandlesOf(s.handles, i)|
      ensures i in Free(s.word) ==> s.counters[i] == 0 && OwnersOf(s.threads, i) == {}
    {
      assert BlockInv(s, i);
    }
  }

  /** No block is held twice: two threads never work on the same block, a thread and a handle
      never do, and an ArenaBox is its block's only handle. */
  lemma MutualExclusion(s: State)
    requires Reachable(s)
    ensures forall t: ThreadId, u: ThreadId, i: nat | OwnedBy(s.threads, t, i) && OwnedBy(s.threads, u, i) :: t == u
    ensures forall t: ThreadId, i: nat, id | OwnedBy(s.threads, t, i) && id in s.handles :: s.handles[id].index != i
    ensures forall a, b | a in s.handles && b in s.handles && s.handles[a].index == s.handles[b].index && s.handles[a].kind == Box :: a == b
  {
    ReachableInv(s);
    forall t: ThreadId, i: nat | OwnedBy(s.threads, t, i)
      ensures OwnersOf(s.threads, i) == {t} && HandlesOf(s.handles, i) == {}
    {
      assert ThreadInv(s, t);
      SoleOwner(s, t, i);
    }
    forall t: ThreadId, u: ThreadId, i: nat | OwnedBy(s.threads, t, i) && OwnedBy(s.threads, u, i)
      ensures t == u
    {
      assert u in OwnersOf(s.threads, i);
    }
    forall t: ThreadId, i: nat, id | OwnedBy(s.threads, t, i) && id in s.handles
      ensures s.handles[id].index != i
    {
      assert s.handles[id].index == i ==> id in HandlesOf(s.handles, i);
    }
    forall a, b | a in s.handles && b in s.handles && s.handles[a].index == s.handles[b].index && s.handles[a].kind == Box
      ensures a == b
    {
      assert HandleInv(s, a);
      assert b in HandlesOf(s.handles, s.handles[b].index);
    }
  }

  /** The release of a block follows the death of its last handle, and the `fetch_add` that
      performs it stores exactly the "or" the code computes next to it. */
  lemma ReleaseNeverCarries(s: State, t: ThreadId)
    requires Reachable(s) && Enabled(s, FetchAdd(t))
    ensures var i := s.threads[t].index;
            i < |s.counters| && i !in Free(s.word) && s.counters[i] == 0 && HandlesOf(s.handles, i) == {} &&
            WrappingAdd(s.word, Bit(i)) == Or(s.word, Bit(i))
  {
    ReachableInv(s);
    SoleOwner(s, t, s.threads[t].index);
    AddBit(s.word, s.threads[t].index);
  }

  /** No access to the page's word or to the counters of its blocks is possible once the page has
      been deallocated. What drop_block does after its fetch_add, to `in_free_list` and to the
      pending list, is not among the steps here; of those accesses the claim would be false. */
  lemma NothingAfterDeallocation(s: State, step: Step)
    requires Reachable(s) && Enabled(s, step)
    ensures s.deallocs == 0
  {
    ReachableInv(s);
    match step
    case CloneArc(id, _) => HandleHolds(s, id);
    case DropArc(_, id) => HandleHolds(s, id);
    case BoxRead(_, id) => HandleHolds(s, id);
    case BoxStore(t) => HandleHolds(s, s.threads[t].id);
    case ReadCounter(t) => SoleOwner(s, t, s.threads[t].index);
    case StoreOne(t, _, _) => SoleOwner(s, t, s.threads[t].index);
    case FetchAdd(t) => SoleOwner(s, t, s.threads[t].index);
    case Deallocate(t) => assert t in Freeers(s.threads);
    case LoadWord(t) => assert ThreadInv(s, t);
    case FetchAnd(t) => assert ThreadInv(s, t);
    case _ =>
  }

  predicate TakenBy(step: Step, t: ThreadId) {
    !step.CloneArc? && step.t == t
  }

  /** A thread inside an operation can always take its next step. */
  lemma NoThreadStuck(s: State, t: ThreadId)
    requires Reachable(s) && t in s.threads
    ensures exists step :: TakenBy(step, t) && Enabled(s, step)
  {
    ReachableInv(s);
    assert ThreadInv(s, t);
    var step: Step;
    match s.threads[t] {
      case Acquiring => step := LoadWord(t);
      case Loaded(i) => step := FetchAnd(t);
      case Taken(i) => step := ReadCounter(t);
      case Checked(i) =>
        var id := Fresh(s.handles.Keys);
        step := StoreOne(t, id, Arc);
      case BoxChecked(id) =>
        HandleHolds(s, id);
        step := BoxStore(t);
      case Dropping(i) => step := FetchAdd(t);
      case Freeing => step := Deallocate(t);
    }
    assert TakenBy(step, t) && Enabled(s, step);
  }

  /** A number outside a finite set. */
  lemma {:induction false} Fresh(ids: set<HandleId>) returns (id: HandleId)
    ensures id !in ids
    ensures forall x | x in ids :: x < id
    decreases |ids|
  {
    if ids == {} {
      id := 0;
    } else {
      var x :| x in ids;
      var rest := Fresh(ids - {x});
      id := if x < rest then rest else x + 1;
      assert forall y | y in ids :: y == x || y in ids - {x};
    }
  }

  lemma GoneAfterDeallocation(s: State)
    requires Reachable(s) && s.deallocs == 1
    ensures !s.arenaRef && s.handles == map[] && s.threads == map[]
  {
    ReachableInv(s);
    forall t
      ensures t !in s.threads
    {
      if t in s.threads {
        NoThreadStuck(s, t);
        var step :| TakenBy(step, t) && Enabled(s, step);
        NothingAfterDeallocation(s, step);
      }
    }
    forall id
      ensures id !in s.handles
    {
      if id in s.handles {
        HandleHolds(s, id);
        assert IsIndex(s.handles[id].index);
      }
    }
    assert s.threads.Keys == {} && s.handles.Keys == {};
  }

  lemma UnusedWhenGone(s: State)
    requires Reachable(s) && s.handles == map[] && s.threads == map[]
    ensures Free(s.word) == Indices() && Freeers(s.threads) == {}
  {
    ReachableInv(s);
    forall i: nat | i < BLOCK_PER_PAGE
      ensures i in Free(s.word)
    {
      assert BlockInv(s, i);
      assert HandlesOf(s.handles, i) == {} && OwnersOf(s.threads, i) == {};
    }
    assert forall i :: i in Indices() ==> i in Free(s.word);
  }

  /** The last one out deallocates: the page is deallocated exactly once the arena, every handle
      and every operation are gone, and never a second time. */
  lemma DeallocatedExactlyOnce(s: State)
    requires Reachable(s)
    ensures s.deallocs <= 1
    ensures s.deallocs == 1 <==> !s.arenaRef && s.handles == map[] && s.threads == map[]
  {
    ReachableInv(s);
    if s.deallocs == 1 {
      GoneAfterDeallocation(s);
    }
    if s.handles == map[] && s.threads == map[] {
      UnusedWhenGone(s);
    }
  }
}
