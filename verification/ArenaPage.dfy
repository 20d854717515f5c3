/** The life of one Arena page: one owner and any number of remote droppers
    (src/page/arena.rs:124-171, src/page/arena.rs:198-210).

    The owner takes blocks from a private word; droppers give blocks back through an atomic
    word. The owner merges the second into the first when the first runs out, and merges the
    first into the second when it lets go of the page. */
module ArenaPage {
  import opened Bitfield

  type ThreadId = nat

  /** Where the owner stands. `pass` counts the loop of acquire_free_block. */
  datatype OwnerPc =
    | Idle
    | Scan(pass: nat)      // about to search the private word
    | AtLoad(pass: nat)    // private word exhausted, about to load the atomic one
    | AtSwap(pass: nat)    // it was not zero, about to swap it with 0
    | Freeing              // drop_page saw all ones, about to deallocate
    | Gone                 // drop_page is over
    | Panicked

  datatype DropperPc = Dropping(index: nat) | DropperFreeing

  datatype State = State(
    priv: Word,
    atom: Word,
    owner: OwnerPc,
    held: set<nat>,                      // blocks handed out and not being dropped
    droppers: map<ThreadId, DropperPc>,
    deallocs: nat)

  datatype Step =
    | BeginAcquire
    | ReadPrivate
    | LoadAtomic
    | SwapAtomic
    | DropPage
    | OwnerDeallocate
    | BeginDrop(t: ThreadId, index: nat)
    | FetchAdd(t: ThreadId)
    | Deallocate(t: ThreadId)

  predicate Init(s: State) {
    s == State(ALL_ONES, 0, Idle, {}, map[], 0)
  }

  predicate Enabled(s: State, step: Step) {
    match step
    case BeginAcquire => s.owner.Idle?
    case ReadPrivate => s.owner.Scan?
    case LoadAtomic => s.owner.AtLoad?
    case SwapAtomic => s.owner.AtSwap?
    case DropPage => s.owner.Idle?
    case OwnerDeallocate => s.owner.Freeing?
    case BeginDrop(t, index) => t !in s.droppers && index in s.held
    case FetchAdd(t) => t in s.droppers && s.droppers[t].Dropping? && s.droppers[t].index < BLOCK_PER_PAGE
    case Deallocate(t) => t in s.droppers && s.droppers[t].DropperFreeing?
  }

  function Apply(s: State, step: Step): State
    requires Enabled(s, step)
  {
    match step
    case BeginAcquire => s.(owner := Scan(1))
    case ReadPrivate =>
      var index := TrailingZeros(s.priv);
      if index == BLOCK_PER_PAGE then s.(owner := AtLoad(s.owner.pass))
      else if index >= BITFIELD_WIDTH then s.(owner := Panicked) // `1 << 64`
      else s.(priv := And(s.priv, Not(Bit(index))), owner := Idle, held := s.held + {index})
    case LoadAtomic =>
      if s.atom != 0 then s.(owner := AtSwap(s.owner.pass)) else s.(owner := Idle) // returns None
    case SwapAtomic =>
      s.(priv := Or(s.priv, s.atom), atom := 0, owner := Scan(s.owner.pass + 1))
    case DropPage =>
      s.(atom := Or(s.atom, s.priv), owner := if Or(s.atom, s.priv) == ALL_ONES then Freeing else Gone)
    case OwnerDeallocate =>
      s.(owner := Gone, deallocs := s.deallocs + 1)
    case BeginDrop(t, index) =>
      s.(held := s.held - {index}, droppers := s.droppers[t := Dropping(index)])
    case FetchAdd(t) =>
      var bit := Bit(s.droppers[t].index);
      s.(atom := WrappingAdd(s.atom, bit),
         droppers := if Or(s.atom, bit) == ALL_ONES then s.droppers[t := DropperFreeing] else s.droppers - {t})
    case Deallocate(t) =>
      s.(droppers := s.droppers - {t}, deallocs := s.deallocs + 1)
  }

  // ---------------------------------------------------------------- the invariant

  /** The arena has not let go of the page. */
  predicate Owned(s: State) {
    !s.owner.Freeing? && !s.owner.Gone?
  }

  /** The blocks the words record as free; the private word is dead once the owner is gone. */
  function FreeBlocks(s: State): set<nat> {
    if Owned(s) then Free(s.priv) + Free(s.atom) else Free(s.atom)
  }

  predicate Drops(droppers: map<ThreadId, DropperPc>, t: ThreadId, i: nat) {
    t in droppers && droppers[t] == Dropping(i)
  }

  /** The blocks some dropper is about to give back. */
  function Dropped(droppers: map<ThreadId, DropperPc>): set<nat> {
    set t | t in droppers && droppers[t].Dropping? :: droppers[t].index
  }

  function Freeers(droppers: map<ThreadId, DropperPc>): set<ThreadId> {
    set t | t in droppers && droppers[t].DropperFreeing?
  }

  predicate Unused(s: State) {
    !Owned(s) && Free(s.atom) == Indices()
  }

  ghost predicate OwnerInv(s: State) {
    match s.owner
    case Idle => true
    case Scan(pass) => pass == 1 || (pass == 2 && Free(s.priv) != {})
    case AtLoad(pass) => pass == 1 && Free(s.priv) == {}
    case AtSwap(pass) => pass == 1 && Free(s.priv) == {} && Free(s.atom) != {}
    case Freeing => true
    case Gone => true
    case Panicked => false
  }

  /** Each block is in exactly one place: one of the words, a holder, one dropper. */
  ghost predicate Partition(s: State) {
    var free, dropped := FreeBlocks(s), Dropped(s.droppers);
    free + s.held + dropped == Indices() && free !! s.held !! dropped &&
    (Owned(s) ==> Free(s.priv) !! Free(s.atom)) &&
    forall t, u, i: nat | Drops(s.droppers, t, i) && Drops(s.droppers, u, i) :: t == u
  }

  ghost predicate Inv(s: State) {
    && (if Owned(s) then ArenaBit(s.priv) && !ArenaBit(s.atom) else ArenaBit(s.atom))
    && OwnerInv(s)
    && Partition(s)
    && s.deallocs + |Freeers(s.droppers)| + (if s.owner.Freeing? then 1 else 0) == if Unused(s) then 1 else 0
  }

  // ---------------------------------------------------------------- every step keeps the invariant

  lemma InitInv(s: State)
    requires Init(s)
    ensures Inv(s)
  {
    ConstantWords();
    assert Dropped(s.droppers) == {} && Freeers(s.droppers) == {};
  }

  lemma DropperMoves(droppers: map<ThreadId, DropperPc>, t: ThreadId, droppers': map<ThreadId, DropperPc>)
    requires droppers' == droppers - {t} || (t in droppers' && droppers' == droppers[t := droppers'[t]])
    ensures forall u, i: nat | u != t :: Drops(droppers', u, i) == Drops(droppers, u, i)
    ensures |Freeers(droppers')| == |Freeers(droppers)| -
              (if t in droppers && droppers[t].DropperFreeing? then 1 else 0) +
              (if t in droppers' && droppers'[t].DropperFreeing? then 1 else 0)
  {
    FreeersSplit(droppers, t);
    FreeersSplit(droppers', t);
    assert droppers' - {t} == droppers - {t};
  }

  lemma FreeersSplit(droppers: map<ThreadId, DropperPc>, t: ThreadId)
    ensures |Freeers(droppers)| == |Freeers(droppers - {t})| + if t in droppers && droppers[t].DropperFreeing? then 1 else 0
  {
    var rest := Freeers(droppers - {t});
    forall u: ThreadId
      ensures u in Freeers(droppers) <==> u in rest || (u == t && t in droppers && droppers[t].DropperFreeing?)
    {
    }
    assert Freeers(droppers) == if t in droppers && droppers[t].DropperFreeing? then rest + {t} else rest;
  }

  lemma DroppedIs(droppers: map<ThreadId, DropperPc>, i: nat)
    ensures i in Dropped(droppers) <==> exists t :: Drops(droppers, t, i)
  {
    if i in Dropped(droppers) {
      var t :| t in droppers && droppers[t].Dropping? && droppers[t].index == i;
      assert Drops(droppers, t, i);
    }
    if t :| Drops(droppers, t, i) {
      assert droppers[t].index in Dropped(droppers);
    }
  }

  lemma SameDrops(droppers: map<ThreadId, DropperPc>, droppers': map<ThreadId, DropperPc>, i: nat)
    requires forall u: ThreadId :: Drops(droppers', u, i) == Drops(droppers, u, i)
    ensures i in Dropped(droppers') <==> i in Dropped(droppers)
  {
    DroppedIs(droppers, i);
    DroppedIs(droppers', i);
  }

  lemma KeepsReadPrivate(s: State)
    requires Inv(s) && Enabled(s, ReadPrivate)
    ensures Inv(Apply(s, ReadPrivate))
  {
    TrailingZerosFinds(s.priv);
    var index := TrailingZeros(s.priv);
    if index < BLOCK_PER_PAGE {
      ClearBit(s.priv, index);
      TakesBlock(s, And(s.priv, Not(Bit(index))), index);
    }
  }

  lemma TakesBlock(s: State, priv: Word, index: nat)
    requires Inv(s) && Owned(s) && index in Free(s.priv)
    requires Free(priv) == Free(s.priv) - {index} && ArenaBit(priv) == ArenaBit(s.priv)
    ensures Inv(s.(priv := priv, owner := Idle, held := s.held + {index}))
  {
    assert Free(priv) + Free(s.atom) == FreeBlocks(s) - {index};
  }

  lemma KeepsLoadAtomic(s: State)
    requires Inv(s) && Enabled(s, LoadAtomic)
    ensures Inv(Apply(s, LoadAtomic))
  {
    WordTests(s.atom);
  }

  lemma KeepsSwapAtomic(s: State)
    requires Inv(s) && Enabled(s, SwapAtomic)
    ensures Inv(Apply(s, SwapAtomic))
  {
    OrWords(s.priv, s.atom);
    ConstantWords();
  }

  lemma KeepsDropPage(s: State)
    requires Inv(s) && Enabled(s, DropPage)
    ensures Inv(Apply(s, DropPage))
  {
    OrWords(s.atom, s.priv);
    WordTests(Or(s.atom, s.priv));
    assert Free(s.atom) + Free(s.priv) == FreeBlocks(s);
  }

  lemma KeepsBeginDrop(s: State, t: ThreadId, index: nat)
    requires Inv(s) && Enabled(s, BeginDrop(t, index))
    ensures Inv(Apply(s, BeginDrop(t, index)))
  {
    var s' := Apply(s, BeginDrop(t, index));
    DropperMoves(s.droppers, t, s'.droppers);
    assert Dropped(s'.droppers) == Dropped(s.droppers) + {index} by {
      forall i: nat
        ensures i in Dropped(s'.droppers) <==> i in Dropped(s.droppers) || i == index
      {
        DroppedIs(s.droppers, i);
        DroppedIs(s'.droppers, i);
        assert Drops(s'.droppers, t, index);
        if u :| Drops(s.droppers, u, i) {
          assert Drops(s'.droppers, u, i);
        }
      }
    }
    DroppedIs(s.droppers, index);
  }

  /** The block a dropper gives back was in nobody else's hands. */
  lemma SoleDropper(s: State, t: ThreadId)
    requires Inv(s) && Enabled(s, FetchAdd(t))
    ensures var i := s.droppers[t].index;
            i in Dropped(s.droppers) && i !in FreeBlocks(s) && i !in Free(s.atom) && i !in s.held &&
            Dropped(s.droppers - {t}) == Dropped(s.droppers) - {i}
  {
    var i := s.droppers[t].index;
    assert Drops(s.droppers, t, i);
    DroppedIs(s.droppers, i);
    forall j: nat
      ensures j in Dropped(s.droppers - {t}) <==> j in Dropped(s.droppers) && j != i
    {
      DroppedIs(s.droppers, j);
      DroppedIs(s.droppers - {t}, j);
      if u :| Drops(s.droppers, u, j) && j != i {
        assert Drops(s.droppers - {t}, u, j);
      }
      if u :| Drops(s.droppers - {t}, u, j) {
        assert Drops(s.droppers, u, j);
      }
    }
  }

  lemma KeepsFetchAdd(s: State, t: ThreadId)
    requires Inv(s) && Enabled(s, FetchAdd(t))
    ensures Inv(Apply(s, FetchAdd(t)))
  {
    var i := s.droppers[t].index;
    var s' := Apply(s, FetchAdd(t));
    SoleDropper(s, t);
    AddBit(s.atom, i);
    SetBit(s.atom, i);
    WordTests(Or(s.atom, Bit(i)));
    DropperMoves(s.droppers, t, s'.droppers);
    assert Dropped(s'.droppers) == Dropped(s.droppers - {t}) by {
      forall j: nat
        ensures j in Dropped(s'.droppers) <==> j in Dropped(s.droppers - {t})
      {
        SameDrops(s.droppers - {t}, s'.droppers, j);
      }
    }
    assert FreeBlocks(s') == FreeBlocks(s) + {i};
  }

  lemma KeepsDeallocate(s: State, t: ThreadId)
    requires Inv(s) && Enabled(s, Deallocate(t))
    ensures Inv(Apply(s, Deallocate(t)))
  {
    var s' := Apply(s, Deallocate(t));
    DropperMoves(s.droppers, t, s'.droppers);
    forall j: nat
      ensures j in Dropped(s'.droppers) <==> j in Dropped(s.droppers)
    {
      SameDrops(s.droppers, s'.droppers, j);
    }
    assert Dropped(s'.droppers) == Dropped(s.droppers);
  }

  lemma StepKeepsInv(s: State, step: Step)
    requires Inv(s) && Enabled(s, step)
    ensures Inv(Apply(s, step))
  {
    match step
    case ReadPrivate => KeepsReadPrivate(s);
    case LoadAtomic => KeepsLoadAtomic(s);
    case SwapAtomic => KeepsSwapAtomic(s);
    case DropPage => KeepsDropPage(s);
    case BeginDrop(t, index) => KeepsBeginDrop(s, t, index);
    case FetchAdd(t) => KeepsFetchAdd(s, t);
    case Deallocate(t) => KeepsDeallocate(s, t);
    case _ =>
  }

  // ---------------------------------------------------------------- every run

  ghost predicate Next(s: State, s': State) {
    exists step :: Enabled(s, step) && s' == Apply(s, step)
  }

  ghost predicate ReachableIn(s: State, n: nat)
    decreases n
  {
    if n == 0 then Init(s) else exists s0 :: ReachableIn(s0, n - 1) && Next(s0, s)
  }

  /** Some run, of any length and any interleaving, ends in s. */
  ghost predicate Reachable(s: State) {
    exists n: nat :: ReachableIn(s, n)
  }

  lemma NextKeepsInv(s: State, s': State)
    requires Inv(s) && Next(s, s')
    ensures Inv(s')
  {
    var step :| Enabled(s, step) && s' == Apply(s, step);
    StepKeepsInv(s, step);
  }

  lemma {:induction false} ReachableInInv(s: State, n: nat)
    requires ReachableIn(s, n)
    ensures Inv(s)
    decreases n
  {
    if n == 0 {
      InitInv(s);
    } else {
      var s0 :| ReachableIn(s0, n - 1) && Next(s0, s);
      ReachableInInv(s0, n - 1);
      NextKeepsInv(s0, s);
    }
  }

  lemma ReachableInv(s: State)
    requires Reachable(s)
    ensures Inv(s)
  {
    var n: nat :| ReachableIn(s, n);
    ReachableInInv(s, n);
  }

  /** While the arena owns the page the two words never share a free block, a block is out (held
      or being dropped) exactly when both its bits are 0, and no drop is in progress twice. */
  lemma WordsDisjoint(s: State)
    requires Reachable(s)
    ensures s.owner != Panicked
    ensures Owned(s) ==> Free(s.priv) !! Free(s.atom)
    ensures forall i: nat | i < BLOCK_PER_PAGE ::
              i in s.held + Dropped(s.droppers) <==> i !in FreeBlocks(s)
    ensures s.held !! Dropped(s.droppers)
    ensures forall t: ThreadId, u: ThreadId, i: nat | Drops(s.droppers, t, i) && Drops(s.droppers, u, i) :: t == u
  {
    ReachableInv(s);
    forall i: nat | i < BLOCK_PER_PAGE
      ensures i in Indices()
    {
      assert IsIndex(i);
    }
  }

  /** The `fetch_add` of a drop never carries: it stores the "or" the code computes next to it. */
  lemma ReleaseNeverCarries(s: State, t: ThreadId)
    requires Reachable(s) && Enabled(s, FetchAdd(t))
    ensures var bit := Bit(s.droppers[t].index);
            WrappingAdd(s.atom, bit) == Or(s.atom, bit)
  {
    ReachableInv(s);
    SoleDropper(s, t);
    AddBit(s.atom, s.droppers[t].index);
  }

  /** acquire_free_block gives up only when both words are exhausted at that very access, takes
      the lowest block of the private word otherwise, and searches at most twice: a merge loses
      no free block and leaves the private word with one. */
  lemma AcquireOutcome(s: State)
    requires Reachable(s)
    ensures Enabled(s, LoadAtomic) ==> (Apply(s, LoadAtomic).owner.Idle? <==> FreeBlocks(s) == {})
    ensures Enabled(s, ReadPrivate) && Free(s.priv) != {} ==>
              var s' := Apply(s, ReadPrivate);
              exists i :: IsLeast(i, Free(s.priv)) && s'.held == s.held + {i} && i !in s.held && s'.owner.Idle?
    ensures Enabled(s, SwapAtomic) ==>
              var s' := Apply(s, SwapAtomic);
              s'.owner == Scan(2) && Free(s'.priv) == FreeBlocks(s) == FreeBlocks(s') != {}
    ensures Enabled(s, ReadPrivate) && s.owner.pass > 1 ==> Apply(s, ReadPrivate).owner.Idle?
  {
    ReachableInv(s);
    WordTests(s.atom);
    TrailingZerosFinds(s.priv);
    if Enabled(s, SwapAtomic) {
      OrWords(s.priv, s.atom);
      ConstantWords();
    }
    if Enabled(s, ReadPrivate) && Free(s.priv) != {} {
      assert IsLeast(TrailingZeros(s.priv), Free(s.priv));
    }
  }

  // ---------------------------------------------------------------- what ArenaLists sees

  /** The blocks out: held, or about to be given back. */
  function Out(s: State): set<nat> {
    Indices() - FreeBlocks(s)
  }

  /** ArenaLists knows a page by its blocks out only. Every access here changes them as the access
      it stands for does there, or not at all: an acquire takes a block that is not out, or fails
      with all out; a drop gives one back and deallocates exactly the last of a page let go;
      drop_page deallocates exactly a page with none out; and the test of shrink_to_fit on both
      words finds exactly the pages with none out. */
  lemma RefinesLists(s: State, step: Step)
    requires Reachable(s) && Enabled(s, step)
    ensures var s', takes := Apply(s, step), step.ReadPrivate? && Free(s.priv) != {};
            (takes ==> exists i :: i in Indices() && i !in Out(s) && Out(s') == Out(s) + {i}) &&
            (step.FetchAdd? ==>
               var i := s.droppers[step.t].index;
               i in Out(s) && Out(s') == Out(s) - {i} && (step.t in s'.droppers <==> !Owned(s) && Out(s') == {})) &&
            (!takes && !step.FetchAdd? ==> Out(s') == Out(s)) &&
            (step.LoadAtomic? && s'.owner.Idle? ==> Out(s) == Indices()) &&
            (step.DropPage? ==> Owned(s) && !Owned(s') && (s'.owner.Freeing? <==> Out(s) == {}))
    ensures Owned(s) ==> (LooksUnused(s.priv, s.atom) <==> Out(s) == {})
  {
    hide Inv, Out, FreeBlocks, Free;
    ReachableInv(s);
    TestFindsUnused(s);
    match step
    case ReadPrivate => ReadRefines(s);
    case LoadAtomic => LoadRefines(s);
    case SwapAtomic => SwapRefines(s);
    case DropPage => DropPageRefines(s);
    case FetchAdd(t) => FetchAddRefines(s, t);
    case _ => SameWords(s, Apply(s, step));
  }

  lemma SameWords(s: State, s': State)
    requires s'.priv == s.priv && s'.atom == s.atom && Owned(s') == Owned(s)
    ensures Out(s') == Out(s)
  {
  }

  lemma TestFindsUnused(s: State)
    requires Inv(s)
    ensures Owned(s) ==> (LooksUnused(s.priv, s.atom) <==> Out(s) == {})
  {
    hide Free, ArenaBit;
    OrWords(s.priv, s.atom);
    WordTests(Or(s.priv, s.atom));
    NothingOut(s);
  }

  lemma ReadRefines(s: State)
    requires Inv(s) && Enabled(s, ReadPrivate)
    ensures var s' := Apply(s, ReadPrivate);
            if Free(s.priv) != {} then exists i :: i in Indices() && i !in Out(s) && Out(s') == Out(s) + {i}
            else Out(s') == Out(s)
  {
    hide Free, ArenaBit, TrailingZeros, And, Not, Bit;
    TrailingZerosFinds(s.priv);
    if Free(s.priv) != {} {
      var i := TrailingZeros(s.priv);
      ClearBit(s.priv, i);
      assert i in Indices() && i !in Out(s);
      assert Out(Apply(s, ReadPrivate)) == Out(s) + {i};
    }
  }

  lemma LoadRefines(s: State)
    requires Inv(s) && Enabled(s, LoadAtomic)
    ensures var s' := Apply(s, LoadAtomic); Out(s') == Out(s) && (s'.owner.Idle? ==> Out(s) == Indices())
  {
    WordTests(s.atom);
  }

  lemma SwapRefines(s: State)
    requires Inv(s) && Enabled(s, SwapAtomic)
    ensures Out(Apply(s, SwapAtomic)) == Out(s)
  {
    hide Free, ArenaBit, Or;
    OrWords(s.priv, s.atom);
    ConstantWords();
  }

  lemma DropPageRefines(s: State)
    requires Inv(s) && Enabled(s, DropPage)
    ensures var s' := Apply(s, DropPage); Out(s') == Out(s) && Owned(s) && !Owned(s') && (s'.owner.Freeing? <==> Out(s) == {})
  {
    hide Free, ArenaBit, Or;
    OrWords(s.atom, s.priv);
    WordTests(Or(s.atom, s.priv));
    NothingOut(s);
  }

  lemma FetchAddRefines(s: State, t: ThreadId)
    requires Inv(s) && Enabled(s, FetchAdd(t))
    ensures var s', i := Apply(s, FetchAdd(t)), s.droppers[t].index;
            i in Out(s) && Out(s') == Out(s) - {i} && (t in s'.droppers <==> !Owned(s) && Out(s') == {})
  {
    hide Free, ArenaBit, Or, WrappingAdd, Bit;
    var i := s.droppers[t].index;
    SoleDropper(s, t);
    AddBit(s.atom, i);
    SetBit(s.atom, i);
    WordTests(Or(s.atom, Bit(i)));
    NothingOut(Apply(s, FetchAdd(t)));
    assert i in Indices();
  }

  lemma NothingOut(s: State)
    ensures Out(s) == {} <==> FreeBlocks(s) == Indices()
  {
    assert FreeBlocks(s) <= Indices();
    assert forall i | i in Indices() :: i in FreeBlocks(s) || i in Out(s);
  }

  /** No access to the page's two words is possible once the page has been deallocated. What
      drop_block does after its fetch_add, to `in_free_list` and to the pending list, is not among
      the steps here; ArenaLate says which of those accesses can come later than that. */
  lemma NothingAfterDeallocation(s: State, step: Step)
    requires Reachable(s) && Enabled(s, step)
    ensures s.deallocs == 0
  {
    ReachableInv(s);
    match step
    case BeginDrop(_, index) => assert index in Indices() && index !in Free(s.atom);
    case FetchAdd(t) =>
      SoleDropper(s, t);
      assert IsIndex(s.droppers[t].index);
    case Deallocate(t) => assert t in Freeers(s.droppers);
    case _ =>
  }

  /** The page is deallocated exactly once: by whoever comes last, when the arena is gone, no
      block is out and no drop is in progress. */
  lemma DeallocatedExactlyOnce(s: State)
    requires Reachable(s)
    ensures s.deallocs <= 1
    ensures s.deallocs == 1 <==> s.owner.Gone? && s.held == {} && s.droppers == map[]
  {
    ReachableInv(s);
    if s.deallocs == 1 {
      forall t
        ensures t !in s.droppers
      {
        if t in s.droppers {
          DropperCanStep(s, t);
        }
      }
      assert s.droppers.Keys == {};
      assert s.held <= Indices() == Free(s.atom);
    }
    if s.droppers == map[] {
      assert Dropped(s.droppers) == {} && Freeers(s.droppers) == {};
    }
  }

  lemma DropperCanStep(s: State, t: ThreadId)
    requires Reachable(s) && t in s.droppers
    ensures s.deallocs == 0
  {
    ReachableInv(s);
    if s.droppers[t].Dropping? {
      DroppedIs(s.droppers, s.droppers[t].index);
      assert Drops(s.droppers, t, s.droppers[t].index);
      assert s.droppers[t].index in Indices();
      NothingAfterDeallocation(s, FetchAdd(t));
    } else {
      NothingAfterDeallocation(s, Deallocate(t));
    }
  }
}
