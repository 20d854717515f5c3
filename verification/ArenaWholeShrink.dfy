/** shrink_to_fit in an arena as a whole (src/arena.rs:465-523): the owner reads the words of the
    pages, and droppers change words and lists between any two of its accesses. */
module ArenaWholeShrink {
  import opened Chains
  import opened ArenaWhole
  import opened ArenaWholeRuns
  import Progress = ArenaProgress

  const BEGIN: Move := OnLists(L.Shrink(L.BeginShrink))
  const FINISH: Move := OnLists(L.Shrink(L.FinishShrink))

  /** w' is reached n accesses after shrink_to_fit was called in w, and it has not returned. */
  ghost predicate ShrinkRun(w: Whole, w': Whole, n: nat)
    decreases n
  {
    I.Shrinking(w'.lists.owner) &&
    if n == 0 then Enabled(w, BEGIN) && w' == Apply(w, BEGIN)
    else exists w0 :: ShrinkRun(w, w0, n - 1) && Next(w0, w')
  }

  // ---------------------------------------------------------------- what the lists see of it

  /** A run of shrink_to_fit is one of ArenaLists with the accesses left out that do not show. */
  lemma {:induction false} RunShows(w: Whole, w': Whole, n: nat) returns (m: nat)
    requires Inv(w) && ShrinkRun(w, w', n)
    ensures Inv(w') && R.ShrinkRun(Abs(w), Abs(w'), m) && w.pages.Keys <= w'.pages.Keys
    decreases n
  {
    hide Inv, Enabled, Apply, Abs, R.Next, R.ShrinkRun;
    AbsFields(w');
    if n == 0 {
      StepGrows(w, BEGIN);
      KeepsOnLists(w, L.Shrink(L.BeginShrink));
      m := 0;
      BeginShows(w, w');
    } else {
      var w0 :| ShrinkRun(w, w0, n - 1) && Next(w0, w');
      var m0 := RunShows(w, w0, n - 1);
      var move :| Enabled(w0, move) && w' == Apply(w0, move);
      StepGrows(w0, move);
      StepKeepsInv(w0, move);
      if Abs(w') == Abs(w0) {
        m := m0;
      } else {
        m := m0 + 1;
        Progress.RunExtends(Abs(w), Abs(w0), Abs(w'), m0);
      }
    }
  }

  lemma BeginShows(w: Whole, w': Whole)
    requires Enabled(w, BEGIN) && ShowsAs(w, w', L.Shrink(L.BeginShrink)) && I.Shrinking(w'.lists.owner)
    ensures R.ShrinkRun(Abs(w), Abs(w'), 0)
  {
  }

  /** Pages are only ever added. */
  lemma StepGrows(w: Whole, move: Move)
    requires Enabled(w, move)
    ensures w.pages.Keys <= Apply(w, move).pages.Keys
  {
  }

  // ---------------------------------------------------------------- what it does

  /** With droppers at work on words and lists between any two of its accesses, shrink_to_fit takes
      a set of pages out of both lists and keeps the order of the rest. Of the pages with no block
      out at the call it takes exactly those on the free list, and no other page unless its last
      block came back meanwhile. It lets each of them go, which deallocates each exactly once (or
      is about to), and lets no other page go. */
  lemma ShrinkFilters(w: Whole, w': Whole, n: nat)
      returns (free: seq<Addr>, full: seq<Addr>, removed: set<Addr>, after: Whole)
    requires Reachable(w) && ShrinkRun(w, w', n) && w'.lists.owner.Finishing?
    ensures Enabled(w', FINISH) && after == Apply(w', FINISH) && after.lists.owner.Idle?
    ensures Chain(w.lists.nextFree, w.lists.freeList, free) && Chain(w.lists.next, w.lists.full, full)
    ensures Chain(after.lists.nextFree, after.lists.freeList, Without(free, removed))
    ensures Chain(after.lists.next, after.lists.full, Without(full, removed)) && after.lists.npages == |Without(full, removed)|
    ensures forall p | p in full && p in w.pages && P.Out(w.pages[p]) == {} :: p in removed <==> p in free
    ensures forall p | p in removed :: p in free && p in full && p in w.pages && p in after.pages
    ensures forall p | p in removed :: Deallocs(w.pages[p]) == 0 && P.Out(after.pages[p]) == {} && Deallocs(after.pages[p]) == 1
    ensures forall p | p in w.pages ::
              p in after.pages && (P.Owned(after.pages[p]) <==> P.Owned(w.pages[p]) && p !in removed)
  {
    hide Inv, Enabled, Apply, Abs, R.ShrinkRun, R.Reachable, P.Out, P.Owned, P.Reachable, Deallocs, HeldOf, DeallocsOf, ReleasedOf;
    hide L.Enabled, L.Apply, Chain, Without, ShowsAs;
    var k: nat :| ReachableIn(w, k);
    ReachableInInv(w, k);
    var m := RunShows(w, w', n);
    after := Returns(w');
    var s, end := Abs(w), Abs(after);
    UnfoldInv(w);
    AbsFields(w);
    AbsFields(after);
    Unfold(w', after, L.Shrink(L.FinishShrink));
    var last;
    free, full, removed, last := R.ShrinkFilters(s, Abs(w'), m);
    InPages(w);
    StepGrows(w', FINISH);
    OutAndOwned(w);
    OutAndOwned(after);
    ReturnedPages(w, after, removed);
  }

  /** What the lists say of a page is what its words say. */
  lemma OutAndOwned(w: Whole)
    ensures forall p | p in w.pages ::
              p in HeldOf(w.pages) && HeldOf(w.pages)[p] == P.Out(w.pages[p]) &&
              p in DeallocsOf(w.pages) && DeallocsOf(w.pages)[p] == Deallocs(w.pages[p]) &&
              (p in ReleasedOf(w.pages) <==> !P.Owned(w.pages[p]))
    ensures HeldOf(w.pages).Keys == DeallocsOf(w.pages).Keys == w.pages.Keys
  {
    hide P.Out, P.Owned, Deallocs;
  }

  lemma InPages(w: Whole)
    requires Inv(w)
    ensures w.pages.Keys == w.lists.next.Keys
  {
  }

  /** Its last access. */
  lemma Returns(w: Whole) returns (after: Whole)
    requires Inv(w) && w.lists.owner.Finishing?
    ensures Enabled(w, FINISH) && after == Apply(w, FINISH) && Inv(after) && ShowsAs(w, after, L.Shrink(L.FinishShrink))
  {
    hide Inv, Abs, HeldOf, DeallocsOf, ReleasedOf;
    AbsFields(w);
    KeepsOnLists(w, L.Shrink(L.FinishShrink));
    after := Apply(w, FINISH);
  }

  /** A page was let go if and only if it was taken. */
  lemma ReturnedPages(w: Whole, after: Whole, removed: set<Addr>)
    requires Inv(after) && w.pages.Keys <= after.pages.Keys
    requires forall p | p in w.pages && p !in removed :: P.Owned(after.pages[p]) <==> P.Owned(w.pages[p])
    requires forall p | p in removed :: p in after.pages && Deallocs(after.pages[p]) == 1
    ensures forall p | p in w.pages ::
              p in after.pages && (P.Owned(after.pages[p]) <==> P.Owned(w.pages[p]) && p !in removed)
  {
    hide P.Out, P.Owned, Deallocs, P.Reachable, R.Reachable, ThreadsOk, Abs;
    forall p | p in w.pages
      ensures p in after.pages && (P.Owned(after.pages[p]) <==> P.Owned(w.pages[p]) && p !in removed)
    {
      if p in removed {
        DeallocsAre(after.pages[p]);
      }
    }
  }

  // ---------------------------------------------------------------- it ends

  /** The owner's next access. */
  function OwnersMove(o: L.Owner): Move {
    match o
    case FreeLoop(_, at) => if at.Test? then Test else OnLists(L.Shrink(L.FreeStep))
    case FullLoop(_, _) => OnLists(L.Shrink(L.FullStep))
    case DropCheck(_, _, _) => Check
    case DropOne(_, _, _) => LetGo
    case _ => FINISH
  }

  /** It can make that access, and the lists see it as the access of theirs that is next. */
  lemma OwnerMoves(w: Whole)
    requires Inv(w) && I.Shrinking(w.lists.owner)
    ensures Enabled(w, OwnersMove(w.lists.owner)) && Inv(Apply(w, OwnersMove(w.lists.owner)))
    ensures ShowsAs(w, Apply(w, OwnersMove(w.lists.owner)), L.Shrink(Progress.NextOp(w.lists.owner)))
  {
    hide Inv, Abs, L.Enabled, ShowsAs, Apply, HeldOf, DeallocsOf, ReleasedOf;
    UnfoldInv(w);
    AbsFields(w);
    CanMove(w);
    match w.lists.owner
    case FreeLoop(_, at) =>
      if at.Test? {
        KeepsTest(w);
      } else {
        CanShrink(w, L.FreeStep);
        KeepsOnLists(w, L.Shrink(L.FreeStep));
      }
    case FullLoop(_, _) => CanShrink(w, L.FullStep); KeepsOnLists(w, L.Shrink(L.FullStep));
    case DropCheck(_, _, _) => KeepsCheck(w);
    case DropOne(_, _, _) => CanLeave(w); KeepsLetGo(w);
    case Finishing(_, _) => CanShrink(w, L.FinishShrink); KeepsOnLists(w, L.Shrink(L.FinishShrink));
  }

  /** k accesses of the owner, and of nobody else, lead from w to end. */
  ghost predicate OwnerRun(w: Whole, end: Whole, k: nat)
    decreases k
  {
    if k == 0 then w == end
    else Enabled(w, OwnersMove(w.lists.owner)) && OwnerRun(Apply(w, OwnersMove(w.lists.owner)), end, k - 1)
  }

  /** From wherever it is the owner alone reaches the end of shrink_to_fit, reading words, in no more
      accesses than the bound says. */
  lemma ShrinkCompletes(w: Whole, w': Whole, n: nat) returns (end: Whole, k: nat, g: I.Lists)
    requires Reachable(w) && ShrinkRun(w, w', n)
    ensures I.Inv(Abs(w'), g) && OwnerRun(w', end, k) && k <= Progress.Remaining(w'.lists.owner, g)
    ensures ShrinkRun(w, end, n + k) && end.lists.owner.Finishing?
  {
    hide Inv, Enabled, Apply, Abs, R.ShrinkRun, R.Reachable, I.Inv, Progress.Remaining;
    var i: nat :| ReachableIn(w, i);
    ReachableInInv(w, i);
    var m := RunShows(w, w', n);
    UnfoldInv(w');
    g := R.ReachableInv(Abs(w'));
    end, k := OwnerCompletes(w, w', n, g);
  }

  /** A call on an idle arena, left alone, runs to its return. */
  lemma ShrinkAlone(w: Whole) returns (end: Whole, k: nat)
    requires Reachable(w) && w.lists.owner.Idle?
    ensures Enabled(w, BEGIN) && OwnerRun(Apply(w, BEGIN), end, k)
    ensures ShrinkRun(w, end, k) && end.lists.owner.Finishing? && Enabled(end, FINISH)
  {
    hide Inv, Abs, R.ShrinkRun, R.Reachable, I.Inv, Progress.Remaining, Reachable, OwnerRun, ShrinkRun, ShowsAs, Enabled, Apply;
    BeginsAlone(w);
    var g;
    end, k, g := ShrinkCompletes(w, Apply(w, BEGIN), 0);
    RunReaches(w, end, k);
    var after := Returns(end);
  }

  lemma BeginsAlone(w: Whole)
    requires Reachable(w) && w.lists.owner.Idle?
    ensures Enabled(w, BEGIN) && ShrinkRun(w, Apply(w, BEGIN), 0)
  {
  }

  lemma RunReaches(w: Whole, w': Whole, n: nat)
    requires Reachable(w) && ShrinkRun(w, w', n)
    ensures Inv(w')
  {
    hide Inv, Abs, R.ShrinkRun, R.Reachable, Enabled, Apply;
    var i: nat :| ReachableIn(w, i);
    ReachableInInv(w, i);
    var m := RunShows(w, w', n);
  }

  lemma {:induction false} OwnerCompletes(w: Whole, w': Whole, n: nat, g: I.Lists) returns (end: Whole, k: nat)
    requires ShrinkRun(w, w', n) && Inv(w') && I.Inv(Abs(w'), g)
    ensures OwnerRun(w', end, k) && k <= Progress.Remaining(w'.lists.owner, g)
    ensures ShrinkRun(w, end, n + k) && end.lists.owner.Finishing?
    decreases Progress.Remaining(w'.lists.owner, g)
  {
    hide Inv, Enabled, Apply, Abs, I.Inv, Progress.Remaining, ShowsAs, R.Reachable, L.Apply, L.Enabled, L.ShrinkStep, I.Follow, I.FollowShrink;
    AbsFields(w');
    RunShrinks(w, w', n);
    Progress.OwnerAdvances(Abs(w'), g);
    if w'.lists.owner.Finishing? {
      end, k := w', 0;
    } else {
      var op := Progress.NextOp(w'.lists.owner);
      OwnerMoves(w');
      var next := Apply(w', OwnersMove(w'.lists.owner));
      var g' := I.Follow(Abs(w'), g, L.Shrink(op));
      Unfold(w', next, L.Shrink(op));
      AbsFields(next);
      R.StepKeepsInv(Abs(w'), g, L.Shrink(op));
      Progress.AsStep(Abs(w'), g, op);
      Progress.NotPanicked(Abs(next), g');
      Progress.StillShrinks(Abs(w'), op);
      assert Next(w', next);
      RunExtends(w, w', next, n);
      end, k := OwnerCompletes(w, next, n + 1, g');
      k := k + 1;
    }
  }

  lemma Unfold(w: Whole, w': Whole, step: L.Step)
    requires ShowsAs(w, w', step)
    ensures L.Enabled(Abs(w), step) && Abs(w') == L.Apply(Abs(w), step)
  {
  }

  lemma RunShrinks(w: Whole, w': Whole, n: nat)
    requires ShrinkRun(w, w', n)
    ensures I.Shrinking(w'.lists.owner)
  {
  }

  lemma RunExtends(w: Whole, w': Whole, next: Whole, n: nat)
    requires ShrinkRun(w, w', n) && Next(w', next) && I.Shrinking(next.lists.owner)
    ensures ShrinkRun(w, next, n + 1)
  {
  }

  lemma CanShrink(w: Whole, op: L.ShrinkOp)
    requires R.Reachable(Abs(w)) && op == Progress.NextOp(w.lists.owner)
    requires OwnersMove(w.lists.owner) == OnLists(L.Shrink(op)) && I.Shrinking(w.lists.owner)
    ensures Enabled(w, OnLists(L.Shrink(op)))
  {
    R.NothingPanics(Abs(w));
    hide R.Reachable, L.OwnerTouches;
  }

  lemma CanLeave(w: Whole)
    requires R.Reachable(Abs(w)) && w.lists.owner.DropOne?
    ensures Leaving(w.lists.owner).Some?
  {
    R.NothingPanics(Abs(w));
  }
}
