/** drop_block and Arena::drop in an arena as a whole, each alone, from any state that any interleaving
    reaches (src/page/arena.rs:146-210, src/arena.rs:621-631). */
module ArenaWholeDrop {
  import opened Options
  import opened Bitfield
  import opened Chains
  import opened ArenaWhole
  import opened ArenaWholeRuns
  import opened ArenaWholeAlone
  import D = ArenaDropAlone

  // ---------------------------------------------------------------- drop_block

  /** The end of drop_block, which is with the lists only. */
  lemma {:induction false} ListsAlone(w: Whole, t: ThreadId) returns (moves: seq<Move>, end: Whole)
    requires Inv(w) && t in w.lists.droppers
    ensures Runs(w, moves, end) && Inv(end) && end.pages == w.pages && D.Listed(Abs(w), t, Abs(end))
    decreases D.Ahead(Abs(w), w.lists.droppers[t])
  {
    hide Inv, I.Inv, Runs, Abs, R.Reachable, D.Listed, D.Ahead, L.DropStepOf, L.PendingAlive, ShowsAs, L.Apply, L.Enabled;
    UnfoldInv(w);
    DroppersAgree(w);
    var s := Abs(w);
    R.NothingPanics(s);
    var g := R.ReachableInv(s);
    D.WonFlag(s, g, t);
    D.StepsOn(s, t);
    var w1 := StepsLists(w, t);
    DroppersAgree(w1);
    if t in w1.lists.droppers {
      D.AliveKept(s, t);
      moves, end := ListsAlone(w1, t);
      RunsJoin(w, [OnLists(L.DropperStep(t))], w1, moves, end);
      moves := [OnLists(L.DropperStep(t))] + moves;
      D.ListedOn(s, t, Abs(end));
    } else {
      moves, end := [OnLists(L.DropperStep(t))], w1;
      StopsListed(s, t);
    }
  }

  lemma StopsListed(s: L.State, t: ThreadId)
    requires t in s.droppers && L.Known(s, s.droppers[t].page) && t !in L.DropStepOf(s, t).droppers
    requires var d := s.droppers[t]; (I.Pushing(d) ==> s.inFree[d.page]) && (d.CasHead? ==> s.nextFree[d.page] == d.head)
    ensures D.Listed(s, t, L.DropStepOf(s, t))
  {
    hide L.PendingAlive;
    var p := s.droppers[t].page;
    assert s.inFree[p] ==> s.inFree[p := true] == s.inFree;
    assert s.nextFree[p := s.nextFree[p]] == s.nextFree;
  }

  lemma DroppersAgree(w: Whole)
    ensures Abs(w).droppers == w.lists.droppers
  {
  }

  lemma StepsLists(w: Whole, t: ThreadId) returns (w1: Whole)
    requires Inv(w) && t in w.lists.droppers && L.Enabled(Abs(w), L.DropperStep(t))
    ensures Runs(w, [OnLists(L.DropperStep(t))], w1) && Inv(w1) && w1.pages == w.pages
    ensures Abs(w1) == L.Apply(Abs(w), L.DropperStep(t))
  {
    hide Inv, Runs, Abs, ShowsAs, L.Apply, L.Enabled;
    CanStep(w, t);
    KeepsOnLists(w, L.DropperStep(t));
    Once(w, OnLists(L.DropperStep(t)));
    w1 := Apply(w, OnLists(L.DropperStep(t)));
    Unfolds(w, w1, L.DropperStep(t));
    NoNewPages(L.DropperStep(t));
    assert w.pages + NewPages(L.DropperStep(t)) == w.pages;
  }

  lemma CanStep(w: Whole, t: ThreadId)
    requires L.Enabled(Abs(w), L.DropperStep(t))
    ensures Enabled(w, OnLists(L.DropperStep(t)))
  {
  }

  /** The page has its block back, and has been deallocated if that was the last block of a page let go. */
  ghost predicate BlockBack(s: P.State, i: nat, end: P.State) {
    end == s.(atom := end.atom, held := s.held - {i}, deallocs := end.deallocs) && P.FreeBlocks(end) == P.FreeBlocks(s) + {i} &&
    end.deallocs == s.deallocs + if LastBlock(s, i) then 1 else 0
  }

  /** The last block of a page let go. */
  ghost predicate LastBlock(s: P.State, i: nat) {
    !P.Owned(s) && P.FreeBlocks(s) + {i} == Indices()
  }

  /** drop_block of a block somebody holds, alone: the block is free in the words of its page; a page let
      go is deallocated with its last block, and otherwise the page is listed if need be. */
  lemma DropAlone(w: Whole, t: ThreadId, p: Addr, i: nat) returns (moves: seq<Move>, end: Whole)
    requires Reachable(w) && p in w.pages && !Busy(w, t) && i in w.pages[p].held
    ensures Runs(w, moves, end) && p in end.pages && end.pages == w.pages[p := end.pages[p]]
    ensures BlockBack(w.pages[p], i, end.pages[p])
    ensures if LastBlock(w.pages[p], i) then end.lists == w.lists
            else D.Listed(Abs(Whole(w.lists.(droppers := w.lists.droppers[t := L.LoadFlag(p)]), end.pages)), t, Abs(end))
  {
    hide Inv, Runs, Abs, Reachable, Busy, P.FreeBlocks, P.Reachable, P.Apply, P.Enabled, D.Listed, P.Owned, BlockBack, LastBlock;
    ReachesInv(w);
    PageReachable(w, p);
    NotBusy(w, t, p);
    PageBack(w.pages[p], t, i);
    var first, w2 := GivesBack(w, t, p, i);
    if LastBlock(w.pages[p], i) {
      end := FreesAlone(w2, t, p);
      RunsJoin(w, first, w2, [Frees(t, p)], end);
      moves := first + [Frees(t, p)];
      assert end.pages == w.pages[p := end.pages[p]];
    } else {
      var more;
      more, end := ListsAlone(w2, t);
      RunsJoin(w, first, w2, more, end);
      moves := first + more;
    }
  }

  lemma NotBusy(w: Whole, t: ThreadId, p: Addr)
    requires !Busy(w, t) && p in w.pages
    ensures t !in w.pages[p].droppers
  {
  }

  /** What its accesses do to the page. */
  lemma PageBack(s: P.State, t: ThreadId, i: nat)
    requires P.Reachable(s) && t !in s.droppers && i in s.held
    ensures P.Enabled(s, P.BeginDrop(t, i)) && P.Enabled(P.Apply(s, P.BeginDrop(t, i)), P.FetchAdd(t))
    ensures var s2 := P.Apply(P.Apply(s, P.BeginDrop(t, i)), P.FetchAdd(t));
            if LastBlock(s, i) then
              t in s2.droppers && s2.droppers[t].DropperFreeing? &&
              BlockBack(s, i, s2.(droppers := s2.droppers - {t}, deallocs := s2.deallocs + 1))
            else t !in s2.droppers && BlockBack(s, i, s2)
  {
    hide P.FreeBlocks, P.Reachable, P.Apply, P.Enabled, P.Owned;
    Q.DropForm(s, t, i);
    NotDeallocated(s, t, i);
    var s2 := P.Apply(P.Apply(s, P.BeginDrop(t, i)), P.FetchAdd(t));
    assert s.droppers[t := P.DropperFreeing] - {t} == s.droppers;
    var s3 := s2.(droppers := s2.droppers - {t}, deallocs := s2.deallocs + 1);
    OwnedByPosition(s2, s3);
    Q.SameFree(s2, s3);
  }

  lemma OwnedByPosition(s: P.State, s': P.State)
    requires s'.owner == s.owner
    ensures P.Owned(s') == P.Owned(s)
  {
  }

  lemma FreesAlone(w: Whole, t: ThreadId, p: Addr) returns (end: Whole)
    requires p in w.pages && t in w.pages[p].droppers && w.pages[p].droppers[t].DropperFreeing?
    ensures Runs(w, [Frees(t, p)], end) && end.lists == w.lists && p in end.pages && end.pages == w.pages[p := end.pages[p]]
    ensures end.pages[p] == w.pages[p].(droppers := w.pages[p].droppers - {t}, deallocs := w.pages[p].deallocs + 1)
  {
    hide Runs;
    Deallocates(w.pages[p], t);
    Once(w, Frees(t, p));
    end := Apply(w, Frees(t, p));
  }

  lemma NotDeallocated(s: P.State, t: ThreadId, i: nat)
    requires P.Reachable(s) && P.Enabled(s, P.BeginDrop(t, i))
    ensures s.deallocs == 0 && t !in s.droppers
  {
    P.NothingAfterDeallocation(s, P.BeginDrop(t, i));
  }

  lemma Deallocates(s: P.State, t: ThreadId)
    requires t in s.droppers && s.droppers[t].DropperFreeing?
    ensures P.Enabled(s, P.Deallocate(t)) && P.Apply(s, P.Deallocate(t)) == s.(droppers := s.droppers - {t}, deallocs := s.deallocs + 1)
  {
  }

  lemma ReachesInv(w: Whole)
    requires Reachable(w)
    ensures Inv(w)
  {
    hide Inv, ReachableIn;
    var n: nat :| ReachableIn(w, n);
    ReachableInInv(w, n);
  }

  /** Its accesses to the words. */
  lemma GivesBack(w: Whole, t: ThreadId, p: Addr, i: nat) returns (moves: seq<Move>, w2: Whole)
    requires Inv(w) && p in w.pages && !Busy(w, t)
    requires P.Enabled(w.pages[p], P.BeginDrop(t, i)) && P.Enabled(P.Apply(w.pages[p], P.BeginDrop(t, i)), P.FetchAdd(t))
    ensures Runs(w, moves, w2) && Inv(w2) && p in w2.pages && w2.pages == w.pages[p := w2.pages[p]]
    ensures w2.pages[p] == P.Apply(P.Apply(w.pages[p], P.BeginDrop(t, i)), P.FetchAdd(t))
    ensures w2.lists == if t in w2.pages[p].droppers then w.lists else w.lists.(droppers := w.lists.droppers[t := L.LoadFlag(p)])
  {
    hide Inv, Runs, P.Apply, P.Enabled;
    var w1 := w.(pages := Turn(w, p, P.BeginDrop(t, i)));
    KeepsBeginDrop(w, t, p, i);
    Once(w, BeginDrop(t, p, i));
    KeepsFetchAdd(w1, t, p);
    Once(w1, FetchAdd(t, p));
    w2 := Apply(w1, FetchAdd(t, p));
    RunsJoin(w, [BeginDrop(t, p, i)], w1, [FetchAdd(t, p)], w2);
    moves := [BeginDrop(t, p, i)] + [FetchAdd(t, p)];
  }

  // ---------------------------------------------------------------- Arena::drop

  /** drop_page has run its course on every page. */
  lemma FreesWhatIsLeft(w: Whole, p: Addr)
    requires Reachable(w) && p in w.pages && w.pages[p].owner.Freeing?
    ensures Enabled(w, OwnerFrees(p))
    ensures var end := Apply(w, OwnerFrees(p));
            end.lists == w.lists && p in end.pages && end.pages == w.pages[p := end.pages[p]] &&
            end.pages[p] == w.pages[p].(owner := P.Gone, deallocs := 1)
  {
    ReachesInv(w);
    PageReachable(w, p);
    P.NothingAfterDeallocation(w.pages[p], P.OwnerDeallocate);
  }

  /** Arena::drop, alone: it lets every page go. */
  lemma CloseAlone(w: Whole) returns (moves: seq<Move>, end: Whole)
    requires Reachable(w) && w.lists.owner.Idle?
    ensures Runs(w, moves, end) && moves != [] && moves[0] == OnLists(L.Shrink(L.BeginClose))
    ensures end.lists.owner.Closed? && end.pages.Keys == w.pages.Keys && D.Ended(Abs(w), Abs(end))
    ensures forall p | p in end.pages :: !P.Owned(end.pages[p])
  {
    hide Inv, I.Inv, Runs, Abs, R.Reachable, Reachable, D.Ended, P.Owned, L.OwnerTouches;
    ReachesInv(w);
    UnfoldInv(w);
    AgreesOn(w);
    var s := Abs(w);
    R.NothingPanics(s);
    var g := R.ReachableInv(s);
    var w1 := BeginsClose(w, g);
    R.ChainsOf(s, g);
    AgreesOn(w1);
    var rest;
    rest, end := ClosesOn(w1, g.(n := 0));
    RunsJoin(w, [OnLists(L.Shrink(L.BeginClose))], w1, rest, end);
    moves := [OnLists(L.Shrink(L.BeginClose))] + rest;
    D.SameEnd(s, Abs(w1), Abs(end));
    EndsOwned(w, end, s);
  }

  lemma BeginsClose(w: Whole, g: I.Lists) returns (w1: Whole)
    requires Inv(w) && I.Inv(Abs(w), g) && w.lists.owner.Idle? && L.OwnerTouches(Abs(w))
    ensures Runs(w, [OnLists(L.Shrink(L.BeginClose))], w1) && Inv(w1) && w1.pages == w.pages
    ensures Abs(w1) == Abs(w).(owner := L.Closing(Abs(w).full)) && I.Inv(Abs(w1), g.(n := 0))
  {
    hide Inv, I.Inv, Runs, Abs, ShowsAs, I.FollowShrink;
    AgreesOn(w);
    var step := L.Shrink(L.BeginClose);
    CanShrinkOn(w, L.BeginClose);
    KeepsOnLists(w, step);
    Once(w, OnLists(step));
    w1 := Apply(w, OnLists(step));
    Unfolds(w, w1, step);
    R.StepKeepsInv(Abs(w), g, step);
    FollowsClose(Abs(w), g);
    assert w.pages + NewPages(step) == w.pages;
  }

  lemma CanShrinkOn(w: Whole, op: L.ShrinkOp)
    requires L.OwnerTouches(Abs(w))
    requires (op.BeginClose? && w.lists.owner.Idle?) || (op.CloseStep? && w.lists.owner == L.Closing(None))
    ensures Enabled(w, OnLists(L.Shrink(op))) && L.Enabled(Abs(w), L.Shrink(op))
  {
  }

  lemma FollowsClose(s: L.State, g: I.Lists)
    ensures I.Follow(s, g, L.Shrink(L.BeginClose)) == g.(n := 0)
    ensures s.owner.Closing? && s.owner.current.Some? ==> I.Follow(s, g, L.Shrink(L.CloseStep)) == g.(n := g.n + 1)
    ensures s.owner == L.Closing(None) ==> I.Follow(s, g, L.Shrink(L.CloseStep)) == g
  {
  }

  lemma {:induction false} ClosesOn(w: Whole, g: I.Lists) returns (moves: seq<Move>, end: Whole)
    requires Inv(w) && I.Inv(Abs(w), g) && w.lists.owner.Closing? && g.n <= |g.full|
    ensures Runs(w, moves, end) && Inv(end) && end.pages.Keys == w.pages.Keys && D.Ended(Abs(w), Abs(end))
    decreases |g.full| - g.n
  {
    hide Inv, I.Inv, Runs, Abs, R.Reachable, D.Ended, P.Owned, L.OwnerTouches, L.Apply, L.Enabled, I.Follow;
    UnfoldInv(w);
    AgreesOn(w);
    var s := Abs(w);
    R.NothingPanics(s);
    D.AtClose(s, g);
    FollowsClose(s, g);
    if w.lists.owner.current.None? {
      end := LastClose(w, g);
      moves := [OnLists(L.Shrink(L.CloseStep))];
      EndsLast(s, g, Abs(end));
    } else {
      var w1 := LetsOneGo(w, g);
      AgreesOn(w1);
      moves, end := ClosesOn(w1, g.(n := g.n + 1));
      RunsJoin(w, [LetGo], w1, moves, end);
      moves := [LetGo] + moves;
      EndsOn(s, Abs(w1), Abs(end));
    }
  }

  /** The last access, with no page left. */
  lemma LastClose(w: Whole, g: I.Lists) returns (end: Whole)
    requires Inv(w) && I.Inv(Abs(w), g) && w.lists.owner == L.Closing(None) && L.OwnerTouches(Abs(w))
    ensures Runs(w, [OnLists(L.Shrink(L.CloseStep))], end) && Inv(end) && end.pages == w.pages
    ensures Abs(end) == Abs(w).(owner := L.Closed) && I.Inv(Abs(end), g)
  {
    hide Inv, I.Inv, Runs, Abs, ShowsAs;
    AgreesOn(w);
    var step := L.Shrink(L.CloseStep);
    CanShrinkOn(w, L.CloseStep);
    KeepsOnLists(w, step);
    Once(w, OnLists(step));
    end := Apply(w, OnLists(step));
    Unfolds(w, end, step);
    R.StepKeepsInv(Abs(w), g, step);
    FollowsClose(Abs(w), g);
    assert w.pages + NewPages(step) == w.pages;
  }

  /** One page more is let go. */
  lemma LetsOneGo(w: Whole, g: I.Lists) returns (w1: Whole)
    requires Inv(w) && I.Inv(Abs(w), g) && w.lists.owner.Closing? && w.lists.owner.current.Some?
    ensures Runs(w, [LetGo], w1) && Inv(w1) && w1.pages.Keys == w.pages.Keys
    ensures I.Inv(Abs(w1), g.(n := g.n + 1)) && Abs(w1).owner.Closing?
    ensures var s, s' := Abs(w), Abs(w1);
            s' == s.(released := s'.released, deallocs := s'.deallocs, owner := s'.owner) && s'.deallocs.Keys == s.deallocs.Keys
  {
    hide Inv, I.Inv, Runs, Abs, ShowsAs, P.Owned, R.Reachable;
    AgreesOn(w);
    UnfoldInv(w);
    CanMove(w);
    KeepsLetGo(w);
    Once(w, LetGo);
    w1 := Apply(w, LetGo);
    Unfolds(w, w1, LeavingStep(w));
    R.StepKeepsInv(Abs(w), g, L.Shrink(L.CloseStep));
    FollowsClose(Abs(w), g);
    ClosedForm(Abs(w));
  }

  lemma ClosedForm(s: L.State)
    requires L.Enabled(s, L.Shrink(L.CloseStep)) && s.owner.current.Some?
    ensures var s' := L.Apply(s, L.Shrink(L.CloseStep));
            s' == s.(released := s'.released, deallocs := s'.deallocs, owner := s'.owner) && s'.deallocs.Keys == s.deallocs.Keys &&
            s'.owner.Closing?
  {
  }

  lemma EndsLast(s: L.State, g: I.Lists, end: L.State)
    requires I.Inv(s, g) && I.Inv(end, g) && end == s.(owner := L.Closed)
    ensures D.Ended(s, end)
  {
    hide I.Inv;
    D.AllLetGo(s, end, g);
    D.KnowsPages(s, g);
  }

  lemma EndsOn(s: L.State, s1: L.State, end: L.State)
    requires s1 == s.(released := s1.released, deallocs := s1.deallocs, owner := s1.owner) && s1.deallocs.Keys == s.deallocs.Keys
    requires D.Ended(s1, end)
    ensures D.Ended(s, end)
  {
    assert forall p | p in s.deallocs.Keys :: p in s1.deallocs.Keys;
    assert forall p | p in s1.deallocs.Keys :: p in s.deallocs.Keys;
  }

  lemma EndsOwned(w: Whole, end: Whole, s: L.State)
    requires Inv(w) && Inv(end) && s == Abs(w) && D.Ended(s, Abs(end)) && end.pages.Keys == w.pages.Keys
    ensures end.lists.owner.Closed? && forall p | p in end.pages :: !P.Owned(end.pages[p])
  {
    hide P.Owned, P.Reachable, R.Reachable;
    AbsFields(end);
    AbsFields(w);
    forall p | p in end.pages
      ensures !P.Owned(end.pages[p])
    {
      assert p in w.lists.next.Keys;
      AtPage(end.pages, p);
    }
  }
}
