/** What drop_block and Arena::drop do to the lists of an Arena when their thread runs alone for a
    while, from any state that any interleaving reaches (src/page/arena.rs:146-195,
    src/arena.rs:621-631). */
module ArenaDropAlone {
  import opened Options
  import opened Chains
  import opened ArenaLists
  import opened ArenaListsInv
  import opened ArenaRuns
  import opened ArenaAlone

  // ---------------------------------------------------------------- the end of drop_block

  /** The accesses a dropper has still to make, if nobody interferes. */
  function Ahead(s: State, d: Dropper): nat {
    match d
    case LoadFlag(_) => 6
    case SwapFlag(_) => 5
    case Upgrade(_) => 4
    case LoadHead(_) => 3
    case StoreNext(_, head) => if head == s.pending then 2 else 5
    case CasHead(_, head) => if head == s.pending then 1 else 4
  }

  /** The page is listed if its flag was clear and the arena, or another dropper, keeps the pending
      list alive: it becomes the head, in front of what was there. */
  ghost predicate Listed(s: State, t: ThreadId, end: State) {
    t in s.droppers && Known(s, s.droppers[t].page) &&
    var d, p := s.droppers[t], s.droppers[t].page;
    if !Pushing(d) && s.inFree[p] then end == s.(droppers := s.droppers - {t})
    else if (!Pushing(d) || d.Upgrade?) && !PendingAlive(s) then
      end == s.(inFree := s.inFree[p := true], droppers := s.droppers - {t})
    else
      end == s.(inFree := s.inFree[p := true], nextFree := s.nextFree[p := s.pending], pending := Some(p),
                droppers := s.droppers - {t})
  }

  /** From any position of the dropper, and whatever head it read before, its own accesses, at most
      six, end drop_block. */
  lemma {:induction false} ListsAlone(s: State, t: ThreadId) returns (steps: seq<Step>, end: State)
    requires Reachable(s) && t in s.droppers
    ensures Runs(s, steps, end) && 1 <= |steps| <= Ahead(s, s.droppers[t]) <= 6 && forall step | step in steps :: step == DropperStep(t)
    ensures Listed(s, t, end)
    decreases Ahead(s, s.droppers[t])
  {
    hide Reachable, Runs, PendingAlive, Inv;
    NothingPanics(s);
    var s' := DropStepOf(s, t);
    var g := ReachableInv(s);
    WonFlag(s, g, t);
    StepsOn(s, t);
    if t in s'.droppers {
      AliveKept(s, t);
      steps, end := ListsAlone(s', t);
      RunsOn(s, DropperStep(t), steps, end);
      steps := [DropperStep(t)] + steps;
      ListedOn(s, t, end);
    } else {
      steps, end := [DropperStep(t)], s';
      Once(s, DropperStep(t));
    }
  }

  lemma StepsOn(s: State, t: ThreadId)
    requires Reachable(s) && t in s.droppers && Known(s, s.droppers[t].page)
    ensures Enabled(s, DropperStep(t)) && Apply(s, DropperStep(t)) == DropStepOf(s, t) && Reachable(DropStepOf(s, t))
  {
    hide DropStepOf;
    Reaches(s, DropperStep(t), Apply(s, DropperStep(t)));
  }

  /** A thread that has won the flag finds it set, and the link it stored is the head it read. */
  lemma WonFlag(s: State, g: Lists, t: ThreadId)
    requires Inv(s, g) && t in s.droppers
    ensures var d := s.droppers[t];
            Known(s, d.page) && (Pushing(d) ==> s.inFree[d.page]) && (d.CasHead? ==> s.nextFree[d.page] == d.head)
  {
    hide ListInv, Hands, FullMembers, OwnerInv;
    var p := s.droppers[t].page;
    assert FlagInv(s, g, p);
    if Pushing(s.droppers[t]) {
      assert Pushes(s, t, p);
    }
  }

  /** The pending list does not die because of this dropper's access. */
  lemma AliveKept(s: State, t: ThreadId)
    requires t in s.droppers && Known(s, s.droppers[t].page) && t in DropStepOf(s, t).droppers
    ensures var d, s' := s.droppers[t], DropStepOf(s, t);
            !Pushing(d) ==> (PendingAlive(s') <==> PendingAlive(s))
    ensures var d, s' := s.droppers[t], DropStepOf(s, t); Ahead(s', s'.droppers[t]) < Ahead(s, d)
  {
    var s' := DropStepOf(s, t);
    if !Pushing(s.droppers[t]) {
      assert forall u | u in s.droppers && u != t :: u in s'.droppers && s'.droppers[u] == s.droppers[u];
      assert forall u | u in s'.droppers && u != t :: u in s.droppers && s'.droppers[u] == s.droppers[u];
    }
  }

  lemma ListedOn(s: State, t: ThreadId, end: State)
    requires t in s.droppers && Known(s, s.droppers[t].page) && t in DropStepOf(s, t).droppers && Listed(DropStepOf(s, t), t, end)
    requires Pushing(s.droppers[t]) ==> s.inFree[s.droppers[t].page]
    requires !Pushing(s.droppers[t]) ==> (PendingAlive(DropStepOf(s, t)) <==> PendingAlive(s))
    ensures Listed(s, t, end)
  {
    hide PendingAlive;
    var s', p := DropStepOf(s, t), s.droppers[t].page;
    assert s'.droppers - {t} == s.droppers - {t};
    assert s.inFree[p := true][p := true] == s.inFree[p := true];
    if s.droppers[t].StoreNext? {
      assert s'.nextFree[p := s.pending] == s.nextFree[p := s.pending];
    }
  }

  /** drop_block: the block is given back; the last block of a page let go deallocates the page, and
      otherwise the page is listed if need be. */
  lemma DropBlockAlone(s: State, t: ThreadId, p: Addr, i: nat) returns (steps: seq<Step>, end: State)
    requires Reachable(s) && t !in s.droppers && p in s.next && p in s.held && i in s.held[p]
    ensures p in s.deallocs && Runs(s, steps, end) && 1 <= |steps| <= 7 && steps[0] == GiveBack(t, p, i)
    ensures forall step | step in steps[1..] :: step == DropperStep(t)
    ensures var s0 := s.(held := s.held[p := s.held[p] - {i}]);
            if s0.held[p] == {} && p in s.released then end == s0.(deallocs := s.deallocs[p := s.deallocs[p] + 1])
            else Listed(s0.(droppers := s.droppers[t := LoadFlag(p)]), t, end)
  {
    hide Runs, Reachable, Listed;
    PageKnown(s, p);
    var s1 := Apply(s, GiveBack(t, p, i));
    if t in s1.droppers {
      Reaches(s, GiveBack(t, p, i), Apply(s, GiveBack(t, p, i)));
      steps, end := ListsAlone(s1, t);
      RunsOn(s, GiveBack(t, p, i), steps, end);
      steps := [GiveBack(t, p, i)] + steps;
    } else {
      Once(s, GiveBack(t, p, i));
      steps, end := [GiveBack(t, p, i)], s1;
    }
  }

  lemma PageKnown(s: State, p: Addr)
    requires Reachable(s) && p in s.next
    ensures Known(s, p)
  {
    hide ListInv, Flags, Pushers, Hands, OwnerInv, FullMembers;
    var g := ReachableInv(s);
  }

  // ---------------------------------------------------------------- Arena::drop

  /** What Arena::drop does: every page is let go, which deallocates those with no block out. */
  ghost predicate Ended(s: State, end: State) {
    end == s.(released := s.next.Keys, deallocs := end.deallocs, owner := Closed) && end.deallocs.Keys == s.deallocs.Keys &&
    forall p | p in s.next :: p in s.held && p in s.deallocs && end.deallocs[p] == if s.held[p] == {} then 1 else 0
  }

  /** The owner alone ends Arena::drop, with as many accesses as there are pages on the full list, and
      two. */
  lemma CloseAlone(s: State) returns (steps: seq<Step>, end: State)
    requires Reachable(s) && s.owner.Idle?
    ensures Runs(s, steps, end) && |steps| == s.npages + 2 && |steps| > 0 && steps[0] == Shrink(BeginClose)
    ensures forall step | step in steps[1..] :: step == Shrink(CloseStep)
    ensures Ended(s, end)
  {
    hide Runs, Reachable, Inv;
    var g := ReachableInv(s);
    var s1 := s.(owner := Closing(s.full));
    StepKeepsInv(s, g, Shrink(BeginClose));
    Reaches(s, Shrink(BeginClose), Apply(s, Shrink(BeginClose)));
    ChainsOf(s, g);
    steps, end := ClosesOn(s1, g.(n := 0));
    RunsOn(s, Shrink(BeginClose), steps, end);
    steps := [Shrink(BeginClose)] + steps;
    SameEnd(s, s1, end);
  }

  lemma SameEnd(s: State, s1: State, end: State)
    requires s1 == s.(owner := s1.owner) && Ended(s1, end)
    ensures Ended(s, end)
  {
  }

  lemma {:induction false} ClosesOn(s: State, g: Lists) returns (steps: seq<Step>, end: State)
    requires Reachable(s) && Inv(s, g) && s.owner.Closing?
    ensures g.n <= |g.full| && Runs(s, steps, end) && |steps| == |g.full| - g.n + 1
    ensures forall step | step in steps :: step == Shrink(CloseStep)
    ensures Ended(s, end)
    decreases |g.full| - g.n
  {
    hide Runs, Reachable, Inv;
    NothingPanics(s);
    AtClose(s, g);
    var s1 := ShrinkStep(s, CloseStep);
    StepKeepsInv(s, g, Shrink(CloseStep));
    Reaches(s, Shrink(CloseStep), Apply(s, Shrink(CloseStep)));
    if s.owner.current.None? {
      Once(s, Shrink(CloseStep));
      steps, end := [Shrink(CloseStep)], s1;
      AllLetGo(s, s1, FollowShrink(s, g, CloseStep));
      KnowsPages(s, g);
    } else {
      steps, end := ClosesOn(s1, g.(n := g.n + 1));
      RunsOn(s, Shrink(CloseStep), steps, end);
      steps := [Shrink(CloseStep)] + steps;
    }
  }

  lemma AtClose(s: State, g: Lists)
    requires Inv(s, g) && s.owner.Closing?
    ensures g.n <= |g.full| && s.owner.current == At(g.full, g.n)
  {
    hide MemInv, ListInv, Flags, Pushers, Hands;
  }

  lemma AllLetGo(s: State, s1: State, g: Lists)
    requires Inv(s1, g) && s1 == s.(owner := Closed)
    ensures s.released == s.next.Keys
  {
    hide ListInv, Flags, Pushers, Hands, OwnerInv;
    assert forall p | p in s.next.Keys :: p in s.released;
  }

  lemma KnowsPages(s: State, g: Lists)
    requires Inv(s, g)
    ensures s.deallocs.Keys == s.next.Keys
    ensures forall p | p in s.next :: p in s.held && p in s.deallocs && s.deallocs[p] == if p in s.released && s.held[p] == {} then 1 else 0
  {
    hide ListInv, Flags, Pushers, Hands, OwnerInv, FullMembers;
    forall p | p in s.next
      ensures p in s.held && p in s.deallocs && s.deallocs[p] == if p in s.released && s.held[p] == {} then 1 else 0
    {
      assert PageInv(s, p);
    }
  }
}
