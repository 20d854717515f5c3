/** What find_place, drop_block and Arena::drop do to the lists of an Arena: find_place access by
    access while droppers interfere, and all three as a whole when their thread runs alone for a
    while, from any state that any interleaving reaches (src/arena.rs:46-102, src/arena.rs:621-631,
    src/page/arena.rs:146-195). */
module ArenaAlone {
  import opened Options
  import opened Bitfield
  import opened Chains
  import opened Growth
  import opened ArenaLists
  import opened ArenaListsInv
  import opened ArenaFind
  import opened ArenaRuns
  import opened ArenaProgress

  // ---------------------------------------------------------------- find_place, droppers at work

  /** The owner sets out to make pages only by an access that finds the pending list null; if that
      access finds it not null, the owner's next one makes its head, whatever it is then, the free
      list, and empties it. */
  lemma PendingFirst(s: State, step: Step)
    requires Reachable(s) && Enabled(s, step)
    ensures var s' := Apply(s, step);
            (s'.owner.Growing? && !s.owner.Growing? ==> s.owner.ReadPending? && s.pending.None?) &&
            (s.owner.ReadPending? && s'.owner != s.owner ==> s'.owner == if s.pending.Some? then SwapPending else Growing) &&
            (s.owner.SwapPending? ==> s.freeList.None? && s.pending.Some?) &&
            (s.owner.SwapPending? && s'.owner != s.owner ==>
               s'.owner.Scan? && s'.freeList == s.pending && s'.pending.None?)
  {
    var g := ReachableInv(s);
    SwapsPending(s, g);
    hide Inv, Reachable, FindStep, ShrinkStep, DropStepOf, GiveBackStep, OwnerTouches, FindEnabled, ShrinkEnabled, PendingAlive;
    match step
    case Find(op) => FindsPending(s, op);
    case Shrink(op) => ShrinksElsewhere(s, op);
    case GiveBack(t, p, block) => GivesElsewhere(s, t, p, block);
    case DropperStep(t) => DropsElsewhere(s, t);
  }

  lemma GivesElsewhere(s: State, t: ThreadId, p: Addr, block: nat)
    requires Known(s, p)
    ensures GiveBackStep(s, t, p, block).owner == s.owner
  {
  }

  lemma SwapsPending(s: State, g: Lists)
    requires Inv(s, g)
    ensures s.owner.SwapPending? ==> s.freeList.None? && s.pending.Some?
  {
    hide MemInv, ListInv, Flags, Pushers, Hands, FullMembers;
  }

  lemma FindsPending(s: State, op: FindOp)
    requires Enabled(s, Find(op))
    ensures var s' := FindStep(s, op);
            (s'.owner.Growing? ==> s.owner.ReadPending? && s.pending.None?) &&
            (s.owner.ReadPending? ==> s'.owner == if s.pending.Some? then SwapPending else Growing) &&
            (s.owner.SwapPending? ==> s'.owner.Scan? && s'.freeList == s.pending && s'.pending.None?)
  {
    hide NewLinks, FillPages, OwnerTouches;
  }

  lemma ShrinksElsewhere(s: State, op: ShrinkOp)
    requires Enabled(s, Shrink(op))
    ensures !s.owner.ReadPending? && !s.owner.SwapPending? && !ShrinkStep(s, op).owner.Growing?
  {
    hide FreeLoopStep, FullLoopStep, OwnerTouches;
    match op
    case FreeStep => FreeLoopStays(s, s.owner.cursor, s.owner.at);
    case FullStep => FullLoopStays(s, s.owner.cursor, s.owner.at);
    case _ =>
  }

  lemma DropsElsewhere(s: State, t: ThreadId)
    requires Enabled(s, DropperStep(t))
    ensures DropStepOf(s, t).owner == s.owner
  {
    hide PendingAlive;
  }

  // ---------------------------------------------------------------- runs

  /** These accesses lead from s to end. */
  ghost predicate Runs(s: State, steps: seq<Step>, end: State)
    decreases |steps|
  {
    if steps == [] then s == end else Enabled(s, steps[0]) && Runs(Apply(s, steps[0]), steps[1..], end)
  }

  lemma RunsOn(s: State, step: Step, steps: seq<Step>, end: State)
    requires Enabled(s, step) && Runs(Apply(s, step), steps, end)
    ensures Runs(s, [step] + steps, end)
  {
    hide Apply, Enabled;
    assert ([step] + steps)[1..] == steps;
  }

  lemma {:induction false} RunsJoin(s: State, first: seq<Step>, mid: State, second: seq<Step>, end: State)
    requires Runs(s, first, mid) && Runs(mid, second, end)
    ensures Runs(s, first + second, end)
    decreases |first|
  {
    hide Apply, Enabled;
    if first == [] {
      assert first + second == second;
    } else {
      RunsJoin(Apply(s, first[0]), first[1..], mid, second, end);
      assert first + second == [first[0]] + (first[1..] + second);
      RunsOn(s, first[0], first[1..] + second, end);
    }
  }

  lemma Once(s: State, step: Step)
    requires Enabled(s, step)
    ensures Runs(s, [step], Apply(s, step))
  {
    assert [step][1..] == [];
  }

  /** One access of find_place, with what it does to the lists. */
  lemma Goes(s: State, g: Lists, op: FindOp, s': State)
    requires Inv(s, g) && OwnerTouches(s) && FindEnabled(s, op) && s' == FindStep(s, op)
    ensures Runs(s, [Find(op)], s') && Inv(s', FollowFind(s, g, op))
  {
    hide Inv, FindStep, FollowFind, OwnerTouches, FindEnabled, Runs;
    KeepsFindStep(s, g, op);
    Unfolded(s, op);
    Once(s, Find(op));
  }

  lemma Unfolded(s: State, op: FindOp)
    requires OwnerTouches(s) && FindEnabled(s, op)
    ensures Enabled(s, Find(op)) && Apply(s, Find(op)) == FindStep(s, op)
  {
  }

  predicate FindsOnly(steps: seq<Step>) {
    forall step | step in steps :: step.Find?
  }

  // ---------------------------------------------------------------- the search, alone

  /** How many pages at the front of q have no block to give. */
  function Full(held: map<Addr, set<nat>>, q: seq<Addr>): (k: nat)
    ensures k <= |q|
  {
    if q == [] || (q[0] in held && held[q[0]] != Indices()) then 0 else 1 + Full(held, q[1..])
  }

  /** The flags with those of these pages cleared. */
  function Cleared(inFree: map<Addr, bool>, pages: seq<Addr>): map<Addr, bool> {
    map p | p in inFree :: inFree[p] && p !in pages
  }

  /** A block of page p that was not out is handed out. */
  ghost predicate Took(held: map<Addr, set<nat>>, held': map<Addr, set<nat>>, p: Addr) {
    p in held && exists i: nat | i < BLOCK_PER_PAGE :: i !in held[p] && held' == held[p := held[p] + {i}]
  }

  /** The outcome of the inner loop on a free list that reads q: full pages in front leave it, with
      their flags cleared; the first page that has a block gives one. */
  ghost predicate Searched(s: State, q: seq<Addr>, end: State) {
    var k := Full(s.held, q);
    end == s.(freeList := At(q, k), inFree := Cleared(s.inFree, q[..k]), held := end.held,
              owner := if k < |q| then Idle else ReadPending) &&
    if k < |q| then Took(s.held, end.held, q[k]) else end.held == s.held
  }

  lemma {:induction false} SearchAlone(s: State, g: Lists) returns (steps: seq<Step>, end: State, g': Lists)
    requires Inv(s, g) && s.owner.Scan?
    ensures Runs(s, steps, end) && FindsOnly(steps) && Inv(end, g') && Searched(s, g.free, end)
    ensures g' == g.(free := g.free[Full(s.held, g.free)..])
    decreases |g.free|
  {
    hide Inv, Runs, OwnerTouches;
    OwnerTouchesPages(s, g);
    HeadIs(s, g);
    if g.free == [] {
      Goes(s, g, ScanEnds, s.(owner := ReadPending));
      steps, end, g' := [Find(ScanEnds)], s.(owner := ReadPending), g;
      NothingCleared(s, g.free);
    } else if s.held[g.free[0]] != Indices() {
      var i := FreeIndex(s, g);
      end := s.(held := s.held[g.free[0] := s.held[g.free[0]] + {i}], owner := Idle);
      Goes(s, g, Acquire(i), end);
      steps, g' := [Find(Acquire(i))], g;
      NothingCleared(s, g.free);
    } else {
      var s3;
      steps, s3 := Loses(s, g);
      var g3 := g.(free := g.free[1..]);
      var rest;
      rest, end, g' := SearchAlone(s3, g3);
      RunsJoin(s, steps, s3, rest, end);
      steps := steps + rest;
      SearchedOn(s, g.free, s3, end);
    }
  }

  lemma HeadIs(s: State, g: Lists)
    requires Inv(s, g) && Calm(s.owner)
    ensures s.freeList == At(g.free, 0) && (g.free != [] ==> Known(s, g.free[0]) && s.held[g.free[0]] <= Indices())
    ensures g.free != [] ==> Chain(s.nextFree, s.nextFree[g.free[0]], g.free[1..])
    ensures s.inFree.Keys == s.held.Keys
  {
    if g.free != [] {
      FreeListHead(s, g);
      assert PageInv(s, g.free[0]);
    }
  }

  lemma FreeIndex(s: State, g: Lists) returns (i: nat)
    requires g.free != [] && g.free[0] in s.held && s.held[g.free[0]] != Indices() && s.held[g.free[0]] <= Indices()
    ensures i < BLOCK_PER_PAGE && i !in s.held[g.free[0]]
  {
    i :| i in Indices() && i !in s.held[g.free[0]];
  }

  lemma NothingCleared(s: State, q: seq<Addr>)
    ensures Cleared(s.inFree, q[..0]) == s.inFree
  {
  }

  /** A full page in front leaves the free list. */
  lemma Loses(s: State, g: Lists) returns (steps: seq<Step>, s3: State)
    requires Inv(s, g) && s.owner.Scan? && g.free != [] && Known(s, g.free[0]) && s.held[g.free[0]] == Indices()
    ensures Runs(s, steps, s3) && FindsOnly(steps) && Inv(s3, g.(free := g.free[1..]))
    ensures s3 == s.(freeList := At(g.free, 1), inFree := s.inFree[g.free[0] := false])
  {
    hide Inv, Runs, OwnerTouches;
    var p := g.free[0];
    HeadIs(s, g);
    OwnerTouchesPages(s, g);
    var s1 := s.(owner := Exhausted(p));
    Goes(s, g, AcquireFails, s1);
    OwnerTouchesPages(s1, g);
    var s2 := s1.(freeList := s.nextFree[p], owner := Popped(p));
    Goes(s1, g, Pop, s2);
    var g1 := g.(free := g.free[1..]);
    OwnerTouchesPages(s2, g1);
    s3 := s2.(inFree := s.inFree[p := false], owner := Scan);
    Goes(s2, g1, ClearFlag, s3);
    HeadIs(s3, g1);
    RunsJoin(s, [Find(AcquireFails)], s1, [Find(Pop)], s2);
    RunsJoin(s, [Find(AcquireFails)] + [Find(Pop)], s2, [Find(ClearFlag)], s3);
    steps := [Find(AcquireFails)] + [Find(Pop)] + [Find(ClearFlag)];
  }

  lemma SearchedOn(s: State, q: seq<Addr>, s3: State, end: State)
    requires q != [] && q[0] in s.held && s.held[q[0]] == Indices() && s.inFree.Keys == s.held.Keys
    requires s3 == s.(freeList := At(q, 1), inFree := s.inFree[q[0] := false]) && Searched(s3, q[1..], end)
    ensures Searched(s, q, end)
  {
    var k := Full(s.held, q[1..]);
    assert Full(s.held, q) == k + 1;
    assert q[..k + 1] == [q[0]] + q[1..][..k];
    assert Cleared(s.inFree, q[..k + 1]) == Cleared(s3.inFree, q[1..][..k]);
  }

  // ---------------------------------------------------------------- find_place, alone

  lemma {:induction false} FullJoin(held: map<Addr, set<nat>>, a: seq<Addr>, b: seq<Addr>)
    ensures Full(held, a + b) == if Full(held, a) < |a| then Full(held, a) else |a| + Full(held, b)
  {
    if a == [] {
      assert a + b == b;
    } else {
      assert (a + b)[1..] == a[1..] + b;
      FullJoin(held, a[1..], b);
    }
  }

  /** Addresses alloc_new_page may be given. */
  ghost predicate NewsFor(s: State, news: seq<Addr>) {
    NoDup(news) && |news| == GrowthSize(s.npages) && forall p | p in news :: p !in s.next
  }

  /** Made anew, in front of both lists, one block of the first page handed out. */
  ghost predicate Made(s: State, news: seq<Addr>, end: State) {
    news != [] &&
    end == s.(nextFree := s.nextFree + NewLinks(news, None), next := s.next + NewLinks(news, s.full),
              inFree := s.inFree + FillPages(news, true), held := end.held, deallocs := s.deallocs + FillPages(news, 0),
              freeList := Some(news[0]), full := Some(news[0]), npages := end.npages, owner := Idle) &&
    Took(s.held + FillPages(news, {}), end.held, news[0]) &&
    end.npages == if s.npages <= 0 then s.npages + 1 else if s.npages <= 900_000 then 2 * s.npages else s.npages + 900_000
  }

  lemma MakesAlone(s: State, g: Lists, news: seq<Addr>) returns (steps: seq<Step>, end: State, g': Lists)
    requires Inv(s, g) && s.owner.Growing? && NewsFor(s, news)
    ensures Runs(s, steps, end) && FindsOnly(steps) && Inv(end, g') && Made(s, news, end)
  {
    hide Inv, Runs, OwnerTouches, NewLinks, FillPages;
    OwnerTouchesPages(s, g);
    NullWhenGrowing(s, g);
    var s1 := FindStep(s, Grow(news));
    Goes(s, g, Grow(news), s1);
    var g1 := FollowFind(s, g, Grow(news));
    OwnerTouchesPages(s1, g1);
    NewHeld(s.held, news);
    assert s1.held[news[0]] == {};
    end := s1.(held := s1.held[news[0] := s1.held[news[0]] + {0}], owner := Idle);
    Goes(s1, g1, Acquire(0), end);
    RunsJoin(s, [Find(Grow(news))], s1, [Find(Acquire(0))], end);
    steps, g' := [Find(Grow(news))] + [Find(Acquire(0))], g1;
  }

  lemma NullWhenGrowing(s: State, g: Lists)
    requires Inv(s, g) && (s.owner.Growing? || s.owner.ReadPending? || s.owner.SwapPending?)
    ensures s.freeList.None? && (s.pending.None? <==> g.pending == []) && g.free == []
  {
    hide MemInv, Flags, Pushers, Hands, FullMembers;
  }

  lemma NewHeld(held: map<Addr, set<nat>>, news: seq<Addr>)
    requires news != []
    ensures news[0] in held + FillPages<set<nat>>(news, {}) && (held + FillPages<set<nat>>(news, {}))[news[0]] == {}
  {
    assert news[0] in news;
  }

  /** What find_place does: the pages of the free list, and then of the pending list, are asked in
      order; the first that has a block gives one, and the full ones before it leave their list with
      their flags cleared. The pending list is taken over only if every page of the free list is full,
      and pages are made only if every page of both is. */
  ghost predicate Found(s: State, free: seq<Addr>, pending: seq<Addr>, news: seq<Addr>, end: State) {
    var q := free + pending;
    var k := Full(s.held, q);
    if k < |free| then
      end == s.(freeList := Some(q[k]), inFree := Cleared(s.inFree, q[..k]), held := end.held) && Took(s.held, end.held, q[k])
    else if k < |q| then
      end == s.(freeList := Some(q[k]), pending := None, inFree := Cleared(s.inFree, q[..k]), held := end.held) &&
      Took(s.held, end.held, q[k])
    else Made(s.(freeList := None, pending := None, inFree := Cleared(s.inFree, q)), news, end)
  }

  lemma FindAlone(s: State, news: seq<Addr>) returns (steps: seq<Step>, end: State, free: seq<Addr>, pending: seq<Addr>)
    requires Reachable(s) && s.owner.Idle? && NewsFor(s, news)
    ensures Chain(s.nextFree, s.freeList, free) && Chain(s.nextFree, s.pending, pending)
    ensures Runs(s, steps, end) && FindsOnly(steps) && Found(s, free, pending, news, end)
  {
    hide Inv, Runs, Found;
    var g := ReachableInv(s);
    ListsRead(s, g);
    var g';
    steps, end, g' := FindFrom(s, g, news);
    free, pending := g.free, g.pending;
  }

  lemma ListsRead(s: State, g: Lists)
    requires Inv(s, g) && s.owner.Idle?
    ensures Chain(s.nextFree, s.freeList, g.free) && Chain(s.nextFree, s.pending, g.pending)
  {
    hide MemInv, Flags, Pushers, Hands, FullMembers, OwnerInv;
  }

  lemma FindFrom(s: State, g: Lists, news: seq<Addr>) returns (steps: seq<Step>, end: State, g': Lists)
    requires Inv(s, g) && s.owner.Idle? && NewsFor(s, news)
    ensures Runs(s, steps, end) && FindsOnly(steps) && Inv(end, g') && Found(s, g.free, g.pending, news, end)
  {
    hide Inv, Runs, OwnerTouches, Made, Took, Cleared, Full;
    var s1 := s.(owner := Scan);
    OwnerTouchesPages(s, g);
    Goes(s, g, FindPlace, s1);
    var search, s2, g2 := SearchAlone(s1, g);
    RunsJoin(s, [Find(FindPlace)], s1, search, s2);
    steps := [Find(FindPlace)] + search;
    var k := Full(s.held, g.free);
    FullJoin(s.held, g.free, g.pending);
    if k < |g.free| {
      end, g' := s2, g2;
      assert (g.free + g.pending)[..k] == g.free[..k];
    } else {
      assert g.free[..k] == g.free && g.free[k..] == [];
      var rest;
      rest, end, g' := RefillAlone(s2, g2, news);
      RunsJoin(s, steps, s2, rest, end);
      steps := steps + rest;
      RefilledIs(s, g, s2, news, end);
    }
  }

  lemma RefilledIs(s: State, g: Lists, s2: State, news: seq<Addr>, end: State)
    requires s.owner.Idle? && Full(s.held, g.free) == |g.free| && s2 == s.(freeList := None, inFree := Cleared(s.inFree, g.free), owner := ReadPending)
    requires Refilled(s2, g.pending, news, end)
    ensures Found(s, g.free, g.pending, news, end)
  {
    hide Made, Took;
    FullJoin(s.held, g.free, g.pending);
    var q, k := g.free + g.pending, Full(s.held, g.pending);
    assert q[..|g.free| + k] == g.free + g.pending[..k];
    ClearedTwice(s.inFree, g.free, g.pending[..k]);
    if k == |g.pending| {
      ClearedTwice(s.inFree, g.free, g.pending);
      assert s2.(freeList := None, pending := None, inFree := Cleared(s2.inFree, g.pending), owner := Idle) ==
             s.(freeList := None, pending := None, inFree := Cleared(s.inFree, q));
    }
  }

  lemma ClearedTwice(inFree: map<Addr, bool>, a: seq<Addr>, b: seq<Addr>)
    ensures Cleared(Cleared(inFree, a), b) == Cleared(inFree, a + b)
  {
  }

  /** The rest of find_place once the free list is empty. */
  ghost predicate Refilled(s: State, q: seq<Addr>, news: seq<Addr>, end: State) {
    var k := Full(s.held, q);
    if k < |q| then
      end == s.(freeList := Some(q[k]), pending := None, inFree := Cleared(s.inFree, q[..k]), held := end.held, owner := Idle) &&
      Took(s.held, end.held, q[k])
    else Made(s.(freeList := None, pending := None, inFree := Cleared(s.inFree, q), owner := Idle), news, end)
  }

  lemma RefillAlone(s: State, g: Lists, news: seq<Addr>) returns (steps: seq<Step>, end: State, g': Lists)
    requires Inv(s, g) && s.owner.ReadPending? && NewsFor(s, news) && g.free == []
    ensures Runs(s, steps, end) && FindsOnly(steps) && Inv(end, g') && Refilled(s, g.pending, news, end)
  {
    hide Inv, Runs, OwnerTouches, Made, Took, Cleared;
    OwnerTouchesPages(s, g);
    NullWhenGrowing(s, g);
    if s.pending.None? {
      steps, end, g' := GrowsAlone(s, g, news);
      NothingCleared(s, g.pending);
      assert g.pending[..0] == g.pending;
    } else {
      var s1 := s.(owner := SwapPending);
      Goes(s, g, LoadPending, s1);
      OwnerTouchesPages(s1, g);
      var s2 := s1.(freeList := s.pending, pending := None, owner := Scan);
      Goes(s1, g, TakePending, s2);
      var g2 := g.(free := g.pending, pending := []);
      RunsJoin(s, [Find(LoadPending)], s1, [Find(TakePending)], s2);
      var search, s3, g3 := SearchAlone(s2, g2);
      RunsJoin(s, [Find(LoadPending)] + [Find(TakePending)], s2, search, s3);
      steps, end, g' := [Find(LoadPending)] + [Find(TakePending)] + search, s3, g3;
      var k := Full(s.held, g.pending);
      if k == |g.pending| {
        assert g.pending[..k] == g.pending && g.pending[k..] == [];
        var rest;
        rest, end, g' := GrowsAlone(s3, g3, news);
        RunsJoin(s, steps, s3, rest, end);
        steps := steps + rest;
      }
    }
  }

  /** With both lists empty, pages are made. */
  lemma GrowsAlone(s: State, g: Lists, news: seq<Addr>) returns (steps: seq<Step>, end: State, g': Lists)
    requires Inv(s, g) && s.owner.ReadPending? && s.pending.None? && NewsFor(s, news)
    ensures Runs(s, steps, end) && FindsOnly(steps) && Inv(end, g')
    ensures Made(s.(owner := Idle), news, end)
  {
    hide Inv, Runs, OwnerTouches, NewLinks, FillPages;
    OwnerTouchesPages(s, g);
    NullWhenGrowing(s, g);
    var s1 := s.(owner := Growing);
    Goes(s, g, LoadPending, s1);
    var rest;
    rest, end, g' := MakesAlone(s1, g, news);
    RunsJoin(s, [Find(LoadPending)], s1, rest, end);
    steps := [Find(LoadPending)] + rest;
  }

  /** There are always addresses for new pages. */
  lemma NewsExist(s: State) returns (news: seq<Addr>)
    ensures NewsFor(s, news)
  {
    var top := Above(s.next.Keys);
    var n := GrowthSize(s.npages);
    news := seq(n, i => top + i);
    assert forall i | 0 <= i < |news| :: news[i] == top + i;
    forall p | p in news
      ensures p !in s.next
    {
      assert p in s.next.Keys ==> p < top;
    }
  }

  lemma {:induction false} Above(addrs: set<Addr>) returns (top: Addr)
    ensures forall p | p in addrs :: p < top
    decreases |addrs|
  {
    if addrs == {} {
      top := 0;
    } else {
      var p :| p in addrs;
      top := Above(addrs - {p});
      top := if p < top then top else p + 1;
      assert forall q | q in addrs :: q == p || q in addrs - {p};
    }
  }
}
