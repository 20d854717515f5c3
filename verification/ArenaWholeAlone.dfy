/** find_place in an arena as a whole (src/arena.rs:46-102, src/page/arena.rs:124-144): when it turns to
    the pending list, droppers at work, and what it does alone, from its call to its return, reading
    the words of the pages. */
module ArenaWholeAlone {
  import opened Options
  import opened Bitfield
  import opened Chains
  import opened ArenaWhole
  import opened ArenaWholeRuns
  import F = ArenaFind
  import A = ArenaAlone
  import Q = ArenaPageAlone

  // ---------------------------------------------------------------- droppers at work

  /** The owner sets out to make pages only by an access that finds the pending list null; if that
      access finds it not null, the owner's next one makes its head, whatever it is then, the free
      list, and empties it. */
  lemma PendingFirst(w: Whole, move: Move)
    requires Reachable(w) && Enabled(w, move)
    ensures var s, s' := w.lists, Apply(w, move).lists;
            (s'.owner.Growing? && !s.owner.Growing? ==> s.owner.ReadPending? && s.pending.None?) &&
            (s.owner.ReadPending? && s'.owner != s.owner ==> s'.owner == if s.pending.Some? then L.SwapPending else L.Growing) &&
            (s.owner.SwapPending? ==> s.freeList.None? && s.pending.Some?) &&
            (s.owner.SwapPending? && s'.owner != s.owner ==>
               s'.owner.Scan? && s'.freeList == s.pending && s'.pending.None?)
  {
    hide Inv, Apply, Enabled, Abs, R.Next, R.Reachable, HeldOf, ReleasedOf, DeallocsOf;
    var n: nat :| ReachableIn(w, n);
    ReachableInInv(w, n);
    UnfoldInv(w);
    StepKeepsInv(w, move);
    var w' := Apply(w, move);
    AbsFields(w);
    AbsFields(w');
    if Abs(w') == Abs(w) {
      AbsPending(Abs(w));
    } else {
      AbsNext(Abs(w), Abs(w'));
    }
  }

  lemma AbsPending(s: L.State)
    requires R.Reachable(s)
    ensures s.owner.SwapPending? ==> s.freeList.None? && s.pending.Some?
  {
    hide I.Inv;
    var g := R.ReachableInv(s);
    A.SwapsPending(s, g);
  }

  lemma AbsNext(s: L.State, s': L.State)
    requires R.Reachable(s) && R.Next(s, s')
    ensures (s'.owner.Growing? && !s.owner.Growing? ==> s.owner.ReadPending? && s.pending.None?)
    ensures (s.owner.ReadPending? && s'.owner != s.owner ==> s'.owner == if s.pending.Some? then L.SwapPending else L.Growing)
    ensures (s.owner.SwapPending? ==> s.freeList.None? && s.pending.Some?)
    ensures (s.owner.SwapPending? && s'.owner != s.owner ==> s'.owner.Scan? && s'.freeList == s.pending && s'.pending.None?)
  {
    hide L.Apply, L.Enabled, R.Reachable;
    var step :| L.Enabled(s, step) && s' == L.Apply(s, step);
    A.PendingFirst(s, step);
  }

  // ---------------------------------------------------------------- runs

  /** These accesses lead from w to end. */
  ghost predicate Runs(w: Whole, moves: seq<Move>, end: Whole)
    decreases |moves|
  {
    if moves == [] then w == end else Enabled(w, moves[0]) && Runs(Apply(w, moves[0]), moves[1..], end)
  }

  lemma RunsOn(w: Whole, move: Move, moves: seq<Move>, end: Whole)
    requires Enabled(w, move) && Runs(Apply(w, move), moves, end)
    ensures Runs(w, [move] + moves, end)
  {
    hide Apply, Enabled;
    assert ([move] + moves)[1..] == moves;
  }

  lemma {:induction false} RunsJoin(w: Whole, first: seq<Move>, mid: Whole, second: seq<Move>, end: Whole)
    requires Runs(w, first, mid) && Runs(mid, second, end)
    ensures Runs(w, first + second, end)
    decreases |first|
  {
    hide Apply, Enabled;
    if first == [] {
      assert first + second == second;
    } else {
      RunsJoin(Apply(w, first[0]), first[1..], mid, second, end);
      assert first + second == [first[0]] + (first[1..] + second);
      RunsOn(w, first[0], first[1..] + second, end);
    }
  }

  lemma Once(w: Whole, move: Move)
    requires Enabled(w, move)
    ensures Runs(w, [move], Apply(w, move))
  {
    hide Apply, Enabled;
    assert [move][1..] == [];
  }

  // ---------------------------------------------------------------- one page

  predicate PageMoves(moves: seq<Move>) {
    forall move | move in moves :: move.InPage?
  }

  /** The search of the page in front, from wherever it stands, ends: with its least block on offer, or
      with none if none of its blocks is free. */
  lemma {:induction false} PageAlone(w: Whole) returns (moves: seq<Move>, end: Whole)
    requires Inv(w) && Searching(w) && Q.Inside(w.pages[w.lists.freeList.value].owner)
    ensures Runs(w, moves, end) && PageMoves(moves) && Inv(end)
    ensures var p := w.lists.freeList.value;
            p in end.pages && Q.Acquired(w.pages[p], end.pages[p]) && end.pages == w.pages[p := end.pages[p]] &&
            end.lists == w.lists.(owner := if P.FreeBlocks(w.pages[p]) != {} then L.Idle else L.Exhausted(p))
    decreases Q.Left(w.pages[w.lists.freeList.value].owner)
  {
    hide Inv, Runs, P.Enabled, P.Apply, P.FreeBlocks, Q.Acquired, P.Reachable;
    var p := w.lists.freeList.value;
    PageReachable(w, p);
    var step := Q.NextAccess(w.pages[p].owner);
    Q.SearchStep(w.pages[p]);
    var w1 := SearchTurn(w, step);
    CanSearch(w, step);
    Turns(w, step);
    KeepsInPage(w, step);
    Once(w, InPage(step));
    if w1.pages[p].owner.Idle? {
      moves, end := [InPage(step)], w1;
    } else {
      assert w1.lists == w.lists && w1.pages == w.pages[p := P.Apply(w.pages[p], step)];
      moves, end := PageAlone(w1);
      RunsJoin(w, [InPage(step)], w1, moves, end);
      moves := [InPage(step)] + moves;
      assert end.pages == w.pages[p := end.pages[p]];
    }
  }

  lemma Turns(w: Whole, step: P.Step)
    requires Enabled(w, InPage(step))
    ensures Apply(w, InPage(step)) == SearchTurn(w, step)
  {
  }

  lemma PageReachable(w: Whole, p: Addr)
    requires Inv(w) && p in w.pages
    ensures P.Reachable(w.pages[p])
  {
  }

  /** A whole call of acquire_free_block on the page in front. */
  lemma AskAlone(w: Whole) returns (moves: seq<Move>, end: Whole)
    requires Inv(w) && Searching(w) && w.pages[w.lists.freeList.value].owner.Idle?
    ensures Runs(w, moves, end) && PageMoves(moves) && Inv(end)
    ensures var p := w.lists.freeList.value;
            p in end.pages && Q.Acquired(w.pages[p], end.pages[p]) && end.pages == w.pages[p := end.pages[p]] &&
            end.lists == w.lists.(owner := if P.FreeBlocks(w.pages[p]) != {} then L.Idle else L.Exhausted(p))
  {
    hide Inv, Runs, P.FreeBlocks, P.Reachable;
    var p := w.lists.freeList.value;
    var w1 := SearchTurn(w, P.BeginAcquire);
    CanSearch(w, P.BeginAcquire);
    Turns(w, P.BeginAcquire);
    KeepsInPage(w, P.BeginAcquire);
    Once(w, InPage(P.BeginAcquire));
    assert w1.lists == w.lists && w1.pages == w.pages[p := w.pages[p].(owner := P.Scan(1))];
    moves, end := PageAlone(w1);
    RunsJoin(w, [InPage(P.BeginAcquire)], w1, moves, end);
    moves := [InPage(P.BeginAcquire)] + moves;
    assert end.pages == w.pages[p := end.pages[p]];
    SameSearch(w.pages[p], w1.pages[p], end.pages[p]);
  }

  lemma SameSearch(s: P.State, s1: P.State, end: P.State)
    requires s.owner.Idle? && s1 == s.(owner := P.Scan(1)) && Q.Acquired(s1, end)
    ensures P.FreeBlocks(s1) == P.FreeBlocks(s) && Q.Acquired(s, end)
  {
    Q.SameFree(s, s1);
    hide P.FreeBlocks;
    assert Q.Offered(s1) == Q.Offered(s);
  }

  // ---------------------------------------------------------------- the lists see it

  /** No search of a page is under way. */
  ghost predicate NoneAsked(w: Whole) {
    forall p | p in w.pages :: !Inside(w.pages[p])
  }

  /** The abstract access that the call amounts to. */
  lemma AskShows(w: Whole, g: I.Lists, end: Whole) returns (op: L.FindOp)
    requires Inv(w) && I.Inv(Abs(w), g) && Searching(w) && w.pages[w.lists.freeList.value].owner.Idle? && Inv(end)
    requires var p := w.lists.freeList.value;
             p in end.pages && Q.Acquired(w.pages[p], end.pages[p]) && end.pages == w.pages[p := end.pages[p]] &&
             end.lists == w.lists.(owner := if P.FreeBlocks(w.pages[p]) != {} then L.Idle else L.Exhausted(p))
    ensures var s, p := Abs(w), w.lists.freeList.value;
            L.OwnerTouches(s) && L.FindEnabled(s, op) && Abs(end) == L.FindStep(s, op) && I.Inv(Abs(end), g) &&
            if P.FreeBlocks(w.pages[p]) != {} then op.Acquire? else op.AcquireFails?
    ensures w.lists.freeList.value in Abs(w).held
    ensures P.FreeBlocks(w.pages[w.lists.freeList.value]) != {} <==> Abs(w).held[w.lists.freeList.value] != Indices()
  {
    hide Inv, I.Inv, P.FreeBlocks, P.Reachable, Abs, HeldOf, ReleasedOf, DeallocsOf, P.Out, R.Reachable, L.OwnerTouches;
    var p, s := w.lists.freeList.value, Abs(w);
    UnfoldInv(w);
    UnfoldInv(end);
    AbsFields(w);
    AbsFields(end);
    AtPage(w.pages, p);
    R.NothingPanics(s);
    FreeOrOut(w, p, end.pages[p]);
    AskedMaps(w, p, end);
    if P.FreeBlocks(w.pages[p]) != {} {
      var i: nat :| i < BLOCK_PER_PAGE && i !in P.Out(w.pages[p]) && P.Out(end.pages[p]) == P.Out(w.pages[p]) + {i};
      op := L.Acquire(i);
    } else {
      op := L.AcquireFails;
    }
    Enables(s, op);
    AsFindStep(s, op, Abs(end), p);
    F.KeepsFindStep(s, g, op);
  }

  lemma Enables(s: L.State, op: L.FindOp)
    requires L.OwnerTouches(s) && s.owner.Scan? && s.freeList.Some? && s.freeList.value in s.held
    requires op.AcquireFails? || op.Acquire?
    requires if op.Acquire? then op.index < BLOCK_PER_PAGE && op.index !in s.held[s.freeList.value] else s.held[s.freeList.value] == Indices()
    ensures L.FindEnabled(s, op) && L.Enabled(s, L.Find(op))
    ensures forall g :: I.FollowFind(s, g, op) == g
  {
  }

  lemma AsFindStep(s: L.State, op: L.FindOp, s': L.State, p: Addr)
    requires L.OwnerTouches(s) && L.FindEnabled(s, op) && (op.Acquire? || op.AcquireFails?) && s.freeList == Some(p) && p in s.held
    requires s' == s.(held := s.held[p := if op.Acquire? then s.held[p] + {op.index} else s.held[p]],
                      owner := if op.Acquire? then L.Idle else L.Exhausted(p))
    ensures s' == L.FindStep(s, op)
  {
    assert s.held[p := s.held[p]] == s.held;
  }

  /** The blocks out grow by the block taken. */
  lemma FreeOrOut(w: Whole, p: Addr, page: P.State)
    requires PagesOk(w) && p in w.pages && w.pages[p].owner.Idle? && Q.Acquired(w.pages[p], page)
    ensures P.FreeBlocks(w.pages[p]) == {} <==> P.Out(w.pages[p]) == Indices()
    ensures if P.FreeBlocks(w.pages[p]) == {} then P.Out(page) == P.Out(w.pages[p])
            else exists i: nat | i < BLOCK_PER_PAGE :: i !in P.Out(w.pages[p]) && P.Out(page) == P.Out(w.pages[p]) + {i}
  {
    hide Free;
    var s := w.pages[p];
    assert P.FreeBlocks(s) <= Indices() by { P.ReachableInv(s); }
    if P.FreeBlocks(s) != {} {
      var i :| IsLeast(i, Q.Offered(s)) && page.held == s.held + {i} && P.FreeBlocks(page) == P.FreeBlocks(s) - {i};
      assert i in P.FreeBlocks(s);
      assert P.Out(page) == P.Out(s) + {i};
    }
  }

  /** What the change of one page does to the maps the lists see. */
  lemma AskedMaps(w: Whole, p: Addr, end: Whole)
    requires PagesOk(w) && PagesOk(end) && p in w.pages && p in end.pages && end.pages == w.pages[p := end.pages[p]]
    requires w.pages[p].owner.Idle? && end.pages[p].owner.Idle?
    ensures HeldOf(end.pages) == HeldOf(w.pages)[p := P.Out(end.pages[p])]
    ensures ReleasedOf(end.pages) == ReleasedOf(w.pages) && DeallocsOf(end.pages) == DeallocsOf(w.pages)
  {
    IdleOwns(w.pages[p]);
    IdleOwns(end.pages[p]);
    AtPage(w.pages, p);
    OnePage(w.pages, p, end.pages[p]);
    hide HeldOf, ReleasedOf, DeallocsOf;
  }

  lemma OnePage(pages: map<Addr, P.State>, p: Addr, page: P.State)
    requires p in pages && P.Owned(pages[p]) && P.Owned(page)
    ensures HeldOf(pages[p := page]) == HeldOf(pages)[p := P.Out(page)]
    ensures DeallocsOf(pages[p := page]) == DeallocsOf(pages)[p := Deallocs(page)]
    ensures ReleasedOf(pages[p := page]) == ReleasedOf(pages)
  {
    hide P.Out, Deallocs, P.Owned;
  }

  lemma IdleOwns(p: P.State)
    requires P.Reachable(p) && p.owner.Idle?
    ensures P.Owned(p) && Deallocs(p) == 0
  {
    DeallocsAre(p);
  }

  // ---------------------------------------------------------------- the free list

  /** An access to the lists only, with what it does. */
  lemma Goes(w: Whole, g: I.Lists, op: L.FindOp, s': L.State) returns (w': Whole)
    requires Inv(w) && I.Inv(Abs(w), g) && !op.Acquire? && !op.AcquireFails?
    requires L.OwnerTouches(Abs(w)) && L.FindEnabled(Abs(w), op) && s' == L.FindStep(Abs(w), op)
    ensures Runs(w, [OnLists(L.Find(op))], w') && Inv(w') && Abs(w') == s' && I.Inv(s', I.FollowFind(Abs(w), g, op))
    ensures w'.pages == w.pages + NewPages(L.Find(op))
  {
    hide Inv, I.Inv, Abs, Runs, L.OwnerTouches, L.FindEnabled, L.FindStep, I.FollowFind, ShowsAs;
    var move := OnLists(L.Find(op));
    A.Unfolded(Abs(w), op);
    CanGo(w, op);
    KeepsOnLists(w, L.Find(op));
    Once(w, move);
    w' := Apply(w, move);
    Unfolds(w, w', L.Find(op));
    F.KeepsFindStep(Abs(w), g, op);
  }

  lemma CanGo(w: Whole, op: L.FindOp)
    requires L.Enabled(Abs(w), L.Find(op)) && !op.Acquire? && !op.AcquireFails?
    ensures Enabled(w, OnLists(L.Find(op)))
  {
  }

  lemma Unfolds(w: Whole, w': Whole, step: L.Step)
    requires ShowsAs(w, w', step)
    ensures L.Enabled(Abs(w), step) && Abs(w') == L.Apply(Abs(w), step)
  {
  }

  /** Of all pages, one at most has changed: it has given its least block on offer. */
  ghost predicate GaveOne(pages: map<Addr, P.State>, pages': map<Addr, P.State>, p: Addr) {
    p in pages && p in pages' && pages' == pages[p := pages'[p]] && P.FreeBlocks(pages[p]) != {} && Q.Acquired(pages[p], pages'[p])
  }

  /** The inner loop of find_place. */
  lemma {:induction false} SearchAlone(w: Whole, g: I.Lists) returns (moves: seq<Move>, end: Whole, g': I.Lists)
    requires Inv(w) && I.Inv(Abs(w), g) && w.lists.owner.Scan? && NoneAsked(w)
    ensures Runs(w, moves, end) && Inv(end) && I.Inv(Abs(end), g') && NoneAsked(end)
    ensures A.Searched(Abs(w), g.free, Abs(end)) && g' == g.(free := g.free[A.Full(Abs(w).held, g.free)..])
    ensures var k := A.Full(Abs(w).held, g.free);
            if k < |g.free| then GaveOne(w.pages, end.pages, g.free[k]) else end.pages == w.pages
    decreases |g.free|
  {
    hide Inv, I.Inv, Runs, L.OwnerTouches, Abs, GaveOne, R.Reachable, NoneAsked, A.Searched;
    UnfoldInv(w);
    AgreesOn(w);
    var s := Abs(w);
    R.NothingPanics(s);
    A.HeadIs(s, g);
    if g.free == [] {
      moves, end := EndsList(w, g);
      g' := g;
    } else {
      var w1;
      moves, w1 := AsksHead(w, g);
      if s.held[g.free[0]] != Indices() {
        end, g' := w1, g;
      } else {
        var more, w3 := LosesHead(s, g, w1);
        RunsJoin(w, moves, w1, more, w3);
        SameAsked(w1, w3);
        AgreesOn(w3);
        var rest;
        rest, end, g' := SearchAlone(w3, g.(free := g.free[1..]));
        RunsJoin(w, moves + more, w3, rest, end);
        moves := moves + more + rest;
        A.SearchedOn(s, g.free, Abs(w3), Abs(end));
      }
    }
  }

  lemma EndsList(w: Whole, g: I.Lists) returns (moves: seq<Move>, end: Whole)
    requires Inv(w) && I.Inv(Abs(w), g) && w.lists.owner.Scan? && NoneAsked(w) && g.free == [] && Abs(w).freeList.None?
    ensures Runs(w, moves, end) && Inv(end) && I.Inv(Abs(end), g) && NoneAsked(end) && end.pages == w.pages
    ensures A.Searched(Abs(w), g.free, Abs(end))
  {
    hide Inv, I.Inv, Runs, L.OwnerTouches, Abs, NoneAsked, A.Searched, R.Reachable;
    UnfoldInv(w);
    AgreesOn(w);
    R.NothingPanics(Abs(w));
    end := Goes(w, g, L.ScanEnds, Abs(w).(owner := L.ReadPending));
    moves := [OnLists(L.Find(L.ScanEnds))];
    assert end.pages == w.pages;
    SameAsked(w, end);
    EndsSearch(Abs(w), g.free, Abs(end));
  }

  /** The page in front gives a block, or is found full. */
  lemma AsksHead(w: Whole, g: I.Lists) returns (moves: seq<Move>, w1: Whole)
    requires Inv(w) && I.Inv(Abs(w), g) && w.lists.owner.Scan? && NoneAsked(w)
    requires g.free != [] && w.lists.freeList == Some(g.free[0]) && g.free[0] in Abs(w).held && L.OwnerTouches(Abs(w))
    ensures Runs(w, moves, w1) && Inv(w1) && I.Inv(Abs(w1), g) && NoneAsked(w1)
    ensures if Abs(w).held[g.free[0]] != Indices() then
              A.Searched(Abs(w), g.free, Abs(w1)) && GaveOne(w.pages, w1.pages, g.free[0]) && A.Full(Abs(w).held, g.free) == 0
            else Abs(w1) == Abs(w).(owner := L.Exhausted(g.free[0])) && w1.pages == w.pages
  {
    hide Inv, I.Inv, Runs, L.OwnerTouches, Abs, Q.Acquired, P.FreeBlocks, NoneAsked, A.Searched;
    AgreesOn(w);
    HeadIdle(w, g);
    moves, w1 := AskAlone(w);
    var op := AskShows(w, g, w1);
    AskedOne(w, w1, g.free[0]);
    if Abs(w).held[g.free[0]] != Indices() {
      TookAsked(Abs(w), op, Abs(w1), g.free);
    } else {
      FailsForm(Abs(w), op);
    }
  }

  lemma FailsForm(s: L.State, op: L.FindOp)
    requires L.OwnerTouches(s) && L.FindEnabled(s, op) && op.AcquireFails?
    ensures L.FindStep(s, op) == s.(owner := L.Exhausted(s.freeList.value))
  {
  }

  lemma AgreesOn(w: Whole)
    ensures Abs(w).owner == w.lists.owner && Abs(w).freeList == w.lists.freeList
  {
  }

  lemma EndsSearch(s: L.State, q: seq<Addr>, end: L.State)
    requires q == [] && s.freeList.None? && end == s.(owner := L.ReadPending)
    ensures A.Searched(s, q, end)
  {
    A.NothingCleared(s, q);
  }

  lemma TookAsked(s: L.State, op: L.FindOp, end: L.State, q: seq<Addr>)
    requires q != [] && q[0] in s.held && s.held[q[0]] != Indices() && s.freeList == Some(q[0])
    requires L.OwnerTouches(s) && L.FindEnabled(s, op) && op.Acquire? && end == L.FindStep(s, op)
    ensures A.Searched(s, q, end)
  {
    A.NothingCleared(s, q);
  }

  lemma SameAsked(w: Whole, w': Whole)
    requires NoneAsked(w) && w'.pages == w.pages
    ensures NoneAsked(w')
  {
  }

  /** The head of the free list is a page the arena owns and is not searching. */
  lemma HeadIdle(w: Whole, g: I.Lists)
    requires Inv(w) && I.Inv(Abs(w), g) && w.lists.owner.Scan? && NoneAsked(w) && g.free != [] && w.lists.freeList == Some(g.free[0])
    ensures Searching(w) && w.pages[g.free[0]].owner.Idle?
  {
    hide R.Reachable, I.Inv, L.OwnerTouches;
    R.NothingPanics(Abs(w));
    OwnerAt(w);
    SearchedIsOwned(Abs(w));
    AtPage(w.pages, g.free[0]);
    IdleIfOwned(w.pages[g.free[0]]);
    hide P.Reachable;
  }

  /** A page that gave a block is the only one that changed; one that had none is as it was. */
  lemma AskedOne(w: Whole, w1: Whole, p: Addr)
    requires p in w.pages && p in w1.pages && w1.pages == w.pages[p := w1.pages[p]] && Q.Acquired(w.pages[p], w1.pages[p])
    requires w.pages[p].owner.Idle? && NoneAsked(w)
    ensures NoneAsked(w1)
    ensures if P.FreeBlocks(w.pages[p]) != {} then GaveOne(w.pages, w1.pages, p) else w1.pages == w.pages
  {
    hide P.FreeBlocks;
  }

  lemma PopForm(s: L.State, g: I.Lists, p: Addr)
    requires s.owner == L.Exhausted(p) && p in s.nextFree && g.free != [] && L.OwnerTouches(s)
    ensures L.FindEnabled(s, L.Pop) && L.FindStep(s, L.Pop) == s.(freeList := s.nextFree[p], owner := L.Popped(p))
    ensures I.FollowFind(s, g, L.Pop) == g.(free := g.free[1..])
  {
    hide L.OwnerTouches;
  }

  lemma ClearForm(s: L.State, g: I.Lists, p: Addr)
    requires s.owner == L.Popped(p) && p in s.inFree && L.OwnerTouches(s)
    ensures L.FindEnabled(s, L.ClearFlag) && L.FindStep(s, L.ClearFlag) == s.(inFree := s.inFree[p := false], owner := L.Scan)
    ensures I.FollowFind(s, g, L.ClearFlag) == g
  {
    hide L.OwnerTouches;
  }

  lemma PopsHead(s: L.State, g: I.Lists, w1: Whole, p: Addr) returns (w2: Whole)
    requires Inv(w1) && I.Inv(Abs(w1), g) && g.free != [] && Abs(w1) == s.(owner := L.Exhausted(p)) && p in s.nextFree
    ensures Runs(w1, [OnLists(L.Find(L.Pop))], w2) && Inv(w2) && I.Inv(Abs(w2), g.(free := g.free[1..])) && w2.pages == w1.pages
    ensures Abs(w2) == s.(freeList := s.nextFree[p], owner := L.Popped(p))
  {
    hide Inv, I.Inv, Runs, L.OwnerTouches, Abs, R.Reachable, L.FindStep, I.FollowFind, L.FindEnabled;
    UnfoldInv(w1);
    R.NothingPanics(Abs(w1));
    PopForm(Abs(w1), g, p);
    w2 := Goes(w1, g, L.Pop, s.(freeList := s.nextFree[p], owner := L.Popped(p)));
    NoNewPages(L.Find(L.Pop));
    assert w2.pages == w1.pages;
  }

  lemma ClearsFlag(s: L.State, g: I.Lists, w2: Whole, p: Addr) returns (w3: Whole)
    requires Inv(w2) && I.Inv(Abs(w2), g) && Abs(w2) == s.(owner := L.Popped(p)) && p in s.inFree
    ensures Runs(w2, [OnLists(L.Find(L.ClearFlag))], w3) && Inv(w3) && I.Inv(Abs(w3), g) && w3.pages == w2.pages
    ensures Abs(w3) == s.(inFree := s.inFree[p := false], owner := L.Scan)
  {
    hide Inv, I.Inv, Runs, L.OwnerTouches, Abs, R.Reachable, L.FindStep, I.FollowFind, L.FindEnabled;
    UnfoldInv(w2);
    R.NothingPanics(Abs(w2));
    ClearForm(Abs(w2), g, p);
    w3 := Goes(w2, g, L.ClearFlag, s.(inFree := s.inFree[p := false], owner := L.Scan));
    NoNewPages(L.Find(L.ClearFlag));
    assert w3.pages == w2.pages;
  }

  /** The full page in front leaves the free list. */
  lemma LosesHead(s: L.State, g: I.Lists, w1: Whole) returns (moves: seq<Move>, w3: Whole)
    requires Inv(w1) && I.Inv(Abs(w1), g) && g.free != [] && s.owner.Scan? && Abs(w1) == s.(owner := L.Exhausted(g.free[0]))
    requires g.free[0] in s.nextFree && g.free[0] in s.inFree
    ensures Runs(w1, moves, w3) && Inv(w3) && I.Inv(Abs(w3), g.(free := g.free[1..])) && w3.pages == w1.pages
    ensures Abs(w3) == s.(freeList := At(g.free, 1), inFree := s.inFree[g.free[0] := false])
  {
    hide Inv, I.Inv, Runs, Abs;
    var p, g2 := g.free[0], g.(free := g.free[1..]);
    var w2 := PopsHead(s, g, w1, p);
    w3 := ClearsFlag(s.(freeList := s.nextFree[p]), g2, w2, p);
    A.HeadIs(Abs(w3), g2);
    RunsJoin(w1, [OnLists(L.Find(L.Pop))], w2, [OnLists(L.Find(L.ClearFlag))], w3);
    moves := [OnLists(L.Find(L.Pop))] + [OnLists(L.Find(L.ClearFlag))];
  }

  // ---------------------------------------------------------------- find_place

  /** With both lists empty, pages are made, and the first gives a block. */
  lemma MakesAlone(w: Whole, g: I.Lists, news: seq<Addr>) returns (moves: seq<Move>, end: Whole)
    requires Inv(w) && I.Inv(Abs(w), g) && NoneAsked(w) && w.lists.owner.ReadPending? && Abs(w).pending.None? && A.NewsFor(Abs(w), news)
    ensures Runs(w, moves, end) && Inv(end) && A.Made(Abs(w).(owner := L.Idle), news, Abs(end))
    ensures GaveOne(w.pages + NewPages(L.Find(L.Grow(news))), end.pages, news[0])
  {
    hide Inv, I.Inv, Runs, L.OwnerTouches, Abs, NoneAsked, R.Reachable, GaveOne, NewPages, L.FindStep, I.FollowFind, A.Made;
    var w1;
    moves, w1 := SetsOut(w, g);
    var s0 := Abs(w).(owner := L.Idle);
    var more, w2, g2;
    more, w2, g2 := Grows(w1, g, s0, news);
    RunsJoin(w, moves, w1, more, w2);
    moves := moves + more;
    more, end := TakesNew(s0, Abs(w2), w2, g2, news);
    RunsJoin(w, moves, w2, more, end);
    moves := moves + more;
  }

  lemma SetsOut(w: Whole, g: I.Lists) returns (moves: seq<Move>, w1: Whole)
    requires Inv(w) && I.Inv(Abs(w), g) && NoneAsked(w) && w.lists.owner.ReadPending? && Abs(w).pending.None?
    ensures Runs(w, moves, w1) && Inv(w1) && I.Inv(Abs(w1), g) && NoneAsked(w1) && w1.pages == w.pages
    ensures Abs(w1) == Abs(w).(owner := L.Growing) && Abs(w).freeList.None? && g.pending == []
  {
    hide Inv, I.Inv, Runs, L.OwnerTouches, Abs, NoneAsked, R.Reachable;
    UnfoldInv(w);
    AgreesOn(w);
    R.NothingPanics(Abs(w));
    A.NullWhenGrowing(Abs(w), g);
    w1 := Goes(w, g, L.LoadPending, Abs(w).(owner := L.Growing));
    moves := [OnLists(L.Find(L.LoadPending))];
    assert w1.pages == w.pages;
    SameAsked(w, w1);
  }

  lemma Grows(w1: Whole, g: I.Lists, s0: L.State, news: seq<Addr>) returns (moves: seq<Move>, w2: Whole, g2: I.Lists)
    requires Inv(w1) && I.Inv(Abs(w1), g) && NoneAsked(w1) && A.NewsFor(s0, news) && Abs(w1) == s0.(owner := L.Growing)
    requires s0.owner.Idle? && s0.freeList.None?
    ensures Runs(w1, moves, w2) && Inv(w2) && I.Inv(Abs(w2), g2) && NoneAsked(w2) && g2.free == news != []
    ensures L.OwnerTouches(s0.(owner := L.Growing)) && L.FindEnabled(s0.(owner := L.Growing), L.Grow(news))
    ensures Abs(w2) == L.FindStep(s0.(owner := L.Growing), L.Grow(news)) && w2.pages == w1.pages + NewPages(L.Find(L.Grow(news)))
  {
    hide Inv, I.Inv, Runs, L.OwnerTouches, Abs, NoneAsked, R.Reachable, NewPages, L.FindStep;
    UnfoldInv(w1);
    AgreesOn(w1);
    var s1 := s0.(owner := L.Growing);
    R.NothingPanics(s1);
    w2 := Goes(w1, g, L.Grow(news), L.FindStep(s1, L.Grow(news)));
    g2 := I.FollowFind(s1, g, L.Grow(news));
    moves := [OnLists(L.Find(L.Grow(news)))];
    KeepsNone(w1, w2, news);
  }

  lemma KeepsNone(w: Whole, w': Whole, news: seq<Addr>)
    requires NoneAsked(w) && w'.pages == w.pages + NewPages(L.Find(L.Grow(news)))
    ensures NoneAsked(w')
  {
    NewPagesAre(w.pages, L.Find(L.Grow(news)));
  }

  lemma TakesNew(s0: L.State, s2: L.State, w2: Whole, g2: I.Lists, news: seq<Addr>) returns (moves: seq<Move>, end: Whole)
    requires Inv(w2) && I.Inv(Abs(w2), g2) && NoneAsked(w2) && Abs(w2) == s2 && g2.free == news != []
    requires L.OwnerTouches(s0.(owner := L.Growing)) && L.FindEnabled(s0.(owner := L.Growing), L.Grow(news)) && s0.freeList.None?
    requires s2 == L.FindStep(s0.(owner := L.Growing), L.Grow(news)) && s0.owner.Idle?
    ensures Runs(w2, moves, end) && Inv(end) && A.Made(s0, news, Abs(end)) && GaveOne(w2.pages, end.pages, news[0])
  {
    hide Inv, I.Inv, Runs, L.OwnerTouches, Abs, NoneAsked, R.Reachable, GaveOne, L.FindStep, A.Made, A.Searched;
    UnfoldInv(w2);
    AgreesOn(w2);
    R.NothingPanics(s2);
    NewState(s0, s2, news);
    A.HeadIs(s2, g2);
    moves, end := AsksHead(w2, g2);
    MadeIs(s0, s2, news, Abs(end));
  }

  lemma NewState(s0: L.State, s2: L.State, news: seq<Addr>)
    requires news != [] && L.OwnerTouches(s0.(owner := L.Growing)) && L.FindEnabled(s0.(owner := L.Growing), L.Grow(news)) && s0.freeList.None?
    requires s2 == L.FindStep(s0.(owner := L.Growing), L.Grow(news))
    ensures s2.owner.Scan? && s2.freeList == Some(news[0]) && news[0] in s2.held && s2.held[news[0]] != Indices()
  {
    hide NewLinks, L.FillPages, L.OwnerTouches;
    A.NewHeld(s0.held, news);
    assert 0 in Indices();
  }

  lemma MadeIs(s0: L.State, s2: L.State, news: seq<Addr>, end: L.State)
    requires news != [] && L.OwnerTouches(s0.(owner := L.Growing)) && L.FindEnabled(s0.(owner := L.Growing), L.Grow(news)) && s0.freeList.None?
    requires s2 == L.FindStep(s0.(owner := L.Growing), L.Grow(news)) && s0.owner.Idle?
    requires A.Searched(s2, news, end) && A.Full(s2.held, news) == 0
    ensures A.Made(s0, news, end)
  {
    hide NewLinks, L.FillPages, L.OwnerTouches;
    A.NothingCleared(s2, news);
  }

  /** The rest of find_place once the free list is empty. */
  lemma RefillAlone(w: Whole, g: I.Lists, news: seq<Addr>) returns (moves: seq<Move>, end: Whole, p: Addr)
    requires Inv(w) && I.Inv(Abs(w), g) && NoneAsked(w) && w.lists.owner.ReadPending? && A.NewsFor(Abs(w), news) && g.free == []
    ensures Runs(w, moves, end) && Inv(end) && A.Refilled(Abs(w), g.pending, news, Abs(end))
    ensures GaveOne(w.pages, end.pages, p) || GaveOne(w.pages + NewPages(L.Find(L.Grow(news))), end.pages, p)
  {
    hide Inv, I.Inv, Runs, L.OwnerTouches, Abs, NoneAsked, R.Reachable, GaveOne, NewPages, A.Made, A.Took, A.Cleared;
    UnfoldInv(w);
    AgreesOn(w);
    R.NothingPanics(Abs(w));
    A.NullWhenGrowing(Abs(w), g);
    var s := Abs(w);
    if s.pending.None? {
      moves, end := MakesAlone(w, g, news);
      p := news[0];
      A.NothingCleared(s, g.pending);
      assert g.pending[..0] == g.pending;
      assert s.(owner := L.Idle) == s.(freeList := None, pending := None, inFree := A.Cleared(s.inFree, g.pending), owner := L.Idle);
    } else {
      var w2;
      moves, w2 := TakesPending(w, g);
      var g2 := g.(free := g.pending, pending := []);
      AgreesOn(w2);
      var more, w3, g3 := SearchAlone(w2, g2);
      RunsJoin(w, moves, w2, more, w3);
      moves, end := moves + more, w3;
      var k := A.Full(s.held, g.pending);
      if k < |g.pending| {
        p := g.pending[k];
      } else {
        assert g.pending[..k] == g.pending && g.pending[k..] == [];
        AgreesOn(w3);
        more, end := MakesAlone(w3, g3, news);
        p := news[0];
        RunsJoin(w, moves, w3, more, end);
        moves := moves + more;
      }
    }
  }

  lemma TakesPending(w: Whole, g: I.Lists) returns (moves: seq<Move>, w2: Whole)
    requires Inv(w) && I.Inv(Abs(w), g) && NoneAsked(w) && w.lists.owner.ReadPending? && Abs(w).pending.Some? && L.OwnerTouches(Abs(w))
    ensures Runs(w, moves, w2) && Inv(w2) && NoneAsked(w2) && w2.pages == w.pages
    ensures Abs(w2) == Abs(w).(freeList := Abs(w).pending, pending := None, owner := L.Scan)
    ensures I.Inv(Abs(w2), g.(free := g.pending, pending := []))
  {
    hide Inv, I.Inv, Runs, L.OwnerTouches, Abs, NoneAsked, R.Reachable;
    AgreesOn(w);
    var s1 := Abs(w).(owner := L.SwapPending);
    var w1 := Goes(w, g, L.LoadPending, s1);
    UnfoldInv(w1);
    R.NothingPanics(s1);
    w2 := Goes(w1, g, L.TakePending, s1.(freeList := s1.pending, pending := None, owner := L.Scan));
    RunsJoin(w, [OnLists(L.Find(L.LoadPending))], w1, [OnLists(L.Find(L.TakePending))], w2);
    moves := [OnLists(L.Find(L.LoadPending))] + [OnLists(L.Find(L.TakePending))];
    assert w2.pages == w.pages;
    SameAsked(w, w2);
  }

  /** A call of find_place, the owner alone at work and reading words, returns with the lists as
      ArenaAlone says, and one page has given its least block on offer. */
  lemma FindAlone(w: Whole, news: seq<Addr>)
      returns (moves: seq<Move>, end: Whole, free: seq<Addr>, pending: seq<Addr>, p: Addr)
    requires Reachable(w) && w.lists.owner.Idle? && A.NewsFor(Abs(w), news)
    ensures Chain(w.lists.nextFree, w.lists.freeList, free) && Chain(w.lists.nextFree, w.lists.pending, pending)
    ensures Runs(w, moves, end) && A.Found(Abs(w), free, pending, news, Abs(end))
    ensures GaveOne(w.pages, end.pages, p) || GaveOne(w.pages + NewPages(L.Find(L.Grow(news))), end.pages, p)
  {
    hide Inv, I.Inv, Runs, L.OwnerTouches, Abs, NoneAsked, R.Reachable, GaveOne, NewPages, A.Found, Chain, Enabled, Apply;
    var n: nat :| ReachableIn(w, n);
    ReachableInInv(w, n);
    UnfoldInv(w);
    AbsFields(w);
    var g := R.ReachableInv(Abs(w));
    A.ListsRead(Abs(w), g);
    free, pending := g.free, g.pending;
    moves, end, p := FindFrom(w, g, news);
  }

  lemma IdleAsksNone(w: Whole)
    requires Inv(w) && w.lists.owner.Idle?
    ensures NoneAsked(w)
  {
  }

  lemma Begins(w: Whole, g: I.Lists) returns (w1: Whole)
    requires Inv(w) && I.Inv(Abs(w), g) && w.lists.owner.Idle?
    ensures Runs(w, [OnLists(L.Find(L.FindPlace))], w1) && Inv(w1) && I.Inv(Abs(w1), g) && NoneAsked(w1)
    ensures Abs(w).owner.Idle? && Abs(w1) == Abs(w).(owner := L.Scan) && w1.pages == w.pages
  {
    hide Inv, I.Inv, Runs, L.OwnerTouches, Abs, NoneAsked, R.Reachable;
    IdleAsksNone(w);
    UnfoldInv(w);
    AgreesOn(w);
    R.NothingPanics(Abs(w));
    w1 := Goes(w, g, L.FindPlace, Abs(w).(owner := L.Scan));
    NoNewPages(L.Find(L.FindPlace));
    assert w1.pages == w.pages;
    SameAsked(w, w1);
  }

  lemma FindFrom(w: Whole, g: I.Lists, news: seq<Addr>) returns (moves: seq<Move>, end: Whole, p: Addr)
    requires Inv(w) && I.Inv(Abs(w), g) && w.lists.owner.Idle? && A.NewsFor(Abs(w), news)
    ensures Runs(w, moves, end) && A.Found(Abs(w), g.free, g.pending, news, Abs(end))
    ensures GaveOne(w.pages, end.pages, p) || GaveOne(w.pages + NewPages(L.Find(L.Grow(news))), end.pages, p)
  {
    hide Inv, I.Inv, Runs, L.OwnerTouches, Abs, NoneAsked, R.Reachable, GaveOne, NewPages, A.Made, A.Took, A.Cleared, A.Full;
    var w1 := Begins(w, g);
    AgreesOn(w1);
    var s := Abs(w);
    var search, w2, g2 := SearchAlone(w1, g);
    RunsJoin(w, [OnLists(L.Find(L.FindPlace))], w1, search, w2);
    moves, end := [OnLists(L.Find(L.FindPlace))] + search, w2;
    var k := A.Full(s.held, g.free);
    A.FullJoin(s.held, g.free, g.pending);
    if k < |g.free| {
      p := g.free[k];
      assert (g.free + g.pending)[..k] == g.free[..k];
    } else {
      assert g.free[..k] == g.free && g.free[k..] == [];
      AgreesOn(w2);
      var rest;
      rest, end, p := RefillAlone(w2, g2, news);
      RunsJoin(w, moves, w2, rest, end);
      moves := moves + rest;
      A.RefilledIs(s, g, Abs(w2), news, Abs(end));
    }
  }
}
