/** What the operations on a SharedArena page do: access by access while others interfere, and as a
    whole when their thread runs alone for a while, from any state that any interleaving reaches
    (src/page/shared_arena.rs:135-220, src/arena_arc.rs:101-184, src/arena_box.rs:82-157). */
module SharedPageAlone {
  import opened Bitfield
  import opened SharedPage

  /** These accesses lead from s to end. */
  ghost predicate Runs(s: State, steps: seq<Step>, end: State)
    decreases |steps|
  {
    if steps == [] then s == end else Enabled(s, steps[0]) && Runs(Apply(s, steps[0]), steps[1..], end)
  }

  lemma Reaches(s: State, step: Step)
    requires Reachable(s) && Enabled(s, step)
    ensures Reachable(Apply(s, step))
  {
    hide Apply, Enabled;
    var n: nat :| ReachableIn(s, n);
    assert Next(s, Apply(s, step));
    assert ReachableIn(Apply(s, step), n + 1);
  }

  lemma RunsOn(s: State, step: Step, steps: seq<Step>, end: State)
    requires Enabled(s, step) && Runs(Apply(s, step), steps, end)
    ensures Runs(s, [step] + steps, end)
  {
    hide Apply, Enabled;
    assert ([step] + steps)[1..] == steps;
  }

  lemma Last(s: State, step: Step)
    requires Enabled(s, step)
    ensures Runs(s, [step], Apply(s, step))
  {
    assert [step][1..] == [];
  }

  // ---------------------------------------------------------------- acquire_free_block, others at work

  /** The load of an acquiring thread: it leaves without a block if and only if none is free at that
      access, and else goes for the least free one. */
  lemma LoadFinds(s: State, t: ThreadId)
    requires Reachable(s) && At(s, t, Acquiring)
    ensures if Free(s.word) == {} then Apply(s, LoadWord(t)) == Done(s, t)
            else exists i: nat :: IsLeast(i, Free(s.word)) && Apply(s, LoadWord(t)) == Goto(s, t, Loaded(i))
  {
    ReachableInv(s);
    assert ThreadInv(s, t);
    TrailingZerosFinds(s.word);
    if Free(s.word) != {} {
      assert IsLeast(TrailingZeros(s.word), Free(s.word));
    }
  }

  /** Its `fetch_and`: a block that is still free is its own from then on; if somebody else was
      faster, it changes nothing and starts again. */
  lemma FetchAndTakes(s: State, t: ThreadId, i: nat)
    requires Reachable(s) && At(s, t, Loaded(i))
    ensures Enabled(s, FetchAnd(t))
    ensures var s' := Apply(s, FetchAnd(t));
            if i in Free(s.word) then
              s' == Goto(s.(word := s'.word), t, Taken(i)) && Free(s'.word) == Free(s.word) - {i} && OwnersOf(s'.threads, i) == {t}
            else s' == Goto(s, t, Acquiring)
  {
    ReachableInv(s);
    assert ThreadInv(s, t);
    FetchAndWord(s.word, i);
    if i in Free(s.word) {
      assert BlockInv(s, i);
      assert forall u | u in s.threads && Owns(s.threads[u], i) :: u in OwnersOf(s.threads, i);
    } else {
      WordExt(And(s.word, Not(Bit(i))), s.word);
    }
  }

  /** A block stops being free only when a thread takes it: a failed `fetch_and` means that another
      thread got the block meanwhile. */
  lemma OnlyTaken(s: State, step: Step, i: nat)
    requires Reachable(s) && Enabled(s, step) && i in Free(s.word) && i !in Free(Apply(s, step).word)
    ensures step.FetchAnd? && At(s, step.t, Loaded(i)) && At(Apply(s, step), step.t, Taken(i))
  {
    hide Free, Reachable, And, Not, Bit, WrappingAdd, WrappingSub, Or;
    match step
    case FetchAnd(t) => FetchAndTakes(s, t, s.threads[t].index);
    case FetchAdd(t) => AddKeepsFree(s, t);
    case DropPage(t) => SubKeepsFree(s, t);
    case _ =>
  }

  lemma AddKeepsFree(s: State, t: ThreadId)
    requires Reachable(s) && Enabled(s, FetchAdd(t))
    ensures var s', i := Apply(s, FetchAdd(t)), s.threads[t].index;
            i < |s.counters| && i !in Free(s.word) && Free(s'.word) == Free(s.word) + {i} &&
            s' == s.(word := s'.word, threads := s'.threads) &&
            s'.threads == if Free(s'.word) == Indices() && !s.arenaRef then s.threads[t := Freeing] else s.threads - {t}
  {
    ReachableInv(s);
    var i := s.threads[t].index;
    ReleaseNeverCarries(s, t);
    FetchAddWord(s.word, i);
  }

  lemma SubKeepsFree(s: State, t: ThreadId)
    requires Reachable(s) && Enabled(s, DropPage(t))
    ensures var s' := Apply(s, DropPage(t));
            Free(s'.word) == Free(s.word) && s' == s.(word := s'.word, threads := s'.threads, arenaRef := false) &&
            s'.threads == if Free(s.word) == Indices() then s.threads[t := Freeing] else s.threads
  {
    ReachableInv(s);
    DropPageWord(s.word);
  }

  lemma CounterIsZero(s: State, t: ThreadId, i: nat)
    requires Reachable(s) && At(s, t, Taken(i))
    ensures i < |s.counters| && Apply(s, ReadCounter(t)) == Goto(s, t, Checked(i))
  {
    ReachableInv(s);
    assert ThreadInv(s, t);
    SoleOwner(s, t, i);
  }

  // ---------------------------------------------------------------- a new handle, alone

  /** What alloc or alloc_arc did: a handle on the least free block, or nothing. */
  ghost predicate MadeHandle(s: State, end: State, id: HandleId, kind: Kind) {
    if Free(s.word) == {} then end == s
    else exists i: nat ::
      IsLeast(i, Free(s.word)) && i < |s.counters| && Free(end.word) == Free(s.word) - {i} &&
      end == s.(word := end.word, counters := s.counters[i := 1], handles := s.handles[id := Handle(i, kind)])
  }

  /** acquire_free_block and the making of the handle, alone: a new handle on the least free block
      with its counter at 1; or no block, if and only if none is free. */
  lemma AcquireAlone(s: State, t: ThreadId, id: HandleId, kind: Kind) returns (steps: seq<Step>, end: State)
    requires Reachable(s) && t !in s.threads && s.arenaRef && id !in s.handles
    ensures Runs(s, steps, end) && steps <= [BeginAcquire(t), LoadWord(t), FetchAnd(t), ReadCounter(t), StoreOne(t, id, kind)]
    ensures MadeHandle(s, end, id, kind)
  {
    hide Runs, Reachable, Free;
    var s1 := Goto(s, t, Acquiring);
    Reaches(s, BeginAcquire(t));
    LoadFinds(s1, t);
    if Free(s.word) == {} {
      end := Done(s1, t);
      assert s1.threads - {t} == s.threads;
      Last(s1, LoadWord(t));
      RunsOn(s, BeginAcquire(t), [LoadWord(t)], end);
      steps := [BeginAcquire(t)] + [LoadWord(t)];
    } else {
      var i: nat :| IsLeast(i, Free(s.word)) && Apply(s1, LoadWord(t)) == Goto(s1, t, Loaded(i));
      Reaches(s1, LoadWord(t));
      steps, end := TakesLoaded(s, Apply(s1, LoadWord(t)), t, i, id, kind);
      RunsOn(s1, LoadWord(t), steps, end);
      RunsOn(s, BeginAcquire(t), [LoadWord(t)] + steps, end);
      steps := [BeginAcquire(t)] + ([LoadWord(t)] + steps);
    }
  }

  lemma TakesLoaded(s: State, s2: State, t: ThreadId, i: nat, id: HandleId, kind: Kind) returns (steps: seq<Step>, end: State)
    requires Reachable(s2) && s2.threads == s.threads[t := Loaded(i)] && s2 == s.(threads := s2.threads) && t !in s.threads
    requires IsLeast(i, Free(s.word)) && id !in s.handles
    ensures Runs(s2, steps, end) && steps == [FetchAnd(t), ReadCounter(t), StoreOne(t, id, kind)]
    ensures MadeHandle(s, end, id, kind)
  {
    hide Runs, Reachable, Free;
    FetchAndTakes(s2, t, i);
    Reaches(s2, FetchAnd(t));
    var s3 := Apply(s2, FetchAnd(t));
    CounterIsZero(s3, t, i);
    Reaches(s3, ReadCounter(t));
    var s4 := Apply(s3, ReadCounter(t));
    end := Apply(s4, StoreOne(t, id, kind));
    assert s4.threads - {t} == s.threads;
    Last(s4, StoreOne(t, id, kind));
    RunsOn(s3, ReadCounter(t), [StoreOne(t, id, kind)], end);
    RunsOn(s2, FetchAnd(t), [ReadCounter(t)] + [StoreOne(t, id, kind)], end);
    steps := [FetchAnd(t)] + ([ReadCounter(t)] + [StoreOne(t, id, kind)]);
  }

  // ---------------------------------------------------------------- handles, alone

  /** ArenaArc::clone: one handle more on the same block, counted. */
  lemma CloneCounts(s: State, id: HandleId, newId: HandleId)
    requires Reachable(s) && Available(s, id, Arc) && newId !in s.handles && s.counters[s.handles[id].index] < ISIZE_MAX
    ensures Enabled(s, CloneArc(id, newId))
    ensures var s', i := Apply(s, CloneArc(id, newId)), s.handles[id].index;
            s' == s.(counters := s'.counters, handles := s'.handles) && HandlesOf(s'.handles, i) == HandlesOf(s.handles, i) + {newId} &&
            i < |s'.counters| && s'.counters == s.counters[i := s'.counters[i]] && s'.counters[i] == s.counters[i] + 1 &&
            forall h | h in s.handles :: h in s'.handles && s'.handles[h] == s.handles[h]
  {
    HandleAdded(s.handles, newId, Handle(s.handles[id].index, Arc));
    hide HandlesOf;
  }

  /** What the drop of a handle did: the handle is gone and the block counts its handles; after the last
      one the block is free, and the last block of a page let go deallocates the page. */
  ghost predicate Dropped(s: State, end: State, id: HandleId) {
    id in s.handles &&
    var i := s.handles[id].index;
    var last := HandlesOf(s.handles, i) == {id};
    i < |s.counters| && |HandlesOf(s.handles, i)| > 0 &&
    end == s.(word := end.word, handles := s.handles - {id}, counters := end.counters, deallocs := end.deallocs) &&
    |end.counters| == |s.counters| && end.counters == s.counters[i := end.counters[i]] &&
    end.counters[i] == |HandlesOf(s.handles, i)| - 1 &&
    Free(end.word) == Free(s.word) + (if last then {i} else {}) &&
    end.deallocs == if last && !s.arenaRef && Free(end.word) == Indices() then 1 else 0
  }

  /** The drop of an ArenaArc, alone. */
  lemma DropArcAlone(s: State, t: ThreadId, id: HandleId) returns (steps: seq<Step>, end: State)
    requires Reachable(s) && t !in s.threads && Available(s, id, Arc)
    ensures Runs(s, steps, end) && steps <= [DropArc(t, id), FetchAdd(t), Deallocate(t)]
    ensures Dropped(s, end, id)
  {
    hide Runs, Reachable, Free;
    HandleCounted(s, id);
    NothingAfterDeallocation(s, DropArc(t, id));
    Reaches(s, DropArc(t, id));
    var s1 := Apply(s, DropArc(t, id));
    if HandlesOf(s.handles, s.handles[id].index) == {id} {
      steps, end := Releases(s, s1, t, id);
      RunsOn(s, DropArc(t, id), steps, end);
      steps := [DropArc(t, id)] + steps;
    } else {
      end := s1;
      Last(s, DropArc(t, id));
      steps := [DropArc(t, id)];
    }
  }

  lemma HandleCounted(s: State, id: HandleId)
    requires Reachable(s) && id in s.handles
    ensures var i := s.handles[id].index;
            i < |s.counters| && id in HandlesOf(s.handles, i) && s.counters[i] == |HandlesOf(s.handles, i)| &&
            (s.counters[i] == 1 <==> HandlesOf(s.handles, i) == {id}) &&
            (s.handles[id].kind == Box ==> HandlesOf(s.handles, i) == {id})
  {
    ReachableInv(s);
    HandleHolds(s, id);
    assert HandleInv(s, id);
    var rest := HandlesOf(s.handles, s.handles[id].index) - {id};
    assert HandlesOf(s.handles, s.handles[id].index) == rest + {id};
    assert |rest| == 0 <==> rest == {};
  }

  /** After the last handle: the block is released. */
  lemma Releases(s: State, s1: State, t: ThreadId, id: HandleId) returns (steps: seq<Step>, end: State)
    requires Reachable(s1) && t !in s.threads && id in s.handles && s.handles[id].index < |s.counters| && s.deallocs == 0
    requires HandlesOf(s.handles, s.handles[id].index) == {id}
    requires var i := s.handles[id].index;
             s1 == s.(counters := s.counters[i := 0], handles := s.handles - {id}, threads := s.threads[t := Dropping(i)])
    ensures Runs(s1, steps, end) && steps <= [FetchAdd(t), Deallocate(t)] && Dropped(s, end, id)
  {
    hide Runs, Reachable, Free;
    InDrop(s1, t);
    AddKeepsFree(s1, t);
    Reaches(s1, FetchAdd(t));
    var s2 := Apply(s1, FetchAdd(t));
    assert s1.threads - {t} == s.threads;
    if t in s2.threads {
      end := Apply(s2, Deallocate(t));
      assert s2.threads - {t} == s.threads;
      Last(s2, Deallocate(t));
      RunsOn(s1, FetchAdd(t), [Deallocate(t)], end);
      steps := [FetchAdd(t)] + [Deallocate(t)];
    } else {
      end := s2;
      Last(s1, FetchAdd(t));
      steps := [FetchAdd(t)];
    }
  }

  lemma InDrop(s: State, t: ThreadId)
    requires Reachable(s) && t in s.threads && s.threads[t].Dropping?
    ensures Enabled(s, FetchAdd(t))
  {
    ReachableInv(s);
    assert ThreadInv(s, t);
  }

  /** The drop of an ArenaBox, alone: its assertion holds. */
  lemma DropBoxAlone(s: State, t: ThreadId, id: HandleId) returns (steps: seq<Step>, end: State)
    requires Reachable(s) && t !in s.threads && Available(s, id, Box)
    ensures Runs(s, steps, end) && steps <= [BoxRead(t, id), BoxStore(t), FetchAdd(t), Deallocate(t)]
    ensures Dropped(s, end, id)
  {
    hide Runs, Reachable, Free;
    HandleCounted(s, id);
    NothingAfterDeallocation(s, BoxRead(t, id));
    Reaches(s, BoxRead(t, id));
    var s1 := Apply(s, BoxRead(t, id));
    Reaches(s1, BoxStore(t));
    var s2 := Apply(s1, BoxStore(t));
    assert s2.threads == s.threads[t := Dropping(s.handles[id].index)];
    steps, end := Releases(s, s2, t, id);
    RunsOn(s1, BoxStore(t), steps, end);
    RunsOn(s, BoxRead(t, id), [BoxStore(t)] + steps, end);
    steps := [BoxRead(t, id)] + ([BoxStore(t)] + steps);
  }

  /** drop_page, alone: the arena has let go of the page, which is deallocated if no block is in use. */
  lemma LetGoAlone(s: State, t: ThreadId) returns (steps: seq<Step>, end: State)
    requires Reachable(s) && t !in s.threads && s.arenaRef && !AcquireInFlight(s)
    ensures Runs(s, steps, end) && steps <= [DropPage(t), Deallocate(t)]
    ensures end == s.(word := end.word, arenaRef := false, deallocs := end.deallocs) && Free(end.word) == Free(s.word)
    ensures end.deallocs == if Free(s.word) == Indices() then 1 else 0
  {
    hide Runs, Reachable, Free;
    NothingAfterDeallocation(s, DropPage(t));
    SubKeepsFree(s, t);
    Reaches(s, DropPage(t));
    var s1 := Apply(s, DropPage(t));
    if t in s1.threads {
      end := Apply(s1, Deallocate(t));
      assert s1.threads - {t} == s.threads;
      Last(s1, Deallocate(t));
      RunsOn(s, DropPage(t), [Deallocate(t)], end);
      steps := [DropPage(t)] + [Deallocate(t)];
    } else {
      end := s1;
      Last(s, DropPage(t));
      steps := [DropPage(t)];
    }
  }
}
