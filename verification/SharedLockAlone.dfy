/** What one thread of a SharedArena does when it runs alone for a while, from any state that any
    interleaving reaches: a pop of the free list, a refill under the writer lock, a whole
    shrink_to_fit (src/shared_arena.rs:84-246, src/shared_arena.rs:627-711). */
module SharedLockAlone {
  import opened Options
  import opened Chains
  import opened Growth
  import opened SharedLock

  // ---------------------------------------------------------------- the pending list, others at work

  /** The head a thread takes from the pending list is what free_list holds after the thread's next
      access to it; meanwhile the list stays null. */
  lemma PendingIsKept(s: State, t: ThreadId, seen: Seen)
    requires Reachable(s) && t in s.threads && Enabled(s, Run(t, seen))
    ensures var s', pc := Apply(s, Run(t, seen)), s.threads[t];
            (pc == Refill(SwapPending) ==>
               s.mem.pending.Some? && s'.mem == s.mem.(pending := None) && s'.threads[t] == Refill(StorePending(s.mem.pending))) &&
            (pc.Refill? && pc.refill.StorePending? ==>
               s.mem.freeList.None? && s'.mem == s.mem.(freeList := pc.refill.head) && s'.threads[t] == Maybe(LoadDelay, true))
  {
    ReachableInv(s);
    assert Local(s.mem, s.threads[t]);
  }

  // ---------------------------------------------------------------- runs of one thread

  /** These reads lead the thread from pc to pc', and memory from m to m'. */
  ghost predicate Runs(m: Mem, pc: Pc, seens: seq<Seen>, m': Mem, pc': Pc)
    decreases |seens|
  {
    if seens == [] then m' == m && pc' == pc
    else Formed(pc) && Runs(Access(m, pc, seens[0]).0, Access(m, pc, seens[0]).1, seens[1..], m', pc')
  }

  lemma RunsOn(m: Mem, pc: Pc, seen: Seen, m1: Mem, pc1: Pc, seens: seq<Seen>, m': Mem, pc': Pc)
    requires Formed(pc) && Access(m, pc, seen) == (m1, pc1) && Runs(m1, pc1, seens, m', pc')
    ensures Runs(m, pc, [seen] + seens, m', pc')
  {
    hide Access;
    assert ([seen] + seens)[1..] == seens;
  }

  lemma {:induction false} RunsJoin(m: Mem, pc: Pc, first: seq<Seen>, m1: Mem, pc1: Pc, second: seq<Seen>, m2: Mem, pc2: Pc)
    requires Runs(m, pc, first, m1, pc1) && Runs(m1, pc1, second, m2, pc2)
    ensures Runs(m, pc, first + second, m2, pc2)
    decreases |first|
  {
    hide Access;
    if first == [] {
      assert first + second == second;
    } else {
      var r := Access(m, pc, first[0]);
      RunsJoin(r.0, r.1, first[1..], m1, pc1, second, m2, pc2);
      assert first + second == [first[0]] + (first[1..] + second);
      RunsOn(m, pc, first[0], r.0, r.1, first[1..] + second, m2, pc2);
    }
  }

  /** Such a run is a run of the arena in which the other threads stand still. */
  lemma {:induction false} StandStill(s: State, t: ThreadId, seens: seq<Seen>, m': Mem, pc': Pc)
    requires Reachable(s) && t in s.threads && Runs(s.mem, s.threads[t], seens, m', pc')
    ensures Reachable(State(m', s.threads[t := pc']))
    decreases |seens|
  {
    hide Access;
    if seens == [] {
      assert s.threads[t := pc'] == s.threads;
      assert State(m', s.threads) == s;
    } else {
      var s1 := Apply(s, Run(t, seens[0]));
      var n: nat :| ReachableIn(s, n);
      assert Enabled(s, Run(t, seens[0])) && Next(s, s1);
      assert ReachableIn(s1, n + 1);
      StandStill(s1, t, seens[1..], m', pc');
      assert s1.threads[t := pc'] == s.threads[t := pc'];
    }
  }

  /** A thread between calls may begin one, and a drop may push any page, at any time. */
  lemma CallAlone(s: State, t: ThreadId, shrink: bool, seens: seq<Seen>, m': Mem, pc': Pc)
    requires Reachable(s) && (t in s.threads ==> s.threads[t].Returned?)
    requires Runs(s.mem, if shrink then BeginShrink else Find(LoadFree), seens, m', pc')
    ensures Reachable(State(m', s.threads[t := pc']))
    ensures forall p :: Reachable(State(m'.(pending := Some(p)), s.threads[t := pc']))
  {
    hide Access, Reachable, Runs;
    var s1 := Apply(s, Call(t, shrink));
    Follows(s, Call(t, shrink));
    StandStill(s1, t, seens, m', pc');
    assert s1.threads[t := pc'] == s.threads[t := pc'];
    forall p
      ensures Reachable(State(m'.(pending := Some(p)), s.threads[t := pc']))
    {
      Follows(State(m', s.threads[t := pc']), Push(p));
    }
  }

  lemma Follows(s: State, step: Step)
    requires Reachable(s) && Enabled(s, step)
    ensures Reachable(Apply(s, step))
  {
    hide Access;
    var n: nat :| ReachableIn(s, n);
    assert Next(s, Apply(s, step));
    assert ReachableIn(Apply(s, step), n + 1);
  }

  /** What a thread sees where it does not matter. */
  const BLANK: Seen := Seen(false, None, 0, [], {})

  function Blanks(n: nat): seq<Seen> {
    seq(n, _ => BLANK)
  }

  lemma BlankOn(m: Mem, pc: Pc, m1: Mem, pc1: Pc, n: nat, m': Mem, pc': Pc)
    requires Formed(pc) && Access(m, pc, BLANK) == (m1, pc1) && Runs(m1, pc1, Blanks(n), m', pc')
    ensures Runs(m, pc, Blanks(n + 1), m', pc')
  {
    hide Access;
    assert Blanks(n + 1) == [BLANK] + Blanks(n);
    RunsOn(m, pc, BLANK, m1, pc1, Blanks(n), m', pc');
  }

  // ---------------------------------------------------------------- the lock-free part

  /** A page on the free list that has a block gives one; a page that has none leaves the list to the
      page the thread reads as its successor. */
  lemma PopAlone(m: Mem, yes: bool, link: Option<Addr>) returns (seens: seq<Seen>)
    requires m.freeList.Some?
    ensures if yes then Runs(m, Find(LoadFree), seens, m, Returned)
            else Runs(m, Find(LoadFree), seens, m.(freeList := link), Find(LoadFree))
    ensures |seens| <= 4
  {
    hide Runs;
    var p := m.freeList.value;
    var answer := BLANK.(yes := yes, link := link);
    if yes {
      Ends(m, Returned);
      RunsOn(m, Find(AcquireIn(p)), answer, m, Returned, [], m, Returned);
      RunsOn(m, Find(LoadFree), answer, m, Find(AcquireIn(p)), [answer] + [], m, Returned);
      seens := [answer] + ([answer] + []);
    } else {
      var m' := m.(freeList := link);
      Ends(m', Find(LoadFree));
      RunsOn(m, Find(CasFree(p, link)), answer, m', Find(LoadFree), [], m', Find(LoadFree));
      RunsOn(m, Find(LoadNextFree(p)), answer, m, Find(CasFree(p, link)), [answer] + [], m', Find(LoadFree));
      RunsOn(m, Find(AcquireIn(p)), answer, m, Find(LoadNextFree(p)), [answer] + ([answer] + []), m', Find(LoadFree));
      seens := [answer] + ([answer] + ([answer] + []));
      RunsOn(m, Find(LoadFree), answer, m, Find(AcquireIn(p)), seens, m', Find(LoadFree));
      seens := [answer] + seens;
    }
  }

  lemma Ends(m: Mem, pc: Pc)
    ensures Runs(m, pc, [], m, pc) && Runs(m, pc, Blanks(0), m, pc)
  {
  }

  // ---------------------------------------------------------------- maybe_free_pages and the lock

  /** maybe_free_pages: counts up to ten; the tenth call takes the waiting vector. */
  function Counted(m: Mem): Mem {
    m.(delay := if m.delay < 10 then m.delay + 1 else m.delay, toFree := if m.delay == 9 then None else m.toFree)
  }

  lemma CountAlone(m: Mem, held: bool) returns (n: nat)
    ensures Runs(m, Maybe(LoadDelay, held), Blanks(n), Counted(m), if held then Refill(Unlock) else Find(LoadFree)) && n <= 3
  {
    hide Runs;
    Ends(Counted(m), AfterDelay(held));
    if m.delay < 9 {
      BlankOn(m, Maybe(AddDelay, held), Counted(m), AfterDelay(held), 0, Counted(m), AfterDelay(held));
      BlankOn(m, Maybe(LoadDelay, held), m, Maybe(AddDelay, held), 1, Counted(m), AfterDelay(held));
      n := 2;
    } else if m.delay == 9 {
      var m1 := m.(delay := 10);
      BlankOn(m1, Maybe(SwapToFree, held), Counted(m), AfterDelay(held), 0, Counted(m), AfterDelay(held));
      BlankOn(m, Maybe(AddDelay, held), m1, Maybe(SwapToFree, held), 1, Counted(m), AfterDelay(held));
      BlankOn(m, Maybe(LoadDelay, held), m, Maybe(AddDelay, held), 2, Counted(m), AfterDelay(held));
      n := 3;
    } else {
      BlankOn(m, Maybe(LoadDelay, held), m, AfterDelay(held), 0, Counted(m), AfterDelay(held));
      n := 1;
    }
  }

  /** With the lock taken by another thread, find_place changes nothing and looks at the free list again;
      if that has been refilled meanwhile, it counts for maybe_free_pages. */
  lemma BusyAlone(m: Mem) returns (n: nat)
    requires m.writer
    ensures m.freeList.None? ==> Runs(m, Find(LoadFree), Blanks(3), m, Find(LoadFree))
    ensures m.freeList.Some? ==> Runs(m, Find(TestLock), Blanks(n), Counted(m), Find(LoadFree)) && n <= 5
    ensures m.freeList.Some? ==> Runs(m, Find(SwapLock), Blanks(n), Counted(m), Find(LoadFree))
  {
    hide Runs, Counted;
    n := 0;
    if m.freeList.None? {
      Ends(m, Find(LoadFree));
      BlankOn(m, Find(Recheck), m, Find(LoadFree), 0, m, Find(LoadFree));
      BlankOn(m, Find(TestLock), m, Find(Recheck), 1, m, Find(LoadFree));
      BlankOn(m, Find(LoadFree), m, Find(TestLock), 2, m, Find(LoadFree));
    } else {
      n := CountAlone(m, false);
      BlankOn(m, Find(Recheck), m, Maybe(LoadDelay, false), n, Counted(m), Find(LoadFree));
      BlankOn(m, Find(SwapLock), m, Find(Recheck), n + 1, Counted(m), Find(LoadFree));
      BlankOn(m, Find(TestLock), m, Find(Recheck), n + 1, Counted(m), Find(LoadFree));
      n := n + 2;
    }
  }

  /** A thread that got the lock and finds the free list refilled leaves it as it is; shrink_to_fit gives
      up if another thread is at it, and waits for the lock while another thread has it. */
  lemma YieldsAlone(m: Mem)
    ensures m.freeList.Some? ==> Runs(m, Refill(StillNull), Blanks(2), m.(writer := false), Find(LoadFree))
    ensures m.shrinking ==> Runs(m, BeginShrink, Blanks(1), m, Returned)
    ensures m.writer ==> Runs(m, LockShrink, Blanks(1), m, LockShrink)
  {
    hide Runs;
    if m.freeList.Some? {
      UnlocksAlone(m);
      BlankOn(m, Refill(StillNull), m, Refill(Unlock), 1, m.(writer := false), Find(LoadFree));
    }
    Ends(m, Returned);
    Ends(m, LockShrink);
    if m.shrinking {
      BlankOn(m, BeginShrink, m, Returned, 0, m, Returned);
    }
    if m.writer {
      BlankOn(m, LockShrink, m, LockShrink, 0, m, LockShrink);
    }
  }

  /** From finding the free list null to having the writer lock. */
  lemma LocksAlone(m: Mem)
    requires m.freeList.None? && !m.writer
    ensures Runs(m, Find(LoadFree), Blanks(4), m.(writer := true), Refill(LoadPending))
  {
    hide Runs;
    var m1 := m.(writer := true);
    Ends(m1, Refill(LoadPending));
    BlankOn(m1, Refill(StillNull), m1, Refill(LoadPending), 0, m1, Refill(LoadPending));
    BlankOn(m, Find(SwapLock), m1, Refill(StillNull), 1, m1, Refill(LoadPending));
    BlankOn(m, Find(TestLock), m, Find(SwapLock), 2, m1, Refill(LoadPending));
    BlankOn(m, Find(LoadFree), m, Find(TestLock), 3, m1, Refill(LoadPending));
  }

  lemma UnlocksAlone(m: Mem)
    ensures Runs(m, Refill(Unlock), Blanks(1), m.(writer := false), Find(LoadFree))
  {
    hide Runs;
    Ends(m.(writer := false), Find(LoadFree));
    BlankOn(m, Refill(Unlock), m.(writer := false), Find(LoadFree), 0, m.(writer := false), Find(LoadFree));
  }

  // ---------------------------------------------------------------- a refill

  /** find_place finds the free list null and pages pending: the free list becomes the pending list,
      which is emptied, and maybe_free_pages is called once. */
  lemma TakesPendingAlone(m: Mem) returns (n: nat)
    requires m.freeList.None? && !m.writer && m.pending.Some?
    ensures Runs(m, Find(LoadFree), Blanks(n), Counted(m.(freeList := m.pending, pending := None)), Find(LoadFree)) && n <= 11
  {
    hide Runs, Counted;
    var locked := m.(writer := true);
    var m1 := locked.(pending := None);
    var m2 := m1.(freeList := m.pending);
    var m3 := Counted(m2);
    LocksAlone(m);
    n := CountAlone(m2, true);
    UnlocksAlone(m3);
    Joins(m2, Maybe(LoadDelay, true), n, m3, Refill(Unlock), 1, m3.(writer := false), Find(LoadFree));
    BlankOn(m1, Refill(StorePending(m.pending)), m2, Maybe(LoadDelay, true), n + 1, m3.(writer := false), Find(LoadFree));
    BlankOn(locked, Refill(SwapPending), m1, Refill(StorePending(m.pending)), n + 2, m3.(writer := false), Find(LoadFree));
    BlankOn(locked, Refill(LoadPending), locked, Refill(SwapPending), n + 3, m3.(writer := false), Find(LoadFree));
    Joins(m, Find(LoadFree), 4, locked, Refill(LoadPending), n + 4, m3.(writer := false), Find(LoadFree));
    CountedUnlocked(m2);
    assert m2.(writer := false) == m.(freeList := m.pending, pending := None);
    n := n + 8;
  }

  lemma CountedUnlocked(m: Mem)
    ensures Counted(m).(writer := false) == Counted(m.(writer := false))
  {
  }

  lemma Joins(m: Mem, pc: Pc, a: nat, m1: Mem, pc1: Pc, b: nat, m2: Mem, pc2: Pc)
    requires Runs(m, pc, Blanks(a), m1, pc1) && Runs(m1, pc1, Blanks(b), m2, pc2)
    ensures Runs(m, pc, Blanks(a + b), m2, pc2)
  {
    hide Runs;
    RunsJoin(m, pc, Blanks(a), m1, pc1, Blanks(b), m2, pc2);
    assert Blanks(a) + Blanks(b) == Blanks(a + b);
  }

  /** put_pages_in_lists: the pages become the heads of both lists, and count. */
  function Listed(m: Mem, pages: seq<Addr>): Mem
    requires pages != []
  {
    m.(next := m.next[pages[|pages| - 1] := m.full], full := Some(pages[0]), freeList := Some(pages[0]),
       npages := (m.npages + |pages|) % WIDTH)
  }

  lemma PutAlone(m: Mem, pages: seq<Addr>, rest: Option<seq<Addr>>)
    requires pages != [] && m.freeList.None?
    ensures Runs(m, Put(pages, rest, LoadFull), Blanks(6), Listed(m, pages), AfterPut(rest))
  {
    hide Runs;
    var m1 := m.(next := m.next[pages[|pages| - 1] := m.full]);
    var m2 := m1.(full := Some(pages[0]));
    var m3 := m2.(freeList := Some(pages[0]));
    var m4, pc := Listed(m, pages), AfterPut(rest);
    Ends(m4, pc);
    BlankOn(m3, Put(pages, rest, AddCount), m4, pc, 0, m4, pc);
    BlankOn(m2, Put(pages, rest, SwapFree), m3, Put(pages, rest, AddCount), 1, m4, pc);
    BlankOn(m2, Put(pages, rest, TestFree), m2, Put(pages, rest, SwapFree), 2, m4, pc);
    BlankOn(m1, Put(pages, rest, SwapFull(m.full)), m2, Put(pages, rest, TestFree), 3, m4, pc);
    BlankOn(m, Put(pages, rest, LinkLast(m.full)), m1, Put(pages, rest, SwapFull(m.full)), 4, m4, pc);
    BlankOn(m, Put(pages, rest, LoadFull), m, Put(pages, rest, LinkLast(m.full)), 5, m4, pc);
  }

  /** The pages are linked to each other in order, and the other links are as they were. */
  ghost predicate Linked(next: Links<Addr>, pages: seq<Addr>, next': Links<Addr>) {
    LinkedFrom(next, pages, 0, next')
  }

  /** From the i-th on. */
  ghost predicate LinkedFrom(next: Links<Addr>, pages: seq<Addr>, i: nat, next': Links<Addr>) {
    (forall j: nat | i <= j < |pages| :: pages[j] in next' && next'[pages[j]] == At(pages, j + 1)) &&
    forall p | p in next && (forall j: nat | i <= j < |pages| :: pages[j] != p) :: p in next' && next'[p] == next[p]
  }

  lemma LinkedOn(next: Links<Addr>, pages: seq<Addr>, i: nat, next': Links<Addr>)
    requires i < |pages| && NoDup(pages) && LinkedFrom(next[pages[i] := At(pages, i + 1)], pages, i + 1, next')
    ensures LinkedFrom(next, pages, i, next')
  {
    var next1 := next[pages[i] := At(pages, i + 1)];
    assert pages[i] in next1 && forall j: nat | i + 1 <= j < |pages| :: pages[j] != pages[i];
  }

  /** Put in front, they make one list with what was there. */
  lemma FrontChain(m: Mem, m1: Mem, pages: seq<Addr>, full: seq<Addr>)
    requires Chain(m.next, m.full, full) && NoDup(pages) && pages != [] && forall p | p in pages :: p !in full
    requires Linked(m.next, pages, m1.next) && m1.full == m.full
    ensures Chain(Listed(m1, pages).next, Listed(m1, pages).full, pages + full)
  {
    var m2, q := Listed(m1, pages), pages + full;
    forall i: nat | i < |q|
      ensures q[i] in m2.next && m2.next[q[i]] == At(q, i + 1)
    {
      if i >= |pages| {
        assert q[i] == full[i - |pages|] && full[i - |pages|] in full;
      }
    }
  }

  lemma {:induction false} RelinkAlone(m: Mem, pages: seq<Addr>, rest: seq<Addr>, i: nat) returns (m': Mem)
    requires i <= |pages| && pages != [] && NoDup(pages)
    ensures Runs(m, Refill(Relink(pages, rest, i)), Blanks(|pages| - i + 1), m', Put(pages, Some(rest), LoadFull))
    ensures m' == m.(next := m'.next) && LinkedFrom(m.next, pages, i, m'.next)
    decreases |pages| - i
  {
    hide Runs, Access, NoDup, LinkedFrom;
    RelinkStep(m, pages, rest, i);
    if i == |pages| {
      NoneLinked(m.next, pages);
      m' := m;
      Ends(m, Put(pages, Some(rest), LoadFull));
      BlankOn(m, Refill(Relink(pages, rest, i)), m, Put(pages, Some(rest), LoadFull), 0, m, Put(pages, Some(rest), LoadFull));
    } else {
      var m1 := m.(next := m.next[pages[i] := At(pages, i + 1)]);
      m' := RelinkAlone(m1, pages, rest, i + 1);
      BlankOn(m, Refill(Relink(pages, rest, i)), m1, Refill(Relink(pages, rest, i + 1)), |pages| - i, m', Put(pages, Some(rest), LoadFull));
      LinkedOn(m.next, pages, i, m'.next);
    }
  }

  lemma NoneLinked(next: Links<Addr>, pages: seq<Addr>)
    ensures LinkedFrom(next, pages, |pages|, next)
  {
  }

  lemma RelinkStep(m: Mem, pages: seq<Addr>, rest: seq<Addr>, i: nat)
    requires i <= |pages| && pages != []
    ensures Access(m, Refill(Relink(pages, rest, i)), BLANK) ==
            if i < |pages| then (m.(next := m.next[pages[i] := At(pages, i + 1)]), Refill(Relink(pages, rest, i + 1)))
            else (m, Put(pages, Some(rest), LoadFull))
  {
  }

  /** find_place finds both lists null and pages that wait in to_free: as many of them as there are
      pages, from the end, go in front of both lists; the others wait again. */
  lemma ReusesAlone(m: Mem, full: seq<Addr>) returns (n: nat, m': Mem, rest: seq<Addr>, used: seq<Addr>)
    requires m.freeList.None? && !m.writer && m.pending.None? && m.toFree.Some? && m.toFree.value != []
    requires Chain(m.next, m.full, full) && NoDup(m.toFree.value) && forall p | p in m.toFree.value :: p !in full
    ensures Runs(m, Find(LoadFree), Blanks(n), m', Find(LoadFree))
    ensures m.toFree.value == rest + used
    ensures |used| == (var len, max := |m.toFree.value|, if m.npages == 0 then 1 else m.npages; if len < max then len else max)
    ensures m' == m.(freeList := Some(used[0]), full := m'.full, next := m'.next, npages := (m.npages + |used|) % WIDTH,
                     toFree := if rest != [] then Some(rest) else None, delay := if rest != [] then 0 else 10)
    ensures m'.full == Some(used[0]) && Chain(m'.next, m'.full, used + full)
  {
    hide Runs, Access, NoDup, Chain, TruncateAt;
    var pages := m.toFree.value;
    var cut := TruncateAt(|pages|, m.npages);
    CutIsProper(|pages|, m.npages);
    rest, used := pages[..cut], pages[cut..];
    assert pages == rest + used;
    SplitNoDup(rest, used);
    var locked := m.(writer := true);
    var m1 := locked.(toFree := None);
    LocksAlone(m);
    SplitsAlone(locked);
    var k;
    k, m' := RelinksAlone(m1, rest, used, full);
    Joins(locked, Refill(LoadPending), 4, m1, Refill(Relink(used, rest, 0)), k, m', Find(LoadFree));
    Joins(m, Find(LoadFree), 4, locked, Refill(LoadPending), 4 + k, m', Find(LoadFree));
    n := 8 + k;
  }

  lemma SplitsAlone(m: Mem)
    requires m.pending.None? && m.toFree.Some?
    ensures var pages := m.toFree.value;
            var cut := TruncateAt(|pages|, m.npages);
            cut <= |pages| &&
            Runs(m, Refill(LoadPending), Blanks(4), m.(toFree := None), Refill(Relink(pages[cut..], pages[..cut], 0)))
  {
    hide Runs;
    var pages, m1 := m.toFree.value, m.(toFree := None);
    var cut := TruncateAt(|pages|, m.npages);
    var pc := Refill(Relink(pages[cut..], pages[..cut], 0));
    Ends(m1, pc);
    BlankOn(m1, Refill(Split(pages)), m1, pc, 0, m1, pc);
    BlankOn(m, Refill(TakeToFree), m1, Refill(Split(pages)), 1, m1, pc);
    BlankOn(m, Refill(LoadToFree), m, Refill(TakeToFree), 2, m1, pc);
    BlankOn(m, Refill(LoadPending), m, Refill(LoadToFree), 3, m1, pc);
  }

  lemma RelinksAlone(m: Mem, rest: seq<Addr>, used: seq<Addr>, full: seq<Addr>) returns (n: nat, m': Mem)
    requires m.freeList.None? && m.toFree.None? && Chain(m.next, m.full, full)
    requires NoDup(used) && used != [] && forall p | p in used :: p !in full
    ensures Runs(m, Refill(Relink(used, rest, 0)), Blanks(n), m', Find(LoadFree))
    ensures m' == m.(freeList := Some(used[0]), full := Some(used[0]), next := m'.next, npages := (m.npages + |used|) % WIDTH,
                     toFree := if rest != [] then Some(rest) else None, delay := if rest != [] then 0 else 10, writer := false)
    ensures Chain(m'.next, m'.full, used + full)
  {
    hide Runs, Access, NoDup, Chain, LinkedFrom;
    var m2 := RelinkAlone(m, used, rest, 0);
    FrontChain(m, m2, used, full);
    PutAlone(m2, used, Some(rest));
    var m3 := Listed(m2, used);
    var k;
    k, m' := StoresAlone(m3, rest);
    Joins(m2, Put(used, Some(rest), LoadFull), 6, m3, AfterPut(Some(rest)), k, m', Find(LoadFree));
    Joins(m, Refill(Relink(used, rest, 0)), |used| + 1, m2, Put(used, Some(rest), LoadFull), 6 + k, m', Find(LoadFree));
    n := |used| + 7 + k;
  }

  /** The pages not used wait again, the delay starts anew, and the lock is released. */
  lemma StoresAlone(m: Mem, rest: seq<Addr>) returns (n: nat, m': Mem)
    requires m.toFree.None?
    ensures Runs(m, AfterPut(Some(rest)), Blanks(n), m', Find(LoadFree))
    ensures m' == m.(toFree := if rest != [] then Some(rest) else None, delay := if rest != [] then 0 else 10, writer := false)
  {
    hide Runs;
    m' := m.(toFree := if rest != [] then Some(rest) else None, delay := if rest != [] then 0 else 10, writer := false);
    var m2 := m'.(writer := m.writer);
    UnlocksAlone(m2);
    if rest != [] {
      var m1 := m.(toFree := Some(rest));
      BlankOn(m1, Refill(SetDelay(0)), m2, Refill(Unlock), 1, m', Find(LoadFree));
      BlankOn(m, Refill(StoreRest(rest)), m1, Refill(SetDelay(0)), 2, m', Find(LoadFree));
      n := 3;
    } else {
      BlankOn(m, Refill(SetDelay(10)), m2, Refill(Unlock), 1, m', Find(LoadFree));
      n := 2;
    }
  }

  /** find_place finds no page anywhere: it makes new ones, doubling their number. */
  lemma MakesAlone(m: Mem, full: seq<Addr>, news: seq<Addr>) returns (seens: seq<Seen>, m': Mem)
    requires m.freeList.None? && !m.writer && m.pending.None? && m.toFree.None?
    requires Chain(m.next, m.full, full) && NoDup(news) && forall p | p in news :: p !in full
    requires |news| == if m.npages == 0 then 1 else if m.npages <= 900_000 then m.npages else 900_000
    ensures Runs(m, Find(LoadFree), seens, m', Find(LoadFree))
    ensures m' == m.(freeList := Some(news[0]), full := m'.full, next := m'.next, npages := (m.npages + |news|) % WIDTH)
    ensures m'.full == Some(news[0]) && Chain(m'.next, m'.full, news + full)
  {
    hide Runs, Access, NoDup, Chain;
    var locked := m.(writer := true);
    var m1 := locked.(next := m.next + NewLinks(news, None));
    var m2 := Listed(m1, news);
    NewLinked(m.next, news);
    FrontChain(locked, m1, news, full);
    m' := m2.(writer := false);
    PutAlone(m1, news, None);
    UnlocksAlone(m2);
    Joins(m1, Put(news, None, LoadFull), 6, m2, Refill(Unlock), 1, m', Find(LoadFree));
    LocksAlone(m);
    seens := MakesLocked(locked, news);
    RunsJoin(locked, Refill(LoadPending), seens, m1, Put(news, None, LoadFull), Blanks(7), m', Find(LoadFree));
    RunsJoin(m, Find(LoadFree), Blanks(4), locked, Refill(LoadPending), seens + Blanks(7), m', Find(LoadFree));
    seens := Blanks(4) + (seens + Blanks(7));
  }

  lemma MakesLocked(m: Mem, news: seq<Addr>) returns (seens: seq<Seen>)
    requires m.pending.None? && m.toFree.None?
    requires |news| == if m.npages == 0 then 1 else if m.npages <= 900_000 then m.npages else 900_000
    ensures Runs(m, Refill(LoadPending), seens, m.(next := m.next + NewLinks(news, None)), Put(news, None, LoadFull))
  {
    hide Runs, NewLinks;
    var made, m1, pc := BLANK.(pages := news), m.(next := m.next + NewLinks(news, None)), Put(news, None, LoadFull);
    Ends(m1, pc);
    RunsOn(m, Refill(MakeList(|news|)), made, m1, pc, [], m1, pc);
    RunsOn(m, Refill(ReadCount), made, m, Refill(MakeList(|news|)), [made] + [], m1, pc);
    RunsOn(m, Refill(LoadToFree), made, m, Refill(ReadCount), [made] + ([made] + []), m1, pc);
    seens := [made] + ([made] + ([made] + []));
    RunsOn(m, Refill(LoadPending), made, m, Refill(LoadToFree), seens, m1, pc);
    seens := [made] + seens;
  }

  lemma NewLinked(next: Links<Addr>, news: seq<Addr>)
    requires NoDup(news)
    ensures Linked(next, news, next + NewLinks(news, None))
  {
    NewLinksKeys(news, None);
    forall j: nat | j < |news|
      ensures news[j] in NewLinks(news, None) && NewLinks(news, None)[news[j]] == At(news, j + 1)
    {
      NewLinksAt(news, None, j);
    }
    assert forall p | p in NewLinks(news, None).Keys :: p in news;
  }

  // ---------------------------------------------------------------- shrink_to_fit

  /** The second loop: the list of all pages loses those taken, and keeps its order. */
  lemma {:induction false} FiltersAlone(m: Mem, toDrop: seq<Addr>, start: Option<Addr>, full: seq<Addr>, now: seq<Addr>, i: nat,
                                        prev: Option<Addr>)
      returns (n: nat, m': Mem)
    requires Chain(m.next, m.full, now) && NoDup(now) && NoDup(full) && LoopInv(full, now, Elems(toDrop), i, prev)
    ensures Runs(m, Shrink(Full(toDrop, start, prev, LoadCurrent)), Blanks(n), m', AfterFilter(toDrop, start))
    ensures m' == m.(next := m'.next, full := m'.full) && Chain(m'.next, m'.full, Without(full, Elems(toDrop)))
    decreases |full| - i
  {
    hide Runs, Access, NoDup, Chain, LoopInv, Elems, Without;
    LoopCell(m.next, m.full, full, now, Elems(toDrop), i, prev);
    CursorReads(m, prev, At(full, i));
    InRange(full, now, Elems(toDrop), i, prev);
    if i == |full| {
      LoopEnds(full, now, Elems(toDrop), prev);
      FilterEnds(m, toDrop, start, prev);
      n, m' := 1, m;
    } else {
      var p := full[i];
      InElems(p, toDrop);
      if p in toDrop {
        LoopUnlinks(full, now, Elems(toDrop), i, prev);
        var m1 := if prev.None? then m.(full := m.next[p]) else m.(next := m.next[prev.value := m.next[p]]);
        LoopChain(m.next, m.full, full, now, Elems(toDrop), i, prev, m1.next, m1.full);
        WithMember(toDrop, p);
        n, m' := FiltersAlone(m1, toDrop, start, full, Remove(now, |Without(full[..i], Elems(toDrop))|), i + 1, prev);
        TakesOne(m, m1, toDrop, start, prev, p);
        Joins(m, Shrink(Full(toDrop, start, prev, LoadCurrent)), 4, m1, Shrink(Full(toDrop, start, prev, LoadCurrent)), n, m', AfterFilter(toDrop, start));
        n := n + 4;
      } else {
        LoopKeeps(full, now, Elems(toDrop), i, prev);
        n, m' := FiltersAlone(m, toDrop, start, full, now, i + 1, Some(p));
        KeepsOne(m, toDrop, start, prev, p);
        Joins(m, Shrink(Full(toDrop, start, prev, LoadCurrent)), 3, m, Shrink(Full(toDrop, start, Some(p), LoadCurrent)), n, m', AfterFilter(toDrop, start));
        n := n + 3;
      }
    }
  }

  function AfterFilter(toDrop: seq<Addr>, start: Option<Addr>): Pc {
    if toDrop != [] then Shrink(ResetDelay(toDrop, start)) else Shrink(Publish(start, 0))
  }

  lemma InRange(full: seq<Addr>, now: seq<Addr>, r: set<Addr>, i: nat, prev: Option<Addr>)
    requires LoopInv(full, now, r, i, prev)
    ensures i <= |full|
  {
  }

  lemma InElems(p: Addr, toDrop: seq<Addr>)
    ensures p in Elems(toDrop) <==> p in toDrop
  {
  }

  lemma WithMember(toDrop: seq<Addr>, p: Addr)
    requires p in toDrop
    ensures Elems(toDrop) + {p} == Elems(toDrop)
  {
  }

  lemma CursorReads(m: Mem, prev: Option<Addr>, value: Option<Addr>)
    requires Cell(m.next, m.full, prev, value)
    ensures CellOf(m, prev) == value
  {
  }

  lemma FilterEnds(m: Mem, toDrop: seq<Addr>, start: Option<Addr>, prev: Option<Addr>)
    requires CellOf(m, prev).None?
    ensures Runs(m, Shrink(Full(toDrop, start, prev, LoadCurrent)), Blanks(1), m, AfterFilter(toDrop, start))
  {
    hide Runs;
    Ends(m, AfterFilter(toDrop, start));
    BlankOn(m, Shrink(Full(toDrop, start, prev, LoadCurrent)), m, AfterFilter(toDrop, start), 0, m, AfterFilter(toDrop, start));
  }

  lemma TakesOne(m: Mem, m1: Mem, toDrop: seq<Addr>, start: Option<Addr>, prev: Option<Addr>, p: Addr)
    requires CellOf(m, prev) == Some(p) && p in toDrop && p in m.next
    requires m1 == if prev.None? then m.(full := m.next[p]) else m.(next := m.next[prev.value := m.next[p]])
    ensures Runs(m, Shrink(Full(toDrop, start, prev, LoadCurrent)), Blanks(4), m1, Shrink(Full(toDrop, start, prev, LoadCurrent)))
  {
    hide Runs;
    var pc, next := Shrink(Full(toDrop, start, prev, LoadCurrent)), m.next[p];
    Ends(m1, pc);
    BlankOn(m, Shrink(Full(toDrop, start, prev, Swing(p, next))), m1, pc, 0, m1, pc);
    BlankOn(m, Shrink(Full(toDrop, start, prev, Compare(p, next))), m, Shrink(Full(toDrop, start, prev, Swing(p, next))), 1, m1, pc);
    BlankOn(m, Shrink(Full(toDrop, start, prev, LoadNext(p))), m, Shrink(Full(toDrop, start, prev, Compare(p, next))), 2, m1, pc);
    BlankOn(m, pc, m, Shrink(Full(toDrop, start, prev, LoadNext(p))), 3, m1, pc);
  }

  lemma KeepsOne(m: Mem, toDrop: seq<Addr>, start: Option<Addr>, prev: Option<Addr>, p: Addr)
    requires CellOf(m, prev) == Some(p) && p !in toDrop
    ensures Runs(m, Shrink(Full(toDrop, start, prev, LoadCurrent)), Blanks(3), m, Shrink(Full(toDrop, start, Some(p), LoadCurrent)))
  {
    hide Runs;
    var pc, next := Shrink(Full(toDrop, start, Some(p), LoadCurrent)), NextOf(m, p);
    Ends(m, pc);
    BlankOn(m, Shrink(Full(toDrop, start, prev, Compare(p, next))), m, pc, 0, m, pc);
    BlankOn(m, Shrink(Full(toDrop, start, prev, LoadNext(p))), m, Shrink(Full(toDrop, start, prev, Compare(p, next))), 1, m, pc);
    BlankOn(m, Shrink(Full(toDrop, start, prev, LoadCurrent)), m, Shrink(Full(toDrop, start, prev, LoadNext(p))), 2, m, pc);
  }

  /** What shrink_to_fit does with the pages it took off the free list and found still unused: they
      leave the list of all pages, join those that wait in to_free, and start the delay anew; what is
      left of the free list is published, and both flags are cleared. */
  ghost predicate Shrunk(m: Mem, full: seq<Addr>, toDrop: seq<Addr>, start: Option<Addr>, m': Mem) {
    m' == m.(freeList := start, full := m'.full, next := m'.next, npages := (m.npages - |toDrop|) % WIDTH,
             toFree := m'.toFree, delay := if toDrop != [] then 0 else m.delay, writer := false, shrinking := false) &&
    m'.toFree == (if toDrop == [] then m.toFree else Some((if m.toFree.Some? then m.toFree.value else []) + toDrop)) &&
    Chain(m'.next, m'.full, Without(full, Elems(toDrop)))
  }

  /** shrink_to_fit, alone: whatever pages it finds unused in its first loop, finds still unused when it
      looks again, and leaves on the free list. */
  lemma ShrinkAlone(m: Mem, full: seq<Addr>, looked: seq<Addr>, dropped: set<Addr>, start: Option<Addr>)
      returns (seens: seq<Seen>, m': Mem)
    requires !m.writer && !m.shrinking && m.npages < WIDTH && Chain(m.next, m.full, full) && NoDup(full)
    ensures Runs(m, BeginShrink, seens, m', Returned)
    ensures Shrunk(m, full, Without(looked, dropped), start, m')
  {
    hide Runs, Access, NoDup, Chain, Elems, Without, LoopInv;
    var toDrop := Without(looked, dropped);
    var m1 := m.(shrinking := true, writer := true, freeList := None);
    var first := LooksAlone(m, looked, dropped, start);
    LoopBegins(full, Elems(toDrop));
    var k, m2 := FiltersAlone(m1, toDrop, start, full, full, 0, None);
    var l;
    l, m' := EndsShrink(m2, toDrop, start);
    RunsJoin(m1, Shrink(Full(toDrop, start, None, LoadCurrent)), Blanks(k), m2, AfterFilter(toDrop, start), Blanks(l), m', Returned);
    RunsJoin(m, BeginShrink, first, m1, Shrink(Full(toDrop, start, None, LoadCurrent)), Blanks(k) + Blanks(l), m', Returned);
    seens := first + (Blanks(k) + Blanks(l));
  }

  /** It takes both flags and the free list, and walks the free list. */
  lemma LooksAlone(m: Mem, looked: seq<Addr>, dropped: set<Addr>, start: Option<Addr>) returns (seens: seq<Seen>)
    requires !m.writer && !m.shrinking
    ensures Runs(m, BeginShrink, seens, m.(shrinking := true, writer := true, freeList := None),
                 Shrink(Full(Without(looked, dropped), start, None, LoadCurrent)))
  {
    hide Runs, Without;
    var m1 := m.(shrinking := true);
    var m2 := m1.(writer := true);
    var m3, pc := m2.(freeList := None), Shrink(Full(Without(looked, dropped), start, None, LoadCurrent));
    seens := WalksAlone(m3, [], looked, dropped, start);
    assert [] + looked == looked;
    RunsOn(m2, Shrink(TakeFree), BLANK, m3, Shrink(Look([])), seens, m3, pc);
    RunsOn(m1, LockShrink, BLANK, m2, Shrink(TakeFree), [BLANK] + seens, m3, pc);
    seens := [BLANK] + ([BLANK] + seens);
    RunsOn(m, BeginShrink, BLANK, m1, LockShrink, seens, m3, pc);
    seens := [BLANK] + seens;
  }

  lemma {:induction false} WalksAlone(m: Mem, sofar: seq<Addr>, looked: seq<Addr>, dropped: set<Addr>, start: Option<Addr>)
      returns (seens: seq<Seen>)
    ensures Runs(m, Shrink(Look(sofar)), seens, m, Shrink(Full(Without(sofar + looked, dropped), start, None, LoadCurrent)))
    decreases |looked|
  {
    hide Runs, Without;
    if looked == [] {
      assert sofar + looked == sofar;
      var pc := Shrink(Full(Without(sofar, dropped), start, None, LoadCurrent));
      var ends, retains := BLANK.(link := start), BLANK.(dropped := dropped);
      Ends(m, pc);
      RunsOn(m, Shrink(Retain(sofar, start)), retains, m, pc, [], m, pc);
      RunsOn(m, Shrink(Look(sofar)), ends, m, Shrink(Retain(sofar, start)), [retains] + [], m, pc);
      seens := [ends] + ([retains] + []);
    } else {
      var takes := BLANK.(yes := true, page := looked[0]);
      seens := WalksAlone(m, sofar + [looked[0]], looked[1..], dropped, start);
      assert sofar + [looked[0]] + looked[1..] == sofar + looked;
      RunsOn(m, Shrink(Look(sofar)), takes, m, Shrink(Look(sofar + [looked[0]])), seens, m,
             Shrink(Full(Without(sofar + looked, dropped), start, None, LoadCurrent)));
      seens := [takes] + seens;
    }
  }

  /** After the second loop. */
  lemma EndsShrink(m: Mem, toDrop: seq<Addr>, start: Option<Addr>) returns (n: nat, m': Mem)
    requires m.freeList.None?
    ensures Runs(m, AfterFilter(toDrop, start), Blanks(n), m', Returned)
    ensures m' == m.(freeList := start, npages := (m.npages - |toDrop|) % WIDTH, toFree := m'.toFree,
                     delay := if toDrop != [] then 0 else m.delay, writer := false, shrinking := false)
    ensures m'.toFree == if toDrop == [] then m.toFree else Some((if m.toFree.Some? then m.toFree.value else []) + toDrop)
  {
    hide Runs;
    if toDrop == [] {
      m' := PublishAlone(m, 0, start);
      n := 4;
    } else {
      var pages := (if m.toFree.Some? then m.toFree.value else []) + toDrop;
      var m1 := m.(delay := 0);
      var m2 := m1.(toFree := None);
      var m3 := m2.(toFree := Some(pages));
      assert [] + toDrop == toDrop;
      m' := PublishAlone(m3, |toDrop|, start);
      BlankOn(m2, Shrink(StoreToFree(pages, |toDrop|, start)), m3, Shrink(Publish(start, |toDrop|)), 4, m', Returned);
      BlankOn(m1, Shrink(TakeOld(toDrop, start)), m2, Shrink(StoreToFree(pages, |toDrop|, start)), 5, m', Returned);
      BlankOn(m, Shrink(ResetDelay(toDrop, start)), m1, Shrink(TakeOld(toDrop, start)), 6, m', Returned);
      n := 7;
    }
  }

  lemma PublishAlone(m: Mem, nfreed: nat, start: Option<Addr>) returns (m': Mem)
    requires m.freeList.None?
    ensures Runs(m, Shrink(Publish(start, nfreed)), Blanks(4), m', Returned)
    ensures m' == m.(freeList := start, npages := (m.npages - nfreed) % WIDTH, writer := false, shrinking := false)
  {
    hide Runs;
    var m1 := m.(freeList := start);
    var m2 := m1.(npages := (m.npages - nfreed) % WIDTH);
    var m3 := m2.(shrinking := false);
    m' := m3.(writer := false);
    Ends(m', Returned);
    BlankOn(m3, Shrink(Release), m', Returned, 0, m', Returned);
    BlankOn(m2, Shrink(ClearShrinking), m3, Shrink(Release), 1, m', Returned);
    BlankOn(m1, Shrink(SubCount(nfreed)), m2, Shrink(ClearShrinking), 2, m', Returned);
    BlankOn(m, Shrink(Publish(start, nfreed)), m1, Shrink(SubCount(nfreed)), 3, m', Returned);
  }
}
