/** Null-terminated linked lists laid out in a link field, as sequences of addresses. */
module Chains {
  import opened Options

  type Addr = nat
  type Links<A(==)> = map<A, Option<A>>

  /** The address at position i, or null past the end. */
  function At<A(==)>(s: seq<A>, i: nat): Option<A> {
    if i < |s| then Some(s[i]) else None
  }

  /** Following links from head visits exactly s and then reaches null. */
  ghost predicate Chain<A>(links: Links<A>, head: Option<A>, s: seq<A>) {
    head == At(s, 0) &&
    forall i: nat | i < |s| :: s[i] in links && links[s[i]] == At(s, i + 1)
  }

  ghost predicate NoDup<A>(s: seq<A>) {
    forall i: nat, j: nat | i < j < |s| :: s[i] != s[j]
  }

  function Elems<A(==)>(s: seq<A>): set<A> {
    set x | x in s
  }

  // ---------------------------------------------------------------- one list

  /** A head and its links determine the list. */
  lemma {:induction false} ChainUnique<A>(links: Links<A>, head: Option<A>, s: seq<A>, t: seq<A>)
    requires Chain(links, head, s) && Chain(links, head, t)
    ensures s == t
    decreases |s|
  {
    if s != [] {
      ChainTail(links, head, s);
      ChainTail(links, head, t);
      ChainUnique(links, links[s[0]], s[1..], t[1..]);
      assert s == [s[0]] + s[1..] && t == [t[0]] + t[1..];
    }
  }

  lemma ChainTail<A>(links: Links<A>, head: Option<A>, s: seq<A>)
    requires Chain(links, head, s) && head.Some?
    ensures s != [] && s[0] == head.value && head.value in links && Chain(links, links[head.value], s[1..])
  {
    var t := s[1..];
    forall i: nat | i < |t|
      ensures t[i] in links && links[t[i]] == At(t, i + 1)
    {
      assert t[i] == s[i + 1] && links[s[i + 1]] == At(s, i + 2);
    }
    assert links[s[0]] == At(s, 1) == At(t, 0);
  }

  /** Links outside the list do not matter to it. */
  lemma ChainFrame<A>(links: Links<A>, links': Links<A>, head: Option<A>, s: seq<A>)
    requires Chain(links, head, s)
    requires forall x | x in s && x in links :: x in links' && links'[x] == links[x]
    ensures Chain(links', head, s)
  {
    forall i: nat | i < |s|
      ensures s[i] in links' && links'[s[i]] == At(s, i + 1)
    {
      assert s[i] in s;
    }
  }

  lemma ChainPush<A>(links: Links<A>, head: Option<A>, s: seq<A>, p: A)
    requires Chain(links, head, s) && p !in s && p in links && links[p] == head
    ensures Chain(links, Some(p), [p] + s)
  {
    var t := [p] + s;
    forall i: nat | i < |t|
      ensures t[i] in links && links[t[i]] == At(t, i + 1)
    {
      if i > 0 {
        assert t[i] == s[i - 1];
      }
    }
  }

  function Last<A(==)>(s: seq<A>): Option<A> {
    if s == [] then None else Some(s[|s| - 1])
  }

  function Remove<A(==)>(s: seq<A>, k: nat): seq<A>
    requires k < |s|
  {
    s[..k] + s[k + 1..]
  }

  lemma RemoveElems<A>(s: seq<A>, k: nat)
    requires NoDup(s) && k < |s|
    ensures NoDup(Remove(s, k)) && Elems(Remove(s, k)) == Elems(s) - {s[k]}
  {
    var t := Remove(s, k);
    assert forall i: nat | i < |t| :: t[i] == s[if i < k then i else i + 1];
    forall x
      ensures x in t <==> x in s && x != s[k]
    {
      if x in s && x != s[k] {
        var j :| 0 <= j < |s| && s[j] == x;
        assert x == t[if j < k then j else j - 1];
      }
    }
  }

  /** Writing the successor of s[k] over the link that leads to s[k] unlinks s[k]; that link is
      the head when k is 0 and the field of s[k - 1] otherwise. */
  lemma ChainUnlink<A>(links: Links<A>, head: Option<A>, s: seq<A>, k: nat, links': Links<A>, head': Option<A>)
    requires Chain(links, head, s) && NoDup(s) && k < |s|
    requires if k == 0 then links' == links && head' == At(s, 1)
             else links' == links[s[k - 1] := At(s, k + 1)] && head' == head
    ensures Chain(links', head', Remove(s, k))
  {
    var t := Remove(s, k);
    forall i: nat | i < |t|
      ensures t[i] in links' && links'[t[i]] == At(t, i + 1)
    {
      var j := if i < k then i else i + 1;
      assert t[i] == s[j] && s[j] in links && links[s[j]] == At(s, j + 1);
    }
  }

  function LinkAfter<A(==)>(s: seq<A>, i: nat, tail: Option<A>): Option<A> {
    if i + 1 < |s| then Some(s[i + 1]) else tail
  }

  /** The links of a freshly built list ending in tail. */
  function NewLinks<A(==)>(s: seq<A>, tail: Option<A>): Links<A> {
    if s == [] then map[]
    else NewLinks(s[1..], tail)[s[0] := LinkAfter(s, 0, tail)]
  }

  lemma {:induction false} NewLinksAt<A>(s: seq<A>, tail: Option<A>, i: nat)
    requires NoDup(s) && i < |s|
    ensures s[i] in NewLinks(s, tail) && NewLinks(s, tail)[s[i]] == LinkAfter(s, i, tail)
    decreases |s|
  {
    if i > 0 {
      assert s[i] == s[1..][i - 1] && s[i] != s[0];
      NewLinksAt(s[1..], tail, i - 1);
    }
  }

  lemma {:induction false} NewLinksKeys<A>(s: seq<A>, tail: Option<A>)
    ensures NewLinks(s, tail).Keys == Elems(s)
    decreases |s|
  {
    if s != [] {
      NewLinksKeys(s[1..], tail);
      assert s == [s[0]] + s[1..];
    }
  }

  /** Putting a fresh list in front of an old one. */
  lemma ChainAppend<A>(links: Links<A>, head: Option<A>, s: seq<A>, news: seq<A>)
    requires Chain(links, head, s) && NoDup(news) && news != []
    requires forall x | x in news :: x !in links
    ensures Chain(links + NewLinks(news, head), Some(news[0]), news + s)
  {
    NewLinksKeys(news, head);
    var links' := links + NewLinks(news, head);
    var t := news + s;
    forall i: nat | i < |t|
      ensures t[i] in links' && links'[t[i]] == At(t, i + 1)
    {
      if i < |news| {
        NewLinksAt(news, head, i);
      } else {
        var j := i - |news|;
        assert t[i] == s[j] && s[j] in links && links[s[j]] == At(s, j + 1);
        assert t[i] !in Elems(news);
      }
    }
  }

  // ---------------------------------------------------------------- order-preserving filters

  /** The elements of s outside r, in order. */
  function Without<A(==)>(s: seq<A>, r: set<A>): seq<A> {
    if s == [] then []
    else Without(s[..|s| - 1], r) + (if s[|s| - 1] in r then [] else [s[|s| - 1]])
  }

  /** The elements of s inside r, in order. */
  function Within<A(==)>(s: seq<A>, r: set<A>): seq<A> {
    if s == [] then []
    else Within(s[..|s| - 1], r) + (if s[|s| - 1] in r then [s[|s| - 1]] else [])
  }

  lemma ElemsAppend<A>(s: seq<A>, t: seq<A>)
    ensures Elems(s + t) == Elems(s) + Elems(t)
  {
  }

  lemma {:induction false} FilterElems<A>(s: seq<A>, r: set<A>)
    ensures Elems(Without(s, r)) == Elems(s) - r
    ensures Elems(Within(s, r)) == Elems(s) * r
    ensures |Without(s, r)| + |Within(s, r)| == |s|
  {
    if s != [] {
      var front, last := s[..|s| - 1], [s[|s| - 1]];
      FilterElems(front, r);
      assert s == front + last;
      ElemsAppend(front, last);
      ElemsAppend(Without(front, r), if last[0] in r then [] else last);
      ElemsAppend(Within(front, r), if last[0] in r then last else []);
    }
  }

  /** Elements that do not occur in s may be added to the filter. */
  lemma {:induction false} FilterIgnores<A>(s: seq<A>, r: set<A>, x: A)
    requires x !in s
    ensures Without(s, r + {x}) == Without(s, r) && Within(s, r + {x}) == Within(s, r)
  {
    if s != [] {
      assert s[|s| - 1] in s;
      assert forall y | y in s[..|s| - 1] :: y in s;
      FilterIgnores(s[..|s| - 1], r, x);
    }
  }

  lemma FilterNext<A>(s: seq<A>, r: set<A>, n: nat)
    requires n < |s|
    ensures Without(s[..n + 1], r) == Without(s[..n], r) + (if s[n] in r then [] else [s[n]])
    ensures Within(s[..n + 1], r) == Within(s[..n], r) + (if s[n] in r then [s[n]] else [])
  {
    assert s[..n + 1][..n] == s[..n];
  }

  lemma {:induction false} FilterNoDup<A>(s: seq<A>, r: set<A>)
    requires NoDup(s)
    ensures NoDup(Without(s, r)) && NoDup(Within(s, r))
  {
    if s != [] {
      var front := s[..|s| - 1];
      FilterNoDup(front, r);
      FilterElems(front, r);
      assert s[|s| - 1] !in front;
      AppendNoDup(Without(front, r), s[|s| - 1]);
      AppendNoDup(Within(front, r), s[|s| - 1]);
    }
  }

  lemma AppendNoDup<A>(s: seq<A>, x: A)
    requires NoDup(s) && x !in Elems(s)
    ensures NoDup(s + [x])
  {
    assert forall i: nat | i < |s| :: s[i] in Elems(s);
  }

  lemma JoinNoDup<A>(s: seq<A>, t: seq<A>)
    requires NoDup(s) && NoDup(t) && forall x | x in s :: x !in t
    ensures NoDup(s + t)
  {
    assert forall i: nat | i < |s| :: s[i] in s;
    assert forall j: nat | j < |t| :: t[j] in t;
  }

  lemma {:induction false} NoDupSize<A>(s: seq<A>)
    requires NoDup(s)
    ensures |Elems(s)| == |s|
  {
    if s != [] {
      NoDupSize(s[..|s| - 1]);
      assert s == s[..|s| - 1] + [s[|s| - 1]];
      assert Elems(s) == Elems(s[..|s| - 1]) + {s[|s| - 1]};
    }
  }

  lemma WithoutMembers<A>(s: seq<A>, r: set<A>)
    ensures forall p :: p in Without(s, r) <==> p in s && p !in r
  {
    FilterElems(s, r);
    forall p
      ensures p in Without(s, r) <==> p in s && p !in r
    {
      assert p in Without(s, r) <==> p in Elems(Without(s, r));
      assert p in s <==> p in Elems(s);
    }
  }

  lemma FilterMembers<A>(s: seq<A>, t: seq<A>)
    ensures forall p :: p in Without(s, Elems(t)) <==> p in s && p !in t
  {
    WithoutMembers(s, Elems(t));
    assert forall p :: p in t <==> p in Elems(t);
  }

  /** Filtering distinct members out of a duplicate-free list shortens it by their number. */
  lemma FilterCounts<A>(s: seq<A>, t: seq<A>)
    requires NoDup(s) && NoDup(t) && forall p | p in t :: p in s
    ensures |Without(s, Elems(t))| + |t| == |s|
  {
    FilterElems(s, Elems(t));
    FilterNoDup(s, Elems(t));
    NoDupSize(Within(s, Elems(t)));
    NoDupSize(t);
    assert Elems(s) * Elems(t) == Elems(t);
  }

  lemma TailSplits<A>(s: seq<A>, k: nat)
    requires NoDup(s) && k < |s|
    ensures s[k] in s[k..] && s[k] !in s[k + 1..]
    ensures forall q | q != s[k] :: q in s[k..] <==> q in s[k + 1..]
  {
    assert s[k..] == [s[k]] + s[k + 1..];
  }

  lemma FrontSplits<A>(s: seq<A>, k: nat)
    requires NoDup(s) && k < |s|
    ensures s[k] !in s[..k] && forall q :: q in s[..k + 1] <==> q in s[..k] || q == s[k]
  {
    assert s[..k + 1] == s[..k] + [s[k]];
  }

  lemma SplitNoDup<A>(s: seq<A>, t: seq<A>)
    requires NoDup(s + t)
    ensures NoDup(s) && NoDup(t) && forall x | x in s :: x !in t
  {
    var u := s + t;
    assert forall i: nat | i < |s| :: s[i] == u[i];
    assert forall i: nat | i < |t| :: t[i] == u[|s| + i];
  }

  lemma FrontElems<A>(s: seq<A>, k: nat)
    requires k < |s| && NoDup(s)
    ensures Elems(s[..k + 1]) == Elems(s[..k]) + {s[k]} && s[k] !in Elems(s[..k])
  {
    assert s[..k + 1] == s[..k] + [s[k]];
  }

  // ---------------------------------------------------------------- the filtering loop

  /** A link-rewriting loop over the list `before` that has looked at its first n pages and
      unlinked those in r: `now` is the list at present, and the cursor is the link field of the
      last page kept, or the head. */
  ghost predicate LoopInv<A>(before: seq<A>, now: seq<A>, r: set<A>, n: nat, prev: Option<A>) {
    n <= |before| && now == Without(before[..n], r) + before[n..] && prev == Last(Without(before[..n], r))
  }

  /** What the cursor's cell holds. */
  ghost predicate Cell<A>(links: Links<A>, head: Option<A>, prev: Option<A>, value: Option<A>) {
    if prev.None? then head == value else prev.value in links && links[prev.value] == value
  }

  lemma LoopBegins<A>(before: seq<A>, r: set<A>)
    ensures LoopInv(before, before, r, 0, None)
  {
  }

  lemma LoopEnds<A>(before: seq<A>, now: seq<A>, r: set<A>, prev: Option<A>)
    requires LoopInv(before, now, r, |before|, prev)
    ensures now == Without(before, r)
  {
    assert before[..|before|] == before;
  }

  /** The cursor's cell leads to the next page to look at. */
  lemma LoopCell<A>(links: Links<A>, head: Option<A>, before: seq<A>, now: seq<A>, r: set<A>, n: nat, prev: Option<A>)
    requires Chain(links, head, now) && LoopInv(before, now, r, n, prev)
    ensures Cell(links, head, prev, At(before, n))
    ensures n < |before| ==> before[n] in now && before[n] in links && now[|Without(before[..n], r)|] == before[n]
    ensures n < |before| ==> links[before[n]] == At(now, |Without(before[..n], r)| + 1)
    ensures var k := |Without(before[..n], r)|;
            k <= |now| && (n < |before| ==> k < |now|) && if k == 0 then prev.None? else prev == Some(now[k - 1]) && now[k - 1] in links
  {
    var kept := Without(before[..n], r);
    if kept != [] {
      assert now[|kept| - 1] == kept[|kept| - 1];
      assert links[now[|kept| - 1]] == At(now, |kept|);
    }
    if n < |before| {
      assert now[|kept|] == before[n];
    }
  }

  /** Keeping the page moves the cursor onto it. */
  lemma LoopKeeps<A>(before: seq<A>, now: seq<A>, r: set<A>, n: nat, prev: Option<A>)
    requires LoopInv(before, now, r, n, prev) && n < |before| && before[n] !in r
    ensures LoopInv(before, now, r, n + 1, Some(before[n]))
    ensures Within(before[..n + 1], r) == Within(before[..n], r)
  {
    FilterNext(before, r, n);
    assert before[n..] == [before[n]] + before[n + 1..];
  }

  /** Unlinking the page leaves the cursor where it is. */
  lemma LoopUnlinks<A>(before: seq<A>, now: seq<A>, r: set<A>, n: nat, prev: Option<A>)
    requires LoopInv(before, now, r, n, prev) && n < |before| && NoDup(before)
    ensures |Without(before[..n], r)| < |now|
    ensures LoopInv(before, Remove(now, |Without(before[..n], r)|), r + {before[n]}, n + 1, prev)
    ensures Within(before[..n + 1], r + {before[n]}) == Within(before[..n], r) + [before[n]]
  {
    var x, kept := before[n], Without(before[..n], r);
    FilterNext(before, r + {x}, n);
    assert x !in before[..n];
    FilterIgnores(before[..n], r, x);
    assert before[n..] == [x] + before[n + 1..];
    assert Remove(now, |kept|) == kept + before[n + 1..];
  }

  /** Swinging the cursor's cell past the page unlinks it from the chain. */
  lemma LoopChain<A>(links: Links<A>, head: Option<A>, before: seq<A>, now: seq<A>, r: set<A>, n: nat, prev: Option<A>,
                  links': Links<A>, head': Option<A>)
    requires Chain(links, head, now) && NoDup(now) && LoopInv(before, now, r, n, prev) && n < |before| && before[n] in links
    requires if prev.None? then links' == links && head' == links[before[n]]
             else links' == links[prev.value := links[before[n]]] && head' == head
    ensures var k := |Without(before[..n], r)|;
            k < |now| && now[k] == before[n] &&
            Chain(links', head', Remove(now, k)) && NoDup(Remove(now, k)) && Elems(Remove(now, k)) == Elems(now) - {before[n]}
    ensures prev.Some? ==> prev.value in now
  {
    hide Chain, NoDup, LoopInv, Without, Remove, Elems;
    var k := |Without(before[..n], r)|;
    LoopCell(links, head, before, now, r, n, prev);
    ChainUnlink(links, head, now, k, links', head');
    RemoveElems(now, k);
  }
}
