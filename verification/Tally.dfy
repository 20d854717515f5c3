/** How many blocks of a list of pages are handed out, and where they are. */
module Tally {
  import opened Bitfield
  import opened Chains

  /** A block: a page and an index in it. */
  datatype Place<A> = Place(page: A, index: nat)

  /** The number of blocks held in the pages of s. */
  ghost function Total<A>(s: seq<A>, held: map<A, set<nat>>): nat
    requires forall p | p in s :: p in held
  {
    if s == [] then 0 else Total(s[..|s| - 1], held) + |held[s[|s| - 1]]|
  }

  /** The blocks held in the pages of s. */
  ghost function Places<A>(s: set<A>, held: map<A, set<nat>>): set<Place<A>> {
    set p, i | p in s && p in held && i in held[p] :: Place(p, i)
  }

  lemma {:induction false} TotalFrame<A>(s: seq<A>, held: map<A, set<nat>>, held': map<A, set<nat>>)
    requires forall p | p in s :: p in held && p in held' && held[p] == held'[p]
    ensures Total(s, held) == Total(s, held')
  {
    if s != [] {
      assert s[|s| - 1] in s && forall p | p in s[..|s| - 1] :: p in s;
      TotalFrame(s[..|s| - 1], held, held');
    }
  }

  /** The total does not depend on the order: it is the number of places. */
  lemma {:induction false} TotalIsPlaces<A>(s: seq<A>, held: map<A, set<nat>>)
    requires NoDup(s) && forall p | p in s :: p in held
    ensures Total(s, held) == |Places(Elems(s), held)|
  {
    if s == [] {
      assert Places(Elems(s), held) == {};
    } else {
      var front, last := s[..|s| - 1], s[|s| - 1];
      TotalIsPlaces(front, held);
      assert s == front + [last];
      ElemsAppend(front, [last]);
      assert Elems([last]) == {last} && last !in front;
      PlacesAdd(Elems(front), last, held);
    }
  }

  lemma PlacesAdd<A>(s: set<A>, x: A, held: map<A, set<nat>>)
    requires x !in s && x in held
    ensures |Places(s + {x}, held)| == |Places(s, held)| + |held[x]|
  {
    PlacesOne(x, held[x]);
    var one := set i | i in held[x] :: Place(x, i);
    assert Places(s + {x}, held) == Places(s, held) + one;
    assert Places(s, held) !! one;
  }

  lemma {:induction false} PlacesOne<A>(x: A, indices: set<nat>)
    ensures |set i | i in indices :: Place(x, i)| == |indices|
    decreases indices
  {
    if indices != {} {
      var i :| i in indices;
      PlacesOne(x, indices - {i});
      var rest := set j | j in indices - {i} :: Place(x, j);
      assert (set j | j in indices :: Place(x, j)) == rest + {Place(x, i)};
    }
  }

  lemma TotalNext<A>(s: seq<A>, held: map<A, set<nat>>, n: nat)
    requires n < |s| && forall p | p in s :: p in held
    ensures (forall p | p in s[..n] :: p in held) && (forall p | p in s[..n + 1] :: p in held)
    ensures Total(s[..n + 1], held) == Total(s[..n], held) + |held[s[n]]|
  {
    assert s[..n + 1][..n] == s[..n];
  }

  /** If every page is full, so is the total. */
  lemma {:induction false} TotalFull<A>(s: seq<A>, held: map<A, set<nat>>)
    requires forall p | p in s :: p in held && held[p] == Indices()
    ensures Total(s, held) == |s| * BLOCK_PER_PAGE
  {
    if s != [] {
      assert s[|s| - 1] in s && forall p | p in s[..|s| - 1] :: p in s;
      TotalFull(s[..|s| - 1], held);
      Counts(0);
    }
  }

  lemma Sub(a: set<nat>, b: set<nat>)
    requires a <= b
    ensures |a| <= |b|
  {
    assert b == a + (b - a);
  }

  /** The number of free blocks in the pages of s. */
  ghost function Spare<A>(s: seq<A>, held: map<A, set<nat>>): nat
    requires forall p | p in s :: p in held
  {
    if s == [] then 0 else Spare(s[..|s| - 1], held) + |Indices() - held[s[|s| - 1]]|
  }

  lemma {:induction false} SpareTotal<A>(s: seq<A>, held: map<A, set<nat>>)
    requires forall p | p in s :: p in held && held[p] <= Indices()
    ensures Spare(s, held) + Total(s, held) == |s| * BLOCK_PER_PAGE
  {
    if s != [] {
      var last := s[|s| - 1];
      assert last in s && forall p | p in s[..|s| - 1] :: p in s;
      SpareTotal(s[..|s| - 1], held);
      Counts(0);
      assert Indices() == held[last] + (Indices() - held[last]);
    }
  }

  /** The free blocks in the pages of s, as places. */
  ghost function Spares<A>(held: map<A, set<nat>>): map<A, set<nat>> {
    map p | p in held :: Indices() - held[p]
  }

  lemma {:induction false} SpareIsTotal<A>(s: seq<A>, held: map<A, set<nat>>)
    requires forall p | p in s :: p in held
    ensures Spare(s, held) == Total(s, Spares(held))
  {
    if s != [] {
      assert s[|s| - 1] in s && forall p | p in s[..|s| - 1] :: p in s;
      SpareIsTotal(s[..|s| - 1], held);
    }
  }

  /** Pages without free blocks need not be counted, and the order does not matter. */
  lemma SpareElsewhere<A>(s: seq<A>, t: seq<A>, held: map<A, set<nat>>)
    requires NoDup(s) && NoDup(t) && (forall p | p in s :: p in held && held[p] <= Indices()) && forall p | p in t :: p in s
    requires forall p | p in s && held[p] != Indices() :: p in t
    ensures (forall p | p in t :: p in held) && Spare(t, held) == Spare(s, held)
  {
    SpareIsTotal(s, held);
    SpareIsTotal(t, held);
    TotalIsPlaces(s, Spares(held));
    TotalIsPlaces(t, Spares(held));
    assert Places(Elems(s), Spares(held)) == Places(Elems(t), Spares(held));
  }

  lemma SpareNext<A>(s: seq<A>, held: map<A, set<nat>>, n: nat)
    requires n < |s| && forall p | p in s :: p in held
    ensures (forall p | p in s[..n] :: p in held) && (forall p | p in s[..n + 1] :: p in held)
    ensures Spare(s[..n + 1], held) == Spare(s[..n], held) + |Indices() - held[s[n]]|
  {
    assert s[..n + 1][..n] == s[..n];
  }

  lemma NoSpare<A>(held: map<A, set<nat>>)
    ensures Spare([], held) == 0
  {
  }

  lemma {:induction false} SpareAppend<A>(s: seq<A>, t: seq<A>, held: map<A, set<nat>>)
    requires forall p | p in s || p in t :: p in held
    ensures (forall p | p in s + t :: p in held) && Spare(s + t, held) == Spare(s, held) + Spare(t, held)
    decreases |t|
  {
    if t == [] {
      assert s + t == s;
    } else {
      var front, last := t[..|t| - 1], t[|t| - 1];
      assert last in t && forall p | p in front :: p in t;
      SpareAppend(s, front, held);
      assert (s + t)[..|s + t| - 1] == s + front;
    }
  }
}
