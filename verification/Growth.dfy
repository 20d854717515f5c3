/** How many pages the arenas make (src/pool.rs:130, src/pool.rs:147-149, src/arena.rs:46-50,
    src/shared_arena.rs:114-118, src/shared_arena.rs:230-232). */
module Growth {
  import opened Bitfield

  function Max(a: nat, b: nat): (m: nat)
    ensures a <= m && b <= m && (m == a || m == b)
  {
    if a < b then b else a
  }

  function AtLeastOne(n: int): (m: nat)
    ensures n <= m && 1 <= m && (m == n || m == 1)
  {
    if n > 1 then n else 1
  }

  /** The pages needed for cap blocks: at least one, and no more than necessary. */
  function PagesFor(cap: nat): (n: nat)
    ensures n > 0 && Max(cap, 1) <= n * BLOCK_PER_PAGE < Max(cap, 1) + BLOCK_PER_PAGE
  {
    (Max(cap, 1) - 1) / BLOCK_PER_PAGE + 1
  }

  /** Growth doubles the pages, the first one and the last 900 000 apart. */
  function GrowthSize(npages: int): (n: nat)
    ensures 0 < n <= AtLeastOne(npages)
    ensures npages <= 0 ==> n == 1
    ensures 0 < npages <= 900_000 ==> npages + n == 2 * npages
    ensures 900_000 < npages ==> n == 900_000
  {
    if AtLeastOne(npages) < 900_000 then AtLeastOne(npages) else 900_000
  }

  /** From `before` pages to `after` by growth. */
  predicate Grew(before: nat, after: int) {
    after == if before == 0 then 1 else if before <= 900_000 then 2 * before else before + 900_000
  }

  /** Growth with every block in use at most doubles the capacity. */
  lemma GrowthBounded(npages: nat, n: nat, initial: nat, peak: nat)
    requires BLOCK_PER_PAGE <= initial && npages * BLOCK_PER_PAGE <= peak && n <= AtLeastOne(npages)
    ensures (npages + n) * BLOCK_PER_PAGE <= Max(initial, 2 * peak)
  {
  }

  /** Where take_pages_to_be_freed cuts: `len.saturating_sub(max(npages, 1))`. */
  function TruncateAt(len: nat, npages: nat): nat {
    if len > AtLeastOne(npages) then len - AtLeastOne(npages) else 0
  }

  /** It cuts off a suffix of length min(len, max(npages, 1)), never an empty one. */
  lemma CutIsProper(len: nat, npages: nat)
    requires len > 0
    ensures var cut := TruncateAt(len, npages);
            cut < len && len - cut == if len < AtLeastOne(npages) then len else AtLeastOne(npages)
  {
  }
}
