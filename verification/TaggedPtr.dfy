/** The tagged page pointer each block carries (src/block.rs:59-183, 64-bit layout): the low 56
    bits of the page address, six bits of block index, two bits of page kind. */
module TaggedPtr {
  import opened Options

  datatype PageKind = SharedArena | Arena | Pool

  /** `From<PageKind> for usize` */
  function KindNumber(kind: PageKind): bv64 {
    match kind
    case SharedArena => 0
    case Arena => 1
    case Pool => 2
  }

  function MakeTag(index: bv64, kind: PageKind): bv64 {
    var number := KindNumber(kind);
    (number << 6) | index
  }

  function New(pagePtr: bv64, index: bv64, kind: PageKind): bv64 {
    var tag := MakeTag(index, kind);
    (pagePtr & !(0xFF << 56)) | (tag << 56)
  }

  /** `x >> 8` on a signed word: the sign bit fills the vacated byte. */
  function ArithmeticShift8(x: bv64): bv64 {
    if x & 0x8000_0000_0000_0000 != 0 then (x >> 8) | (0xFF << 56) else x >> 8
  }

  /** None is the null pointer, on which the source panics. */
  function PagePtr(data: bv64): Option<bv64> {
    var p := ArithmeticShift8(data << 8);
    if p == 0 then None else Some(p)
  }

  function IndexBlock(data: bv64): bv64 {
    (data >> 56) & 0x3F
  }

  /** None is the kind number the source panics on. */
  function KindOf(data: bv64): Option<PageKind> {
    var kind := data >> 62;
    if kind == 0 then Some(SharedArena)
    else if kind == 1 then Some(Arena)
    else if kind == 2 then Some(Pool)
    else None
  }

  /** The top byte repeats bit 55, as on every address a 64-bit platform hands out. */
  predicate Canonical(p: bv64) {
    p >> 56 == if p & (1 << 55) != 0 then 0xFF else 0
  }

  // ---------------------------------------------------------------- round trip

  /** The address comes back exactly when it was canonical and not null, whatever the tag. */
  lemma PtrRoundTrip(p: bv64, index: bv64, kind: PageKind)
    ensures PagePtr(New(p, index, kind)) == Some(p) <==> Canonical(p) && p != 0
  {
    TagInTopByte(p, MakeTag(index, kind));
    SignExtension(p);
  }

  lemma TagInTopByte(p: bv64, tag: bv64)
    ensures ((p & !(0xFF << 56)) | (tag << 56)) << 8 == p << 8
  {
  }

  lemma SignExtension(p: bv64)
    ensures ArithmeticShift8(p << 8) == p <==> Canonical(p)
  {
    ShiftUpAndDown(p);
    TopByte(p);
  }

  lemma ShiftUpAndDown(p: bv64)
    ensures (p << 8) >> 8 == p & 0x00FF_FFFF_FFFF_FFFF
    ensures (p << 8) & 0x8000_0000_0000_0000 != 0 <==> p & (1 << 55) != 0
  {
  }

  lemma TopByte(p: bv64)
    ensures p & 0x00FF_FFFF_FFFF_FFFF == p <==> p >> 56 == 0
    ensures (p & 0x00FF_FFFF_FFFF_FFFF) | (0xFF << 56) == p <==> p >> 56 == 0xFF
  {
  }

  /** The index comes back exactly when it has six bits; a larger one is truncated. */
  lemma IndexRoundTrip(p: bv64, index: bv64, kind: PageKind)
    ensures IndexBlock(New(p, index, kind)) == index <==> index < 64
  {
    TagReadBack(p, MakeTag(index, kind));
    LowSixBits(KindNumber(kind), index);
  }

  lemma TagReadBack(p: bv64, tag: bv64)
    ensures ((p & !(0xFF << 56)) | (tag << 56)) >> 56 == tag & 0xFF
    ensures ((p & !(0xFF << 56)) | (tag << 56)) >> 62 == (tag >> 6) & 3
  {
  }

  lemma LowSixBits(kind: bv64, index: bv64)
    ensures (((kind << 6) | index) & 0xFF) & 0x3F == index & 0x3F
    ensures index & 0x3F == index <==> index < 64
    ensures index < 64 && kind < 4 ==> (((kind << 6) | index) >> 6) & 3 == kind
  {
  }

  lemma KindRoundTrip(p: bv64, index: bv64, kind: PageKind)
    requires index < 64
    ensures KindOf(New(p, index, kind)) == Some(kind)
  {
    TagReadBack(p, MakeTag(index, kind));
    LowSixBits(KindNumber(kind), index);
  }

  // ---------------------------------------------------------------- dispatch

  /** What `Block::drop_block` hands on: which drop routine, which page, which bit. */
  datatype Dispatch = Dispatch(kind: PageKind, page: bv64, index: bv64)

  function DropBlock(data: bv64): Option<Dispatch> {
    match KindOf(data)
    case None => None
    case Some(kind) =>
      match PagePtr(data)
      case None => None
      case Some(page) => Some(Dispatch(kind, page, IndexBlock(data)))
  }

  /** Dropping a block reaches the routine of its own page kind, its own page and its own bit,
      exactly for the addresses and indices the tag has room for. */
  lemma DropReachesOwnPage(p: bv64, index: bv64, kind: PageKind)
    ensures DropBlock(New(p, index, kind)) == Some(Dispatch(kind, p, index))
       <==> Canonical(p) && p != 0 && index < 64
  {
    PtrRoundTrip(p, index, kind);
    IndexRoundTrip(p, index, kind);
    if index < 64 {
      KindRoundTrip(p, index, kind);
    }
  }

  /** So two blocks are told apart by their tagged pointers. */
  lemma TaggedPtrInjective(p: bv64, i: bv64, k: PageKind, q: bv64, j: bv64, l: PageKind)
    requires Canonical(p) && p != 0 && i < 64
    requires Canonical(q) && q != 0 && j < 64
    ensures New(p, i, k) == New(q, j, l) <==> p == q && i == j && k == l
  {
    DropReachesOwnPage(p, i, k);
    DropReachesOwnPage(q, j, l);
  }
}
