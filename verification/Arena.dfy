/**
  The bump allocator of internal/pmm/arena.c. Sizes are size_t values: every sum, product and
  rounding is taken modulo 2^64, as the source computes it.
 */
module Arenas {
  import opened Sequences

  const SIZE_MOD: nat := 0x1_0000_0000_0000_0000
  const PTRDIFF_MAX: nat := 0x7FFF_FFFF_FFFF_FFFF
  const MAX_BLOCKS: nat := 256
  const DEFAULT_BLOCK: nat := 0x1_0000

  type Size = n: nat | n < SIZE_MOD
  type Byte = b: nat | b < 256

  /** size bytes at an offset of a block. */
  datatype Region = Region(block: nat, offset: nat, size: nat)

  // ----- one allocation on values

  /** What an allocation depends on and changes. */
  datatype Bump = Bump(nblocks: nat, blockSize: Size, used: Size)

  /** (n + 7) & ~7 */
  function Round8(n: Size): (r: Size)
    ensures r % 8 == 0
  {
    (n + 7) % SIZE_MOD / 8 * 8
  }

  /** arena_grow: the size of the next block, when there may be one. */
  function NewBlock(b: Bump, min: Size, malloc: nat -> bool): Option<Size> {
    if b.nblocks >= MAX_BLOCKS then None
    else
      var doubled := b.blockSize * 2 % SIZE_MOD;
      var size := if doubled < min then min else doubled;
      if malloc(size) then Some(size) else None
  }

  /** used + need, as size_t */
  function Bumped(used: Size, need: Size): Size {
    (used + need) % SIZE_MOD
  }

  /** The part of pmm_arena_alloc after rounding: the next state, and the offset in its last block. */
  function Reserve(b: Bump, need: Size, malloc: nat -> bool): (Bump, Option<Size>) {
    if Bumped(b.used, need) > b.blockSize then
      match NewBlock(b, need, malloc)
      case None => (b, None)
      case Some(size) => (Bump(b.nblocks + 1, size, need), Some(0))
    else (b.(used := Bumped(b.used, need)), Some(b.used))
  }

  /** pmm_arena_alloc: the state after the call and the offset handed out in its last block. */
  function Alloc(b: Bump, n: Size, malloc: nat -> bool): (Bump, Option<Size>) {
    if n == 0 || b.nblocks == 0 then (b, None) else Reserve(b, Round8(n), malloc)
  }

  /** No object is larger than PTRDIFF_MAX. */
  ghost predicate MallocOk(malloc: nat -> bool) {
    forall n: nat :: malloc(n) ==> n <= PTRDIFF_MAX
  }

  predicate BumpOk(b: Bump) {
    b.nblocks <= MAX_BLOCKS && b.used <= b.blockSize <= PTRDIFF_MAX && b.used % 8 == 0
  }

  /** The request survives rounding up and adding to what the block already holds. */
  predicate NoWrap(b: Bump, n: Size) {
    n + 7 < SIZE_MOD && b.used + Round8(n) < SIZE_MOD
  }

  lemma RoundUp(n: Size)
    requires n + 7 < SIZE_MOD
    ensures n <= Round8(n) < n + 8
  {
  }

  lemma RoundWraps(n: Size)
    requires n + 7 >= SIZE_MOD
    ensures Round8(n) == 0
  {
    assert (n + 7) % SIZE_MOD == n + 7 - SIZE_MOD;
  }

  lemma BumpedIs(used: Size, need: Size)
    ensures Bumped(used, need) == if used + need < SIZE_MOD then used + need else used + need - SIZE_MOD
  {
  }

  lemma BumpedAligned(used: Size, need: Size)
    requires used % 8 == 0 && need % 8 == 0
    ensures Bumped(used, need) % 8 == 0
  {
    BumpedIs(used, need);
    var k, l := used / 8, need / 8;
    assert used + need == 8 * (k + l) && SIZE_MOD == 8 * 0x2000_0000_0000_0000;
  }

  /** The bytes handed out lie inside their block exactly when the size arithmetic does not wrap. */
  lemma FitsIffNoWrap(b: Bump, n: Size, malloc: nat -> bool)
    requires BumpOk(b) && MallocOk(malloc) && Alloc(b, n, malloc).1.Some?
    ensures BumpOk(Alloc(b, n, malloc).0)
    ensures Alloc(b, n, malloc).1.value + n <= Alloc(b, n, malloc).0.blockSize <==> NoWrap(b, n)
  {
    ReserveOk(b, Round8(n), malloc);
    BumpedIs(b.used, Round8(n));
    if n + 7 < SIZE_MOD {
      RoundUp(n);
    } else {
      RoundWraps(n);
    }
  }

  /** A size that an object can have never wraps. */
  lemma SmallNeverWraps(b: Bump, n: Size)
    requires BumpOk(b) && n <= PTRDIFF_MAX
    ensures NoWrap(b, n)
  {
    RoundUp(n);
  }

  lemma ReserveOk(b: Bump, need: Size, malloc: nat -> bool)
    requires BumpOk(b) && MallocOk(malloc) && need % 8 == 0
    ensures BumpOk(Reserve(b, need, malloc).0)
    ensures Bumped(b.used, need) % 8 == 0
  {
    BumpedAligned(b.used, need);
  }

  /** A concrete request that is granted without room for it. */
  lemma WrappedRequestGranted(malloc: nat -> bool)
    ensures var b, n := Bump(1, DEFAULT_BLOCK, 8), SIZE_MOD - 8;
            && Alloc(b, n, malloc).1 == Some(8) && !NoWrap(b, n)
            && 8 + n > Alloc(b, n, malloc).0.blockSize
  {
    assert Round8(SIZE_MOD - 8) == SIZE_MOD - 8;
  }

  /** Without wrapping, the new bytes start where the block's used part ended, and end where it now ends. */
  lemma AllocShape(b: Bump, n: Size, malloc: nat -> bool)
    requires BumpOk(b) && MallocOk(malloc) && NoWrap(b, n) && Alloc(b, n, malloc).1.Some?
    ensures var (b', o) := Alloc(b, n, malloc);
            && BumpOk(b') && b'.used == o.value + Round8(n) <= b'.blockSize && o.value % 8 == 0
            && (if b'.nblocks == b.nblocks then o.value == b.used && b'.blockSize == b.blockSize
                else b'.nblocks == b.nblocks + 1 && o.value == 0 && b'.blockSize >= 2 * b.blockSize)
  {
    RoundUp(n);
  }

  /**
    What a request is answered, in whole numbers: it is refused when it is for nothing, when there is no
    block, or when it does not fit into the last one and no further one can be had, of twice its size or
    of what is needed. Otherwise it gets the bytes behind those in use, or the first ones of the new block.
   */
  ghost predicate Answered(b: Bump, n: Size, malloc: nat -> bool, b': Bump, o: Option<Size>) {
    var need, size := (n + 7) / 8 * 8, if 2 * b.blockSize < (n + 7) / 8 * 8 then (n + 7) / 8 * 8 else 2 * b.blockSize;
    if n == 0 || b.nblocks == 0 then b' == b && o == None
    else if b.used + need <= b.blockSize then b' == Bump(b.nblocks, b.blockSize, b.used + need) && o == Some(b.used)
    else if b.nblocks >= 256 || !malloc(size) then b' == b && o == None
    else b'.nblocks == b.nblocks + 1 && b'.blockSize == size && b'.used == need && o == Some(0)
  }

  lemma AllocAnswers(b: Bump, n: Size, malloc: nat -> bool)
    requires BumpOk(b) && MallocOk(malloc)
    requires n + 7 < 0x1_0000_0000_0000_0000 && b.used + (n + 7) / 8 * 8 < 0x1_0000_0000_0000_0000
    ensures Answered(b, n, malloc, Alloc(b, n, malloc).0, Alloc(b, n, malloc).1)
  {
    BumpedIs(b.used, Round8(n));
    assert Round8(n) == (n + 7) / 8 * 8;
    assert b.blockSize * 2 % SIZE_MOD == 2 * b.blockSize;
  }

  // ----- block sizes over a run

  /** Each block is at least twice as large as the one before; the first is 64 KiB. */
  ghost predicate Doubling(sizes: seq<nat>) {
    && (sizes != [] ==> sizes[0] == DEFAULT_BLOCK)
    && forall i :: 0 < i < |sizes| ==> sizes[i] >= 2 * sizes[i - 1]
  }

  function Total(sizes: seq<nat>): nat {
    if sizes == [] then 0 else Total(sizes[..|sizes| - 1]) + sizes[|sizes| - 1]
  }

  /** All capacity together is at most twice the current block, less the first. */
  lemma {:induction false} CapacityBound(sizes: seq<nat>)
    requires Doubling(sizes) && sizes != []
    ensures Total(sizes) + 65536 <= 2 * sizes[|sizes| - 1]
  {
    if |sizes| > 1 {
      CapacityBound(sizes[..|sizes| - 1]);
    } else {
      assert sizes[..0] == [];
    }
  }

  // ----- regions over a run

  predicate Disjoint(a: Region, b: Region) {
    a.block != b.block || a.offset + a.size <= b.offset || b.offset + b.size <= a.offset
  }

  /** A live region: inside its block, aligned, below the used mark of the last block. */
  predicate Placed(r: Region, sizes: seq<nat>, used: nat) {
    && r.block < |sizes| && r.offset % 8 == 0 && r.offset + r.size <= sizes[r.block]
    && (r.block == |sizes| - 1 ==> r.offset + r.size <= used)
  }

  ghost predicate Laid(regions: seq<Region>, sizes: seq<nat>, used: nat) {
    && (forall i :: 0 <= i < |regions| ==> Placed(regions[i], sizes, used))
    && (forall i, j :: 0 <= i < j < |regions| ==> Disjoint(regions[i], regions[j]))
  }

  /** One more region, at the used mark or at the start of a new block. */
  lemma LayNext(regions: seq<Region>, sizes: seq<nat>, used: nat, sizes': seq<nat>, used': nat, r: Region)
    requires Laid(regions, sizes, used) && sizes != [] && sizes <= sizes'
    requires Placed(r, sizes', used') && r.block == |sizes'| - 1
    requires if |sizes'| == |sizes| then r.offset == used else |sizes'| == |sizes| + 1
    ensures Laid(regions + [r], sizes', used')
  {
    forall i | 0 <= i < |regions|
      ensures Placed(regions[i], sizes', used') && Disjoint(regions[i], r)
    {
      assert Placed(regions[i], sizes, used);
      assert sizes'[regions[i].block] == sizes[regions[i].block];
    }
  }

  lemma LayAlloc(regions: seq<Region>, sizes: seq<nat>, b: Bump, n: Size, malloc: nat -> bool, sizes': seq<nat>,
                 r: Region)
    requires BumpOk(b) && MallocOk(malloc) && b.nblocks == |sizes| > 0 && sizes[|sizes| - 1] == b.blockSize
    requires Alloc(b, n, malloc).1 == Some(r.offset) && r.size == n && r.block == |sizes'| - 1
    requires sizes <= sizes' && |sizes'| == Alloc(b, n, malloc).0.nblocks
    requires sizes'[|sizes'| - 1] == Alloc(b, n, malloc).0.blockSize
    ensures NoWrap(b, n) && Laid(regions, sizes, b.used) ==> Laid(regions + [r], sizes', Alloc(b, n, malloc).0.used)
  {
    if NoWrap(b, n) && Laid(regions, sizes, b.used) {
      AllocShape(b, n, malloc);
      RoundUp(n);
      LayNext(regions, sizes, b.used, sizes', Alloc(b, n, malloc).0.used, r);
    }
  }

  // ----- the arena

  class Arena {
    const malloc: nat -> bool
    var blocks: seq<array<Byte>>
    var blockSize: Size
    var used: Size

    /** Every region handed out so far. */
    ghost var regions: seq<Region>

    ghost function State(): Bump
      reads this
    {
      Bump(|blocks|, blockSize, used)
    }

    ghost function Sizes(): (s: seq<nat>)
      reads this
      ensures |s| == |blocks| && forall i :: 0 <= i < |s| ==> s[i] == blocks[i].Length
    {
      seq(|blocks|, i requires 0 <= i < |blocks| reads this => blocks[i].Length)
    }

    ghost predicate Fields()
      reads this
    {
      && MallocOk(malloc) && BumpOk(State())
      && (blocks != [] ==> blocks[|blocks| - 1].Length == blockSize)
      && (forall i, j :: 0 <= i < j < |blocks| ==> blocks[i] != blocks[j])
    }

    ghost predicate Valid()
      reads this
    {
      Fields() && Doubling(Sizes()) && Laid(regions, Sizes(), used)
    }

    ghost function Bytes(r: Region): (s: seq<Byte>)
      requires Fields() && Placed(r, Sizes(), used)
      reads this, blocks
    {
      blocks[r.block][r.offset..][..r.size]
    }

    /** pmm_arena_init */
    constructor (malloc: nat -> bool)
      requires MallocOk(malloc)
      ensures Valid() && fresh(blocks) && this.malloc == malloc && regions == []
      ensures State() == Bump(if malloc(65536) then 1 else 0, 65536, 0)
    {
      this.malloc := malloc;
      blockSize, used, regions := DEFAULT_BLOCK, 0, [];
      if malloc(DEFAULT_BLOCK) {
        var block := new Byte[DEFAULT_BLOCK](_ => 0);
        blocks := [block];
      } else {
        blocks := [];
      }
    }

    /**
      pmm_arena_alloc: the state moves as Alloc says. When the arithmetic does not wrap, the region
      handed out keeps every region so far disjoint, aligned and inside its block.
     */
    method AllocRegion(n: Size) returns (r: Option<Region>)
      requires Fields()
      modifies this
      ensures Fields() && (State(), if r.Some? then Some(r.value.offset) else None) == Alloc(old(State()), n, malloc)
      ensures old(blocks) <= blocks && forall i :: |old(blocks)| <= i < |blocks| ==> fresh(blocks[i])
      ensures r.None? ==> regions == old(regions) && blocks == old(blocks)
      ensures r.Some? ==> r.value.block == |blocks| - 1 && r.value.size == n && regions == old(regions) + [r.value]
      ensures old(Valid()) && (r.Some? ==> NoWrap(old(State()), n)) ==> Valid()
    {
      ghost var b, sizes := State(), Sizes();
      if n == 0 || |blocks| == 0 {
        return None;
      }
      var o := ReserveRoom(Round8(n));
      match o {
        case None => r := None;
        case Some(offset) =>
          r := Some(Region(|blocks| - 1, offset, n));
          regions := regions + [r.value];
          assert sizes <= Sizes();
          LayAlloc(old(regions), sizes, b, n, malloc, Sizes(), r.value);
      }
    }

    /** Room for need bytes, in the current block or in a new one. */
    method ReserveRoom(need: Size) returns (o: Option<Size>)
      requires Fields() && need % 8 == 0 && blocks != []
      modifies `blocks, `blockSize, `used
      ensures Fields() && (State(), o) == Reserve(old(State()), need, malloc)
      ensures old(blocks) <= blocks && forall i :: |old(blocks)| <= i < |blocks| ==> fresh(blocks[i])
      ensures o.None? ==> blocks == old(blocks)
      ensures old(Doubling(Sizes())) ==> Doubling(Sizes())
    {
      ReserveOk(State(), need, malloc);
      if Bumped(used, need) > blockSize {
        var grown := Grow(need);
        if !grown {
          return None;
        }
        o := Some(0);
        used := need;
      } else {
        o := Some(used);
        used := Bumped(used, need);
      }
    }

    /**
      pmm_arena_strndup: the copy ends in a NUL, and the bytes of every earlier region are untouched,
      also when a block had to be added.
     */
    method Strndup(s: seq<Byte>, len: nat) returns (r: Option<Region>)
      requires Valid() && len <= |s| < PTRDIFF_MAX
      modifies this, blocks
      ensures Valid() && old(regions) <= regions
      ensures forall i :: 0 <= i < |old(regions)| ==> Bytes(regions[i]) == old(Bytes(regions[i]))
      ensures r.None? ==> regions == old(regions)
      ensures r.Some? ==> regions == old(regions) + [r.value] && Bytes(regions[|old(regions)|]) == s[..len] + [0]
    {
      ghost var blocks0 := blocks;
      SmallNeverWraps(State(), len + 1);
      r := AllocRegion(len + 1);
      assert forall i :: 0 <= i < |blocks0| ==> blocks[i] == blocks0[i];
      if r.Some? {
        WriteRegion(r.value, s[..len] + [0]);
      }
    }

    /** Fills the region handed out last. */
    method WriteRegion(r: Region, data: seq<Byte>)
      requires Valid() && regions != [] && r == regions[|regions| - 1] && |data| == r.size && r.block < |blocks|
      modifies blocks[r.block]
      ensures Valid()
      ensures forall i :: 0 <= i < |regions| - 1 ==> Bytes(regions[i]) == old(Bytes(regions[i]))
      ensures Bytes(regions[|regions| - 1]) == data
    {
      assert Placed(regions[|regions| - 1], Sizes(), used);
      CopyInto(blocks[r.block], r.offset, data);
      forall i | 0 <= i < |regions| - 1
        ensures Bytes(regions[i]) == old(Bytes(regions[i]))
      {
        assert Placed(regions[i], Sizes(), used) && Disjoint(regions[i], r);
      }
    }

    /** pmm_arena_destroy */
    method Destroy()
      modifies this
      ensures State() == Bump(0, 0, 0) && regions == []
    {
      blocks, blockSize, used, regions := [], 0, 0, [];
    }

    /** arena_grow */
    method Grow(min: Size) returns (grown: bool)
      requires Fields() && min % 8 == 0
      modifies `blocks, `blockSize, `used
      ensures Fields()
      ensures match NewBlock(old(State()), min, malloc)
              case None => !grown && blocks == old(blocks) && State() == old(State())
              case Some(size) => grown && |blocks| == |old(blocks)| + 1 && State() == Bump(|old(blocks)| + 1, size, 0)
      ensures old(blocks) <= blocks && forall i :: |old(blocks)| <= i < |blocks| ==> fresh(blocks[i])
      ensures old(Doubling(Sizes())) && old(blocks) != [] ==> Doubling(Sizes())
    {
      if |blocks| >= MAX_BLOCKS {
        return false;
      }
      var size: Size := blockSize * 2 % SIZE_MOD;
      assert size == blockSize * 2;
      if size < min {
        size := min;
      }
      if !malloc(size) {
        return false;
      }
      var block := new Byte[size](_ => 0);
      blocks := blocks + [block];
      blockSize, used := size, 0;
      grown := true;
    }
  }

  /** memcpy of data to an offset of a block. */
  method CopyInto(block: array<Byte>, o: nat, data: seq<Byte>)
    requires o + |data| <= block.Length
    modifies block
    ensures block[o..][..|data|] == data
    ensures forall i :: 0 <= i < o || o + |data| <= i < block.Length ==> block[i] == old(block[i])
  {
    forall i | 0 <= i < |data| {
      block[o + i] := data[i];
    }
  }
}
