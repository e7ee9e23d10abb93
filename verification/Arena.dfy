/** The arena allocator of `src/Core/ok.hpp`: regions of pages, handed out from the front and never taken back. */
module Arena {
  import opened Arithmetic

  const PAGE_ALIGN: nat := 4096

  /** A region of memory of its own; `base` tells regions apart. */
  datatype Region = Region(base: nat, size: nat, off: nat)

  /** A block that was handed out: where it lies and its size, rounded up. */
  datatype Block = Block(base: nat, start: nat, size: nat)

  /** `align_up` for pages. */
  function PageUp(size: nat): (r: nat)
    ensures size <= r < size + 4096 && r % 4096 == 0 && r % 8 == 0
  {
    PageAligned(size);
    (size + PAGE_ALIGN - 1) / PAGE_ALIGN * PAGE_ALIGN
  }

  lemma PageAligned(size: nat)
    ensures var r := (size + PAGE_ALIGN - 1) / PAGE_ALIGN * PAGE_ALIGN;
            size <= r < size + 4096 && r % 4096 == 0 && r % 8 == 0
  {
    var q := (size + 4095) / 4096;
    DivIs(size + 4095, 4096);
    MultipleOf(4096, q);
    MultipleOf(8, 512 * q);
    assert 8 * (512 * q) == 4096 * q;
  }

  lemma MultipleOf(d: nat, q: nat)
    requires d > 0
    ensures d * q % d == 0
  {
    QuotientIs(d * q, d, q);
  }

  function Used(rs: seq<Region>): nat {
    if rs == [] then 0 else rs[0].off + Used(rs[1..])
  }

  function Sizes(rs: seq<Region>): nat {
    if rs == [] then 0 else rs[0].size + Sizes(rs[1..])
  }

  function Free(rs: seq<Region>): int {
    if rs == [] then 0 else rs[0].size - rs[0].off + Free(rs[1..])
  }

  function Total(bs: seq<Block>): nat {
    if bs == [] then 0 else bs[0].size + Total(bs[1..])
  }

  predicate Disjoint(a: Block, b: Block) {
    a.base != b.base || a.start + a.size <= b.start || b.start + b.size <= a.start
  }

  /** Block b lies in the handed-out part of region r. */
  predicate Inside(b: Block, r: Region) {
    b.base == r.base && b.start + b.size <= r.off
  }

  ghost predicate RegionsOk(rs: seq<Region>, next: nat) {
    && (forall i :: 0 <= i < |rs| ==> rs[i].off <= rs[i].size && rs[i].off % 8 == 0 && rs[i].size % 8 == 0)
    && (forall i :: 0 <= i < |rs| ==> rs[i].base < next)
    && (forall i, j :: 0 <= i < j < |rs| ==> rs[i].base != rs[j].base)
  }

  ghost predicate BlocksOk(rs: seq<Region>, bs: seq<Block>) {
    && (forall k :: 0 <= k < |bs| ==> bs[k].start % 8 == 0 && InSome(bs[k], rs))
    && (forall k, l :: 0 <= k < l < |bs| ==> Disjoint(bs[k], bs[l]))
    && Used(rs) == Total(bs)
  }

  ghost predicate InSome(b: Block, rs: seq<Region>) {
    exists i :: 0 <= i < |rs| && Inside(b, rs[i])
  }

  lemma {:induction false} UsedChange(rs: seq<Region>, i: nat, off: nat)
    requires i < |rs|
    ensures Used(rs[i := rs[i].(off := off)]) == Used(rs) - rs[i].off + off
  {
    var rs' := rs[i := rs[i].(off := off)];
    if i == 0 {
      assert rs'[1..] == rs[1..];
    } else {
      assert rs'[1..] == rs[1..][i - 1 := rs[i].(off := off)];
      UsedChange(rs[1..], i - 1, off);
    }
  }

  lemma {:induction false} TotalLast(bs: seq<Block>, b: Block)
    ensures Total(bs + [b]) == Total(bs) + b.size
  {
    if bs != [] {
      assert (bs + [b])[1..] == bs[1..] + [b];
      TotalLast(bs[1..], b);
    } else {
      assert (bs + [b])[1..] == [];
    }
  }

  /** What is handed out is what is not free: capacity() - avail() is the sum of the block sizes. */
  lemma {:induction false} UsedIsSizesMinusFree(rs: seq<Region>)
    ensures Used(rs) == Sizes(rs) - Free(rs)
  {
    if rs != [] {
      UsedIsSizesMinusFree(rs[1..]);
    }
  }

  lemma OldBlock(rs: seq<Region>, next: nat, i: nat, size: nat, b: Block)
    requires RegionsOk(rs, next) && i < |rs| && InSome(b, rs)
    ensures InSome(b, rs[i := rs[i].(off := rs[i].off + size)]) && Disjoint(b, Block(rs[i].base, rs[i].off, size))
  {
    var j :| 0 <= j < |rs| && Inside(b, rs[j]);
    var rs' := rs[i := rs[i].(off := rs[i].off + size)];
    assert Inside(b, rs'[j]);
    if j != i {
      assert rs[j].base != rs[i].base;
    }
  }

  lemma RegionsKept(rs: seq<Region>, next: nat, i: nat, size: nat)
    requires RegionsOk(rs, next) && i < |rs| && size % 8 == 0 && rs[i].size - rs[i].off >= size
    ensures RegionsOk(rs[i := rs[i].(off := rs[i].off + size)], next)
  {
    assert (rs[i].off + size) % 8 == 0;
  }

  /** Handing out the next part of a region keeps all blocks apart. */
  lemma HandOut(rs: seq<Region>, next: nat, bs: seq<Block>, i: nat, size: nat)
    requires RegionsOk(rs, next) && BlocksOk(rs, bs) && i < |rs| && size % 8 == 0 && rs[i].size - rs[i].off >= size
    ensures var rs' := rs[i := rs[i].(off := rs[i].off + size)];
            RegionsOk(rs', next) && BlocksOk(rs', bs + [Block(rs[i].base, rs[i].off, size)])
  {
    hide InSome, Disjoint, Used, Total;
    RegionsKept(rs, next, i, size);
    var rs', b := rs[i := rs[i].(off := rs[i].off + size)], Block(rs[i].base, rs[i].off, size);
    var bs' := bs + [b];
    UsedChange(rs, i, rs[i].off + size);
    TotalLast(bs, b);
    NewBlock(rs, i, size);
    forall k | 0 <= k < |bs|
      ensures InSome(bs[k], rs') && Disjoint(bs[k], b)
    {
      OldBlock(rs, next, i, size, bs[k]);
    }
  }

  lemma NewBlock(rs: seq<Region>, i: nat, size: nat)
    requires i < |rs|
    ensures InSome(Block(rs[i].base, rs[i].off, size), rs[i := rs[i].(off := rs[i].off + size)])
  {
    var rs' := rs[i := rs[i].(off := rs[i].off + size)];
    assert Inside(Block(rs[i].base, rs[i].off, size), rs'[i]);
  }

  /** A new region in front changes nothing for the blocks. */
  lemma NewRegion(rs: seq<Region>, next: nat, bs: seq<Block>, size: nat)
    requires RegionsOk(rs, next) && BlocksOk(rs, bs) && size % 8 == 0
    ensures var rs' := [Region(next, size, 0)] + rs; RegionsOk(rs', next + 1) && BlocksOk(rs', bs)
  {
    var rs' := [Region(next, size, 0)] + rs;
    assert rs'[1..] == rs;
    forall k | 0 <= k < |bs|
      ensures InSome(bs[k], rs')
    {
      var j :| 0 <= j < |rs| && Inside(bs[k], rs[j]);
      assert Inside(bs[k], rs'[j + 1]);
    }
  }

  /** The first region with enough room. */
  function FirstFit(rs: seq<Region>, size: nat): (i: nat)
    ensures i <= |rs| && (i < |rs| ==> rs[i].size - rs[i].off >= size)
    ensures forall j :: 0 <= j < i ==> rs[j].size - rs[j].off < size
  {
    if rs == [] || rs[0].size - rs[0].off >= size then 0 else 1 + FirstFit(rs[1..], size)
  }

  lemma {:induction false} FirstFitIs(rs: seq<Region>, size: nat, i: nat)
    requires i <= |rs| && (i < |rs| ==> rs[i].size - rs[i].off >= size)
    requires forall j :: 0 <= j < i ==> rs[j].size - rs[j].off < size
    ensures FirstFit(rs, size) == i
  {
    if i > 0 {
      FirstFitIs(rs[1..], size, i - 1);
    }
  }

  class ArenaAllocator {
    /** The list of regions from its head on. */
    var regions: seq<Region>

    /** The number of regions the system gave out so far. */
    var next: nat

    /** The blocks handed out since the last reset. */
    ghost var blocks: seq<Block>

    ghost predicate Valid()
      reads this
    {
      RegionsOk(regions, next) && BlocksOk(regions, blocks)
    }

    constructor ()
      ensures Valid() && blocks == [] && regions == []
    {
      regions, next, blocks := [], 0, [];
    }

    /** `alloc_region` together with the two lines that put the region in front. */
    method AllocRegion(size: nat)
      requires Valid()
      modifies this
      ensures Valid() && blocks == old(blocks)
      ensures regions == [Region(old(next), PageUp(size), 0)] + old(regions)
    {
      hide RegionsOk, BlocksOk, PageUp;
      NewRegion(regions, next, blocks, PageUp(size));
      regions := [Region(next, PageUp(size), 0)] + regions;
      next := next + 1;
    }

    /** `raw_alloc`: the first region with enough room, or a new one. */
    method RawAlloc(bytes: nat) returns (b: Block)
      requires Valid()
      modifies this
      ensures Valid() && blocks == old(blocks) + [b] && b.size == AlignUp(bytes, 8)
      ensures var i := FirstFit(old(regions), b.size);
              if i < |old(regions)| then
                var r := old(regions)[i];
                b.base == r.base && b.start == r.off && regions == old(regions)[i := r.(off := r.off + b.size)]
              else
                && b.base == old(next) && b.start == 0
                && regions == [Region(old(next), PageUp(b.size), b.size)] + old(regions)
    {
      hide RegionsOk, BlocksOk, PageUp;
      var size := AlignUp(bytes, 8);
      var i := 0;
      while i < |regions| && regions[i].size - regions[i].off < size
        invariant i <= |regions| && forall j :: 0 <= j < i ==> regions[j].size - regions[j].off < size
      {
        i := i + 1;
      }
      FirstFitIs(regions, size, i);
      if i == |regions| {
        AllocRegion(size);
        i := 0;
      }
      HandOut(regions, next, blocks, i, size);
      b := Block(regions[i].base, regions[i].off, size);
      regions := regions[i := regions[i].(off := regions[i].off + size)];
      blocks := blocks + [b];
    }

    method Avail() returns (n: int)
      ensures n == Free(regions)
    {
      n := 0;
      assert regions[0..] == regions;
      for i := 0 to |regions|
        invariant n + Free(regions[i..]) == Free(regions)
      {
        assert regions[i..][1..] == regions[i + 1..];
        n := n + (regions[i].size - regions[i].off);
      }
      assert regions[|regions|..] == [];
    }

    method Capacity() returns (n: nat)
      ensures n == Sizes(regions)
    {
      n := 0;
      assert regions[0..] == regions;
      for i := 0 to |regions|
        invariant n + Sizes(regions[i..]) == Sizes(regions)
      {
        assert regions[i..][1..] == regions[i + 1..];
        n := n + regions[i].size;
      }
      assert regions[|regions|..] == [];
    }

    /** `reserve`: at least the given number of bytes is free afterwards, and no block moved. */
    method Reserve(bytes: nat)
      requires Valid()
      modifies this
      ensures Valid() && blocks == old(blocks) && Free(regions) >= bytes
      ensures Free(old(regions)) >= bytes ==> regions == old(regions)
      ensures Free(old(regions)) < bytes ==>
                regions == [Region(old(next), PageUp(bytes - Free(old(regions))), 0)] + old(regions)
    {
      var free := Avail();
      if free < bytes {
        AllocRegion(bytes - free);
        assert regions[1..] == old(regions);
      }
    }

    /** `reset`: all memory is free again. */
    method Reset()
      requires Valid()
      modifies this
      ensures Valid() && blocks == [] && Used(regions) == 0 && Sizes(regions) == old(Sizes(regions))
    {
      ghost var before := regions;
      for i := 0 to |regions|
        invariant |regions| == |before| && next == old(next)
        invariant forall j :: 0 <= j < |regions| ==> regions[j] == if j < i then before[j].(off := 0) else before[j]
      {
        regions := regions[i := regions[i].(off := 0)];
      }
      blocks := [];
      AllReset(regions, before);
    }
  }

  lemma {:induction false} AllReset(rs: seq<Region>, before: seq<Region>)
    requires |rs| == |before| && forall j :: 0 <= j < |rs| ==> rs[j] == before[j].(off := 0)
    ensures Used(rs) == 0 && Sizes(rs) == Sizes(before)
  {
    if rs != [] {
      AllReset(rs[1..], before[1..]);
    }
  }

  /** What Valid promises about the blocks, and the balance of bytes. */
  lemma BlocksBalance(a: ArenaAllocator)
    requires a.Valid()
    ensures Sizes(a.regions) - Free(a.regions) == Total(a.blocks)
    ensures forall k, l :: 0 <= k < l < |a.blocks| ==> Disjoint(a.blocks[k], a.blocks[l])
  {
    UsedIsSizesMinusFree(a.regions);
  }
}
