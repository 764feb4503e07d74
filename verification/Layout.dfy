/** How the pool is carved into header, log slots, data blocks and meta blocks. Addresses are offsets
    from the start of the pool. */
module Layout {
  const ALIGN: nat := 4096

  /** sizeof(pmb_data_hdr): two 64-bit and three 32-bit fields, padded to a multiple of 8. */
  const HDR: nat := 32

  function RoundUp(x: nat): nat { (x + ALIGN - 1) / ALIGN * ALIGN }

  datatype Request = Request(
    header: nat, pool: nat, metaPool: nat,
    block: nat, metaBlock: nat, slots: nat, slot: nat)

  datatype Pool = Pool(
    size: nat, slots: nat, slotSize: nat, bsize: nat, metaBsize: nat,
    txLog: nat, data: nat, dataBlocks: nat, meta: nat, metaBlocks: nat)
  {
    function Ids(): nat { dataBlocks + metaBlocks }
  }

  /** What must hold for `datasize` not to underflow, and what pool creation checks. */
  predicate Fits(r: Request) {
    && 0 < r.block && 0 < r.metaBlock
    && RoundUp(r.header) + r.slots * RoundUp(r.slot) <= r.pool
  }

  /** How many whole blocks a stretch of the pool holds: as many as fit. */
  function Count(space: nat, bsize: nat): (n: nat)
    requires bsize > 0
    ensures n * bsize <= space < n * bsize + bsize
  {
    DivideBounds(space, bsize);
    space / bsize
  }

  function Carve(r: Request): (p: Pool)
    requires Fits(r)
  {
    RoundUpFacts(r.block);
    RoundUpFacts(r.metaBlock);
    var txLog := RoundUp(r.header);
    var data := txLog + r.slots * RoundUp(r.slot);
    var dataBlocks := Count(r.pool - data, RoundUp(r.block));
    var meta := data + dataBlocks * RoundUp(r.block);
    Pool(r.pool + r.metaPool, r.slots, RoundUp(r.slot), RoundUp(r.block), RoundUp(r.metaBlock),
         txLog, data, dataBlocks, meta, Count(r.pool + r.metaPool - meta, RoundUp(r.metaBlock)))
  }

  datatype Extent = Extent(start: int, len: nat)

  predicate Apart(a: Extent, b: Extent) {
    a.start + a.len <= b.start || b.start + b.len <= a.start
  }

  predicate Aligned(a: Extent) { a.start % ALIGN == 0 }

  predicate InPool(p: Pool, a: Extent) { 0 <= a.start && a.start + a.len <= p.size }

  /** `backend_tx_direct` */
  function SlotExtent(p: Pool, i: nat): Extent
    requires i < p.slots
  {
    Extent(p.txLog + i * p.slotSize, p.slotSize)
  }

  /** `backend_direct`, with the extra -1 of the meta branch; the unsigned wrap at id = dataBlocks lands
      on the same address as the signed offset used here. */
  function BlockExtent(p: Pool, id: nat): Extent
    requires id < p.Ids()
  {
    if id < p.dataBlocks then Extent(p.data + id * p.bsize, p.bsize)
    else Extent(p.meta + (id - p.dataBlocks - 1) * p.metaBsize, p.metaBsize)
  }

  lemma RoundUpFacts(x: nat)
    ensures x <= RoundUp(x) < x + ALIGN && RoundUp(x) % ALIGN == 0
    ensures x > 0 ==> RoundUp(x) > 0
  {
  }

  lemma DivideBounds(n: nat, d: nat)
    requires d > 0
    ensures (n / d) * d <= n < (n / d) * d + d
  {
    assert n == d * (n / d) + n % d;
  }

  lemma RowsApart(i: int, j: int, n: nat)
    requires i < j
    ensures (i + 1) * n <= j * n && (i + 1) * n == i * n + n
  {
    assert j * n == (i + 1) * n + (j - i - 1) * n;
  }

  lemma RowAligned(base: int, i: int, n: nat)
    requires base % ALIGN == 0 && n % ALIGN == 0
    ensures (base + i * n) % ALIGN == 0
  {
    var q := n / ALIGN;
    assert i * n == (i * q) * ALIGN;
    assert (base + (i * q) * ALIGN) % ALIGN == base % ALIGN;
  }

  /** The facts about a carved pool that the placement theorems use. */
  ghost predicate Carved(p: Pool) {
    && p.bsize % ALIGN == 0 && p.metaBsize % ALIGN == 0 && p.slotSize % ALIGN == 0
    && 0 < p.bsize && 0 < p.metaBsize
    && p.txLog % ALIGN == 0 && p.data % ALIGN == 0 && p.meta % ALIGN == 0
    && p.data == p.txLog + p.slots * p.slotSize
    && p.meta == p.data + p.dataBlocks * p.bsize
    && p.meta + p.metaBlocks * p.metaBsize <= p.size
  }

  lemma CarveIsCarved(r: Request)
    requires Fits(r)
    ensures Carved(Carve(r))
  {
    var p := Carve(r);
    RoundUpFacts(r.block);
    RoundUpFacts(r.metaBlock);
    RoundUpFacts(r.slot);
    RoundUpFacts(r.header);
    RowAligned(p.txLog, p.slots, p.slotSize);
    RowAligned(p.data, p.dataBlocks, p.bsize);
  }

  /** Every log slot is inside the pool, in the log area, before the data, and aligned. */
  lemma SlotPlaced(p: Pool, i: nat)
    requires Carved(p) && i < p.slots
    ensures InPool(p, SlotExtent(p, i)) && Aligned(SlotExtent(p, i))
    ensures p.txLog <= SlotExtent(p, i).start && SlotExtent(p, i).start + p.slotSize <= p.data
  {
    RowsApart(i, p.slots, p.slotSize);
    RowAligned(p.txLog, i, p.slotSize);
  }

  /** Row `i` of `n` rows of `size` bytes starting at `base`. */
  lemma RowPlaced(base: nat, i: nat, n: nat, size: nat)
    requires i < n && base % ALIGN == 0 && size % ALIGN == 0
    ensures base <= base + i * size && base + i * size + size <= base + n * size && (base + i * size) % ALIGN == 0
  {
    RowsApart(i, n, size);
    RowAligned(base, i, size);
  }

  lemma DataPlaced(p: Pool, id: nat)
    requires Carved(p) && id < p.dataBlocks
    ensures var e := BlockExtent(p, id); Aligned(e) && p.data <= e.start && e.start + e.len <= p.meta && e.len == p.bsize
  {
    RowPlaced(p.data, id, p.dataBlocks, p.bsize);
  }

  lemma MetaPlaced(p: Pool, id: nat)
    requires Carved(p) && p.dataBlocks < id < p.Ids()
    ensures var e := BlockExtent(p, id); Aligned(e) && p.meta <= e.start && e.start + e.len <= p.size && e.len == p.metaBsize
  {
    var k := id - p.dataBlocks - 1;
    RowPlaced(p.meta, k, p.metaBlocks, p.metaBsize);
    assert BlockExtent(p, id).start == p.meta + k * p.metaBsize;
  }

  /** Every data block and every meta block other than id = dataBlocks is inside the pool and aligned. */
  lemma BlockPlaced(p: Pool, id: nat)
    requires Carved(p) && id < p.Ids() && id != p.dataBlocks
    ensures InPool(p, BlockExtent(p, id)) && Aligned(BlockExtent(p, id))
    ensures if id < p.dataBlocks then p.data <= BlockExtent(p, id).start && BlockExtent(p, id).start + p.bsize <= p.meta
            else p.meta <= BlockExtent(p, id).start
  {
    assert p.meta <= p.size;
    if id < p.dataBlocks { DataPlaced(p, id); } else { MetaPlaced(p, id); }
  }

  lemma SlotsApart(p: Pool, i: nat, j: nat)
    requires Carved(p) && i < j < p.slots
    ensures Apart(SlotExtent(p, i), SlotExtent(p, j))
  {
    RowsApart(i, j, p.slotSize);
  }

  /** When two different ids share bytes: only id = dataBlocks can, with the data blocks that reach into
      the last `metaBsize` bytes of the data area. */
  predicate Collide(p: Pool, x: nat, y: nat) {
    y == p.dataBlocks && x < p.dataBlocks && Behind(p, x) < p.metaBsize
  }

  /** The bytes of the data area behind data block `x`. */
  function Behind(p: Pool, x: nat): nat
    requires x < p.dataBlocks
  {
    var n: nat := p.dataBlocks - x - 1;
    n * p.bsize
  }

  lemma DataPairApart(p: Pool, x: nat, y: nat)
    requires Carved(p) && x < y < p.dataBlocks
    ensures Apart(BlockExtent(p, x), BlockExtent(p, y))
  {
    RowsApart(x, y, p.bsize);
  }

  lemma MetaPairApart(p: Pool, x: nat, y: nat)
    requires Carved(p) && p.dataBlocks <= x < y < p.Ids()
    ensures Apart(BlockExtent(p, x), BlockExtent(p, y))
  {
    RowsApart(x - p.dataBlocks - 1, y - p.dataBlocks - 1, p.metaBsize);
  }

  lemma MixedPairApart(p: Pool, x: nat, y: nat)
    requires Carved(p) && x < p.dataBlocks < y < p.Ids()
    ensures Apart(BlockExtent(p, x), BlockExtent(p, y))
  {
    DataPlaced(p, x);
    MetaPlaced(p, y);
  }

  /** Where data block `x` ends, counted from the end of the data area. */
  lemma DataEnd(p: Pool, x: nat)
    requires Carved(p) && x < p.dataBlocks
    ensures BlockExtent(p, x) == Extent(p.meta - Behind(p, x) - p.bsize, p.bsize)
  {
    var d := p.dataBlocks;
    RowsApart(x, d, p.bsize);
    assert d * p.bsize == (x + 1) * p.bsize + (d - x - 1) * p.bsize;
  }

  lemma FirstMetaStart(p: Pool)
    requires Carved(p) && 0 < p.metaBlocks
    ensures BlockExtent(p, p.dataBlocks) == Extent(p.meta - p.metaBsize, p.metaBsize)
  {
  }

  lemma FirstMetaPair(p: Pool, x: nat)
    requires Carved(p) && x < p.dataBlocks && 0 < p.metaBlocks
    ensures Apart(BlockExtent(p, x), BlockExtent(p, p.dataBlocks)) <==> !Collide(p, x, p.dataBlocks)
  {
    DataEnd(p, x);
    FirstMetaStart(p);
    EndsMeet(p.meta, Behind(p, x), p.bsize, p.metaBsize);
  }

  /** Two stretches counted from the same end. */
  lemma EndsMeet(end: int, gap: nat, n: nat, m: nat)
    requires 0 < n && 0 < m
    ensures Apart(Extent(end - gap - n, n), Extent(end - m, m)) <==> gap >= m
  {
  }

  /** Exactly which pairs of block ids overlap. */
  lemma BlocksOverlapExactly(p: Pool, x: nat, y: nat)
    requires Carved(p) && x < y < p.Ids()
    ensures Apart(BlockExtent(p, x), BlockExtent(p, y)) <==> !Collide(p, x, y)
  {
    if y < p.dataBlocks {
      DataPairApart(p, x, y);
    } else if p.dataBlocks <= x {
      MetaPairApart(p, x, y);
    } else if y > p.dataBlocks {
      MixedPairApart(p, x, y);
    } else {
      FirstMetaPair(p, x);
    }
  }

  /** The data region and the meta region do collide at id = dataBlocks whenever there is a data block. */
  lemma FirstMetaIdAliasesLastDataBlock(p: Pool)
    requires Carved(p) && 0 < p.dataBlocks && 0 < p.metaBlocks
    ensures !Apart(BlockExtent(p, p.dataBlocks - 1), BlockExtent(p, p.dataBlocks))
  {
    BlocksOverlapExactly(p, p.dataBlocks - 1, p.dataBlocks);
  }

  /** The areas in terms of the request: behind the header, and rows of the sizes asked for, rounded up. */
  ghost predicate Serves(r: Request, p: Pool) {
    && p.slots == r.slots && p.size == r.pool + r.metaPool
    && r.header <= p.txLog < r.header + ALIGN && p.txLog <= p.data && p.meta <= r.pool
    && r.slot <= p.slotSize < r.slot + ALIGN && r.block <= p.bsize < r.block + ALIGN && r.metaBlock <= p.metaBsize < r.metaBlock + ALIGN
  }

  lemma CarveServes(r: Request)
    requires Fits(r)
    ensures Serves(r, Carve(r))
  {
    var p := Carve(r);
    RoundUpFacts(r.header);
    RoundUpFacts(r.slot);
    RoundUpFacts(r.block);
    RoundUpFacts(r.metaBlock);
  }

  /** Starts past the first `from` bytes and has `size` bytes, rounded up to the alignment. */
  predicate Sized(e: Extent, from: nat, size: nat) { from <= e.start && size <= e.len < size + ALIGN }

  /** Layout theorem: in every pool whose header and log fit, log slots and blocks are behind the header, in bounds,
      aligned, as large as asked for, and pairwise disjoint, for all ids other than dataBlocks; the log starts in the
      first aligned place, the data blocks stay in the data pool, and neither region has room for another block. */
  lemma LayoutSound(r: Request)
    requires Fits(r)
    ensures var p := Carve(r);
            && p.slots == r.slots && p.size == r.pool + r.metaPool
            && (forall i :: 0 <= i < p.slots ==>
                  InPool(p, SlotExtent(p, i)) && Aligned(SlotExtent(p, i)) && Sized(SlotExtent(p, i), r.header, r.slot))
            && (p.slots > 0 ==> SlotExtent(p, 0).start < r.header + ALIGN)
            && (forall x :: 0 <= x < p.Ids() && x != p.dataBlocks ==>
                  && InPool(p, BlockExtent(p, x)) && Aligned(BlockExtent(p, x))
                  && Sized(BlockExtent(p, x), r.header, if x < p.dataBlocks then r.block else r.metaBlock))
            && (forall x :: 0 <= x < p.dataBlocks ==> BlockExtent(p, x).start + BlockExtent(p, x).len <= r.pool)
            && (forall i, j :: 0 <= i < j < p.slots ==> Apart(SlotExtent(p, i), SlotExtent(p, j)))
            && (forall i, x :: 0 <= i < p.slots && 0 <= x < p.Ids() && x != p.dataBlocks ==>
                  Apart(SlotExtent(p, i), BlockExtent(p, x)))
            && (forall x, y :: 0 <= x < y < p.Ids() && y != p.dataBlocks ==>
                  Apart(BlockExtent(p, x), BlockExtent(p, y)))
    // as many blocks as fit behind the header and the log
    ensures var p, log := Carve(r), RoundUp(r.header) + r.slots * RoundUp(r.slot);
            && log + p.dataBlocks * RoundUp(r.block) <= r.pool < log + (p.dataBlocks + 1) * RoundUp(r.block)
            && log + p.dataBlocks * RoundUp(r.block) + p.metaBlocks * RoundUp(r.metaBlock) <= r.pool + r.metaPool
            && r.pool + r.metaPool < log + p.dataBlocks * RoundUp(r.block) + (p.metaBlocks + 1) * RoundUp(r.metaBlock)
  {
    CarveIsCarved(r);
    CarveServes(r);
    CarveFull(r);
    var p := Carve(r);
    forall i | 0 <= i < p.slots
      ensures InPool(p, SlotExtent(p, i)) && Aligned(SlotExtent(p, i)) && SlotExtent(p, i).start + p.slotSize <= p.data
      ensures Sized(SlotExtent(p, i), r.header, r.slot)
    {
      SlotPlaced(p, i);
    }
    forall x | 0 <= x < p.Ids() && x != p.dataBlocks
      ensures InPool(p, BlockExtent(p, x)) && Aligned(BlockExtent(p, x)) && p.data <= BlockExtent(p, x).start
      ensures Sized(BlockExtent(p, x), r.header, if x < p.dataBlocks then r.block else r.metaBlock)
      ensures x < p.dataBlocks ==> BlockExtent(p, x).start + BlockExtent(p, x).len <= r.pool
    {
      BlockPlaced(p, x);
    }
    forall i, j | 0 <= i < j < p.slots ensures Apart(SlotExtent(p, i), SlotExtent(p, j)) {
      SlotsApart(p, i, j);
    }
    forall x, y | 0 <= x < y < p.Ids() && y != p.dataBlocks ensures Apart(BlockExtent(p, x), BlockExtent(p, y)) {
      BlocksOverlapExactly(p, x, y);
    }
  }

  /** No gaps: each slot and each block, but for the blocks around id dataBlocks, begins where the one before it ends. */
  lemma RowsAdjoin(p: Pool)
    requires Carved(p)
    ensures forall i :: 0 < i < p.slots ==> Follows(SlotExtent(p, i), SlotExtent(p, i - 1))
    ensures forall x :: 0 < x < p.Ids() && x != p.dataBlocks && x != p.dataBlocks + 1 ==> Follows(BlockExtent(p, x), BlockExtent(p, x - 1))
    ensures p.slots > 0 && p.dataBlocks > 0 ==> Follows(BlockExtent(p, 0), SlotExtent(p, p.slots - 1))
    ensures p.dataBlocks > 0 && p.metaBlocks > 1 ==> Follows(BlockExtent(p, p.dataBlocks + 1), BlockExtent(p, p.dataBlocks - 1))
  {
    forall i | 0 < i < p.slots ensures Follows(SlotExtent(p, i), SlotExtent(p, i - 1)) { RowsApart(i - 1, i, p.slotSize); }
    forall x | 0 < x < p.Ids() && x != p.dataBlocks && x != p.dataBlocks + 1 ensures Follows(BlockExtent(p, x), BlockExtent(p, x - 1)) {
      if x < p.dataBlocks { RowsApart(x - 1, x, p.bsize); }
      else { RowsApart(x - p.dataBlocks - 2, x - p.dataBlocks - 1, p.metaBsize); }
    }
    if p.slots > 0 { RowsApart(p.slots - 1, p.slots, p.slotSize); }
    if p.dataBlocks > 0 { RowsApart(p.dataBlocks - 1, p.dataBlocks, p.bsize); }
  }

  predicate Follows(b: Extent, a: Extent) { b.start == a.start + a.len }

  lemma CarveFull(r: Request)
    requires Fits(r)
    ensures var p, log := Carve(r), RoundUp(r.header) + r.slots * RoundUp(r.slot);
            && log + p.dataBlocks * RoundUp(r.block) <= r.pool < log + (p.dataBlocks + 1) * RoundUp(r.block)
            && log + p.dataBlocks * RoundUp(r.block) + p.metaBlocks * RoundUp(r.metaBlock) <= r.pool + r.metaPool
            && r.pool + r.metaPool < log + p.dataBlocks * RoundUp(r.block) + (p.metaBlocks + 1) * RoundUp(r.metaBlock)
  {
    RoundUpFacts(r.block);
    RoundUpFacts(r.metaBlock);
    var p := Carve(r);
    assert (p.dataBlocks + 1) * p.bsize == p.dataBlocks * p.bsize + p.bsize;
    assert (p.metaBlocks + 1) * p.metaBsize == p.metaBlocks * p.metaBsize + p.metaBsize;
  }
}
