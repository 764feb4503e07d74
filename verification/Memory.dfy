/** The blocks of the machine as bytes of the pool. The machine keeps blocks apart; the pool does so for every set of
    ids whose extents are disjoint, and not for the first meta id, which the address computation puts on top of the
    last data block. */
module Memory {
  import opened Words
  import opened Blocks
  import opened TxLog
  import opened InPlace
  import opened Machine
  import opened MachineProofs
  import opened Crash
  import opened Runs
  import opened Api
  import opened Sessions
  import opened Limits
  import opened Pool
  import Ranges
  import Layout

  /** The pool holds block `b` at extent `e`: header fields, four bytes of padding, body. */
  ghost predicate Holds(mem: seq<Byte>, e: Layout.Extent, b: Block) {
    && 0 <= e.start && e.start + e.len <= |mem| && Layout.HDR + |b.body| == e.len
    && Field(mem, e.start, 8) == b.flch && Field(mem, e.start + 8, 8) == b.hdr.id
    && Field(mem, e.start + 16, 4) == b.hdr.version
    && Field(mem, e.start + 20, 4) == b.hdr.keyLen && Field(mem, e.start + 24, 4) == b.hdr.valLen
    && mem[e.start + Layout.HDR..e.start + e.len] == b.body
  }

  ghost predicate Inside(e: Layout.Extent, k: nat) { e.start <= k < e.start + e.len }

  lemma {:induction false} HoldsKept(mem: seq<Byte>, mem': seq<Byte>, e: Layout.Extent, b: Block)
    requires Holds(mem, e, b) && |mem'| == |mem| && forall k: nat :: k < |mem| && Inside(e, k) ==> mem'[k] == mem[k]
    ensures Holds(mem', e, b)
  {
    assert mem'[e.start..e.start + e.len] == mem[e.start..e.start + e.len];
    SliceKept(mem, mem', e, 0, 8);
    SliceKept(mem, mem', e, 8, 16);
    SliceKept(mem, mem', e, 16, 20);
    SliceKept(mem, mem', e, 20, 24);
    SliceKept(mem, mem', e, 24, 28);
    SliceKept(mem, mem', e, Layout.HDR, e.len);
  }

  lemma {:induction false} SliceKept(mem: seq<Byte>, mem': seq<Byte>, e: Layout.Extent, i: nat, j: nat)
    requires 0 <= e.start && e.start + e.len <= |mem| == |mem'| && i <= j <= e.len
    requires mem'[e.start..e.start + e.len] == mem[e.start..e.start + e.len]
    ensures mem'[e.start + i..e.start + j] == mem[e.start + i..e.start + j]
  {
    SliceOfSlice(mem, e.start, e.len, i, j);
    SliceOfSlice(mem', e.start, e.len, i, j);
  }

  lemma {:induction false} SliceOfSlice(mem: seq<Byte>, from: nat, n: nat, i: nat, j: nat)
    requires from + n <= |mem| && i <= j <= n
    ensures mem[from + i..from + j] == mem[from..from + n][i..j]
  {
    var a, b := mem[from + i..from + j], mem[from..from + n][i..j];
    assert |a| == |b|;
    forall t | 0 <= t < |a| ensures a[t] == b[t] {
      assert a[t] == mem[from + i + t];
    }
  }

  // ---- which ids are kept apart ----

  /** Outside `avoid`, no two ids share bytes. */
  ghost predicate Clears(p: Layout.Pool, avoid: set<nat>) {
    forall x, y :: 0 <= x < y < p.Ids() && x !in avoid && y !in avoid ==>
      Layout.Apart(Layout.BlockExtent(p, x), Layout.BlockExtent(p, y))
  }

  /** Exactly which ids must be avoided: the first meta id, or else every data block its extent reaches into. */
  lemma {:induction false} ClearsExactly(p: Layout.Pool, avoid: set<nat>)
    requires Layout.Carved(p) && 0 < p.metaBlocks
    ensures Clears(p, avoid) <==>
            p.dataBlocks in avoid || forall x :: Layout.Collide(p, x, p.dataBlocks) ==> x in avoid
  {
    var d := p.dataBlocks;
    if d in avoid || forall x :: Layout.Collide(p, x, d) ==> x in avoid {
      forall x, y | 0 <= x < y < p.Ids() && x !in avoid && y !in avoid
        ensures Layout.Apart(Layout.BlockExtent(p, x), Layout.BlockExtent(p, y))
      {
        Layout.BlocksOverlapExactly(p, x, y);
      }
    } else {
      var x :| Layout.Collide(p, x, d) && x !in avoid;
      Layout.BlocksOverlapExactly(p, x, d);
    }
  }

  // ---- the pool follows the machine ----

  /** Outside `avoid`, the pool holds the machine's blocks. */
  ghost predicate Mirrors(p: Layout.Pool, mem: seq<Byte>, blocks: seq<Block>, avoid: set<nat>) {
    |blocks| == p.Ids() && forall x :: 0 < x < p.Ids() && x !in avoid ==> Holds(mem, Layout.BlockExtent(p, x), blocks[x])
  }

  /** A byte of a block that changed. */
  ghost predicate Rewrites(p: Layout.Pool, blocks: seq<Block>, blocks': seq<Block>, x: nat, k: nat) {
    x < p.Ids() && |blocks| == |blocks'| == p.Ids() && blocks'[x] != blocks[x] && Inside(Layout.BlockExtent(p, x), k)
  }

  /** The pool after a step: only extents of changed blocks are written, and they hold the new blocks. */
  ghost predicate Stores(p: Layout.Pool, mem: seq<Byte>, blocks: seq<Block>, mem': seq<Byte>, blocks': seq<Block>) {
    && |mem'| == |mem| && |blocks| == |blocks'| == p.Ids()
    && (forall k: nat :: k < |mem| && mem'[k] != mem[k] ==> exists x :: Rewrites(p, blocks, blocks', x, k))
    && (forall x :: 0 <= x < p.Ids() && blocks'[x] != blocks[x] ==> Holds(mem', Layout.BlockExtent(p, x), blocks'[x]))
  }

  lemma {:induction false} StoreMirrors(p: Layout.Pool, avoid: set<nat>, mem: seq<Byte>, blocks: seq<Block>, mem': seq<Byte>, blocks': seq<Block>)
    requires Clears(p, avoid) && Mirrors(p, mem, blocks, avoid) && Stores(p, mem, blocks, mem', blocks')
    requires forall x :: x in avoid && x < p.Ids() ==> blocks'[x] == blocks[x]
    ensures Mirrors(p, mem', blocks', avoid)
  {
    forall x | 0 < x < p.Ids() && x !in avoid ensures Holds(mem', Layout.BlockExtent(p, x), blocks'[x]) {
      if blocks'[x] == blocks[x] {
        var e := Layout.BlockExtent(p, x);
        forall k: nat | k < |mem| && Inside(e, k) ensures mem'[k] == mem[k] {
          if mem'[k] != mem[k] {
            var y :| Rewrites(p, blocks, blocks', y, k);
            OneOwner(p, avoid, x, y, k);
          }
        }
        HoldsKept(mem, mem', e, blocks[x]);
      }
    }
  }

  lemma {:induction false} OneOwner(p: Layout.Pool, avoid: set<nat>, x: nat, y: nat, k: nat)
    requires Clears(p, avoid) && x < p.Ids() && y < p.Ids() && x !in avoid && y !in avoid
    requires Inside(Layout.BlockExtent(p, x), k) && Inside(Layout.BlockExtent(p, y), k)
    ensures x == y
  {
    if x < y { NotBoth(p, avoid, x, y, k); } else if y < x { NotBoth(p, avoid, y, x, k); }
  }

  lemma {:induction false} NotBoth(p: Layout.Pool, avoid: set<nat>, x: nat, y: nat, k: nat)
    requires Clears(p, avoid) && x < y < p.Ids() && x !in avoid && y !in avoid
    ensures !(Inside(Layout.BlockExtent(p, x), k) && Inside(Layout.BlockExtent(p, y), k))
  {
    assert Layout.Apart(Layout.BlockExtent(p, x), Layout.BlockExtent(p, y));
  }

  // ---- runs that leave some ids alone ----

  /** The step brings `x` into a log or a hand. */
  ghost predicate Names(a: Action, x: nat) {
    match a
    case Take(_, y) => y == x
    case LogNew(_, op) => OldOf(op) == x || NewOf(op) == x
    case LogDel(_, y) => y == x
    case LogPatch(_, op) => op.InPlace? && op.id == x
    case _ => false
  }

  /** The event leaves the ids alone: no step names them, and no walk reads them in a slot. */
  ghost predicate Shuns(e: Event, avoid: set<nat>) {
    match e
    case Act(a) => forall x :: x in avoid ==> !Names(a, x)
    case PowerLoss(_, seen) => forall j, x :: 0 <= j < |seen| && x in avoid ==> !Mentions(seen[j], x)
  }

  /** No log, old or new, and no hand has anything to do with the ids. */
  ghost predicate Unused(s: Sys, avoid: set<nat>) {
    forall j, x :: 0 <= j < |s.txs| && x in avoid && x != 0 ==> !Touches(s.txs[j], x) && !Mentions(s.txs[j].stale, x)
  }

  lemma {:induction false} UnusedStep(cfg: Config, s: Sys, a: Action, avoid: set<nat>)
    requires Inv(cfg, s) && Can(cfg, s, a) && Unused(s, avoid) && Shuns(Act(a), avoid)
    ensures Unused(Do(cfg, s, a), avoid)
  {
    var r, i := Do(cfg, s, a), a.i;
    forall j, x | 0 <= j < |r.txs| && x in avoid && x != 0 ensures !Touches(r.txs[j], x) && !Mentions(r.txs[j].stale, x) {
      assert !Touches(s.txs[j], x) && !Mentions(s.txs[j].stale, x) && !Names(a, x);
      if j == i { UnusedTx(cfg, s, a, x); } else { assert r.txs[j] == s.txs[j]; }
    }
  }

  lemma {:induction false} UnusedTx(cfg: Config, s: Sys, a: Action, x: nat)
    requires Shaped(cfg, s) && Can(cfg, s, a) && x != 0 && !Touches(s.txs[a.i], x) && !Mentions(s.txs[a.i].stale, x) && !Names(a, x)
    ensures !Touches(Do(cfg, s, a).txs[a.i], x) && !Mentions(Do(cfg, s, a).txs[a.i].stale, x)
  {
    var t := s.txs[a.i];
    match a
    case LogNew(_, op) => MentionsAppend(t.log, op, x);
    case LogDel(_, y) => MentionsAppend(t.log, Remove(y), x);
    case LogPatch(_, op) => MentionsAppend(t.log, op, x);
    case _ =>
  }

  /** Blocks nobody names do not change, in a step or in a restart. */
  lemma {:induction false} UnusedKept(cfg: Config, s: Sys, e: Event, avoid: set<nat>, x: nat)
    requires Inv(cfg, s) && Possible(cfg, s, e) && Unused(s, avoid) && Shuns(e, avoid) && x in avoid && 0 < x < |s.blocks|
    ensures |After(cfg, s, e).blocks| == |s.blocks| && After(cfg, s, e).blocks[x] == s.blocks[x]
  {
    match e
    case Act(a) =>
      assert !Touches(s.txs[a.i], x);
      if Do(cfg, s, a).blocks[x] != s.blocks[x] { WriteAhead(cfg, s, a, x); }
    case PowerLoss(sums, seen) =>
      var start, found := FirstWalked(|s.txs|), Sighting(s.txs, sums, seen);
      forall j | 0 <= j < |found| ensures !Masked(found[j], x) && !Patches(found[j].log, x) {
        assert found[j].log == seen[j] && !Mentions(seen[j], x);
      }
      RecoverSlotsAt(cfg, s.blocks, found, start, |found|, x);
      UnreadKept(cfg, s.blocks[x], found, start, |found|, x);
  }

  /** Copies aimed elsewhere do not change `x`. */
  lemma {:induction false} UnreadKept(cfg: Config, b: Block, found: seq<Tx>, start: nat, end: nat, x: nat)
    requires start <= end <= |found| && x != 0 && forall j :: 0 <= j < |found| ==> !Patches(found[j].log, x)
    ensures CopyAll(cfg, x, b, Redone(found, start, end)) == b
    decreases end
  {
    if start < end {
      UnreadKept(cfg, b, found, start, end - 1, x);
      var t := found[end - 1];
      var log := if t.status.Commited? then t.log else [];
      CopyConcat(cfg, x, b, Redone(found, start, end - 1), log);
      forall k | 0 <= k < |log| ensures log[k].InPlace? && log[k].id == x ==> log[k].payload == [] {
        assert PatchOf(log[k]) != x;
      }
      NothingCopied(cfg, x, b, log);
    }
  }

  lemma {:induction false} UnusedEvent(cfg: Config, s: Sys, e: Event, avoid: set<nat>)
    requires Inv(cfg, s) && Possible(cfg, s, e) && Unused(s, avoid) && Shuns(e, avoid)
    ensures Unused(After(cfg, s, e), avoid)
  {
    match e
    case Act(a) => UnusedStep(cfg, s, a, avoid);
    case PowerLoss(sums, seen) =>
      var r := After(cfg, s, e);
      forall j, x | 0 <= j < |r.txs| && x in avoid && x != 0 ensures !Touches(r.txs[j], x) && !Mentions(r.txs[j].stale, x) {
        assert r.txs[j] == Left(s.txs[j], j == 0);
        assert !Touches(s.txs[j], x) && !Mentions(s.txs[j].stale, x);
      }
  }

  /** A run together with the pool after each of its events. */
  ghost predicate MemReaches(cfg: Config, p: Layout.Pool, s: Sys, mem: seq<Byte>, es: seq<Event>, mems: seq<seq<Byte>>, r: Sys, mem': seq<Byte>)
    decreases |es|
  {
    if es == [] then r == s && mem' == mem
    else
      && mems != [] && Shaped(cfg, s) && Possible(cfg, s, es[0])
      && Stores(p, mem, s.blocks, mems[0], After(cfg, s, es[0]).blocks)
      && MemReaches(cfg, p, After(cfg, s, es[0]), mems[0], es[1..], mems[1..], r, mem')
  }

  /** Over every run that leaves a clearing set of ids alone, crashes included, the pool holds exactly the machine's
      blocks for all other ids: treating blocks as separate is justified there. */
  lemma {:induction false} MemoryMirrors(
    cfg: Config, p: Layout.Pool, avoid: set<nat>, s: Sys, mem: seq<Byte>, es: seq<Event>, mems: seq<seq<Byte>>, r: Sys, mem': seq<Byte>)
    requires Inv(cfg, s) && cfg.Ids() == p.Ids() && Clears(p, avoid) && 0 !in avoid
    requires Mirrors(p, mem, s.blocks, avoid) && Unused(s, avoid) && MemReaches(cfg, p, s, mem, es, mems, r, mem')
    requires forall k :: 0 <= k < |es| ==> Shuns(es[k], avoid)
    ensures Reaches(cfg, s, es, r) && Mirrors(p, mem', r.blocks, avoid)
    decreases |es|
  {
    if es != [] {
      var m := After(cfg, s, es[0]);
      EventKeeps(cfg, s, es[0]);
      UnusedEvent(cfg, s, es[0], avoid);
      forall x | x in avoid && x < p.Ids() ensures m.blocks[x] == s.blocks[x] { UnusedKept(cfg, s, es[0], avoid, x); }
      StoreMirrors(p, avoid, mem, s.blocks, mems[0], m.blocks);
      MemoryMirrors(cfg, p, avoid, m, mems[0], es[1..], mems[1..], r, mem');
    }
  }

  /** Isolation in the pool: over any run of puts, deletes and commits that leaves a clearing set of ids alone, every
      other id that was live still holds the same object, byte for byte. */
  lemma {:induction false} IsolationInMemory(
    cfg: Config, p: Layout.Pool, avoid: set<nat>, s: Sys, mem: seq<Byte>, es: seq<Event>, mems: seq<seq<Byte>>, r: Sys, mem': seq<Byte>, x: nat)
    requires Inv(cfg, s) && cfg.Ids() == p.Ids() && Clears(p, avoid) && 0 !in avoid
    requires Mirrors(p, mem, s.blocks, avoid) && Unused(s, avoid) && MemReaches(cfg, p, s, mem, es, mems, r, mem')
    requires forall k :: 0 <= k < |es| ==> Shuns(es[k], avoid) && es[k].Act? && Staging(es[k].a)
    requires Get(s.blocks, x).Some? && x !in avoid
    ensures Holds(mem', Layout.BlockExtent(p, x), s.blocks[x])
  {
    MemoryMirrors(cfg, p, avoid, s, mem, es, mems, r, mem');
    Isolation(cfg, s, es, r, x);
  }

  // ---- the collision ----

  /** Where the first body byte of the first meta block lies: inside the body of the last data block. */
  lemma {:induction false} CollisionByte(p: Layout.Pool, x: nat)
    requires Layout.Carved(p) && 0 < p.dataBlocks && 0 < p.metaBlocks && Layout.HDR < p.metaBsize <= p.bsize && x == p.dataBlocks - 1
    ensures var k := Layout.BlockExtent(p, p.dataBlocks).start + Layout.HDR;
            var e := Layout.BlockExtent(p, x);
            e.start + Layout.HDR <= k < e.start + e.len && 0 <= e.start
            && k < Layout.BlockExtent(p, p.dataBlocks).start + p.metaBsize
  {
    Layout.DataPlaced(p, x);
    Layout.RowsApart(x, p.dataBlocks, p.bsize);
    assert p.meta == p.data + (x + 1) * p.bsize;
    assert Layout.BlockExtent(p, p.dataBlocks).start == p.meta - p.metaBsize;
  }

  /** If the first meta block is written, the last data block no longer holds what it did, unless the byte happens to
      be the same. */
  lemma {:induction false} CollisionChanges(p: Layout.Pool, mem: seq<Byte>, mem': seq<Byte>, x: nat, b: Block, c: Block)
    requires Layout.Carved(p) && 0 < p.dataBlocks && 0 < p.metaBlocks && Layout.HDR < p.metaBsize <= p.bsize && x == p.dataBlocks - 1
    requires Holds(mem, Layout.BlockExtent(p, x), b) && Holds(mem', Layout.BlockExtent(p, p.dataBlocks), c) && |mem'| == |mem|
    requires var k := Layout.BlockExtent(p, p.dataBlocks).start + Layout.HDR; 0 <= k < |mem| && c.body[0] != mem[k]
    ensures !Holds(mem', Layout.BlockExtent(p, x), b)
  {
    CollisionByte(p, x);
    var d, e := Layout.BlockExtent(p, p.dataBlocks), Layout.BlockExtent(p, x);
    var k := d.start + Layout.HDR;
    assert mem'[k] == mem'[d.start + Layout.HDR..d.start + d.len][0] == c.body[0];
    var j := k - (e.start + Layout.HDR);
    assert mem[k] == mem[e.start + Layout.HDR..e.start + e.len][j] == b.body[j];
    assert mem'[k] == mem'[e.start + Layout.HDR..e.start + e.len][j];
  }

  /** The collision as a run, from every state between calls whose lowest free data block is the last one and whose
      first meta block is free: a data put is handed the one, a meta put the other. In the machine the data object is
      untouched and live; in the pool it is overwritten, for every key that differs from the byte it lands on. */
  lemma {:induction false} MetaPutOverwritesData(
    cfg: Config, p: Layout.Pool, s: Sys, f: FreeLists, i: nat, x: nat, b: Block, kv: Pair, mem: seq<Byte>, mem': seq<Byte>)
    returns (m: Sys, r: Sys)
    requires Inv(cfg, s) && Resting(s) && i < |s.txs| && Accepting(s.txs[i]) && cfg.Ids() < U64 && 1 < cfg.total && 0 < cfg.meta
    requires ListsOK(cfg, f) && FreeIds(f) == s.free && x == cfg.total - 1 == Ranges.Lowest(f.data) && cfg.total in s.free
    requires Layout.Carved(p) && p.dataBlocks == cfg.total && p.metaBlocks == cfg.meta && Layout.HDR < p.metaBsize <= p.bsize
    requires Contained(cfg, x, b) && b.flch == 0 && MetaPutFits(cfg, kv) && kv.blkId == 0
    requires Holds(mem, Layout.BlockExtent(p, x), Sealed(cfg, x, b)) && |mem'| == |mem|
    requires Holds(mem', Layout.BlockExtent(p, cfg.total), Sealed(cfg, cfg.total, FilledMeta(cfg, cfg.total, s.blocks[cfg.total], None, kv)))
    requires var k := Layout.BlockExtent(p, cfg.total).start + Layout.HDR; 0 <= k < |mem| && kv.key[0] != mem[k]
    ensures var c := FilledMeta(cfg, cfg.total, s.blocks[cfg.total], None, kv);
            && c.flch == 0
            && Reaches(cfg, s, PutRun(i, x, Write(x), b), m) && Reaches(cfg, m, PutRun(i, cfg.total, Write(cfg.total), c), r)
            && r.blocks == m.blocks[cfg.total := Sealed(cfg, cfg.total, c)]
    // the lists hand out exactly these two blocks
    ensures Ranges.Pop(f.data).0 == Some(x) && Ranges.Pop(f.meta).0 == Some(cfg.total)
    ensures |m.blocks| == |r.blocks| == |s.blocks| && m.blocks[x] == Sealed(cfg, x, b) && r.blocks[x] == m.blocks[x] && Live(r.blocks[x])
    ensures !Holds(mem', Layout.BlockExtent(p, x), r.blocks[x])
  {
    HandedOut(cfg, f, x);
    FreeIsDead(cfg, s, cfg.total);
    var c := FilledMeta(cfg, cfg.total, s.blocks[cfg.total], None, kv);
    CollisionSeen(cfg, p, mem, mem', x, b, kv, c);
    m, r := TwoObjects(cfg, s, i, x, b, cfg.total, c);
  }

  /** What the lists hand out first. */
  lemma {:induction false} HandedOut(cfg: Config, f: FreeLists, x: nat)
    requires ListsOK(cfg, f) && 0 < x < cfg.total && x == Ranges.Lowest(f.data) && cfg.total in FreeIds(f)
    ensures Ranges.Pop(f.data).0 == Some(x) && Ranges.Pop(f.meta).0 == Some(cfg.total) && x in FreeIds(f)
  {
    Ranges.PopTakesMinimum(f.data);
    FirstMetaTake(cfg, f);
  }

  lemma {:induction false} CollisionSeen(
    cfg: Config, p: Layout.Pool, mem: seq<Byte>, mem': seq<Byte>, x: nat, b: Block, kv: Pair, c: Block)
    requires Layout.Carved(p) && p.dataBlocks == cfg.total && p.metaBlocks == cfg.meta && 0 < cfg.meta && Layout.HDR < p.metaBsize <= p.bsize
    requires x == cfg.total - 1 && Contained(cfg, x, b) && Contained(cfg, cfg.total, c) && kv.key != [] && c.body != [] && c.body[0] == kv.key[0]
    requires Holds(mem, Layout.BlockExtent(p, x), Sealed(cfg, x, b)) && |mem'| == |mem|
    requires Holds(mem', Layout.BlockExtent(p, cfg.total), Sealed(cfg, cfg.total, c))
    requires var k := Layout.BlockExtent(p, cfg.total).start + Layout.HDR; 0 <= k < |mem| && kv.key[0] != mem[k]
    ensures !Holds(mem', Layout.BlockExtent(p, x), Sealed(cfg, x, b))
  {
    CollisionChanges(p, mem, mem', x, Sealed(cfg, x, b), Sealed(cfg, cfg.total, c));
  }

  /** Two objects put by one transaction, between calls. */
  lemma {:induction false} TwoObjects(cfg: Config, s: Sys, i: nat, x: nat, b: Block, y: nat, c: Block) returns (m: Sys, r: Sys)
    requires Inv(cfg, s) && Resting(s) && i < |s.txs| && PutAllowed(s, i, 0, x) && PutAllowed(s, i, 0, y) && x != y
    requires Contained(cfg, x, b) && b.flch == 0 && Contained(cfg, y, c) && c.flch == 0
    ensures Reaches(cfg, s, PutRun(i, x, Write(x), b), m) && Reaches(cfg, m, PutRun(i, y, Write(y), c), r)
    ensures m.blocks == s.blocks[x := Sealed(cfg, x, b)] && r.blocks == m.blocks[y := Sealed(cfg, y, c)]
  {
    assert RestingTx(s, s.txs[i]);
    FreeNotNamed(cfg, s, x);
    PutIsRun(cfg, s, i, 0, x, b);
    NewBlockRests(cfg, s, i, 0, x, Sealed(cfg, x, b));
    m := NewBlock(s, i, x, Write(x), Sealed(cfg, x, b));
    FreeNotNamed(cfg, m, y);
    assert RestingTx(m, m.txs[i]);
    PutIsRun(cfg, m, i, 0, y, c);
    r := NewBlock(m, i, y, Write(y), Sealed(cfg, y, c));
  }
}
