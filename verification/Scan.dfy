/** The rebuild of the free and object lists after a restart: eight threads over the block ids, one list
    operation at a time, in any order. Also the iterator over the lists it builds. */
module Scan {
  import opened Words
  import opened Ranges
  import opened Blocks
  import opened TxLog
  import opened InPlace
  import opened Crash

  const THREADS: nat := 8

  /** pmb_ntotal(data) + pmb_ntotal(meta), divided among the threads */
  function Part(cfg: Config): nat {
    (cfg.total - 1 + cfg.meta) / THREADS
  }

  function Start(cfg: Config, i: nat): nat {
    Part(cfg) * i + if i == 0 then 1 else 0
  }

  function Stop(cfg: Config, i: nat): nat {
    if i < THREADS - 1 then Part(cfg) * (i + 1) else cfg.Ids()
  }

  ghost predicate Covers(cfg: Config, i: nat, pos: nat) {
    i < THREADS && Start(cfg, i) <= pos < Stop(cfg, i)
  }

  lemma {:induction false} Monotone(p: nat, i: nat, j: nat)
    requires i <= j
    ensures p * i <= p * j
  {
    assert p * j == p * i + p * (j - i);
  }

  lemma {:induction false} Quotient(n: nat, p: nat)
    requires p > 0
    ensures p * (n / p) <= n < p * (n / p + 1)
  {
    assert n == p * (n / p) + n % p;
  }

  /** The thread that visits `pos`. */
  lemma {:induction false} ThreadOf(cfg: Config, pos: nat) returns (i: nat)
    requires 0 < pos < cfg.Ids()
    ensures Covers(cfg, i, pos)
  {
    var p := Part(cfg);
    if p == 0 || p * 7 <= pos {
      i := THREADS - 1;
    } else {
      i := pos / p;
      Quotient(pos, p);
      if i >= 7 { Monotone(p, 7, i); }
    }
  }

  lemma {:induction false} OneThread(cfg: Config, i: nat, j: nat, pos: nat)
    requires Covers(cfg, i, pos) && Covers(cfg, j, pos)
    ensures i == j
  {
    if i < j {
      Monotone(Part(cfg), i + 1, j);
    } else if j < i {
      Monotone(Part(cfg), j + 1, i);
    }
  }

  lemma {:induction false} InRange(cfg: Config, i: nat, pos: nat)
    requires Covers(cfg, i, pos)
    ensures pos < cfg.Ids() && (pos == 0 ==> Part(cfg) == 0 && i == THREADS - 1)
  {
    Monotone(Part(cfg), i + 1, THREADS);
    Monotone(Part(cfg), 1, Max(i, 1));
  }

  /** The thread ranges cover every id from 1 to total + meta - 1 exactly once; id 0 is visited only when
      there are fewer than eight ids, and then by the last thread. */
  lemma {:induction false} ThreadsPartition(cfg: Config, pos: nat)
    ensures 0 < pos < cfg.Ids() ==> exists i: nat :: Covers(cfg, i, pos)
    ensures forall i: nat, j: nat :: Covers(cfg, i, pos) && Covers(cfg, j, pos) ==> i == j
    ensures forall i: nat :: Covers(cfg, i, pos) ==> pos < cfg.Ids() && (pos == 0 ==> Part(cfg) == 0 && i == THREADS - 1)
  {
    if 0 < pos < cfg.Ids() { var i := ThreadOf(cfg, pos); }
    forall i: nat, j: nat | Covers(cfg, i, pos) && Covers(cfg, j, pos) ensures i == j { OneThread(cfg, i, j, pos); }
    forall i: nat | Covers(cfg, i, pos) ensures pos < cfg.Ids() && (pos == 0 ==> Part(cfg) == 0 && i == THREADS - 1) {
      InRange(cfg, i, pos);
    }
  }

  /** The ids are shared out evenly: each thread but the last visits an eighth of them, rounded down, the first one
      less, and the last at most eight more. */
  lemma {:induction false} ThreadsBalanced(cfg: Config, i: nat)
    requires i < THREADS
    ensures var n, share := cfg.Ids() - 1, Stop(cfg, i) - (if i == 0 then 0 else Start(cfg, i));
            if i < THREADS - 1 then THREADS * share <= n < THREADS * (share + 1) else n < THREADS * share <= n + 64
  {
    var p := Part(cfg);
    assert Start(cfg, 7) == p * 7;
    assert p * (i + 1) == p * i + p;
  }

  /** The four lists. */
  datatype Lists = Lists(free: seq<Range>, metaFree: seq<Range>, objs: seq<Range>, metaObjs: seq<Range>)

  /** One turn of a thread: the block at `pos` goes to exactly one list. */
  function File(cfg: Config, blocks: seq<Block>, l: Lists, pos: nat): Lists
    requires pos < |blocks| == cfg.Ids() && forall x :: 0 <= x < |blocks| ==> Contained(cfg, x, blocks[x])
  {
    var occupied := Get(blocks, pos).Some? && blocks[pos].flch == Checksum(cfg, pos, blocks[pos]);
    if pos < cfg.total then
      if occupied then l.(objs := Push(l.objs, pos)) else l.(free := Push(l.free, pos))
    else
      if occupied then l.(metaObjs := Push(l.metaObjs, pos)) else l.(metaFree := Push(l.metaFree, pos))
  }

  /** Which list an id belongs to: by region, and by whether it carries an intact object. */
  ghost predicate Belongs(cfg: Config, blocks: seq<Block>, meta: bool, occupied: bool, x: nat) {
    0 < x < |blocks| && (meta <==> x >= cfg.total) && (occupied <==> !ScannedFree(cfg, blocks, x))
  }

  ghost function Want(cfg: Config, blocks: seq<Block>, meta: bool, occupied: bool): set<nat> {
    set x | 0 < x < |blocks| && Belongs(cfg, blocks, meta, occupied, x)
  }

  ghost predicate Collects(list: seq<Range>, ids: set<nat>) { Canonical(list) && Ids(list) == ids }

  /** The lists hold exactly the ids in `done`, each in the one list it belongs to. */
  ghost predicate Filed(cfg: Config, blocks: seq<Block>, l: Lists, done: set<nat>) {
    && Collects(l.free, done * Want(cfg, blocks, false, false))
    && Collects(l.metaFree, done * Want(cfg, blocks, true, false))
    && Collects(l.objs, done * Want(cfg, blocks, false, true))
    && Collects(l.metaObjs, done * Want(cfg, blocks, true, true))
  }

  /** Every id is in exactly one list: by region, and by whether the scan finds an intact object. */
  ghost predicate Complete(cfg: Config, blocks: seq<Block>, l: Lists) {
    && Collects(l.free, Want(cfg, blocks, false, false))
    && Collects(l.metaFree, Want(cfg, blocks, true, false))
    && Collects(l.objs, Want(cfg, blocks, false, true))
    && Collects(l.metaObjs, Want(cfg, blocks, true, true))
  }

  lemma {:induction false} Collected(list: seq<Range>, done: set<nat>, want: set<nat>, pos: nat)
    requires Collects(list, done * want) && 0 !in want
    ensures pos in want ==> Collects(Push(list, pos), (done + {pos}) * want)
    ensures pos !in want ==> Collects(list, (done + {pos}) * want)
    ensures pos == 0 ==> Push(list, pos) == list
  {
    PushInserts(list, pos);
    if pos in want {
      assert (done + {pos}) * want == done * want + {pos};
    } else {
      assert (done + {pos}) * want == done * want;
    }
  }

  lemma {:induction false} FileStep(cfg: Config, blocks: seq<Block>, l: Lists, done: set<nat>, pos: nat)
    requires pos < |blocks| == cfg.Ids() && forall x :: 0 <= x < |blocks| ==> Contained(cfg, x, blocks[x])
    requires Filed(cfg, blocks, l, done)
    ensures Filed(cfg, blocks, File(cfg, blocks, l, pos), done + {pos})
  {
    var occupied := Get(blocks, pos).Some? && blocks[pos].flch == Checksum(cfg, pos, blocks[pos]);
    assert forall m, o :: pos in Want(cfg, blocks, m, o) <==> pos != 0 && (m <==> pos >= cfg.total) && (o <==> occupied);
    Collected(l.free, done, Want(cfg, blocks, false, false), pos);
    Collected(l.metaFree, done, Want(cfg, blocks, true, false), pos);
    Collected(l.objs, done, Want(cfg, blocks, false, true), pos);
    Collected(l.metaObjs, done, Want(cfg, blocks, true, true), pos);
  }

  function Left(cfg: Config, at: seq<nat>, n: nat): nat
    requires n <= |at|
  {
    if n == 0 then 0
    else Left(cfg, at, n - 1) + if at[n - 1] < Stop(cfg, n - 1) then Stop(cfg, n - 1) - at[n - 1] else 0
  }

  lemma {:induction false} LeftStep(cfg: Config, at: seq<nat>, i: nat, n: nat)
    requires i < |at| && n <= |at| && at[i] < Stop(cfg, i)
    ensures Left(cfg, at[i := at[i] + 1], n) == Left(cfg, at, n) - if i < n then 1 else 0
  {
    if n > 0 { LeftStep(cfg, at, i, n - 1); }
  }

  /** How far the threads are, and which ids they have filed. */
  ghost predicate Progress(cfg: Config, at: seq<nat>, done: set<nat>) {
    && |at| == THREADS
    && (forall i :: 0 <= i < THREADS ==> Start(cfg, i) <= at[i])
    && (forall i, pos :: 0 <= i < THREADS && Start(cfg, i) <= pos < at[i] ==> pos in done)
  }

  lemma {:induction false} Turn(cfg: Config, blocks: seq<Block>, l: Lists, at: seq<nat>, done: set<nat>, i: nat)
    requires |blocks| == cfg.Ids() && forall x :: 0 <= x < |blocks| ==> Contained(cfg, x, blocks[x])
    requires Progress(cfg, at, done) && Filed(cfg, blocks, l, done) && i < THREADS && at[i] < Stop(cfg, i)
    ensures at[i] < cfg.Ids() && Progress(cfg, at[i := at[i] + 1], done + {at[i]})
    ensures Filed(cfg, blocks, File(cfg, blocks, l, at[i]), done + {at[i]})
    ensures Left(cfg, at[i := at[i] + 1], THREADS) < Left(cfg, at, THREADS)
  {
    InRange(cfg, i, at[i]);
    FileStep(cfg, blocks, l, done, at[i]);
    LeftStep(cfg, at, i, THREADS);
  }

  lemma {:induction false} AllVisited(cfg: Config, blocks: seq<Block>, at: seq<nat>, done: set<nat>, m: bool, o: bool)
    requires Progress(cfg, at, done) && |blocks| == cfg.Ids()
    requires forall i :: 0 <= i < THREADS ==> at[i] >= Stop(cfg, i)
    ensures done * Want(cfg, blocks, m, o) == Want(cfg, blocks, m, o)
  {
    forall x | x in Want(cfg, blocks, m, o) ensures x in done {
      var i := ThreadOf(cfg, x);
    }
  }

  /** `recovery`: at each turn some thread that still has work does one list operation. Under every
      schedule each id ends in exactly one list, chosen by region and checksum validity. */
  method Recover(cfg: Config, blocks: seq<Block>) returns (l: Lists)
    requires |blocks| == cfg.Ids() && forall x :: 0 <= x < |blocks| ==> Contained(cfg, x, blocks[x])
    ensures Complete(cfg, blocks, l)
  {
    l := Lists([], [], [], []);
    var at: seq<nat> := seq(THREADS, (i: nat) => Start(cfg, i));
    ghost var done: set<nat> := {};
    while exists i :: 0 <= i < THREADS && at[i] < Stop(cfg, i)
      invariant Progress(cfg, at, done) && Filed(cfg, blocks, l, done)
      decreases Left(cfg, at, THREADS)
    {
      var i :| 0 <= i < THREADS && at[i] < Stop(cfg, i);
      Turn(cfg, blocks, l, at, done, i);
      l := File(cfg, blocks, l, at[i]);
      done := done + {at[i]};
      at := at[i := at[i] + 1];
    }
    AllVisited(cfg, blocks, at, done, false, false);
    AllVisited(cfg, blocks, at, done, true, false);
    AllVisited(cfg, blocks, at, done, false, true);
    AllVisited(cfg, blocks, at, done, true, true);
  }

  /** Schedule independence: any two schedules build the same four concrete lists. */
  lemma {:induction false} ScheduleIrrelevant(cfg: Config, blocks: seq<Block>, a: Lists, b: Lists)
    requires Complete(cfg, blocks, a) && Complete(cfg, blocks, b)
    ensures a == b
  {
    CanonicalUnique(a.free, b.free);
    CanonicalUnique(a.metaFree, b.metaFree);
    CanonicalUnique(a.objs, b.objs);
    CanonicalUnique(a.metaObjs, b.metaObjs);
  }

  // ---- what the scan takes for an object ----

  /** The scan has filed `x` as an object of its region, or as free. */
  ghost predicate FiledAs(cfg: Config, l: Lists, x: nat, occupied: bool) {
    && (x in Ids(if x < cfg.total then l.objs else l.metaObjs) <==> occupied)
    && (x in Ids(if x < cfg.total then l.free else l.metaFree) <==> !occupied)
  }

  /** A block found with the checksum of the object `a`, whatever else a crash has left of it, is filed as an object
      exactly when it still is that object. */
  lemma {:induction false} TornBlockFiled(cfg: Config, blocks: seq<Block>, l: Lists, x: nat, a: Block)
    requires |blocks| == cfg.Ids() && 0 < x < |blocks| && Complete(cfg, blocks, l)
    requires Intact(cfg, x, a) && Contained(cfg, x, blocks[x]) && blocks[x].flch == a.flch && Discerns(cfg, a, blocks[x])
    ensures FiledAs(cfg, l, x, SameObject(cfg, x, a, blocks[x]))
  {
    IntactExactly(cfg, x, a, blocks[x]);
    assert Belongs(cfg, blocks, x >= cfg.total, !ScannedFree(cfg, blocks, x), x);
  }

  /** One byte of key or value changed under the checksum: the scan frees the block. */
  lemma {:induction false} OneByteFreed(cfg: Config, blocks: seq<Block>, l: Lists, x: nat, b: Block, i: nat, v: Byte)
    requires |blocks| == cfg.Ids() && 0 < x < |blocks| && Complete(cfg, blocks, l)
    requires Contained(cfg, x, b) && i < |b.body| && InObject(cfg, x, b.hdr, i) && v != b.body[i]
    requires blocks[x] == Sealed(cfg, x, b).(body := b.body[i := v]) && Discerns(cfg, Sealed(cfg, x, b), blocks[x])
    ensures FiledAs(cfg, l, x, false)
  {
    ByteDiffers(cfg, x, Sealed(cfg, x, b), blocks[x], i);
    TornBlockFiled(cfg, blocks, l, x, Sealed(cfg, x, b));
  }

  /** A crash inside execute, after a payload was copied and before the metadata pass: the scan frees the block
      exactly when the copy has changed a byte of the old value. */
  lemma {:induction false} HalfPatchedFiled(cfg: Config, blocks: seq<Block>, l: Lists, x: nat, a: Block, op: Op)
    requires |blocks| == cfg.Ids() && 0 < x < cfg.total && Complete(cfg, blocks, l)
    requires Intact(cfg, x, a) && Hits(op, x) && Fits(cfg, op) && blocks[x] == Stamp(cfg, a, op) && Discerns(cfg, a, blocks[x])
    ensures FiledAs(cfg, l, x, Value(cfg, x, blocks[x]) == Value(cfg, x, a))
  {
    OverlayKeepsRange(a.body, cfg.maxKey + op.offset, op.payload, 0, cfg.maxKey);
    assert a.body[0..cfg.maxKey] == a.body[..cfg.maxKey] && blocks[x].body[0..cfg.maxKey] == blocks[x].body[..cfg.maxKey];
    StampKeepsKey(cfg, a, op);
    TornBlockFiled(cfg, blocks, l, x, a);
  }

  // ---- a new store ----

  /** The empty branch of `pmb_open`: both lists are seeded from id 1 before `populate_free_list` pushes every id to its
      region. Without meta blocks the meta list is NULL; with them the result is exactly this, so the two lists always
      share ids. In both cases the data list holds id `total`, which is the first meta id or no block at all. */
  method FreshLists(cfg: Config) returns (free: seq<Range>, metaFree: Option<seq<Range>>)
    ensures Canonical(free) && (forall x: nat :: x in Ids(free) <==> 0 < x <= cfg.total)
    ensures metaFree.None? <==> cfg.meta == 0
    ensures metaFree.Some? ==>
              && Canonical(metaFree.value)
              && (forall x: nat :: x in Ids(metaFree.value) <==> 0 < x <= cfg.meta || cfg.total <= x < cfg.Ids())
              && cfg.total in Ids(free) * Ids(metaFree.value)
    ensures cfg.total in Ids(free) && (cfg.meta == 0 ==> cfg.total >= cfg.Ids())
  {
    free, metaFree := [Range(1, cfg.total)], if cfg.meta == 0 then None else Some([Range(1, cfg.meta)]);
    OneRange(1, cfg.total);
    if cfg.meta > 0 { OneRange(1, cfg.meta); }
    var pos := cfg.Ids() - 1;
    while pos > 0
      invariant 0 <= pos < cfg.Ids() && SeededData(cfg, free)
      invariant metaFree.None? <==> cfg.meta == 0
      invariant metaFree.Some? ==> SeededMeta(cfg, metaFree.value, pos)
    {
      if pos <= cfg.total - 1 {
        PushInserts(free, pos);
        free := Push(free, pos);
      } else if metaFree.Some? {
        PushInserts(metaFree.value, pos);
        metaFree := Some(Push(metaFree.value, pos));
      }
      pos := pos - 1;
    }
  }

  lemma {:induction false} OneRange(lo: nat, hi: nat)
    requires 1 <= lo <= hi
    ensures Canonical([Range(lo, hi)]) && forall x: nat :: x in Ids([Range(lo, hi)]) <==> lo <= x <= hi
  {
    var list := [Range(lo, hi)];
    assert list[1..] == [];
    assert forall x: nat :: x in Ids(list) <==> Within(list[0], x);
  }

  ghost predicate SeededData(cfg: Config, free: seq<Range>) {
    Canonical(free) && forall x: nat :: x in Ids(free) <==> 0 < x <= cfg.total
  }

  /** The meta list once all ids above `pos` have been pushed. */
  ghost predicate SeededMeta(cfg: Config, metaFree: seq<Range>, pos: nat) {
    Canonical(metaFree)
    && forall x: nat :: x in Ids(metaFree) <==> 0 < x <= cfg.meta || (cfg.total <= x < cfg.Ids() && pos < x)
  }

  /** What that does to a new store with a meta region: the first data put and the first meta put are handed the same
      block, and the two lists hold more ids than the store has, so conservation cannot hold. Region-consistent
      lists come only from the reopen path. */
  lemma {:induction false} FirstPutsCollide(cfg: Config, free: seq<Range>, metaFree: seq<Range>)
    requires cfg.meta > 0 && Canonical(free) && Canonical(metaFree)
    requires forall x: nat :: x in Ids(free) <==> 0 < x <= cfg.total
    requires forall x: nat :: x in Ids(metaFree) <==> 0 < x <= cfg.meta || cfg.total <= x < cfg.Ids()
    ensures Pop(free).0 == Pop(metaFree).0 == Some(1)
    ensures Total(free) + Total(metaFree) > cfg.Ids() - 1
  {
    assert 1 in Ids(free) && 1 in Ids(metaFree);
    LowestIsOne(free);
    LowestIsOne(metaFree);
    AtLeast(free, 1, cfg.total);
    AtLeast(metaFree, cfg.total, cfg.Ids() - 1);
  }

  lemma {:induction false} LowestIsOne(list: seq<Range>)
    requires Canonical(list) && 1 in Ids(list)
    ensures Pop(list).0 == Some(1)
  {
    PopTakesMinimum(list);
  }

  lemma {:induction false} AtLeast(list: seq<Range>, lo: nat, hi: nat)
    requires Canonical(list) && lo <= hi + 1 && forall x: nat :: lo <= x <= hi ==> x in Ids(list)
    ensures Total(list) >= hi - lo + 1
  {
    TotalCounts(list);
    SpanSize(lo, hi);
    SubsetCount(Span(Range(lo, hi)), Ids(list));
  }

  lemma {:induction false} SubsetCount(a: set<nat>, b: set<nat>)
    requires a <= b
    ensures |a| <= |b|
  {
    assert a + (b - a) == b;
  }

  /** The reopen path does give an empty store: all blocks dead, each in the list of its region. */
  lemma {:induction false} EmptyStoreFiled(cfg: Config, blocks: seq<Block>, l: Lists)
    requires |blocks| == cfg.Ids() && Complete(cfg, blocks, l) && forall x :: 0 < x < |blocks| ==> !Live(blocks[x])
    ensures forall x :: x in Ids(l.free) + Ids(l.metaFree) <==> 0 < x < cfg.Ids()
    ensures forall x :: x in Ids(l.free) ==> x < cfg.total
    ensures forall x :: x in Ids(l.metaFree) ==> x >= cfg.total
    ensures l.objs == [] && l.metaObjs == []
  {
    forall x | 0 < x < cfg.Ids() ensures x in Ids(l.free) + Ids(l.metaFree) {
      assert Belongs(cfg, blocks, x >= cfg.total, false, x);
    }
    forall x ensures x !in Want(cfg, blocks, false, true) && x !in Want(cfg, blocks, true, true) {}
    NonemptyIds(l.objs);
    NonemptyIds(l.metaObjs);
  }

  // ---- the iterator ----

  /** An iterator over one region: the object list it consumes and its current position. */
  class Iterator {
    var list: seq<Range>
    var pos: nat

    constructor (list: seq<Range>, pos: nat)
      ensures this.list == list && this.pos == pos
    {
      this.list, this.pos := list, pos;
    }

    /** `pmb_iter_next`: the next lowest id, or position 0 and an error. */
    method Next() returns (err: nat)
      modifies this
      ensures list == Pop(old(list)).1
      ensures err == (if old(list) == [] then 1 else 0)
      ensures pos == if old(list) == [] then 0 else Pop(old(list)).0.value
    {
      var (v, rest) := Pop(list);
      list := rest;
      if v.None? {
        pos := 0;
        return 1;
      }
      pos := v.value;
      return 0;
    }

    /** `pmb_iter_valid` */
    predicate Usable()
      reads this
    {
      pos != 0
    }
  }

  /** `pmb_iter_open`: NULL exactly when the region has no object. */
  method Open(list: seq<Range>) returns (it: Iterator?)
    requires Canonical(list)
    ensures it == null <==> Ids(list) == {}
    ensures it != null ==> fresh(it) && it.list == Pop(list).1 && it.pos == Pop(list).0.value && it.Usable()
  {
    PopTakesMinimum(list);
    var (v, rest) := Pop(list);
    if v.None? {
      return null;
    }
    it := new Iterator(rest, v.value);
  }

  ghost predicate Ascending(s: seq<nat>) {
    forall i, j :: 0 <= i < j < |s| ==> s[i] < s[j]
  }

  /** Mid-iteration: what was visited, the current position, and what the list still holds. */
  ghost predicate Walk(list: seq<Range>, visited: seq<nat>, rest: seq<Range>, pos: nat) {
    && Canonical(rest) && Ascending(visited) && (pos == 0 ==> rest == [])
    && Ids(list) == Elements(visited) + Ids(rest) + (if pos == 0 then {} else {pos})
    && (pos != 0 ==> (forall x :: x in Ids(rest) ==> pos < x) && forall x :: x in visited ==> x < pos)
  }

  lemma {:induction false} WalkStep(list: seq<Range>, visited: seq<nat>, rest: seq<Range>, pos: nat)
    requires Walk(list, visited, rest, pos) && pos != 0
    ensures Walk(list, visited + [pos], Pop(rest).1, if rest == [] then 0 else Pop(rest).0.value)
    ensures rest != [] ==> Total(Pop(rest).1) < Total(rest)
  {
    PopTakesMinimum(rest);
    NonemptyIds(rest);
    if rest != [] { PopTotal(rest); }
    assert Elements(visited + [pos]) == Elements(visited) + {pos};
    forall i, j | 0 <= i < j < |visited + [pos]| ensures (visited + [pos])[i] < (visited + [pos])[j] {
      if j == |visited| { assert visited[i] in visited; }
    }
  }

  /** Iterator completeness: the open/valid/get/next loop visits every id of the list exactly once, in
      strictly ascending order, and then becomes invalid. */
  method VisitAll(list: seq<Range>) returns (visited: seq<nat>, it: Iterator?)
    requires Canonical(list)
    ensures Ascending(visited) && Elements(visited) == Ids(list)
    ensures it != null ==> !it.Usable()
  {
    visited := [];
    it := Open(list);
    if it == null {
      return;
    }
    PopTakesMinimum(list);
    while it.Usable()
      invariant Walk(list, visited, it.list, it.pos)
      decreases it.pos != 0, Total(it.list) + if it.pos == 0 then 0 else 1
    {
      WalkStep(list, visited, it.list, it.pos);
      visited := visited + [it.pos];
      var err := it.Next();
    }
  }
}
