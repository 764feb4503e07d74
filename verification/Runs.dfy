/** What holds over whole runs: any interleaving of transactions, with crashes anywhere. */
module Runs {
  import opened Words
  import opened Blocks
  import opened TxLog
  import opened InPlace
  import opened Machine
  import opened MachineProofs
  import opened Crash
  import Ranges
  import Layout

  /** A step, or a crash followed by the source's restart with the given outcomes of the checksum tests and the
      given entries read in the slots. */
  datatype Event = Act(a: Action) | PowerLoss(sums: seq<bool>, seen: seq<seq<Op>>)

  /** A crash may come at any point the restart survives; `Crash.WalkExact` shows that these are all of them. */
  ghost predicate Possible(cfg: Config, s: Sys, e: Event) {
    match e
    case Act(a) => Can(cfg, s, a)
    case PowerLoss(sums, seen) =>
      |sums| == |s.txs| && Sighted(s.txs, seen) && Short(s.txs) && Survivable(cfg, s, sums, seen, FirstWalked(|s.txs|))
  }

  ghost function After(cfg: Config, s: Sys, e: Event): Sys
    requires Shaped(cfg, s) && Possible(cfg, s, e)
  {
    match e
    case Act(a) => Do(cfg, s, a)
    case PowerLoss(sums, seen) => Restarted(cfg, s, CheckedBlocks(cfg, s, sums, seen))
  }

  ghost predicate Reaches(cfg: Config, s: Sys, es: seq<Event>, r: Sys)
    decreases |es|
  {
    if es == [] then r == s
    else Shaped(cfg, s) && Possible(cfg, s, es[0]) && Reaches(cfg, After(cfg, s, es[0]), es[1..], r)
  }

  lemma {:induction false} EventKeeps(cfg: Config, s: Sys, e: Event)
    requires Inv(cfg, s) && Possible(cfg, s, e)
    ensures Inv(cfg, After(cfg, s, e))
  {
    match e
    case Act(a) => StepKeeps(cfg, s, a);
    case PowerLoss(sums, seen) =>
      var start := FirstWalked(|s.txs|);
      WalkExact(cfg, s, sums, seen, start);
      AllContainedSlots(cfg, s.blocks, Sighting(s.txs, sums, seen), start, |s.txs|);
      RestartKeeps(cfg, s, CheckedBlocks(cfg, s, sums, seen));
  }

  /** Every state any run reaches from an empty store satisfies the invariant. */
  lemma {:induction false} RunKeeps(cfg: Config, s: Sys, es: seq<Event>, r: Sys)
    requires Inv(cfg, s) && Reaches(cfg, s, es, r)
    ensures Inv(cfg, r)
    decreases |es|
  {
    if es != [] {
      EventKeeps(cfg, s, es[0]);
      RunKeeps(cfg, After(cfg, s, es[0]), es[1..], r);
    }
  }

  /** A run of one step, and of two. */
  lemma {:induction false} OneStep(cfg: Config, s: Sys, a: Action, r: Sys)
    requires Reaches(cfg, s, [Act(a)], r)
    ensures Shaped(cfg, s) && Can(cfg, s, a) && r == Do(cfg, s, a)
  {
    assert [Act(a)][1..] == [];
    assert Reaches(cfg, Do(cfg, s, a), [], r);
  }

  lemma {:induction false} StepRun(cfg: Config, s: Sys, a: Action)
    requires Shaped(cfg, s) && Can(cfg, s, a)
    ensures Reaches(cfg, s, [Act(a)], Do(cfg, s, a))
  {
    assert [Act(a)][1..] == [];
    assert Reaches(cfg, Do(cfg, s, a), [], Do(cfg, s, a));
  }

  lemma {:induction false} TwoSteps(cfg: Config, s: Sys, a: Action, b: Action, r: Sys)
    requires Reaches(cfg, s, [Act(a), Act(b)], r)
    ensures Shaped(cfg, s) && Can(cfg, s, a)
    ensures var m := Do(cfg, s, a); Shaped(cfg, m) && Can(cfg, m, b) && r == Do(cfg, m, b)
  {
    assert [Act(a), Act(b)][1..] == [Act(b)];
    OneStep(cfg, Do(cfg, s, a), b, r);
  }

  lemma {:induction false} RunTwo(cfg: Config, s: Sys, a: Action, b: Action)
    requires Shaped(cfg, s) && Can(cfg, s, a) && Shaped(cfg, Do(cfg, s, a)) && Can(cfg, Do(cfg, s, a), b)
    ensures Reaches(cfg, s, [Act(a), Act(b)], Do(cfg, Do(cfg, s, a), b))
  {
    assert [Act(a), Act(b)][1..] == [Act(b)];
    StepRun(cfg, Do(cfg, s, a), b);
  }

  lemma {:induction false} Shift(es: seq<Event>, fs: seq<Event>)
    requires es != []
    ensures es + fs != [] && (es + fs)[0] == es[0] && (es + fs)[1..] == es[1..] + fs
  {
  }

  lemma {:induction false} Extend(cfg: Config, s: Sys, es: seq<Event>, r: Sys, e: Event)
    requires Reaches(cfg, s, es, r) && Shaped(cfg, r) && Possible(cfg, r, e)
    ensures Reaches(cfg, s, es + [e], After(cfg, r, e))
    decreases |es|
  {
    if es == [] {
      assert (es + [e])[1..] == [];
    } else {
      Shift(es, [e]);
      Extend(cfg, After(cfg, s, es[0]), es[1..], r, e);
    }
  }

  lemma {:induction false} ExtendTo(cfg: Config, s: Sys, es: seq<Event>, m: Sys, a: Action, fs: seq<Event>, r: Sys)
    requires Reaches(cfg, s, es, m) && Shaped(cfg, m) && Can(cfg, m, a) && r == Do(cfg, m, a) && fs == es + [Act(a)]
    ensures Reaches(cfg, s, fs, r)
  {
    Extend(cfg, s, es, m, Act(a));
  }

  lemma {:induction false} Join(cfg: Config, s: Sys, es: seq<Event>, m: Sys, fs: seq<Event>, r: Sys)
    requires Reaches(cfg, s, es, m) && Reaches(cfg, m, fs, r)
    ensures Reaches(cfg, s, es + fs, r)
    decreases |es|
  {
    if es == [] {
      assert es + fs == fs;
    } else {
      Shift(es, fs);
      Join(cfg, After(cfg, s, es[0]), es[1..], m, fs, r);
    }
  }

  /** Crash all-or-nothing over every run: wherever the run is cut, however the checksum tests come out and whatever
      the stride reads in the slots, the walk leaves live exactly the objects of the transactions committed so far
      if and only if `Survivable` holds there. `start` is 0 for a walk over all slots and 1 for the source's. */
  lemma {:induction false} AllOrNothing(cfg: Config, s: Sys, es: seq<Event>, r: Sys, sums: seq<bool>, seen: seq<seq<Op>>, start: nat)
    requires Init(cfg, s) && Reaches(cfg, s, es, r)
    requires |sums| == |seen| == |r.txs| && start <= |r.txs| && Short(r.txs)
    ensures LiveMap(WalkedSeen(cfg, r, sums, seen, start)) == r.db <==> Survivable(cfg, r, sums, seen, start)
  {
    InitHolds(cfg, s);
    RunKeeps(cfg, s, es, r);
    WalkExact(cfg, r, sums, seen, start);
  }

  /** In particular nothing is lost where the tests come out right, no begin is in progress, no committed log has
      in-place entries and no open log a payload. */
  lemma {:induction false} OrderlySurvives(cfg: Config, s: Sys, sums: seq<bool>)
    requires Inv(cfg, s) && Orderly(s, sums) && Legible(s.txs, 0) && Short(s.txs)
    ensures LiveMap(Walked(cfg, s, sums, 0)) == s.db && Survivable(cfg, s, sums, Written(s.txs), 0)
  {
    OrderlyRestorable(s, sums);
    WrittenExact(cfg, s, sums, 0);
    WrittenSurvivable(cfg, s, sums, 0);
  }

  // ---- who changes the committed objects ----

  ghost predicate SameIn(a: map<nat, Block>, b: map<nat, Block>, x: nat) {
    (x in a <==> x in b) && (x in a ==> b[x] == a[x])
  }

  /** The event commits, or takes back, a log that names `x`. */
  ghost predicate Decides(s: Sys, e: Event, x: nat) {
    && e.Act? && e.a.i < |s.txs| && Mentions(s.txs[e.a.i].log, x)
    && (e.a.Commit? || (e.a.Abort? && s.txs[e.a.i].status.Commited?))
  }

  ghost predicate DecidedIn(cfg: Config, s: Sys, es: seq<Event>, x: nat)
    decreases |es|
  {
    es != [] && Shaped(cfg, s) && Possible(cfg, s, es[0])
    && (Decides(s, es[0], x) || DecidedIn(cfg, After(cfg, s, es[0]), es[1..], x))
  }

  lemma {:induction false} DecidedStep(cfg: Config, s: Sys, e: Event, x: nat)
    requires Inv(cfg, s) && Possible(cfg, s, e) && !Decides(s, e, x)
    ensures SameIn(s.db, After(cfg, s, e).db, x)
  {
    if e.Act? && e.a.Commit? {
      assert s.txs[e.a.i].status.Processing?;
    } else if e.Act? && !e.a.Abort? {
      assert Do(cfg, s, e.a).db == s.db;
    }
  }

  /** A committed object changes over a run only if the run commits, or takes back, a log that names it: no step
      of execute, abort or restart, and no other transaction, does. */
  lemma {:induction false} CommittedChangesOnlyByCommit(cfg: Config, s: Sys, es: seq<Event>, r: Sys, x: nat)
    requires Inv(cfg, s) && Reaches(cfg, s, es, r) && !SameIn(s.db, r.db, x)
    ensures DecidedIn(cfg, s, es, x)
    decreases |es|
  {
    if es != [] && !Decides(s, es[0], x) {
      EventKeeps(cfg, s, es[0]);
      DecidedStep(cfg, s, es[0], x);
      CommittedChangesOnlyByCommit(cfg, After(cfg, s, es[0]), es[1..], r, x);
    }
  }

  /** Close and reopen over every run: once all transactions have ended, a scan finds the running store's
      live objects and free ids. */
  lemma {:induction false} ReopenAfterRun(cfg: Config, s: Sys, es: seq<Event>, r: Sys)
    requires Init(cfg, s) && Reaches(cfg, s, es, r)
    requires forall i :: 0 <= i < |r.txs| ==> r.txs[i].status.Empty? && r.txs[i].hand == 0
    ensures LiveMap(r.blocks) == r.db
    ensures forall x :: x in r.free <==> ScannedFree(cfg, r.blocks, x)
  {
    InitHolds(cfg, s);
    RunKeeps(cfg, s, es, r);
    ReopenRebuilds(cfg, r);
  }

  // ---- conservation ----

  /** A block some transaction holds: popped, written but not committed, or obsolete but not yet zeroed. */
  ghost predicate InProgress(s: Sys, t: Tx, x: nat)
    requires t.pc <= |t.log| && x < |s.blocks|
  {
    || t.hand == x
    || (t.status.Processing? && News(t.log, x))
    || (t.status.Aborted? && News(t.log, x) && !News(t.log[..t.pc], x))
    || (t.status.Commited? && Targets(t.log, x) && Live(s.blocks[x]))
  }

  ghost predicate Pending(cfg: Config, s: Sys, x: nat)
    requires Shaped(cfg, s)
  {
    0 < x < |s.blocks| && exists i :: 0 <= i < |s.txs| && InProgress(s, s.txs[i], x)
  }

  lemma {:induction false} ConservationAt(cfg: Config, s: Sys, x: nat)
    requires Inv(cfg, s) && 0 < x < |s.blocks|
    ensures x in s.free <==> x !in s.db && !Pending(cfg, s, x)
    ensures x in s.db ==> !Pending(cfg, s, x)
  {
    assert IdOK(cfg, s, x);
    forall i | 0 <= i < |s.txs|
      ensures InProgress(s, s.txs[i], x) ==> Touches(s.txs[i], x) && x !in s.db && x !in s.free
      ensures Touches(s.txs[i], x) && !InProgress(s, s.txs[i], x) ==> (x in s.free <==> x !in s.db)
    {
      assert TxOK(cfg, s, i);
      InProgressAt(cfg, s, i, x);
    }
    if Pending(cfg, s, x) {
      var i :| 0 <= i < |s.txs| && InProgress(s, s.txs[i], x);
    } else if exists i :: 0 <= i < |s.txs| && Touches(s.txs[i], x) {
      var i :| 0 <= i < |s.txs| && Touches(s.txs[i], x);
      assert !InProgress(s, s.txs[i], x);
    }
  }

  lemma {:induction false} InProgressAt(cfg: Config, s: Sys, i: nat, x: nat)
    requires Shaped(cfg, s) && i < |s.txs| && TxOK(cfg, s, i) && 0 < x < |s.blocks|
    requires Touches(s.txs[i], x) ==> Owned(cfg, s, s.txs[i], x)
    ensures InProgress(s, s.txs[i], x) ==> Touches(s.txs[i], x) && x !in s.db && x !in s.free
    ensures Touches(s.txs[i], x) && !InProgress(s, s.txs[i], x) ==> (x in s.free <==> x !in s.db)
  {
  }

  ghost function PendingIds(cfg: Config, s: Sys): set<nat>
    requires Shaped(cfg, s)
  {
    set x | 0 < x < |s.blocks| && Pending(cfg, s, x)
  }

  /** The ids of one region: `[1, total)` for data, `[total, total + meta)` for meta. */
  ghost predicate InRegion(cfg: Config, meta: bool, x: nat) {
    if meta then cfg.total <= x < cfg.Ids() else 0 < x < cfg.total
  }

  ghost function Only(cfg: Config, meta: bool, ids: set<nat>): set<nat> {
    set x | x in ids && InRegion(cfg, meta, x)
  }

  /** How many ids a region has (`pmb_ntotal`). */
  function RegionSize(cfg: Config, meta: bool): nat { if meta then cfg.meta else cfg.total - 1 }

  /** Free ids, committed ids and ids held by open transactions are pairwise disjoint, make up all ids, and
      in each region add up to the region's size. */
  ghost predicate Conserved(cfg: Config, s: Sys)
    requires Shaped(cfg, s)
  {
    var free, live, held := s.free, s.db.Keys, PendingIds(cfg, s);
    && free !! live !! held
    && (forall x :: x in free + live + held <==> 0 < x < |s.blocks|)
    && forall meta :: |Only(cfg, meta, free)| + |Only(cfg, meta, live)| + |Only(cfg, meta, held)| == RegionSize(cfg, meta)
  }

  lemma {:induction false} InvConserves(cfg: Config, s: Sys)
    requires Inv(cfg, s)
    ensures Conserved(cfg, s)
  {
    forall x | 0 < x < |s.blocks|
      ensures x in s.free <==> x !in s.db && x !in PendingIds(cfg, s)
      ensures x in s.db ==> x !in PendingIds(cfg, s)
    {
      ConservationAt(cfg, s, x);
    }
    forall meta
      ensures |Only(cfg, meta, s.free)| + |Only(cfg, meta, s.db.Keys)| + |Only(cfg, meta, PendingIds(cfg, s))| == RegionSize(cfg, meta)
    {
      RegionCounts(cfg, meta, s.free, s.db.Keys, PendingIds(cfg, s));
    }
  }

  lemma {:induction false} RegionCounts(cfg: Config, meta: bool, a: set<nat>, b: set<nat>, c: set<nat>)
    requires forall x :: 0 < x < cfg.Ids() ==> (x in a <==> x !in b && x !in c) && (x in b ==> x !in c)
    ensures |Only(cfg, meta, a)| + |Only(cfg, meta, b)| + |Only(cfg, meta, c)| == RegionSize(cfg, meta)
  {
    var lo, hi := if meta then cfg.total else 1, if meta then cfg.Ids() - 1 else cfg.total - 1;
    var r := Ranges.Range(lo, hi);
    var a', b', c' := Only(cfg, meta, a), Only(cfg, meta, b), Only(cfg, meta, c);
    Ranges.SpanSize(lo, hi);
    assert forall x :: x in Ranges.Span(r) <==> Ranges.Within(r, x);
    assert Ranges.Span(r) == a' + b' + c';
    assert |a' + b'| == |a'| + |b'| && |a' + b' + c'| == |a' + b'| + |c'|;
  }

  /** Block conservation over every run: no block is lost and none is counted twice. */
  lemma {:induction false} Conservation(cfg: Config, s: Sys, es: seq<Event>, r: Sys)
    requires Init(cfg, s) && Reaches(cfg, s, es, r)
    ensures Shaped(cfg, r) && Conserved(cfg, r)
  {
    InitHolds(cfg, s);
    RunKeeps(cfg, s, es, r);
    InvConserves(cfg, r);
  }

  // ---- containment ----

  /** Everything block `b` holds and everything its checksum covers is inside the extent of `x`. */
  ghost predicate Inside(cfg: Config, p: Layout.Pool, x: nat, b: Block)
    requires x < p.Ids()
  {
    && Layout.HDR + |b.body| == Layout.BlockExtent(p, x).len
    && Covered(cfg, x, b.hdr) <= |b.body| && b.hdr.keyLen + b.hdr.valLen <= |b.body|
    && (x < cfg.total ==> b.hdr.valLen <= cfg.maxVal)
  }

  /** Containment over every run on a carved pool: each object's header sizes, covered bytes and body stay
      inside its own rounded-up block. */
  lemma {:induction false} Containment(cfg: Config, p: Layout.Pool, s: Sys, es: seq<Event>, r: Sys)
    requires 0 < p.dataBlocks
    requires p.bsize == Layout.RoundUp(Layout.HDR + cfg.maxKey + cfg.maxVal)
    requires p.metaBsize == Layout.RoundUp(Layout.HDR + cfg.metaMaxKey + cfg.metaMaxVal)
    requires cfg == Configure(p, cfg.maxKey, cfg.maxVal, cfg.metaMaxKey, cfg.metaMaxVal, cfg.sum)
    requires Init(cfg, s) && Reaches(cfg, s, es, r)
    ensures |r.blocks| == p.Ids() && forall x :: 0 <= x < |r.blocks| ==> Inside(cfg, p, x, r.blocks[x])
  {
    InitHolds(cfg, s);
    RunKeeps(cfg, s, es, r);
    Layout.RoundUpFacts(Layout.HDR + cfg.maxKey + cfg.maxVal);
    Layout.RoundUpFacts(Layout.HDR + cfg.metaMaxKey + cfg.metaMaxVal);
    forall x | 0 <= x < |r.blocks| ensures Inside(cfg, p, x, r.blocks[x]) {
      assert Contained(cfg, x, r.blocks[x]);
    }
  }

  /** A block removed more than once in one log is freed once: the later entry changes nothing. */
  lemma {:induction false} RemovedTwiceFreedOnce(cfg: Config, s: Sys, i: nat)
    requires Inv(cfg, s) && Can(cfg, s, Exec(i))
    requires var t := s.txs[i]; 0 < OldOf(t.log[t.pc]) < |s.blocks| && Targets(t.log[..t.pc], OldOf(t.log[t.pc]))
    ensures Do(cfg, s, Exec(i)).blocks == s.blocks && Do(cfg, s, Exec(i)).free == s.free
  {
    var t := s.txs[i];
    var x := OldOf(t.log[t.pc]);
    assert Targets(t.log, x);
    NewsOwned(cfg, s, i, x);
    assert TxOK(cfg, s, i);
  }

  // ---- isolation and write-ahead ----

  /** Put, delete, commit and starting an abort; not the entries of execute and abort. */
  predicate Staging(a: Action) { !a.Exec? && !a.Restamp? && !a.ExecDone? && !a.Undo? && !a.AbortDone? }

  lemma {:induction false} StagingKeepsLive(cfg: Config, s: Sys, a: Action, x: nat)
    requires Inv(cfg, s) && Can(cfg, s, a) && Staging(a) && Get(s.blocks, x).Some?
    ensures Get(Do(cfg, s, a).blocks, x) == Get(s.blocks, x)
  {
    if a.Fill? || a.Seal? {
      var t := s.txs[a.i];
      assert TxOK(cfg, s, a.i);
      NewsOwned(cfg, s, a.i, t.fill);
    }
  }

  /** Isolation: until something is executed or undone, no run of puts, deletes and commits by any
      transactions changes what `pmb_get` returns for an id that was live. */
  lemma {:induction false} Isolation(cfg: Config, s: Sys, es: seq<Event>, r: Sys, x: nat)
    requires Inv(cfg, s) && Reaches(cfg, s, es, r) && Get(s.blocks, x).Some?
    requires forall k :: 0 <= k < |es| ==> es[k].Act? && Staging(es[k].a)
    ensures Get(r.blocks, x) == Get(s.blocks, x)
    decreases |es|
  {
    if es != [] {
      EventKeeps(cfg, s, es[0]);
      StagingKeepsLive(cfg, s, es[0].a, x);
      Isolation(cfg, After(cfg, s, es[0]), es[1..], r, x);
    }
  }

  /** Write-ahead: a step changes bytes of a block only if the block's id is already in an open log. */
  lemma {:induction false} WriteAhead(cfg: Config, s: Sys, a: Action, x: nat)
    requires Inv(cfg, s) && Can(cfg, s, a) && x < |s.blocks|
    requires Do(cfg, s, a).blocks[x] != s.blocks[x]
    ensures Mentions(s.txs[a.i].log, x)
  {
    assert TxOK(cfg, s, a.i);
    WriteAheadTx(cfg, s, a, x);
  }

  lemma {:induction false} WriteAheadTx(cfg: Config, s: Sys, a: Action, x: nat)
    requires Shaped(cfg, s) && Can(cfg, s, a) && x < |s.blocks| && TxOK(cfg, s, a.i)
    requires Do(cfg, s, a).blocks[x] != s.blocks[x]
    ensures Mentions(s.txs[a.i].log, x)
  {
    var t := s.txs[a.i];
    match a
    case Exec(i) => ExecWritesOwn(cfg, s, i, x);
    case Undo(i) => assert x == NewOf(t.log[t.pc]);
    case ExecDone(i) => assert x in t.table;
    case _ =>
  }

  lemma {:induction false} ExecWritesOwn(cfg: Config, s: Sys, i: nat, x: nat)
    requires Shaped(cfg, s) && i < |s.txs| && s.txs[i].pc < |s.txs[i].log| && x < |s.blocks|
    requires ExecOne(cfg, s, i).blocks[x] != s.blocks[x]
    ensures Mentions(s.txs[i].log, x)
  {
    var op := s.txs[i].log[s.txs[i].pc];
    assert Fits(cfg, op);
    assert x == OldOf(op) || x == PatchOf(op);
  }

  // ---- abort is the inverse ----

  /** Compared with `s0`, transaction `i` has at most taken free blocks, written them and logged. */
  ghost predicate Since(s0: Sys, s: Sys, i: nat) {
    && i < |s.txs| && OnlyTx(s0, s, i)
    && (forall j :: j != i ==> (j in s.freeSlots <==> j in s0.freeSlots))
    && forall x :: 0 < x < |s.blocks| ==> SinceAt(s0, s, i, x)
  }

  ghost predicate SinceAt(s0: Sys, s: Sys, i: nat, x: nat)
    requires i < |s.txs| && x < |s0.blocks| == |s.blocks|
  {
    && (x in s0.free <==> x in s.free || s.txs[i].hand == x || News(s.txs[i].log, x))
    && (s.txs[i].hand == x || News(s.txs[i].log, x) ==> !Live(s0.blocks[x]))
    && (!News(s.txs[i].log, x) ==> s.blocks[x] == s0.blocks[x])
  }

  /** A step transaction `i` can make between begin and the end of abort. */
  predicate Revocable(i: nat, a: Action) {
    a.i == i && !a.Begin? && !a.Exec? && !a.Restamp? && !a.ExecDone? && !a.AbortDone?
  }

  lemma {:induction false} SinceStep(cfg: Config, s0: Sys, s: Sys, i: nat, a: Action)
    requires Inv(cfg, s0) && Inv(cfg, s) && Since(s0, s, i) && Can(cfg, s, a) && Revocable(i, a)
    ensures Since(s0, Do(cfg, s, a), i)
  {
    var r := Do(cfg, s, a);
    assert TxOK(cfg, s, i);
    forall x | 0 < x < |s.blocks| ensures SinceAt(s0, r, i, x) {
      if x in s0.free { FreeIsDead(cfg, s0, x); }
      SinceStepAt(cfg, s0, s, i, a, x);
    }
  }

  lemma {:induction false} SinceStepAt(cfg: Config, s0: Sys, s: Sys, i: nat, a: Action, x: nat)
    requires Shaped(cfg, s) && |s0.blocks| == |s.blocks| && 0 < x < |s.blocks| && i < |s.txs| && TxOK(cfg, s, i)
    requires Can(cfg, s, a) && Revocable(i, a) && SinceAt(s0, s, i, x) && (x in s0.free ==> !Live(s0.blocks[x]))
    ensures SinceAt(s0, Do(cfg, s, a), i, x)
  {
    var t := s.txs[i];
    match a
    case LogNew(_, op) => MentionsAppend(t.log, op, x);
    case LogDel(_, y) => MentionsAppend(t.log, Remove(y), x);
    case LogPatch(_, op) => MentionsAppend(t.log, op, x);
    case Undo(_) => assert x == NewOf(t.log[t.pc]) ==> News(t.log, x);
    case _ =>
  }

  lemma {:induction false} FreeIsDead(cfg: Config, s: Sys, x: nat)
    requires Inv(cfg, s) && x in s.free
    ensures !Live(s.blocks[x])
  {
    assert IdOK(cfg, s, x);
    if exists i :: 0 <= i < |s.txs| && Touches(s.txs[i], x) {
      var i :| 0 <= i < |s.txs| && Touches(s.txs[i], x);
      assert Owned(cfg, s, s.txs[i], x) && TxOK(cfg, s, i);
    }
  }

  lemma {:induction false} SinceRun(cfg: Config, s0: Sys, s: Sys, i: nat, es: seq<Event>, r: Sys)
    requires Inv(cfg, s0) && Inv(cfg, s) && Since(s0, s, i) && Reaches(cfg, s, es, r)
    requires forall k :: 0 <= k < |es| ==> es[k].Act? && Revocable(i, es[k].a)
    ensures Inv(cfg, r) && Since(s0, r, i)
    decreases |es|
  {
    if es != [] {
      EventKeeps(cfg, s, es[0]);
      SinceStep(cfg, s0, s, i, es[0].a);
      SinceRun(cfg, s0, After(cfg, s, es[0]), i, es[1..], r);
    }
  }

  /** Abort is the inverse of the transaction so far: after begin, any puts and deletes, possibly commit,
      and abort to its end, the live objects and the free ids are those held at begin, and the slot is
      empty, free and forgets its log. */
  lemma {:induction false} AbortRestores(cfg: Config, s0: Sys, i: nat, es: seq<Event>, s: Sys, r: Sys)
    requires Inv(cfg, s0) && Can(cfg, s0, Begin(i)) && Reaches(cfg, Do(cfg, s0, Begin(i)), es, s)
    requires forall k :: 0 <= k < |es| ==> es[k].Act? && Revocable(i, es[k].a)
    requires Reaches(cfg, s, [Act(AbortDone(i)), Act(Shrink(i))], r)
    ensures r.free == s0.free && LiveMap(r.blocks) == LiveMap(s0.blocks)
    ensures r.txs == s0.txs[i := IDLE] && r.freeSlots == s0.freeSlots
  {
    BeginKeeps(cfg, s0, i);
    SinceBegin(cfg, s0, i);
    SinceRun(cfg, s0, Do(cfg, s0, Begin(i)), i, es, s);
    TwoSteps(cfg, s, AbortDone(i), Shrink(i), r);
    var m := Do(cfg, s, AbortDone(i));
    SinceEnd(cfg, s0, s, i, m);
    assert r.txs == s0.txs[i := IDLE];
  }

  lemma {:induction false} SinceBegin(cfg: Config, s0: Sys, i: nat)
    requires Inv(cfg, s0) && Can(cfg, s0, Begin(i))
    ensures Since(s0, Do(cfg, s0, Begin(i)), i)
  {
  }

  lemma {:induction false} SinceEnd(cfg: Config, s0: Sys, s: Sys, i: nat, r: Sys)
    requires Inv(cfg, s0) && Inv(cfg, s) && Since(s0, s, i) && i in s0.freeSlots
    requires Can(cfg, s, AbortDone(i)) && r == Do(cfg, s, AbortDone(i))
    ensures r.free == s0.free && LiveMap(r.blocks) == LiveMap(s0.blocks)
    ensures r.txs == s0.txs[i := Idle(s.txs[i].log)] && r.freeSlots == s0.freeSlots
  {
    forall x | 0 < x < |s.blocks|
      ensures x in s.free <==> x in s0.free
      ensures Live(s.blocks[x]) <==> Live(s0.blocks[x])
      ensures Live(s.blocks[x]) ==> s.blocks[x] == s0.blocks[x]
    {
      assert SinceAt(s0, s, i, x);
      if News(s.txs[i].log, x) {
        NewsOwned(cfg, s, i, x);
        MentionsAll(s.txs[i].log, x);
      }
    }
    assert LiveMap(s.blocks) == LiveMap(s0.blocks);
    assert r.freeSlots == s0.freeSlots;
    assert r.txs == s0.txs[i := Idle(s.txs[i].log)];
  }

  // ---- abort among other transactions ----

  /** Nothing transaction `i` does, short of execute, changes a block its log names but did not create; and nobody
      else may. */
  lemma {:induction false} TargetStep(cfg: Config, s: Sys, i: nat, x: nat, a: Action)
    requires Inv(cfg, s) && Can(cfg, s, a) && i < |s.txs| && 0 < x < |s.blocks|
    requires Mentions(s.txs[i].log, x) && !News(s.txs[i].log, x)
    requires a.i == i ==> Revocable(i, a)
    ensures Do(cfg, s, a).blocks[x] == s.blocks[x]
  {
    assert Touches(s.txs[i], x);
    if a.i == i {
      assert TxOK(cfg, s, i);
      if a.Undo? { assert News(s.txs[i].log, NewOf(s.txs[i].log[s.txs[i].pc])) || NewOf(s.txs[i].log[s.txs[i].pc]) == 0; }
    } else if Do(cfg, s, a).blocks[x] != s.blocks[x] {
      WriteAhead(cfg, s, a, x);
      assert false;
    }
  }

  lemma {:induction false} NamedStep(cfg: Config, s: Sys, i: nat, x: nat, a: Action)
    requires Inv(cfg, s) && Can(cfg, s, a) && i < |s.txs| && 0 < x < |s.blocks|
    requires Mentions(s.txs[i].log, x) && !News(s.txs[i].log, x)
    requires a.i == i ==> Revocable(i, a)
    ensures Mentions(Do(cfg, s, a).txs[i].log, x) && !News(Do(cfg, s, a).txs[i].log, x)
  {
    if a.i == i {
      match a
      case LogNew(_, op) => MentionsAppend(s.txs[i].log, op, x); HandNotNamed(cfg, s, i, x);
      case LogDel(_, y) => MentionsAppend(s.txs[i].log, Remove(y), x);
      case LogPatch(_, op) => MentionsAppend(s.txs[i].log, op, x);
      case _ =>
    } else {
      OtherSlots(cfg, s, a, i);
    }
  }

  lemma {:induction false} HandNotNamed(cfg: Config, s: Sys, i: nat, x: nat)
    requires Inv(cfg, s) && i < |s.txs| && Mentions(s.txs[i].log, x) && 0 < x < |s.blocks|
    ensures s.txs[i].hand != x
  {
    NewsOwned(cfg, s, i, x);
  }

  lemma {:induction false} SameSizes(cfg: Config, s: Sys, a: Action)
    requires Shaped(cfg, s) && Can(cfg, s, a)
    ensures |Do(cfg, s, a).blocks| == |s.blocks| && |Do(cfg, s, a).txs| == |s.txs|
  {
  }

  lemma {:induction false} TargetRun(cfg: Config, s: Sys, i: nat, x: nat, es: seq<Event>, r: Sys)
    requires Inv(cfg, s) && i < |s.txs| && 0 < x < |s.blocks| && Mentions(s.txs[i].log, x) && !News(s.txs[i].log, x)
    requires Reaches(cfg, s, es, r) && forall k :: 0 <= k < |es| ==> es[k].Act? && (es[k].a.i == i ==> Revocable(i, es[k].a))
    ensures Inv(cfg, r) && x < |r.blocks| && r.blocks[x] == s.blocks[x]
    decreases |es|
  {
    if es != [] {
      var m := After(cfg, s, es[0]);
      EventKeeps(cfg, s, es[0]);
      TargetStep(cfg, s, i, x, es[0].a);
      NamedStep(cfg, s, i, x, es[0].a);
      SameSizes(cfg, s, es[0].a);
      TargetRun(cfg, m, i, x, es[1..], r);
    }
  }

  /** Abort with any other transactions stepping in between: at its end every block the transaction created is dead
      and free, and every other block its log named at some point `s` is as it was then. */
  lemma {:induction false} AbortInterleaved(cfg: Config, s: Sys, i: nat, es: seq<Event>, r: Sys)
    requires Inv(cfg, s) && i < |s.txs| && Reaches(cfg, s, es, r)
    requires forall k :: 0 <= k < |es| ==> es[k].Act? && (es[k].a.i == i ==> Revocable(i, es[k].a))
    requires Shaped(cfg, r) && Can(cfg, r, AbortDone(i))
    ensures var q := Do(cfg, r, AbortDone(i));
            && (forall x :: 0 < x < |r.blocks| && News(r.txs[i].log, x) ==> !Live(q.blocks[x]) && x in q.free && x !in q.db)
            && (forall x :: 0 < x < |s.blocks| && Mentions(s.txs[i].log, x) && !News(s.txs[i].log, x) ==>
                  x < |q.blocks| && q.blocks[x] == s.blocks[x])
  {
    RunKeeps(cfg, s, es, r);
    forall x | 0 < x < |r.blocks| && News(r.txs[i].log, x) ensures !Live(r.blocks[x]) && x in r.free && x !in r.db {
      NewsOwned(cfg, r, i, x);
      MentionsAll(r.txs[i].log, x);
      assert TxOK(cfg, r, i);
    }
    forall x | 0 < x < |s.blocks| && Mentions(s.txs[i].log, x) && !News(s.txs[i].log, x)
      ensures x < |r.blocks| && r.blocks[x] == s.blocks[x]
    {
      TargetRun(cfg, s, i, x, es, r);
    }
  }

  // ---- slot life cycle ----

  /** The moves a slot's status can make. */
  predicate Legal(before: Status, after: Status) {
    match before
    case Empty => after.Processing?
    case Processing => after.Commited? || after.Aborted?
    case Commited => after.Empty? || after.Aborted?
    case Aborted => after.Empty?
  }

  /** Slot ownership: free slot ids are exactly the empty slots, every step moves only its own slot and only
      along the life cycle, and appends happen only in PROCESSING. */
  lemma {:induction false} SlotLifeCycle(cfg: Config, s: Sys, a: Action, j: nat)
    requires Inv(cfg, s) && Can(cfg, s, a) && j < |s.txs|
    ensures var r := Do(cfg, s, a);
            && (j in r.freeSlots <==> r.txs[j].status.Empty?)
            && (r.txs[j].status != s.txs[j].status ==> j == a.i && Legal(s.txs[j].status, r.txs[j].status))
            && (|r.txs[j].log| > |s.txs[j].log| ==> j == a.i && s.txs[j].status.Processing?)
            && (a.ExecDone? || a.AbortDone? ==> r.txs[a.i] == Idle(s.txs[a.i].log))
  {
    StepKeeps(cfg, s, a);
    assert TxOK(cfg, Do(cfg, s, a), j);
    assert TxOK(cfg, s, j);
    LifeCycleTx(cfg, s, a, j);
  }

  lemma {:induction false} LifeCycleTx(cfg: Config, s: Sys, a: Action, j: nat)
    requires Shaped(cfg, s) && Can(cfg, s, a) && j < |s.txs| && TxOK(cfg, s, j)
    ensures var r := Do(cfg, s, a);
            && (r.txs[j].status != s.txs[j].status ==> j == a.i && Legal(s.txs[j].status, r.txs[j].status))
            && (|r.txs[j].log| > |s.txs[j].log| ==> j == a.i && s.txs[j].status.Processing?)
            && (a.ExecDone? || a.AbortDone? ==> r.txs[a.i] == Idle(s.txs[a.i].log))
  {
    if j != a.i {
      OtherSlots(cfg, s, a, j);
    } else if !a.Exec? && !a.Undo? {
      assert Do(cfg, s, a).txs[j].log == s.txs[j].log || |Do(cfg, s, a).txs[j].log| <= |s.txs[j].log| || Accepting(s.txs[j]);
    }
  }

  lemma {:induction false} OtherSlots(cfg: Config, s: Sys, a: Action, j: nat)
    requires Shaped(cfg, s) && Can(cfg, s, a) && j < |s.txs| && j != a.i
    ensures |Do(cfg, s, a).txs| == |s.txs| && Do(cfg, s, a).txs[j] == s.txs[j]
  {
  }
}
