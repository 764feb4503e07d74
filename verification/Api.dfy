/** What one call of the store interface does, as a run of machine steps. The class in Store is proved
    against these effects. */
module Api {
  import opened Words
  import opened Blocks
  import opened TxLog
  import opened InPlace
  import opened Machine
  import opened MachineProofs
  import opened Runs

  /** An appended entry. */
  function WithEntry(s: Sys, i: nat, op: Op): Sys
    requires i < |s.txs|
  {
    WithTx(s, i, s.txs[i].(log := s.txs[i].log + [op]))
  }

  /** A copy-on-write put that succeeded: block `x` taken, logged, filled and sealed as `b`. */
  function NewBlock(s: Sys, i: nat, x: nat, op: Op, b: Block): Sys
    requires i < |s.txs| && x < |s.blocks|
  {
    WithEntry(s, i, op).(blocks := s.blocks[x := b], free := s.free - {x})
  }

  /** The entry a put of `x` over `prev` logs. */
  function PutOp(prev: nat, x: nat): Op { if prev == 0 then Write(x) else Update(prev, x) }

  ghost predicate CanPut(cfg: Config, s: Sys, i: nat, prev: nat, x: nat, b: Block) {
    && i < |s.txs| && Accepting(s.txs[i]) && Quiescent(s.txs[i])
    && x in s.free && 0 < x < U64 && !Mentioned(s, x)
    && x < |s.blocks| && Contained(cfg, x, b) && b.flch == 0
    && (prev != 0 ==> prev < U64 && Get(s.blocks, prev).Some? && !Others(s, i, prev) && !Patches(s.txs[i].log, prev))
  }

  /** The steps of a copy-on-write put. */
  function PutRun(i: nat, x: nat, op: Op, b: Block): seq<Event> {
    [Act(Take(i, x)), Act(LogNew(i, op)), Act(Fill(i, b)), Act(Seal(i))]
  }

  /** A put after its append: the block is logged and about to be filled. */
  function PutLogged(s: Sys, i: nat, x: nat, op: Op): Sys
    requires i < |s.txs|
  {
    WithTx(s, i, s.txs[i].(log := s.txs[i].log + [op], hand := 0, fill := x)).(free := s.free - {x})
  }

  lemma {:induction false} TakeAndLog(cfg: Config, s: Sys, i: nat, prev: nat, x: nat, b: Block)
    requires Inv(cfg, s) && CanPut(cfg, s, i, prev, x, b)
    ensures var r := PutLogged(s, i, x, PutOp(prev, x));
            Inv(cfg, r) && !Live(r.blocks[x]) && Reaches(cfg, s, [Act(Take(i, x)), Act(LogNew(i, PutOp(prev, x)))], r)
  {
    var op := PutOp(prev, x);
    var s1 := Do(cfg, s, Take(i, x));
    TakeKeeps(cfg, s, i, x);
    FreshBlock(cfg, s, i, prev, x, b);
    LogNewKeeps(cfg, s1, i, op);
    var r := Do(cfg, s1, LogNew(i, op));
    assert r == PutLogged(s, i, x, op);
    RunTwo(cfg, s, Take(i, x), LogNew(i, op));
  }

  lemma {:induction false} FillAndSeal(cfg: Config, s: Sys, i: nat, b: Block)
    requires Inv(cfg, s) && i < |s.txs| && 0 < s.txs[i].fill < |s.blocks|
    requires Contained(cfg, s.txs[i].fill, b) && b.flch == s.blocks[s.txs[i].fill].flch
    ensures var x := s.txs[i].fill;
            var r := WithTx(s, i, s.txs[i].(fill := 0)).(blocks := s.blocks[x := Sealed(cfg, x, b)]);
            Inv(cfg, r) && Reaches(cfg, s, [Act(Fill(i, b)), Act(Seal(i))], r)
  {
    var x := s.txs[i].fill;
    var s1 := Do(cfg, s, Fill(i, b));
    FillKeeps(cfg, s, i, b);
    SealKeeps(cfg, s1, i);
    var r := Do(cfg, s1, Seal(i));
    assert s.blocks[x := b][x := Sealed(cfg, x, b)] == s.blocks[x := Sealed(cfg, x, b)];
    RunTwo(cfg, s, Fill(i, b), Seal(i));
  }

  /** A put is the run take, log, fill, seal; so it keeps the invariant. */
  lemma {:induction false} PutIsRun(cfg: Config, s: Sys, i: nat, prev: nat, x: nat, b: Block)
    requires Inv(cfg, s) && CanPut(cfg, s, i, prev, x, b)
    ensures var r := NewBlock(s, i, x, PutOp(prev, x), Sealed(cfg, x, b));
            Inv(cfg, r) && Reaches(cfg, s, PutRun(i, x, PutOp(prev, x), b), r)
  {
    var op := PutOp(prev, x);
    var m, r := PutLogged(s, i, x, op), NewBlock(s, i, x, op, Sealed(cfg, x, b));
    TakeAndLog(cfg, s, i, prev, x, b);
    FillAndSeal(cfg, m, i, b);
    assert r.txs == WithTx(m, i, m.txs[i].(fill := 0)).txs;
    Join(cfg, s, [Act(Take(i, x)), Act(LogNew(i, op))], m, [Act(Fill(i, b)), Act(Seal(i))], r);
    assert [Act(Take(i, x)), Act(LogNew(i, op))] + [Act(Fill(i, b)), Act(Seal(i))] == PutRun(i, x, op, b);
  }

  /** The block in hand is dead, is not the block being replaced, and is unknown to everybody else. */
  lemma {:induction false} FreshBlock(cfg: Config, s: Sys, i: nat, prev: nat, x: nat, b: Block)
    requires Inv(cfg, s) && CanPut(cfg, s, i, prev, x, b) && Inv(cfg, Do(cfg, s, Take(i, x)))
    ensures !Live(s.blocks[x]) && prev != x
    ensures prev != 0 ==> !Others(Do(cfg, s, Take(i, x)), i, prev)
  {
    var s1 := Do(cfg, s, Take(i, x));
    assert Touches(s1.txs[i], x);
    assert IdOK(cfg, s1, x);
    assert Owned(cfg, s1, s1.txs[i], x);
    assert forall j :: 0 <= j < |s.txs| && j != i ==> s1.txs[j] == s.txs[j];
  }

  // ---- execute and abort as loops ----

  /** The state after the first `n` entries of execute. */
  ghost function ExecPrefix(cfg: Config, s: Sys, i: nat, n: nat): (r: Sys)
    requires Shaped(cfg, s) && i < |s.txs| && s.txs[i].pc == 0 && n <= |s.txs[i].log|
    ensures Shaped(cfg, r) && OnlyTx(s, r, i)
    ensures r.txs[i] == s.txs[i].(pc := n, table := r.txs[i].table) && r.freeSlots == s.freeSlots && r.db == s.db
    decreases n
  {
    if n == 0 then s
    else ExecOne(cfg, ExecPrefix(cfg, s, i, n - 1), i)
  }

  lemma {:induction false} ExecStep(cfg: Config, s: Sys, i: nat, n: nat)
    requires Shaped(cfg, s) && i < |s.txs| && s.txs[i].status.Commited? && s.txs[i].pc == 0 && n < |s.txs[i].log|
    ensures var m := ExecPrefix(cfg, s, i, n); Can(cfg, m, Exec(i)) && Do(cfg, m, Exec(i)) == ExecPrefix(cfg, s, i, n + 1)
  {
  }

  /** The state after the first `n` entries of abort. */
  ghost function UndoPrefix(cfg: Config, s: Sys, i: nat, n: nat): (r: Sys)
    requires Shaped(cfg, s) && i < |s.txs| && s.txs[i].pc == 0 && n <= |s.txs[i].log|
    ensures Shaped(cfg, r) && OnlyTx(s, r, i)
    ensures r.txs[i] == s.txs[i].(pc := n) && r.freeSlots == s.freeSlots && r.db == s.db
    decreases n
  {
    if n == 0 then s
    else UndoOneShaped(cfg, UndoPrefix(cfg, s, i, n - 1), i); UndoOne(UndoPrefix(cfg, s, i, n - 1), i)
  }

  lemma {:induction false} UndoOneShaped(cfg: Config, s: Sys, i: nat)
    requires Shaped(cfg, s) && i < |s.txs| && s.txs[i].pc < |s.txs[i].log|
    ensures Shaped(cfg, UndoOne(s, i))
  {
    var x := NewOf(s.txs[i].log[s.txs[i].pc]);
    if 0 < x < |s.blocks| { ZeroContained(cfg, x, s.blocks[x]); }
  }

  lemma {:induction false} UndoStep(cfg: Config, s: Sys, i: nat, n: nat)
    requires Shaped(cfg, s) && i < |s.txs| && s.txs[i].pc == 0 && n < |s.txs[i].log|
    ensures UndoPrefix(cfg, s, i, n + 1) == UndoOne(UndoPrefix(cfg, s, i, n), i)
  {
  }

  /** The whole of `tx_slot_execute`. It leaves the slot's size, and with it the log, in place. */
  ghost function ExecutedOpen(cfg: Config, s: Sys, i: nat): Sys
    requires Shaped(cfg, s) && i < |s.txs| && s.txs[i].pc == 0
  {
    var e := ExecPrefix(cfg, s, i, |s.txs[i].log|);
    WithTx(s, i, Idle(s.txs[i].log)).(blocks := SettleAll(cfg, e.blocks, e.txs[i].table), free := e.free)
  }

  /** Execute, and the return of the slot. */
  ghost function Executed(cfg: Config, s: Sys, i: nat): Sys
    requires Shaped(cfg, s) && i < |s.txs| && s.txs[i].pc == 0
  {
    var o := ExecutedOpen(cfg, s, i);
    o.(freeSlots := o.freeSlots + {i})
  }

  lemma {:induction false} ExecutedIsDone(cfg: Config, s: Sys, i: nat)
    requires Shaped(cfg, s) && i < |s.txs| && s.txs[i].pc == 0 && s.txs[i].status.Commited? && Quiescent(s.txs[i])
    ensures var e := ExecPrefix(cfg, s, i, |s.txs[i].log|);
            Can(cfg, e, ExecDone(i)) && Do(cfg, e, ExecDone(i)) == Executed(cfg, s, i)
  {
    var e := ExecPrefix(cfg, s, i, |s.txs[i].log|);
    assert WithTx(e, i, Idle(s.txs[i].log)).txs == WithTx(s, i, Idle(s.txs[i].log)).txs;
  }

  /** The state once abort has marked the slot. */
  ghost function Revoked(s: Sys, i: nat): Sys
    requires i < |s.txs|
  {
    WithTx(s, i, s.txs[i].(status := Aborted))
      .(db := if s.txs[i].status.Processing? then s.db else RollbackDb(s, s.txs[i].log))
  }

  // ---- abort as a list of blocks ----

  /** The blocks the entries of a log make abort zero and return, 0 for none. */
  function NewIds(log: seq<Op>): (ids: seq<nat>)
    ensures |ids| == |log| && forall k :: 0 <= k < |log| ==> ids[k] == NewOf(log[k])
  {
    seq(|log|, k requires 0 <= k < |log| => NewOf(log[k]))
  }

  function ZapAll(blocks: seq<Block>, ids: seq<nat>): (r: seq<Block>)
    ensures |r| == |blocks|
  {
    if ids == [] then blocks else Zap(ZapAll(blocks, ids[..|ids| - 1]), ids[|ids| - 1])
  }

  ghost function IdSet(ids: seq<nat>): (r: set<nat>) { set x | x in ids && x != 0 }

  /** A marked slot after an abort that zeroes and returns the given blocks. */
  ghost function AbortedOver(s: Sys, i: nat, ids: seq<nat>): Sys
    requires i < |s.txs|
  {
    WithTx(s, i, IDLE).(blocks := ZapAll(s.blocks, ids), free := s.free + IdSet(ids))
  }

  lemma {:induction false} UndoIsZapAll(cfg: Config, s: Sys, i: nat, n: nat)
    requires Shaped(cfg, s) && i < |s.txs| && s.txs[i].pc == 0 && n <= |s.txs[i].log|
    ensures UndoPrefix(cfg, s, i, n).blocks == ZapAll(s.blocks, NewIds(s.txs[i].log)[..n])
    ensures UndoPrefix(cfg, s, i, n).free == s.free + IdSet(NewIds(s.txs[i].log)[..n])
    decreases n
  {
    var ids := NewIds(s.txs[i].log);
    if n > 0 {
      UndoIsZapAll(cfg, s, i, n - 1);
      UndoStep(cfg, s, i, n - 1);
      UndoZapStep(s.blocks, s.free, ids, n - 1, UndoPrefix(cfg, s, i, n - 1), UndoPrefix(cfg, s, i, n), i);
    }
  }

  lemma {:induction false} UndoZapStep(blocks: seq<Block>, free: set<nat>, ids: seq<nat>, k: nat, p: Sys, q: Sys, i: nat)
    requires i < |p.txs| && p.txs[i].pc < |p.txs[i].log| && k < |ids| && ids[k] == NewOf(p.txs[i].log[p.txs[i].pc])
    requires p.blocks == ZapAll(blocks, ids[..k]) && p.free == free + IdSet(ids[..k]) && q == UndoOne(p, i)
    ensures q.blocks == ZapAll(blocks, ids[..k + 1]) && q.free == free + IdSet(ids[..k + 1])
  {
    ZapAllStep(blocks, ids, k);
  }

  lemma {:induction false} ZapAllStep(blocks: seq<Block>, ids: seq<nat>, k: nat)
    requires k < |ids|
    ensures ZapAll(blocks, ids[..k + 1]) == Zap(ZapAll(blocks, ids[..k]), ids[k])
    ensures IdSet(ids[..k + 1]) == IdSet(ids[..k]) + if ids[k] == 0 then {} else {ids[k]}
  {
    assert ids[..k + 1][..k] == ids[..k] && ids[..k + 1] == ids[..k] + [ids[k]];
  }

  /** The rest of `tx_slot_abort`, once the slot is marked. */
  ghost function RolledBackOpen(cfg: Config, s: Sys, i: nat): Sys
    requires Shaped(cfg, s) && i < |s.txs| && s.txs[i].pc == 0
  {
    var e := UndoPrefix(cfg, s, i, |s.txs[i].log|);
    WithTx(s, i, IDLE).(blocks := e.blocks, free := e.free)
  }

  /** The same, and the return of the slot. */
  ghost function RolledBack(cfg: Config, s: Sys, i: nat): Sys
    requires Shaped(cfg, s) && i < |s.txs| && s.txs[i].pc == 0
  {
    var o := RolledBackOpen(cfg, s, i);
    o.(freeSlots := o.freeSlots + {i})
  }

  lemma {:induction false} RolledBackOver(cfg: Config, s: Sys, i: nat)
    requires Shaped(cfg, s) && i < |s.txs| && s.txs[i].pc == 0
    ensures RolledBackOpen(cfg, s, i) == AbortedOver(s, i, NewIds(s.txs[i].log))
  {
    var ids := NewIds(s.txs[i].log);
    UndoIsZapAll(cfg, s, i, |ids|);
    assert ids[..|ids|] == ids;
  }

  lemma {:induction false} RolledBackIsDone(cfg: Config, s: Sys, i: nat)
    requires Shaped(cfg, s) && i < |s.txs| && s.txs[i].pc == 0 && s.txs[i].status.Aborted? && Quiescent(s.txs[i])
    ensures var e := UndoPrefix(cfg, s, i, |s.txs[i].log|);
            && Can(cfg, e, AbortDone(i)) && Shaped(cfg, Do(cfg, e, AbortDone(i)))
            && Do(cfg, Do(cfg, e, AbortDone(i)), Shrink(i)) == RolledBack(cfg, s, i)
  {
    var e := UndoPrefix(cfg, s, i, |s.txs[i].log|);
    assert WithTx(WithTx(e, i, Idle(s.txs[i].log)), i, IDLE).txs == WithTx(s, i, IDLE).txs;
  }

  /** States one entry of execute apart. */
  ghost predicate ExecLink(cfg: Config, p: Sys, q: Sys, i: nat, log: seq<Op>) {
    Shaped(cfg, p) && i < |p.txs| && p.txs[i].log == log && p.txs[i].pc < |log| && q == ExecOne(cfg, p, i)
  }

  ghost predicate ExecChain(cfg: Config, ps: seq<Sys>, i: nat, log: seq<Op>) {
    forall k :: 0 <= k < |ps| - 1 ==> ExecLink(cfg, ps[k], ps[k + 1], i, log)
  }

  lemma {:induction false} ExecStates(cfg: Config, s: Sys, i: nat, n: nat) returns (ps: seq<Sys>)
    requires Shaped(cfg, s) && i < |s.txs| && s.txs[i].pc == 0 && n <= |s.txs[i].log|
    ensures |ps| == n + 1 && ps[0] == s && ps[n] == ExecPrefix(cfg, s, i, n) && ExecChain(cfg, ps, i, s.txs[i].log)
    decreases n
  {
    if n == 0 {
      ps := [s];
    } else {
      var front := ExecStates(cfg, s, i, n - 1);
      ExecUnfold(cfg, s, i, n - 1);
      ps := front + [ExecPrefix(cfg, s, i, n)];
      ExecChainGrows(cfg, front, i, s.txs[i].log, ExecPrefix(cfg, s, i, n));
    }
  }

  lemma {:induction false} ExecChainGrows(cfg: Config, ps: seq<Sys>, i: nat, log: seq<Op>, r: Sys)
    requires ps != [] && ExecChain(cfg, ps, i, log) && ExecLink(cfg, ps[|ps| - 1], r, i, log)
    ensures ExecChain(cfg, ps + [r], i, log)
  {
    var qs := ps + [r];
    forall k | 0 <= k < |qs| - 1 ensures ExecLink(cfg, qs[k], qs[k + 1], i, log) {
      if k < |ps| - 1 { assert qs[k] == ps[k] && qs[k + 1] == ps[k + 1]; }
    }
  }

  lemma {:induction false} ExecChainFrame(cfg: Config, ps: seq<Sys>, i: nat, log: seq<Op>, n: nat, x: nat)
    requires n < |ps| && ExecChain(cfg, ps, i, log) && i < |ps[0].txs| && x < |ps[0].blocks| && !Targets(log, x) && !Patches(log, x)
    ensures |ps[n].blocks| == |ps[0].blocks| && i < |ps[n].txs|
    ensures ps[n].blocks[x] == ps[0].blocks[x] && (x in ps[n].txs[i].table ==> x in ps[0].txs[i].table)
    decreases n
  {
    if n > 0 {
      ExecChainFrame(cfg, ps, i, log, n - 1, x);
      assert ExecLink(cfg, ps[n - 1], ps[n - 1 + 1], i, log);
      ExecOneFrame(cfg, ps[n - 1], ps[n], i, log, x);
    }
  }

  /** Execute changes no block its log does not name as obsolete or to be patched. */
  lemma {:induction false} ExecPrefixFrame(cfg: Config, s: Sys, i: nat, n: nat, x: nat)
    requires Shaped(cfg, s) && i < |s.txs| && s.txs[i].pc == 0 && n <= |s.txs[i].log| && x < |s.blocks|
    requires !Targets(s.txs[i].log, x) && !Patches(s.txs[i].log, x)
    ensures ExecPrefix(cfg, s, i, n).blocks[x] == s.blocks[x] && (x in ExecPrefix(cfg, s, i, n).txs[i].table ==> x in s.txs[i].table)
  {
    var ps := ExecStates(cfg, s, i, n);
    ExecChainFrame(cfg, ps, i, s.txs[i].log, n, x);
  }

  lemma {:induction false} ExecUnfold(cfg: Config, s: Sys, i: nat, n: nat)
    requires Shaped(cfg, s) && i < |s.txs| && s.txs[i].pc == 0 && n < |s.txs[i].log|
    ensures ExecPrefix(cfg, s, i, n + 1) == ExecOne(cfg, ExecPrefix(cfg, s, i, n), i)
  {
  }

  lemma {:induction false} ExecOneFrame(cfg: Config, p: Sys, q: Sys, i: nat, log: seq<Op>, x: nat)
    requires Shaped(cfg, p) && i < |p.txs| && p.txs[i].log == log && p.txs[i].pc < |log| && x < |p.blocks|
    requires !Targets(log, x) && !Patches(log, x) && q == ExecOne(cfg, p, i)
    ensures |q.blocks| == |p.blocks| && i < |q.txs|
    ensures q.blocks[x] == p.blocks[x] && (x in q.txs[i].table ==> x in p.txs[i].table)
  {
    var op := p.txs[i].log[p.txs[i].pc];
    assert Fits(cfg, op);
    assert x != OldOf(op) || x == 0;
    assert x != PatchOf(op) || x == 0;
  }

  lemma {:induction false} ExecutedFrame(cfg: Config, s: Sys, i: nat, x: nat)
    requires Shaped(cfg, s) && i < |s.txs| && s.txs[i].pc == 0 && s.txs[i].table == map[] && x < |s.blocks|
    requires !Targets(s.txs[i].log, x) && !Patches(s.txs[i].log, x)
    ensures Executed(cfg, s, i).blocks[x] == s.blocks[x]
  {
    ExecPrefixFrame(cfg, s, i, |s.txs[i].log|, x);
  }

  /** Abort changes no block it is not told to zero. */
  lemma {:induction false} ZapAllAt(cfg: Config, blocks: seq<Block>, ids: seq<nat>, x: nat)
    requires 0 < x < |blocks| && forall y :: 0 <= y < |blocks| ==> Contained(cfg, y, blocks[y])
    ensures forall y :: 0 <= y < |blocks| ==> Contained(cfg, y, ZapAll(blocks, ids)[y])
    ensures if x in ids then !Live(ZapAll(blocks, ids)[x]) else ZapAll(blocks, ids)[x] == blocks[x]
  {
    if ids != [] {
      var front, last := ids[..|ids| - 1], ids[|ids| - 1];
      ZapAllAt(cfg, blocks, front, x);
      var mid := ZapAll(blocks, front);
      if 0 < last < |blocks| { ZeroContained(cfg, last, mid[last]); }
      assert ids == front + [last];
    }
  }

  lemma {:induction false} ExecPrefixKeeps(cfg: Config, s: Sys, i: nat, n: nat)
    requires Inv(cfg, s) && i < |s.txs| && s.txs[i].status.Commited? && s.txs[i].pc == 0 && n <= |s.txs[i].log|
    ensures Inv(cfg, ExecPrefix(cfg, s, i, n))
    decreases n
  {
    if n > 0 {
      ExecPrefixKeeps(cfg, s, i, n - 1);
      ExecKeeps(cfg, ExecPrefix(cfg, s, i, n - 1), i);
    }
  }

  /** Execute, run to its end, keeps the invariant and makes every block of the transaction agree with the
      committed objects. */
  lemma {:induction false} ExecutedKeeps(cfg: Config, s: Sys, i: nat)
    requires Inv(cfg, s) && i < |s.txs| && s.txs[i].status.Commited? && s.txs[i].pc == 0 && Quiescent(s.txs[i])
    ensures Inv(cfg, Executed(cfg, s, i)) && Executed(cfg, s, i).db == s.db
    ensures forall x :: 0 < x < |s.blocks| && Mentions(s.txs[i].log, x) ==> Quiet(Executed(cfg, s, i), x)
  {
    var n := |s.txs[i].log|;
    var e := ExecPrefix(cfg, s, i, n);
    ExecPrefixKeeps(cfg, s, i, n);
    ExecutedIsDone(cfg, s, i);
    ExecDoneKeeps(cfg, e, i);
    forall x | 0 < x < |s.blocks| && Mentions(s.txs[i].log, x) ensures Quiet(Executed(cfg, s, i), x) {
      NewsOwned(cfg, e, i, x);
      DoneLocal(cfg, e, i, x);
    }
  }

  /** In-place accumulation, end to end: for a log of any number of entries, execute leaves each patched block as
      the replay of all of them, whose meaning `InPlace.ReplayMeaning` states. */
  lemma {:induction false} ExecutedReplays(cfg: Config, s: Sys, i: nat, x: nat)
    requires Inv(cfg, s) && i < |s.txs| && s.txs[i].status.Commited? && s.txs[i].pc == 0 && Quiescent(s.txs[i])
    requires 0 < x < cfg.total && Patches(s.txs[i].log, x)
    ensures Executed(cfg, s, i).blocks[x] == Replay(cfg, x, s.blocks[x], None, s.txs[i].log)
  {
    ExecutedKeeps(cfg, s, i);
    NewsOwned(cfg, s, i, x);
    assert TxOK(cfg, s, i);
    assert s.txs[i].log[0..] == s.txs[i].log;
    assert Quiet(Executed(cfg, s, i), x);
  }

  lemma {:induction false} UndoPrefixKeeps(cfg: Config, s: Sys, i: nat, n: nat)
    requires Inv(cfg, s) && i < |s.txs| && s.txs[i].status.Aborted? && s.txs[i].pc == 0 && n <= |s.txs[i].log|
    ensures Inv(cfg, UndoPrefix(cfg, s, i, n))
    decreases n
  {
    if n > 0 {
      UndoPrefixKeeps(cfg, s, i, n - 1);
      UndoKeeps(cfg, UndoPrefix(cfg, s, i, n - 1), i);
    }
  }

  lemma {:induction false} RolledBackKeeps(cfg: Config, s: Sys, i: nat)
    requires Inv(cfg, s) && i < |s.txs| && s.txs[i].status.Aborted? && s.txs[i].pc == 0 && Quiescent(s.txs[i])
    ensures Inv(cfg, RolledBack(cfg, s, i))
  {
    var n := |s.txs[i].log|;
    UndoPrefixKeeps(cfg, s, i, n);
    var e := UndoPrefix(cfg, s, i, n);
    RolledBackIsDone(cfg, s, i);
    AbortDoneKeeps(cfg, e, i);
    ShrinkKeeps(cfg, Do(cfg, e, AbortDone(i)), i);
  }
}
