/** Sequences of public calls. Each call of the store interface has an effect on the machine state, the one the
    class in Store is proved to have; here every effect is shown to be a run of machine steps, so that what holds
    over runs holds over sessions. */
module Sessions {
  import opened Words
  import opened Blocks
  import opened TxLog
  import opened InPlace
  import opened Machine
  import opened MachineProofs
  import opened Crash
  import opened Runs
  import opened Api

  /** A call that succeeded: the slot used, counted from 0, and for puts the block handed out. */
  datatype Call =
    | TxBegin(i: nat)
    | Put(i: nat, kv: Pair, x: nat)
    | PutMeta(i: nat, kv: Pair, x: nat)
    | Delete(i: nat, x: nat)
    | TxCommit(i: nat)
    | TxExecute(i: nat)
    | TxAbort(i: nat)

  /** `pmb_tput` takes the in-place path for a short write to an existing object. */
  predicate Small(cfg: Config, kv: Pair) { kv.blkId != 0 && |kv.val| < cfg.maxVal / 2 }

  function Prev(s: Sys, kv: Pair): Option<Block> { if kv.blkId == 0 then None else Get(s.blocks, kv.blkId) }

  function PatchOp(kv: Pair): Op { InPlace(kv.blkId, kv.offset, kv.val) }

  predicate PutFine(cfg: Config, s: Sys, i: nat, kv: Pair, x: nat) {
    i < |s.txs| && DataPutFits(cfg, kv) && kv.blkId < cfg.total && (Small(cfg, kv) || 0 < x < cfg.total)
  }

  predicate PutMetaFine(cfg: Config, s: Sys, i: nat, kv: Pair, x: nat) {
    i < |s.txs| && MetaPutFits(cfg, kv) && cfg.total <= x < cfg.Ids()
  }

  /** The arguments make sense to the source. */
  ghost predicate Fine(cfg: Config, s: Sys, c: Call) {
    && c.i < |s.txs|
    && match c
       case Put(i, kv, x) => PutFine(cfg, s, i, kv, x)
       case PutMeta(i, kv, x) => PutMetaFine(cfg, s, i, kv, x)
       case TxExecute(i) => s.txs[i].pc == 0
       case TxAbort(i) => s.txs[i].pc == 0
       case _ => true
  }

  /** The block a copy-on-write put writes, before its checksum. */
  ghost function NewData(cfg: Config, s: Sys, kv: Pair, x: nat): (b: Block)
    requires Shaped(cfg, s) && DataPutFits(cfg, kv) && kv.blkId < cfg.total && x < cfg.total
    ensures Contained(cfg, x, b) && b.flch == s.blocks[x].flch
  {
    FilledData(cfg, x, s.blocks[x], Prev(s, kv), kv)
  }

  ghost function NewMeta(cfg: Config, s: Sys, kv: Pair, x: nat): (b: Block)
    requires Shaped(cfg, s) && MetaPutFits(cfg, kv) && cfg.total <= x < cfg.Ids()
    ensures Contained(cfg, x, b) && b.flch == s.blocks[x].flch
  {
    FilledMeta(cfg, x, s.blocks[x], Prev(s, kv), kv)
  }

  // ---- the effect of each call ----

  function BeginEffect(s: Sys, i: nat): Sys
    requires i < |s.txs|
  {
    WithTx(s, i, IDLE.(status := Processing)).(freeSlots := s.freeSlots - {i})
  }

  ghost function PutEffect(cfg: Config, s: Sys, i: nat, kv: Pair, x: nat): Sys
    requires Shaped(cfg, s) && PutFine(cfg, s, i, kv, x)
  {
    if Small(cfg, kv) then WithEntry(s, i, PatchOp(kv))
    else NewBlock(s, i, x, PutOp(kv.blkId, x), Sealed(cfg, x, NewData(cfg, s, kv, x)))
  }

  ghost function PutMetaEffect(cfg: Config, s: Sys, i: nat, kv: Pair, x: nat): Sys
    requires Shaped(cfg, s) && PutMetaFine(cfg, s, i, kv, x)
  {
    NewBlock(s, i, x, PutOp(kv.blkId, x), Sealed(cfg, x, NewMeta(cfg, s, kv, x)))
  }

  ghost function CommitEffect(cfg: Config, s: Sys, i: nat): Sys
    requires Shaped(cfg, s) && i < |s.txs|
  {
    WithTx(s, i, s.txs[i].(status := Commited)).(db := CommitDb(cfg, s, s.txs[i].log))
  }

  /** Abort before the slot id is returned. */
  ghost function AbortOpen(cfg: Config, s: Sys, i: nat): Sys
    requires Shaped(cfg, s) && i < |s.txs| && s.txs[i].pc == 0
  {
    RevokedShaped(cfg, s, i);
    RolledBackOpen(cfg, Revoked(s, i), i)
  }

  ghost function AbortEffect(cfg: Config, s: Sys, i: nat): Sys
    requires Shaped(cfg, s) && i < |s.txs| && s.txs[i].pc == 0
  {
    var o := AbortOpen(cfg, s, i);
    o.(freeSlots := o.freeSlots + {i})
  }

  /** Abort when its stride reads `ids` as the new blocks of the log. */
  ghost function AbortRead(s: Sys, i: nat, ids: seq<nat>): Sys
    requires i < |s.txs|
  {
    AbortedOver(Revoked(s, i), i, ids)
  }

  ghost function AbortReadEffect(s: Sys, i: nat, ids: seq<nat>): Sys
    requires i < |s.txs|
  {
    var o := AbortRead(s, i, ids);
    o.(freeSlots := o.freeSlots + {i})
  }

  /** When it reads the log as it was written, that is abort. */
  lemma {:induction false} AbortReadWritten(cfg: Config, s: Sys, i: nat)
    requires Shaped(cfg, s) && i < |s.txs| && s.txs[i].pc == 0
    ensures AbortReadEffect(s, i, NewIds(s.txs[i].log)) == AbortEffect(cfg, s, i)
  {
    RevokedShaped(cfg, s, i);
    RolledBackOver(cfg, Revoked(s, i), i);
  }

  /** What the call does: each case is the effect its method of the class in Store is proved to have. */
  ghost function Effect(cfg: Config, s: Sys, c: Call): Sys
    requires Shaped(cfg, s) && Fine(cfg, s, c)
  {
    match c
    case TxBegin(i) => BeginEffect(s, i)
    case Put(i, kv, x) => PutEffect(cfg, s, i, kv, x)
    case PutMeta(i, kv, x) => PutMetaEffect(cfg, s, i, kv, x)
    case Delete(i, x) => WithEntry(s, i, Remove(x))
    case TxCommit(i) => CommitEffect(cfg, s, i)
    case TxExecute(i) => Executed(cfg, s, i)
    case TxAbort(i) => AbortEffect(cfg, s, i)
  }

  lemma {:induction false} RevokedShaped(cfg: Config, s: Sys, i: nat)
    requires Shaped(cfg, s) && i < |s.txs|
    ensures Shaped(cfg, Revoked(s, i)) && Revoked(s, i).txs[i].pc == s.txs[i].pc
  {
  }

  /** A put into a free block over `prev`, an object no other open transaction uses and this one does not patch. */
  ghost predicate PutAllowed(s: Sys, i: nat, prev: nat, x: nat)
    requires i < |s.txs|
  {
    && Accepting(s.txs[i]) && x in s.free && 0 < x < U64
    && (prev != 0 ==> prev < U64 && Get(s.blocks, prev).Some? && !Others(s, i, prev) && !Patches(s.txs[i].log, prev))
  }

  /** The call succeeds and its caller keeps the discipline: only the holder of a slot uses it, an object is used by
      one open transaction at a time, and what is deleted exists. Which block a put is handed is not up to the
      caller, so nothing is asked of it beyond being free. */
  ghost predicate Polite(cfg: Config, s: Sys, c: Call) {
    && Fine(cfg, s, c) && Quiescent(s.txs[c.i])
    && match c
       case TxBegin(i) => i in s.freeSlots
       case Put(i, kv, x) => if Small(cfg, kv) then Can(cfg, s, LogPatch(i, PatchOp(kv))) else PutAllowed(s, i, kv.blkId, x)
       case PutMeta(i, kv, x) => PutAllowed(s, i, kv.blkId, x)
       case Delete(i, x) => Can(cfg, s, LogDel(i, x)) && Get(s.blocks, x).Some?
       case TxCommit(i) => Accepting(s.txs[i])
       case TxExecute(i) => s.txs[i].status.Commited?
       case TxAbort(i) => Can(cfg, s, Abort(i))
  }

  // ---- between calls ----

  /** A slot no call is working on: every block its log makes obsolete is still there. */
  ghost predicate RestingTx(s: Sys, t: Tx) {
    && Quiescent(t) && t.pc == 0 && !t.status.Aborted? && (t.status.Processing? ==> t.stale == [])
    && forall x: nat :: Targets(t.log, x) ==> 0 < x < |s.blocks| && Live(s.blocks[x])
  }

  ghost predicate Resting(s: Sys) { forall j :: 0 <= j < |s.txs| ==> RestingTx(s, s.txs[j]) }

  /** Between calls no open log names a free block, so whatever the allocator hands out may be used. */
  lemma {:induction false} FreeNotNamed(cfg: Config, s: Sys, x: nat)
    requires Inv(cfg, s) && Resting(s) && x in s.free
    ensures !Mentioned(s, x)
  {
    assert IdOK(cfg, s, x);
    forall j | 0 <= j < |s.txs| ensures !Mentions(s.txs[j].log, x) {
      if Mentions(s.txs[j].log, x) {
        assert Touches(s.txs[j], x) && TxOK(cfg, s, j) && RestingTx(s, s.txs[j]);
        NamedNotFree(cfg, s, s.txs[j], x);
      }
    }
  }

  lemma {:induction false} NamedNotFree(cfg: Config, s: Sys, t: Tx, x: nat)
    requires 0 < x < |s.blocks| && t.pc <= |t.log| && Contained(cfg, x, s.blocks[x]) && AllFit(cfg, t.log)
    requires Owned(cfg, s, t, x) && Mentions(t.log, x) && RestingTx(s, t) && (t.status.Empty? ==> t.log == [])
    ensures x !in s.free
  {
  }

  /** What one slot's call must leave so that every slot rests. */
  lemma {:induction false} RestsStep(s: Sys, r: Sys, i: nat)
    requires Resting(s) && OnlyTx(s, r, i) && i < |s.txs| && RestingTx(r, r.txs[i])
    requires forall j, x: nat :: 0 <= j < |s.txs| && j != i && Targets(s.txs[j].log, x) && 0 < x < |s.blocks| && Live(s.blocks[x]) ==> Live(r.blocks[x])
    ensures Resting(r)
  {
    forall j | 0 <= j < |r.txs| ensures RestingTx(r, r.txs[j]) {
      if j != i { assert RestingTx(s, s.txs[j]); }
    }
  }

  lemma {:induction false} ExecuteRests(cfg: Config, s: Sys, i: nat)
    requires Inv(cfg, s) && Resting(s) && i < |s.txs| && s.txs[i].pc == 0
    ensures Resting(Executed(cfg, s, i))
  {
    var r := Executed(cfg, s, i);
    assert TxOK(cfg, s, i);
    forall j, x: nat | 0 <= j < |s.txs| && j != i && Targets(s.txs[j].log, x) && 0 < x < |s.blocks| && Live(s.blocks[x]) ensures Live(r.blocks[x]) {
      assert Touches(s.txs[j], x);
      assert !Touches(s.txs[i], x);
      ExecutedFrame(cfg, s, i, x);
    }
    RestsStep(s, r, i);
  }

  lemma {:induction false} AbortRests(cfg: Config, s: Sys, i: nat)
    requires Inv(cfg, s) && Resting(s) && i < |s.txs| && s.txs[i].pc == 0
    ensures Resting(AbortEffect(cfg, s, i))
  {
    var r, ids := AbortEffect(cfg, s, i), NewIds(s.txs[i].log);
    AbortReadWritten(cfg, s, i);
    forall j, x: nat | 0 <= j < |s.txs| && j != i && Targets(s.txs[j].log, x) && 0 < x < |s.blocks| && Live(s.blocks[x]) ensures Live(r.blocks[x]) {
      assert Touches(s.txs[j], x);
      assert !Touches(s.txs[i], x) && x !in ids;
      ZapAllAt(cfg, s.blocks, ids, x);
    }
    RestsStep(s, r, i);
  }

  lemma {:induction false} NewBlockRests(cfg: Config, s: Sys, i: nat, prev: nat, x: nat, b: Block)
    requires Resting(s) && i < |s.txs| && PutAllowed(s, i, prev, x) && x < |s.blocks| && Live(b)
    ensures Resting(NewBlock(s, i, x, PutOp(prev, x), b))
  {
    var r, op := NewBlock(s, i, x, PutOp(prev, x), b), PutOp(prev, x);
    assert RestingTx(s, s.txs[i]);
    forall y | y != 0 ensures Targets(r.txs[i].log, y) <==> Targets(s.txs[i].log, y) || y == OldOf(op) {
      MentionsAppend(s.txs[i].log, op, y);
    }
    RestsStep(s, r, i);
  }

  lemma {:induction false} EntryRests(s: Sys, i: nat, op: Op)
    requires Resting(s) && i < |s.txs| && Accepting(s.txs[i]) && (OldOf(op) != 0 ==> OldOf(op) < |s.blocks| && Live(s.blocks[OldOf(op)]))
    ensures Resting(WithEntry(s, i, op))
  {
    var r := WithEntry(s, i, op);
    assert RestingTx(s, s.txs[i]);
    forall y | y != 0 ensures Targets(r.txs[i].log, y) <==> Targets(s.txs[i].log, y) || y == OldOf(op) {
      MentionsAppend(s.txs[i].log, op, y);
    }
    RestsStep(s, r, i);
  }

  /** Every call leaves the slots at rest. */
  lemma {:induction false} CallRests(cfg: Config, s: Sys, c: Call)
    requires Inv(cfg, s) && Resting(s) && Polite(cfg, s, c)
    ensures Resting(Effect(cfg, s, c))
  {
    match c
    case TxBegin(i) => RestsStep(s, BeginEffect(s, i), i);
    case Put(i, kv, x) =>
      if Small(cfg, kv) { EntryRests(s, i, PatchOp(kv)); }
      else { NewBlockRests(cfg, s, i, kv.blkId, x, Sealed(cfg, x, NewData(cfg, s, kv, x))); }
    case PutMeta(i, kv, x) => NewBlockRests(cfg, s, i, kv.blkId, x, Sealed(cfg, x, NewMeta(cfg, s, kv, x)));
    case Delete(i, x) => EntryRests(s, i, Remove(x));
    case TxCommit(i) =>
      assert RestingTx(s, s.txs[i]);
      RestsStep(s, CommitEffect(cfg, s, i), i);
    case TxExecute(i) => ExecuteRests(cfg, s, i);
    case TxAbort(i) => AbortRests(cfg, s, i);
  }

  lemma {:induction false} InitRests(cfg: Config, s: Sys)
    requires Init(cfg, s)
    ensures Resting(s)
  {
    forall j | 0 <= j < |s.txs| ensures RestingTx(s, s.txs[j]) { assert s.txs[j] == Idle(s.txs[j].stale); }
  }

  // ---- each call is a run ----

  /** Calls between begin and execute or abort. */
  predicate Staged(c: Call) { c.Put? || c.PutMeta? || c.Delete? || c.TxCommit? }

  /** Steps of transaction `i` alone, which abort can take back. */
  predicate Withdrawable(i: nat, es: seq<Event>) {
    forall k :: 0 <= k < |es| ==> es[k].Act? && Revocable(i, es[k].a)
  }

  function Repeat(a: Action, n: nat): (es: seq<Event>)
    ensures |es| == n
  {
    seq(n, k => Act(a))
  }

  lemma {:induction false} WithdrawableJoin(i: nat, es: seq<Event>, fs: seq<Event>)
    requires Withdrawable(i, es) && Withdrawable(i, fs)
    ensures Withdrawable(i, es + fs)
  {
  }

  lemma {:induction false} RepeatStep(a: Action, n: nat)
    ensures Repeat(a, n) + [Act(a)] == Repeat(a, n + 1)
  {
  }

  /** One action over and over, through the states `ps`. */
  ghost predicate Chain(cfg: Config, ps: seq<Sys>, a: Action) {
    forall k :: 0 <= k < |ps| - 1 ==> Shaped(cfg, ps[k]) && Can(cfg, ps[k], a) && ps[k + 1] == Do(cfg, ps[k], a)
  }

  lemma {:induction false} ChainIsRun(cfg: Config, ps: seq<Sys>, a: Action, n: nat)
    requires n < |ps| && Chain(cfg, ps, a)
    ensures Reaches(cfg, ps[0], Repeat(a, n), ps[n])
    decreases n
  {
    if n == 0 {
      assert Repeat(a, 0) == [];
    } else {
      ChainIsRun(cfg, ps, a, n - 1);
      RepeatStep(a, n - 1);
      var m := ps[n - 1];
      assert Shaped(cfg, m) && Can(cfg, m, a) && ps[n - 1 + 1] == Do(cfg, m, a);
      ExtendTo(cfg, ps[0], Repeat(a, n - 1), m, a, Repeat(a, n), ps[n]);
    }
  }

  lemma {:induction false} ExecutePrefixIsRun(cfg: Config, s: Sys, i: nat, n: nat)
    requires Shaped(cfg, s) && i < |s.txs| && s.txs[i].status.Commited? && s.txs[i].pc == 0 && n <= |s.txs[i].log|
    ensures Reaches(cfg, s, Repeat(Exec(i), n), ExecPrefix(cfg, s, i, n))
  {
    var ps := ExecStates(cfg, s, i, n);
    CommittedChain(cfg, ps, i, s.txs[i].log, n);
    ChainIsRun(cfg, ps, Exec(i), n);
  }

  /** From a committed slot, the entries of execute are steps. */
  lemma {:induction false} CommittedChain(cfg: Config, ps: seq<Sys>, i: nat, log: seq<Op>, n: nat)
    requires |ps| == n + 1 && ExecChain(cfg, ps, i, log) && i < |ps[0].txs| && ps[0].txs[i].status.Commited?
    ensures Chain(cfg, ps, Exec(i))
  {
    forall k | 0 <= k < n ensures Shaped(cfg, ps[k]) && Can(cfg, ps[k], Exec(i)) && ps[k + 1] == Do(cfg, ps[k], Exec(i)) {
      StillCommitted(cfg, ps, i, log, k);
      assert ExecLink(cfg, ps[k], ps[k + 1], i, log);
    }
  }

  lemma {:induction false} StillCommitted(cfg: Config, ps: seq<Sys>, i: nat, log: seq<Op>, k: nat)
    requires k < |ps| && ExecChain(cfg, ps, i, log) && i < |ps[0].txs| && ps[0].txs[i].status.Commited?
    ensures i < |ps[k].txs| && ps[k].txs[i].status.Commited?
    decreases k
  {
    if k > 0 {
      StillCommitted(cfg, ps, i, log, k - 1);
      assert ExecLink(cfg, ps[k - 1], ps[k - 1 + 1], i, log);
    }
  }

  /** Execute is a run of its entries and the final clearing. */
  lemma {:induction false} ExecuteIsRun(cfg: Config, s: Sys, i: nat)
    requires Inv(cfg, s) && i < |s.txs| && s.txs[i].status.Commited? && s.txs[i].pc == 0 && Quiescent(s.txs[i])
    ensures Reaches(cfg, s, Repeat(Exec(i), |s.txs[i].log|) + [Act(ExecDone(i))], Executed(cfg, s, i))
  {
    var n := |s.txs[i].log|;
    ExecutePrefixIsRun(cfg, s, i, n);
    var e := ExecPrefix(cfg, s, i, n);
    ExecutedIsDone(cfg, s, i);
    Extend(cfg, s, Repeat(Exec(i), n), e, Act(ExecDone(i)));
  }

  lemma {:induction false} AbortPrefixIsRun(cfg: Config, s: Sys, i: nat, n: nat)
    requires Shaped(cfg, s) && i < |s.txs| && s.txs[i].status.Aborted? && s.txs[i].pc == 0 && n <= |s.txs[i].log|
    ensures Reaches(cfg, s, Repeat(Undo(i), n), UndoPrefix(cfg, s, i, n))
  {
    var ps := seq(n + 1, k requires 0 <= k <= n => UndoPrefix(cfg, s, i, k));
    forall k | 0 <= k < n ensures Shaped(cfg, ps[k]) && Can(cfg, ps[k], Undo(i)) && ps[k + 1] == Do(cfg, ps[k], Undo(i)) {
      UndoStep(cfg, s, i, k);
    }
    ChainIsRun(cfg, ps, Undo(i), n);
  }

  /** The end of abort: the status store, then the size store. */
  lemma {:induction false} AbortTail(cfg: Config, s: Sys, i: nat)
    requires Inv(cfg, s) && i < |s.txs| && s.txs[i].status.Aborted? && s.txs[i].pc == 0 && Quiescent(s.txs[i])
    ensures Reaches(cfg, UndoPrefix(cfg, s, i, |s.txs[i].log|), [Act(AbortDone(i)), Act(Shrink(i))], RolledBack(cfg, s, i))
  {
    var e := UndoPrefix(cfg, s, i, |s.txs[i].log|);
    UndoPrefixKeeps(cfg, s, i, |s.txs[i].log|);
    RolledBackIsDone(cfg, s, i);
    RunTwo(cfg, e, AbortDone(i), Shrink(i));
  }

  /** The rest of abort, once the slot is marked. */
  lemma {:induction false} RollbackIsRun(cfg: Config, s: Sys, i: nat)
    requires Inv(cfg, s) && i < |s.txs| && s.txs[i].status.Aborted? && s.txs[i].pc == 0 && Quiescent(s.txs[i])
    ensures Reaches(cfg, s, Repeat(Undo(i), |s.txs[i].log|) + [Act(AbortDone(i)), Act(Shrink(i))], RolledBack(cfg, s, i))
  {
    var n := |s.txs[i].log|;
    AbortPrefixIsRun(cfg, s, i, n);
    AbortTail(cfg, s, i);
    Join(cfg, s, Repeat(Undo(i), n), UndoPrefix(cfg, s, i, n), [Act(AbortDone(i)), Act(Shrink(i))], RolledBack(cfg, s, i));
  }

  lemma {:induction false} AbortIsRun(cfg: Config, s: Sys, i: nat) returns (es: seq<Event>)
    requires Inv(cfg, s) && i < |s.txs| && Can(cfg, s, Abort(i)) && s.txs[i].pc == 0
    ensures Shaped(cfg, Revoked(s, i)) && Reaches(cfg, s, es, RolledBack(cfg, Revoked(s, i), i))
  {
    var m := Revoked(s, i);
    AbortKeeps(cfg, s, i);
    assert m == Do(cfg, s, Abort(i));
    StepRun(cfg, s, Abort(i));
    RollbackIsRun(cfg, m, i);
    var fs := Repeat(Undo(i), |m.txs[i].log|) + [Act(AbortDone(i)), Act(Shrink(i))];
    Join(cfg, s, [Act(Abort(i))], m, fs, RolledBack(cfg, m, i));
    es := [Act(Abort(i))] + fs;
  }

  lemma {:induction false} BeginIsRun(cfg: Config, s: Sys, i: nat)
    requires Inv(cfg, s) && Polite(cfg, s, TxBegin(i))
    ensures Reaches(cfg, s, [Act(Begin(i)), Act(Shrink(i))], Effect(cfg, s, TxBegin(i)))
  {
    assert TxOK(cfg, s, i);
    var m := Do(cfg, s, Begin(i));
    BeginKeeps(cfg, s, i);
    RunTwo(cfg, s, Begin(i), Shrink(i));
    assert Do(cfg, m, Shrink(i)) == Effect(cfg, s, TxBegin(i));
  }

  lemma {:induction false} NewBlockIsRun(cfg: Config, s: Sys, i: nat, prev: nat, x: nat, b: Block) returns (es: seq<Event>)
    requires Inv(cfg, s) && Resting(s) && i < |s.txs| && Quiescent(s.txs[i]) && PutAllowed(s, i, prev, x)
    requires x < |s.blocks| && Contained(cfg, x, b) && b.flch == s.blocks[x].flch
    ensures Reaches(cfg, s, es, NewBlock(s, i, x, PutOp(prev, x), Sealed(cfg, x, b))) && Withdrawable(i, es)
  {
    FreeIsDead(cfg, s, x);
    FreeNotNamed(cfg, s, x);
    PutIsRun(cfg, s, i, prev, x, b);
    es := PutRun(i, x, PutOp(prev, x), b);
  }

  lemma {:induction false} StagedCallIsRun(cfg: Config, s: Sys, c: Call) returns (es: seq<Event>)
    requires Inv(cfg, s) && Resting(s) && Polite(cfg, s, c) && Staged(c)
    ensures Reaches(cfg, s, es, Effect(cfg, s, c)) && Withdrawable(c.i, es)
  {
    if c.Put? && !Small(cfg, c.kv) {
      es := NewBlockIsRun(cfg, s, c.i, c.kv.blkId, c.x, NewData(cfg, s, c.kv, c.x));
    } else if c.PutMeta? {
      es := NewBlockIsRun(cfg, s, c.i, c.kv.blkId, c.x, NewMeta(cfg, s, c.kv, c.x));
    } else {
      var a := match c case Put(i, kv, _) => LogPatch(i, PatchOp(kv)) case Delete(i, x) => LogDel(i, x) case _ => Commit(c.i);
      StepRun(cfg, s, a);
      es := [Act(a)];
    }
  }

  /** Every call by a disciplined caller is a run of machine steps. */
  lemma {:induction false} CallIsRun(cfg: Config, s: Sys, c: Call) returns (es: seq<Event>)
    requires Inv(cfg, s) && Resting(s) && Polite(cfg, s, c)
    ensures Reaches(cfg, s, es, Effect(cfg, s, c))
  {
    match c
    case TxBegin(i) =>
      BeginIsRun(cfg, s, i);
      es := [Act(Begin(i)), Act(Shrink(i))];
    case TxExecute(i) =>
      ExecuteIsRun(cfg, s, i);
      es := Repeat(Exec(i), |s.txs[i].log|) + [Act(ExecDone(i))];
    case TxAbort(i) => es := AbortIsRun(cfg, s, i);
    case _ => es := StagedCallIsRun(cfg, s, c);
  }

  // ---- sessions ----

  /** A sequence of calls, by any number of interleaved transactions, and the state it leads to. */
  ghost predicate Session(cfg: Config, s: Sys, calls: seq<Call>, r: Sys)
    decreases |calls|
  {
    if calls == [] then r == s
    else Shaped(cfg, s) && Polite(cfg, s, calls[0]) && Session(cfg, Effect(cfg, s, calls[0]), calls[1..], r)
  }

  /** Every sequence of public calls is a run, so every result over runs holds of it. */
  lemma {:induction false} SessionIsRun(cfg: Config, s: Sys, calls: seq<Call>, r: Sys) returns (es: seq<Event>)
    requires Inv(cfg, s) && Resting(s) && Session(cfg, s, calls, r)
    ensures Reaches(cfg, s, es, r) && Inv(cfg, r) && Resting(r)
    decreases |calls|
  {
    if calls == [] {
      es := [];
    } else {
      var m := Effect(cfg, s, calls[0]);
      var first := CallIsRun(cfg, s, calls[0]);
      CallRests(cfg, s, calls[0]);
      RunKeeps(cfg, s, first, m);
      var rest := SessionIsRun(cfg, m, calls[1..], r);
      Join(cfg, s, first, m, rest, r);
      es := first + rest;
    }
  }

  /** What a client can rely on after any session on an empty store: blocks are conserved, every block is in bounds,
      and a crash at that point loses nothing exactly where `Crash.Survivable` says so. */
  lemma {:induction false} SessionSound(cfg: Config, s: Sys, calls: seq<Call>, r: Sys, sums: seq<bool>, seen: seq<seq<Op>>, start: nat)
    requires Init(cfg, s) && Session(cfg, s, calls, r)
    ensures Inv(cfg, r) && Conserved(cfg, r)
    ensures |sums| == |seen| == |r.txs| && start <= |r.txs| && Short(r.txs) ==>
              (LiveMap(WalkedSeen(cfg, r, sums, seen, start)) == r.db <==> Survivable(cfg, r, sums, seen, start))
  {
    InitHolds(cfg, s);
    InitRests(cfg, s);
    var es := SessionIsRun(cfg, s, calls, r);
    InvConserves(cfg, r);
    if |sums| == |seen| == |r.txs| && start <= |r.txs| && Short(r.txs) {
      WalkExact(cfg, r, sums, seen, start);
    }
  }

  lemma {:induction false} StagedIsRun(cfg: Config, s: Sys, i: nat, calls: seq<Call>, r: Sys) returns (es: seq<Event>)
    requires Inv(cfg, s) && Resting(s) && Session(cfg, s, calls, r)
    requires forall k :: 0 <= k < |calls| ==> calls[k].i == i && Staged(calls[k])
    ensures Reaches(cfg, s, es, r) && Inv(cfg, r) && Withdrawable(i, es)
    decreases |calls|
  {
    if calls == [] {
      es := [];
    } else {
      var m := Effect(cfg, s, calls[0]);
      var first := StagedCallIsRun(cfg, s, calls[0]);
      CallRests(cfg, s, calls[0]);
      RunKeeps(cfg, s, first, m);
      var rest := StagedIsRun(cfg, m, i, calls[1..], r);
      Join(cfg, s, first, m, rest, r);
      WithdrawableJoin(i, first, rest);
      es := first + rest;
    }
  }

  /** Abort is the inverse, in calls: begin, any puts and deletes, possibly commit, then abort, leave the live
      objects, the free ids and the free slots as they were. */
  lemma {:induction false} AbortedSessionRestores(cfg: Config, s: Sys, i: nat, calls: seq<Call>, m: Sys)
    requires Inv(cfg, s) && Resting(s) && Polite(cfg, s, TxBegin(i)) && Session(cfg, Effect(cfg, s, TxBegin(i)), calls, m)
    requires forall k :: 0 <= k < |calls| ==> calls[k].i == i && Staged(calls[k])
    requires Shaped(cfg, m) && Polite(cfg, m, TxAbort(i))
    ensures var r := Effect(cfg, m, TxAbort(i));
            r.free == s.free && LiveMap(r.blocks) == LiveMap(s.blocks) && r.txs == s.txs[i := IDLE] && r.freeSlots == s.freeSlots
  {
    var es := StagedFromBegin(cfg, s, i, calls, m);
    AbortEnds(cfg, s, i, es, m);
  }

  lemma {:induction false} StagedFromBegin(cfg: Config, s: Sys, i: nat, calls: seq<Call>, m: Sys) returns (es: seq<Event>)
    requires Inv(cfg, s) && Resting(s) && Polite(cfg, s, TxBegin(i)) && Session(cfg, Effect(cfg, s, TxBegin(i)), calls, m)
    requires forall k :: 0 <= k < |calls| ==> calls[k].i == i && Staged(calls[k])
    ensures Can(cfg, s, Begin(i)) && Reaches(cfg, Do(cfg, s, Begin(i)), es, m) && Withdrawable(i, es) && Inv(cfg, m)
  {
    var o := Effect(cfg, s, TxBegin(i));
    BeginIsRun(cfg, s, i);
    CallRests(cfg, s, TxBegin(i));
    RunKeeps(cfg, s, [Act(Begin(i)), Act(Shrink(i))], o);
    TwoSteps(cfg, s, Begin(i), Shrink(i), o);
    var b := Do(cfg, s, Begin(i));
    StepRun(cfg, b, Shrink(i));
    var fs := StagedIsRun(cfg, o, i, calls, m);
    Join(cfg, b, [Act(Shrink(i))], o, fs, m);
    WithdrawableJoin(i, [Act(Shrink(i))], fs);
    es := [Act(Shrink(i))] + fs;
  }

  lemma {:induction false} AbortEnds(cfg: Config, s: Sys, i: nat, es: seq<Event>, m: Sys)
    requires Inv(cfg, s) && Can(cfg, s, Begin(i)) && Reaches(cfg, Do(cfg, s, Begin(i)), es, m) && Withdrawable(i, es)
    requires Inv(cfg, m) && i < |m.txs| && Can(cfg, m, Abort(i)) && m.txs[i].pc == 0
    ensures Shaped(cfg, Revoked(m, i))
    ensures var r := RolledBack(cfg, Revoked(m, i), i);
            r.free == s.free && LiveMap(r.blocks) == LiveMap(s.blocks) && r.txs == s.txs[i := IDLE] && r.freeSlots == s.freeSlots
  {
    var a := Revoked(m, i);
    AbortKeeps(cfg, m, i);
    assert a == Do(cfg, m, Abort(i));
    var n, b := |a.txs[i].log|, Do(cfg, s, Begin(i));
    var fs := AbortUndone(cfg, b, i, es, m);
    AbortTail(cfg, a, i);
    AbortRestores(cfg, s, i, fs, UndoPrefix(cfg, a, i, n), RolledBack(cfg, a, i));
  }

  /** From begin to the last undone entry. */
  lemma {:induction false} AbortUndone(cfg: Config, b: Sys, i: nat, es: seq<Event>, m: Sys) returns (fs: seq<Event>)
    requires Reaches(cfg, b, es, m) && Withdrawable(i, es) && Inv(cfg, m) && i < |m.txs| && Can(cfg, m, Abort(i))
    requires m.txs[i].pc == 0 && Inv(cfg, Do(cfg, m, Abort(i))) && Revoked(m, i) == Do(cfg, m, Abort(i))
    ensures Reaches(cfg, b, fs, UndoPrefix(cfg, Revoked(m, i), i, |m.txs[i].log|)) && Withdrawable(i, fs)
  {
    var a, n := Revoked(m, i), |m.txs[i].log|;
    AbortPrefixIsRun(cfg, a, i, n);
    Extend(cfg, b, es, m, Act(Abort(i)));
    Join(cfg, b, es + [Act(Abort(i))], a, Repeat(Undo(i), n), UndoPrefix(cfg, a, i, n));
    WithdrawableJoin(i, es, [Act(Abort(i))]);
    WithdrawableJoin(i, es + [Act(Abort(i))], Repeat(Undo(i), n));
    fs := es + [Act(Abort(i))] + Repeat(Undo(i), n);
  }
}
