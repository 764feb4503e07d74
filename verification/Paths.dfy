/** The in-place path and the copy-on-write path of a data put, followed through commit and execute, for a put made at
    any point of a transaction. */
module Paths {
  import opened Words
  import opened Blocks
  import opened TxLog
  import opened InPlace
  import opened Machine
  import opened MachineProofs
  import opened Runs
  import opened Api
  import opened Sessions

  /** The small update logged, the transaction committed and executed. */
  ghost function FastPath(cfg: Config, s: Sys, i: nat, op: Op): Sys
    requires Shaped(cfg, s) && i < |s.txs| && s.txs[i].pc == 0 && Fits(cfg, op)
  {
    var m := WithEntry(s, i, op);
    EntryShaped(cfg, s, i, op);
    CommitShaped(cfg, m, i);
    Executed(cfg, CommitEffect(cfg, m, i), i)
  }

  /** The copy-on-write put of `x` over `o`, 0 for none, the transaction committed and executed. */
  ghost function SlowPath(cfg: Config, s: Sys, i: nat, o: nat, x: nat, b: Block): Sys
    requires Shaped(cfg, s) && i < |s.txs| && s.txs[i].pc == 0 && x < |s.blocks| && Contained(cfg, x, b)
  {
    var m := NewBlock(s, i, x, PutOp(o, x), Sealed(cfg, x, b));
    EntryShaped(cfg, s, i, PutOp(o, x));
    CommitShaped(cfg, m, i);
    Executed(cfg, CommitEffect(cfg, m, i), i)
  }

  /** A put or delete, then commit and execute of its transaction, as calls of the store interface. */
  ghost function Carried(cfg: Config, s: Sys, c: Call): Sys
    requires Shaped(cfg, s) && Fine(cfg, s, c) && (c.Put? || c.PutMeta? || c.Delete?) && s.txs[c.i].pc == 0
  {
    StagedShaped(cfg, s, c);
    var m := Effect(cfg, s, c);
    CommitShaped(cfg, m, c.i);
    Effect(cfg, Effect(cfg, m, TxCommit(c.i)), TxExecute(c.i))
  }

  lemma {:induction false} StagedShaped(cfg: Config, s: Sys, c: Call)
    requires Shaped(cfg, s) && Fine(cfg, s, c) && (c.Put? || c.PutMeta? || c.Delete?)
    ensures Shaped(cfg, Effect(cfg, s, c)) && |Effect(cfg, s, c).txs| == |s.txs| && Effect(cfg, s, c).txs[c.i].pc == s.txs[c.i].pc
  {
    match c
    case Put(i, kv, x) =>
      if Small(cfg, kv) { EntryShaped(cfg, s, i, PatchOp(kv)); }
      else { NewBlockShaped(cfg, s, i, x, PutOp(kv.blkId, x), Sealed(cfg, x, NewData(cfg, s, kv, x))); }
    case PutMeta(i, kv, x) => NewBlockShaped(cfg, s, i, x, PutOp(kv.blkId, x), Sealed(cfg, x, NewMeta(cfg, s, kv, x)));
    case Delete(i, x) => EntryShaped(cfg, s, i, Remove(x));
  }

  lemma {:induction false} NewBlockShaped(cfg: Config, s: Sys, i: nat, x: nat, op: Op, b: Block)
    requires Shaped(cfg, s) && i < |s.txs| && x < |s.blocks| && Contained(cfg, x, b) && !op.InPlace?
    ensures Shaped(cfg, NewBlock(s, i, x, op, b)) && NewBlock(s, i, x, op, b).txs[i].pc == s.txs[i].pc
  {
    EntryShaped(cfg, s, i, op);
  }

  lemma {:induction false} EntryShaped(cfg: Config, s: Sys, i: nat, op: Op)
    requires Shaped(cfg, s) && i < |s.txs| && Fits(cfg, op)
    ensures Shaped(cfg, WithEntry(s, i, op)) && WithEntry(s, i, op).txs[i].pc == s.txs[i].pc
  {
  }

  lemma {:induction false} CommitShaped(cfg: Config, s: Sys, i: nat)
    requires Shaped(cfg, s) && i < |s.txs|
    ensures Shaped(cfg, CommitEffect(cfg, s, i)) && CommitEffect(cfg, s, i).txs[i].pc == s.txs[i].pc
  {
  }

  /** Entries that do not patch `x` do not matter to its replay. */
  lemma {:induction false} ReplayTail(cfg: Config, x: nat, b: Block, log: seq<Op>, op: Op)
    requires 0 < x < cfg.total && Contained(cfg, x, b) && AllFit(cfg, log + [op]) && !Patches(log, x) && Fits(cfg, op)
    ensures Replay(cfg, x, b, None, log + [op]) == Replay(cfg, x, b, None, [op])
  {
    if log == [] {
      assert log + [op] == [op];
    } else {
      var ops := log + [op];
      assert ops[0] == log[0] && PatchOf(log[0]) != x && !Hits(ops[0], x);
      assert ops[1..] == log[1..] + [op];
      forall k | 0 <= k < |log[1..]| ensures PatchOf(log[1..][k]) != x { assert log[1..][k] == log[k + 1]; }
      ReplayTail(cfg, x, b, log[1..], op);
    }
  }

  /** What the fast path leaves, whatever else the transaction has logged. */
  lemma {:induction false} FastEnd(cfg: Config, s: Sys, i: nat, op: Op)
    requires Inv(cfg, s) && Can(cfg, s, LogPatch(i, op)) && !Patches(s.txs[i].log, op.id) && s.txs[i].pc == 0
    ensures var f := FastPath(cfg, s, i, op);
            && |f.blocks| == |s.blocks| && op.id < cfg.total && AllFit(cfg, [op])
            && Stored(cfg, f, op.id) && f.blocks[op.id] == Replay(cfg, op.id, s.blocks[op.id], None, [op])
            && Spared(s, f, i, {op.id})
  {
    var c := EntryCommitted(cfg, s, i, LogPatch(i, op), op);
    MentionsAppend(s.txs[i].log, op, op.id);
    PatchSettled(cfg, c, i, op.id);
    ReplayTail(cfg, op.id, s.blocks[op.id], s.txs[i].log, op);
    OneHit(cfg, op.id, s.blocks[op.id], op);
    EntrySpares(cfg, s, i, op, c);
  }

  lemma {:induction false} PatchSettled(cfg: Config, c: Sys, i: nat, x: nat)
    requires Inv(cfg, c) && i < |c.txs| && c.txs[i].status.Commited? && c.txs[i].pc == 0 && Quiescent(c.txs[i])
    requires 0 < x < cfg.total && Patches(c.txs[i].log, x)
    ensures var r := Executed(cfg, c, i);
            && Shaped(cfg, r) && r.blocks[x] == Replay(cfg, x, c.blocks[x], None, c.txs[i].log) && Quiet(r, x)
  {
    ExecutedReplays(cfg, c, i, x);
    ExecutedKeeps(cfg, c, i);
  }

  /** One more entry logged, and the transaction committed. */
  lemma {:induction false} EntryCommitted(cfg: Config, s: Sys, i: nat, a: Action, op: Op) returns (c: Sys)
    requires Inv(cfg, s) && Can(cfg, s, a) && a.i == i && s.txs[i].pc == 0
    requires (a.LogPatch? && op == a.op) || (a.LogDel? && op == Remove(a.x))
    ensures Shaped(cfg, WithEntry(s, i, op)) && c == CommitEffect(cfg, WithEntry(s, i, op), i) && Inv(cfg, c)
    ensures i < |c.txs| == |s.txs| && c.txs[i].log == s.txs[i].log + [op] && c.txs[i].pc == 0 && c.txs[i].status.Commited?
    ensures Quiescent(c.txs[i]) && c.blocks == s.blocks && c.db == CommitDb(cfg, s, s.txs[i].log + [op])
  {
    var m := WithEntry(s, i, op);
    StepKeeps(cfg, s, a);
    assert m == Do(cfg, s, a);
    c := CommitEffect(cfg, m, i);
    CommitKeeps(cfg, m, i);
    assert c == Do(cfg, m, Commit(i));
  }

  /** The committed object at `x` is live, in place, and not free. */
  ghost predicate Stored(cfg: Config, r: Sys, x: nat) {
    && 0 < x < |r.blocks| && Contained(cfg, x, r.blocks[x]) && Live(r.blocks[x])
    && x in r.db && r.db[x] == r.blocks[x] && x !in r.free
  }

  /** Nothing is committed at `x`, and the block can be handed out again. */
  ghost predicate Gone(r: Sys, x: nat) {
    0 < x < |r.blocks| && !Live(r.blocks[x]) && x !in r.db && x in r.free
  }

  /** Blocks other than `ids` that the log of `i` did not make obsolete or patch before are as they were. */
  ghost predicate Spared(s: Sys, r: Sys, i: nat, ids: set<nat>)
    requires i < |s.txs|
  {
    && |r.blocks| == |s.blocks|
    && forall y :: 0 < y < |s.blocks| && y !in ids && !Targets(s.txs[i].log, y) && !Patches(s.txs[i].log, y) ==> r.blocks[y] == s.blocks[y]
  }

  /** Execute of a log with one more entry. */
  lemma {:induction false} EntrySpares(cfg: Config, s: Sys, i: nat, op: Op, c: Sys)
    requires Inv(cfg, c) && i < |s.txs| == |c.txs| && c.txs[i].log == s.txs[i].log + [op] && c.txs[i].pc == 0
    requires Spared(s, c, i, {NewOf(op)})
    ensures Spared(s, Executed(cfg, c, i), i, {NewOf(op), OldOf(op), PatchOf(op)})
  {
    assert TxOK(cfg, c, i);
    var r, ids := Executed(cfg, c, i), {NewOf(op), OldOf(op), PatchOf(op)};
    forall y | 0 < y < |s.blocks| && y !in ids && !Targets(s.txs[i].log, y) && !Patches(s.txs[i].log, y) ensures r.blocks[y] == s.blocks[y] {
      MentionsAppend(s.txs[i].log, op, y);
      ExecutedFrame(cfg, c, i, y);
    }
  }

  lemma {:induction false} OneHit(cfg: Config, x: nat, b: Block, op: Op)
    requires 0 < x < cfg.total && Contained(cfg, x, b) && Hits(op, x) && Fits(cfg, op)
    ensures AllFit(cfg, [op]) && Live(Replay(cfg, x, b, None, [op]))
  {
    ReplayOne(cfg, x, b, op);
  }

  /** What the slow path leaves, whatever else the transaction has logged. */
  lemma {:induction false} SlowEnd(cfg: Config, s: Sys, i: nat, o: nat, x: nat, b: Block)
    requires Inv(cfg, s) && CanPut(cfg, s, i, o, x, b) && s.txs[i].pc == 0
    ensures var w := SlowPath(cfg, s, i, o, x, b);
            && |w.blocks| == |s.blocks| && o != x && (o != 0 ==> o < |s.blocks| && Gone(w, o))
            && Stored(cfg, w, x) && w.blocks[x] == Sealed(cfg, x, b) && Spared(s, w, i, {o, x})
  {
    SlowLogged(cfg, s, i, o, x, b);
    var m := NewBlock(s, i, x, PutOp(o, x), Sealed(cfg, x, b));
    SlowCommitted(cfg, m, i, o, x);
    SlowSpares(cfg, s, m, i, o, x);
  }

  lemma {:induction false} SlowSpares(cfg: Config, s: Sys, m: Sys, i: nat, o: nat, x: nat)
    requires Inv(cfg, m) && Can(cfg, m, Commit(i)) && m.txs[i].pc == 0 && i < |s.txs| == |m.txs|
    requires m.txs[i].log == s.txs[i].log + [PutOp(o, x)] && Spared(s, m, i, {x})
    ensures Shaped(cfg, CommitEffect(cfg, m, i)) && CommitEffect(cfg, m, i).txs[i].pc == 0
    ensures Spared(s, Executed(cfg, CommitEffect(cfg, m, i), i), i, {o, x})
  {
    var c := CommitEffect(cfg, m, i);
    CommitKeeps(cfg, m, i);
    assert c == Do(cfg, m, Commit(i));
    EntrySpares(cfg, s, i, PutOp(o, x), c);
  }

  /** The put itself: the new block is live, its id appears in the log once, as new. */
  lemma {:induction false} SlowLogged(cfg: Config, s: Sys, i: nat, o: nat, x: nat, b: Block)
    requires Inv(cfg, s) && CanPut(cfg, s, i, o, x, b) && s.txs[i].pc == 0
    ensures var m := NewBlock(s, i, x, PutOp(o, x), Sealed(cfg, x, b));
            && Inv(cfg, m) && Can(cfg, m, Commit(i)) && m.txs[i].pc == 0 && o != x
            && News(m.txs[i].log, x) && !Targets(m.txs[i].log, x) && !Patches(m.txs[i].log, x) && (o != 0 ==> Targets(m.txs[i].log, o))
  {
    PutIsRun(cfg, s, i, o, x, b);
    FreeIsDead(cfg, s, x);
    assert !Mentions(s.txs[i].log, x);
    MentionsAppend(s.txs[i].log, PutOp(o, x), x);
    if o != 0 { MentionsAppend(s.txs[i].log, PutOp(o, x), o); }
  }

  lemma {:induction false} SlowCommitted(cfg: Config, m: Sys, i: nat, o: nat, x: nat)
    requires Inv(cfg, m) && Can(cfg, m, Commit(i)) && m.txs[i].pc == 0 && o < |m.blocks| && 0 < x < |m.blocks| && Live(m.blocks[x])
    requires News(m.txs[i].log, x) && !Targets(m.txs[i].log, x) && !Patches(m.txs[i].log, x) && (o != 0 ==> Targets(m.txs[i].log, o))
    ensures var c := CommitEffect(cfg, m, i);
            && Shaped(cfg, c) && c.txs[i].pc == 0 && |Executed(cfg, c, i).blocks| == |m.blocks|
            && Executed(cfg, c, i).blocks[x] == m.blocks[x] && Stored(cfg, Executed(cfg, c, i), x)
            && (o != 0 ==> Gone(Executed(cfg, c, i), o))
  {
    var c := CommitEffect(cfg, m, i);
    CommitKeeps(cfg, m, i);
    assert c == Do(cfg, m, Commit(i));
    assert x in c.db && c.db[x] == m.blocks[x];
    ExecutedKeeps(cfg, c, i);
    assert Quiet(Executed(cfg, c, i), x);
    if o != 0 { assert o !in c.db && Quiet(Executed(cfg, c, i), o); }
  }

  /** Fast path refines slow path, end to end: a nonempty write to a live data object, made at any point of a
      transaction that has not patched the object before, and taken through either path, commit and execute, leaves a
      reader with the same length, version and value bytes; the slow path has moved the object from `o` to `x`. */
  lemma {:induction false} FastAndSlowPathsAgree(cfg: Config, s: Sys, i: nat, o: nat, x: nat, kv: Pair)
    requires Inv(cfg, s) && i < |s.txs| && s.txs[i].pc == 0 && 0 < o < cfg.total && 0 < x < cfg.total
    requires DataPutFits(cfg, kv) && kv.val != [] && Can(cfg, s, LogPatch(i, InPlace(o, kv.offset, kv.val)))
    requires CanPut(cfg, s, i, o, x, FilledData(cfg, x, s.blocks[x], Some(s.blocks[o]), kv))
    ensures var f := FastPath(cfg, s, i, InPlace(o, kv.offset, kv.val));
            var w := SlowPath(cfg, s, i, o, x, FilledData(cfg, x, s.blocks[x], Some(s.blocks[o]), kv));
            && |f.blocks| == |w.blocks| == |s.blocks|
            && Live(f.blocks[o]) && Live(w.blocks[x]) && !Live(w.blocks[o])
            && SameForReader(cfg, o, f.blocks[o], x, w.blocks[x], s.blocks[o], kv.offset, kv.val)
            // identity: the fast path keeps the old key and object id, the slow path takes those of the call
            && Key(f.blocks[o]) == Key(s.blocks[o]) && f.blocks[o].hdr.id == s.blocks[o].hdr.id
            && Key(w.blocks[x]) == kv.key && w.blocks[x].hdr.id == kv.id
  {
    FastEnd(cfg, s, i, InPlace(o, kv.offset, kv.val));
    SlowEnd(cfg, s, i, o, x, FilledData(cfg, x, s.blocks[x], Some(s.blocks[o]), kv));
    IdentityAgreesExactly(cfg, o, x, s.blocks[o], s.blocks[x], kv);
    PathsAgreeExactly(cfg, o, x, s.blocks[o], s.blocks[x], kv);
  }

  // ---- what a client's call comes to ----

  /** One 32-bit version after another. */
  predicate NextVersion(was: Word32, now: Word32) { now == if was == U32 - 1 then 0 else was + 1 }

  /** An object that transaction `i` may change: live, used by no other open transaction, not yet changed in place. */
  ghost predicate Changeable(s: Sys, i: nat, o: nat)
    requires i < |s.txs|
  {
    0 < o < |s.blocks| && o < U64 && Live(s.blocks[o]) && !Others(s, i, o) && !Patches(s.txs[i].log, o)
  }

  /** A small update, committed and executed: the object stays where it is, with the new bytes at the offset of the
      call, every other old byte, the longer of the two lengths and the next version. Nothing else changes. */
  lemma {:induction false} SmallPutEnds(cfg: Config, s: Sys, i: nat, kv: Pair, x: nat)
    requires Inv(cfg, s) && Resting(s) && i < |s.txs| && Accepting(s.txs[i])
    requires DataPutFits(cfg, kv) && 0 < kv.blkId < cfg.total && |kv.val| < cfg.maxVal / 2
    requires Changeable(s, i, kv.blkId) && !Targets(s.txs[i].log, kv.blkId)
    ensures var o, r := kv.blkId, Carried(cfg, s, Put(i, kv, x));
            && Stored(cfg, r, o) && Spared(s, r, i, {o})
            && ReadsAs(cfg, o, r.blocks[o], Some(s.blocks[o]), kv.offset, kv.val)
            && r.blocks[o].hdr.valLen == Max(s.blocks[o].hdr.valLen, kv.offset + |kv.val|)
            && NextVersion(s.blocks[o].hdr.version, r.blocks[o].hdr.version)
            && Key(r.blocks[o]) == Key(s.blocks[o]) && r.blocks[o].hdr.id == s.blocks[o].hdr.id
  {
    var o, op := kv.blkId, PatchOp(kv);
    assert RestingTx(s, s.txs[i]);
    CarriedPut(cfg, s, i, kv, x);
    FastEnd(cfg, s, i, op);
    ReplayOne(cfg, o, s.blocks[o], op);
    FastReads(cfg, o, s.blocks[o], op);
    StampKeepsKey(cfg, s.blocks[o], op);
  }

  /** What a copy-on-write put makes of the block it is handed. */
  lemma {:induction false} HandedOut(cfg: Config, s: Sys, i: nat, o: nat, x: nat, b: Block)
    requires Inv(cfg, s) && Resting(s) && i < |s.txs| && PutAllowed(s, i, o, x)
    requires x < |s.blocks| && Contained(cfg, x, b) && b.flch == s.blocks[x].flch
    ensures s.txs[i].pc == 0 && CanPut(cfg, s, i, o, x, b)
  {
    assert RestingTx(s, s.txs[i]);
    FreeIsDead(cfg, s, x);
    FreeNotNamed(cfg, s, x);
  }

  /** The object `r` is what a data put of `kv` over `prev` promises a reader. */
  ghost predicate HoldsPut(cfg: Config, x: nat, r: Block, prev: Option<Block>, kv: Pair) {
    && Contained(cfg, x, r) && Key(r) == kv.key && r.hdr.id == kv.id && ReadsAs(cfg, x, r, prev, kv.offset, kv.val)
    && (match prev
        case None => r.hdr.version == 1 && r.hdr.valLen == kv.offset + |kv.val|
        case Some(was) =>
          && NextVersion(was.hdr.version, r.hdr.version)
          && r.hdr.valLen == if kv.val == [] then 0 else Max(was.hdr.valLen, kv.offset + |kv.val|))
  }

  lemma {:induction false} FilledHolds(cfg: Config, x: nat, blank: Block, prev: Option<Block>, kv: Pair)
    requires x < cfg.total && |blank.body| == cfg.BodyLen(x) && DataPutFits(cfg, kv) && (prev.Some? ==> Contained(cfg, x, prev.value))
    ensures HoldsPut(cfg, x, Sealed(cfg, x, FilledData(cfg, x, blank, prev, kv)), prev, kv)
  {
    var b := FilledData(cfg, x, blank, prev, kv);
    FilledKey(cfg, x, blank, prev, kv);
    if kv.val != [] { DataPutMeaning(cfg, x, blank, prev, kv); }
    SealedReads(cfg, x, b, prev, kv.offset, kv.val);
  }

  /** Any other data put, committed and executed: the new block holds the key, the object id, the new bytes and what
      they leave of the old value; the block put over, if any, holds no object and is free. Nothing else changes. */
  lemma {:induction false} PutEnds(cfg: Config, s: Sys, i: nat, kv: Pair, x: nat)
    requires Inv(cfg, s) && Resting(s) && i < |s.txs| && PutAllowed(s, i, kv.blkId, x)
    requires DataPutFits(cfg, kv) && kv.blkId < cfg.total && 0 < x < cfg.total && (kv.blkId == 0 || |kv.val| >= cfg.maxVal / 2)
    ensures var o, r := kv.blkId, Carried(cfg, s, Put(i, kv, x));
            && Stored(cfg, r, x) && Spared(s, r, i, {o, x})
            && HoldsPut(cfg, x, r.blocks[x], if o == 0 then None else Some(s.blocks[o]), kv)
            && (o != 0 ==> o != x && Gone(r, o))
  {
    var o, b := kv.blkId, NewData(cfg, s, kv, x);
    HandedOut(cfg, s, i, o, x, b);
    CarriedPut(cfg, s, i, kv, x);
    SlowEnd(cfg, s, i, o, x, b);
    FilledHolds(cfg, x, s.blocks[x], Prev(s, kv), kv);
  }

  lemma {:induction false} CarriedPut(cfg: Config, s: Sys, i: nat, kv: Pair, x: nat)
    requires Shaped(cfg, s) && i < |s.txs| && s.txs[i].pc == 0 && PutFine(cfg, s, i, kv, x)
    ensures Small(cfg, kv) ==> Carried(cfg, s, Put(i, kv, x)) == FastPath(cfg, s, i, PatchOp(kv))
    ensures !Small(cfg, kv) ==> Carried(cfg, s, Put(i, kv, x)) == SlowPath(cfg, s, i, kv.blkId, x, NewData(cfg, s, kv, x))
  {
  }

  /** The checksum does not matter to a reader. */
  lemma {:induction false} SealedReads(cfg: Config, x: nat, b: Block, prev: Option<Block>, offset: nat, val: seq<Byte>)
    requires Contained(cfg, x, b)
    ensures Key(Sealed(cfg, x, b)) == Key(b) && Value(cfg, x, Sealed(cfg, x, b)) == Value(cfg, x, b)
    ensures ReadsAs(cfg, x, b, prev, offset, val) ==> ReadsAs(cfg, x, Sealed(cfg, x, b), prev, offset, val)
  {
  }

  /** A meta put, committed and executed: the new block holds exactly the key and value of the call; the block put over,
      if any, holds no object and is free. Nothing else changes. */
  lemma {:induction false} PutMetaEnds(cfg: Config, s: Sys, i: nat, kv: Pair, x: nat)
    requires Inv(cfg, s) && Resting(s) && i < |s.txs| && PutAllowed(s, i, kv.blkId, x)
    requires MetaPutFits(cfg, kv) && cfg.total <= x < cfg.Ids()
    ensures var o, r := kv.blkId, Carried(cfg, s, PutMeta(i, kv, x));
            && Stored(cfg, r, x) && Spared(s, r, i, {o, x}) && Key(r.blocks[x]) == kv.key && Value(cfg, x, r.blocks[x]) == kv.val
            && r.blocks[x].hdr.id == s.blocks[x].hdr.id && (o == 0 ==> r.blocks[x].hdr.version == 1)
            && (o != 0 ==> o != x && Gone(r, o) && NextVersion(s.blocks[o].hdr.version, r.blocks[x].hdr.version))
  {
    var o, b := kv.blkId, NewMeta(cfg, s, kv, x);
    HandedOut(cfg, s, i, o, x, b);
    assert Carried(cfg, s, PutMeta(i, kv, x)) == SlowPath(cfg, s, i, o, x, b);
    SlowEnd(cfg, s, i, o, x, b);
    MetaPutMeaning(cfg, x, s.blocks[x], Prev(s, kv), kv);
    SealedReads(cfg, x, b, None, 0, []);
  }

  /** A delete, committed and executed: the object is gone and its block free. Nothing else changes. */
  lemma {:induction false} DeleteEnds(cfg: Config, s: Sys, i: nat, x: nat)
    requires Inv(cfg, s) && Resting(s) && i < |s.txs| && Accepting(s.txs[i]) && Changeable(s, i, x)
    ensures var r := Carried(cfg, s, Delete(i, x)); Gone(r, x) && Spared(s, r, i, {x})
  {
    assert RestingTx(s, s.txs[i]);
    var c := EntryCommitted(cfg, s, i, LogDel(i, x), Remove(x));
    MentionsAppend(s.txs[i].log, Remove(x), x);
    ExecutedKeeps(cfg, c, i);
    assert x !in c.db && Quiet(Executed(cfg, c, i), x);
    EntrySpares(cfg, s, i, Remove(x), c);
  }
}
