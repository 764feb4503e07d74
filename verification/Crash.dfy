/** Restart after a crash: the log walk of `tx_log_check`, the rebuild of the free set, and exactly when the
    two bring back the committed objects. */
module Crash {
  import opened Words
  import opened Blocks
  import opened TxLog
  import opened InPlace
  import opened Machine
  import opened MachineProofs

  // ---- the walk ----

  /** The block one entry makes the walk zero: the obsolete one when redoing, the new one when undoing. */
  function Victim(op: Op, commit: bool): nat { if commit then OldOf(op) else NewOf(op) }

  /** Redoing an in-place entry copies its payload and leaves the header alone: the walk never runs the
      metadata pass. A copy that would leave its block is outside the model. */
  function Redo(cfg: Config, blocks: seq<Block>, op: Op): (r: seq<Block>)
    ensures |r| == |blocks|
  {
    if op.InPlace? && Fits(cfg, op) && op.id < |blocks| && |blocks[op.id].body| == cfg.BodyLen(op.id)
    then blocks[op.id := Stamp(cfg, blocks[op.id], op)] else blocks
  }

  function RecoverOne(cfg: Config, blocks: seq<Block>, op: Op, commit: bool): (r: seq<Block>)
    ensures |r| == |blocks|
  {
    if commit && op.InPlace? then Redo(cfg, blocks, op) else Zap(blocks, Victim(op, commit))
  }

  /** The walk over the entries it sees in one slot. */
  function RecoverLog(cfg: Config, blocks: seq<Block>, log: seq<Op>, commit: bool): (r: seq<Block>)
    ensures |r| == |blocks|
  {
    if log == [] then blocks
    else RecoverOne(cfg, RecoverLog(cfg, blocks, log[..|log| - 1], commit), log[|log| - 1], commit)
  }

  /** The walk over slots start..end-1, as found: empty slots are skipped, COMMITED ones redone, others undone. */
  function RecoverSlots(cfg: Config, blocks: seq<Block>, found: seq<Tx>, start: nat, end: nat): (r: seq<Block>)
    requires start <= end <= |found|
    ensures |r| == |blocks|
    decreases end
  {
    if start == end then blocks
    else
      var b := RecoverSlots(cfg, blocks, found, start, end - 1);
      var t := found[end - 1];
      if t.status.Empty? then b else RecoverLog(cfg, b, t.log, t.status.Commited?)
  }

  /** The ids a slot's walk zeroes. */
  ghost predicate Masked(t: Tx, x: nat) {
    if t.status.Commited? then Targets(t.log, x) else !t.status.Empty? && News(t.log, x)
  }

  ghost predicate MaskedIn(found: seq<Tx>, start: nat, end: nat, x: nat) {
    exists j :: start <= j < end <= |found| && Masked(found[j], x)
  }

  ghost predicate AllContained(cfg: Config, blocks: seq<Block>) {
    forall x :: 0 <= x < |blocks| ==> Contained(cfg, x, blocks[x])
  }

  /** Nothing is copied: what the walk redoes carries no payload. */
  predicate Copyless(found: seq<Tx>, start: nat) {
    forall j :: start <= j < |found| && found[j].status.Commited? ==> NoPayloads(found[j].log)
  }

  lemma {:induction false} ZapAt(cfg: Config, blocks: seq<Block>, v: nat)
    requires AllContained(cfg, blocks)
    ensures AllContained(cfg, Zap(blocks, v))
    ensures forall x :: 0 < x < |blocks| ==> if x == v then !Live(Zap(blocks, v)[x]) else Zap(blocks, v)[x] == blocks[x]
  {
    if 0 < v < |blocks| { ZeroContained(cfg, v, blocks[v]); }
  }

  /** A redone copy keeps every header and checksum, and every byte when the payload is empty. */
  lemma {:induction false} RedoAt(cfg: Config, blocks: seq<Block>, op: Op)
    requires AllContained(cfg, blocks)
    ensures AllContained(cfg, Redo(cfg, blocks, op))
    ensures forall x :: 0 < x < |blocks| ==> SameHeader(Redo(cfg, blocks, op)[x], blocks[x])
    ensures PayloadLen(op) == 0 ==> Redo(cfg, blocks, op) == blocks
  {
    if op.InPlace? && Fits(cfg, op) && op.id < |blocks| {
      var b := blocks[op.id];
      assert op.payload == [] ==> Overlay(b.body, cfg.maxKey + op.offset, op.payload) == b.body;
    }
  }

  predicate SameHeader(a: Block, b: Block) { a.hdr == b.hdr && a.flch == b.flch }

  /** What the copies of a redone log make of block `x`. */
  function CopyOne(cfg: Config, x: nat, b: Block, op: Op): (r: Block)
    ensures SameHeader(r, b) && |r.body| == |b.body|
  {
    if op.InPlace? && op.id == x && Fits(cfg, op) && |b.body| == cfg.BodyLen(x) then Stamp(cfg, b, op) else b
  }

  function CopyAll(cfg: Config, x: nat, b: Block, ops: seq<Op>): (r: Block)
    ensures SameHeader(r, b) && |r.body| == |b.body|
  {
    if ops == [] then b else CopyOne(cfg, x, CopyAll(cfg, x, b, ops[..|ops| - 1]), ops[|ops| - 1])
  }

  lemma {:induction false} CopyConcat(cfg: Config, x: nat, b: Block, p: seq<Op>, q: seq<Op>)
    ensures CopyAll(cfg, x, b, p + q) == CopyAll(cfg, x, CopyAll(cfg, x, b, p), q)
  {
    if q == [] {
      assert p + q == p;
    } else {
      var front, last := q[..|q| - 1], q[|q| - 1];
      CopyConcat(cfg, x, b, p, front);
      assert (p + q)[..|p + q| - 1] == p + front && (p + q)[|p + q| - 1] == last;
    }
  }

  /** The entry writes body byte `i` of block `x` when it is redone. */
  predicate Copies(cfg: Config, op: Op, x: nat, i: nat) { Fits(cfg, op) && Covers(cfg, op, x, i) }

  /** Entry `k` is the last one that writes byte `i`. */
  ghost predicate LastCopy(cfg: Config, ops: seq<Op>, x: nat, i: nat, k: nat) {
    k < |ops| && Copies(cfg, ops[k], x, i) && forall l :: k < l < |ops| ==> !Copies(cfg, ops[l], x, i)
  }

  /** Nothing but what is there already is copied: for each byte, the last entry that writes it. */
  ghost predicate CopiesKeep(cfg: Config, x: nat, b: Block, ops: seq<Op>) {
    forall i: nat, k: nat :: i < |b.body| && LastCopy(cfg, ops, x, i, k) ==> ByteOf(cfg, ops[k], x, i) == b.body[i]
  }

  /** What byte `i` becomes when the entries are redone in order. */
  function CopiedByte(cfg: Config, x: nat, was: Byte, ops: seq<Op>, i: nat): Byte {
    if ops == [] then was
    else if Copies(cfg, ops[|ops| - 1], x, i) then ByteOf(cfg, ops[|ops| - 1], x, i)
    else CopiedByte(cfg, x, was, ops[..|ops| - 1], i)
  }

  lemma {:induction false} CopyByte(cfg: Config, x: nat, b: Block, ops: seq<Op>, i: nat)
    requires |b.body| == cfg.BodyLen(x) && i < |b.body|
    ensures CopyAll(cfg, x, b, ops).body[i] == CopiedByte(cfg, x, b.body[i], ops, i)
  {
    if ops != [] {
      var front, last := ops[..|ops| - 1], ops[|ops| - 1];
      CopyByte(cfg, x, b, front, i);
      if last.InPlace? && last.id == x && Fits(cfg, last) {
        OverlayAt(CopyAll(cfg, x, b, front).body, cfg.maxKey + last.offset, last.payload, i);
      }
    }
  }

  /** The last entry that writes a byte decides it. */
  lemma {:induction false} LastCopyDecides(cfg: Config, x: nat, was: Byte, ops: seq<Op>, i: nat, k: nat)
    requires LastCopy(cfg, ops, x, i, k)
    ensures CopiedByte(cfg, x, was, ops, i) == ByteOf(cfg, ops[k], x, i)
  {
    var n := |ops| - 1;
    if k < n {
      assert LastCopy(cfg, ops[..n], x, i, k);
      LastCopyDecides(cfg, x, was, ops[..n], i, k);
    }
  }

  /** A byte is as it was, or decided by the last entry that writes it. */
  lemma {:induction false} CopiedFrom(cfg: Config, x: nat, was: Byte, ops: seq<Op>, i: nat)
    ensures CopiedByte(cfg, x, was, ops, i) == was || exists k: nat :: LastCopy(cfg, ops, x, i, k)
  {
    if ops != [] {
      var n := |ops| - 1;
      if Copies(cfg, ops[n], x, i) {
        assert LastCopy(cfg, ops, x, i, n);
      } else {
        CopiedFrom(cfg, x, was, ops[..n], i);
        if k: nat :| LastCopy(cfg, ops[..n], x, i, k) {
          assert forall l :: k < l < n ==> ops[..n][l] == ops[l];
          assert LastCopy(cfg, ops, x, i, k);
        }
      }
    }
  }

  /** The copies leave the block as it is if and only if nothing else was there. */
  lemma {:induction false} CopiesKeepExactly(cfg: Config, x: nat, b: Block, ops: seq<Op>)
    requires |b.body| == cfg.BodyLen(x)
    ensures CopyAll(cfg, x, b, ops) == b <==> CopiesKeep(cfg, x, b, ops)
  {
    var r := CopyAll(cfg, x, b, ops);
    if CopiesKeep(cfg, x, b, ops) {
      forall i | 0 <= i < |b.body| ensures r.body[i] == b.body[i] { KeptByte(cfg, x, b, ops, i); }
      assert r.body == b.body;
    } else {
      var i: nat, k: nat :| i < |b.body| && LastCopy(cfg, ops, x, i, k) && ByteOf(cfg, ops[k], x, i) != b.body[i];
      CopyByte(cfg, x, b, ops, i);
      LastCopyDecides(cfg, x, b.body[i], ops, i, k);
      assert r.body[i] != b.body[i];
    }
  }

  lemma {:induction false} KeptByte(cfg: Config, x: nat, b: Block, ops: seq<Op>, i: nat)
    requires |b.body| == cfg.BodyLen(x) && i < |b.body| && CopiesKeep(cfg, x, b, ops)
    ensures CopyAll(cfg, x, b, ops).body[i] == b.body[i]
  {
    CopyByte(cfg, x, b, ops, i);
    CopiedFrom(cfg, x, b.body[i], ops, i);
    if k: nat :| LastCopy(cfg, ops, x, i, k) { LastCopyDecides(cfg, x, b.body[i], ops, i, k); }
  }

  lemma {:induction false} NothingCopied(cfg: Config, x: nat, b: Block, ops: seq<Op>)
    requires forall k :: 0 <= k < |ops| ==> ops[k].InPlace? && ops[k].id == x ==> ops[k].payload == []
    ensures CopyAll(cfg, x, b, ops) == b
  {
    if ops != [] {
      var front, last := ops[..|ops| - 1], ops[|ops| - 1];
      NothingCopied(cfg, x, b, front);
      assert last.InPlace? && last.id == x && Fits(cfg, last) && |b.body| == cfg.BodyLen(x) ==>
             Overlay(b.body, cfg.maxKey + last.offset, last.payload) == b.body;
    }
  }

  /** All entries the walk redoes, in its order. */
  function Redone(found: seq<Tx>, start: nat, end: nat): seq<Op>
    requires start <= end <= |found|
    decreases end
  {
    if start == end then []
    else Redone(found, start, end - 1) + if found[end - 1].status.Commited? then found[end - 1].log else []
  }

  lemma {:induction false} CopylessRedone(found: seq<Tx>, start: nat, end: nat)
    requires start <= end <= |found| && Copyless(found, start)
    ensures NoPayloads(Redone(found, start, end))
    decreases end
  {
    if start < end { CopylessRedone(found, start, end - 1); }
  }

  /** What the walk makes of one block: dead if it is a victim, otherwise changed by the copies alone. */
  ghost predicate Outcome(cfg: Config, x: nat, before: Block, after: Block, masked: bool, copies: seq<Op>) {
    if masked then !Live(after) else after == CopyAll(cfg, x, before, copies)
  }

  /** The walk over one slot kills exactly the ids it is about. */
  lemma {:induction false} RecoverLogAt(cfg: Config, blocks: seq<Block>, log: seq<Op>, commit: bool, x: nat)
    requires AllContained(cfg, blocks) && 0 < x < |blocks|
    ensures AllContained(cfg, RecoverLog(cfg, blocks, log, commit))
    ensures Outcome(cfg, x, blocks[x], RecoverLog(cfg, blocks, log, commit)[x],
                    if commit then Targets(log, x) else News(log, x), if commit then log else [])
  {
    if log != [] {
      var front, last := log[..|log| - 1], log[|log| - 1];
      RecoverLogAt(cfg, blocks, front, commit, x);
      var mid := RecoverLog(cfg, blocks, front, commit);
      ZapAt(cfg, mid, Victim(last, commit));
      RedoAt(cfg, mid, last);
      assert front + [last] == log;
      MentionsAppend(front, last, x);
      RecoverOneAt(cfg, mid, last, commit, x);
    }
  }

  lemma {:induction false} RecoverOneAt(cfg: Config, blocks: seq<Block>, op: Op, commit: bool, x: nat)
    requires AllContained(cfg, blocks) && 0 < x < |blocks|
    ensures var r := RecoverOne(cfg, blocks, op, commit)[x];
            && (Victim(op, commit) == x ==> !Live(r))
            && (Victim(op, commit) != x ==> r == if commit then CopyOne(cfg, x, blocks[x], op) else blocks[x])
  {
    ZapAt(cfg, blocks, Victim(op, commit));
  }

  lemma {:induction false} RecoverSlotsAt(cfg: Config, blocks: seq<Block>, found: seq<Tx>, start: nat, end: nat, x: nat)
    requires AllContained(cfg, blocks) && start <= end <= |found| && 0 < x < |blocks|
    ensures AllContained(cfg, RecoverSlots(cfg, blocks, found, start, end))
    ensures Outcome(cfg, x, blocks[x], RecoverSlots(cfg, blocks, found, start, end)[x],
                    MaskedIn(found, start, end, x), Redone(found, start, end))
    decreases end
  {
    if start < end {
      RecoverSlotsAt(cfg, blocks, found, start, end - 1, x);
      var b, t := RecoverSlots(cfg, blocks, found, start, end - 1), found[end - 1];
      if !t.status.Empty? {
        RecoverLogAt(cfg, b, t.log, t.status.Commited?, x);
      }
      assert MaskedIn(found, start, end, x) <==> MaskedIn(found, start, end - 1, x) || Masked(t, x);
      CopyConcat(cfg, x, blocks[x], Redone(found, start, end - 1), if t.status.Commited? then t.log else []);
    }
  }

  /** Without payloads to redo, a block that is not a victim does not change at all. */
  lemma {:induction false} CopylessAt(cfg: Config, blocks: seq<Block>, found: seq<Tx>, start: nat, x: nat)
    requires AllContained(cfg, blocks) && start <= |found| && 0 < x < |blocks| && Copyless(found, start)
    requires !MaskedIn(found, start, |found|, x)
    ensures RecoverSlots(cfg, blocks, found, start, |found|)[x] == blocks[x]
  {
    RecoverSlotsAt(cfg, blocks, found, start, |found|, x);
    CopylessRedone(found, start, |found|);
    NothingCopied(cfg, x, blocks[x], Redone(found, start, |found|));
  }

  lemma {:induction false} AllContainedSlots(cfg: Config, blocks: seq<Block>, found: seq<Tx>, start: nat, end: nat)
    requires AllContained(cfg, blocks) && start <= end <= |found|
    ensures AllContained(cfg, RecoverSlots(cfg, blocks, found, start, end))
    decreases end
  {
    if start < end {
      AllContainedSlots(cfg, blocks, found, start, end - 1);
      AllContainedLog(cfg, RecoverSlots(cfg, blocks, found, start, end - 1), found[end - 1].log, found[end - 1].status.Commited?);
    }
  }

  lemma {:induction false} AllContainedLog(cfg: Config, blocks: seq<Block>, log: seq<Op>, commit: bool)
    requires AllContained(cfg, blocks)
    ensures AllContained(cfg, RecoverLog(cfg, blocks, log, commit))
  {
    if log != [] {
      AllContainedLog(cfg, blocks, log[..|log| - 1], commit);
      ZapAt(cfg, RecoverLog(cfg, blocks, log[..|log| - 1], commit), Victim(log[|log| - 1], commit));
      RedoAt(cfg, RecoverLog(cfg, blocks, log[..|log| - 1], commit), log[|log| - 1]);
    }
  }

  // ---- when the walk restores a given map ----

  /** Block `b`, as `x`, is what `db` says. */
  ghost predicate Agrees(db: map<nat, Block>, x: nat, b: Block) {
    (x in db <==> Live(b)) && (x in db ==> db[x] == b)
  }

  /** Every difference between the live blocks and `db` is something the walk will zero or copy. */
  ghost predicate Recoverable(cfg: Config, blocks: seq<Block>, found: seq<Tx>, start: nat, db: map<nat, Block>) {
    && AllContained(cfg, blocks) && start <= |found|
    && (forall x :: x in db ==> 0 < x < |blocks|)
    && forall x :: 0 < x < |blocks| ==> RecoverableAt(cfg, blocks[x], found, start, db, x)
  }

  ghost predicate RecoverableAt(cfg: Config, b: Block, found: seq<Tx>, start: nat, db: map<nat, Block>, x: nat)
    requires start <= |found|
  {
    if MaskedIn(found, start, |found|, x) then x !in db else Agrees(db, x, CopyAll(cfg, x, b, Redone(found, start, |found|)))
  }

  /** For any blocks, any slots and any map: the walk leaves live exactly `db` if and only if the state is
      recoverable to it. */
  lemma {:induction false} RecoveryExact(cfg: Config, blocks: seq<Block>, found: seq<Tx>, start: nat, db: map<nat, Block>)
    requires AllContained(cfg, blocks) && start <= |found|
    ensures LiveMap(RecoverSlots(cfg, blocks, found, start, |found|)) == db <==> Recoverable(cfg, blocks, found, start, db)
  {
    var r := RecoverSlots(cfg, blocks, found, start, |found|);
    forall x | 0 < x < |blocks|
      ensures Outcome(cfg, x, blocks[x], r[x], MaskedIn(found, start, |found|, x), Redone(found, start, |found|))
    {
      RecoverSlotsAt(cfg, blocks, found, start, |found|, x);
    }
    LiveMapExact(r, db);
  }

  /** The same without payloads to redo. */
  ghost predicate PlainlyRecoverable(cfg: Config, blocks: seq<Block>, found: seq<Tx>, start: nat, db: map<nat, Block>) {
    && AllContained(cfg, blocks) && start <= |found| && Copyless(found, start)
    && (forall x :: x in db ==> 0 < x < |blocks|)
    && forall x :: 0 < x < |blocks| ==> if MaskedIn(found, start, |found|, x) then x !in db else Agrees(db, x, blocks[x])
  }

  lemma {:induction false} PlainRecoveryExact(cfg: Config, blocks: seq<Block>, found: seq<Tx>, start: nat, db: map<nat, Block>)
    requires AllContained(cfg, blocks) && start <= |found| && Copyless(found, start)
    ensures LiveMap(RecoverSlots(cfg, blocks, found, start, |found|)) == db <==> PlainlyRecoverable(cfg, blocks, found, start, db)
  {
    RecoveryExact(cfg, blocks, found, start, db);
    CopylessRedone(found, start, |found|);
    forall x | 0 < x < |blocks|
      ensures RecoverableAt(cfg, blocks[x], found, start, db, x) <==>
              if MaskedIn(found, start, |found|, x) then x !in db else Agrees(db, x, blocks[x])
    {
      NothingCopied(cfg, x, blocks[x], Redone(found, start, |found|));
    }
  }

  /** The live map, id by id. */
  lemma {:induction false} LiveMapExact(blocks: seq<Block>, db: map<nat, Block>)
    ensures LiveMap(blocks) == db <==>
            (forall x :: x in db ==> 0 < x < |blocks|) && (forall x :: 0 < x < |blocks| ==> Agrees(db, x, blocks[x]))
  {
    var m := LiveMap(blocks);
    forall x | 0 < x < |blocks| ensures x in m <==> Live(blocks[x]) {}
    if (forall x :: x in db ==> 0 < x < |blocks|) && (forall x :: 0 < x < |blocks| ==> Agrees(db, x, blocks[x])) {
      assert forall x :: x in m <==> x in db;
    }
  }

  // ---- what a crash leaves behind ----

  /** What the slot's bytes say: while begin is between its two stores, the slot is PROCESSING over the log of an
      earlier transaction. */
  function Durable(t: Tx): Tx {
    if t.status.Processing? && t.stale != [] then t.(log := t.stale) else t
  }

  /** The slot as the walk judges it: COMMITED only if the checksum test passes. */
  function Judge(t: Tx, sum: bool): Tx {
    if t.status.Commited? && !sum then t.(status := Aborted) else Durable(t)
  }

  /** All slots as judged, `sums` being the outcomes of the checksum tests. The source compares over
      sizeof(tx_slot) more bytes than commit stored, so nothing is assumed about them. */
  function Judged(txs: seq<Tx>, sums: seq<bool>): (r: seq<Tx>)
    requires |txs| == |sums|
    ensures |r| == |txs| && forall j :: 0 <= j < |txs| ==> r[j] == Judge(txs[j], sums[j])
  {
    seq(|txs|, j requires 0 <= j < |txs| => Judge(txs[j], sums[j]))
  }

  /** The fixed stride reads the walked slots as they were written. */
  predicate Legible(txs: seq<Tx>, start: nat) {
    forall j :: start <= j < |txs| && !txs[j].status.Empty? ==> NoPayloads(Durable(txs[j]).log)
  }

  /** Slots are smaller than 2^32 bytes, so logs have fewer entries than that. */
  predicate Short(txs: seq<Tx>) {
    forall j :: 0 <= j < |txs| ==> |txs[j].log| < U32
  }

  /** A begin in progress on a walked slot still covers an entry that made `x`. */
  ghost predicate StaleHit(txs: seq<Tx>, start: nat, x: nat) {
    exists j :: start <= j < |txs| && txs[j].status.Processing? && News(txs[j].stale, x)
  }

  /** Slot `j` should have had `x` zeroed, but the walk skips the slot or judges it the other way. */
  ghost predicate Leftover(t: Tx, walked: bool, sum: bool, x: nat) {
    if walked then t.status.Commited? && !sum && Targets(t.log, x) && !News(t.log, x) else Masked(t, x)
  }

  /** The conditions under which the walk gets `x` right: no begin in progress covers a committed block; no
      committed log has still to change `x` in place; a committed log that fails its test has no new block it did not itself
      make obsolete; and what a skipped or misjudged slot should have zeroed is dead anyway. */
  ghost predicate RestorableAt(s: Sys, sums: seq<bool>, start: nat, x: nat)
    requires |sums| == |s.txs| && x < |s.blocks|
  {
    && (StaleHit(s.txs, start, x) ==> x !in s.db)
    && forall j :: 0 <= j < |s.txs| ==>
         var t := s.txs[j];
         && (t.status.Commited? && Patches(t.log, x) ==> !Unsettled(t, x))
         && (start <= j && t.status.Commited? && !sums[j] && News(t.log, x) ==> Targets(t.log, x))
         && (Leftover(t, start <= j, sums[j], x) ==> !Live(s.blocks[x]) || StaleHit(s.txs, start, x))
  }

  ghost predicate Restorable(s: Sys, sums: seq<bool>, start: nat)
    requires |sums| == |s.txs|
  {
    forall x :: 0 < x < |s.blocks| ==> RestorableAt(s, sums, start, x)
  }

  /** The blocks after the walk from slot `start` on, with the slots read as they were written. */
  function Walked(cfg: Config, s: Sys, sums: seq<bool>, start: nat): (r: seq<Block>)
    requires |sums| == |s.txs| && start <= |s.txs|
    ensures |r| == |s.blocks|
  {
    RecoverSlots(cfg, s.blocks, Judged(s.txs, sums), start, |s.txs|)
  }

  // ---- what the walk reads ----

  /** The slots as judged, `seen[j]` being the entries the fixed stride reads in slot `j`. */
  function Sighting(txs: seq<Tx>, sums: seq<bool>, seen: seq<seq<Op>>): (r: seq<Tx>)
    requires |txs| == |sums| == |seen|
    ensures |r| == |txs| && forall j :: 0 <= j < |txs| ==> r[j] == Judge(txs[j], sums[j]).(log := seen[j])
  {
    seq(|txs|, j requires 0 <= j < |txs| => Judge(txs[j], sums[j]).(log := seen[j]))
  }

  /** The logs on disk. */
  function Written(txs: seq<Tx>): (r: seq<seq<Op>>)
    ensures |r| == |txs| && forall j :: 0 <= j < |txs| ==> r[j] == Durable(txs[j]).log
  {
    seq(|txs|, j requires 0 <= j < |txs| => Durable(txs[j]).log)
  }

  /** What the stride can read: a log without payloads as it was written, otherwise at least its first entry;
      what follows a payload is up to the payload's bytes. */
  predicate Sighted(txs: seq<Tx>, seen: seq<seq<Op>>) {
    |seen| == |txs| && forall j :: 0 <= j < |txs| ==>
      var log := Durable(txs[j]).log;
      && (NoPayloads(log) ==> seen[j] == log)
      && (log != [] ==> seen[j] != [] && seen[j][0] == log[0])
  }

  lemma {:induction false} WrittenSighting(txs: seq<Tx>, sums: seq<bool>)
    requires |sums| == |txs|
    ensures Sighting(txs, sums, Written(txs)) == Judged(txs, sums) && Sighted(txs, Written(txs))
  {
    var a, b := Sighting(txs, sums, Written(txs)), Judged(txs, sums);
    forall j | 0 <= j < |txs| ensures a[j] == b[j] {}
  }

  /** The blocks after the walk from slot `start` on, for whatever it reads. */
  function WalkedSeen(cfg: Config, s: Sys, sums: seq<bool>, seen: seq<seq<Op>>, start: nat): (r: seq<Block>)
    requires |sums| == |seen| == |s.txs| && start <= |s.txs|
    ensures |r| == |s.blocks|
  {
    RecoverSlots(cfg, s.blocks, Sighting(s.txs, sums, seen), start, |s.txs|)
  }

  /** The walk, from what it reads, zeroes `x`. */
  ghost predicate Doomed(txs: seq<Tx>, sums: seq<bool>, seen: seq<seq<Op>>, start: nat, x: nat)
    requires |sums| == |seen| == |txs|
  {
    MaskedIn(Sighting(txs, sums, seen), start, |txs|, x)
  }

  /** The conditions under which the walk gets `x` right, from what it reads: it zeroes no committed block, it zeroes
      every live block that is not committed, no committed log has still to change `x` in place, and what it copies
      into a committed block is there already. */
  ghost predicate SurvivableAt(cfg: Config, s: Sys, sums: seq<bool>, seen: seq<seq<Op>>, start: nat, x: nat)
    requires |sums| == |seen| == |s.txs| && start <= |s.txs| && x < |s.blocks|
  {
    && (Doomed(s.txs, sums, seen, start, x) ==> x !in s.db)
    && (Live(s.blocks[x]) && x !in s.db ==> Doomed(s.txs, sums, seen, start, x))
    && (forall j :: 0 <= j < |s.txs| && s.txs[j].status.Commited? && Patches(s.txs[j].log, x) ==> !Unsettled(s.txs[j], x))
    && (x in s.db ==> CopiesKeep(cfg, x, s.blocks[x], Redone(Sighting(s.txs, sums, seen), start, |s.txs|)))
  }

  ghost predicate Survivable(cfg: Config, s: Sys, sums: seq<bool>, seen: seq<seq<Op>>, start: nat)
    requires |sums| == |seen| == |s.txs| && start <= |s.txs|
  {
    forall x :: 0 < x < |s.blocks| ==> SurvivableAt(cfg, s, sums, seen, start, x)
  }

  // ---- in-place entries ----

  /** Until the metadata pass has reached it, the committed version of a block with in-place entries is ahead of its header by their number. */
  lemma {:induction false} PatchAhead(cfg: Config, s: Sys, i: nat, x: nat)
    requires Inv(cfg, s) && i < |s.txs| && s.txs[i].status.Commited? && Patches(s.txs[i].log, x) && 0 < x < |s.blocks|
    requires Unsettled(s.txs[i], x)
    ensures x in s.db && s.db[x].hdr.version == Later(s.blocks[x].hdr.version, HitCount(s.txs[i].log, x))
  {
    NewsOwned(cfg, s, i, x);
    assert TxOK(cfg, s, i);
    PatchedNotInHand(cfg, s, i, x);
    PendingVersion(cfg, x, s.blocks[x], s.txs[i]);
  }

  lemma {:induction false} PendingVersion(cfg: Config, x: nat, b: Block, t: Tx)
    requires x < cfg.total && Contained(cfg, x, b) && t.pc <= |t.log| && AllFit(cfg, t.log[t.pc..])
    requires Tallied(t, x, b) && Unsettled(t, x) && (x in t.table ==> t.table[x].valLen <= cfg.maxVal)
    ensures Replay(cfg, x, b, Look(t.table, x), t.log[t.pc..]).hdr.version == Later(b.hdr.version, HitCount(t.log, x))
  {
    ReplayVersion(cfg, x, b, Look(t.table, x), t.log[t.pc..]);
    assert t.log == t.log[..t.pc] + t.log[t.pc..];
    HitCountConcat(t.log[..t.pc], t.log[t.pc..], x);
    VersionSum(b.hdr.version, HitCount(t.log[..t.pc], x), HitCount(t.log[t.pc..], x));
  }

  lemma {:induction false} PatchedNotInHand(cfg: Config, s: Sys, i: nat, x: nat)
    requires Inv(cfg, s) && i < |s.txs| && Mentions(s.txs[i].log, x) && 0 < x < |s.blocks|
    ensures s.txs[i].hand != x
  {
    NewsOwned(cfg, s, i, x);
  }

  lemma {:induction false} HitCountConcat(a: seq<Op>, b: seq<Op>, x: nat)
    ensures HitCount(a + b, x) == HitCount(a, x) + HitCount(b, x)
  {
    if a == [] {
      assert a + b == b;
    } else {
      HitCountConcat(a[1..], b, x);
      assert (a + b)[1..] == a[1..] + b;
    }
  }

  lemma {:induction false} VersionSum(v: nat, m: nat, n: nat)
    ensures Later(Later(v, m), n) == Later(v, m + n)
  {
    assert v + (m + n) == (v + m) + n;
  }

  lemma {:induction false} HitCountBound(log: seq<Op>, x: nat)
    ensures HitCount(log, x) <= |log|
  {
    if log != [] { HitCountBound(log[1..], x); }
  }

  /** All or nothing fails for in-place entries: from any state with a committed log that has still to change `x`
      in place, no walk, whatever it sees in the slots and however it judges them, reaches the committed
      objects. It can only leave the old header or none. */
  lemma {:induction false} PatchNeverRestored(cfg: Config, s: Sys, i: nat, x: nat, found: seq<Tx>, start: nat)
    requires Inv(cfg, s) && i < |s.txs| && s.txs[i].status.Commited? && Patches(s.txs[i].log, x)
    requires Unsettled(s.txs[i], x) && HitCount(s.txs[i].log, x) < U32 && 0 < x < |s.blocks| && start <= |found|
    ensures !Agrees(s.db, x, RecoverSlots(cfg, s.blocks, found, start, |found|)[x])
    ensures LiveMap(RecoverSlots(cfg, s.blocks, found, start, |found|)) != s.db
  {
    var r := RecoverSlots(cfg, s.blocks, found, start, |found|);
    PatchAhead(cfg, s, i, x);
    PatchesHit(s.txs[i].log, x);
    RecoverSlotsAt(cfg, s.blocks, found, start, |found|, x);
    assert Live(r[x]) ==> SameHeader(r[x], s.blocks[x]);
    Distinct32(s.blocks[x].hdr.version, HitCount(s.txs[i].log, x));
    LiveMapExact(r, s.db);
  }

  lemma {:induction false} Distinct32(v: Word32, n: nat)
    requires 0 < n < U32
    ensures Later(v, n) != v
  {
  }

  // ---- exactly when a crash is survived ----

  /** In an invariant state, what a slot says about an id it does not touch. */
  lemma {:induction false} NotTouched(t: Tx, sum: bool, x: nat)
    requires !Touches(t, x)
    ensures Masked(Judge(t, sum), x) <==> t.status.Processing? && t.stale != [] && News(t.stale, x)
    ensures !Masked(t, x)
  {
  }

  /** Which ids the walk zeroes: those of a stale log, and those of the transaction working on the id. */
  lemma {:induction false} MaskedBy(cfg: Config, s: Sys, sums: seq<bool>, start: nat, x: nat)
    requires Inv(cfg, s) && |sums| == |s.txs| && start <= |s.txs|
    ensures MaskedIn(Judged(s.txs, sums), start, |s.txs|, x) <==>
            StaleHit(s.txs, start, x) || exists i :: start <= i < |s.txs| && Touches(s.txs[i], x) && Masked(Judge(s.txs[i], sums[i]), x)
  {
    var found := Judged(s.txs, sums);
    forall j | 0 <= j < |s.txs| ensures TxOK(cfg, s, j) {}
    forall j | start <= j < |s.txs| && Masked(found[j], x)
      ensures (s.txs[j].status.Processing? && News(s.txs[j].stale, x)) || Touches(s.txs[j], x)
    {
      if !Touches(s.txs[j], x) { NotTouched(s.txs[j], sums[j], x); }
    }
    forall j | start <= j < |s.txs| && s.txs[j].status.Processing? && News(s.txs[j].stale, x) ensures Masked(found[j], x) {
      assert s.txs[j].stale != [];
    }
  }

  /** The walk gets an id nobody works on right unless a stale log covers it. */
  lemma {:induction false} ExactUntouched(cfg: Config, s: Sys, sums: seq<bool>, start: nat, x: nat)
    requires Inv(cfg, s) && |sums| == |s.txs| && start <= |s.txs| && 0 < x < |s.blocks|
    requires forall i :: 0 <= i < |s.txs| ==> !Touches(s.txs[i], x)
    ensures RestorableAt(s, sums, start, x) <==>
            if MaskedIn(Judged(s.txs, sums), start, |s.txs|, x) then x !in s.db else Agrees(s.db, x, s.blocks[x])
  {
    MaskedBy(cfg, s, sums, start, x);
    assert IdOK(cfg, s, x);
    forall j | 0 <= j < |s.txs| ensures !Masked(s.txs[j], x) && !Leftover(s.txs[j], start <= j, sums[j], x) {
      NotTouched(s.txs[j], sums[j], x);
    }
  }

  /** The same for an id transaction `i` works on: only its slot and stale logs count. */
  lemma {:induction false} ExactTouched(cfg: Config, s: Sys, sums: seq<bool>, start: nat, i: nat, x: nat)
    requires Inv(cfg, s) && |sums| == |s.txs| && start <= |s.txs| && 0 < x < |s.blocks|
    requires i < |s.txs| && Touches(s.txs[i], x)
    requires s.txs[i].status.Commited? && Patches(s.txs[i].log, x) ==> !Unsettled(s.txs[i], x)
    ensures RestorableAt(s, sums, start, x) <==>
            if MaskedIn(Judged(s.txs, sums), start, |s.txs|, x) then x !in s.db else Agrees(s.db, x, s.blocks[x])
  {
    MaskedBy(cfg, s, sums, start, x);
    forall j | 0 <= j < |s.txs| && j != i ensures !Touches(s.txs[j], x) && !Leftover(s.txs[j], start <= j, sums[j], x) {
      NotTouched(s.txs[j], sums[j], x);
    }
    assert IdOK(cfg, s, x) && TxOK(cfg, s, i);
    ExactOwned(cfg, s, s.txs[i], sums[i], start <= i, x);
  }

  /** One transaction, one of its ids. */
  lemma {:induction false} ExactOwned(cfg: Config, s: Sys, t: Tx, sum: bool, walked: bool, x: nat)
    requires 0 < x < |s.blocks| && t.pc <= |t.log| && Contained(cfg, x, s.blocks[x]) && AllFit(cfg, t.log)
    requires Owned(cfg, s, t, x) && Touches(t, x) && (t.status.Commited? && Patches(t.log, x) ==> !Unsettled(t, x))
    requires t.status.Empty? ==> t.log == []
    requires t.stale != [] ==> t.log == [] && (t.status.Empty? || t.status.Processing?)
    ensures var masked := walked && Masked(if t.status.Commited? && !sum then t.(status := Aborted) else t, x);
            (if masked then x !in s.db else Agrees(s.db, x, s.blocks[x])) <==>
            && (walked && t.status.Commited? && !sum && News(t.log, x) ==> Targets(t.log, x))
            && (Leftover(t, walked, sum, x) ==> !Live(s.blocks[x]))
    ensures Leftover(t, walked, sum, x) ==> x !in s.db
    ensures t.status.Commited? && News(t.log, x) && !Targets(t.log, x) ==> x in s.db
    ensures t.status.Commited? && Patches(t.log, x) && !Targets(t.log, x) && t.hand != x ==> x in s.db && s.db[x] == s.blocks[x]
  {
    if t.status.Commited? && Patches(t.log, x) { assert t.log[t.pc..] == []; }
  }

  /** A committed object is live, and its block is up to date unless a log has still to change it in place. */
  lemma {:induction false} CommittedBlock(cfg: Config, s: Sys, x: nat)
    requires Inv(cfg, s) && x in s.db
    requires forall j :: 0 <= j < |s.txs| && s.txs[j].status.Commited? && Patches(s.txs[j].log, x) ==> !Unsettled(s.txs[j], x)
    ensures 0 < x < |s.blocks| && Live(s.blocks[x]) && s.db[x] == s.blocks[x]
  {
    assert IdOK(cfg, s, x);
    if i :| 0 <= i < |s.txs| && Touches(s.txs[i], x) {
      assert TxOK(cfg, s, i);
      UpToDate(cfg, s, s.txs[i], x);
    }
  }

  lemma {:induction false} UpToDate(cfg: Config, s: Sys, t: Tx, x: nat)
    requires 0 < x < |s.blocks| && t.pc <= |t.log| && Contained(cfg, x, s.blocks[x]) && AllFit(cfg, t.log)
    requires Owned(cfg, s, t, x) && x in s.db && (t.status.Commited? && Patches(t.log, x) ==> !Unsettled(t, x))
    ensures Live(s.blocks[x]) && s.db[x] == s.blocks[x]
  {
    if t.status.Commited? && Patches(t.log, x) { assert t.log[t.pc..] == []; }
  }

  /** Exactly which crashes the walk survives: in every state of every run, for every outcome of the checksum tests,
      whatever the stride reads in the slots, and for a walk over all slots (start 0) or all but the first (start 1). */
  lemma {:induction false} WalkExact(cfg: Config, s: Sys, sums: seq<bool>, seen: seq<seq<Op>>, start: nat)
    requires Inv(cfg, s) && |sums| == |seen| == |s.txs| && start <= |s.txs| && Short(s.txs)
    ensures LiveMap(WalkedSeen(cfg, s, sums, seen, start)) == s.db <==> Survivable(cfg, s, sums, seen, start)
  {
    var found := Sighting(s.txs, sums, seen);
    if i, x :| 0 <= i < |s.txs| && 0 < x < |s.blocks| && s.txs[i].status.Commited? && Patches(s.txs[i].log, x)
               && Unsettled(s.txs[i], x)
    {
      HitCountBound(s.txs[i].log, x);
      PatchNeverRestored(cfg, s, i, x, found, start);
      assert !SurvivableAt(cfg, s, sums, seen, start, x);
    } else {
      forall x | 0 < x < |s.blocks|
        ensures SurvivableAt(cfg, s, sums, seen, start, x) <==>
                RecoverableAt(cfg, s.blocks[x], found, start, s.db, x)
      {
        CopiesKeepExactly(cfg, x, s.blocks[x], Redone(found, start, |found|));
        if x in s.db { CommittedBlock(cfg, s, x); }
      }
      RecoveryExact(cfg, s.blocks, found, start, s.db);
    }
  }

  /** The same, slot by slot, when every walked slot is read as it was written. */
  lemma {:induction false} WrittenExact(cfg: Config, s: Sys, sums: seq<bool>, start: nat)
    requires Inv(cfg, s) && |sums| == |s.txs| && start <= |s.txs| && Legible(s.txs, start) && Short(s.txs)
    ensures LiveMap(Walked(cfg, s, sums, start)) == s.db <==> Restorable(s, sums, start)
  {
    var found := Judged(s.txs, sums);
    if i, x :| 0 <= i < |s.txs| && 0 < x < |s.blocks| && s.txs[i].status.Commited? && Patches(s.txs[i].log, x)
               && Unsettled(s.txs[i], x)
    {
      HitCountBound(s.txs[i].log, x);
      PatchNeverRestored(cfg, s, i, x, found, start);
      assert !RestorableAt(s, sums, start, x);
    } else {
      forall x | 0 < x < |s.blocks|
        ensures RestorableAt(s, sums, start, x) <==>
                if MaskedIn(found, start, |found|, x) then x !in s.db else Agrees(s.db, x, s.blocks[x])
      {
        if i :| 0 <= i < |s.txs| && Touches(s.txs[i], x) {
          ExactTouched(cfg, s, sums, start, i, x);
        } else {
          ExactUntouched(cfg, s, sums, start, x);
        }
      }
      PlainRecoveryExact(cfg, s.blocks, found, start, s.db);
    }
  }

  /** So the two conditions are the same there. */
  lemma {:induction false} WrittenSurvivable(cfg: Config, s: Sys, sums: seq<bool>, start: nat)
    requires Inv(cfg, s) && |sums| == |s.txs| && start <= |s.txs| && Legible(s.txs, start) && Short(s.txs)
    ensures Survivable(cfg, s, sums, Written(s.txs), start) <==> Restorable(s, sums, start)
    ensures WalkedSeen(cfg, s, sums, Written(s.txs), start) == Walked(cfg, s, sums, start)
  {
    WrittenSighting(s.txs, sums);
    WalkExact(cfg, s, sums, Written(s.txs), start);
    WrittenExact(cfg, s, sums, start);
  }

  /** Where begin and commit are not in the middle and the tests come out right. */
  predicate OrderlyTxs(txs: seq<Tx>, sums: seq<bool>) {
    |sums| == |txs| && forall j :: 0 <= j < |txs| ==> OrderlyTx(txs[j], sums[j])
  }

  predicate OrderlyTx(t: Tx, sum: bool) {
    && (t.status.Processing? ==> t.stale == [])
    && (t.status.Commited? ==> sum && forall k :: 0 <= k < |t.log| ==> !t.log[k].InPlace?)
  }

  predicate Orderly(s: Sys, sums: seq<bool>) { OrderlyTxs(s.txs, sums) }

  lemma {:induction false} OrderlyRestorable(s: Sys, sums: seq<bool>)
    requires Orderly(s, sums)
    ensures Restorable(s, sums, 0)
  {
    assert forall j :: 0 <= j < |s.txs| ==> OrderlyTx(s.txs[j], sums[j]);
  }

  // ---- crashes during the walk itself ----

  datatype Sweep = Zero(x: nat) | Clear(j: nat)

  /** A step of a walk that is interrupted later: one block zeroed, or one slot, whose victims are all dead, cleared. */
  ghost predicate CanSweep(blocks: seq<Block>, found: seq<Tx>, start: nat, w: Sweep) {
    match w
    case Zero(x) => MaskedIn(found, start, |found|, x)
    case Clear(j) => start <= j < |found| && forall x :: 0 < x < |blocks| && Masked(found[j], x) ==> !Live(blocks[x])
  }

  function SweptBlocks(blocks: seq<Block>, w: Sweep): seq<Block> { if w.Zero? then Zap(blocks, w.x) else blocks }

  function SweptSlots(found: seq<Tx>, w: Sweep): (r: seq<Tx>)
    ensures |r| == |found|
  {
    if w.Clear? && w.j < |found| then found[w.j := IDLE] else found
  }

  /** Any number of such steps, from any number of interrupted walks. */
  ghost predicate Interrupted(blocks: seq<Block>, found: seq<Tx>, start: nat, ws: seq<Sweep>, blocks': seq<Block>, found': seq<Tx>)
    decreases |ws|
  {
    if ws == [] then blocks' == blocks && found' == found
    else CanSweep(blocks, found, start, ws[0])
         && Interrupted(SweptBlocks(blocks, ws[0]), SweptSlots(found, ws[0]), start, ws[1..], blocks', found')
  }

  /** Zeroing one more masked block keeps the state recoverable ... */
  lemma {:induction false} InterruptedWalk(cfg: Config, blocks: seq<Block>, found: seq<Tx>, start: nat, db: map<nat, Block>, v: nat)
    requires PlainlyRecoverable(cfg, blocks, found, start, db) && MaskedIn(found, start, |found|, v)
    ensures PlainlyRecoverable(cfg, Zap(blocks, v), found, start, db)
  {
    ZapAt(cfg, blocks, v);
  }

  /** ... and so does clearing a slot whose walk is complete. */
  lemma {:induction false} InterruptedClear(cfg: Config, blocks: seq<Block>, found: seq<Tx>, start: nat, db: map<nat, Block>, j: nat)
    requires PlainlyRecoverable(cfg, blocks, found, start, db) && start <= j < |found|
    requires forall x :: 0 < x < |blocks| && Masked(found[j], x) ==> !Live(blocks[x])
    ensures PlainlyRecoverable(cfg, blocks, found[j := IDLE], start, db)
  {
    var after := found[j := IDLE];
    assert forall k :: 0 <= k < |found| && k != j ==> after[k] == found[k];
    forall x | 0 < x < |blocks|
      ensures if MaskedIn(after, start, |after|, x) then x !in db else Agrees(db, x, blocks[x])
    {
      if MaskedIn(after, start, |after|, x) {
        var k :| start <= k < |after| && Masked(after[k], x);
        assert found[k] == after[k];
        assert MaskedIn(found, start, |found|, x);
      } else if MaskedIn(found, start, |found|, x) {
        var k :| start <= k < |found| && Masked(found[k], x);
        assert Masked(found[j], x);
      }
    }
  }

  /** Crashes during recovery: after any number of interrupted walks, a complete one reaches the committed objects. */
  lemma {:induction false} InterruptedRecovery(
    cfg: Config, blocks: seq<Block>, found: seq<Tx>, start: nat, db: map<nat, Block>,
    ws: seq<Sweep>, blocks': seq<Block>, found': seq<Tx>)
    requires PlainlyRecoverable(cfg, blocks, found, start, db)
    requires Interrupted(blocks, found, start, ws, blocks', found')
    ensures |found'| == |found| && LiveMap(RecoverSlots(cfg, blocks', found', start, |found'|)) == db
    decreases |ws|
  {
    if ws == [] {
      PlainRecoveryExact(cfg, blocks, found, start, db);
    } else {
      match ws[0] {
        case Zero(x) => InterruptedWalk(cfg, blocks, found, start, db, x);
        case Clear(j) => InterruptedClear(cfg, blocks, found, start, db, j);
      }
      InterruptedRecovery(cfg, SweptBlocks(blocks, ws[0]), SweptSlots(found, ws[0]), start, db, ws[1..], blocks', found');
    }
  }

  // ---- the walk as the source performs it ----

  /** `tx_log_check` passes ids 1..count to a 0-based lookup, so it never visits the first slot. */
  function FirstWalked(n: nat): nat { if n == 0 then 0 else 1 }

  function CheckedBlocks(cfg: Config, s: Sys, sums: seq<bool>, seen: seq<seq<Op>>): seq<Block>
    requires |sums| == |seen| == |s.txs|
  {
    WalkedSeen(cfg, s, sums, seen, FirstWalked(|s.txs|))
  }

  // ---- rebuilding the lists ----

  /** The ids the scan files as free: no object, or an object whose checksum does not match. */
  ghost predicate ScannedFree(cfg: Config, blocks: seq<Block>, x: nat) {
    0 < x < |blocks| && !(Live(blocks[x]) && Intact(cfg, x, blocks[x]))
  }

  /** A slot after the restart. Walked slots are emptied; an empty slot keeps its old size, and the first one is
      left alone altogether. */
  function Left(t: Tx, first: bool): Tx {
    Idle(if t.status.Empty? then t.stale else if first then Durable(t).log else [])
  }

  function LeftSlots(txs: seq<Tx>): (r: seq<Tx>)
    ensures |r| == |txs| && forall i :: 0 <= i < |txs| ==> r[i] == Left(txs[i], i == 0)
  {
    seq(|txs|, i requires 0 <= i < |txs| => Left(txs[i], i == 0))
  }

  /** The store after a restart: no transaction open, free ids from the scan. */
  ghost function Restarted(cfg: Config, s: Sys, blocks: seq<Block>): Sys {
    Sys(blocks, (set x | 0 < x < |blocks| && ScannedFree(cfg, blocks, x)),
        LeftSlots(s.txs), (set i | 0 <= i < |s.txs| && SlotId(i, |s.txs|)), s.db)
  }

  predicate SlotId(i: nat, n: nat) { i < n }

  /** After a restart with the committed objects live, the invariant holds and the free set is the exact
      complement of the committed ids, whatever the slots held. */
  lemma {:induction false} RestartKeeps(cfg: Config, s: Sys, blocks: seq<Block>)
    requires |blocks| == cfg.Ids() && AllContained(cfg, blocks) && LiveMap(blocks) == s.db
    requires forall x :: x in s.db ==> 0 < x < |blocks| && Intact(cfg, x, s.db[x])
    ensures Inv(cfg, Restarted(cfg, s, blocks))
    ensures forall x :: 0 < x < |blocks| ==> (x in Restarted(cfg, s, blocks).free <==> x !in s.db)
  {
    var r := Restarted(cfg, s, blocks);
    forall i | 0 <= i < |r.txs| ensures TxOK(cfg, r, i) && AllFit(cfg, r.txs[i].log) && forall x :: !Touches(r.txs[i], x) {
      assert r.txs[i] == Left(s.txs[i], i == 0);
      assert i in r.freeSlots by { assert SlotId(i, |s.txs|); }
    }
    forall x | 0 < x < |blocks| ensures Quiet(r, x) {
      assert x in LiveMap(blocks) <==> Live(blocks[x]);
      assert x in r.free <==> ScannedFree(cfg, blocks, x);
    }
  }

  /** Close and reopen: with no transaction open, the scan alone finds exactly the running store's free
      ids and live objects. */
  lemma {:induction false} ReopenRebuilds(cfg: Config, s: Sys)
    requires Inv(cfg, s) && forall i :: 0 <= i < |s.txs| ==> s.txs[i].status.Empty? && s.txs[i].hand == 0
    ensures LiveMap(s.blocks) == s.db
    ensures forall x :: x in s.free <==> ScannedFree(cfg, s.blocks, x)
    ensures forall x :: 0 < x < |s.blocks| ==> (x in s.db <==> !ScannedFree(cfg, s.blocks, x))
  {
    forall i | 0 <= i < |s.txs| ensures forall x :: !Touches(s.txs[i], x) {
      assert TxOK(cfg, s, i);
    }
    forall x | 0 < x < |s.blocks| ensures Quiet(s, x) && (x in s.free <==> ScannedFree(cfg, s.blocks, x)) {
      assert IdOK(cfg, s, x);
    }
    assert LiveMap(s.blocks) == s.db by {
      forall x | x in s.db ensures x in LiveMap(s.blocks) && LiveMap(s.blocks)[x] == s.db[x] { assert Quiet(s, x); }
      forall x | x in LiveMap(s.blocks) ensures x in s.db { assert Quiet(s, x); }
    }
  }

  /** The slots `b` hold on disk what the slots `a` do. */
  ghost predicate SameDurable(a: seq<Tx>, b: seq<Tx>) {
    |a| == |b| && forall j :: 0 <= j < |a| ==> Durable(a[j]).status == Durable(b[j]).status && Durable(a[j]).log == Durable(b[j]).log
  }

  lemma {:induction false} WalkSeesDurable(
    cfg: Config, blocks: seq<Block>, a: seq<Tx>, b: seq<Tx>, sums: seq<bool>, seen: seq<seq<Op>>, start: nat, end: nat)
    requires SameDurable(a, b) && start <= end <= |a| == |sums| == |seen|
    ensures RecoverSlots(cfg, blocks, Sighting(a, sums, seen), start, end) == RecoverSlots(cfg, blocks, Sighting(b, sums, seen), start, end)
  {
    var fa, fb := Sighting(a, sums, seen), Sighting(b, sums, seen);
    forall j | 0 <= j < |a| ensures fa[j].status == fb[j].status && fa[j].log == fb[j].log {
      assert Durable(a[j]).status == a[j].status && Durable(b[j]).status == b[j].status;
    }
    WalkSees(cfg, blocks, fa, fb, start, end);
  }

  predicate SameVerdict(a: Status, b: Status) { a.Empty? == b.Empty? && a.Commited? == b.Commited? }

  /** The walk looks at the log, and at whether the slot is empty, committed or neither. */
  lemma {:induction false} WalkSees(cfg: Config, blocks: seq<Block>, fa: seq<Tx>, fb: seq<Tx>, start: nat, end: nat)
    requires |fa| == |fb| && start <= end <= |fa|
    requires forall j :: 0 <= j < |fa| ==> SameVerdict(fa[j].status, fb[j].status) && fa[j].log == fb[j].log
    ensures RecoverSlots(cfg, blocks, fa, start, end) == RecoverSlots(cfg, blocks, fb, start, end)
    decreases end
  {
    if start < end { WalkSees(cfg, blocks, fa, fb, start, end - 1); }
  }
}
