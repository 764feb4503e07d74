/** The store as a state machine over its persistent steps, with any number of transactions interleaved. `db` is auxiliary: the committed objects, changed only by commit and by aborting a
    committed transaction. The steps never read it. */
module Machine {
  import opened Words
  import opened Blocks
  import opened TxLog
  import opened InPlace

  /** One slot and the call in progress on it: `hand` is a popped block not yet logged, `fill` a logged
      block whose checksum is not written yet, `pc` how far execute or abort has come, `table` the side
      table of in-place updates. `stale` is the log of an earlier transaction that the slot's size still
      covers: clearing a slot after execute resets its status only, and begin stores the new status before
      the new size. */
  datatype Tx = Tx(status: Status, log: seq<Op>, hand: nat, fill: nat, pc: nat, table: map<nat, Meta>, stale: seq<Op>)

  const IDLE := Tx(Empty, [], 0, 0, 0, map[], [])

  /** A slot nobody uses, with what its last transaction left behind. */
  function Idle(stale: seq<Op>): Tx { IDLE.(stale := stale) }

  datatype Sys = Sys(blocks: seq<Block>, free: set<nat>, txs: seq<Tx>, freeSlots: set<nat>, db: map<nat, Block>)

  // ---- which blocks a log speaks about ----

  /** The block an entry brings into being, 0 for none. */
  function NewOf(op: Op): nat {
    match op case Write(id) => id case Update(_, next) => next case _ => 0
  }

  /** The block an entry makes obsolete, 0 for none. */
  function OldOf(op: Op): nat {
    match op case Remove(id) => id case Update(prev, _) => prev case _ => 0
  }

  /** The block an entry changes in place, 0 for none. */
  function PatchOf(op: Op): nat { if op.InPlace? then op.id else 0 }

  ghost predicate News(log: seq<Op>, x: nat) { x != 0 && exists k :: 0 <= k < |log| && NewOf(log[k]) == x }

  ghost predicate Targets(log: seq<Op>, x: nat) { x != 0 && exists k :: 0 <= k < |log| && OldOf(log[k]) == x }

  ghost predicate Patches(log: seq<Op>, x: nat) { x != 0 && exists k :: 0 <= k < |log| && PatchOf(log[k]) == x }

  ghost predicate Mentions(log: seq<Op>, x: nat) { News(log, x) || Targets(log, x) || Patches(log, x) }

  ghost predicate Touches(t: Tx, x: nat) { Mentions(t.log, x) || (x != 0 && t.hand == x) }

  /** Some transaction other than `i` touches `x`. */
  ghost predicate Others(s: Sys, i: nat, x: nat) {
    exists j :: 0 <= j < |s.txs| && j != i && Touches(s.txs[j], x)
  }

  /** Some open log speaks about `x`. */
  ghost predicate Mentioned(s: Sys, x: nat) {
    exists j :: 0 <= j < |s.txs| && Mentions(s.txs[j].log, x)
  }

  // ---- steps ----

  datatype Action =
    | Begin(i: nat)               // the status store of tx_slot_init
    | Shrink(i: nat)              // the size store of tx_slot_init, tx_slot_abort and tx_log_check
    | Take(i: nat, x: nat)        // caslist_pop
    | GiveBack(i: nat)            // caslist_push after a failed append
    | LogNew(i: nat, op: Op)      // tx_slot_op_write, tx_slot_op_update
    | Fill(i: nat, b: Block)      // any write to the new block other than its checksum
    | Seal(i: nat)                // the checksum of the new block
    | LogDel(i: nat, x: nat)      // tx_slot_op_remove
    | LogPatch(i: nat, op: Op)    // tx_slot_op_small_update
    | Commit(i: nat)
    | Exec(i: nat)                // one entry of tx_slot_execute
    | Restamp(i: nat, x: nat)     // one block of the metadata pass
    | ExecDone(i: nat)            // what is left of the metadata pass, slot cleared, slot id returned
    | Abort(i: nat)
    | Undo(i: nat)                // one entry of tx_slot_abort
    | AbortDone(i: nat)

  ghost predicate Quiescent(t: Tx) { t.hand == 0 && t.fill == 0 }

  /** Begin has returned, and the transaction has neither been committed nor aborted. */
  ghost predicate Accepting(t: Tx) { t.status.Processing? && t.stale == [] }

  /** When a step is possible. Beyond the source's own checks this states what callers must respect: an
      object is used by one open transaction at a time, in-place updates aim at live data blocks the same
      log does not remove, aborted logs carry no payload, and an id an open log names is not handed out: not
      a block that log freed, before its slot is cleared, and not a free id it deletes. */
  ghost predicate Can(cfg: Config, s: Sys, a: Action) {
    a.i < |s.txs| && var t := s.txs[a.i];
    match a
    case Begin(i) => t.status.Empty? && i in s.freeSlots && Quiescent(t)
    case Shrink(i) => true
    case Take(i, x) => Quiescent(t) && x in s.free && !Mentioned(s, x)
    case GiveBack(i) => t.hand != 0
    case LogNew(i, op) =>
      && Accepting(t) && t.hand != 0 && t.fill == 0
      && (op.Write? || op.Update?) && NewOf(op) == t.hand && Encodable(op)
      && (op.Update? ==> Get(s.blocks, op.prev).Some? && op.prev != t.hand && !Others(s, i, op.prev) && !Patches(t.log, op.prev))
    case Fill(i, b) => t.fill != 0 && t.fill < |s.blocks| && Contained(cfg, t.fill, b) && b.flch == s.blocks[t.fill].flch
    case Seal(i) => t.fill != 0 && t.fill < |s.blocks| && Contained(cfg, t.fill, s.blocks[t.fill])
    case LogDel(i, x) =>
      Accepting(t) && Quiescent(t) && 0 < x < U64 && !Others(s, i, x) && !Patches(t.log, x)
    case LogPatch(i, op) =>
      && Accepting(t) && Quiescent(t) && op.InPlace? && Encodable(op) && Fits(cfg, op)
      && Get(s.blocks, op.id).Some? && !Others(s, i, op.id) && !Targets(t.log, op.id)
    case Commit(i) => Accepting(t) && Quiescent(t)
    case Exec(i) => t.status.Commited? && t.pc < |t.log|
    case Restamp(i, x) => t.status.Commited? && t.pc == |t.log| && x in t.table && x < |s.blocks|
    case ExecDone(i) => t.status.Commited? && t.pc == |t.log| && Quiescent(t)
    case Abort(i) =>
      Quiescent(t) && (Accepting(t) || (t.status.Commited? && t.pc == 0)) && NoPayloads(t.log)
    case Undo(i) => t.status.Aborted? && t.pc < |t.log|
    case AbortDone(i) => t.status.Aborted? && t.pc == |t.log| && Quiescent(t)
  }

  function Look(table: map<nat, Meta>, x: nat): Option<Meta> {
    if x in table then Some(table[x]) else None
  }

  /** `backend_set_zero(backend_direct(x))` on the block array. */
  function Zap(blocks: seq<Block>, x: nat): (r: seq<Block>)
    ensures |r| == |blocks|
  {
    if 0 < x < |blocks| && blocks[x].hdr.keyLen + blocks[x].hdr.valLen <= |blocks[x].body|
    then blocks[x := SetZero(blocks[x])] else blocks
  }

  function Settle(cfg: Config, x: nat, b: Block, table: map<nat, Meta>): Block {
    if x in table && x < cfg.total && Contained(cfg, x, b) && table[x].valLen <= cfg.maxVal
    then Restamped(cfg, x, b, table[x]) else b
  }

  /** `tx_slot_meta_upd_process` */
  function SettleAll(cfg: Config, blocks: seq<Block>, table: map<nat, Meta>): seq<Block> {
    seq(|blocks|, x requires 0 <= x < |blocks| => Settle(cfg, x, blocks[x], table))
  }

  /** The committed objects after a transaction's log takes effect as a whole. */
  ghost function CommitDb(cfg: Config, s: Sys, log: seq<Op>): map<nat, Block>
    requires AllFit(cfg, log)
    requires forall x :: 0 <= x < |s.blocks| ==> Contained(cfg, x, s.blocks[x])
  {
    map x | 0 < x < |s.blocks| && !Targets(log, x) && (x in s.db || News(log, x)) ::
      if Patches(log, x) && x < cfg.total then Replay(cfg, x, s.blocks[x], None, log)
      else if News(log, x) then s.blocks[x]
      else s.db[x]
  }

  /** The committed objects after a committed, not yet executed transaction is taken back. */
  ghost function RollbackDb(s: Sys, log: seq<Op>): map<nat, Block> {
    map x | 0 < x < |s.blocks| && !News(log, x) && (x in s.db || (Targets(log, x) && Live(s.blocks[x]))) ::
      if Targets(log, x) || Patches(log, x) then s.blocks[x] else s.db[x]
  }

  function WithTx(s: Sys, i: nat, t: Tx): (r: Sys)
    requires i < |s.txs|
    ensures |r.txs| == |s.txs| && r.txs[i] == t && forall j :: 0 <= j < |s.txs| && j != i ==> r.txs[j] == s.txs[j]
  {
    s.(txs := s.txs[i := t])
  }

  ghost predicate Shaped(cfg: Config, s: Sys) {
    && |s.blocks| == cfg.Ids()
    && (forall x :: 0 <= x < |s.blocks| ==> Contained(cfg, x, s.blocks[x]))
    && (forall i :: 0 <= i < |s.txs| ==> AllFit(cfg, s.txs[i].log) && s.txs[i].pc <= |s.txs[i].log|)
  }

  ghost function Do(cfg: Config, s: Sys, a: Action): Sys
    requires Shaped(cfg, s) && Can(cfg, s, a)
  {
    var t := s.txs[a.i];
    match a
    case Begin(i) => WithTx(s, i, Idle(t.stale).(status := Processing)).(freeSlots := s.freeSlots - {i})
    case Shrink(i) => WithTx(s, i, t.(stale := []))
    case Take(i, x) => WithTx(s, i, t.(hand := x)).(free := s.free - {x})
    case GiveBack(i) => WithTx(s, i, t.(hand := 0)).(free := s.free + {t.hand})
    case LogNew(i, op) => WithTx(s, i, t.(log := t.log + [op], hand := 0, fill := t.hand))
    case Fill(i, b) => s.(blocks := s.blocks[t.fill := b])
    case Seal(i) => WithTx(s, i, t.(fill := 0)).(blocks := s.blocks[t.fill := Sealed(cfg, t.fill, s.blocks[t.fill])])
    case LogDel(i, x) => WithTx(s, i, t.(log := t.log + [Remove(x)]))
    case LogPatch(i, op) => WithTx(s, i, t.(log := t.log + [op]))
    case Commit(i) => WithTx(s, i, t.(status := Commited)).(db := CommitDb(cfg, s, t.log))
    case Exec(i) => ExecOne(cfg, s, i)
    case Restamp(i, x) => WithTx(s, i, t.(table := t.table - {x})).(blocks := s.blocks[x := Settle(cfg, x, s.blocks[x], t.table)])
    case ExecDone(i) => WithTx(s, i, Idle(t.log)).(blocks := SettleAll(cfg, s.blocks, t.table), freeSlots := s.freeSlots + {i})
    case Abort(i) => WithTx(s, i, t.(status := Aborted)).(db := if t.status.Processing? then s.db else RollbackDb(s, t.log))
    case Undo(i) => UndoOne(s, i)
    case AbortDone(i) => WithTx(s, i, Idle(t.log)).(freeSlots := s.freeSlots + {i})
  }

  /** One entry of `tx_slot_execute`. */
  function ExecOne(cfg: Config, s: Sys, i: nat): (r: Sys)
    requires i < |s.txs| && s.txs[i].pc < |s.txs[i].log| && Shaped(cfg, s)
    ensures Shaped(cfg, r)
  {
    var t := s.txs[i];
    var op := t.log[t.pc];
    var next := t.(pc := t.pc + 1);
    if op.InPlace? then
      assert Fits(cfg, op);
      var m := if op.id in t.table then t.table[op.id] else HeaderMeta(s.blocks[op.id]);
      WithTx(s, i, next.(table := t.table[op.id := Bump(m, op.offset + |op.payload|)]))
        .(blocks := s.blocks[op.id := Stamp(cfg, s.blocks[op.id], op)])
    else if Get(s.blocks, OldOf(op)).Some? then
      WithTx(s, i, next).(blocks := Zap(s.blocks, OldOf(op)), free := s.free + {OldOf(op)})
    else WithTx(s, i, next)
  }

  /** One entry of `tx_slot_abort`: new blocks are zeroed and returned unconditionally. */
  function UndoOne(s: Sys, i: nat): (r: Sys)
    requires i < |s.txs| && s.txs[i].pc < |s.txs[i].log|
  {
    var t := s.txs[i];
    var x := NewOf(t.log[t.pc]);
    var next := t.(pc := t.pc + 1);
    if x == 0 then WithTx(s, i, next)
    else WithTx(s, i, next).(blocks := Zap(s.blocks, x), free := s.free + {x})
  }

  // ---- the invariant ----

  ghost predicate TxOK(cfg: Config, s: Sys, i: nat)
    requires i < |s.txs|
  {
    var t := s.txs[i];
    && (i in s.freeSlots <==> t.status.Empty?)
    && (t.status.Empty? ==> t.log == [])
    && (t.stale != [] ==> t.log == [] && (t.status.Empty? || t.status.Processing?))
    && (!t.status.Commited? ==> t.table == map[])
    && (t.status.Processing? ==> t.pc == 0)
    && (t.pc == 0 ==> t.table == map[])
    && (t.fill != 0 ==> t.status.Processing? && t.hand == 0 && News(t.log, t.fill))
    && (t.hand == 0 || t.hand < |s.blocks|)
    && (forall k :: 0 <= k < |t.log| ==> Encodable(t.log[k]) && (NewOf(t.log[k]) == 0 || NewOf(t.log[k]) < |s.blocks|))
    && (forall x :: x in t.table ==> Patches(t.log, x) && t.table[x].valLen <= cfg.maxVal)
    && (forall x :: Patches(t.log, x) ==> !Targets(t.log, x))
  }

  /** An id no transaction is working on: committed exactly when live, free exactly when not. */
  ghost predicate Quiet(s: Sys, x: nat)
    requires x < |s.blocks|
  {
    && (x in s.db <==> Live(s.blocks[x]))
    && (x in s.db ==> s.db[x] == s.blocks[x])
    && (x in s.free <==> x !in s.db)
  }

  /** Execute or its metadata pass has still to change the header of a block the log patches. */
  predicate Unsettled(t: Tx, x: nat) { t.pc < |t.log| || x in t.table }

  /** The pending version of `x` counts the entries of execute that hit it so far, until the metadata pass
      has written it. */
  ghost predicate Tallied(t: Tx, x: nat, b: Block)
    requires t.pc <= |t.log|
  {
    var n := HitCount(t.log[..t.pc], x);
    if x in t.table then t.table[x].version == Later(b.hdr.version, n) else n == 0 || !Unsettled(t, x)
  }

  /** What holds of an id the transaction `t` is working on. */
  ghost predicate Owned(cfg: Config, s: Sys, t: Tx, x: nat)
    requires x < |s.blocks| && t.pc <= |t.log|
    requires Contained(cfg, x, s.blocks[x]) && AllFit(cfg, t.log)
  {
    var b := s.blocks[x];
    if t.hand == x then
      !Live(b) && x !in s.db && x !in s.free && !Mentions(t.log, x)
    else if t.status.Processing? && News(t.log, x) then
      x !in s.db && x !in s.free && (if x == t.fill then !Live(b) else Intact(cfg, x, b))
    else if t.status.Commited? && Targets(t.log, x) then
      && x !in s.db && (x in s.free <==> !Live(b))
      && (Live(b) ==> Intact(cfg, x, b) && !Targets(t.log[..t.pc], x))
      && (News(t.log, x) && !Targets(t.log[..t.pc], x) ==> Live(b))
    else if t.status.Commited? && Patches(t.log, x) then
      && x < cfg.total && Live(b) && (t.pc == 0 ==> Intact(cfg, x, b)) && x in s.db && x !in s.free
      && (x in t.table ==> t.table[x].valLen <= cfg.maxVal)
      && AllFit(cfg, t.log[t.pc..])
      && s.db[x] == Replay(cfg, x, b, Look(t.table, x), t.log[t.pc..])
      && Tallied(t, x, b)
    else if t.status.Aborted? && News(t.log, x) then
      && x !in s.db && (x in s.free <==> News(t.log[..t.pc], x))
      && (News(t.log[..t.pc], x) ==> !Live(b))
    else Quiet(s, x) && (t.status.Commited? || Patches(t.log, x) ==> x in s.db)
  }

  ghost predicate IdOK(cfg: Config, s: Sys, x: nat)
    requires Shaped(cfg, s) && x < |s.blocks|
  {
    && (forall i :: 0 <= i < |s.txs| && Touches(s.txs[i], x) ==> Owned(cfg, s, s.txs[i], x))
    && ((forall i :: 0 <= i < |s.txs| ==> !Touches(s.txs[i], x)) ==> Quiet(s, x))
  }

  /** No id is worked on by two transactions. */
  ghost predicate Separate(s: Sys) {
    forall i, j, x :: 0 <= i < |s.txs| && 0 <= j < |s.txs| && i != j && Touches(s.txs[i], x) ==> !Touches(s.txs[j], x)
  }

  ghost predicate Inv(cfg: Config, s: Sys) {
    && Shaped(cfg, s)
    && (forall x :: x in s.free ==> 0 < x < |s.blocks|)
    && (forall x :: x in s.db ==> 0 < x < |s.blocks| && Intact(cfg, x, s.db[x]))
    && (forall i :: i in s.freeSlots ==> i < |s.txs|)
    && (forall i :: 0 <= i < |s.txs| ==> TxOK(cfg, s, i))
    && Separate(s)
    && (forall x :: 0 < x < |s.blocks| ==> IdOK(cfg, s, x))
  }

  /** An empty store as the reopen path leaves it: nothing live, every id free in its region, all slots free. */
  ghost predicate Init(cfg: Config, s: Sys) {
    && |s.blocks| == cfg.Ids()
    && (forall x :: 0 <= x < |s.blocks| ==> Contained(cfg, x, s.blocks[x]) && !Live(s.blocks[x]))
    && (forall x :: x in s.free <==> 0 < x < |s.blocks|)
    && (forall i :: 0 <= i < |s.txs| ==> s.txs[i] == Idle(s.txs[i].stale))
    && (forall i :: i in s.freeSlots <==> i < |s.txs|)
    && s.db == map[]
  }
}
