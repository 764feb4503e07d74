/** The store handle: block array, free lists, log slots and side tables, updated in place by the calls of
    the public interface. Each call is proved against its effect on the machine state. */
module Store {
  import opened Words
  import opened Ranges
  import opened Blocks
  import opened TxLog
  import opened InPlace
  import opened Machine
  import opened Api
  import opened Crash
  import opened Runs
  import opened Sessions
  import opened Pool
  import SideTable
  import Scan

  const OK: nat := 0
  const ERR: nat := 1
  const ENOENT: nat := 2
  const ENOSPC: nat := 3
  const ESIZE: nat := 8
  const EWRGID: nat := 9
  const EARGS: nat := 10

  /** The slot's size covers a log the source wrote. */
  ghost predicate Written(cfg: Config, s: Slot) {
    s.size <= |s.bytes| && WellFormed(s.bytes, SLOT_HDR, s.size) && Sane(cfg, Parse(s.bytes, SLOT_HDR, s.size))
  }

  /** An empty slot may still have the size, and the log, of its last transaction. */
  ghost predicate SlotOK(cfg: Config, s: Slot) {
    SLOT_HDR <= |s.bytes| && (Written(cfg, s) || (s.status.Empty? && s.size < SLOT_HDR))
  }

  ghost function LogOf(cfg: Config, s: Slot): (log: seq<Op>)
    requires SlotOK(cfg, s)
    ensures Sane(cfg, log)
  {
    if s.size < SLOT_HDR then [] else Parse(s.bytes, SLOT_HDR, s.size)
  }

  /** The slot as the machine sees it between calls. */
  ghost function TxOf(cfg: Config, s: Slot): (t: Tx)
    requires SlotOK(cfg, s)
    ensures AllFit(cfg, t.log) && t.pc == 0 && t.status == s.status && Sane(cfg, t.log)
  {
    if s.status.Empty? then Idle(LogOf(cfg, s)) else IDLE.(status := s.status, log := LogOf(cfg, s))
  }

  lemma {:induction false} BegunSlot(cfg: Config, s: Slot)
    requires SLOT_HDR <= |s.bytes|
    ensures SlotOK(cfg, Begun(s)) && TxOf(cfg, Begun(s)) == IDLE.(status := Processing)
  {
  }

  lemma {:induction false} AppendedSlot(cfg: Config, s: Slot, op: Op)
    requires SlotOK(cfg, s) && s.status.Processing? && Sane(cfg, [op]) && s.size + EntryLen(op) <= |s.bytes|
    ensures SlotOK(cfg, Appended(s, op))
    ensures TxOf(cfg, Appended(s, op)) == TxOf(cfg, s).(log := TxOf(cfg, s).log + [op])
  {
    assert [op][0] == op;
    AppendLast(s, SLOT_HDR, TxOf(cfg, s).log, op);
  }

  ghost predicate SlotsOK(cfg: Config, slots: seq<Slot>) {
    forall i :: 0 <= i < |slots| ==> SlotOK(cfg, slots[i])
  }

  ghost function TxsOf(cfg: Config, slots: seq<Slot>): (ts: seq<Tx>)
    requires SlotsOK(cfg, slots)
    ensures |ts| == |slots| && forall i :: 0 <= i < |slots| ==> ts[i] == TxOf(cfg, slots[i])
  {
    seq(|slots|, i requires 0 <= i < |slots| => TxOf(cfg, slots[i]))
  }

  lemma {:induction false} SlotUpdated(cfg: Config, slots: seq<Slot>, i: nat, s: Slot)
    requires SlotsOK(cfg, slots) && i < |slots| && SlotOK(cfg, s)
    ensures SlotsOK(cfg, slots[i := s]) && TxsOf(cfg, slots[i := s]) == TxsOf(cfg, slots)[i := TxOf(cfg, s)]
  {
    assert forall j :: 0 <= j < |slots| && j != i ==> slots[i := s][j] == slots[j];
  }

  /** Slot ids are 1-based in the list and 0-based in the machine. */
  ghost function FreeSlots(slotFree: seq<Range>): (r: set<nat>)
    ensures forall i: nat :: i in r <==> i + 1 in Ids(slotFree)
  {
    var r := set x | x in Ids(slotFree) && x > 0 :: x - 1;
    assert forall i: nat :: i + 1 in Ids(slotFree) ==> i in r by {
      forall i: nat | i + 1 in Ids(slotFree) ensures i in r { assert (i + 1) - 1 == i; }
    }
    r
  }

  lemma {:induction false} SlotReturned(slotFree: seq<Range>, slot: nat)
    requires Canonical(slotFree) && slot > 0
    ensures Canonical(Push(slotFree, slot)) && Ids(Push(slotFree, slot)) == Ids(slotFree) + {slot}
    ensures FreeSlots(Push(slotFree, slot)) == FreeSlots(slotFree) + {slot - 1}
  {
    PushInserts(slotFree, slot);
    var after := FreeSlots(Push(slotFree, slot));
    assert forall i: nat :: i in after <==> i in FreeSlots(slotFree) + {slot - 1};
  }

  /** `caslist_new(1, n)` for the slot ids. */
  function AllSlots(n: nat): (list: seq<Range>)
    ensures Canonical(list) && (forall i :: i in Ids(list) <==> 0 < i <= n)
  {
    assert [Range(1, n)][1..] == [];
    assert forall i :: i in Span(Range(1, n)) <==> Within(Range(1, n), i);
    if n == 0 then [] else [Range(1, n)]
  }

  function BlankTables(n: nat): (ts: seq<SideTable.Table>)
    ensures |ts| == n && forall i :: 0 <= i < n ==> SideTable.Clear(ts[i])
  {
    var blank := SideTable.Table(seq(SideTable.CAPACITY, k => SideTable.BLANK), 0);
    seq(n, i => blank)
  }

  /** One slot's share of the walk. */
  function WalkedSlot(cfg: Config, blocks: seq<Block>, t: Tx): seq<Block> {
    if t.status.Empty? then blocks else RecoverLog(cfg, blocks, t.log, t.status.Commited?)
  }

  /** Where the slots from `id` on lead. */
  function RestOfSlots(cfg: Config, blocks: seq<Block>, found: seq<Tx>, id: nat): seq<Block>
    decreases |found| - id
  {
    if id >= |found| then blocks else RestOfSlots(cfg, WalkedSlot(cfg, blocks, found[id]), found, id + 1)
  }

  lemma {:induction false} RestIsWalk(cfg: Config, blocks: seq<Block>, found: seq<Tx>, id: nat)
    requires 1 <= id <= |found|
    ensures RestOfSlots(cfg, RecoverSlots(cfg, blocks, found, 1, id), found, id) == RecoverSlots(cfg, blocks, found, 1, |found|)
    decreases |found| - id
  {
    if id < |found| { RestIsWalk(cfg, blocks, found, id + 1); }
  }

  /** What the walk reads in the slot. */
  ghost function SeenIn(cfg: Config, slot: Slot): seq<Op>
    requires SlotOK(cfg, slot)
  {
    if slot.status.Empty? then []
    else if Readable(slot.bytes, SLOT_HDR, slot.size) then Seen(slot.bytes, SLOT_HDR, slot.size)
    else LogOf(cfg, slot)
  }

  ghost function SeenInAll(cfg: Config, slots: seq<Slot>): (r: seq<seq<Op>>)
    requires SlotsOK(cfg, slots)
    ensures |r| == |slots| && forall j :: 0 <= j < |slots| ==> r[j] == SeenIn(cfg, slots[j])
  {
    seq(|slots|, j requires 0 <= j < |slots| => SeenIn(cfg, slots[j]))
  }

  /** The bytes are read as the crash theorems suppose: a log without payloads as it was written, and in any case the
      first entry. */
  lemma {:induction false} SlotsSighted(cfg: Config, slots: seq<Slot>)
    requires SlotsOK(cfg, slots)
    ensures Sighted(TxsOf(cfg, slots), SeenInAll(cfg, slots))
  {
    forall j | 0 <= j < |slots|
      ensures var log := Durable(TxOf(cfg, slots[j])).log;
              && (NoPayloads(log) ==> SeenIn(cfg, slots[j]) == log)
              && (log != [] ==> SeenIn(cfg, slots[j]) != [] && SeenIn(cfg, slots[j])[0] == log[0])
    {
      SlotSighted(cfg, slots[j]);
    }
  }

  lemma {:induction false} SlotSighted(cfg: Config, slot: Slot)
    requires SlotOK(cfg, slot)
    ensures var log := TxOf(cfg, slot).log;
            && (NoPayloads(log) ==> SeenIn(cfg, slot) == log)
            && (log != [] ==> SeenIn(cfg, slot) != [] && SeenIn(cfg, slot)[0] == log[0])
  {
    var log := TxOf(cfg, slot).log;
    if !slot.status.Empty? {
      if NoPayloads(log) { SeenAsLogged(slot.bytes, SLOT_HDR, slot.size); }
      if log != [] && Readable(slot.bytes, SLOT_HDR, slot.size) {
        assert SLOT_HDR < slot.size && FirstId(log[0]) != 0 && log[0] == ParseOp(slot.bytes, SLOT_HDR);
        FirstSeen(slot.bytes, slot.size);
      }
    }
  }

  /** The walk stays inside the slot and has nothing to redo in place, which would leave the side table dirty. */
  ghost predicate WalkReadable(cfg: Config, slot: Slot, sum: bool)
    requires SlotOK(cfg, slot)
  {
    !slot.status.Empty? ==>
      && Readable(slot.bytes, SLOT_HDR, slot.size)
      && (slot.status.Commited? && sum ==> forall k :: 0 <= k < |SeenIn(cfg, slot)| ==> !SeenIn(cfg, slot)[k].InPlace?)
  }

  /** One slot of the walk, judged by the outcome of its checksum test, with whatever its stride reads. */
  method CheckSlot(cfg: Config, blocks: array<Block>, slot: Slot, sum: bool, table: SideTable.Table)
    returns (after: Slot, t: SideTable.Table)
    requires AllContained(cfg, blocks[..]) && blocks.Length == cfg.Ids() && SlotOK(cfg, slot) && WalkReadable(cfg, slot, sum)
    requires SideTable.Clear(table)
    modifies blocks
    ensures AllContained(cfg, blocks[..]) && SideTable.Clear(t)
    ensures SlotOK(cfg, after) && TxOf(cfg, after) == Left(TxOf(cfg, slot), false)
    ensures blocks[..] == WalkedSlot(cfg, old(blocks[..]), Judge(TxOf(cfg, slot), sum).(log := SeenIn(cfg, slot)))
  {
    after, t := slot, table;
    if !slot.status.Empty? {
      assert slot.status.Commited? && sum ==> PatchedIds(SeenIn(cfg, slot)) == {};
      t := WalkLog(cfg, blocks, slot, sum && slot.status.Commited?, table);
      SideTable.NoKeysClear(t);
      after := slot.(status := Empty, size := 0);
    }
  }

  ghost predicate AllReadable(cfg: Config, slots: seq<Slot>, sums: seq<bool>)
    requires SlotsOK(cfg, slots) && |sums| == |slots|
  {
    forall j :: 1 <= j < |slots| ==> WalkReadable(cfg, slots[j], sums[j])
  }

  ghost predicate TablesClear(tables: seq<SideTable.Table>) {
    forall i :: 0 <= i < |tables| ==> SideTable.Clear(tables[i])
  }

  /** The slots below `id`, but for the first, have been walked; all side tables are blank. */
  ghost predicate WalkedBelow(cfg: Config, slots: seq<Slot>, after: seq<Slot>, ts: seq<SideTable.Table>, id: nat)
    requires SlotsOK(cfg, slots)
  {
    && SlotsOK(cfg, after) && |after| == |slots| == |ts| && TablesClear(ts)
    && (forall j :: 1 <= j < |slots| ==> if j < id then TxOf(cfg, after[j]) == Left(TxOf(cfg, slots[j]), false) else after[j] == slots[j])
    && (|slots| > 0 ==> after[0] == slots[0])
  }

  /** One turn of the loop over the slots. */
  method CheckTurn(cfg: Config, blocks: array<Block>, slots: seq<Slot>, sums: seq<bool>, after: seq<Slot>, ts: seq<SideTable.Table>, id: nat,
                   ghost found: seq<Tx>)
    returns (next: seq<Slot>, us: seq<SideTable.Table>)
    requires AllContained(cfg, blocks[..]) && blocks.Length == cfg.Ids() && SlotsOK(cfg, slots) && |sums| == |slots| && 1 <= id < |slots|
    requires WalkReadable(cfg, slots[id], sums[id]) && WalkedBelow(cfg, slots, after, ts, id)
    requires |found| == |slots| && found[id] == Judge(TxOf(cfg, slots[id]), sums[id]).(log := SeenIn(cfg, slots[id]))
    modifies blocks
    ensures AllContained(cfg, blocks[..]) && WalkedBelow(cfg, slots, next, us, id + 1)
    ensures RestOfSlots(cfg, blocks[..], found, id + 1) == RestOfSlots(cfg, old(blocks[..]), found, id)
  {
    var done, t := CheckSlot(cfg, blocks, after[id], sums[id], ts[id]);
    next, us := after[id := done], ts[id := t];
  }

  /** `tx_log_check`. `sums` gives the outcome of each slot's checksum test. The loop's ids run from 1 to
      the number of slots but are used as 0-based indices: the first slot is skipped and the last id finds
      no slot. */
  method CheckSlots(cfg: Config, blocks: array<Block>, slots: seq<Slot>, sums: seq<bool>, tables: seq<SideTable.Table>)
    returns (after: seq<Slot>, ts: seq<SideTable.Table>)
    requires AllContained(cfg, blocks[..]) && blocks.Length == cfg.Ids() && SlotsOK(cfg, slots)
    requires |sums| == |slots| == |tables| && AllReadable(cfg, slots, sums) && TablesClear(tables)
    modifies blocks
    ensures AllContained(cfg, blocks[..])
    ensures blocks[..] == RecoverSlots(cfg, old(blocks[..]), Sighting(TxsOf(cfg, slots), sums, SeenInAll(cfg, slots)), FirstWalked(|slots|), |slots|)
    ensures SlotsOK(cfg, after) && |after| == |slots| == |ts| && TablesClear(ts)
    ensures forall j :: 1 <= j < |after| ==> TxOf(cfg, after[j]) == Left(TxOf(cfg, slots[j]), false)
    ensures |slots| > 0 ==> after[0] == slots[0]
  {
    ghost var found := Sighting(TxsOf(cfg, slots), sums, SeenInAll(cfg, slots));
    ghost var final := RestOfSlots(cfg, blocks[..], found, 1);
    if |slots| > 0 { RestIsWalk(cfg, blocks[..], found, 1); }
    after, ts := slots, tables;
    var id := 1;
    while id <= |slots|
      invariant 1 <= id && WalkedBelow(cfg, slots, after, ts, id)
      invariant RestOfSlots(cfg, blocks[..], found, id) == final && AllContained(cfg, blocks[..])
    {
      if id < |slots| {
        after, ts := CheckTurn(cfg, blocks, slots, sums, after, ts, id, found);
      }
      id := id + 1;
    }
  }

  lemma {:induction false} SlotTaken(slotFree: seq<Range>)
    requires Canonical(slotFree)
    ensures Canonical(Pop(slotFree).1) && (Pop(slotFree).0.None? <==> FreeSlots(slotFree) == {})
    ensures Pop(slotFree).0.Some? ==> var v := Pop(slotFree).0.value;
              && v in Ids(slotFree) && v > 0 && v - 1 in FreeSlots(slotFree)
              && (forall j :: j in FreeSlots(slotFree) ==> v - 1 <= j)
              && Ids(Pop(slotFree).1) == Ids(slotFree) - {v}
              && FreeSlots(Pop(slotFree).1) == FreeSlots(slotFree) - {v - 1}
  {
    PopTakesMinimum(slotFree);
    if Pop(slotFree).0.None? {
      assert FreeSlots(slotFree) == {};
    } else {
      var v := Pop(slotFree).0.value;
      assert v - 1 in FreeSlots(slotFree);
      assert FreeSlots(Pop(slotFree).1) == FreeSlots(slotFree) - {v - 1};
    }
  }

  /** Restart after a crash anywhere in a run, inside or between calls. `v` is what the reopened handle finds: the
      blocks as the crash left them, and slots that hold on disk what those of `r` did. If the crash is one that
      `Crash.WalkExact` shows to be survivable, walk and scan bring back exactly the committed objects, free exactly
      the rest, and leave a state in which everything proved over runs holds again. */
  lemma {:induction false} RestartRestores(cfg: Config, r: Sys, v: Sys, sums: seq<bool>, seen: seq<seq<Op>>)
    requires Inv(cfg, r) && Possible(cfg, r, PowerLoss(sums, seen))
    requires v.blocks == r.blocks && v.db == r.db && SameDurable(r.txs, v.txs)
    ensures var blocks := CheckedBlocks(cfg, v, sums, seen);
            && LiveMap(blocks) == r.db
            && (forall x :: 0 < x < |blocks| ==> (ScannedFree(cfg, blocks, x) <==> x !in r.db))
            && Inv(cfg, Restarted(cfg, v, blocks))
  {
    var start := FirstWalked(|r.txs|);
    WalkSeesDurable(cfg, r.blocks, r.txs, v.txs, sums, seen, start, |r.txs|);
    AllContainedSlots(cfg, r.blocks, Sighting(r.txs, sums, seen), start, |r.txs|);
    WalkExact(cfg, r, sums, seen, start);
    var blocks := CheckedBlocks(cfg, v, sums, seen);
    RestartKeeps(cfg, v, blocks);
    forall x | 0 < x < |blocks| ensures ScannedFree(cfg, blocks, x) <==> x !in r.db {
      assert x in Restarted(cfg, v, blocks).free <==> ScannedFree(cfg, blocks, x);
    }
  }

  /** What abort reads in the slot as new blocks. */
  ghost function FreshOf(slot: Slot): seq<nat> {
    if Strideable(slot.bytes, SLOT_HDR, slot.size) then FreshIds(slot.bytes, SLOT_HDR, slot.size) else []
  }

  /** Abort stays inside the slot and reads ids that exist. */
  ghost predicate AbortReadable(cfg: Config, slot: Slot) {
    !slot.status.Empty? ==>
      Strideable(slot.bytes, SLOT_HDR, slot.size) && forall x :: x in FreshIds(slot.bytes, SLOT_HDR, slot.size) ==> x < cfg.Ids()
  }

  lemma {:induction false} AbortAsLogged(cfg: Config, s: Sys, i: nat, slot: Slot)
    requires Shaped(cfg, s) && i < |s.txs| && s.txs[i].pc == 0 && SlotOK(cfg, slot) && !slot.status.Empty?
    requires s.txs[i].log == TxOf(cfg, slot).log && NoPayloads(s.txs[i].log)
    ensures AbortReadEffect(s, i, FreshOf(slot)) == AbortEffect(cfg, s, i)
  {
    FreshAsLogged(slot.bytes, SLOT_HDR, slot.size);
    AbortReadWritten(cfg, s, i);
  }

  class Store {
    const cfg: Config
    const blocks: array<Block>
    var lists: FreeLists
    var objs: FreeLists
    var slots: seq<Slot>
    var slotFree: seq<Range>
    var tables: seq<SideTable.Table>
    ghost var db: map<nat, Block>

    ghost predicate Valid()
      reads this, blocks
    {
      && blocks.Length == cfg.Ids() <= U64
      && AllContained(cfg, blocks[..])
      && ListsOK(cfg, lists)
      && SlotsOK(cfg, slots)
      && |tables| == |slots| && TablesClear(tables)
      && Canonical(slotFree) && (forall i :: i in Ids(slotFree) ==> 0 < i <= |slots|)
    }

    /** The machine state this object stands for. */
    ghost function View(): (s: Sys)
      reads this, blocks
      requires Valid()
      ensures Shaped(cfg, s)
    {
      Sys(blocks[..], FreeIds(lists), TxsOf(cfg, slots), FreeSlots(slotFree), db)
    }

    /** `pmb_get` */
    method Read(x: nat) returns (r: Option<Block>)
      requires Valid()
      ensures r == if x in LiveMap(blocks[..]) then Some(LiveMap(blocks[..])[x]) else None
      ensures r == Get(blocks[..], x)
    {
      if x == 0 || x >= blocks.Length || blocks[x].flch == 0 {
        return None;
      }
      return Some(blocks[x]);
    }

    /** One slot is rewritten; nothing else moves. */
    method SetSlot(i: nat, slot: Slot)
      requires Valid() && i < |slots| && SlotOK(cfg, slot)
      modifies this`slots
      ensures Valid() && slots == old(slots)[i := slot] && View() == WithTx(old(View()), i, TxOf(cfg, slot))
    {
      SlotUpdated(cfg, slots, i, slot);
      slots := slots[i := slot];
    }

    /** `pmb_tx_begin` */
    method TxBegin() returns (err: nat, slot: nat)
      requires Valid()
      modifies this`slots, this`slotFree
      ensures Valid()
      ensures old(View().freeSlots) == {} <==> err != OK
      ensures err != OK ==> err == ERR && View() == old(View())
      ensures err == OK ==> 0 < slot <= |slots| && slot - 1 in old(View().freeSlots)
                            && (forall j :: j in old(View().freeSlots) ==> slot - 1 <= j)
                            && View() == BeginEffect(old(View()), slot - 1)
    {
      SlotTaken(slotFree);
      var (v, rest) := Pop(slotFree);
      if v.None? {
        return ERR, 0;
      }
      slot := v.value;
      slotFree := rest;
      BegunSlot(cfg, slots[slot - 1]);
      SetSlot(slot - 1, Begun(slots[slot - 1]));
      return OK, slot;
    }

    /** `pmb_tx_commit` */
    method TxCommit(slot: nat) returns (err: nat)
      requires Valid()
      modifies this`slots, this`db
      ensures Valid()
      ensures err == if slot == 0 || slot > |old(slots)| then EARGS
                     else if !old(slots)[slot - 1].status.Processing? then ERR else OK
      ensures err != OK ==> View() == old(View())
      ensures err == OK ==> View() == CommitEffect(cfg, old(View()), slot - 1)
    {
      if slot == 0 || slot > |slots| {
        return EARGS;
      }
      err := EndCommit(slot - 1);
    }

    method EndCommit(i: nat) returns (err: nat)
      requires Valid() && i < |slots|
      modifies this`slots, this`db
      ensures Valid() && err == if old(slots)[i].status.Processing? then OK else ERR
      ensures err == ERR ==> View() == old(View())
      ensures err == OK ==> View() == CommitEffect(cfg, old(View()), i)
    {
      if !slots[i].status.Processing? {
        return ERR;
      }
      CommitSlot(i);
      return OK;
    }

    /** `tx_slot_commit` on a PROCESSING slot. */
    method CommitSlot(i: nat)
      requires Valid() && i < |slots| && slots[i].status.Processing?
      modifies this`slots, this`db
      ensures Valid() && View() == CommitEffect(cfg, old(View()), i)
    {
      ghost var was := View();
      SetSlot(i, slots[i].(status := Commited));
      db := CommitDb(cfg, was, was.txs[i].log);
    }

    /** The four appenders: nothing happens unless the slot is PROCESSING. */
    method Log(i: nat, op: Op) returns (err: nat)
      requires Valid() && i < |slots| && Sane(cfg, [op])
      requires slots[i].status.Processing? ==> slots[i].size + EntryLen(op) <= |slots[i].bytes|
      modifies this`slots
      ensures Valid()
      ensures err == if old(slots)[i].status.Processing? then OK else ERR
      ensures err != OK ==> View() == old(View())
      ensures err == OK ==> View() == WithEntry(old(View()), i, op)
    {
      if !slots[i].status.Processing? {
        return ERR;
      }
      AppendedSlot(cfg, slots[i], op);
      SetSlot(i, Appended(slots[i], op));
      return OK;
    }

    /** `pmb_tdel` */
    method Delete(slot: nat, x: nat) returns (err: nat)
      requires Valid() && x < U64
      requires 0 < slot <= |slots| && slots[slot - 1].status.Processing? ==>
                 slots[slot - 1].size + ENTRY <= |slots[slot - 1].bytes|
      modifies this`slots
      ensures Valid()
      ensures err == if slot == 0 || slot > |old(slots)| || x == 0 then EARGS
                     else if !old(slots)[slot - 1].status.Processing? then ERR else OK
      ensures err != OK ==> View() == old(View())
      ensures err == OK ==> View() == WithEntry(old(View()), slot - 1, Remove(x))
    {
      if slot == 0 || slot > |slots| || x == 0 {
        return EARGS;
      }
      err := Log(slot - 1, Remove(x));
    }

    /** `pmb_tput`. What the source leaves to its callers: a write that passes the 32-bit size comparison does
        not wrap, and the object written over is not a meta object. */
    method Put(slot: nat, kv: Pair) returns (err: nat, blkId: nat)
      requires Valid() && Words32(kv)
      requires PassesSizeGuard(cfg.maxVal, kv.offset, |kv.val|) ==> kv.offset + |kv.val| < U32
      requires Small(cfg, kv) || Get(View().blocks, kv.blkId).Some? ==> kv.blkId < cfg.total
      requires 0 < slot <= |slots| && slots[slot - 1].status.Processing? ==>
                 slots[slot - 1].size + ENTRY + (if Small(cfg, kv) then |kv.val| else 0) <= |slots[slot - 1].bytes|
      modifies this`lists, this`slots, blocks
      ensures Valid()
      // each code exactly, EARGS, ESIZE, ENOENT and ENOSPC before anything is logged; OK where the call takes effect
      ensures err in {OK, ERR, ENOENT, ENOSPC, ESIZE, EARGS}
      ensures err == EARGS <==> slot == 0 || slot > |old(slots)| || kv.key == [] || |kv.key| > cfg.maxKey || (kv.val == [] && kv.offset != 0)
      ensures err == ESIZE <==> err != EARGS && kv.offset + |kv.val| > cfg.maxVal
      ensures err == ENOENT <==> err !in {EARGS, ESIZE} && kv.blkId != 0 && |kv.val| >= cfg.maxVal / 2 && kv.blkId !in LiveMap(old(blocks[..]))
      ensures err == ENOSPC <==> err !in {EARGS, ESIZE, ENOENT} && (kv.blkId == 0 || |kv.val| >= cfg.maxVal / 2) && old(lists).data == []
      ensures err == ERR <==> err !in {EARGS, ESIZE, ENOENT, ENOSPC} && !old(slots)[slot - 1].status.Processing?
      ensures err == OK <==>
                && 0 < slot <= |old(slots)| && old(slots)[slot - 1].status.Processing?
                && 0 < |kv.key| <= cfg.maxKey && kv.offset + |kv.val| <= cfg.maxVal && (kv.val == [] ==> kv.offset == 0)
                && ((kv.blkId != 0 && |kv.val| < cfg.maxVal / 2)
                    || ((kv.blkId == 0 || kv.blkId in LiveMap(old(blocks[..]))) && old(lists).data != []))
      ensures err == OK ==> PutFine(cfg, old(View()), slot - 1, kv, blkId)
                            && View() == PutEffect(cfg, old(View()), slot - 1, kv, blkId)
      ensures err == OK ==> if Small(cfg, kv) then blkId == kv.blkId
                            else old(lists).data != [] && blkId == Lowest(old(lists).data)
      // an append that fails after the block was taken does not give the block back
      ensures err != OK ==> View() == if err == ERR && !Small(cfg, kv)
                                      then old(View()).(free := old(View()).free - {Lowest(old(lists).data)}) else old(View())
    {
      blkId := kv.blkId;
      if slot == 0 || slot > |slots| || |kv.key| > cfg.maxKey || kv.key == [] || (kv.val == [] && kv.offset != 0) {
        return EARGS, blkId;
      }
      SizeGuardExact(cfg.maxVal, kv.offset, |kv.val|);
      if !PassesSizeGuard(cfg.maxVal, kv.offset, |kv.val|) {
        return ESIZE, blkId;
      }
      err, blkId := PutChecked(slot - 1, kv);
    }

    /** `pmb_tput` after its argument checks. */
    method PutChecked(i: nat, kv: Pair) returns (err: nat, blkId: nat)
      requires Valid() && i < |slots| && DataPutFits(cfg, kv) && Words32(kv)
      requires Small(cfg, kv) || Get(View().blocks, kv.blkId).Some? ==> kv.blkId < cfg.total
      requires slots[i].status.Processing? ==> slots[i].size + ENTRY + (if Small(cfg, kv) then |kv.val| else 0) <= |slots[i].bytes|
      modifies this`lists, this`slots, blocks
      ensures Valid()
      ensures err == if !Small(cfg, kv) && kv.blkId != 0 && Get(old(View()).blocks, kv.blkId).None? then ENOENT
                     else if !Small(cfg, kv) && old(lists).data == [] then ENOSPC
                     else if old(slots)[i].status.Processing? then OK else ERR
      ensures err == OK ==> PutFine(cfg, old(View()), i, kv, blkId) && View() == PutEffect(cfg, old(View()), i, kv, blkId)
      ensures err == OK ==> if Small(cfg, kv) then blkId == kv.blkId
                            else old(lists).data != [] && blkId == Lowest(old(lists).data)
      ensures err != OK ==> View() == if err == ERR && !Small(cfg, kv)
                                      then old(View()).(free := old(View()).free - {Lowest(old(lists).data)}) else old(View())
    {
      if kv.blkId != 0 && |kv.val| < cfg.maxVal / 2 {
        blkId := kv.blkId;
        err := Log(i, PatchOp(kv));
        return;
      }
      err, blkId := Replace(i, kv);
    }

    /** The branch of `pmb_tput` that is not a small update. */
    method Replace(i: nat, kv: Pair) returns (err: nat, blkId: nat)
      requires Valid() && i < |slots| && DataPutFits(cfg, kv) && !Small(cfg, kv)
      requires Get(View().blocks, kv.blkId).Some? ==> kv.blkId < cfg.total
      requires slots[i].status.Processing? ==> slots[i].size + ENTRY <= |slots[i].bytes|
      modifies this`lists, this`slots, blocks
      ensures Valid()
      ensures err == if kv.blkId != 0 && Get(old(View()).blocks, kv.blkId).None? then ENOENT
                     else if old(lists).data == [] then ENOSPC
                     else if old(slots)[i].status.Processing? then OK else ERR
      ensures err == OK ==>
                && PutFine(cfg, old(View()), i, kv, blkId)
                && View() == PutEffect(cfg, old(View()), i, kv, blkId)
                && old(lists).data != [] && blkId == Lowest(old(lists).data)
      ensures err == ENOENT || err == ENOSPC ==> View() == old(View())
      ensures err == ERR ==> View() == old(View()).(free := old(View()).free - {Lowest(old(lists).data)})
    {
      var prev: Option<Block> := None;
      if kv.blkId != 0 {
        prev := Read(kv.blkId);
        if prev.None? {
          return ENOENT, kv.blkId;
        }
      }
      err, blkId := CopyOnWrite(i, prev, kv);
    }

    /** Take a block, log it, fill it: the second half of `pmb_tput`. */
    method CopyOnWrite(i: nat, prev: Option<Block>, kv: Pair) returns (err: nat, blkId: nat)
      requires Valid() && i < |slots| && DataPutFits(cfg, kv) && kv.blkId < cfg.total && prev == Prev(View(), kv)
      requires slots[i].status.Processing? ==> slots[i].size + ENTRY <= |slots[i].bytes|
      modifies this`lists, this`slots, blocks
      ensures Valid()
      ensures err == if old(lists).data == [] then ENOSPC else if old(slots)[i].status.Processing? then OK else ERR
      ensures err == OK ==>
                && old(lists).data != [] && blkId == Lowest(old(lists).data) && 0 < blkId < cfg.total
                && View() == NewBlock(old(View()), i, blkId, PutOp(kv.blkId, blkId), Sealed(cfg, blkId, NewData(cfg, old(View()), kv, blkId)))
      ensures err == ENOSPC ==> View() == old(View())
      ensures err == ERR ==> View() == old(View()).(free := old(View()).free - {Lowest(old(lists).data)})
    {
      blkId := kv.blkId;
      var v := TakeData();
      if v.None? {
        return ENOSPC, blkId;
      }
      err := LogAndFillData(i, v.value, prev, kv);
      if err == OK {
        blkId := v.value;
      }
    }

    /** The append and, if it succeeds, the write. */
    method LogAndFillData(i: nat, x: nat, prev: Option<Block>, kv: Pair) returns (err: nat)
      requires Valid() && i < |slots| && DataPutFits(cfg, kv) && kv.blkId < cfg.total && 0 < x < cfg.total
      requires prev.Some? ==> |prev.value.body| == cfg.body && prev.value.hdr.valLen <= cfg.maxVal
      requires slots[i].status.Processing? ==> slots[i].size + ENTRY <= |slots[i].bytes|
      modifies this`slots, blocks
      ensures Valid() && err == if old(slots)[i].status.Processing? then OK else ERR
      ensures err != OK ==> View() == old(View())
      ensures err == OK ==>
                var s := old(View());
                View() == WithEntry(s, i, PutOp(kv.blkId, x)).(blocks := s.blocks[x := Sealed(cfg, x, FilledData(cfg, x, s.blocks[x], prev, kv))])
    {
      err := Log(i, PutOp(kv.blkId, x));
      if err == OK {
        WriteData(x, prev, kv);
      }
    }

    /** `caslist_pop` on the data list. */
    method TakeData() returns (v: Option<nat>)
      requires Valid()
      modifies this`lists
      ensures Valid() && v.None? == (old(lists).data == [])
      ensures v.None? ==> View() == old(View())
      ensures v.Some? ==> v.value == Lowest(old(lists).data) && 0 < v.value < cfg.total && View() == old(View()).(free := old(View()).free - {v.value})
    {
      DataTaken(cfg, lists);
      v := Pop(lists.data).0;
      if v.Some? {
        lists := lists.(data := Pop(lists.data).1);
      }
    }

    /** Fills and seals a data block. */
    method WriteData(x: nat, prev: Option<Block>, kv: Pair)
      requires Valid() && x < cfg.total && DataPutFits(cfg, kv)
      requires prev.Some? ==> |prev.value.body| == cfg.body && prev.value.hdr.valLen <= cfg.maxVal
      modifies blocks
      ensures Valid()
      ensures View() == old(View()).(blocks := old(View()).blocks[x := Sealed(cfg, x, FilledData(cfg, x, old(View()).blocks[x], prev, kv))])
    {
      FillData(cfg, blocks, x, prev, kv);
    }

    /** `pmb_tput_meta` for writes whose 32-bit sums do not wrap. On a failed append the block goes back. */
    method PutMeta(slot: nat, kv: Pair) returns (err: nat, blkId: nat)
      requires Valid() && |kv.key| + |kv.val| < U32 && cfg.metaMaxKey + cfg.metaMaxVal < U32 && kv.blkId < U64
      requires 0 < slot <= |slots| && slots[slot - 1].status.Processing? ==>
                 slots[slot - 1].size + ENTRY <= |slots[slot - 1].bytes|
      modifies this`lists, this`slots, blocks
      ensures Valid()
      // each code exactly; OK where the call takes effect
      ensures err in {OK, ERR, ENOENT, ENOSPC, ESIZE, EWRGID, EARGS}
      ensures err == EARGS <==> slot == 0 || slot > |old(slots)| || kv.key == [] || kv.val == []
      ensures err == ESIZE <==> err != EARGS && |kv.key| + |kv.val| > cfg.metaMaxKey + cfg.metaMaxVal
      ensures err == EWRGID <==> err !in {EARGS, ESIZE} && 0 < kv.blkId < cfg.total
      ensures err == ENOENT <==> err !in {EARGS, ESIZE} && kv.blkId >= cfg.total && kv.blkId !in LiveMap(old(blocks[..]))
      ensures err == ENOSPC <==> err !in {EARGS, ESIZE, EWRGID, ENOENT} && old(lists).meta == []
      ensures err == ERR <==> err !in {EARGS, ESIZE, EWRGID, ENOENT, ENOSPC} && !old(slots)[slot - 1].status.Processing?
      ensures err == OK <==>
                && 0 < slot <= |old(slots)| && old(slots)[slot - 1].status.Processing?
                && kv.key != [] && kv.val != [] && |kv.key| + |kv.val| <= cfg.metaMaxKey + cfg.metaMaxVal
                && (kv.blkId == 0 || (kv.blkId >= cfg.total && kv.blkId in LiveMap(old(blocks[..])))) && old(lists).meta != []
      ensures err == OK ==>
                && old(lists).meta != [] && blkId == Lowest(old(lists).meta)
                && PutMetaFine(cfg, old(View()), slot - 1, kv, blkId)
                && View() == PutMetaEffect(cfg, old(View()), slot - 1, kv, blkId)
      ensures err != OK ==> View() == old(View()) && lists == old(lists)
    {
      blkId := kv.blkId;
      if slot == 0 || slot > |slots| || kv.key == [] || kv.val == [] {
        return EARGS, blkId;
      }
      if |kv.key| + |kv.val| > cfg.metaMaxKey + cfg.metaMaxVal {
        return ESIZE, blkId;
      }
      if kv.blkId < cfg.total && kv.blkId > 0 {
        return EWRGID, blkId;
      }
      err, blkId := ReplaceMeta(slot - 1, kv);
    }

    method ReplaceMeta(i: nat, kv: Pair) returns (err: nat, blkId: nat)
      requires Valid() && i < |slots| && MetaPutFits(cfg, kv) && kv.blkId < U64
      requires slots[i].status.Processing? ==> slots[i].size + ENTRY <= |slots[i].bytes|
      modifies this`lists, this`slots, blocks
      ensures Valid()
      ensures err == if kv.blkId != 0 && Get(old(View()).blocks, kv.blkId).None? then ENOENT
                     else if old(lists).meta == [] then ENOSPC
                     else if old(slots)[i].status.Processing? then OK else ERR
      ensures err == OK ==>
                && old(lists).meta != [] && blkId == Lowest(old(lists).meta)
                && PutMetaFine(cfg, old(View()), i, kv, blkId)
                && View() == PutMetaEffect(cfg, old(View()), i, kv, blkId)
      ensures err != OK ==> View() == old(View()) && lists == old(lists)
    {
      var prev: Option<Block> := None;
      if kv.blkId != 0 {
        prev := Read(kv.blkId);
        if prev.None? {
          return ENOENT, kv.blkId;
        }
      }
      err, blkId := WriteMeta(i, prev, kv);
    }

    /** Take a meta block, log it, fill it, or give it back: the second half of `pmb_tput_meta`. */
    method WriteMeta(i: nat, prev: Option<Block>, kv: Pair) returns (err: nat, blkId: nat)
      requires Valid() && i < |slots| && MetaPutFits(cfg, kv) && kv.blkId < U64 && prev == Prev(View(), kv)
      requires slots[i].status.Processing? ==> slots[i].size + ENTRY <= |slots[i].bytes|
      modifies this`lists, this`slots, blocks
      ensures Valid()
      ensures err == if old(lists).meta == [] then ENOSPC else if old(slots)[i].status.Processing? then OK else ERR
      ensures err == OK ==>
                && old(lists).meta != [] && blkId == Lowest(old(lists).meta) && cfg.total <= blkId < cfg.Ids()
                && View() == NewBlock(old(View()), i, blkId, PutOp(kv.blkId, blkId), Sealed(cfg, blkId, NewMeta(cfg, old(View()), kv, blkId)))
      ensures err != OK ==> View() == old(View()) && lists == old(lists)
    {
      blkId := kv.blkId;
      ghost var was := lists;
      var v := TakeMeta();
      if v.None? {
        return ENOSPC, blkId;
      }
      err := LogAndFillMeta(i, v.value, prev, kv);
      if err != OK {
        ReturnMeta(v.value, was);
        return;
      }
      blkId := v.value;
    }

    /** The append and, if it succeeds, the write. */
    method LogAndFillMeta(i: nat, x: nat, prev: Option<Block>, kv: Pair) returns (err: nat)
      requires Valid() && i < |slots| && MetaPutFits(cfg, kv) && kv.blkId < U64 && cfg.total <= x < cfg.Ids()
      requires slots[i].status.Processing? ==> slots[i].size + ENTRY <= |slots[i].bytes|
      modifies this`slots, blocks
      ensures Valid() && err == if old(slots)[i].status.Processing? then OK else ERR
      ensures err != OK ==> View() == old(View())
      ensures err == OK ==>
                var s := old(View());
                View() == WithEntry(s, i, PutOp(kv.blkId, x)).(blocks := s.blocks[x := Sealed(cfg, x, FilledMeta(cfg, x, s.blocks[x], prev, kv))])
    {
      err := Log(i, PutOp(kv.blkId, x));
      if err == OK {
        WriteMetaBlock(x, prev, kv);
      }
    }

    /** `caslist_push` of the block just popped from the meta list. */
    method ReturnMeta(x: nat, ghost was: FreeLists)
      requires Valid() && ListsOK(cfg, was) && was.meta != []
      requires lists == was.(meta := Pop(was.meta).1) && x == Lowest(was.meta)
      modifies this`lists
      ensures Valid() && lists == was
    {
      MetaTaken(cfg, was);
      lists := lists.(meta := Push(lists.meta, x));
    }

    /** Fills and seals a meta block. */
    method WriteMetaBlock(x: nat, prev: Option<Block>, kv: Pair)
      requires Valid() && cfg.total <= x < cfg.Ids() && MetaPutFits(cfg, kv)
      modifies blocks
      ensures Valid()
      ensures View() == old(View()).(blocks := old(View()).blocks[x := Sealed(cfg, x, FilledMeta(cfg, x, old(View()).blocks[x], prev, kv))])
    {
      FillMeta(cfg, blocks, x, prev, kv);
    }

    /** `caslist_pop` on the meta list. */
    method TakeMeta() returns (v: Option<nat>)
      requires Valid()
      modifies this`lists
      ensures Valid() && v.None? == (old(lists).meta == [])
      ensures v.None? ==> View() == old(View()) && lists == old(lists)
      ensures v.Some? ==> v.value == Lowest(old(lists).meta) && cfg.total <= v.value < cfg.Ids() && lists == old(lists).(meta := Pop(old(lists).meta).1)
                          && View() == old(View()).(free := old(View()).free - {v.value})
    {
      MetaTaken(cfg, lists);
      v := Pop(lists.meta).0;
      if v.Some? {
        lists := lists.(meta := Pop(lists.meta).1);
      }
    }

    // ---- execute and abort ----

    /** `tx_log_free_slot` */
    method FreeSlot(slot: nat)
      requires Valid() && 0 < slot <= |slots|
      modifies this`slotFree
      ensures Valid() && View() == old(View()).(freeSlots := old(View()).freeSlots + {slot - 1})
    {
      SlotReturned(slotFree, slot);
      slotFree := Push(slotFree, slot);
    }

    /** The entries of `tx_slot_execute` and the metadata pass. */
    method RunSlot(i: nat, ghost s: Sys)
      requires Valid() && i < |slots| && slots[i].status.Commited? && s == View()
      requires |PatchedIds(s.txs[i].log)| <= SideTable.CAPACITY
      modifies this`lists, this`tables, blocks
      ensures Valid()
      ensures var e := ExecPrefix(cfg, s, i, |s.txs[i].log|);
              View() == s.(blocks := SettleAll(cfg, e.blocks, e.txs[i].table), free := e.free)
    {
      ghost var e := ExecPrefix(cfg, s, i, |s.txs[i].log|);
      var g, t := RunLog(cfg, blocks, lists, slots[i], tables[i], i, s);
      lists := g;
      var blank := SideTable.Process(cfg, blocks, t);
      Settled(cfg, e, i, blocks[..]);
      tables := tables[i := blank];
    }

    /** `tx_slot_execute` on a committed slot: the entries, the metadata pass, the cleared status. */
    method ExecuteSlot(i: nat, ghost s: Sys)
      requires Valid() && i < |slots| && slots[i].status.Commited? && s == View()
      requires |PatchedIds(s.txs[i].log)| <= SideTable.CAPACITY
      modifies this`lists, this`slots, this`tables, blocks
      ensures Valid() && |slots| == |old(slots)| && View() == ExecutedOpen(cfg, s, i)
    {
      RunSlot(i, s);
      SetSlot(i, slots[i].(status := Empty));
    }

    /** `pmb_tx_execute`: the slot id goes back to the list even when the slot was not COMMITED. */
    method TxExecute(slot: nat) returns (err: nat)
      requires Valid()
      requires 0 < slot <= |slots| ==> |PatchedIds(View().txs[slot - 1].log)| <= SideTable.CAPACITY
      modifies this`lists, this`slots, this`tables, this`slotFree, blocks
      ensures Valid()
      ensures err == if slot == 0 || slot > |old(slots)| then EARGS else if old(slots)[slot - 1].status.Commited? then OK else ERR
      ensures err == EARGS ==> View() == old(View())
      ensures err == ERR ==> View() == old(View()).(freeSlots := old(View()).freeSlots + {slot - 1})
      ensures err == OK ==> View() == Executed(cfg, old(View()), slot - 1)
    {
      if slot == 0 || slot > |slots| {
        return EARGS;
      }
      err := EndExecute(slot - 1);
    }

    method EndExecute(i: nat) returns (err: nat)
      requires Valid() && i < |slots| && |PatchedIds(View().txs[i].log)| <= SideTable.CAPACITY
      modifies this`lists, this`slots, this`tables, this`slotFree, blocks
      ensures Valid() && err == if old(slots)[i].status.Commited? then OK else ERR
      ensures err == ERR ==> View() == old(View()).(freeSlots := old(View()).freeSlots + {i})
      ensures err == OK ==> View() == Executed(cfg, old(View()), i)
    {
      if !slots[i].status.Commited? {
        FreeSlot(i + 1);
        return ERR;
      }
      Finish(i);
      return OK;
    }

    /** Execute a committed slot and return its id. */
    method Finish(i: nat)
      requires Valid() && i < |slots| && slots[i].status.Commited?
      requires |PatchedIds(View().txs[i].log)| <= SideTable.CAPACITY
      modifies this`lists, this`slots, this`tables, this`slotFree, blocks
      ensures Valid() && View() == Executed(cfg, old(View()), i)
    {
      ghost var s := View();
      ExecuteSlot(i, s);
      FreeSlot(i + 1);
    }

    method MarkAborted(i: nat, ghost s: Sys)
      requires Valid() && i < |slots| && s == View() && (slots[i].status.Processing? || slots[i].status.Commited?)
      modifies this`slots, this`db
      ensures Valid() && |slots| == |old(slots)| && slots[i] == old(slots)[i].(status := Aborted) && View() == Revoked(s, i)
    {
      SetSlot(i, slots[i].(status := Aborted));
      db := Revoked(s, i).db;
    }

    /** The entries of `tx_slot_abort`, as its stride reads them. */
    method UndoSlot(i: nat)
      requires Valid() && i < |slots| && !slots[i].status.Empty? && AbortReadable(cfg, slots[i])
      modifies this`lists, blocks
      ensures Valid()
      ensures var s, ids := old(View()), FreshOf(slots[i]);
              View() == s.(blocks := ZapAll(s.blocks, ids), free := s.free + IdSet(ids))
    {
      var g := UndoLog(cfg, blocks, lists, slots[i]);
      lists := g;
    }

    /** `tx_slot_abort` on an open slot. */
    method AbortSlot(i: nat, ghost s: Sys)
      requires Valid() && i < |slots| && s == View() && (slots[i].status.Processing? || slots[i].status.Commited?)
      requires AbortReadable(cfg, slots[i])
      modifies this`lists, this`slots, this`db, blocks
      ensures Valid() && |slots| == |old(slots)|
      ensures View() == AbortRead(s, i, FreshOf(old(slots)[i]))
    {
      MarkAborted(i, s);
      UndoSlot(i);
      SetSlot(i, slots[i].(status := Empty, size := 0));
    }

    /** `pmb_tx_abort`; as with execute, the slot id always goes back. */
    method TxAbort(slot: nat) returns (err: nat)
      requires Valid()
      requires 0 < slot <= |slots| ==> AbortReadable(cfg, slots[slot - 1])
      modifies this`lists, this`slots, this`db, this`slotFree, blocks
      ensures Valid()
      ensures err == if slot == 0 || slot > |old(slots)| then EARGS
                     else if old(slots)[slot - 1].status.Processing? || old(slots)[slot - 1].status.Commited? then OK else ERR
      ensures err == EARGS ==> View() == old(View())
      ensures err == ERR ==> View() == old(View()).(freeSlots := old(View()).freeSlots + {slot - 1})
      ensures err == OK ==> View() == AbortReadEffect(old(View()), slot - 1, FreshOf(old(slots)[slot - 1]))
      // on a log without payloads that is the abort of the logged operations
      ensures err == OK && NoPayloads(old(View()).txs[slot - 1].log) ==> View() == AbortEffect(cfg, old(View()), slot - 1)
    {
      if slot == 0 || slot > |slots| {
        return EARGS;
      }
      if (slots[slot - 1].status.Processing? || slots[slot - 1].status.Commited?) && NoPayloads(TxOf(cfg, slots[slot - 1]).log) {
        AbortAsLogged(cfg, View(), slot - 1, slots[slot - 1]);
      }
      err := EndAbort(slot - 1);
    }

    method EndAbort(i: nat) returns (err: nat)
      requires Valid() && i < |slots| && AbortReadable(cfg, slots[i])
      modifies this`lists, this`slots, this`db, this`slotFree, blocks
      ensures Valid()
      ensures err == if old(slots)[i].status.Processing? || old(slots)[i].status.Commited? then OK else ERR
      ensures err == ERR ==> View() == old(View()).(freeSlots := old(View()).freeSlots + {i})
      ensures err == OK ==> View() == AbortReadEffect(old(View()), i, FreshOf(old(slots)[i]))
    {
      if !slots[i].status.Processing? && !slots[i].status.Commited? {
        FreeSlot(i + 1);
        return ERR;
      }
      Withdraw(i);
      return OK;
    }

    /** Abort an open slot and return its id. */
    method Withdraw(i: nat)
      requires Valid() && i < |slots| && (slots[i].status.Processing? || slots[i].status.Commited?)
      requires AbortReadable(cfg, slots[i])
      modifies this`lists, this`slots, this`db, this`slotFree, blocks
      ensures Valid() && View() == AbortReadEffect(old(View()), i, FreshOf(old(slots)[i]))
    {
      ghost var s, ids := View(), FreshOf(slots[i]);
      AbortSlot(i, s);
      assert View() == AbortRead(s, i, ids);
      FreeSlot(i + 1);
    }

    // ---- restart ----

    /** `tx_log_init` over an existing pool: all slots free, lists still empty. */
    constructor (cfg: Config, blocks: array<Block>, slots: seq<Slot>, ghost db: map<nat, Block>)
      requires blocks.Length == cfg.Ids() <= U64 && AllContained(cfg, blocks[..]) && SlotsOK(cfg, slots)
      ensures Valid() && this.cfg == cfg && this.blocks == blocks && this.slots == slots && this.db == db
      ensures lists == FreeLists([], []) && slotFree == AllSlots(|slots|)
    {
      this.cfg, this.blocks, this.slots, this.db := cfg, blocks, slots, db;
      lists, objs := FreeLists([], []), FreeLists([], []);
      slotFree := AllSlots(|slots|);
      tables := BlankTables(|slots|);
    }

    /** `tx_log_check`, on this handle's slots and blocks. */
    method Check(sums: seq<bool>)
      requires Valid() && |sums| == |slots| && AllReadable(cfg, slots, sums)
      modifies this`slots, this`tables, blocks
      ensures Valid() && |slots| == |old(slots)|
      ensures blocks[..] == CheckedBlocks(cfg, old(View()), sums, SeenInAll(cfg, old(slots)))
      ensures forall j :: 1 <= j < |slots| ==> TxOf(cfg, slots[j]) == Left(old(View()).txs[j], false)
      ensures |slots| > 0 ==> slots[0] == old(slots)[0]
    {
      var after, ts := CheckSlots(cfg, blocks, slots, sums, tables);
      slots, tables := after, ts;
    }

    /** The nonempty branch of `pmb_open`, given a handle with empty lists: the walk, then the scan. */
    method Reopen(sums: seq<bool>)
      requires Valid() && |sums| == |slots| && AllReadable(cfg, slots, sums)
      modifies this`slots, this`tables, this`lists, this`objs, blocks
      ensures Valid() && |slots| == |old(slots)|
      ensures blocks[..] == CheckedBlocks(cfg, old(View()), sums, SeenInAll(cfg, old(slots)))
      ensures Scan.Complete(cfg, blocks[..], Scan.Lists(lists.data, lists.meta, objs.data, objs.meta))
      ensures forall x :: x in FreeIds(lists) <==> ScannedFree(cfg, blocks[..], x)
      // with the first slot empty, the handle stands for the restarted machine
      ensures slotFree == AllSlots(|slots|) && (|slots| > 0 ==> slots[0].status.Empty?) ==>
                View() == Restarted(cfg, old(View()), CheckedBlocks(cfg, old(View()), sums, SeenInAll(cfg, old(slots))))
    {
      ghost var was := View();
      Check(sums);
      var l := Scan.Recover(cfg, blocks[..]);
      lists, objs := FreeLists(l.free, l.metaFree), FreeLists(l.objs, l.metaObjs);
      forall x ensures x in FreeIds(lists) <==> ScannedFree(cfg, blocks[..], x) {
        assert Scan.Belongs(cfg, blocks[..], false, false, x) || Scan.Belongs(cfg, blocks[..], true, false, x) <==> ScannedFree(cfg, blocks[..], x);
      }
      if slotFree == AllSlots(|slots|) && (|slots| > 0 ==> slots[0].status.Empty?) {
        RestartedView(cfg, was, slots, blocks[..], lists, slotFree);
      }
    }
  }

  lemma {:induction false} RestartedView(cfg: Config, v: Sys, slots: seq<Slot>, blocks: seq<Block>, f: FreeLists, slotFree: seq<Range>)
    requires SlotsOK(cfg, slots) && |v.txs| == |slots| && slotFree == AllSlots(|slots|)
    requires forall j :: 1 <= j < |slots| ==> TxOf(cfg, slots[j]) == Left(v.txs[j], false)
    requires |slots| > 0 ==> slots[0].status.Empty? && TxOf(cfg, slots[0]) == v.txs[0]
    requires forall x :: x in FreeIds(f) <==> ScannedFree(cfg, blocks, x)
    ensures Sys(blocks, FreeIds(f), TxsOf(cfg, slots), FreeSlots(slotFree), v.db) == Restarted(cfg, v, blocks)
  {
    var r := Restarted(cfg, v, blocks);
    assert FreeIds(f) == r.free;
    forall j | 0 <= j < |slots| ensures TxsOf(cfg, slots)[j] == r.txs[j] {}
    assert TxsOf(cfg, slots) == r.txs;
    forall i: nat ensures i in FreeSlots(slotFree) <==> i in r.freeSlots {
      assert i in r.freeSlots <==> SlotId(i, |slots|);
    }
    assert FreeSlots(slotFree) == r.freeSlots;
  }
}
