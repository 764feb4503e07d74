/** The block array and the two free lists, and the calls that change them: filling new objects, releasing
    blocks, and the loops of execute, abort and the restart walk over a slot's bytes. */
module Pool {
  import opened Words
  import opened Ranges
  import opened Blocks
  import opened TxLog
  import opened InPlace
  import opened Machine
  import opened MachineProofs
  import opened Api
  import opened Crash
  import SideTable

  /** The data and the meta free list. */
  datatype FreeLists = FreeLists(data: seq<Range>, meta: seq<Range>)

  /** Region-consistent lists: data ids in one, meta ids in the other. */
  ghost predicate ListsOK(cfg: Config, f: FreeLists) {
    && Canonical(f.data) && (forall x :: x in Ids(f.data) ==> 0 < x < cfg.total)
    && Canonical(f.meta) && (forall x :: x in Ids(f.meta) ==> cfg.total <= x < cfg.Ids())
  }

  ghost function FreeIds(f: FreeLists): set<nat> { Ids(f.data) + Ids(f.meta) }

  /** Blocks and lists are those of the machine state `p`. */
  ghost predicate Matches(cfg: Config, blocks: seq<Block>, f: FreeLists, p: Sys) {
    ListsOK(cfg, f) && blocks == p.blocks && FreeIds(f) == p.free
  }

  // ---- taking and giving back ----

  lemma {:induction false} DataTaken(cfg: Config, f: FreeLists)
    requires ListsOK(cfg, f)
    ensures Pop(f.data).0.None? <==> f.data == []
    ensures f.data != [] ==> var x, g := Pop(f.data).0.value, f.(data := Pop(f.data).1);
              0 < x < cfg.total && x in FreeIds(f) && ListsOK(cfg, g) && FreeIds(g) == FreeIds(f) - {x}
  {
    PopTakesMinimum(f.data);
  }

  lemma {:induction false} MetaTaken(cfg: Config, f: FreeLists)
    requires ListsOK(cfg, f)
    ensures Pop(f.meta).0.None? <==> f.meta == []
    ensures f.meta != [] ==> var x, g := Pop(f.meta).0.value, f.(meta := Pop(f.meta).1);
              && cfg.total <= x < cfg.Ids() && x in FreeIds(f) && ListsOK(cfg, g) && FreeIds(g) == FreeIds(f) - {x}
              && Push(g.meta, x) == f.meta
  {
    PopTakesMinimum(f.meta);
    if f.meta != [] { PushUndoesPop(f.meta); }
  }

  /** On region-consistent lists the first meta put takes the first meta id, as long as that id is free: the one
      that `Memory.MetaPutOverwritesData` is about. */
  lemma {:induction false} FirstMetaTake(cfg: Config, f: FreeLists)
    requires ListsOK(cfg, f) && cfg.total in Ids(f.meta)
    ensures Pop(f.meta).0 == Some(cfg.total)
  {
    PopTakesMinimum(f.meta);
  }

  /** `caslist_push` into the list of the id's region. */
  function Returned(cfg: Config, f: FreeLists, x: nat): FreeLists {
    if x < cfg.total then f.(data := Push(f.data, x)) else f.(meta := Push(f.meta, x))
  }

  lemma {:induction false} ReturnedInserts(cfg: Config, f: FreeLists, x: nat)
    requires ListsOK(cfg, f) && 0 < x < cfg.Ids()
    ensures ListsOK(cfg, Returned(cfg, f, x)) && FreeIds(Returned(cfg, f, x)) == FreeIds(f) + {x}
  {
    PushInserts(f.data, x);
    PushInserts(f.meta, x);
  }

  /** `backend_set_zero` on one block. */
  method Clear(cfg: Config, blocks: array<Block>, x: nat)
    requires 0 < x < blocks.Length && Contained(cfg, x, blocks[x])
    modifies blocks
    ensures blocks[..] == Zap(old(blocks[..]), x)
  {
    ZeroContained(cfg, x, blocks[x]);
    blocks[x] := SetZero(blocks[x]);
  }

  // ---- filling new objects ----

  /** A new data object written field by field into block `x`; the checksum comes last. */
  method FillData(cfg: Config, blocks: array<Block>, x: nat, prev: Option<Block>, kv: Pair)
    requires x < cfg.total && x < blocks.Length && |blocks[x].body| == cfg.body && DataPutFits(cfg, kv)
    requires prev.Some? ==> |prev.value.body| == cfg.body && prev.value.hdr.valLen <= cfg.maxVal
    modifies blocks
    ensures blocks[..] == old(blocks[..])[x := Sealed(cfg, x, FilledData(cfg, x, old(blocks[x]), prev, kv))]
  {
    blocks[x] := blocks[x].(hdr := blocks[x].hdr.(keyLen := |kv.key|));
    blocks[x] := blocks[x].(hdr := blocks[x].hdr.(version := if prev.Some? then Inc32(prev.value.hdr.version) else 1));
    blocks[x] := blocks[x].(body := Overlay(blocks[x].body, 0, kv.key));
    blocks[x] := blocks[x].(hdr := blocks[x].hdr.(id := kv.id, valLen := |kv.val| + kv.offset));
    if |kv.val| > 0 {
      blocks[x] := blocks[x].(body := CopyForward(cfg, blocks[x].body, prev, kv.offset, kv.val));
      blocks[x] := blocks[x].(hdr := blocks[x].hdr.(valLen := PutValLen(prev, kv.offset, kv.val)));
    }
    blocks[x] := Sealed(cfg, x, blocks[x]);
  }

  /** A new meta object; the object id field is left as it was. */
  method FillMeta(cfg: Config, blocks: array<Block>, x: nat, prev: Option<Block>, kv: Pair)
    requires cfg.total <= x < blocks.Length && |blocks[x].body| == cfg.metaBody && MetaPutFits(cfg, kv)
    modifies blocks
    ensures blocks[..] == old(blocks[..])[x := Sealed(cfg, x, FilledMeta(cfg, x, old(blocks[x]), prev, kv))]
  {
    blocks[x] := blocks[x].(hdr := blocks[x].hdr.(keyLen := |kv.key|, valLen := |kv.val|));
    blocks[x] := blocks[x].(hdr := blocks[x].hdr.(version := if prev.Some? then Inc32(prev.value.hdr.version) else 1));
    blocks[x] := blocks[x].(body := Overlay(blocks[x].body, 0, kv.key));
    blocks[x] := blocks[x].(body := Overlay(blocks[x].body, |kv.key|, kv.val));
    blocks[x] := Sealed(cfg, x, blocks[x]);
  }

  // ---- execute ----

  /** Entries the source logs: encodable, in bounds, and never about block 0. */
  ghost predicate Sane(cfg: Config, ops: seq<Op>) {
    forall k :: 0 <= k < |ops| ==>
      && Encodable(ops[k]) && Fits(cfg, ops[k]) && FirstId(ops[k]) != 0
      && NewOf(ops[k]) < cfg.Ids() && (ops[k].Update? ==> ops[k].next != 0)
  }

  /** The distinct blocks a log patches; each needs one side-table entry. */
  ghost function PatchedIds(log: seq<Op>): set<nat> {
    set k | 0 <= k < |log| && log[k].InPlace? :: log[k].id
  }

  /** `tx_update_block`: the copy, then the side-table entry. */
  method UpdateBlock(cfg: Config, blocks: array<Block>, x: nat, payload: seq<Byte>, offset: nat, t: SideTable.Table)
    returns (u: SideTable.Table)
    requires 0 < x < cfg.total && x < blocks.Length && offset + |payload| <= cfg.maxVal
    requires |blocks[x].body| == cfg.body && blocks[x].hdr.valLen <= cfg.maxVal
    requires SideTable.Valid(t) && SideTable.Fitting(cfg, SideTable.Contents(t)) && (x in SideTable.Contents(t) || t.count < SideTable.CAPACITY)
    modifies blocks
    ensures blocks[..] == old(blocks[..])[x := Stamp(cfg, old(blocks[x]), InPlace(x, offset, payload))]
    ensures SideTable.Valid(u) && SideTable.Fitting(cfg, SideTable.Contents(u))
    ensures var m := SideTable.Contents(t);
            SideTable.Contents(u) == m[x := Bump(if x in m then m[x] else HeaderMeta(old(blocks[x])), offset + |payload|)]
  {
    u := SideTable.Add(t, x, blocks[x], offset + |payload|);
    blocks[x] := blocks[x].(body := Overlay(blocks[x].body, cfg.maxKey + offset, payload));
  }

  /** What the cursor finds before the end of the log: the next operation. */
  lemma {:induction false} NextEntry(bytes: seq<Byte>, pos: nat, size: nat, log: seq<Op>, k: nat)
    requires pos < size <= |bytes| && WellFormed(bytes, pos, size) && k <= |log| && Parse(bytes, pos, size) == log[k..]
    ensures pos + ENTRY <= size && Kind(bytes, pos) < 4 && NextPos(bytes, pos) <= size
    ensures k < |log| && ParseOp(bytes, pos) == log[k]
    ensures WellFormed(bytes, NextPos(bytes, pos), size) && Parse(bytes, NextPos(bytes, pos), size) == log[k + 1..]
  {
    assert log[k..][0] == log[k] && log[k..][1..] == log[k + 1..];
  }

  /** The side table has room for the next entry and keeps to the blocks the log patches. */
  lemma {:induction false} TableGrows(cfg: Config, p: Sys, i: nat, t: SideTable.Table)
    requires Shaped(cfg, p) && i < |p.txs| && p.txs[i].pc < |p.txs[i].log| && SideTable.Valid(t) && SideTable.Contents(t) == p.txs[i].table
    requires p.txs[i].table.Keys <= PatchedIds(p.txs[i].log) && |PatchedIds(p.txs[i].log)| <= SideTable.CAPACITY
    ensures var op := p.txs[i].log[p.txs[i].pc];
            op.InPlace? ==> op.id in SideTable.Contents(t) || t.count < SideTable.CAPACITY
    ensures ExecOne(cfg, p, i).txs[i].table.Keys <= PatchedIds(p.txs[i].log)
  {
    var op := p.txs[i].log[p.txs[i].pc];
    if op.InPlace? && op.id !in SideTable.Contents(t) {
      SideTable.Room(t, PatchedIds(p.txs[i].log), op.id);
    }
  }

  /** The metadata pass keeps every block in bounds. */
  lemma {:induction false} Settled(cfg: Config, e: Sys, i: nat, blocks: seq<Block>)
    requires Shaped(cfg, e) && i < |e.txs| && blocks == SettleAll(cfg, e.blocks, e.txs[i].table)
    ensures |blocks| == |e.blocks| && forall x :: 0 <= x < |blocks| ==> Contained(cfg, x, blocks[x])
  {
  }

  /** An UPDATE or REMOVE entry about `x`: zero and return the block if it carries an object. */
  method FreeEntry(cfg: Config, blocks: array<Block>, f: FreeLists, x: nat, ghost i: nat, ghost p: Sys) returns (g: FreeLists)
    requires Shaped(cfg, p) && i < |p.txs| && p.txs[i].pc < |p.txs[i].log| && Matches(cfg, blocks[..], f, p)
    requires !p.txs[i].log[p.txs[i].pc].InPlace? && OldOf(p.txs[i].log[p.txs[i].pc]) == x
    modifies blocks
    ensures Matches(cfg, blocks[..], g, ExecOne(cfg, p, i)) && ExecOne(cfg, p, i).txs[i].table == p.txs[i].table
  {
    g := f;
    if x != 0 && x < blocks.Length && blocks[x].flch != 0 {
      assert blocks[x] == p.blocks[x];
      ReturnedInserts(cfg, f, x);
      Clear(cfg, blocks, x);
      g := Returned(cfg, f, x);
    }
  }

  /** One turn of execute's loop, on the bytes at `pos`; `p` is the machine state before it. */
  method ExecEntry(cfg: Config, blocks: array<Block>, f: FreeLists, bytes: seq<Byte>, pos: nat, t: SideTable.Table,
                   ghost i: nat, ghost p: Sys)
    returns (g: FreeLists, u: SideTable.Table, next: nat)
    requires Shaped(cfg, p) && i < |p.txs| && p.txs[i].pc < |p.txs[i].log| && Matches(cfg, blocks[..], f, p)
    requires pos + ENTRY <= |bytes| && Kind(bytes, pos) < 4 && NextPos(bytes, pos) <= |bytes|
    requires ParseOp(bytes, pos) == p.txs[i].log[p.txs[i].pc]
    requires SideTable.Valid(t) && SideTable.Contents(t) == p.txs[i].table && SideTable.Fitting(cfg, p.txs[i].table)
    requires var op := p.txs[i].log[p.txs[i].pc];
             op.InPlace? ==> op.id in SideTable.Contents(t) || t.count < SideTable.CAPACITY
    modifies blocks
    ensures Matches(cfg, blocks[..], g, ExecOne(cfg, p, i)) && next == NextPos(bytes, pos)
    ensures SideTable.Valid(u) && SideTable.Contents(u) == ExecOne(cfg, p, i).txs[i].table
    ensures SideTable.Fitting(cfg, ExecOne(cfg, p, i).txs[i].table)
  {
    var kind := Kind(bytes, pos);
    g, u, next := f, t, pos + ENTRY;
    assert Fits(cfg, p.txs[i].log[p.txs[i].pc]);
    if kind == 1 || kind == 3 {
      g := FreeEntry(cfg, blocks, f, Id1(bytes, pos), i, p);
    } else if kind == 2 {
      var x, size, offset := Id1(bytes, pos), Id2(bytes, pos) / U32, Id2(bytes, pos) % U32;
      assert blocks[x] == p.blocks[x];
      u := UpdateBlock(cfg, blocks, x, bytes[pos + ENTRY..pos + ENTRY + size], offset, t);
      next := pos + ENTRY + size;
    }
  }

  /** The cursor loop of `tx_slot_execute`: it decodes the log the appenders wrote and stops at its size. */
  method RunLog(cfg: Config, blocks: array<Block>, f: FreeLists, slot: Slot, table: SideTable.Table, ghost i: nat, ghost s: Sys)
    returns (g: FreeLists, t: SideTable.Table)
    requires Shaped(cfg, s) && i < |s.txs| && s.txs[i].pc == 0 && s.txs[i].table == map[] && Matches(cfg, blocks[..], f, s)
    requires Logged(slot, SLOT_HDR, s.txs[i].log) && |PatchedIds(s.txs[i].log)| <= SideTable.CAPACITY
    requires SideTable.Clear(table)
    modifies blocks
    ensures var e := ExecPrefix(cfg, s, i, |s.txs[i].log|);
            && Matches(cfg, blocks[..], g, e)
            && SideTable.Valid(t) && SideTable.Contents(t) == e.txs[i].table && SideTable.Fitting(cfg, e.txs[i].table)
  {
    ghost var log := s.txs[i].log;
    var pos := SLOT_HDR;
    ghost var k, p := 0, s;
    g, t := f, table;
    while pos < slot.size
      invariant k <= |log| && pos <= slot.size && WellFormed(slot.bytes, pos, slot.size) && Parse(slot.bytes, pos, slot.size) == log[k..]
      invariant p == ExecPrefix(cfg, s, i, k) && Matches(cfg, blocks[..], g, p)
      invariant SideTable.Valid(t) && SideTable.Contents(t) == p.txs[i].table && SideTable.Fitting(cfg, p.txs[i].table)
      invariant p.txs[i].table.Keys <= PatchedIds(log)
      decreases slot.size - pos
    {
      NextEntry(slot.bytes, pos, slot.size, log, k);
      TableGrows(cfg, p, i, t);
      g, t, pos := ExecEntry(cfg, blocks, g, slot.bytes, pos, t, i, p);
      p := ExecOne(cfg, p, i);
      k := k + 1;
    }
    assert k == |log| by { assert log[k..] == []; }
  }

  // ---- abort ----

  /** One turn of abort's loop: whatever the bytes name as a new block is zeroed and returned, unconditionally. */
  method UndoEntry(cfg: Config, blocks: array<Block>, f: FreeLists, bytes: seq<Byte>, pos: nat) returns (g: FreeLists)
    requires AllContained(cfg, blocks[..]) && blocks.Length == cfg.Ids() && ListsOK(cfg, f)
    requires pos + ENTRY <= |bytes| && Fresh(bytes, pos) < cfg.Ids()
    modifies blocks
    ensures blocks[..] == Zap(old(blocks[..]), Fresh(bytes, pos)) && AllContained(cfg, blocks[..])
    ensures ListsOK(cfg, g) && FreeIds(g) == FreeIds(f) + if Fresh(bytes, pos) == 0 then {} else {Fresh(bytes, pos)}
  {
    var kind := Kind(bytes, pos);
    g := f;
    if kind == 1 || kind == 0 {
      var x := if kind == 1 then Id2(bytes, pos) else Id1(bytes, pos);
      if x != 0 {
        ZapAt(cfg, blocks[..], x);
        ReturnedInserts(cfg, f, x);
        assert Contained(cfg, x, blocks[..][x]);
        Clear(cfg, blocks, x);
        g := Returned(cfg, f, x);
      }
    }
  }

  /** Where the entries abort has still to see lead. */
  function ZapRest(blocks: seq<Block>, ids: seq<nat>, k: nat): seq<Block>
    requires k <= |ids|
    decreases |ids| - k
  {
    if k == |ids| then blocks else ZapRest(Zap(blocks, ids[k]), ids, k + 1)
  }

  lemma {:induction false} ZapRestIsAll(blocks: seq<Block>, ids: seq<nat>, k: nat)
    requires k <= |ids|
    ensures ZapRest(ZapAll(blocks, ids[..k]), ids, k) == ZapAll(blocks, ids)
    decreases |ids| - k
  {
    if k < |ids| {
      assert ids[..k + 1][..k] == ids[..k];
      ZapRestIsAll(blocks, ids, k + 1);
    } else {
      assert ids[..k] == ids;
    }
  }

  /** Abort stands at entry `k` of what it sees. */
  ghost predicate Strides(slot: Slot, pos: nat, ids: seq<nat>, k: nat) {
    k <= |ids| && Strideable(slot.bytes, pos, slot.size) && FreshIds(slot.bytes, pos, slot.size) == ids[k..]
  }

  lemma {:induction false} StrideNext(slot: Slot, pos: nat, ids: seq<nat>, k: nat)
    requires Strides(slot, pos, ids, k)
    ensures pos >= slot.size ==> k == |ids|
    ensures pos < slot.size ==> && pos + ENTRY <= |slot.bytes| && k < |ids| && Fresh(slot.bytes, pos) == ids[k]
                                && Strides(slot, pos + ENTRY, ids, k + 1)
  {
    if pos < slot.size {
      assert ids[k..][0] == ids[k] && ids[k..][1..] == ids[k + 1..];
    } else {
      assert ids[k..] == [];
    }
  }

  /** The lists after the first `k` ids have been returned. */
  ghost predicate ReturnedUpTo(cfg: Config, f: FreeLists, g: FreeLists, ids: seq<nat>, k: nat) {
    k <= |ids| && ListsOK(cfg, g) && FreeIds(g) == FreeIds(f) + IdSet(ids[..k])
  }

  /** The fixed-stride loop of `tx_slot_abort`, for whatever it reads. */
  method UndoLog(cfg: Config, blocks: array<Block>, f: FreeLists, slot: Slot) returns (g: FreeLists)
    requires AllContained(cfg, blocks[..]) && blocks.Length == cfg.Ids() && ListsOK(cfg, f)
    requires Strideable(slot.bytes, SLOT_HDR, slot.size)
    requires forall x :: x in FreshIds(slot.bytes, SLOT_HDR, slot.size) ==> x < cfg.Ids()
    modifies blocks
    ensures var ids := FreshIds(slot.bytes, SLOT_HDR, slot.size);
            blocks[..] == ZapAll(old(blocks[..]), ids) && ListsOK(cfg, g) && FreeIds(g) == FreeIds(f) + IdSet(ids)
    ensures AllContained(cfg, blocks[..])
  {
    ghost var ids := FreshIds(slot.bytes, SLOT_HDR, slot.size);
    ZapRestIsAll(blocks[..], ids, 0);
    StrideStarts(cfg, slot, f, ids);
    g := UndoLoop(cfg, blocks, f, slot, ids);
  }

  lemma {:induction false} StrideStarts(cfg: Config, slot: Slot, f: FreeLists, ids: seq<nat>)
    requires Strideable(slot.bytes, SLOT_HDR, slot.size) && ids == FreshIds(slot.bytes, SLOT_HDR, slot.size) && ListsOK(cfg, f)
    ensures Strides(slot, SLOT_HDR, ids, 0) && ReturnedUpTo(cfg, f, f, ids, 0)
  {
    assert ids[0..] == ids && ids[..0] == [] && IdSet(ids[..0]) == {};
  }

  method UndoLoop(cfg: Config, blocks: array<Block>, f: FreeLists, slot: Slot, ghost ids: seq<nat>) returns (g: FreeLists)
    requires AllContained(cfg, blocks[..]) && blocks.Length == cfg.Ids() && forall x :: x in ids ==> x < cfg.Ids()
    requires Strides(slot, SLOT_HDR, ids, 0) && ReturnedUpTo(cfg, f, f, ids, 0)
    modifies blocks
    ensures blocks[..] == ZapRest(old(blocks[..]), ids, 0) && AllContained(cfg, blocks[..])
    ensures ReturnedUpTo(cfg, f, g, ids, |ids|) && ids[..|ids|] == ids
  {
    ghost var k, final := 0, ZapRest(blocks[..], ids, 0);
    var pos := SLOT_HDR;
    g := f;
    while pos < slot.size
      invariant Strides(slot, pos, ids, k) && ReturnedUpTo(cfg, f, g, ids, k)
      invariant ZapRest(blocks[..], ids, k) == final && AllContained(cfg, blocks[..])
      decreases slot.size - pos
    {
      g := UndoTurn(cfg, blocks, f, g, slot, pos, ids, k);
      k := k + 1;
      pos := pos + ENTRY;
    }
    StrideNext(slot, pos, ids, k);
  }

  /** One turn of the loop, from entry `k` to the next. */
  method UndoTurn(cfg: Config, blocks: array<Block>, ghost f: FreeLists, g: FreeLists, slot: Slot, pos: nat, ghost ids: seq<nat>, ghost k: nat)
    returns (h: FreeLists)
    requires AllContained(cfg, blocks[..]) && blocks.Length == cfg.Ids() && ReturnedUpTo(cfg, f, g, ids, k)
    requires pos < slot.size && Strides(slot, pos, ids, k) && forall x :: x in ids ==> x < cfg.Ids()
    modifies blocks
    ensures AllContained(cfg, blocks[..]) && k < |ids| && Strides(slot, pos + ENTRY, ids, k + 1)
    ensures ZapRest(blocks[..], ids, k + 1) == ZapRest(old(blocks[..]), ids, k) && ReturnedUpTo(cfg, f, h, ids, k + 1)
  {
    StrideNext(slot, pos, ids, k);
    ZapAllStep(blocks[..], ids, k);
    assert ids[k] in ids;
    h := UndoEntry(cfg, blocks, g, slot.bytes, pos);
  }

  /** On a log without payloads abort sees the new blocks of the log. */
  lemma {:induction false} FreshAsLogged(bytes: seq<Byte>, pos: nat, size: nat)
    requires size <= |bytes| && WellFormed(bytes, pos, size) && NoPayloads(Parse(bytes, pos, size))
    ensures Strideable(bytes, pos, size) && FreshIds(bytes, pos, size) == NewIds(Parse(bytes, pos, size))
    decreases size - pos
  {
    if pos < size {
      var op, rest := ParseOp(bytes, pos), Parse(bytes, NextPos(bytes, pos), size);
      assert Parse(bytes, pos, size) == [op] + rest;
      NewIdsOfMore(op, rest);
      ParsedPayload(bytes, pos, size);
      FreshAsLogged(bytes, pos + ENTRY, size);
    }
  }

  lemma {:induction false} NewIdsOfMore(op: Op, rest: seq<Op>)
    ensures NewIds([op] + rest) == [NewOf(op)] + NewIds(rest)
    ensures NoPayloads([op] + rest) ==> PayloadLen(op) == 0 && NoPayloads(rest)
  {
    var ops := [op] + rest;
    var a, b := NewIds(ops), [NewOf(op)] + NewIds(rest);
    assert |a| == |b|;
    forall k | 0 <= k < |a| ensures a[k] == b[k] {
      if k > 0 { assert ops[k] == rest[k - 1]; }
    }
    if NoPayloads(ops) {
      assert ops[0] == op;
      forall k | 0 <= k < |rest| ensures PayloadLen(rest[k]) == 0 { assert rest[k] == ops[k + 1]; }
    }
  }

  // ---- the restart walk ----

  /** One turn of the walk. An entry with two zero ids ends it. */
  method WalkEntry(cfg: Config, blocks: array<Block>, bytes: seq<Byte>, pos: nat, commit: bool, t: SideTable.Table)
    returns (u: SideTable.Table)
    requires AllContained(cfg, blocks[..]) && blocks.Length == cfg.Ids()
    requires pos + ENTRY <= |bytes| && (Kind(bytes, pos) == 2 ==> SLOT_HDR + ENTRY + Id2(bytes, pos) / U32 <= |bytes|)
    requires SideTable.Valid(t) && SideTable.Fitting(cfg, SideTable.Contents(t))
    requires var op := Glimpse(bytes, pos);
             commit && op.InPlace? ==> Fits(cfg, op) && (op.id in SideTable.Contents(t) || t.count < SideTable.CAPACITY)
    modifies blocks
    ensures blocks[..] == RecoverOne(cfg, old(blocks[..]), Glimpse(bytes, pos), commit) && AllContained(cfg, blocks[..])
    ensures SideTable.Valid(u) && SideTable.Fitting(cfg, SideTable.Contents(u))
    ensures var op := Glimpse(bytes, pos);
            if commit && op.InPlace? then SideTable.Contents(u).Keys == SideTable.Contents(t).Keys + {op.id} else u == t
  {
    var kind, id1, id2 := Kind(bytes, pos), Id1(bytes, pos), Id2(bytes, pos);
    u := t;
    ghost var was := blocks[..];
    if commit && kind == 2 {
      RedoAt(cfg, was, Glimpse(bytes, pos));
      assert Contained(cfg, id1, was[id1]);
      u := UpdateBlock(cfg, blocks, id1, bytes[SLOT_HDR + ENTRY..SLOT_HDR + ENTRY + id2 / U32], id2 % U32, t);
      return;
    }
    var victim := if commit then (if kind == 1 || kind == 3 then id1 else 0)
                  else (if kind == 0 then id1 else if kind == 1 then id2 else 0);
    ZapAt(cfg, was, victim);
    if 0 < victim < blocks.Length {
      assert Contained(cfg, victim, was[victim]);
      Clear(cfg, blocks, victim);
    }
  }

  lemma {:induction false} RecoverLogStep(cfg: Config, blocks: seq<Block>, log: seq<Op>, k: nat, commit: bool)
    requires k < |log|
    ensures RecoverLog(cfg, blocks, log[..k + 1], commit) == RecoverOne(cfg, RecoverLog(cfg, blocks, log[..k], commit), log[k], commit)
  {
    assert log[..k + 1][..k] == log[..k];
  }

  /** What the walk can redo inside the blocks and the side table. */
  ghost predicate Redoable(cfg: Config, seen: seq<Op>) {
    AllFit(cfg, seen) && |PatchedIds(seen)| <= SideTable.CAPACITY
  }

  lemma {:induction false} SeenNext(bytes: seq<Byte>, pos: nat, size: nat, seen: seq<Op>, k: nat)
    requires pos < size && Readable(bytes, pos, size) && k <= |seen| && Seen(bytes, pos, size) == seen[k..]
    ensures pos + ENTRY <= |bytes|
    ensures AllZero(bytes, pos) ==> k == |seen|
    ensures !AllZero(bytes, pos) ==>
              && (Kind(bytes, pos) == 2 ==> SLOT_HDR + ENTRY + Id2(bytes, pos) / U32 <= |bytes|)
              && k < |seen| && Glimpse(bytes, pos) == seen[k]
              && Readable(bytes, pos + ENTRY, size) && Seen(bytes, pos + ENTRY, size) == seen[k + 1..]
  {
    if !AllZero(bytes, pos) {
      assert seen[k..][0] == seen[k] && seen[k..][1..] == seen[k + 1..];
    }
  }

  lemma {:induction false} RoomInTable(cfg: Config, t: SideTable.Table, seen: seq<Op>, k: nat)
    requires SideTable.Valid(t) && k < |seen| && Redoable(cfg, seen) && SideTable.Contents(t).Keys <= PatchedIds(seen)
    ensures Fits(cfg, seen[k])
    ensures seen[k].InPlace? ==> seen[k].id in PatchedIds(seen) && (seen[k].id in SideTable.Contents(t) || t.count < SideTable.CAPACITY)
  {
    if seen[k].InPlace? && seen[k].id !in SideTable.Contents(t) {
      SideTable.Room(t, PatchedIds(seen), seen[k].id);
    }
  }

  /** The walk of `tx_log_check` over one slot, with the fixed stride and the stop at an all-zero entry, for whatever
      it sees there. What it redoes in place stays in the side table: nothing applies or clears it. */
  method WalkLog(cfg: Config, blocks: array<Block>, slot: Slot, commit: bool, table: SideTable.Table) returns (t: SideTable.Table)
    requires AllContained(cfg, blocks[..]) && blocks.Length == cfg.Ids() && Readable(slot.bytes, SLOT_HDR, slot.size)
    requires commit ==> Redoable(cfg, Seen(slot.bytes, SLOT_HDR, slot.size))
    requires SideTable.Clear(table)
    modifies blocks
    ensures blocks[..] == RecoverLog(cfg, old(blocks[..]), Seen(slot.bytes, SLOT_HDR, slot.size), commit)
    ensures AllContained(cfg, blocks[..]) && SideTable.Valid(t)
    ensures SideTable.Contents(t).Keys == if commit then PatchedIds(Seen(slot.bytes, SLOT_HDR, slot.size)) else {}
  {
    ghost var seen := Seen(slot.bytes, SLOT_HDR, slot.size);
    ghost var k, final, noted := 0, RecoverLog(cfg, blocks[..], seen, commit), PatchedIds(seen);
    WalkRestIsLog(cfg, blocks[..], seen, 0, commit);
    var pos := SLOT_HDR;
    t := table;
    while pos < slot.size
      invariant Sees(slot, pos, seen, k) && AllContained(cfg, blocks[..]) && WalkRest(cfg, blocks[..], seen, k, commit) == final
      invariant Noted(cfg, t, if commit then PatchedIds(seen[..k]) else {})
      decreases slot.size - pos
    {
      SeenNext(slot.bytes, pos, slot.size, seen, k);
      if Id1(slot.bytes, pos) == 0 && Id2(slot.bytes, pos) == 0 {
        break;
      }
      t := WalkTurn(cfg, blocks, slot, pos, commit, t, seen, k);
      k := k + 1;
      pos := pos + ENTRY;
    }
    SeesEnd(slot, pos, seen, k);
  }

  lemma {:induction false} SeesEnd(slot: Slot, pos: nat, seen: seq<Op>, k: nat)
    requires Sees(slot, pos, seen, k) && (pos >= slot.size || k == |seen|)
    ensures k == |seen| && seen[..k] == seen
  {
    assert pos >= slot.size ==> seen[k..] == [];
  }

  /** Where the entries the walk has still to see lead. */
  function WalkRest(cfg: Config, blocks: seq<Block>, seen: seq<Op>, k: nat, commit: bool): seq<Block>
    requires k <= |seen|
    decreases |seen| - k
  {
    if k == |seen| then blocks else WalkRest(cfg, RecoverOne(cfg, blocks, seen[k], commit), seen, k + 1, commit)
  }

  lemma {:induction false} WalkRestIsLog(cfg: Config, was: seq<Block>, seen: seq<Op>, k: nat, commit: bool)
    requires k <= |seen|
    ensures WalkRest(cfg, RecoverLog(cfg, was, seen[..k], commit), seen, k, commit) == RecoverLog(cfg, was, seen, commit)
    decreases |seen| - k
  {
    if k < |seen| {
      RecoverLogStep(cfg, was, seen, k, commit);
      WalkRestIsLog(cfg, was, seen, k + 1, commit);
    } else {
      assert seen[..k] == seen;
    }
  }

  /** One turn of the walk, from entry `k` to the next. */
  method WalkTurn(cfg: Config, blocks: array<Block>, slot: Slot, pos: nat, commit: bool, t: SideTable.Table, ghost seen: seq<Op>, ghost k: nat)
    returns (u: SideTable.Table)
    requires AllContained(cfg, blocks[..]) && blocks.Length == cfg.Ids() && k < |seen| && Sees(slot, pos, seen, k)
    requires pos < slot.size && pos + ENTRY <= |slot.bytes| && !AllZero(slot.bytes, pos) && (commit ==> Redoable(cfg, seen))
    requires Noted(cfg, t, if commit then PatchedIds(seen[..k]) else {})
    modifies blocks
    ensures AllContained(cfg, blocks[..]) && Sees(slot, pos + ENTRY, seen, k + 1)
    ensures WalkRest(cfg, blocks[..], seen, k + 1, commit) == WalkRest(cfg, old(blocks[..]), seen, k, commit)
    ensures Noted(cfg, u, if commit then PatchedIds(seen[..k + 1]) else {})
  {
    SeenNext(slot.bytes, pos, slot.size, seen, k);
    PatchedStep(seen, k);
    if commit { RoomInTable(cfg, t, seen, k); }
    u := WalkEntry(cfg, blocks, slot.bytes, pos, commit, t);
  }

  /** The walk stands at entry `k` of what it sees. */
  ghost predicate Sees(slot: Slot, pos: nat, seen: seq<Op>, k: nat) {
    k <= |seen| && Readable(slot.bytes, pos, slot.size) && Seen(slot.bytes, pos, slot.size) == seen[k..]
  }

  /** The side table holds exactly these ids. */
  ghost predicate Noted(cfg: Config, t: SideTable.Table, ids: set<nat>) {
    SideTable.Valid(t) && SideTable.Fitting(cfg, SideTable.Contents(t)) && SideTable.Contents(t).Keys == ids
  }

  lemma {:induction false} PatchedStep(log: seq<Op>, k: nat)
    requires k < |log|
    ensures PatchedIds(log[..k + 1]) == PatchedIds(log[..k]) + if log[k].InPlace? then {log[k].id} else {}
    ensures PatchedIds(log[..k]) <= PatchedIds(log)
  {
    var a, b := log[..k], log[..k + 1];
    assert b == a + [log[k]];
    forall x | x in PatchedIds(b) ensures x in PatchedIds(a) + if log[k].InPlace? then {log[k].id} else {} {
      var j :| 0 <= j < |b| && b[j].InPlace? && b[j].id == x;
      if j < k { assert a[j] == b[j]; }
    }
    forall x | x in PatchedIds(a) ensures x in PatchedIds(b) && x in PatchedIds(log) {
      var j :| 0 <= j < |a| && a[j].InPlace? && a[j].id == x;
      assert b[j] == a[j] && log[j] == a[j];
    }
    if log[k].InPlace? { assert b[k].id in PatchedIds(b); }
  }
}
