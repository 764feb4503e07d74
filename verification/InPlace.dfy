/** In-place updates: the payload overlays done while a log is executed, the side table that collects
    new versions and lengths, and the pass that writes them to the block headers. */
module InPlace {
  import opened Words
  import opened Blocks
  import opened TxLog

  datatype Meta = Meta(version: Word32, valLen: Word32)

  /** An in-place entry aims at a data block and stays inside the value area. */
  predicate Fits(cfg: Config, op: Op) {
    op.InPlace? ==> 0 < op.id < cfg.total && op.offset + |op.payload| <= cfg.maxVal
  }

  predicate AllFit(cfg: Config, ops: seq<Op>) {
    forall k :: 0 <= k < |ops| ==> Fits(cfg, ops[k])
  }

  predicate Hits(op: Op, x: nat) { op.InPlace? && op.id == x }

  function HeaderMeta(b: Block): Meta { Meta(b.hdr.version, b.hdr.valLen) }

  /** `tx_slot_meta_upd_add`: version plus one, length raised to `size` (a 32-bit parameter). */
  function Bump(m: Meta, size: nat): Meta { Meta(Inc32(m.version), Max(m.valLen, size % U32)) }

  /** The copy of `tx_update_block`. */
  function Stamp(cfg: Config, b: Block, op: Op): (r: Block)
    requires op.InPlace? && Fits(cfg, op) && |b.body| == cfg.BodyLen(op.id)
    ensures r.hdr == b.hdr && r.flch == b.flch && |r.body| == |b.body|
  {
    b.(body := Overlay(b.body, cfg.maxKey + op.offset, op.payload))
  }

  /** One block's share of `tx_slot_meta_upd_process`. */
  function Restamped(cfg: Config, x: nat, b: Block, m: Meta): (r: Block)
    requires x < cfg.total && Contained(cfg, x, b) && m.valLen <= cfg.maxVal
    ensures Intact(cfg, x, r) && Live(r)
  {
    Sealed(cfg, x, b.(hdr := b.hdr.(version := m.version, valLen := m.valLen)))
  }

  /** What block `x` becomes when the remaining operations run and the side table is then applied;
      `m` is its current side-table entry, if any. */
  function Replay(cfg: Config, x: nat, b: Block, m: Option<Meta>, ops: seq<Op>): (r: Block)
    requires x < cfg.total && Contained(cfg, x, b) && (m.Some? ==> m.value.valLen <= cfg.maxVal)
    requires AllFit(cfg, ops)
    ensures Contained(cfg, x, r)
    decreases |ops|
  {
    if ops == [] then if m.Some? then Restamped(cfg, x, b, m.value) else b
    else if Hits(ops[0], x) then
      Replay(cfg, x, Stamp(cfg, b, ops[0]),
             Some(Bump(if m.Some? then m.value else HeaderMeta(b), ops[0].offset + |ops[0].payload|)), ops[1..])
    else Replay(cfg, x, b, m, ops[1..])
  }

  // ---- what the replay means, stated without it ----

  function HitCount(ops: seq<Op>, x: nat): nat {
    if ops == [] then 0 else (if Hits(ops[0], x) then 1 else 0) + HitCount(ops[1..], x)
  }

  /** `n` is the largest of `base` and every end offset written into `x`. */
  ghost predicate LongestEnd(ops: seq<Op>, x: nat, base: nat, n: nat) {
    && base <= n
    && (forall k :: 0 <= k < |ops| && Hits(ops[k], x) ==> ops[k].offset + |ops[k].payload| <= n)
    && (n == base || exists k :: 0 <= k < |ops| && Hits(ops[k], x) && n == ops[k].offset + |ops[k].payload|)
  }

  predicate Covers(cfg: Config, op: Op, x: nat, i: nat) {
    Hits(op, x) && cfg.maxKey + op.offset <= i < cfg.maxKey + op.offset + |op.payload|
  }

  /** The byte a covering entry writes. */
  function ByteOf(cfg: Config, op: Op, x: nat, i: nat): Byte
    requires Covers(cfg, op, x, i)
  {
    op.payload[i - cfg.maxKey - op.offset]
  }

  ghost predicate Uncovered(cfg: Config, ops: seq<Op>, x: nat, i: nat) {
    forall k :: 0 <= k < |ops| ==> !Covers(cfg, ops[k], x, i)
  }

  /** Entry `k` is the last one that covers byte `i`. */
  ghost predicate LastAt(cfg: Config, ops: seq<Op>, x: nat, i: nat, k: nat) {
    k < |ops| && Covers(cfg, ops[k], x, i) && Uncovered(cfg, ops[k + 1..], x, i)
  }

  /** Byte `i` of the result: the last covering entry's byte, or the original byte. */
  ghost predicate LastWriterWins(cfg: Config, ops: seq<Op>, x: nat, i: nat, before: Byte, after: Byte) {
    && (Uncovered(cfg, ops, x, i) ==> after == before)
    && (forall k: nat :: LastAt(cfg, ops, x, i, k) ==> after == ByteOf(cfg, ops[k], x, i))
  }

  /** A 32-bit version after `n` increments. */
  function Later(v: nat, n: nat): Word32 { (v + n) % U32 }

  lemma {:induction false} WrapStep(v: Word32, n: nat)
    ensures Later(Inc32(v), n) == Later(v, 1 + n)
  {
    if v + 1 == U32 {
      assert (v + (1 + n)) % U32 == (U32 + n) % U32 == n % U32;
    }
  }

  lemma {:induction false} NoStep(v: Word32)
    ensures Later(v, 0) == v
  {
  }

  lemma {:induction false} ReplayVersion(cfg: Config, x: nat, b: Block, m: Option<Meta>, ops: seq<Op>)
    requires x < cfg.total && Contained(cfg, x, b) && (m.Some? ==> m.value.valLen <= cfg.maxVal)
    requires AllFit(cfg, ops)
    ensures var r := Replay(cfg, x, b, m, ops);
            var from := if m.Some? then m.value else HeaderMeta(b);
            r.hdr.version == Later(from.version, HitCount(ops, x))
    decreases |ops|
  {
    if ops != [] {
      var from := if m.Some? then m.value else HeaderMeta(b);
      var rest := ops[1..];
      if Hits(ops[0], x) {
        ReplayVersion(cfg, x, Stamp(cfg, b, ops[0]), Some(Bump(from, ops[0].offset + |ops[0].payload|)), rest);
        WrapStep(from.version, HitCount(rest, x));
      } else {
        ReplayVersion(cfg, x, b, m, rest);
      }
    } else {
      NoStep((if m.Some? then m.value else HeaderMeta(b)).version);
    }
  }

  /** The replay keeps object id and key length. */
  lemma {:induction false} ReplayIdentity(cfg: Config, x: nat, b: Block, m: Option<Meta>, ops: seq<Op>)
    requires x < cfg.total && Contained(cfg, x, b) && (m.Some? ==> m.value.valLen <= cfg.maxVal)
    requires AllFit(cfg, ops)
    ensures Replay(cfg, x, b, m, ops).hdr.id == b.hdr.id && Replay(cfg, x, b, m, ops).hdr.keyLen == b.hdr.keyLen
    decreases |ops|
  {
    if ops != [] {
      if Hits(ops[0], x) {
        var m' := Bump(if m.Some? then m.value else HeaderMeta(b), ops[0].offset + |ops[0].payload|);
        ReplayIdentity(cfg, x, Stamp(cfg, b, ops[0]), Some(m'), ops[1..]);
      } else {
        ReplayIdentity(cfg, x, b, m, ops[1..]);
      }
    }
  }

  lemma {:induction false} ReplayLength(cfg: Config, x: nat, b: Block, m: Option<Meta>, ops: seq<Op>)
    requires x < cfg.total && Contained(cfg, x, b) && (m.Some? ==> m.value.valLen <= cfg.maxVal)
    requires AllFit(cfg, ops)
    ensures LongestEnd(ops, x, (if m.Some? then m.value else HeaderMeta(b)).valLen, Replay(cfg, x, b, m, ops).hdr.valLen)
    decreases |ops|
  {
    if ops != [] {
      var from := if m.Some? then m.value else HeaderMeta(b);
      var n := Replay(cfg, x, b, m, ops).hdr.valLen;
      if Hits(ops[0], x) {
        var m' := Bump(from, ops[0].offset + |ops[0].payload|);
        ReplayLength(cfg, x, Stamp(cfg, b, ops[0]), Some(m'), ops[1..]);
        LongestStep(ops, x, from.valLen, m'.valLen, n);
      } else {
        ReplayLength(cfg, x, b, m, ops[1..]);
        LongestStep(ops, x, from.valLen, from.valLen, n);
      }
    }
  }

  lemma {:induction false} ReplayTouched(cfg: Config, x: nat, b: Block, m: Option<Meta>, ops: seq<Op>)
    requires x < cfg.total && Contained(cfg, x, b) && (m.Some? ==> m.value.valLen <= cfg.maxVal)
    requires AllFit(cfg, ops)
    ensures m.None? && HitCount(ops, x) == 0 ==> Replay(cfg, x, b, m, ops) == b
    ensures m.Some? || HitCount(ops, x) > 0 ==>
              Intact(cfg, x, Replay(cfg, x, b, m, ops)) && Live(Replay(cfg, x, b, m, ops))
    decreases |ops|
  {
    if ops != [] {
      if Hits(ops[0], x) {
        var m' := Bump(if m.Some? then m.value else HeaderMeta(b), ops[0].offset + |ops[0].payload|);
        ReplayTouched(cfg, x, Stamp(cfg, b, ops[0]), Some(m'), ops[1..]);
      } else {
        ReplayTouched(cfg, x, b, m, ops[1..]);
      }
    }
  }

  lemma {:induction false} LongestStep(ops: seq<Op>, x: nat, base: nat, mid: nat, n: nat)
    requires ops != [] && LongestEnd(ops[1..], x, mid, n)
    requires mid == if Hits(ops[0], x) then Max(base, ops[0].offset + |ops[0].payload|) else base
    ensures LongestEnd(ops, x, base, n)
  {
    var rest := ops[1..];
    forall k | 0 <= k < |ops| && Hits(ops[k], x) ensures ops[k].offset + |ops[k].payload| <= n {
      if k > 0 { assert ops[k] == rest[k - 1]; }
    }
    if n != base {
      if n == mid {
        assert Hits(ops[0], x) && n == ops[0].offset + |ops[0].payload|;
      } else {
        var k :| 0 <= k < |rest| && Hits(rest[k], x) && n == rest[k].offset + |rest[k].payload|;
        assert ops[k + 1] == rest[k];
      }
    }
  }

  lemma {:induction false} ReplayByte(cfg: Config, x: nat, b: Block, m: Option<Meta>, ops: seq<Op>, i: nat)
    requires x < cfg.total && Contained(cfg, x, b) && (m.Some? ==> m.value.valLen <= cfg.maxVal)
    requires AllFit(cfg, ops) && i < |b.body|
    ensures LastWriterWins(cfg, ops, x, i, b.body[i], Replay(cfg, x, b, m, ops).body[i])
    decreases |ops|
  {
    if ops != [] {
      var b', m' := b, m;
      if Hits(ops[0], x) {
        b' := Stamp(cfg, b, ops[0]);
        m' := Some(Bump(if m.Some? then m.value else HeaderMeta(b), ops[0].offset + |ops[0].payload|));
      }
      ReplayByte(cfg, x, b', m', ops[1..], i);
      LastWriterStep(cfg, ops, x, i, b.body[i], b'.body[i], Replay(cfg, x, b, m, ops).body[i]);
    }
  }

  lemma {:induction false} LastWriterStep(cfg: Config, ops: seq<Op>, x: nat, i: nat, before: Byte, mid: Byte, after: Byte)
    requires ops != [] && LastWriterWins(cfg, ops[1..], x, i, mid, after)
    requires mid == if Covers(cfg, ops[0], x, i) then ByteOf(cfg, ops[0], x, i) else before
    ensures LastWriterWins(cfg, ops, x, i, before, after)
  {
    var rest := ops[1..];
    if Uncovered(cfg, ops, x, i) {
      forall k | 0 <= k < |rest| ensures !Covers(cfg, rest[k], x, i) { assert rest[k] == ops[k + 1]; }
    }
    forall k: nat | LastAt(cfg, ops, x, i, k) ensures after == ByteOf(cfg, ops[k], x, i) {
      if k > 0 {
        assert rest[k - 1] == ops[k] && rest[k..] == ops[k + 1..];
        assert LastAt(cfg, rest, x, i, k - 1);
      }
    }
  }

  /** In-place accumulation: each touched block's version grows by its number of entries, its length
      becomes the maximum of the old length and every end offset, its bytes are the overlays in log
      order, and its checksum is valid; an untouched block is unchanged. */
  lemma {:induction false} ReplayMeaning(cfg: Config, x: nat, b: Block, ops: seq<Op>)
    requires x < cfg.total && Contained(cfg, x, b) && AllFit(cfg, ops)
    ensures var r := Replay(cfg, x, b, None, ops);
            && (HitCount(ops, x) == 0 ==> r == b)
            && (HitCount(ops, x) > 0 ==> Intact(cfg, x, r) && Live(r))
            && r.hdr.version == Later(b.hdr.version, HitCount(ops, x))
            && r.hdr.id == b.hdr.id && r.hdr.keyLen == b.hdr.keyLen
            && LongestEnd(ops, x, b.hdr.valLen, r.hdr.valLen)
            && |r.body| == |b.body|
            && forall i :: 0 <= i < |b.body| ==> LastWriterWins(cfg, ops, x, i, b.body[i], r.body[i])
  {
    ReplayVersion(cfg, x, b, None, ops);
    ReplayIdentity(cfg, x, b, None, ops);
    ReplayLength(cfg, x, b, None, ops);
    ReplayTouched(cfg, x, b, None, ops);
    forall i | 0 <= i < |b.body| ensures LastWriterWins(cfg, ops, x, i, b.body[i], Replay(cfg, x, b, None, ops).body[i]) {
      ReplayByte(cfg, x, b, None, ops, i);
    }
  }

  // ---- fast path against slow path ----

  /** What a client sees of a block: length, version and the value bytes a write of `val` at `offset` over
      `prev` determines. */
  ghost predicate SameForReader(cfg: Config, x: nat, fast: Block, y: nat, slow: Block, prev: Block, offset: nat, val: seq<Byte>) {
    && x < cfg.total && y < cfg.total
    && Contained(cfg, x, fast) && Contained(cfg, y, slow)
    && fast.hdr.valLen == slow.hdr.valLen && fast.hdr.version == slow.hdr.version
    && forall j :: 0 <= j < fast.hdr.valLen && (j < prev.hdr.valLen || offset <= j) ==>
         Value(cfg, x, fast)[j] == Value(cfg, y, slow)[j]
  }

  /** Fast path refines slow path: for a nonempty write to a live data block, replaying the logged small
      update gives the same length, version and value bytes as the copy-on-write block. */
  lemma {:induction false} FastPathRefinesSlowPath(cfg: Config, x: nat, y: nat, prev: Block, blank: Block, kv: Pair)
    requires 0 < x < cfg.total && y < cfg.total
    requires Contained(cfg, x, prev) && |blank.body| == cfg.BodyLen(y)
    requires DataPutFits(cfg, kv) && kv.val != []
    ensures var fast := Replay(cfg, x, prev, None, [InPlace(x, kv.offset, kv.val)]);
            var slow := Sealed(cfg, y, FilledData(cfg, y, blank, Some(prev), kv));
            && SameForReader(cfg, x, fast, y, slow, prev, kv.offset, kv.val)
            && ReadsAs(cfg, x, fast, Some(prev), kv.offset, kv.val)
  {
    var op := InPlace(x, kv.offset, kv.val);
    ReplayOne(cfg, x, prev, op);
    FastReads(cfg, x, prev, op);
    DataPutMeaning(cfg, y, blank, Some(prev), kv);
    PathsMeet(cfg, x, Replay(cfg, x, prev, None, [op]), y, FilledData(cfg, y, blank, Some(prev), kv), prev, kv.offset, kv.val);
  }

  lemma {:induction false} PathsMeet(cfg: Config, x: nat, fast: Block, y: nat, filled: Block, prev: Block, offset: nat, val: seq<Byte>)
    requires x < cfg.total && y < cfg.total
    requires ReadsAs(cfg, x, fast, Some(prev), offset, val) && ReadsAs(cfg, y, filled, Some(prev), offset, val)
    requires fast.hdr.valLen == filled.hdr.valLen == Max(prev.hdr.valLen, offset + |val|) && fast.hdr.version == filled.hdr.version
    ensures SameForReader(cfg, x, fast, y, Sealed(cfg, y, filled), prev, offset, val)
  {
    assert Value(cfg, x, prev) == Value(cfg, y, prev);
    assert Value(cfg, y, Sealed(cfg, y, filled)) == Value(cfg, y, filled);
  }

  lemma {:induction false} ReplayOne(cfg: Config, x: nat, prev: Block, op: Op)
    requires 0 < x < cfg.total && Contained(cfg, x, prev) && Hits(op, x) && Fits(cfg, op)
    ensures Replay(cfg, x, prev, None, [op]) ==
            Restamped(cfg, x, Stamp(cfg, prev, op), Bump(HeaderMeta(prev), op.offset + |op.payload|))
  {
    var m := Bump(HeaderMeta(prev), op.offset + |op.payload|);
    assert [op][0] == op && [op][1..] == [];
    assert Replay(cfg, x, Stamp(cfg, prev, op), Some(m), []) == Restamped(cfg, x, Stamp(cfg, prev, op), m);
  }

  lemma {:induction false} FastReads(cfg: Config, x: nat, prev: Block, op: Op)
    requires 0 < x < cfg.total && Contained(cfg, x, prev) && Hits(op, x) && Fits(cfg, op)
    ensures var fast := Restamped(cfg, x, Stamp(cfg, prev, op), Bump(HeaderMeta(prev), op.offset + |op.payload|));
            && fast.hdr.valLen == Max(prev.hdr.valLen, op.offset + |op.payload|)
            && fast.hdr.version == Inc32(prev.hdr.version)
            && ReadsAs(cfg, x, fast, Some(prev), op.offset, op.payload)
  {
    var fast := Restamped(cfg, x, Stamp(cfg, prev, op), Bump(HeaderMeta(prev), op.offset + |op.payload|));
    StampReads(cfg, x, prev, fast, op.offset, op.payload);
  }

  lemma {:induction false} StampReads(cfg: Config, x: nat, prev: Block, r: Block, offset: nat, payload: seq<Byte>)
    requires x < cfg.total && Contained(cfg, x, prev) && Contained(cfg, x, r) && offset + |payload| <= cfg.maxVal
    requires r.body == Overlay(prev.body, cfg.maxKey + offset, payload)
    ensures ReadsAs(cfg, x, r, Some(prev), offset, payload)
  {
    forall j | 0 <= j < r.hdr.valLen
      ensures offset <= j < offset + |payload| ==> Value(cfg, x, r)[j] == payload[j - offset]
      ensures j < prev.hdr.valLen && !(offset <= j < offset + |payload|) ==> Value(cfg, x, r)[j] == Value(cfg, x, prev)[j]
    {
      OverlayAt(prev.body, cfg.maxKey + offset, payload, cfg.maxKey + j);
      assert Value(cfg, x, r)[j] == r.body[cfg.maxKey + j];
    }
  }

  /** For an empty write the two paths differ: the slow path truncates the value, the fast path keeps it. */
  lemma {:induction false} TouchDiffers(cfg: Config, x: nat, y: nat, prev: Block, blank: Block, kv: Pair)
    requires 0 < x < cfg.total && y < cfg.total && Contained(cfg, x, prev) && |blank.body| == cfg.BodyLen(y)
    requires DataPutFits(cfg, kv) && kv.val == []
    ensures var fast, slow := Replay(cfg, x, prev, None, [InPlace(x, kv.offset, kv.val)]), FilledData(cfg, y, blank, Some(prev), kv);
            fast.hdr.valLen == prev.hdr.valLen && slow.hdr.valLen == 0 && fast.hdr.version == slow.hdr.version
  {
    var op := InPlace(x, kv.offset, kv.val);
    ReplayOne(cfg, x, prev, op);
  }

  /** Exactly when the two paths give a reader the same length, version and value: always, except for an empty
      write over a nonempty value. */
  lemma {:induction false} PathsAgreeExactly(cfg: Config, x: nat, y: nat, prev: Block, blank: Block, kv: Pair)
    requires 0 < x < cfg.total && y < cfg.total
    requires Contained(cfg, x, prev) && |blank.body| == cfg.BodyLen(y) && DataPutFits(cfg, kv)
    ensures var fast := Replay(cfg, x, prev, None, [InPlace(x, kv.offset, kv.val)]);
            var slow := Sealed(cfg, y, FilledData(cfg, y, blank, Some(prev), kv));
            SameForReader(cfg, x, fast, y, slow, prev, kv.offset, kv.val) <==> kv.val != [] || prev.hdr.valLen == 0
  {
    if kv.val == [] {
      TouchDiffers(cfg, x, y, prev, blank, kv);
    } else {
      FastPathRefinesSlowPath(cfg, x, y, prev, blank, kv);
    }
  }

  /** Key and object id: the in-place path keeps the old ones, copy-on-write writes those of the call. So a reader of
      the whole object sees the same exactly when the call repeats them, besides the condition on the value. */
  lemma {:induction false} IdentityAgreesExactly(cfg: Config, x: nat, y: nat, prev: Block, blank: Block, kv: Pair)
    requires 0 < x < cfg.total && y < cfg.total
    requires Contained(cfg, x, prev) && |blank.body| == cfg.BodyLen(y) && DataPutFits(cfg, kv)
    ensures var fast := Replay(cfg, x, prev, None, [InPlace(x, kv.offset, kv.val)]);
            var slow := Sealed(cfg, y, FilledData(cfg, y, blank, Some(prev), kv));
            && Key(fast) == Key(prev) && fast.hdr.id == prev.hdr.id
            && Key(slow) == kv.key && slow.hdr.id == kv.id
            && (SameForReader(cfg, x, fast, y, slow, prev, kv.offset, kv.val) && Key(fast) == Key(slow) && fast.hdr.id == slow.hdr.id <==>
                (kv.val != [] || prev.hdr.valLen == 0) && kv.key == Key(prev) && kv.id == prev.hdr.id)
  {
    var op := InPlace(x, kv.offset, kv.val);
    ReplayOne(cfg, x, prev, op);
    StampKeepsKey(cfg, prev, op);
    FilledKey(cfg, y, blank, Some(prev), kv);
    PathsAgreeExactly(cfg, x, y, prev, blank, kv);
  }

  lemma {:induction false} StampKeepsKey(cfg: Config, b: Block, op: Op)
    requires op.InPlace? && Fits(cfg, op) && |b.body| == cfg.BodyLen(op.id) && b.hdr.keyLen <= cfg.maxKey
    ensures Key(Stamp(cfg, b, op)) == Key(b)
  {
    OverlayKeepsRange(b.body, cfg.maxKey + op.offset, op.payload, 0, b.hdr.keyLen);
  }

  lemma {:induction false} FilledKey(cfg: Config, x: nat, blank: Block, prev: Option<Block>, kv: Pair)
    requires x < cfg.total && |blank.body| == cfg.BodyLen(x) && DataPutFits(cfg, kv)
    requires prev.Some? ==> Contained(cfg, x, prev.value)
    ensures Key(FilledData(cfg, x, blank, prev, kv)) == kv.key
  {
    if kv.val != [] {
      DataPutMeaning(cfg, x, blank, prev, kv);
    } else {
      assert Overlay(blank.body, 0, kv.key)[..|kv.key|] == kv.key;
    }
  }
}
