/** Object blocks: header, body bytes, checksum range, and the ways the source writes them. */
module Blocks {
  import opened Words
  import Layout

  datatype Header = Header(id: Word64, version: Word32, keyLen: Word32, valLen: Word32)

  const ZERO_HEADER := Header(0, 0, 0, 0)

  /** `flch == 0` means "no object here"; `body` is everything after the 32-byte header. */
  datatype Block = Block(flch: nat, hdr: Header, body: seq<Byte>)

  /** Store parameters. Ids below `total` are data blocks, the next `meta` ids are meta blocks; `body` and
      `metaBody` are the bytes a block has after its header. The checksum is any function of the header
      fields and the covered bytes with nonzero values. */
  datatype Params = Params(
    total: nat, meta: nat,
    maxKey: Word32, maxVal: Word32, metaMaxKey: Word32, metaMaxVal: Word32,
    body: nat, metaBody: nat,
    sum: (Header, seq<Byte>) -> Sum64)
  {
    function Ids(): nat { total + meta }

    function BodyLen(x: nat): nat { if x < total then body else metaBody }
  }

  /** Blocks have room for the largest key and value, and the reserved block 0 exists. */
  type Config = c: Params | 0 < c.total && c.maxKey + c.maxVal <= c.body && c.metaMaxKey + c.metaMaxVal <= c.metaBody
    witness Params(1, 0, 0, 0, 0, 0, 0, 0, (h, s) => 1)

  /** The parameters a carved pool gives: block counts from the layout, bodies from the rounded-up sizes. */
  function Configure(p: Layout.Pool, maxKey: Word32, maxVal: Word32, metaMaxKey: Word32, metaMaxVal: Word32,
                     sum: (Header, seq<Byte>) -> Sum64): Config
    requires 0 < p.dataBlocks
    requires p.bsize == Layout.RoundUp(Layout.HDR + maxKey + maxVal)
    requires p.metaBsize == Layout.RoundUp(Layout.HDR + metaMaxKey + metaMaxVal)
  {
    Layout.RoundUpFacts(Layout.HDR + maxKey + maxVal);
    Layout.RoundUpFacts(Layout.HDR + metaMaxKey + metaMaxVal);
    Params(p.dataBlocks, p.metaBlocks, maxKey, maxVal, metaMaxKey, metaMaxVal,
           p.bsize - Layout.HDR, p.metaBsize - Layout.HDR, sum)
  }

  /** Sizes recorded in the header stay inside the block. */
  predicate Contained(cfg: Config, x: nat, b: Block) {
    && |b.body| == cfg.BodyLen(x)
    && (if x < cfg.total then b.hdr.keyLen <= cfg.maxKey && b.hdr.valLen <= cfg.maxVal
        else b.hdr.keyLen + b.hdr.valLen <= cfg.metaMaxKey + cfg.metaMaxVal)
  }

  predicate Live(b: Block) { b.flch != 0 }

  /** `backend_get`: no object for id 0, for an id out of range, or for a zero checksum. */
  function Get(blocks: seq<Block>, x: nat): Option<Block> {
    if x == 0 || x >= |blocks| || blocks[x].flch == 0 then None else Some(blocks[x])
  }

  /** The live objects, as `pmb_get` sees them. */
  ghost function LiveMap(blocks: seq<Block>): map<nat, Block> {
    map x | 0 < x < |blocks| && Live(blocks[x]) :: blocks[x]
  }

  /** How many body bytes the checksum covers: the whole key area and the value for data blocks, the
      actual key and the value for meta blocks. */
  function Covered(cfg: Config, x: nat, h: Header): nat {
    if x < cfg.total then cfg.maxKey + h.valLen else h.keyLen + h.valLen
  }

  function Checksum(cfg: Config, x: nat, b: Block): Sum64
    requires Contained(cfg, x, b)
  {
    cfg.sum(b.hdr, b.body[..Covered(cfg, x, b.hdr)])
  }

  ghost predicate Intact(cfg: Config, x: nat, b: Block) {
    Contained(cfg, x, b) && b.flch == Checksum(cfg, x, b)
  }

  /** `util_checksum(..., insert = 1)` over the covered range. */
  function Sealed(cfg: Config, x: nat, b: Block): (r: Block)
    requires Contained(cfg, x, b)
    ensures Contained(cfg, x, r) && Intact(cfg, x, r) && Live(r) && r.hdr == b.hdr && r.body == b.body
  {
    b.(flch := Checksum(cfg, x, b))
  }

  /** `backend_set_zero`: header plus the first key_len + val_len bytes. For a data block that is not
      where the value lives, so a freed block guarantees only a zero header. */
  function SetZero(b: Block): (r: Block)
    requires b.hdr.keyLen + b.hdr.valLen <= |b.body|
    ensures |r.body| == |b.body| && !Live(r) && r.hdr == ZERO_HEADER
  {
    Block(0, ZERO_HEADER, Overlay(b.body, 0, Zeros(b.hdr.keyLen + b.hdr.valLen)))
  }

  lemma ZeroContained(cfg: Config, x: nat, b: Block)
    requires Contained(cfg, x, b)
    ensures b.hdr.keyLen + b.hdr.valLen <= |b.body|
    ensures Contained(cfg, x, SetZero(b))
  {
  }

  /** Which bytes zeroing reaches: for a meta block key and value, for a data block as many bytes from the start. */
  lemma {:induction false} ZeroedAt(cfg: Config, x: nat, b: Block, i: nat)
    requires Contained(cfg, x, b) && i < |b.body|
    ensures b.hdr.keyLen + b.hdr.valLen <= |b.body|
    ensures SetZero(b).body[i] == if i < b.hdr.keyLen + b.hdr.valLen then 0 else b.body[i]
  {
    ZeroContained(cfg, x, b);
    OverlayAt(b.body, 0, Zeros(b.hdr.keyLen + b.hdr.valLen), i);
  }

  // ---- what a client reads ----

  function Key(b: Block): seq<Byte>
    requires b.hdr.keyLen <= |b.body|
  {
    b.body[..b.hdr.keyLen]
  }

  /** `pmb_get`: a data value starts after the maximal key, a meta value after the actual key. */
  function Value(cfg: Config, x: nat, b: Block): (v: seq<Byte>)
    requires Contained(cfg, x, b)
    ensures |v| == b.hdr.valLen
  {
    var start := if x < cfg.total then cfg.maxKey else b.hdr.keyLen;
    b.body[start..start + b.hdr.valLen]
  }

  // ---- what a valid checksum says ----

  /** The checksum does not collide on the two blocks: no stretch of one has the checksum of another stretch of the
      other. */
  ghost predicate Discerns(cfg: Config, a: Block, b: Block) {
    forall m: nat, n: nat :: m <= |a.body| && n <= |b.body| && cfg.sum(a.hdr, a.body[..m]) == cfg.sum(b.hdr, b.body[..n]) ==>
      a.hdr == b.hdr && a.body[..m] == b.body[..n]
  }

  /** The two blocks hold the same object: header, key and value, and for a data block the whole key area. */
  ghost predicate SameObject(cfg: Config, x: nat, a: Block, b: Block)
    requires Contained(cfg, x, a) && Contained(cfg, x, b)
  {
    && a.hdr == b.hdr && Key(a) == Key(b) && Value(cfg, x, a) == Value(cfg, x, b)
    && (x < cfg.total ==> a.body[..cfg.maxKey] == b.body[..cfg.maxKey])
  }

  /** What a valid checksum guarantees: a block that carries the checksum of a valid object is valid exactly when it
      holds that object. What lies behind the value is not protected. */
  lemma {:induction false} IntactExactly(cfg: Config, x: nat, a: Block, b: Block)
    requires Intact(cfg, x, a) && Contained(cfg, x, b) && b.flch == a.flch && Discerns(cfg, a, b)
    ensures Intact(cfg, x, b) <==> SameObject(cfg, x, a, b)
  {
    var m, n := Covered(cfg, x, a.hdr), Covered(cfg, x, b.hdr);
    assert cfg.sum(a.hdr, a.body[..m]) == a.flch;
    if Intact(cfg, x, b) {
      assert cfg.sum(a.hdr, a.body[..m]) == cfg.sum(b.hdr, b.body[..n]);
      SamePrefix(cfg, x, a, b, m);
    }
    if SameObject(cfg, x, a, b) { SameJoined(cfg, x, a, b); }
  }

  lemma {:induction false} SamePrefix(cfg: Config, x: nat, a: Block, b: Block, n: nat)
    requires Contained(cfg, x, a) && Contained(cfg, x, b) && a.hdr == b.hdr && n == Covered(cfg, x, a.hdr)
    requires a.body[..n] == b.body[..n]
    ensures SameObject(cfg, x, a, b)
  {
    assert forall i :: 0 <= i < n ==> a.body[i] == a.body[..n][i] == b.body[i];
  }

  lemma {:induction false} SameJoined(cfg: Config, x: nat, a: Block, b: Block)
    requires Contained(cfg, x, a) && Contained(cfg, x, b) && SameObject(cfg, x, a, b)
    ensures a.body[..Covered(cfg, x, a.hdr)] == b.body[..Covered(cfg, x, b.hdr)]
  {
    var n := Covered(cfg, x, a.hdr);
    var start := n - a.hdr.valLen;
    forall i | 0 <= i < n ensures a.body[i] == b.body[i] {
      if i < start {
        assert if x < cfg.total then a.body[i] == a.body[..cfg.maxKey][i] else a.body[i] == Key(a)[i];
      } else {
        assert a.body[i] == Value(cfg, x, a)[i - start];
      }
    }
  }

  /** Body byte `i` belongs to the key or the value. */
  predicate InObject(cfg: Config, x: nat, h: Header, i: nat) {
    i < h.keyLen || (if x < cfg.total then cfg.maxKey <= i < cfg.maxKey + h.valLen else i < h.keyLen + h.valLen)
  }

  lemma {:induction false} ByteDiffers(cfg: Config, x: nat, a: Block, b: Block, i: nat)
    requires Contained(cfg, x, a) && Contained(cfg, x, b) && a.hdr == b.hdr && i < |a.body|
    requires InObject(cfg, x, a.hdr, i) && a.body[i] != b.body[i]
    ensures !SameObject(cfg, x, a, b)
  {
    if i < a.hdr.keyLen {
      assert Key(a)[i] != Key(b)[i];
    } else {
      var start := if x < cfg.total then cfg.maxKey else a.hdr.keyLen;
      assert Value(cfg, x, a)[i - start] != Value(cfg, x, b)[i - start];
    }
  }

  // ---- puts ----

  datatype Pair = Pair(blkId: nat, id: Word64, offset: Word32, key: seq<Byte>, val: seq<Byte>)

  predicate Words32(kv: Pair) { |kv.key| < U32 && |kv.val| < U32 }

  /** The argument checks of `pmb_tput` that come before anything is touched, for a write whose 32-bit
      sum does not wrap. */
  predicate DataPutFits(cfg: Config, kv: Pair) {
    0 < |kv.key| <= cfg.maxKey && kv.offset + |kv.val| <= cfg.maxVal && (kv.val == [] ==> kv.offset == 0)
  }

  function BumpVersion(prev: Option<Block>): Word32 {
    if prev.Some? then Inc32(prev.value.hdr.version) else 1
  }

  /** The part of the old value `pmb_tput` copies forward: what lies before the write and what lies after. */
  function Kept(cfg: Config, body: seq<Byte>, prev: Option<Block>, offset: nat, end: nat): (r: seq<Byte>)
    requires |body| == cfg.body && offset <= end <= cfg.maxVal
    requires prev.Some? ==> |prev.value.body| == |body| && prev.value.hdr.valLen <= cfg.maxVal
    ensures |r| == |body|
  {
    if prev.Some? && prev.value.hdr.valLen > 0 then
      var was := prev.value;
      var head := Overlay(body, cfg.maxKey, was.body[cfg.maxKey..cfg.maxKey + Min(offset, was.hdr.valLen)]);
      if was.hdr.valLen > end then
        Overlay(head, cfg.maxKey + end, was.body[cfg.maxKey + end..cfg.maxKey + was.hdr.valLen])
      else head
    else body
  }

  /** The value area after the copies of `pmb_tput`: kept old bytes, then the new ones. */
  function CopyForward(cfg: Config, body: seq<Byte>, prev: Option<Block>, offset: nat, val: seq<Byte>): (r: seq<Byte>)
    requires |body| == cfg.body && offset + |val| <= cfg.maxVal
    requires prev.Some? ==> |prev.value.body| == |body| && prev.value.hdr.valLen <= cfg.maxVal
    ensures |r| == |body|
  {
    Overlay(Kept(cfg, body, prev, offset, offset + |val|), cfg.maxKey + offset, val)
  }

  function PutValLen(prev: Option<Block>, offset: nat, val: seq<Byte>): nat {
    if val == [] then offset
    else if prev.Some? && prev.value.hdr.valLen > offset + |val| then prev.value.hdr.valLen
    else offset + |val|
  }

  /** A new data block before its checksum is written. */
  function FilledData(cfg: Config, x: nat, blank: Block, prev: Option<Block>, kv: Pair): (r: Block)
    requires x < cfg.total && |blank.body| == cfg.BodyLen(x)
    requires DataPutFits(cfg, kv)
    requires prev.Some? ==> |prev.value.body| == cfg.BodyLen(x) && prev.value.hdr.valLen <= cfg.maxVal
    ensures Contained(cfg, x, r) && r.flch == blank.flch
  {
    var keyed := Overlay(blank.body, 0, kv.key);
    Block(blank.flch,
          Header(kv.id, BumpVersion(prev), |kv.key|, PutValLen(prev, kv.offset, kv.val)),
          if kv.val == [] then keyed else CopyForward(cfg, keyed, prev, kv.offset, kv.val))
  }

  predicate MetaPutFits(cfg: Config, kv: Pair) {
    kv.key != [] && kv.val != [] && |kv.key| + |kv.val| <= cfg.metaMaxKey + cfg.metaMaxVal && Words32(kv)
  }

  /** A new meta block before its checksum: no copy from the old one, and `id` is not written. */
  function FilledMeta(cfg: Config, x: nat, blank: Block, prev: Option<Block>, kv: Pair): (r: Block)
    requires cfg.total <= x && |blank.body| == cfg.BodyLen(x)
    requires MetaPutFits(cfg, kv)
    ensures Contained(cfg, x, r) && r.flch == blank.flch
  {
    Block(blank.flch,
          Header(blank.hdr.id, BumpVersion(prev), |kv.key|, |kv.val|),
          Overlay(Overlay(blank.body, 0, kv.key), |kv.key|, kv.val))
  }

  ghost function Expected(cfg: Config, body: seq<Byte>, prev: Option<Block>, offset: nat, val: seq<Byte>, i: nat): Byte
    requires i < |body| && (prev.Some? ==> |prev.value.body| == |body|)
  {
    if cfg.maxKey + offset <= i < cfg.maxKey + offset + |val| then val[i - cfg.maxKey - offset]
    else if prev.Some? && cfg.maxKey <= i < cfg.maxKey + prev.value.hdr.valLen then prev.value.body[i]
    else body[i]
  }

  /** Byte by byte: new bytes at the offset, other bytes of the old value kept, the rest untouched. */
  lemma {:induction false} CopyForwardAt(cfg: Config, body: seq<Byte>, prev: Option<Block>, offset: nat, val: seq<Byte>, i: nat)
    requires |body| == cfg.body && offset + |val| <= cfg.maxVal
    requires prev.Some? ==> |prev.value.body| == |body| && prev.value.hdr.valLen <= cfg.maxVal
    requires i < |body|
    ensures CopyForward(cfg, body, prev, offset, val)[i] == Expected(cfg, body, prev, offset, val, i)
  {
    KeptAt(cfg, body, prev, offset, offset + |val|, i);
    OverlayAt(Kept(cfg, body, prev, offset, offset + |val|), cfg.maxKey + offset, val, i);
  }

  lemma {:induction false} KeptAt(cfg: Config, body: seq<Byte>, prev: Option<Block>, offset: nat, end: nat, i: nat)
    requires |body| == cfg.body && offset <= end <= cfg.maxVal
    requires prev.Some? ==> |prev.value.body| == |body| && prev.value.hdr.valLen <= cfg.maxVal
    requires i < |body|
    ensures !(cfg.maxKey + offset <= i < cfg.maxKey + end) ==>
              Kept(cfg, body, prev, offset, end)[i] ==
                (if prev.Some? && cfg.maxKey <= i < cfg.maxKey + prev.value.hdr.valLen then prev.value.body[i] else body[i])
  {
    if prev.Some? && prev.value.hdr.valLen > 0 {
      var was, n, k := prev.value, prev.value.hdr.valLen, cfg.maxKey;
      var m := k + Min(offset, n);
      var head := Overlay(body, k, was.body[k..m]);
      SliceOverlayAt(body, was.body, k, m, i);
      if n > end {
        SliceOverlayAt(head, was.body, k + end, k + n, i);
      }
    }
  }

  /** Copying a stretch of one buffer to the same place in another. */
  lemma {:induction false} SliceOverlayAt(dest: seq<Byte>, src: seq<Byte>, a: nat, b: nat, i: nat)
    requires a <= b <= |dest| == |src| && i < |dest|
    ensures Overlay(dest, a, src[a..b])[i] == if a <= i < b then src[i] else dest[i]
  {
    OverlayAt(dest, a, src[a..b], i);
  }

  /** What a copy-on-write data put means to a reader: new key, next version, the longer of the two
      lengths, the new bytes at the offset and every other old byte kept (a gap past the old end is
      unspecified). */
  lemma DataPutMeaning(cfg: Config, x: nat, blank: Block, prev: Option<Block>, kv: Pair)
    requires x < cfg.total && |blank.body| == cfg.BodyLen(x)
    requires DataPutFits(cfg, kv) && kv.val != []
    requires prev.Some? ==> Contained(cfg, x, prev.value)
    ensures var r := FilledData(cfg, x, blank, prev, kv);
            && Key(r) == kv.key
            && r.hdr.version == BumpVersion(prev)
            && r.hdr.valLen == Max(if prev.Some? then prev.value.hdr.valLen else 0, kv.offset + |kv.val|)
            && ReadsAs(cfg, x, r, prev, kv.offset, kv.val)
  {
    var keyed := Overlay(blank.body, 0, kv.key);
    var r := FilledData(cfg, x, blank, prev, kv);
    forall i | 0 <= i < |keyed| ensures r.body[i] == Expected(cfg, keyed, prev, kv.offset, kv.val, i) {
      CopyForwardAt(cfg, keyed, prev, kv.offset, kv.val, i);
    }
    ExpectedReads(cfg, x, r, keyed, prev, kv);
  }

  lemma ExpectedReads(cfg: Config, x: nat, r: Block, keyed: seq<Byte>, prev: Option<Block>, kv: Pair)
    requires x < cfg.total && Contained(cfg, x, r) && |keyed| == |r.body| && |kv.key| == r.hdr.keyLen
    requires keyed[..|kv.key|] == kv.key
    requires prev.Some? ==> Contained(cfg, x, prev.value)
    requires forall i :: 0 <= i < |keyed| ==> r.body[i] == Expected(cfg, keyed, prev, kv.offset, kv.val, i)
    ensures Key(r) == kv.key && ReadsAs(cfg, x, r, prev, kv.offset, kv.val)
  {
    assert forall i :: 0 <= i < |kv.key| ==> kv.key[i] == keyed[i];
    assert Key(r) == kv.key;
    forall j | 0 <= j < r.hdr.valLen ensures Value(cfg, x, r)[j] == r.body[cfg.maxKey + j] {}
  }

  /** A reader of `r` sees `val` at `offset` and elsewhere the old value; bytes past the old end that the
      write skipped over are unspecified. */
  ghost predicate ReadsAs(cfg: Config, x: nat, r: Block, prev: Option<Block>, offset: nat, val: seq<Byte>) {
    && Contained(cfg, x, r) && (prev.Some? ==> Contained(cfg, x, prev.value))
    && forall j :: 0 <= j < r.hdr.valLen ==>
         && (offset <= j < offset + |val| ==> Value(cfg, x, r)[j] == val[j - offset])
         && (prev.Some? && j < prev.value.hdr.valLen && !(offset <= j < offset + |val|) ==>
               Value(cfg, x, r)[j] == Value(cfg, x, prev.value)[j])
  }

  /** What a meta put means to a reader. */
  lemma MetaPutMeaning(cfg: Config, x: nat, blank: Block, prev: Option<Block>, kv: Pair)
    requires cfg.total <= x && |blank.body| == cfg.BodyLen(x) && MetaPutFits(cfg, kv)
    ensures var r := FilledMeta(cfg, x, blank, prev, kv);
            Key(r) == kv.key && Value(cfg, x, r) == kv.val && r.hdr.version == BumpVersion(prev)
  {
    var r := FilledMeta(cfg, x, blank, prev, kv);
    assert Key(r) == kv.key;
    assert Value(cfg, x, r) == kv.val;
  }

  /** The size comparison of `pmb_tput`, in 32-bit arithmetic. */
  predicate PassesSizeGuard(maxVal: Word32, offset: Word32, n: Word32) { (offset + n) % U32 <= maxVal }

  /** A write that passes the comparison stays inside the value area exactly when the sum did not wrap,
      and there are wrapping writes that pass it and start outside the block. */
  lemma SizeGuardExact(maxVal: Word32, offset: Word32, n: Word32)
    ensures PassesSizeGuard(maxVal, offset, n) ==> (offset + n <= maxVal <==> offset + n < U32)
    ensures PassesSizeGuard(1024, U32 - 1, 2) && U32 - 1 > Layout.RoundUp(Layout.HDR + 1024)
  {
    Layout.RoundUpFacts(Layout.HDR + 1024);
  }
}
