/** The fixed 128-entry list in which execute collects new versions and lengths, and the pass that writes
    them to the block headers. A zero id marks an unused entry. */
module SideTable {
  import opened Words
  import opened Blocks
  import opened InPlace
  import opened Machine

  const CAPACITY: nat := 128

  datatype Entry = Entry(id: nat, version: Word32, valLen: Word32)

  const BLANK := Entry(0, 0, 0)

  datatype Table = Table(list: seq<Entry>, count: nat)

  ghost predicate Valid(t: Table) {
    && |t.list| == CAPACITY && t.count <= CAPACITY
    && (forall i :: 0 <= i < t.count ==> t.list[i].id != 0)
    && (forall i :: t.count <= i < CAPACITY ==> t.list[i] == BLANK)
    && Distinct(t.list, t.count)
  }

  ghost predicate Clear(t: Table) {
    |t.list| == CAPACITY && t.count == 0 && forall i :: 0 <= i < CAPACITY ==> t.list[i] == BLANK
  }

  function MetaOf(e: Entry): Meta { Meta(e.version, e.valLen) }

  /** The first `n` entries as a map from block id to pending version and length. */
  ghost function Upto(list: seq<Entry>, n: nat): map<nat, Meta>
    requires n <= |list|
  {
    if n == 0 then map[] else Upto(list, n - 1)[list[n - 1].id := MetaOf(list[n - 1])]
  }

  ghost function Contents(t: Table): map<nat, Meta>
    requires Valid(t)
  {
    Upto(t.list, t.count)
  }

  ghost predicate Distinct(list: seq<Entry>, n: nat) {
    forall i, j :: 0 <= i < j < n <= |list| ==> list[i].id != list[j].id
  }

  lemma {:induction false} AbsentUpto(list: seq<Entry>, n: nat, x: nat)
    requires n <= |list| && forall j :: 0 <= j < n ==> list[j].id != x
    ensures x !in Upto(list, n)
  {
    if n > 0 { AbsentUpto(list, n - 1, x); }
  }

  lemma {:induction false} PresentUpto(list: seq<Entry>, n: nat, i: nat)
    requires i < n <= |list| && Distinct(list, n)
    ensures list[i].id in Upto(list, n) && Upto(list, n)[list[i].id] == MetaOf(list[i])
  {
    if i < n - 1 { PresentUpto(list, n - 1, i); }
  }

  lemma {:induction false} SamePrefix(a: seq<Entry>, b: seq<Entry>, n: nat)
    requires n <= |a| && n <= |b| && forall j :: 0 <= j < n ==> a[j] == b[j]
    ensures Upto(a, n) == Upto(b, n)
  {
    if n > 0 { SamePrefix(a, b, n - 1); }
  }

  /** Rewriting an entry in place, under the same id, updates the map at that id. */
  lemma {:induction false} Rewritten(list: seq<Entry>, n: nat, i: nat, e: Entry)
    requires i < n <= |list| && Distinct(list, n) && e.id == list[i].id
    ensures Upto(list[i := e], n) == Upto(list, n)[e.id := MetaOf(e)]
  {
    var after := list[i := e];
    if i == n - 1 {
      SamePrefix(list, after, n - 1);
    } else {
      Rewritten(list, n - 1, i, e);
      assert after[n - 1] == list[n - 1] && list[n - 1].id != e.id;
    }
  }

  ghost function IdsUpto(list: seq<Entry>, n: nat): set<nat>
    requires n <= |list|
  {
    if n == 0 then {} else IdsUpto(list, n - 1) + {list[n - 1].id}
  }

  lemma {:induction false} KeysUpto(list: seq<Entry>, n: nat)
    requires n <= |list|
    ensures Upto(list, n).Keys == IdsUpto(list, n)
  {
    if n > 0 { KeysUpto(list, n - 1); }
  }

  /** Distinct ids: the map has as many keys as entries. */
  lemma {:induction false} CountUpto(list: seq<Entry>, n: nat)
    requires n <= |list| && Distinct(list, n)
    ensures |IdsUpto(list, n)| == n
  {
    if n > 0 {
      CountUpto(list, n - 1);
      AbsentUpto(list, n - 1, list[n - 1].id);
      KeysUpto(list, n - 1);
    }
  }

  /** The search loop: the block's entry, or the first unused one. */
  method Find(t: Table, blk: nat) returns (i: nat)
    requires Valid(t) && blk != 0
    ensures i <= t.count && (i < t.count ==> t.list[i].id == blk)
    ensures i < t.count <==> blk in Contents(t)
    ensures i < t.count ==> Contents(t)[blk] == MetaOf(t.list[i])
  {
    i := 0;
    while i < t.count
      invariant 0 <= i <= t.count
      invariant forall j :: 0 <= j < i ==> t.list[j].id != blk
    {
      if t.list[i].id == blk || t.list[i].id == 0 {
        PresentUpto(t.list, t.count, i);
        return;
      }
      i := i + 1;
    }
    AbsentUpto(t.list, t.count, blk);
  }

  /** `tx_slot_meta_upd_add`: finds the block's entry or claims the first unused one, then raises it. */
  method Add(t: Table, blk: nat, b: Block, size: nat) returns (r: Table)
    requires Valid(t) && blk != 0 && (blk in Contents(t) || t.count < CAPACITY)
    ensures Valid(r)
    ensures Contents(r) == Contents(t)[blk := Bump(if blk in Contents(t) then Contents(t)[blk] else HeaderMeta(b), size)]
  {
    var i := Find(t, blk);
    var e, count := t.list[i], t.count;
    if e.id == 0 {
      e := Entry(blk, b.hdr.version, b.hdr.valLen);
      count := count + 1;
    }
    e := e.(version := Inc32(e.version));
    if e.valLen < size % U32 {
      e := e.(valLen := size % U32);
    }
    r := Table(t.list[i := e], count);
    Replaced(t, i, e, count);
  }

  /** Writing one entry, at its place or at the first unused one, updates the map at its id. */
  lemma {:induction false} Replaced(t: Table, i: nat, e: Entry, count: nat)
    requires Valid(t) && i < CAPACITY && i <= t.count && e.id != 0
    requires i < t.count ==> e.id == t.list[i].id && count == t.count
    requires i == t.count ==> e.id !in Contents(t) && count == t.count + 1
    ensures Valid(Table(t.list[i := e], count))
    ensures Contents(Table(t.list[i := e], count)) == Contents(t)[e.id := MetaOf(e)]
  {
    if i < t.count {
      Rewritten(t.list, t.count, i, e);
    } else {
      SamePrefix(t.list, t.list[i := e], i);
      forall j | 0 <= j < t.count ensures t.list[j].id != e.id { PresentUpto(t.list, t.count, j); }
    }
  }

  ghost predicate Early(t: Table, n: nat, x: nat) {
    exists j :: 0 <= j < n <= t.count <= |t.list| && t.list[j].id == x
  }

  /** Ids and lengths the pass can write: data blocks, and lengths that fit. */
  ghost predicate Fitting(cfg: Config, m: map<nat, Meta>) {
    forall x :: x in m ==> x < cfg.total && m[x].valLen <= cfg.maxVal
  }

  /** `tx_slot_meta_upd_process`: writes every collected version and length, reseals the blocks, and leaves
      the table blank for the slot's next transaction. */
  method Process(cfg: Config, blocks: array<Block>, t: Table) returns (r: Table)
    requires Valid(t) && Fitting(cfg, Contents(t)) && blocks.Length == cfg.Ids()
    requires forall x :: 0 <= x < blocks.Length ==> Contained(cfg, x, blocks[x])
    modifies blocks
    ensures blocks[..] == SettleAll(cfg, old(blocks[..]), Contents(t))
    ensures Clear(r)
  {
    ghost var was, m := blocks[..], Contents(t);
    var i := 0;
    while i < t.count
      invariant 0 <= i <= t.count
      invariant forall x :: 0 <= x < blocks.Length ==>
                  blocks[x] == if Early(t, i, x) then Settle(cfg, x, was[x], m) else was[x]
    {
      var e := t.list[i];
      assert !Early(t, i, e.id);
      PresentUpto(t.list, t.count, i);
      assert forall x :: Early(t, i + 1, x) <==> Early(t, i, x) || x == e.id by { EarlyStep(t, i); }
      blocks[e.id] := Restamped(cfg, e.id, blocks[e.id], MetaOf(e));
      i := i + 1;
    }
    forall x | 0 <= x < blocks.Length ensures blocks[x] == Settle(cfg, x, was[x], m) {
      if !Early(t, t.count, x) { AbsentUpto(t.list, t.count, x); }
    }
    r := Table(seq(CAPACITY, k => BLANK), 0);
  }

  lemma {:induction false} EarlyStep(t: Table, i: nat)
    requires Valid(t) && i < t.count
    ensures forall x :: Early(t, i + 1, x) <==> Early(t, i, x) || x == t.list[i].id
  {
    assert Early(t, i + 1, t.list[i].id);
  }

  /** A table without ids is blank. */
  lemma {:induction false} NoKeysClear(t: Table)
    requires Valid(t) && Contents(t).Keys == {}
    ensures Clear(t)
  {
    if t.count > 0 { PresentUpto(t.list, t.count, 0); }
  }

  /** A table whose ids all come from `ids` has room for another of them. */
  lemma {:induction false} Room(t: Table, ids: set<nat>, x: nat)
    requires Valid(t) && Contents(t).Keys <= ids && |ids| <= CAPACITY && x in ids && x !in Contents(t)
    ensures t.count < CAPACITY
  {
    CountUpto(t.list, t.count);
    KeysUpto(t.list, t.count);
    SubsetSize(Contents(t).Keys, ids - {x});
  }

  lemma {:induction false} SubsetSize(a: set<nat>, b: set<nat>)
    requires a <= b
    ensures |a| <= |b|
  {
    assert a + (b - a) == b;
  }
}
