/** The transaction log in its byte form: fixed 24-byte entries, in-place entries followed by their
    payload, appended at `slot->size` and decoded by execute's cursor. */
module TxLog {
  import opened Words

  /** sizeof(tx_slot) and sizeof(tx_entry) */
  const SLOT_HDR: nat := 24
  const ENTRY: nat := 24

  datatype Op =
    | Write(id: nat)
    | Update(prev: nat, next: nat)
    | InPlace(id: nat, offset: nat, payload: seq<Byte>)
    | Remove(id: nat)

  /** Operands fit the entry's fields. */
  predicate Encodable(op: Op) {
    match op
    case Write(id) => id < U64
    case Update(prev, next) => prev < U64 && next < U64
    case InPlace(id, offset, payload) => id < U64 && offset < U32 && |payload| < U32
    case Remove(id) => id < U64
  }

  function PayloadLen(op: Op): nat { if op.InPlace? then |op.payload| else 0 }

  function EntryLen(op: Op): nat { ENTRY + PayloadLen(op) }

  function LogLen(ops: seq<Op>): nat {
    if ops == [] then 0 else LogLen(ops[..|ops| - 1]) + EntryLen(ops[|ops| - 1])
  }

  // ---- the appenders ----

  /** tx_op: WRITE, UPDATE, UPDINPLACE, REMOVE */
  function KindCode(op: Op): nat {
    match op
    case Write(_) => 0
    case Update(_, _) => 1
    case InPlace(_, _, _) => 2
    case Remove(_) => 3
  }

  function FirstId(op: Op): nat { if op.Update? then op.prev else op.id }

  /** The bytes an appender leaves at `size`; padding, and blk_id2 of WRITE and REMOVE, keep whatever was
      there before. */
  function Append(bytes: seq<Byte>, size: nat, op: Op): (r: seq<Byte>)
    requires size + EntryLen(op) <= |bytes|
    ensures |r| == |bytes|
  {
    var b1 := SetField(bytes, size, 4, KindCode(op));
    var b2 := SetField(b1, size + 8, 8, FirstId(op));
    match op
    case Write(_) => b2
    case Remove(_) => b2
    case Update(_, next) => SetField(b2, size + 16, 8, next)
    case InPlace(_, offset, payload) =>
      Overlay(SetField(b2, size + 16, 8, |payload| * U32 + offset), size + ENTRY, payload)
  }

  datatype Status = Empty | Processing | Commited | Aborted

  /** One log slot: status, size and the slot's whole byte range (entries start at SLOT_HDR). The slot's own
      checksum is read only by the restart walk, which takes its outcome as an input. */
  datatype Slot = Slot(status: Status, size: nat, bytes: seq<Byte>)

  /** `tx_slot_init`: the header is reset, the bytes stay. */
  function Begun(s: Slot): Slot { s.(status := Processing, size := SLOT_HDR) }

  function Appended(s: Slot, op: Op): (r: Slot)
    requires s.size + EntryLen(op) <= |s.bytes|
    ensures |r.bytes| == |s.bytes| && r.size == s.size + EntryLen(op)
  {
    s.(bytes := Append(s.bytes, s.size, op), size := s.size + EntryLen(op))
  }

  function AppendedAll(s: Slot, ops: seq<Op>): (r: Slot)
    requires s.size + LogLen(ops) <= |s.bytes|
    ensures |r.bytes| == |s.bytes| && r.size == s.size + LogLen(ops)
    decreases |ops|
  {
    if ops == [] then s else Appended(AppendedAll(s, ops[..|ops| - 1]), ops[|ops| - 1])
  }

  // ---- the cursor ----

  function Kind(bytes: seq<Byte>, pos: nat): nat
    requires pos + ENTRY <= |bytes|
  {
    Field(bytes, pos, 4)
  }

  function Id1(bytes: seq<Byte>, pos: nat): nat
    requires pos + ENTRY <= |bytes|
  {
    Field(bytes, pos + 8, 8)
  }

  function Id2(bytes: seq<Byte>, pos: nat): nat
    requires pos + ENTRY <= |bytes|
  {
    Field(bytes, pos + 16, 8)
  }

  /** Where execute's cursor goes next. */
  function NextPos(bytes: seq<Byte>, pos: nat): (next: nat)
    requires pos + ENTRY <= |bytes|
    ensures next >= pos + ENTRY
  {
    if Kind(bytes, pos) == 2 then pos + ENTRY + Id2(bytes, pos) / U32 else pos + ENTRY
  }

  /** The cursor runs from `pos` to exactly `size` over entries of known kinds. */
  predicate WellFormed(bytes: seq<Byte>, pos: nat, size: nat)
    requires size <= |bytes|
    decreases size - pos
  {
    pos == size ||
    (&& pos + ENTRY <= size && Kind(bytes, pos) < 4 && NextPos(bytes, pos) <= size
     && WellFormed(bytes, NextPos(bytes, pos), size))
  }

  function ParseOp(bytes: seq<Byte>, pos: nat): Op
    requires pos + ENTRY <= |bytes| && NextPos(bytes, pos) <= |bytes|
  {
    var k := Kind(bytes, pos);
    if k == 0 then Write(Id1(bytes, pos))
    else if k == 1 then Update(Id1(bytes, pos), Id2(bytes, pos))
    else if k == 2 then InPlace(Id1(bytes, pos), Id2(bytes, pos) % U32, bytes[pos + ENTRY..NextPos(bytes, pos)])
    else Remove(Id1(bytes, pos))
  }

  function Parse(bytes: seq<Byte>, pos: nat, size: nat): seq<Op>
    requires size <= |bytes| && WellFormed(bytes, pos, size)
    decreases size - pos
  {
    if pos == size then [] else [ParseOp(bytes, pos)] + Parse(bytes, NextPos(bytes, pos), size)
  }

  // ---- proofs ----

  /** An append touches nothing below `size`. */
  lemma {:induction false} AppendKeepsPrefix(bytes: seq<Byte>, size: nat, op: Op)
    requires size + EntryLen(op) <= |bytes|
    ensures Append(bytes, size, op)[..size] == bytes[..size]
  {
  }

  lemma {:induction false} SamePrefixSameEntry(a: seq<Byte>, b: seq<Byte>, pos: nat, size: nat)
    requires pos + ENTRY <= size <= |a| == |b| && a[..size] == b[..size]
    ensures Kind(a, pos) == Kind(b, pos) && Id1(a, pos) == Id1(b, pos) && Id2(a, pos) == Id2(b, pos)
    ensures NextPos(a, pos) == NextPos(b, pos)
    ensures NextPos(a, pos) <= size ==> ParseOp(a, pos) == ParseOp(b, pos)
  {
    SameSlice(a, b, size, pos, pos + 4);
    SameSlice(a, b, size, pos + 8, pos + 8 + 8);
    SameSlice(a, b, size, pos + 16, pos + 16 + 8);
    if NextPos(a, pos) <= size {
      SameSlice(a, b, size, pos + ENTRY, NextPos(a, pos));
    }
  }

  lemma {:induction false} SameSlice(a: seq<Byte>, b: seq<Byte>, size: nat, from: nat, to: nat)
    requires from <= to <= size <= |a| == |b| && a[..size] == b[..size]
    ensures a[from..to] == b[from..to]
  {
    assert a[from..to] == a[..size][from..to] && b[from..to] == b[..size][from..to];
  }

  /** Reading back the entry just appended, over any previous contents of the slot. */
  lemma {:induction false} AppendedEntry(bytes: seq<Byte>, size: nat, op: Op)
    requires size + EntryLen(op) <= |bytes| && Encodable(op)
    ensures var r := Append(bytes, size, op);
            Kind(r, size) == KindCode(op) && NextPos(r, size) == size + EntryLen(op) && ParseOp(r, size) == op
  {
    PowersOf256();
    var r := Append(bytes, size, op);
    var b1 := SetField(bytes, size, 4, KindCode(op));
    var b2 := SetField(b1, size + 8, 8, FirstId(op));
    FieldReadBack(bytes, size, 4, KindCode(op));
    OverlayKeepsRange(b1, size + 8, Encode(FirstId(op), 8), size, size + 4);
    FieldReadBack(b1, size + 8, 8, FirstId(op));
    if op.Update? || op.InPlace? {
      var second := if op.Update? then op.next else |op.payload| * U32 + op.offset;
      var b3 := SetField(b2, size + 16, 8, second);
      FieldReadBack(b2, size + 16, 8, second);
      OverlayKeepsRange(b2, size + 16, Encode(second, 8), size, size + 4);
      OverlayKeepsRange(b2, size + 16, Encode(second, 8), size + 8, size + 8 + 8);
      if op.InPlace? {
        OverlayKeepsRange(b3, size + ENTRY, op.payload, size, size + 4);
        OverlayKeepsRange(b3, size + ENTRY, op.payload, size + 8, size + 8 + 8);
        OverlayKeepsRange(b3, size + ENTRY, op.payload, size + 16, size + 16 + 8);
        OverlayReadBack(b3, size + ENTRY, op.payload);
        assert second / U32 == |op.payload| && second % U32 == op.offset;
      }
    }
  }

  /** Bytes that agree below `size` and hold one more entry there decode to one more operation. */
  lemma {:induction false} ParseExtends(a: seq<Byte>, b: seq<Byte>, pos: nat, size: nat, op: Op)
    requires size + EntryLen(op) <= |a| == |b| && a[..size] == b[..size] && WellFormed(a, pos, size)
    requires Kind(b, size) == KindCode(op) && NextPos(b, size) == size + EntryLen(op) && ParseOp(b, size) == op
    ensures WellFormed(b, pos, size + EntryLen(op))
    ensures Parse(b, pos, size + EntryLen(op)) == Parse(a, pos, size) + [op]
    decreases size - pos
  {
    if pos == size {
      assert WellFormed(b, size + EntryLen(op), size + EntryLen(op));
      assert Parse(b, size + EntryLen(op), size + EntryLen(op)) == [];
    } else {
      SamePrefixSameEntry(a, b, pos, size);
      ParseExtends(a, b, NextPos(a, pos), size, op);
    }
  }

  /** The slot's log decodes to `ops`. */
  ghost predicate Logged(s: Slot, pos: nat, ops: seq<Op>) {
    s.size <= |s.bytes| && WellFormed(s.bytes, pos, s.size) && Parse(s.bytes, pos, s.size) == ops
  }

  /** One append extends the decoded log by exactly that operation. */
  lemma {:induction false} AppendLast(s: Slot, pos: nat, ops: seq<Op>, op: Op)
    requires Encodable(op) && Logged(s, pos, ops)
    requires s.size + EntryLen(op) <= |s.bytes|
    ensures Logged(Appended(s, op), pos, ops + [op])
  {
    AppendKeepsPrefix(s.bytes, s.size, op);
    AppendedEntry(s.bytes, s.size, op);
    LoggedExtends(s, Appended(s, op), pos, ops, op);
  }

  lemma {:induction false} LoggedExtends(s: Slot, t: Slot, pos: nat, ops: seq<Op>, op: Op)
    requires Logged(s, pos, ops) && s.size + EntryLen(op) <= |s.bytes| == |t.bytes|
    requires t.size == s.size + EntryLen(op) && s.bytes[..s.size] == t.bytes[..s.size]
    requires Kind(t.bytes, s.size) == KindCode(op) && NextPos(t.bytes, s.size) == t.size && ParseOp(t.bytes, s.size) == op
    ensures Logged(t, pos, ops + [op])
  {
    ParseExtends(s.bytes, t.bytes, pos, s.size, op);
  }

  predicate AllEncodable(ops: seq<Op>) { forall k :: 0 <= k < |ops| ==> Encodable(ops[k]) }

  lemma {:induction false} AppendedAllLogged(s: Slot, ops: seq<Op>)
    requires s.size + LogLen(ops) <= |s.bytes| && AllEncodable(ops)
    ensures Logged(AppendedAll(s, ops), s.size, ops)
    decreases |ops|
  {
    if ops == [] {
      LoggedNothing(s);
    } else {
      var front, last := ops[..|ops| - 1], ops[|ops| - 1];
      AppendedFront(s, ops);
      AppendedAllLogged(s, front);
      AppendLast(AppendedAll(s, front), s.size, front, last);
      LastOf(ops);
    }
  }

  lemma {:induction false} LastOf(ops: seq<Op>)
    requires ops != []
    ensures ops[..|ops| - 1] + [ops[|ops| - 1]] == ops
  {
  }

  lemma {:induction false} AppendedFront(s: Slot, ops: seq<Op>)
    requires ops != [] && s.size + LogLen(ops) <= |s.bytes| && AllEncodable(ops)
    ensures var front, last := ops[..|ops| - 1], ops[|ops| - 1];
            && LogLen(ops) == LogLen(front) + EntryLen(last) && AllEncodable(front) && Encodable(last)
            && AppendedAll(s, ops) == Appended(AppendedAll(s, front), last)
  {
  }

  lemma {:induction false} LoggedNothing(s: Slot)
    requires s.size <= |s.bytes|
    ensures Logged(s, s.size, [])
  {
  }

  /** Log round trip: whatever bytes the slot held before, after any sequence of appends execute's cursor
      decodes exactly those operations with their payloads and stops at `size`. */
  lemma {:induction false} LogRoundTrip(s: Slot, ops: seq<Op>)
    requires SLOT_HDR + LogLen(ops) <= |s.bytes|
    requires forall k :: 0 <= k < |ops| ==> Encodable(ops[k])
    ensures Logged(AppendedAll(Begun(s), ops), SLOT_HDR, ops)
    ensures AppendedAll(Begun(s), ops).size == SLOT_HDR + LogLen(ops)
  {
    AppendedAllLogged(Begun(s), ops);
  }

  /** Positions execute's cursor stops at. */
  function Stops(bytes: seq<Byte>, pos: nat, size: nat): seq<nat>
    requires size <= |bytes| && WellFormed(bytes, pos, size)
    decreases size - pos
  {
    if pos == size then [] else [pos] + Stops(bytes, NextPos(bytes, pos), size)
  }

  /** Positions the fixed-stride walk of abort and recovery stops at. */
  function Stride(pos: nat, size: nat): seq<nat>
    decreases size - pos
  {
    if pos >= size then [] else [pos] + Stride(pos + ENTRY, size)
  }

  predicate NoPayloads(ops: seq<Op>) {
    forall k :: 0 <= k < |ops| ==> PayloadLen(ops[k]) == 0
  }

  lemma {:induction false} ParsedPayload(bytes: seq<Byte>, pos: nat, size: nat)
    requires pos + ENTRY <= size <= |bytes| && NextPos(bytes, pos) <= size
    ensures NextPos(bytes, pos) == pos + EntryLen(ParseOp(bytes, pos))
  {
  }

  lemma {:induction false} NoPayloadsMore(op: Op, rest: seq<Op>)
    ensures NoPayloads([op] + rest) <==> PayloadLen(op) == 0 && NoPayloads(rest)
  {
    var ops := [op] + rest;
    assert ops[0] == op && forall k :: 0 <= k < |rest| ==> rest[k] == ops[k + 1];
    assert forall k :: 1 <= k < |ops| ==> ops[k] == rest[k - 1];
  }

  /** The first stop after `pos` tells whether the entry there has a payload. */
  lemma {:induction false} StrideStep(bytes: seq<Byte>, pos: nat, next: nat, size: nat)
    requires pos + ENTRY <= next <= size <= |bytes| && WellFormed(bytes, next, size)
    ensures [pos] + Stride(pos + ENTRY, size) == [pos] + Stops(bytes, next, size) <==> Stride(pos + ENTRY, size) == Stops(bytes, next, size)
    ensures next > pos + ENTRY ==> Stride(pos + ENTRY, size) != Stops(bytes, next, size)
  {
    var a, b := Stride(pos + ENTRY, size), Stops(bytes, next, size);
    assert ([pos] + a)[1..] == a && ([pos] + b)[1..] == b;
    if next > pos + ENTRY {
      assert a[0] == pos + ENTRY;
      assert b != [] ==> b[0] == next;
    }
  }

  /** The fixed-stride walk visits the entries execute visits exactly when no entry has a payload. */
  lemma {:induction false} StrideAgreesExactly(bytes: seq<Byte>, pos: nat, size: nat)
    requires size <= |bytes| && WellFormed(bytes, pos, size)
    ensures Stride(pos, size) == Stops(bytes, pos, size) <==> NoPayloads(Parse(bytes, pos, size))
    decreases size - pos
  {
    if pos < size {
      var next, op := NextPos(bytes, pos), ParseOp(bytes, pos);
      ParsedPayload(bytes, pos, size);
      StrideAgreesExactly(bytes, next, size);
      StrideStep(bytes, pos, next, size);
      NoPayloadsMore(op, Parse(bytes, next, size));
    }
  }

  // ---- what the restart walk sees ----

  /** The entry the fixed stride finds at `pos`. An in-place entry's payload is read from behind the first entry of
      the slot, whatever entry it belongs to; an unknown kind is an entry about no block. */
  function Glimpse(bytes: seq<Byte>, pos: nat): Op
    requires pos + ENTRY <= |bytes| && (Kind(bytes, pos) == 2 ==> SLOT_HDR + ENTRY + Id2(bytes, pos) / U32 <= |bytes|)
  {
    var k := Kind(bytes, pos);
    if k == 0 then Write(Id1(bytes, pos))
    else if k == 1 then Update(Id1(bytes, pos), Id2(bytes, pos))
    else if k == 2 then
      InPlace(Id1(bytes, pos), Id2(bytes, pos) % U32, bytes[SLOT_HDR + ENTRY..SLOT_HDR + ENTRY + Id2(bytes, pos) / U32])
    else if k == 3 then Remove(Id1(bytes, pos))
    else Write(0)
  }

  /** An entry with two zero ids ends the walk. */
  predicate AllZero(bytes: seq<Byte>, pos: nat)
    requires pos + ENTRY <= |bytes|
  {
    Id1(bytes, pos) == 0 && Id2(bytes, pos) == 0
  }

  /** The walk stays inside the slot. */
  predicate Readable(bytes: seq<Byte>, pos: nat, size: nat)
    decreases size - pos
  {
    pos >= size ||
    (&& pos + ENTRY <= |bytes|
     && (AllZero(bytes, pos) ||
         (&& (Kind(bytes, pos) == 2 ==> SLOT_HDR + ENTRY + Id2(bytes, pos) / U32 <= |bytes|)
          && Readable(bytes, pos + ENTRY, size))))
  }

  function Seen(bytes: seq<Byte>, pos: nat, size: nat): seq<Op>
    requires Readable(bytes, pos, size)
    decreases size - pos
  {
    if pos >= size || AllZero(bytes, pos) then [] else [Glimpse(bytes, pos)] + Seen(bytes, pos + ENTRY, size)
  }

  /** A log without payloads whose entries name a block is seen as it was written. */
  lemma {:induction false} SeenAsLogged(bytes: seq<Byte>, pos: nat, size: nat)
    requires SLOT_HDR <= pos && size <= |bytes| && WellFormed(bytes, pos, size)
    requires var ops := Parse(bytes, pos, size); NoPayloads(ops) && forall k :: 0 <= k < |ops| ==> FirstId(ops[k]) != 0
    ensures Readable(bytes, pos, size) && Seen(bytes, pos, size) == Parse(bytes, pos, size)
    decreases size - pos
  {
    if pos < size {
      var ops := Parse(bytes, pos, size);
      ParsedPayload(bytes, pos, size);
      assert ops[0] == ParseOp(bytes, pos) && ops[1..] == Parse(bytes, NextPos(bytes, pos), size);
      assert forall k :: 0 <= k < |ops[1..]| ==> ops[1..][k] == ops[k + 1];
      assert PayloadLen(ops[0]) == 0 && FirstId(ops[0]) != 0;
      SeenAsLogged(bytes, pos + ENTRY, size);
      assert Kind(bytes, pos) == 2 ==> bytes[pos + ENTRY..pos + ENTRY] == [];
      assert Glimpse(bytes, pos) == ops[0];
    }
  }

  /** The first entry is seen as it was written, with its own payload. */
  lemma {:induction false} FirstSeen(bytes: seq<Byte>, size: nat)
    requires size <= |bytes| && SLOT_HDR < size && WellFormed(bytes, SLOT_HDR, size) && Readable(bytes, SLOT_HDR, size)
    requires !AllZero(bytes, SLOT_HDR)
    ensures var seen := Seen(bytes, SLOT_HDR, size); seen != [] && seen[0] == Parse(bytes, SLOT_HDR, size)[0]
  {
  }

  /** A small update logged behind another entry: the walk reads as its payload the bytes of the log that begin with
      the second entry, so what is redone does not depend on the payload, and its first byte is the kind of an entry. */
  lemma {:induction false} LaterPayloadMisread(s: Slot, first: Op, op: Op)
    requires PayloadLen(first) == 0 && FirstId(first) != 0 && op.InPlace? && op.id != 0 && op.payload != []
    requires Encodable(first) && Encodable(op) && SLOT_HDR + ENTRY + EntryLen(op) <= |s.bytes|
    ensures var r := Appended(Appended(Begun(s), first), op);
            Readable(r.bytes, SLOT_HDR, r.size) ==>
              var seen := Seen(r.bytes, SLOT_HDR, r.size);
              && |seen| >= 2 && seen[0] == first && seen[1].InPlace? && seen[1].id == op.id && seen[1].offset == op.offset
              && |seen[1].payload| == |op.payload| && seen[1].payload[0] == KindCode(op)
  {
    var m := Appended(Begun(s), first);
    var r, p := Appended(m, op), SLOT_HDR + ENTRY;
    AppendedEntry(s.bytes, SLOT_HDR, first);
    AppendedEntry(m.bytes, p, op);
    AppendKeepsPrefix(m.bytes, p, op);
    SamePrefixSameEntry(m.bytes, r.bytes, SLOT_HDR, p);
    if Readable(r.bytes, SLOT_HDR, r.size) {
      assert Glimpse(r.bytes, SLOT_HDR) == first;
      LowByte(r.bytes, p, 2);
      SeenTwo(r.bytes, r.size);
    }
  }

  lemma {:induction false} SeenTwo(bytes: seq<Byte>, size: nat)
    requires Readable(bytes, SLOT_HDR, size) && SLOT_HDR + ENTRY < size <= |bytes| && !AllZero(bytes, SLOT_HDR) && SLOT_HDR + 2 * ENTRY <= |bytes|
    requires !AllZero(bytes, SLOT_HDR + ENTRY)
    ensures Readable(bytes, SLOT_HDR + ENTRY, size) && (Kind(bytes, SLOT_HDR + ENTRY) == 2 ==> SLOT_HDR + ENTRY + Id2(bytes, SLOT_HDR + ENTRY) / U32 <= |bytes|)
    ensures var seen := Seen(bytes, SLOT_HDR, size);
            |seen| >= 2 && seen[0] == Glimpse(bytes, SLOT_HDR) && seen[1] == Glimpse(bytes, SLOT_HDR + ENTRY)
  {
    var rest := Seen(bytes, SLOT_HDR + ENTRY, size);
    assert rest[0] == Glimpse(bytes, SLOT_HDR + ENTRY);
  }

  lemma {:induction false} LowByte(bytes: seq<Byte>, pos: nat, v: nat)
    requires pos + 4 <= |bytes| && Field(bytes, pos, 4) == v < 256
    ensures bytes[pos] == v
  {
    var w := bytes[pos..pos + 4];
    assert Decode(w) == w[0] + 256 * Decode(w[1..]);
  }

  // ---- what abort sees ----

  /** The block the entry at `pos` makes abort zero and return, 0 for none. */
  function Fresh(bytes: seq<Byte>, pos: nat): nat
    requires pos + ENTRY <= |bytes|
  {
    if Kind(bytes, pos) == 0 then Id1(bytes, pos) else if Kind(bytes, pos) == 1 then Id2(bytes, pos) else 0
  }

  predicate Strideable(bytes: seq<Byte>, pos: nat, size: nat)
    decreases size - pos
  {
    pos >= size || (pos + ENTRY <= |bytes| && Strideable(bytes, pos + ENTRY, size))
  }

  /** All of them, at the fixed stride; nothing stops this walk before the end of the log. */
  function FreshIds(bytes: seq<Byte>, pos: nat, size: nat): seq<nat>
    requires Strideable(bytes, pos, size)
    decreases size - pos
  {
    if pos >= size then [] else [Fresh(bytes, pos)] + FreshIds(bytes, pos + ENTRY, size)
  }

  // ---- payloads that spell entries ----

  /** The 24 bytes of an entry. */
  function Spelled(op: Op): (r: seq<Byte>)
    requires PayloadLen(op) == 0
    ensures |r| == ENTRY
  {
    Append(Zeros(ENTRY), 0, op)
  }

  lemma {:induction false} SameWords(bytes: seq<Byte>, pos: nat, word: seq<Byte>)
    requires pos + ENTRY <= |bytes| && |word| == ENTRY && bytes[pos..pos + ENTRY] == word
    ensures Kind(bytes, pos) == Kind(word, 0) && Id1(bytes, pos) == Id1(word, 0) && Id2(bytes, pos) == Id2(word, 0)
  {
    Shifted(bytes, pos, word, 0, 4);
    Shifted(bytes, pos, word, 8, 16);
    Shifted(bytes, pos, word, 16, 24);
  }

  lemma {:induction false} Shifted(bytes: seq<Byte>, pos: nat, word: seq<Byte>, i: nat, j: nat)
    requires pos + ENTRY <= |bytes| && |word| == ENTRY && bytes[pos..pos + ENTRY] == word && i <= j <= ENTRY
    ensures bytes[pos + i..pos + j] == word[i..j]
  {
    var a, b := bytes[pos + i..pos + j], word[i..j];
    assert |a| == |b|;
    forall t | 0 <= t < |a| ensures a[t] == b[t] {
      assert a[t] == bytes[pos + i + t] == bytes[pos..pos + ENTRY][i + t];
    }
  }

  /** Where the payload of the first entry lies. */
  lemma {:induction false} PayloadPlaced(s: Slot, op: Op)
    requires op.InPlace? && Encodable(op) && SLOT_HDR + EntryLen(op) <= |s.bytes|
    ensures var r := Appended(Begun(s), op);
            && Logged(r, SLOT_HDR, [op]) && r.size == SLOT_HDR + EntryLen(op)
            && r.bytes[SLOT_HDR + ENTRY..r.size] == op.payload
  {
    LogRoundTrip(s, [op]);
    assert LogLen([op][..0]) == 0;
    var r := Appended(Begun(s), op);
    assert AppendedAll(Begun(s), [op][..0]) == Begun(s);
    assert AppendedAll(Begun(s), [op]) == r;
    AppendedEntry(s.bytes, SLOT_HDR, op);
  }

  /** A small update whose payload spells an entry: execute decodes the update alone, the restart walk sees the update
      and the entry, and abort sees the entry. */
  lemma {:induction false} PayloadSpells(s: Slot, x: nat, offset: nat, word: Op)
    requires 0 < x < U64 && offset < U32 && Encodable(word) && PayloadLen(word) == 0 && FirstId(word) != 0
    requires !word.InPlace? && SLOT_HDR + 2 * ENTRY <= |s.bytes|
    ensures var op := InPlace(x, offset, Spelled(word));
            var r := Appended(Begun(s), op);
            && Logged(r, SLOT_HDR, [op])
            && Readable(r.bytes, SLOT_HDR, r.size) && Seen(r.bytes, SLOT_HDR, r.size) == [op, word]
            && Strideable(r.bytes, SLOT_HDR, r.size)
            && FreshIds(r.bytes, SLOT_HDR, r.size) == [0, if word.Write? then word.id else if word.Update? then word.next else 0]
  {
    var op := InPlace(x, offset, Spelled(word));
    var r := Appended(Begun(s), op);
    var p := SLOT_HDR + ENTRY;
    PayloadPlaced(s, op);
    AppendedEntry(s.bytes, SLOT_HDR, op);
    AppendedEntry(Zeros(ENTRY), 0, word);
    SameWords(r.bytes, p, Spelled(word));
    assert Glimpse(r.bytes, p) == word && Glimpse(r.bytes, SLOT_HDR) == op;
    TwoEntries(r.bytes, r.size);
  }

  /** What the two walks make of a slot of two entries' length. */
  lemma {:induction false} TwoEntries(bytes: seq<Byte>, size: nat)
    requires size == SLOT_HDR + 2 * ENTRY <= |bytes| && !AllZero(bytes, SLOT_HDR) && !AllZero(bytes, SLOT_HDR + ENTRY)
    requires Kind(bytes, SLOT_HDR) == 2 ==> SLOT_HDR + ENTRY + Id2(bytes, SLOT_HDR) / U32 <= |bytes|
    requires Kind(bytes, SLOT_HDR + ENTRY) != 2
    ensures Readable(bytes, SLOT_HDR, size)
    ensures Seen(bytes, SLOT_HDR, size) == [Glimpse(bytes, SLOT_HDR), Glimpse(bytes, SLOT_HDR + ENTRY)]
    ensures Strideable(bytes, SLOT_HDR, size)
    ensures FreshIds(bytes, SLOT_HDR, size) == [Fresh(bytes, SLOT_HDR), Fresh(bytes, SLOT_HDR + ENTRY)]
  {
    var p := SLOT_HDR + ENTRY;
    assert Readable(bytes, p + ENTRY, size) && Readable(bytes, p, size);
    assert Seen(bytes, p + ENTRY, size) == [] && Seen(bytes, p, size) == [Glimpse(bytes, p)];
    assert Strideable(bytes, p + ENTRY, size) && Strideable(bytes, p, size);
    assert FreshIds(bytes, p + ENTRY, size) == [] && FreshIds(bytes, p, size) == [Fresh(bytes, p)];
  }
}
