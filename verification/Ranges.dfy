/** The interval free list as a value: a sequence of ranges, and what `caslist_push` and
    `caslist_pop` do to it. The heap version is in CasLists. */
module Ranges {
  import opened Words

  datatype Range = Range(lo: nat, hi: nat)

  /** Sorted, nonempty ranges of nonzero ids, with at least one missing id between neighbours. */
  ghost predicate Canonical(rs: seq<Range>) {
    rs == [] ||
    (&& 1 <= rs[0].lo <= rs[0].hi
     && (|rs| > 1 ==> rs[0].hi + 1 < rs[1].lo)
     && Canonical(rs[1..]))
  }

  predicate Within(r: Range, v: nat) { r.lo <= v <= r.hi }

  ghost function Span(r: Range): set<nat> {
    set v | r.lo <= v <= r.hi && Within(r, v)
  }

  /** The finite set of ids the list stands for. */
  ghost function Ids(rs: seq<Range>): set<nat> {
    if rs == [] then {} else Span(rs[0]) + Ids(rs[1..])
  }

  /** The combined length of all ranges. */
  function Total(rs: seq<Range>): nat {
    if rs == [] then 0
    else (if rs[0].lo <= rs[0].hi then rs[0].hi - rs[0].lo + 1 else 0) + Total(rs[1..])
  }

  function Push(rs: seq<Range>, v: nat): seq<Range> {
    if v == 0 then rs
    else if rs == [] then [Range(v, v)]
    else if rs[0].lo <= v <= rs[0].hi then rs
    else if v == rs[0].lo - 1 then [Range(v, rs[0].hi)] + rs[1..]
    else if v == rs[0].hi + 1 then
      if |rs| > 1 && v + 1 == rs[1].lo then [Range(rs[0].lo, rs[1].hi)] + rs[2..]
      else [Range(rs[0].lo, v)] + rs[1..]
    else if v < rs[0].lo - 1 then [Range(v, v)] + rs
    else [rs[0]] + Push(rs[1..], v)
  }

  /** Takes the lowest id; `None` is the source's failure return. */
  function Pop(rs: seq<Range>): (Option<nat>, seq<Range>) {
    if rs == [] then (None, [])
    else if rs[0].lo + 1 > rs[0].hi then (Some(rs[0].lo), rs[1..])
    else (Some(rs[0].lo), [Range(rs[0].lo + 1, rs[0].hi)] + rs[1..])
  }

  /** The id a pop would return, 0 if it would fail. */
  function Lowest(rs: seq<Range>): nat { if rs == [] then 0 else rs[0].lo }

  function PushAll(rs: seq<Range>, vs: seq<nat>): seq<Range>
    decreases |vs|
  {
    if vs == [] then rs else PushAll(Push(rs, vs[0]), vs[1..])
  }

  /** Every id of a canonical list is at least the first range's lower end. */
  lemma {:induction false} IdsAbove(rs: seq<Range>, v: nat)
    requires Canonical(rs) && rs != [] && v in Ids(rs)
    ensures rs[0].lo <= v
  {
    if v !in Span(rs[0]) {
      IdsAbove(rs[1..], v);
    }
  }

  lemma {:induction false} BelowFirst(rs: seq<Range>, v: nat)
    requires Canonical(rs) && rs != [] && 0 < v < rs[0].lo - 1
    ensures v !in Ids(rs) && Push(rs, v) == [Range(v, v)] + rs
  {
    if v in Ids(rs) { IdsAbove(rs, v); }
  }

  /** Push is set insertion, and it keeps the list canonical. */
  lemma {:induction false} PushInserts(rs: seq<Range>, v: nat)
    requires Canonical(rs)
    ensures Canonical(Push(rs, v))
    ensures Ids(Push(rs, v)) == if v == 0 then Ids(rs) else Ids(rs) + {v}
    ensures v != 0 && rs != [] ==> Push(rs, v)[0].lo == Min(v, rs[0].lo)
  {
    if v == 0 || rs == [] || rs[0].lo <= v <= rs[0].hi {
    } else if v == rs[0].lo - 1 {
      assert Span(Range(v, rs[0].hi)) == Span(rs[0]) + {v};
    } else if v == rs[0].hi + 1 {
      if |rs| > 1 && v + 1 == rs[1].lo {
        assert Span(Range(rs[0].lo, rs[1].hi)) == Span(rs[0]) + {v} + Span(rs[1]);
        assert rs[1..][1..] == rs[2..];
        assert Ids(rs[1..]) == Span(rs[1]) + Ids(rs[2..]);
        assert Push(rs, v)[1..] == rs[2..];
      } else {
        assert Span(Range(rs[0].lo, v)) == Span(rs[0]) + {v};
      }
    } else if v < rs[0].lo - 1 {
      assert Push(rs, v)[1..] == rs;
    } else {
      PushInserts(rs[1..], v);
      assert Push(rs, v)[1..] == Push(rs[1..], v);
    }
  }

  /** Pop fails exactly on the empty list, and otherwise removes and returns the minimum. */
  lemma {:induction false} PopTakesMinimum(rs: seq<Range>)
    requires Canonical(rs)
    ensures Canonical(Pop(rs).1)
    ensures Pop(rs).0.None? <==> Ids(rs) == {}
    ensures match Pop(rs).0
            case None => Ids(Pop(rs).1) == {}
            case Some(v) => v in Ids(rs) && v != 0 && (forall w :: w in Ids(rs) ==> v <= w)
                            && Ids(Pop(rs).1) == Ids(rs) - {v}
  {
    if rs != [] {
      var v := rs[0].lo;
      assert v in Span(rs[0]);
      forall w | w in Ids(rs) ensures v <= w { IdsAbove(rs, w); }
      forall w | w in Ids(rs[1..]) ensures rs[0].hi < w { IdsAbove(rs[1..], w); }
      if v + 1 <= rs[0].hi {
        assert Span(Range(v + 1, rs[0].hi)) == Span(rs[0]) - {v};
        assert Pop(rs).1[1..] == rs[1..];
      } else {
        assert Span(rs[0]) == {v};
      }
    }
  }

  lemma {:induction false} SpanSize(lo: nat, hi: nat)
    requires lo <= hi + 1
    ensures |Span(Range(lo, hi))| == hi - lo + 1
    decreases hi + 1 - lo
  {
    if lo <= hi {
      SpanSize(lo + 1, hi);
      assert Span(Range(lo, hi)) == {lo} + Span(Range(lo + 1, hi));
    } else {
      assert Span(Range(lo, hi)) == {};
    }
  }

  /** The size counter's meaning: combined range length is the number of ids. */
  lemma {:induction false} TotalCounts(rs: seq<Range>)
    requires Canonical(rs)
    ensures Total(rs) == |Ids(rs)|
  {
    if rs != [] {
      TotalCounts(rs[1..]);
      SpanSize(rs[0].lo, rs[0].hi);
      forall w | w in Ids(rs[1..]) ensures w !in Span(rs[0]) { IdsAbove(rs[1..], w); }
      assert Span(rs[0]) !! Ids(rs[1..]);
    }
  }

  /** The end of the first range is recognisable from the set alone. */
  lemma {:induction false} GapAfterFirst(rs: seq<Range>)
    requires Canonical(rs) && rs != []
    ensures rs[0].hi + 1 !in Ids(rs)
    ensures forall w :: w in Ids(rs[1..]) ==> rs[0].hi + 1 < w
  {
    forall w | w in Ids(rs[1..]) ensures rs[0].hi + 1 < w { IdsAbove(rs[1..], w); }
  }

  lemma {:induction false} FirstRangeFromSet(a: seq<Range>, b: seq<Range>)
    requires Canonical(a) && Canonical(b) && a != [] && b != []
    requires Ids(a) == Ids(b)
    ensures a[0].lo == b[0].lo && a[0].hi <= b[0].hi
  {
    assert a[0].lo in Span(a[0]) && b[0].lo in Span(b[0]);
    IdsAbove(a, b[0].lo);
    IdsAbove(b, a[0].lo);
    GapAfterFirst(b);
    assert !Within(a[0], b[0].hi + 1) by { assert b[0].hi + 1 !in Span(a[0]); }
    assert Within(a[0], b[0].lo) && Within(b[0], b[0].hi);
  }

  lemma {:induction false} NonemptyIds(rs: seq<Range>)
    requires Canonical(rs)
    ensures rs == [] <==> Ids(rs) == {}
  {
    assert rs != [] ==> rs[0].lo in Span(rs[0]);
  }

  /** Canonical form: the set determines the concrete range sequence. */
  lemma {:induction false} CanonicalUnique(a: seq<Range>, b: seq<Range>)
    requires Canonical(a) && Canonical(b) && Ids(a) == Ids(b)
    ensures a == b
  {
    NonemptyIds(a);
    NonemptyIds(b);
    if a != [] {
      FirstRangeFromSet(a, b);
      FirstRangeFromSet(b, a);
      GapAfterFirst(a);
      GapAfterFirst(b);
      assert Ids(a[1..]) == Ids(a) - Span(a[0]);
      assert Ids(b[1..]) == Ids(b) - Span(b[0]);
      CanonicalUnique(a[1..], b[1..]);
    }
  }

  ghost function Elements(vs: seq<nat>): set<nat> {
    set v | v in vs
  }

  lemma {:induction false} PushAllInserts(rs: seq<Range>, vs: seq<nat>)
    requires Canonical(rs)
    ensures Canonical(PushAll(rs, vs))
    ensures Ids(PushAll(rs, vs)) == Ids(rs) + (Elements(vs) - {0})
    decreases |vs|
  {
    if vs != [] {
      PushInserts(rs, vs[0]);
      PushAllInserts(Push(rs, vs[0]), vs[1..]);
      assert Elements(vs) == {vs[0]} + Elements(vs[1..]);
    }
  }

  /** Any two orders of the same pushes build the same concrete list. */
  lemma {:induction false} PushOrderIrrelevant(rs: seq<Range>, vs: seq<nat>, ws: seq<nat>)
    requires Canonical(rs) && Elements(vs) == Elements(ws)
    ensures PushAll(rs, vs) == PushAll(rs, ws)
  {
    PushAllInserts(rs, vs);
    PushAllInserts(rs, ws);
    CanonicalUnique(PushAll(rs, vs), PushAll(rs, ws));
  }

  /** Giving back what was just popped restores the concrete list. */
  lemma {:induction false} PushUndoesPop(rs: seq<Range>)
    requires Canonical(rs) && rs != []
    ensures Push(Pop(rs).1, Pop(rs).0.value) == rs
  {
    PopTakesMinimum(rs);
    PushInserts(Pop(rs).1, Pop(rs).0.value);
    CanonicalUnique(Push(Pop(rs).1, Pop(rs).0.value), rs);
  }

  // ---- 64-bit arithmetic ----

  /** The largest id for which `begin++` in pop cannot wrap. */
  const MAX_ID: nat := U64 - 2

  ghost predicate Bounded(rs: seq<Range>) {
    forall i :: 0 <= i < |rs| ==> rs[i].hi <= MAX_ID
  }

  function Inc64(x: Word64): Word64 { if x == U64 - 1 then 0 else x + 1 }

  function Dec64(x: Word64): Word64 { if x == 0 then U64 - 1 else x - 1 }

  /** What a `ssize_t` counter holds when the exact count is n. */
  function Signed64(n: Word64): int { if n < 0x8000_0000_0000_0000 then n else n - U64 }

  function SignedInc(c: int): int { if c == 0x7FFF_FFFF_FFFF_FFFF then c + 1 - U64 else c + 1 }

  function SignedDec(c: int): int { if c == -0x8000_0000_0000_0000 then c - 1 + U64 else c - 1 }

  /** Pop as the 64-bit machine performs it on a nonempty list. */
  function MachinePop(rs: seq<Range>): (Option<nat>, seq<Range>)
    requires rs != [] && rs[0].lo < U64
  {
    var begin := Inc64(rs[0].lo);
    if begin > rs[0].hi then (Some(rs[0].lo), rs[1..])
    else (Some(rs[0].lo), [Range(begin, rs[0].hi)] + rs[1..])
  }

  /** The machine's pop is the unbounded one except when the first range is the single id 2^64-1. */
  lemma {:induction false} MachinePopExact(rs: seq<Range>)
    requires Canonical(rs) && rs != [] && rs[0].hi < U64
    ensures MachinePop(rs) == Pop(rs) <==> rs[0].lo <= MAX_ID
  {
    if rs[0].lo > MAX_ID {
      assert MachinePop(rs).1[0] == Range(0, U64 - 1);
      assert rs[1..] != [] ==> rs[1..][0] == rs[1];
    }
  }

  lemma {:induction false} TotalBounded(rs: seq<Range>)
    requires Canonical(rs) && Bounded(rs)
    ensures Total(rs) <= MAX_ID
    ensures rs != [] ==> Total(rs) + rs[0].lo <= MAX_ID + 1
  {
    if rs != [] {
      assert forall i :: 0 <= i < |rs[1..]| ==> rs[1..][i] == rs[i + 1];
      TotalBounded(rs[1..]);
    }
  }

  lemma {:induction false} PushBounded(rs: seq<Range>, v: nat)
    requires Bounded(rs) && v <= MAX_ID
    ensures Bounded(Push(rs, v))
  {
    if v != 0 && rs != [] && v > rs[0].hi + 1 && v >= rs[0].lo {
      PushBounded(rs[1..], v);
    }
  }

  lemma {:induction false} PopBounded(rs: seq<Range>)
    requires Bounded(rs)
    ensures Bounded(Pop(rs).1)
  {
    assert forall i :: 0 <= i < |rs| - 1 ==> rs[1..][i] == rs[i + 1];
  }

  /** The counter step of pop: one id fewer. */
  lemma {:induction false} PopTotal(rs: seq<Range>)
    requires Canonical(rs) && rs != []
    ensures Total(Pop(rs).1) == Total(rs) - 1
  {
    PopTakesMinimum(rs);
    TotalCounts(rs);
    TotalCounts(Pop(rs).1);
    NonemptyIds(rs);
  }

  /** The counter step of push: one more id exactly when the value is new. */
  lemma {:induction false} PushTotal(rs: seq<Range>, v: nat)
    requires Canonical(rs) && v != 0
    ensures Total(Push(rs, v)) == Total(rs) + if v in Ids(rs) then 0 else 1
  {
    PushInserts(rs, v);
    var after := Push(rs, v);
    TotalCounts(rs);
    TotalCounts(after);
    if v in Ids(rs) {
      assert Ids(rs) + {v} == Ids(rs);
    }
  }

  ghost predicate Sound(rs: seq<Range>) {
    Canonical(rs) && Bounded(rs) && Total(rs) < U64
  }

  /** No wraparound: pop on ids up to MAX_ID keeps every bound and steps the signed counter exactly. */
  lemma {:induction false} PopSound(rs: seq<Range>)
    requires Sound(rs) && rs != []
    ensures Sound(Pop(rs).1)
    ensures Signed64(Total(Pop(rs).1)) == SignedDec(Signed64(Total(rs)))
  {
    PopTakesMinimum(rs);
    PopBounded(rs);
    PopTotal(rs);
  }

  /** No wraparound: push of an id up to MAX_ID keeps every bound and steps the signed counter exactly
      when the id is new. */
  lemma {:induction false} PushSound(rs: seq<Range>, v: nat)
    requires Sound(rs) && 0 < v <= MAX_ID
    ensures Sound(Push(rs, v))
    ensures Signed64(Total(Push(rs, v))) ==
            if v in Ids(rs) then Signed64(Total(rs)) else SignedInc(Signed64(Total(rs)))
  {
    PushInserts(rs, v);
    PushBounded(rs, v);
    PushTotal(rs, v);
    TotalBounded(Push(rs, v));
  }

  // ---- whole runs ----

  datatype ListCall = PushCall(v: nat) | PopCall

  /** The list after a run of calls, and what the pops handed out (0 for a failed pop). */
  function Run(rs: seq<Range>, calls: seq<ListCall>): (seq<Range>, seq<nat>)
    decreases |calls|
  {
    if calls == [] then (rs, [])
    else match calls[0]
      case PushCall(v) => Run(Push(rs, v), calls[1..])
      case PopCall =>
        var (out, rest) := Pop(rs);
        var (final, outs) := Run(rest, calls[1..]);
        (final, [if out.None? then 0 else out.value] + outs)
  }

  /** The same run over a plain set of nonzero ids: a pop must return the minimum, or 0 when empty. */
  ghost predicate SetRun(s: set<nat>, calls: seq<ListCall>, outs: seq<nat>, final: set<nat>)
    decreases |calls|
  {
    if calls == [] then outs == [] && final == s
    else match calls[0]
      case PushCall(v) => SetRun(if v == 0 then s else s + {v}, calls[1..], outs, final)
      case PopCall =>
        && outs != []
        && (if s == {} then outs[0] == 0 else outs[0] in s && forall w :: w in s ==> outs[0] <= w)
        && SetRun(s - {outs[0]}, calls[1..], outs[1..], final)
  }

  /** Over every sequence of pushes and pops the list behaves as a finite set, never loses its
      canonical form, and never wraps while ids stay at most MAX_ID. */
  lemma {:induction false} RunRefinesSet(rs: seq<Range>, calls: seq<ListCall>)
    requires Canonical(rs)
    ensures Canonical(Run(rs, calls).0)
    ensures SetRun(Ids(rs), calls, Run(rs, calls).1, Ids(Run(rs, calls).0))
    ensures Sound(rs) && (forall c :: c in calls && c.PushCall? ==> c.v <= MAX_ID) ==> Sound(Run(rs, calls).0)
    decreases |calls|
  {
    if calls != [] {
      match calls[0]
      case PushCall(v) =>
        PushInserts(rs, v);
        if Sound(rs) && 0 < v <= MAX_ID { PushSound(rs, v); }
        RunRefinesSet(Push(rs, v), calls[1..]);
      case PopCall =>
        PopTakesMinimum(rs);
        if Sound(rs) && rs != [] { PopSound(rs); }
        RunRefinesSet(Pop(rs).1, calls[1..]);
        var out := Run(rs, calls).1;
        assert out[1..] == Run(Pop(rs).1, calls[1..]).1;
        assert Ids(rs) - {out[0]} == Ids(Pop(rs).1);
    }
  }
}
