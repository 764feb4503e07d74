/** The interval list as the source keeps it: a head record with the first range inline and a
    chain of heap links, updated, spliced and unlinked in place with 64-bit arithmetic.
    Every method is proved against the value-level Push and Pop of Ranges. */
module CasLists {
  import opened Words
  import opened Ranges

  class Link {
    var begin: Word64
    var end: Word64
    var next: Link?

    constructor (begin: Word64, end: Word64, next: Link?)
      ensures this.begin == begin && this.end == end && this.next == next
    {
      this.begin, this.end, this.next := begin, end, next;
    }
  }

  ghost predicate Linked(first: Link?, c: seq<Link>)
    reads c
  {
    if c == [] then first == null
    else first == c[0] && c[0] !in c[1..] && Linked(c[0].next, c[1..])
  }

  ghost function RangesOf(c: seq<Link>): (rs: seq<Range>)
    reads c
    ensures |rs| == |c|
  {
    if c == [] then [] else [Range(c[0].begin, c[0].end)] + RangesOf(c[1..])
  }

  /** Grows a link's range up by one and unlinks the next range if they now touch. */
  method ExtendUp(link: Link, ghost c: seq<Link>) returns (ghost d: seq<Link>)
    requires Linked(link, c)
    requires Canonical(RangesOf(c)) && Bounded(RangesOf(c))
    modifies link
    ensures Linked(link, d) && forall x :: x in d ==> x in c
    ensures RangesOf(d) == Push(old(RangesOf(c)), old(link.end) + 1)
  {
    d := c;
    ghost var rs := RangesOf(c);
    assert rs[0] == Range(link.begin, link.end) && rs[1..] == RangesOf(c[1..]);
    link.end := Inc64(link.end);
    assert RangesOf(c[1..]) == rs[1..];
    if link.next != null {
      assert c[1..][0] == c[1] && rs[1..][0] == rs[1] == Range(c[1].begin, c[1].end);
      assert Canonical(rs[1..]) && rs[1].hi <= MAX_ID;
      if Inc64(link.end) == link.next.begin {
        var gone := link.next;
        link.end := gone.end;
        link.next := gone.next;
        d := [link] + c[2..];
        assert c[1..][1..] == c[2..] && rs[1..][1..] == rs[2..];
        assert d[1..] == c[2..];
      }
    }
  }

  /** Links a new range behind `link`: it touches neither this range nor the next one, if there is one. */
  method AddLink(link: Link, v: Word64, ghost c: seq<Link>) returns (ghost d: seq<Link>)
    requires Linked(link, c) && Canonical(RangesOf(c)) && v != 0 && link.end + 1 < v
    requires link.next != null ==> v + 1 < link.next.begin
    modifies link
    ensures Linked(link, d) && fresh(set x | x in d && x !in c)
    ensures RangesOf(d) == Push(old(RangesOf(c)), v)
  {
    ghost var rs := RangesOf(c);
    assert rs[0] == Range(link.begin, link.end) && rs[1..] == RangesOf(c[1..]);
    if link.next != null { assert c[1..][0] == link.next && rs[1..][0] == rs[1] == Range(link.next.begin, link.next.end); }
    var added := new Link(v, v, link.next);
    link.next := added;
    d := [link, added] + c[1..];
    assert d[1..] == [added] + c[1..] && d[1..][1..] == c[1..];
    assert RangesOf(c[1..]) == rs[1..] && RangesOf([added] + c[1..]) == [Range(v, v)] + rs[1..];
    assert Push(rs[1..], v) == [Range(v, v)] + rs[1..];
  }

  /** The recursive put: called only for a value not below `link.begin - 1`. */
  method Put(link: Link, v: Word64, ghost c: seq<Link>) returns (added: bool, ghost d: seq<Link>)
    requires Linked(link, c)
    requires Canonical(RangesOf(c)) && Bounded(RangesOf(c))
    requires 0 < v <= MAX_ID && link.begin - 1 <= v
    modifies c
    ensures Linked(link, d) && fresh(set x | x in d && x !in c)
    ensures RangesOf(d) == Push(old(RangesOf(c)), v)
    ensures added <==> v !in old(Ids(RangesOf(c)))
    decreases |c|
  {
    d := c;
    ghost var rs := RangesOf(c);
    assert rs[0] == Range(link.begin, link.end) && rs[1..] == RangesOf(c[1..]);
    GapAfterFirst(rs);
    assert v in Ids(rs) <==> Within(rs[0], v) || v in Ids(rs[1..]);
    if v >= link.begin && v <= link.end {
      return false, c;
    }
    if v == Dec64(link.begin) {
      assert v !in Ids(rs);
      link.begin := Dec64(link.begin);
      assert RangesOf(c[1..]) == rs[1..];
      return true, c;
    }
    if v == Inc64(link.end) {
      d := ExtendUp(link, c);
      return true, d;
    }
    if link.next == null {
      d := AddLink(link, v, c);
      return true, d;
    }
    assert c[1..][0] == c[1] && rs[1..][0] == rs[1] == Range(c[1].begin, c[1].end);
    if v < Dec64(link.next.begin) {
      assert v !in Ids(rs) by {
        if v in Ids(rs[1..]) { IdsAbove(rs[1..], v); }
      }
      d := AddLink(link, v, c);
      return true, d;
    }
    assert Bounded(rs[1..]);
    ghost var e;
    added, e := Put(link.next, v, c[1..]);
    d := [link] + e;
    assert d[1..] == e;
  }

  class CasList {
    var size: int
    var begin: Word64
    var end: Word64
    var next: Link?
    ghost var chain: seq<Link>

    ghost function Value(): (rs: seq<Range>)
      reads this`begin, this`end, this`chain, chain
    {
      if begin == 0 && end == 0 then [] else [Range(begin, end)] + RangesOf(chain)
    }

    ghost predicate Valid()
      reads this, chain
    {
      && Linked(next, chain)
      && (begin == 0 && end == 0 ==> chain == [])
      && Sound(Value()) && size == Signed64(Total(Value()))
    }

    /** `caslist_new` for the arguments it accepts; `New` models the NULL return. */
    constructor (begin: Word64, end: Word64)
      requires begin <= end <= MAX_ID && (begin == 0 ==> end == 0)
      ensures Valid() && fresh(chain)
      ensures Value() == if begin == 0 then [] else [Range(begin, end)]
    {
      this.begin, this.end, this.next, chain := begin, end, null, [];
      size := if begin == 0 && end == 0 then 0 else Signed64(end - begin + 1);
      new;
      assert Value() != [] ==> Value()[1..] == [];
    }

    method PopMin() returns (status: nat, v: Word64)
      requires Valid()
      modifies this, chain
      ensures Valid() && fresh(set x | x in chain && x !in old(chain))
      ensures Value() == Pop(old(Value())).1
      ensures status == (if old(Value()) == [] then 1 else 0)
      ensures v == if old(Value()) == [] then 0 else Pop(old(Value())).0.value
    {
      if begin == 0 && end == 0 {
        return 1, 0;
      }
      PopSound(Value());
      v := TakeFirst();
      size := SignedDec(size);
      status := 0;
    }

    /** Advances the inline range, loading the next link into it when it is used up. */
    method TakeFirst() returns (v: Word64)
      requires Linked(next, chain) && begin != 0
      requires Canonical(Value()) && Bounded(Value())
      modifies this`begin, this`end, this`next, this`chain
      ensures Linked(next, chain) && (begin == 0 && end == 0 ==> chain == [])
      ensures (forall x :: x in chain ==> x in old(chain))
      ensures Value() == Pop(old(Value())).1 && v == Pop(old(Value())).0.value
    {
      ghost var rs := Value();
      assert rs[1..] == RangesOf(chain);
      assert rs[0].hi <= MAX_ID;
      v := begin;
      begin := Inc64(begin);
      if begin > end {
        if next != null {
          var link := next;
          assert rs[1..][0] == Range(link.begin, link.end);
          begin, end, next := link.begin, link.end, link.next;
          chain := chain[1..];
          assert Value() == rs[1..];
        } else {
          begin, end := 0, 0;
        }
      }
    }

    method PushId(v: Word64)
      requires Valid() && v <= MAX_ID
      modifies this, chain
      ensures Valid() && fresh(set x | x in chain && x !in old(chain))
      ensures Value() == Push(old(Value()), v)
    {
      if v == 0 {
        return;
      }
      PushSound(Value(), v);
      var grown := Insert(v);
      if grown {
        size := SignedInc(size);
      }
    }

    /** The branches of `caslist_push`; `grown` tells where the source increments `size`. */
    method Insert(v: Word64) returns (grown: bool)
      requires Valid() && 0 < v <= MAX_ID
      modifies this`begin, this`end, this`next, this`chain, chain
      ensures Linked(next, chain) && fresh(set x | x in chain && x !in old(chain))
      ensures begin == 0 && end == 0 ==> chain == []
      ensures Value() == Push(old(Value()), v)
      ensures grown <==> v !in old(Ids(Value()))
    {
      if begin <= v && end >= v {
        return false;
      }
      if begin == 0 && end == 0 {
        begin, end := v, v;
        return true;
      }
      ghost var rs := Value();
      assert rs[0] == Range(begin, end) && rs[1..] == RangesOf(chain);
      GapAfterFirst(rs);
      assert v in Ids(rs) <==> Within(rs[0], v) || v in Ids(rs[1..]);
      if v == Dec64(begin) {
        begin := Dec64(begin);
        return true;
      }
      if v == Inc64(end) {
        end := Inc64(end);
        MergeNext(rs);
        return true;
      }
      grown := InsertApart(v, rs);
    }

    /** The value touches neither end of the inline range. */
    method InsertApart(v: Word64, ghost rs: seq<Range>) returns (grown: bool)
      requires rs != [] && Canonical(rs) && Bounded(rs) && v <= MAX_ID && v != 0
      requires Linked(next, chain) && RangesOf(chain) == rs[1..] && begin == rs[0].lo && end == rs[0].hi
      requires v < rs[0].lo - 1 || v > rs[0].hi + 1
      modifies this`begin, this`end, this`next, this`chain, chain
      ensures Linked(next, chain) && fresh(set x | x in chain && x !in old(chain))
      ensures begin != 0 && Value() == Push(rs, v)
      ensures grown <==> v !in Ids(rs)
    {
      if v < Dec64(begin) {
        BelowFirst(rs, v);
        assert Value() == rs;
        InsertBefore(v);
        return true;
      }
      grown := InsertBeyond(v, rs);
    }

    /** Moves the inline range into a fresh link and puts [v, v] in front of it. */
    method InsertBefore(v: Word64)
      requires Linked(next, chain) && (begin != 0 || end != 0)
      modifies this`begin, this`end, this`next, this`chain
      ensures Linked(next, chain) && fresh(set x | x in chain && x !in old(chain))
      ensures begin == end == v && RangesOf(chain) == old(Value())
    {
      var moved := new Link(begin, end, next);
      chain := [moved] + chain;
      assert chain[1..] == old(chain);
      next, begin, end := moved, v, v;
    }

    /** After the inline range grew up by one, joins it with the next range if they now touch. */
    method MergeNext(ghost rs: seq<Range>)
      requires rs != [] && Canonical(rs) && Bounded(rs)
      requires Linked(next, chain) && RangesOf(chain) == rs[1..]
      requires begin == rs[0].lo && end == rs[0].hi + 1
      modifies this`end, this`next, this`chain
      ensures Linked(next, chain) && forall x :: x in chain ==> x in old(chain)
      ensures Value() == Push(rs, rs[0].hi + 1)
    {
      if next != null {
        assert rs[1..][0] == rs[1] == Range(next.begin, next.end);
        assert Canonical(rs[1..]) && rs[1].hi <= MAX_ID;
        if Inc64(end) == next.begin {
          var gone := next;
          end := gone.end;
          next := gone.next;
          chain := chain[1..];
          assert rs[1..][1..] == rs[2..];
        }
      }
    }

    /** The value lies above the inline range and does not touch it. */
    method InsertBeyond(v: Word64, ghost rs: seq<Range>) returns (grown: bool)
      requires rs != [] && Canonical(rs) && Bounded(rs) && v <= MAX_ID
      requires Linked(next, chain) && RangesOf(chain) == rs[1..]
      requires begin == rs[0].lo && end == rs[0].hi && v > rs[0].hi + 1
      modifies this`next, this`chain, chain
      ensures Linked(next, chain) && fresh(set x | x in chain && x !in old(chain))
      ensures Value() == Push(rs, v)
      ensures grown <==> v !in Ids(rs)
    {
      assert v in Ids(rs) <==> v in Ids(rs[1..]);
      assert Bounded(rs[1..]);
      if next == null {
        var last := new Link(v, v, null);
        next, chain := last, [last];
        assert chain[1..] == [] && RangesOf(chain) == [Range(v, v)];
        return true;
      }
      assert rs[1..][0] == Range(next.begin, next.end);
      if v < Dec64(next.begin) {
        assert v !in Ids(rs[1..]) by {
          if v in Ids(rs[1..]) { IdsAbove(rs[1..], v); }
        }
        var mid := new Link(v, v, next);
        chain := [mid] + chain;
        next := mid;
        assert chain[1..] == old(chain);
        assert RangesOf(chain) == [Range(v, v)] + rs[1..];
        return true;
      }
      ghost var d;
      grown, d := Put(next, v, chain);
      chain := d;
    }

    /** The counter is the number of ids, as a signed word. */
    method Size() returns (n: int)
      requires Valid()
      ensures |Ids(Value())| < U64 && n == Signed64(|Ids(Value())|)
    {
      TotalCounts(Value());
      n := size;
    }
  }

  /** `caslist_new`: NULL exactly for a reversed range or a range starting at 0. */
  method New(begin: Word64, end: Word64) returns (list: CasList?)
    requires end <= MAX_ID
    ensures list == null <==> begin > end || (begin == 0 && end > 0)
    ensures list != null ==> list.Valid() && fresh(list) && fresh(list.chain)
                             && Ids(list.Value()) == (set v | begin <= v <= end && v != 0 && Within(Range(begin, end), v))
  {
    if begin > end || (begin == 0 && end > 0) {
      return null;
    }
    list := new CasList(begin, end);
    assert list.Value() != [] ==> list.Value()[1..] == [];
    if begin == 0 {
      assert Ids(list.Value()) == {};
    }
  }
}
