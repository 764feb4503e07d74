/** Machine words, little-endian fields and byte-range copies. */
module Words {
  const U8: nat := 0x100
  const U32: nat := 0x1_0000_0000
  const U64: nat := 0x1_0000_0000_0000_0000

  type Byte = x: nat | x < U8
  type Word32 = x: nat | x < U32
  type Word64 = x: nat | x < U64
  /** A stored checksum: zero is reserved for "no object". */
  type Sum64 = x: nat | 0 < x < U64 witness 1

  datatype Option<+T> = None | Some(value: T)

  function Inc32(x: Word32): Word32 { if x == U32 - 1 then 0 else x + 1 }

  function Max(a: nat, b: nat): nat { if a < b then b else a }

  function Min(a: nat, b: nat): nat { if a < b then a else b }

  /** `memset(p, 0, n)` as a value. */
  function Zeros(n: nat): (r: seq<Byte>)
    ensures |r| == n && forall i :: 0 <= i < n ==> r[i] == 0
  {
    seq(n, i => 0)
  }

  /** `memcpy(s + pos, w, |w|)`: the precondition is that the copy stays inside the buffer. */
  function Overlay(s: seq<Byte>, pos: nat, w: seq<Byte>): (r: seq<Byte>)
    requires pos + |w| <= |s|
    ensures |r| == |s|
  {
    s[..pos] + w + s[pos + |w|..]
  }

  lemma OverlayAt(s: seq<Byte>, pos: nat, w: seq<Byte>, i: nat)
    requires pos + |w| <= |s| && i < |s|
    ensures Overlay(s, pos, w)[i] == if pos <= i < pos + |w| then w[i - pos] else s[i]
  {
  }

  lemma OverlayKeepsRange(s: seq<Byte>, pos: nat, w: seq<Byte>, from: nat, to: nat)
    requires pos + |w| <= |s| && from <= to <= |s|
    requires to <= pos || pos + |w| <= from
    ensures Overlay(s, pos, w)[from..to] == s[from..to]
  {
  }

  lemma OverlayReadBack(s: seq<Byte>, pos: nat, w: seq<Byte>)
    requires pos + |w| <= |s|
    ensures Overlay(s, pos, w)[pos..pos + |w|] == w
  {
  }

  function Pow256(n: nat): nat
    ensures Pow256(n) > 0
  {
    if n == 0 then 1 else 256 * Pow256(n - 1)
  }

  /** The n low-order bytes of x, least significant first. */
  function Encode(x: nat, n: nat): (r: seq<Byte>)
    ensures |r| == n
    decreases n, x
  {
    if n == 0 then [] else [x % 256] + Encode(x / 256, n - 1)
  }

  function Decode(s: seq<Byte>): nat {
    if s == [] then 0 else s[0] + 256 * Decode(s[1..])
  }

  lemma {:induction false} DecodeEncode(x: nat, n: nat)
    requires x < Pow256(n)
    ensures Decode(Encode(x, n)) == x
  {
    if n > 0 {
      DecodeEncode(x / 256, n - 1);
      assert Encode(x, n)[1..] == Encode(x / 256, n - 1);
    }
  }

  lemma PowersOf256()
    ensures Pow256(4) == U32 && Pow256(8) == U64
  {
    assert Pow256(1) == 256 && Pow256(2) == 0x1_0000 && Pow256(3) == 0x100_0000;
    assert Pow256(4) == U32 && Pow256(5) == 0x100_0000_0000 && Pow256(6) == 0x1_0000_0000_0000;
    assert Pow256(7) == 0x100_0000_0000_0000;
  }

  /** An n-byte little-endian field at `pos`. */
  function Field(s: seq<Byte>, pos: nat, n: nat): nat
    requires pos + n <= |s|
  {
    Decode(s[pos..pos + n])
  }

  function SetField(s: seq<Byte>, pos: nat, n: nat, x: nat): (r: seq<Byte>)
    requires pos + n <= |s|
    ensures |r| == |s|
  {
    Overlay(s, pos, Encode(x, n))
  }

  lemma FieldReadBack(s: seq<Byte>, pos: nat, n: nat, x: nat)
    requires pos + n <= |s| && x < Pow256(n)
    ensures Field(SetField(s, pos, n, x), pos, n) == x
  {
    OverlayReadBack(s, pos, Encode(x, n));
    DecodeEncode(x, n);
  }
}
