/** Octet strings, big-endian integers and the ways the Python code fails.
    A Python slice truncates instead of failing; indexing past the end raises IndexError,
    unpacking a short slice raises struct.error, bytes([n]) with n > 255 raises ValueError, and storing into
    None raises TypeError. */
module Octets {

  type Octet = x: int | 0 <= x < 256
  type Bytes = seq<Octet>
  type U16 = x: int | 0 <= x < 0x1_0000
  type U32 = x: int | 0 <= x < 0x1_0000_0000

  datatype Option<+T> = None | Some(value: T)

  datatype PyError = IndexError | StructError | ValueError | TypeError

  /** What a Python call does: return a value, or raise. */
  datatype Outcome<+T> = Returned(value: T) | Raised(error: PyError) {
    predicate IsFailure() { Raised? }
    function PropagateFailure<U>(): Outcome<U>
      requires Raised?
    {
      Raised(error)
    }
    function Extract(): T
      requires Returned?
    {
      value
    }
    /** What `except (IndexError, struct.error)` catches; ValueError and TypeError escape it. */
    predicate Caught() { Raised? && (error == IndexError || error == StructError) }
  }

  /** The octets from `lo` up to `hi`, cut short where the data ends, as a Python slice is. */
  function Slice(data: Bytes, lo: nat, hi: nat): Bytes {
    var top := if hi < |data| then hi else |data|;
    if lo < top then data[lo..top] else []
  }

  /** The big-endian value of the octets. */
  function FromBytes(b: Bytes): nat {
    if b == [] then 0 else FromBytes(b[..|b| - 1]) * 256 + b[|b| - 1]
  }

  /** Two octets, big-endian. */
  function U16Bytes(v: U16): (b: Bytes)
    ensures |b| == 2
  {
    [v / 256, v % 256]
  }

  /** Four octets, big-endian. */
  function U32Bytes(v: U32): (b: Bytes)
    ensures |b| == 4
  {
    [v / 256 / 256 / 256, v / 256 / 256 % 256, v / 256 % 256, v % 256]
  }

  lemma FromBytes1(a: Octet)
    ensures FromBytes([a]) == a
  {
    assert [a][..0] == [];
  }

  lemma FromBytes2(a: Octet, b: Octet)
    ensures FromBytes([a, b]) == a * 256 + b
  {
    assert [a, b][..1] == [a];
    FromBytes1(a);
  }

  lemma FromBytes3(a: Octet, b: Octet, c: Octet)
    ensures FromBytes([a, b, c]) == a * 0x1_0000 + b * 256 + c
  {
    assert [a, b, c][..2] == [a, b];
    FromBytes2(a, b);
  }

  lemma FromBytes4(a: Octet, b: Octet, c: Octet, d: Octet)
    ensures FromBytes([a, b, c, d]) == a * 0x100_0000 + b * 0x1_0000 + c * 256 + d
  {
    assert [a, b, c, d][..3] == [a, b, c];
    FromBytes3(a, b, c);
  }

  lemma U32RoundTrip(v: U32)
    ensures FromBytes(U32Bytes(v)) == v
  {
    var high := v / 256;
    FromBytes4(high / 256 / 256, high / 256 % 256, high % 256, v % 256);
  }

  lemma FromBytesOfU32(b: Bytes)
    requires |b| == 4
    ensures FromBytes(b) < 0x1_0000_0000
  {
    assert b == [b[0], b[1], b[2], b[3]];
    FromBytes4(b[0], b[1], b[2], b[3]);
  }

  function Pow256(n: nat): (p: nat)
    ensures p > 0
  {
    if n == 0 then 1 else 256 * Pow256(n - 1)
  }

  lemma FromBytesBound(b: Bytes)
    ensures FromBytes(b) < Pow256(|b|)
  {
    if b != [] {
      FromBytesBound(b[..|b| - 1]);
    }
  }

  /** The big-endian two's complement value of the octets. */
  function FromSignedBytes(b: Bytes): int {
    if b != [] && b[0] >= 128 then FromBytes(b) - Pow256(|b|) else FromBytes(b)
  }

  /** Associativity, to regroup a message around the element being read. */
  lemma Regroup(a: Bytes, b: Bytes, c: Bytes)
    ensures a + b + c == a + (b + c)
  {
  }
}
