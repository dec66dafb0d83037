/** Bit strings (clause 20.2.10): bits set one by one in a buffer of octets, and read back by mask. */
module BitStrings {
  import opened Octets

  /** `x` with its last `k` binary digits dropped. */
  function ShiftRight(x: nat, k: nat): nat {
    if k == 0 then x else ShiftRight(x / 2, k - 1)
  }

  function Pow2(k: nat): (p: nat)
    ensures p > 0
  {
    if k == 0 then 1 else 2 * Pow2(k - 1)
  }

  /** Whether the bit `position` places from the most significant one is set. */
  predicate MaskSet(octet: Octet, position: nat)
    requires position < 8
  {
    ShiftRight(octet, 7 - position) % 2 == 1
  }

  /** The number whose binary digits, most significant first, are `bits`. */
  function Number(bits: seq<bool>): nat {
    if bits == [] then 0 else Number(bits[..|bits| - 1]) * 2 + if bits[|bits| - 1] then 1 else 0
  }

  function Zeros(n: nat): seq<bool> { seq(n, _ => false) }

  lemma {:induction false} NumberBound(bits: seq<bool>)
    ensures Number(bits) < Pow2(|bits|)
  {
    if bits != [] {
      NumberBound(bits[..|bits| - 1]);
    }
  }

  lemma Pow2At8()
    ensures Pow2(8) == 256
  {
    assert Pow2(4) == 16;
  }

  lemma {:induction false} ShiftNumber(bits: seq<bool>, k: nat)
    requires k <= |bits|
    ensures ShiftRight(Number(bits), k) == Number(bits[..|bits| - k])
    decreases k
  {
    if k == 0 {
      assert bits[..|bits|] == bits;
    } else {
      var init := bits[..|bits| - 1];
      assert Number(bits) / 2 == Number(init);
      ShiftNumber(init, k - 1);
      assert init[..|init| - (k - 1)] == bits[..|bits| - k];
    }
  }

  function OctetOf(bits: seq<bool>): Octet
    requires |bits| == 8
  {
    NumberBound(bits);
    Pow2At8();
    Number(bits)
  }

  /** The octet holding eight bits gives them back by mask. */
  lemma MaskOfOctet(bits: seq<bool>, position: nat)
    requires |bits| == 8 && position < 8
    ensures MaskSet(OctetOf(bits), position) == bits[position]
  {
    NumberBound(bits);
    Pow2At8();
    ShiftNumber(bits, 7 - position);
    assert bits[..8 - (7 - position)][..position] == bits[..position];
  }

  // -- encoding ----------------------------------------------------------------------

  function OctetCount(n: nat): nat { (n + 7) / 8 }

  /** The bits of octet `j`, the last one filled up with zeros. */
  function BitsOf(bits: seq<bool>, j: nat): (b: seq<bool>)
    ensures |b| == 8
  {
    seq(8, k requires 0 <= k < 8 => 8 * j + k < |bits| && bits[8 * j + k])
  }

  function Packed(bits: seq<bool>): Bytes {
    seq(OctetCount(|bits|), j requires 0 <= j => OctetOf(BitsOf(bits, j)))
  }

  function BitBody(bits: seq<bool>): Bytes { [OctetCount(|bits|) * 8 - |bits|] + Packed(bits) }

  /** The octet with the bit at `position` set, as it may have been already. */
  function SetMask(octet: Octet, position: nat): nat
    requires position < 8
  {
    if MaskSet(octet, position) then octet else octet + Pow2(7 - position)
  }

  lemma {:induction false} NumberOfSet(bits: seq<bool>, k: nat)
    requires k < |bits| && !bits[k]
    ensures Number(bits[k := true]) == Number(bits) + Pow2(|bits| - 1 - k)
    decreases |bits|
  {
    var n := |bits| - 1;
    if k == n {
      assert bits[k := true][..n] == bits[..n];
    } else {
      assert bits[k := true][..n] == bits[..n][k := true];
      NumberOfSet(bits[..n], k);
    }
  }

  lemma SetMaskIsSetBit(bits: seq<bool>, position: nat)
    requires |bits| == 8 && position < 8
    ensures SetMask(OctetOf(bits), position) == OctetOf(bits[position := true])
  {
    hide Number, ShiftRight;
    MaskOfOctet(bits, position);
    if bits[position] {
      assert bits[position := true] == bits;
    } else {
      NumberOfSet(bits, position);
    }
  }

  /** The first `n` bits, and zeros after them. */
  function Masked(bits: seq<bool>, n: nat): (m: seq<bool>)
    ensures |m| == |bits|
  {
    seq(|bits|, i requires 0 <= i < |bits| => i < n && bits[i])
  }

  lemma {:induction false} NumberOfZeros(n: nat)
    ensures Number(Zeros(n)) == 0
  {
    if n > 0 {
      assert Zeros(n)[..n - 1] == Zeros(n - 1);
      NumberOfZeros(n - 1);
    }
  }

  /** `application_bit_string`: the buffer starts as zeros and each set bit is or-ed in at its place. */
  method PackBits(bits: seq<bool>) returns (body: Bytes)
    ensures body == BitBody(bits)
  {
    hide Number, MaskSet, Pow2;
    var count := OctetCount(|bits|);
    var octets := new Octet[count](_ => 0);
    forall j | 0 <= j < count
      ensures octets[j] == OctetOf(BitsOf(Masked(bits, 0), j))
    {
      assert BitsOf(Masked(bits, 0), j) == Zeros(8);
      NumberOfZeros(8);
    }
    for index := 0 to |bits|
      invariant forall j | 0 <= j < count :: octets[j] == OctetOf(BitsOf(Masked(bits, index), j))
    {
      ghost var before, after := Masked(bits, index), Masked(bits, index + 1);
      var at, position := index / 8, index % 8;
      forall j | 0 <= j < count
        ensures BitsOf(after, j)
                == if j == at && bits[index] then BitsOf(before, j)[position := true] else BitsOf(before, j)
      {
        var wanted := if j == at && bits[index] then BitsOf(before, j)[position := true] else BitsOf(before, j);
        forall k | 0 <= k < 8
          ensures BitsOf(after, j)[k] == wanted[k]
        {
          assert 8 * j + k == index <==> j == at && k == position;
        }
      }
      if bits[index] {
        SetMaskIsSetBit(BitsOf(before, at), position);
        octets[at] := SetMask(octets[at], position);
      }
    }
    assert Masked(bits, |bits|) == bits;
    assert octets[..] == Packed(bits);
    body := [count * 8 - |bits|] + octets[..];
  }

  // -- decoding ------------------------------------------------------------------------

  function OctetBits(octet: Octet): (b: seq<bool>)
    ensures |b| == 8
  {
    seq(8, k requires 0 <= k < 8 => MaskSet(octet, k))
  }

  function AllBits(octets: Bytes): seq<bool> {
    if octets == [] then [] else OctetBits(octets[0]) + AllBits(octets[1..])
  }

  /** The bits less the last `unused`. Past the number of bits, the bound counts back from the end, as a negative
      bound of a Python slice does. */
  function Without(bits: seq<bool>, unused: nat): seq<bool> {
    if unused <= |bits| then bits[..|bits| - unused]
    else if unused <= 2 * |bits| then bits[..2 * |bits| - unused]
    else []
  }

  /** The bits in the contents of a bit string; contents without the count of unused bits fail. */
  function DecodeBits(body: Bytes): Outcome<seq<bool>> {
    if body == [] then Raised(IndexError) else Returned(Without(AllBits(body[1..]), body[0]))
  }

  method UnpackBits(body: Bytes) returns (r: Outcome<seq<bool>>)
    ensures r == DecodeBits(body)
  {
    if body == [] {
      return Raised(IndexError);
    }
    var unused := body[0];
    var bits: seq<bool> := [];
    for i := 1 to |body|
      invariant bits + AllBits(body[i..]) == AllBits(body[1..])
    {
      assert body[i..][0] == body[i] && body[i..][1..] == body[i + 1..];
      assert bits + (OctetBits(body[i]) + AllBits(body[i + 1..])) == bits + OctetBits(body[i]) + AllBits(body[i + 1..]);
      bits := bits + OctetBits(body[i]);
    }
    assert bits == AllBits(body[1..]) by {
      assert body[|body|..] == [];
      assert bits + [] == bits;
    }
    return Returned(Without(bits, unused));
  }

  lemma {:induction false} AllBitsAt(octets: Bytes, i: nat)
    requires i < 8 * |octets|
    ensures |AllBits(octets)| == 8 * |octets| && AllBits(octets)[i] == MaskSet(octets[i / 8], i % 8)
    decreases |octets|
  {
    hide MaskSet;
    if i >= 8 {
      AllBitsAt(octets[1..], i - 8);
      assert (i - 8) / 8 == i / 8 - 1 && (i - 8) % 8 == i % 8;
    } else {
      AllBitsLength(octets[1..]);
    }
  }

  lemma {:induction false} AllBitsLength(octets: Bytes)
    ensures |AllBits(octets)| == 8 * |octets|
  {
    if octets != [] {
      AllBitsLength(octets[1..]);
    }
  }

  /** Unpacking inverts packing, for any number of bits. */
  lemma BitsRoundTrip(bits: seq<bool>)
    ensures DecodeBits(BitBody(bits)) == Returned(bits)
  {
    hide MaskSet, OctetOf, AllBits;
    var body := BitBody(bits);
    var octets := Packed(bits);
    assert body[1..] == octets;
    AllBitsLength(octets);
    var r := Without(AllBits(octets), body[0]);
    assert |r| == |bits|;
    forall i | 0 <= i < |bits|
      ensures r[i] == bits[i]
    {
      AllBitsAt(octets, i);
      PackedAt(bits, i);
    }
    assert r == bits;
  }

  lemma PackedAt(bits: seq<bool>, i: nat)
    requires i < |bits|
    ensures MaskSet(Packed(bits)[i / 8], i % 8) == bits[i]
  {
    MaskOfOctet(BitsOf(bits, i / 8), i % 8);
  }

  /** Bits taken from octets are the first of all their bits. */
  lemma WithoutIsPrefix(octets: Bytes, unused: nat, j: nat, k: nat)
    requires k < 8 && 8 * j + k < |Without(AllBits(octets), unused)|
    ensures j < |octets| && Without(AllBits(octets), unused)[8 * j + k] == MaskSet(octets[j], k)
  {
    hide MaskSet;
    var i := 8 * j + k;
    AllBitsLength(octets);
    AllBitsAt(octets, i);
    assert i / 8 == j && i % 8 == k;
  }

  lemma WithoutLength(octets: Bytes, unused: nat)
    ensures |Without(AllBits(octets), unused)| <= 8 * |octets|
    ensures unused % 8 == 0 ==> |Without(AllBits(octets), unused)| % 8 == 0
  {
    hide AllBits;
    AllBitsLength(octets);
    if unused % 8 == 0 {
      var n, m := |octets|, unused / 8;
      assert unused == 8 * m;
      assert |Without(AllBits(octets), unused)| == 8 * (if m <= n then n - m else if m <= 2 * n then 2 * n - m else 0);
    }
  }

  /** The octets hold the bits, and zeros after them. */
  ghost predicate Holds(octets: Bytes, bits: seq<bool>) {
    |octets| == OctetCount(|bits|)
    && forall j, k | 0 <= j < |octets| && 0 <= k < 8 :: MaskSet(octets[j], k) == (8 * j + k < |bits| && bits[8 * j + k])
  }

  lemma PackedHolds(bits: seq<bool>)
    ensures Holds(Packed(bits), bits)
  {
    hide MaskSet, OctetOf;
    forall j, k | 0 <= j < OctetCount(|bits|) && 0 <= k < 8
      ensures MaskSet(Packed(bits)[j], k) == (8 * j + k < |bits| && bits[8 * j + k])
    {
      MaskOfOctet(BitsOf(bits, j), k);
    }
  }

  /** An octet without its last three bits is a multiple of 8. */
  lemma MultipleOfEight(octet: Octet)
    requires !MaskSet(octet, 5) && !MaskSet(octet, 6) && !MaskSet(octet, 7)
    ensures octet % 8 == 0
  {
    var half: nat := octet / 2;
    assert ShiftRight(octet, 1) == half && ShiftRight(octet, 2) == ShiftRight(half, 1) == half / 2;
    assert octet == 2 * half && half == 2 * (half / 2) && half / 2 == 2 * (half / 2 / 2);
  }

  /** The octets of 25 to 27 bits, where each of the first three reads as the one after it. */
  lemma RepeatedOctets(octets: Bytes, bits: seq<bool>, later: Bytes)
    requires Holds(octets, bits) && 25 <= |bits| <= 27 && |later| >= 3
    requires later[0] == octets[1] && later[1] == octets[2] && later[2] == octets[3]
    requires Without(AllBits(later), octets[0]) == bits
    ensures octets[0] % 8 == 0
  {
    hide MaskSet, AllBits, Without;
    forall k | 5 <= k < 8
      ensures !MaskSet(octets[0], k)
    {
      WithoutIsPrefix(later, octets[0], 0, k);
      WithoutIsPrefix(later, octets[0], 1, k);
      WithoutIsPrefix(later, octets[0], 2, k);
    }
    MultipleOfEight(octets[0]);
  }

  /** Read one octet too late, the first octet taken for the count of unused bits: 25 to 32 bits never come back,
      whatever `later` goes on with. */
  lemma ShiftedBits(octets: Bytes, bits: seq<bool>, later: Bytes)
    requires Holds(octets, bits) && 25 <= |bits| <= 32 && |later| < 32 - |bits|
    requires forall i | 0 <= i < 3 && i < |later| :: later[i] == octets[i + 1]
    ensures Without(AllBits(later), octets[0]) != bits
  {
    hide MaskSet, AllBits, Without;
    WithoutLength(later, octets[0]);
    if Without(AllBits(later), octets[0]) == bits {
      RepeatedOctets(octets, bits, later);
    }
  }
}
