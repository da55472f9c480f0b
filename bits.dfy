/** Fixed-width integers as big-endian bit strings, the way a TON cell builder
    writes them: `storeUint(v, n)` appends the n bits of v, most significant
    bit first; `int8` is two's complement; a byte buffer is written byte after
    byte, eight bits each. */
module Bits {

  /** 2^n */
  function Pow2(n: nat): (r: nat)
    ensures r >= 1
  {
    if n == 0 then 1 else 2 * Pow2(n - 1)
  }

  lemma Pow2Values()
    ensures Pow2(7) == 128 && Pow2(8) == 256
    ensures Pow2(16) == 0x1_0000
    ensures Pow2(32) == 0x1_0000_0000
    ensures Pow2(64) == 0x1_0000_0000_0000_0000
  {
    assert Pow2(1) == 2;
    assert Pow2(2) == 4;
    assert Pow2(3) == 8;
    assert Pow2(4) == 16;
    assert Pow2(5) == 32;
    assert Pow2(6) == 64;
    assert Pow2(7) == 128;
    assert Pow2(8) == 256;
    Pow2Add(8, 8);
    Pow2Add(16, 16);
    Pow2Add(32, 32);
  }

  lemma {:induction false} Pow2Add(a: nat, b: nat)
    ensures Pow2(a + b) == Pow2(a) * Pow2(b)
  {
    if a > 0 {
      Pow2Add(a - 1, b);
      assert Pow2(a + b) == 2 * Pow2(a - 1 + b);
    }
  }

  lemma AppendAssoc<T>(x: seq<T>, y: seq<T>, z: seq<T>)
    ensures x + y + z == x + (y + z)
  {
  }

  /** The n-bit big-endian encoding of v: the last bit is the least significant one. */
  function UintBits(v: nat, n: nat): (r: seq<bool>)
    requires v < Pow2(n)
    ensures |r| == n
  {
    if n == 0 then [] else UintBits(v / 2, n - 1) + [v % 2 == 1]
  }

  /** The value of a big-endian bit string read as an unsigned integer. */
  function BitsToUint(s: seq<bool>): (r: nat)
    ensures r < Pow2(|s|)
  {
    if s == [] then 0 else 2 * BitsToUint(s[..|s| - 1]) + (if s[|s| - 1] then 1 else 0)
  }

  /** Reading back what `UintBits` wrote gives the value. */
  lemma {:induction false} UintBitsRoundTrip(v: nat, n: nat)
    requires v < Pow2(n)
    ensures BitsToUint(UintBits(v, n)) == v
  {
    if n > 0 {
      var s := UintBits(v, n);
      assert s[..n - 1] == UintBits(v / 2, n - 1);
      UintBitsRoundTrip(v / 2, n - 1);
    }
  }

  /** Every n-bit string is the encoding of its own value. */
  lemma {:induction false} BitsToUintRoundTrip(s: seq<bool>)
    ensures UintBits(BitsToUint(s), |s|) == s
  {
    if s != [] {
      var init := s[..|s| - 1];
      BitsToUintRoundTrip(init);
      assert s == init + [s[|s| - 1]];
    }
  }

  /** Distinct in-range values have distinct encodings. */
  lemma UintBitsInjective(v: nat, w: nat, n: nat)
    requires v < Pow2(n) && w < Pow2(n)
    requires UintBits(v, n) == UintBits(w, n)
    ensures v == w
  {
    UintBitsRoundTrip(v, n);
    UintBitsRoundTrip(w, n);
  }

  predicate IsInt8(x: int) {
    -128 <= x < 128
  }

  /** `int8` in two's complement: a negative x is written as the unsigned value x + 256. */
  function Int8Bits(x: int): (r: seq<bool>)
    requires IsInt8(x)
    ensures |r| == 8
    ensures r[0] <==> x < 0
  {
    Pow2Values();
    var u := if x < 0 then x + 256 else x;
    var r := UintBits(u, 8);
    MsbOfUint(u, 8);
    r
  }

  /** The leading bit of an n-bit encoding is set exactly when v >= 2^(n-1). */
  lemma {:induction false} MsbOfUint(v: nat, n: nat)
    requires n > 0 && v < Pow2(n)
    ensures UintBits(v, n)[0] <==> v >= Pow2(n - 1)
  {
    if n > 1 {
      MsbOfUint(v / 2, n - 1);
      assert UintBits(v, n)[0] == UintBits(v / 2, n - 1)[0];
    }
  }

  /** The signed value of an 8-bit two's-complement string. */
  function BitsToInt8(s: seq<bool>): (r: int)
    requires |s| == 8
    ensures IsInt8(r)
  {
    Pow2Values();
    var u := BitsToUint(s);
    if u >= 128 then u - 256 else u
  }

  lemma Int8RoundTrip(x: int)
    requires IsInt8(x)
    ensures BitsToInt8(Int8Bits(x)) == x
  {
    Pow2Values();
    UintBitsRoundTrip(if x < 0 then x + 256 else x, 8);
  }

  type Byte = b: nat | b < 256

  /** A byte buffer written byte by byte, eight bits per byte. */
  function BytesBits(bs: seq<Byte>): (r: seq<bool>)
    ensures |r| == 8 * |bs|
  {
    Pow2Values();
    if bs == [] then [] else UintBits(bs[0], 8) + BytesBits(bs[1..])
  }

  /** Reads a bit string back as bytes, eight bits per byte. */
  function BitsToBytes(s: seq<bool>): (r: seq<Byte>)
    requires |s| % 8 == 0
    ensures 8 * |r| == |s|
  {
    Pow2Values();
    if s == [] then [] else [BitsToUint(s[..8])] + BitsToBytes(s[8..])
  }

  lemma {:induction false} BytesRoundTrip(bs: seq<Byte>)
    ensures BitsToBytes(BytesBits(bs)) == bs
  {
    Pow2Values();
    if bs != [] {
      var s := BytesBits(bs);
      assert s[..8] == UintBits(bs[0], 8);
      assert s[8..] == BytesBits(bs[1..]);
      UintBitsRoundTrip(bs[0], 8);
      BytesRoundTrip(bs[1..]);
      assert bs == [bs[0]] + bs[1..];
    }
  }
}
