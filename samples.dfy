/**
 * The three numpy element types of the DXX formats and the sample buffers
 * the codec reads and writes.
 *
 * A buffer keeps every sample as the raw word it occupies in memory: the
 * two's complement bit pattern for int16 and the IEEE 754 bit pattern for
 * float32 and float64. This is what `ndarray.tofile` writes and
 * `np.fromfile` reads, so the binary layout is exact without modelling
 * floating-point arithmetic.
 */
module Samples {

  type byte = x: int | 0 <= x < 256

  datatype ElemType = Int16 | Float32 | Float64

  /** numpy's itemsize of an element type, in bytes. */
  function ElemWidth(t: ElemType): nat {
    match t
    case Int16 => 2
    case Float32 => 4
    case Float64 => 8
  }

  /** 256 to the power k: the number of words that fit in k bytes. */
  function Pow256(k: nat): (p: nat)
    ensures p >= 1
  {
    if k == 0 then 1 else 256 * Pow256(k - 1)
  }

  /** The number of distinct words of an element type. */
  function Modulus(t: ElemType): (m: nat)
    ensures m == Pow256(ElemWidth(t))
  {
    PowersOf256();
    match t
    case Int16 => 0x1_0000
    case Float32 => 0x1_0000_0000
    case Float64 => 0x1_0000_0000_0000_0000
  }

  lemma PowersOf256()
    ensures Pow256(2) == 0x1_0000
    ensures Pow256(4) == 0x1_0000_0000
    ensures Pow256(8) == 0x1_0000_0000_0000_0000
  {
    assert Pow256(1) == 256;
    assert Pow256(3) == 256 * Pow256(2);
    assert Pow256(5) == 256 * Pow256(4);
    assert Pow256(6) == 256 * Pow256(5);
    assert Pow256(7) == 256 * Pow256(6);
  }

  /** A typed sample buffer (a one-dimensional ndarray). */
  datatype Buffer = Buffer(elem: ElemType, words: seq<nat>)

  /** Every word fits the element type's width. */
  predicate WellFormed(b: Buffer) {
    forall i :: 0 <= i < |b.words| ==> b.words[i] < Modulus(b.elem)
  }

  /** The value of an int16 word read as two's complement. */
  function Signed16(w: nat): (v: int)
    requires w < 0x1_0000
    ensures -0x8000 <= v < 0x8000
    ensures v % 0x1_0000 == w
  {
    if w < 0x8000 then w else w - 0x1_0000
  }

  /** The int16 word that stores a value in range. */
  function Word16(v: int): (w: nat)
    requires -0x8000 <= v < 0x8000
    ensures w < 0x1_0000 && Signed16(w) == v
  {
    if v < 0 then v + 0x1_0000 else v
  }

  /**
   * The absolute value of a sample, as the conversions compare it.
   * An int16 sample is cast to float before `np.abs`, so -32768 has
   * magnitude 32768 rather than wrapping. A float's magnitude is its bit
   * pattern with the sign bit cleared: for IEEE 754 values other than NaN,
   * this code orders magnitudes exactly as |x| does.
   */
  function Magnitude(t: ElemType, w: nat): nat {
    match t
    case Int16 =>
      var v := Signed16(w % 0x1_0000);
      if v < 0 then -v else v
    case Float32 => w % 0x8000_0000
    case Float64 => w % 0x8000_0000_0000_0000
  }

  lemma Int16MagnitudeIsAbs(w: nat)
    requires w < 0x1_0000
    ensures Magnitude(Int16, w) <= 0x8000
    ensures Magnitude(Int16, w) == if Signed16(w) < 0 then -Signed16(w) else Signed16(w)
    ensures Magnitude(Int16, w) == 0x8000 <==> w == 0x8000
  {
  }
}
