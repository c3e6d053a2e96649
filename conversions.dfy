/**
 * The choice of amplitude-rescaling conversion `write` makes, and the
 * whole-buffer step every conversion starts with: the smallest and largest
 * absolute sample value of the entire buffer.
 *
 * The rescaling formula `(x - min) / (max - min) * amp` and the cast that
 * follows it are floating-point arithmetic; here they are a parameter, a
 * `Rescaler`, that receives the source and target types, the amplitude,
 * the sample's word and the buffer's two extrema.
 */
module Conversions {
  import opened Wrappers
  import opened Samples

  datatype Conversion = NoConversion | FloatToInt16 | Int16ToFloat32 | Int16ToFloat64

  /** The conversion `write` applies to data of type src bound for a file of type dst. */
  function Dispatch(src: ElemType, dst: ElemType): (c: Conversion)
    ensures c == NoConversion <==> src == dst || (src != Int16 && dst != Int16)
    ensures c == FloatToInt16 <==> src != Int16 && dst == Int16
    ensures c == Int16ToFloat32 <==> src == Int16 && dst == Float32
    ensures c == Int16ToFloat64 <==> src == Int16 && dst == Float64
  {
    if (src == Float32 || src == Float64) && dst == Int16 then FloatToInt16
    else if src == Int16 && dst == Float32 then Int16ToFloat32
    else if src == Int16 && dst == Float64 then Int16ToFloat64
    else
      assert src == Int16 ==> dst == Int16;
      NoConversion
  }

  /** The element type a conversion produces from data of type src. */
  function Produces(c: Conversion, src: ElemType): ElemType {
    match c
    case NoConversion => src
    case FloatToInt16 => Int16
    case Int16ToFloat32 => Float32
    case Int16ToFloat64 => Float64
  }

  /** After dispatch the data has the file's type, except for the float32/float64 pairs. */
  lemma DispatchReachesTarget(src: ElemType, dst: ElemType)
    ensures Produces(Dispatch(src, dst), src) == dst <==> !(src != dst && src != Int16 && dst != Int16)
  {
  }

  /** `2 ** 15 - 1`, the amplitude of int16 output. */
  const AmpInt16: int := 0x7FFF

  /** `10000.0`, the amplitude of float output. */
  const AmpFloat: int := 10000

  function Amp(c: Conversion): int {
    if c == FloatToInt16 then AmpInt16 else AmpFloat
  }

  /** Floating-point rescaling of one sample: (src, dst, amp, x, min_abs, max_abs) to the result's word. */
  type Rescaler = (ElemType, ElemType, int, nat, nat, nat) -> int

  /** `np.abs(data).max()` on a non-empty buffer. */
  function AbsMax(t: ElemType, ws: seq<nat>): (m: nat)
    requires ws != []
    ensures exists i :: 0 <= i < |ws| && Magnitude(t, ws[i]) == m
    ensures forall i :: 0 <= i < |ws| ==> Magnitude(t, ws[i]) <= m
  {
    if |ws| == 1 then Magnitude(t, ws[0])
    else
      var rest := AbsMax(t, ws[1..]);
      assert forall i :: 1 <= i < |ws| ==> ws[i] == ws[1..][i - 1];
      if Magnitude(t, ws[0]) >= rest then Magnitude(t, ws[0]) else rest
  }

  /** `np.abs(data).min()` on a non-empty buffer. */
  function AbsMin(t: ElemType, ws: seq<nat>): (m: nat)
    requires ws != []
    ensures exists i :: 0 <= i < |ws| && Magnitude(t, ws[i]) == m
    ensures forall i :: 0 <= i < |ws| ==> m <= Magnitude(t, ws[i])
  {
    if |ws| == 1 then Magnitude(t, ws[0])
    else
      var rest := AbsMin(t, ws[1..]);
      assert forall i :: 1 <= i < |ws| ==> ws[i] == ws[1..][i - 1];
      if Magnitude(t, ws[0]) <= rest then Magnitude(t, ws[0]) else rest
  }

  /**
   * Both extrema of a buffer, or None for an empty one: numpy's `max` and
   * `min` have no identity and raise on a zero-size array.
   */
  function Extrema(t: ElemType, ws: seq<nat>): (r: Option<(nat, nat)>)
    ensures r.None? <==> ws == []
    ensures r.Some? ==> r.value == (AbsMin(t, ws), AbsMax(t, ws))
    ensures r.Some? ==> 0 <= r.value.0 <= r.value.1
  {
    if ws == [] then None
    else
      assert Magnitude(t, ws[0]) <= AbsMax(t, ws);
      Some((AbsMin(t, ws), AbsMax(t, ws)))
  }

  /** The denominator `max - min` vanishes exactly when every sample has the same magnitude. */
  lemma ZeroRangeIffConstantMagnitude(t: ElemType, ws: seq<nat>)
    requires ws != []
    ensures AbsMax(t, ws) == AbsMin(t, ws) <==>
      forall i, j :: 0 <= i < |ws| && 0 <= j < |ws| ==> Magnitude(t, ws[i]) == Magnitude(t, ws[j])
  {
    if forall i, j :: 0 <= i < |ws| && 0 <= j < |ws| ==> Magnitude(t, ws[i]) == Magnitude(t, ws[j]) {
      var i :| 0 <= i < |ws| && Magnitude(t, ws[i]) == AbsMax(t, ws);
      var j :| 0 <= j < |ws| && Magnitude(t, ws[j]) == AbsMin(t, ws);
      assert Magnitude(t, ws[i]) == Magnitude(t, ws[j]);
    }
  }

  /** The extrema are of absolute values, not the signed minimum and maximum. */
  lemma ExtremaAreOfMagnitudes()
    ensures AbsMin(Int16, [0xFFFB, 3]) == 3 && AbsMax(Int16, [0xFFFB, 3]) == 5
    ensures Signed16(0xFFFB) == -5
  {
    assert Magnitude(Int16, 0xFFFB) == 5;
  }

  /** One rescaled sample, cut to a word of the produced type. */
  function RescaledWord(rescale: Rescaler, c: Conversion, src: ElemType, x: nat, lo: nat, hi: nat): (w: nat)
    ensures w < Modulus(Produces(c, src))
  {
    var dst := Produces(c, src);
    rescale(src, dst, Amp(c), x, lo, hi) % Modulus(dst)
  }

  /**
   * Applies a conversion to a buffer. Every output sample is computed from
   * its own input sample and the extrema of the whole input buffer; the
   * result is None only when a rescaling conversion meets an empty buffer.
   */
  function Convert(rescale: Rescaler, c: Conversion, data: Buffer): (r: Option<Buffer>)
    ensures c == NoConversion ==> r == Some(data)
    ensures c != NoConversion ==> (r.None? <==> data.words == [])
    ensures r.Some? ==> r.value.elem == Produces(c, data.elem) && |r.value.words| == |data.words|
    ensures r.Some? && c != NoConversion ==> WellFormed(r.value)
  {
    if c == NoConversion then Some(data)
    else
      match Extrema(data.elem, data.words)
      case None => None
      case Some((lo, hi)) =>
        var dst := Produces(c, data.elem);
        var ws := data.words;
        var out: seq<nat> := seq(|ws|, i requires 0 <= i < |ws| => RescaledWord(rescale, c, data.elem, ws[i], lo, hi));
        Some(Buffer(dst, out))
  }

  /** Sample i of the output depends on the whole buffer only through its two extrema. */
  lemma ConvertIsBufferGlobal(rescale: Rescaler, c: Conversion, a: Buffer, b: Buffer, i: nat, j: nat)
    requires c != NoConversion && a.elem == b.elem
    requires i < |a.words| && j < |b.words| && a.words[i] == b.words[j]
    requires AbsMin(a.elem, a.words) == AbsMin(b.elem, b.words)
    requires AbsMax(a.elem, a.words) == AbsMax(b.elem, b.words)
    ensures Convert(rescale, c, a).Some? && Convert(rescale, c, b).Some?
    ensures Convert(rescale, c, a).value.words[i] == Convert(rescale, c, b).value.words[j]
  {
  }

  /** The rescaler sees every sample with the extrema of the entire buffer, whatever its position. */
  lemma ConvertSampleUsesWholeBuffer(rescale: Rescaler, c: Conversion, data: Buffer, i: nat)
    requires c != NoConversion && i < |data.words|
    ensures Convert(rescale, c, data).Some?
    ensures
      var dst := Produces(c, data.elem);
      Convert(rescale, c, data).value.words[i] ==
        rescale(data.elem, dst, Amp(c), data.words[i], AbsMin(data.elem, data.words), AbsMax(data.elem, data.words)) % Modulus(dst)
  {
  }
}
