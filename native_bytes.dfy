/**
 * The raw binary layout numpy uses for `ndarray.tofile(name)` and
 * `np.fromfile(f, dtype, -1)` with no separator: the elements one after
 * another in the machine's native byte order, with no header, length prefix
 * or padding. The native order is a parameter.
 */
module NativeBytes {
  import opened Samples

  datatype Endian = Little | Big

  /** The k bytes of a word, least significant first (the word is reduced modulo 256^k). */
  function LittleBytes(w: nat, k: nat): (bs: seq<byte>)
    ensures |bs| == k
  {
    if k == 0 then [] else [w % 256] + LittleBytes(w / 256, k - 1)
  }

  /** The word whose little-endian bytes are bs. */
  function LittleWord(bs: seq<byte>): (w: nat)
    ensures w < Pow256(|bs|)
  {
    if bs == [] then 0 else bs[0] + 256 * LittleWord(bs[1..])
  }

  lemma {:induction false} LittleRoundTrip(w: nat, k: nat)
    requires w < Pow256(k)
    ensures LittleWord(LittleBytes(w, k)) == w
  {
    if k > 0 {
      LittleRoundTrip(w / 256, k - 1);
      assert LittleBytes(w, k)[1..] == LittleBytes(w / 256, k - 1);
    }
  }

  function Reverse<T>(s: seq<T>): (r: seq<T>)
    ensures |r| == |s|
    ensures forall i :: 0 <= i < |s| ==> r[i] == s[|s| - 1 - i]
  {
    if s == [] then [] else Reverse(s[1..]) + [s[0]]
  }

  lemma {:induction false} LittleBytesWord(bs: seq<byte>)
    ensures LittleBytes(LittleWord(bs), |bs|) == bs
  {
    if bs != [] {
      var w := LittleWord(bs);
      assert w % 256 == bs[0] && w / 256 == LittleWord(bs[1..]);
      LittleBytesWord(bs[1..]);
      assert bs == [bs[0]] + bs[1..];
    }
  }

  lemma ReverseReverse<T>(s: seq<T>)
    ensures Reverse(Reverse(s)) == s
  {
    assert forall i :: 0 <= i < |s| ==> Reverse(Reverse(s))[i] == s[i];
  }

  /** The k bytes a word occupies in memory in the given byte order. */
  function WordBytes(order: Endian, w: nat, k: nat): (bs: seq<byte>)
    ensures |bs| == k
  {
    match order
    case Little => LittleBytes(w, k)
    case Big => Reverse(LittleBytes(w, k))
  }

  /** The word stored in bs in the given byte order. */
  function BytesWord(order: Endian, bs: seq<byte>): (w: nat)
    ensures w < Pow256(|bs|)
  {
    match order
    case Little => LittleWord(bs)
    case Big => LittleWord(Reverse(bs))
  }

  lemma WordRoundTrip(order: Endian, w: nat, k: nat)
    requires w < Pow256(k)
    ensures BytesWord(order, WordBytes(order, w, k)) == w
  {
    LittleRoundTrip(w, k);
    if order == Big {
      ReverseReverse(LittleBytes(w, k));
    }
  }

  /** The bytes of the word stored in bs are bs itself. */
  lemma BytesWordBytes(order: Endian, bs: seq<byte>)
    ensures WordBytes(order, BytesWord(order, bs), |bs|) == bs
  {
    match order
    case Little => LittleBytesWord(bs);
    case Big =>
      LittleBytesWord(Reverse(bs));
      ReverseReverse(bs);
  }

  /** The bytes `tofile` writes for a sequence of k-byte words. */
  function Encode(order: Endian, ws: seq<nat>, k: nat): (bs: seq<byte>)
    ensures |bs| == |ws| * k
  {
    if ws == [] then []
    else
      var rest := Encode(order, ws[1..], k);
      assert |rest| == (|ws| - 1) * k;
      WordBytes(order, ws[0], k) + rest
  }

  /**
   * The words `fromfile` reads from bs with k-byte elements: as many whole
   * elements as fit, a trailing partial element being dropped.
   */
  function Decode(order: Endian, bs: seq<byte>, k: nat): (ws: seq<nat>)
    requires k > 0
    ensures |ws| == |bs| / k
    ensures forall i :: 0 <= i < |ws| ==> ws[i] < Pow256(k)
    decreases |bs|
  {
    if |bs| < k then []
    else
      var rest := Decode(order, bs[k..], k);
      DivStep(|bs|, k);
      [BytesWord(order, bs[..k])] + rest
  }

  lemma DivStep(n: nat, k: nat)
    requires 0 < k <= n
    ensures (n - k) / k + 1 == n / k
  {
    var q, r := (n - k) / k, (n - k) % k;
    assert n - k == q * k + r && 0 <= r < k;
    assert n == (q + 1) * k + r;
    DivUnique(n, k, q + 1, r);
  }

  lemma DivUnique(n: nat, k: nat, q: int, r: int)
    requires k > 0 && n == q * k + r && 0 <= r < k
    ensures n / k == q
  {
    var q', r' := n / k, n % k;
    assert q' * k + r' == q * k + r;
    if q' > q {
      var d := q' - q;
      assert d * k == q' * k - q * k;
      MulAtLeast(d, k);
    } else if q' < q {
      var d := q - q';
      assert d * k == q * k - q' * k;
      MulAtLeast(d, k);
    }
  }

  lemma {:induction false} MulAtLeast(a: nat, k: nat)
    requires a >= 1
    ensures a * k >= k
  {
    if a > 1 {
      MulAtLeast(a - 1, k);
      assert a * k == (a - 1) * k + k;
    }
  }

  /** Reading back what was written yields the same words. */
  lemma {:induction false} DecodeEncode(order: Endian, ws: seq<nat>, k: nat)
    requires k > 0
    requires forall i :: 0 <= i < |ws| ==> ws[i] < Pow256(k)
    ensures Decode(order, Encode(order, ws, k), k) == ws
  {
    if ws != [] {
      var bs := Encode(order, ws, k);
      assert bs[..k] == WordBytes(order, ws[0], k);
      assert bs[k..] == Encode(order, ws[1..], k);
      WordRoundTrip(order, ws[0], k);
      DecodeEncode(order, ws[1..], k);
    }
  }

  /** The whole elements `fromfile` reads fit in the file. */
  lemma DecodeFits(order: Endian, bs: seq<byte>, k: nat)
    requires k > 0
    ensures |Decode(order, bs, k)| * k <= |bs|
  {
    var n := |bs|;
    assert n == (n / k) * k + n % k;
  }

  /** The first k bytes followed by the next m bytes are the first k + m bytes. */
  lemma PrefixThenNext(bs: seq<byte>, k: nat, m: nat)
    requires k + m <= |bs|
    ensures bs[..k] + bs[k..][..m] == bs[..k + m]
  {
  }

  /**
   * What `fromfile` reads is the file's bytes taken k at a time: writing the
   * words back gives every byte except a trailing partial element.
   */
  lemma {:induction false} EncodeDecode(order: Endian, bs: seq<byte>, k: nat)
    requires k > 0
    ensures |Decode(order, bs, k)| * k <= |bs|
    ensures Encode(order, Decode(order, bs, k), k) == bs[..|Decode(order, bs, k)| * k]
  {
    DecodeFits(order, bs, k);
    if |bs| >= k {
      var ws := Decode(order, bs, k);
      var rest := Decode(order, bs[k..], k);
      assert ws == [BytesWord(order, bs[..k])] + rest;
      assert ws[1..] == rest;
      EncodeDecode(order, bs[k..], k);
      BytesWordBytes(order, bs[..k]);
      assert Encode(order, ws, k) == bs[..k] + bs[k..][..|rest| * k];
      PrefixThenNext(bs, k, |rest| * k);
      assert |ws| * k == |rest| * k + k;
    }
  }
}
