/**
 * The text layout of the DXA formats for int16 samples: every value
 * rendered as Python's `"%d" % v` renders it, the renderings joined by a
 * newline (numpy writes the separator between items, never after the last).
 * Characters are ASCII, so text is held as its bytes.
 */
module DecimalText {
  import opened Wrappers
  import opened Samples

  const Newline: byte := 10
  const Minus: byte := 45
  const Zero: byte := 48

  predicate IsDigit(b: byte) {
    Zero <= b < Zero + 10
  }

  predicate AllDigits(bs: seq<byte>) {
    forall i :: 0 <= i < |bs| ==> IsDigit(bs[i])
  }

  /** The decimal digits of n, most significant first, with no leading zero. */
  function Digits(n: nat): (bs: seq<byte>)
    ensures |bs| >= 1 && AllDigits(bs)
    ensures |bs| > 1 ==> bs[0] != Zero
  {
    if n < 10 then [Zero + n] else Digits(n / 10) + [Zero + n % 10]
  }

  /** The number a string of decimal digits denotes. */
  function DigitsValue(bs: seq<byte>): nat
    requires AllDigits(bs)
  {
    if bs == [] then 0 else DigitsValue(bs[..|bs| - 1]) * 10 + (bs[|bs| - 1] - Zero)
  }

  lemma {:induction false} DigitsRoundTrip(n: nat)
    ensures DigitsValue(Digits(n)) == n
  {
    if n >= 10 {
      DigitsRoundTrip(n / 10);
      var ds := Digits(n);
      assert ds[..|ds| - 1] == Digits(n / 10);
    }
  }

  /** `"%d" % v`: an optional minus sign, then the digits of |v|. */
  function FormatD(v: int): (bs: seq<byte>)
    ensures |bs| >= 1 && NoNewlineBefore(bs, |bs|)
  {
    var bs := if v < 0 then [Minus] + Digits(-v) else Digits(v);
    assert forall i :: 0 <= i < |bs| ==> bs[i] == Minus || IsDigit(bs[i]);
    bs
  }

  /** Reads one token as an optionally negative decimal integer. */
  function ParseD(tok: seq<byte>): (r: Option<int>)
    ensures r.Some? <==> (tok != [] && AllDigits(tok)) || (|tok| > 1 && tok[0] == Minus && AllDigits(tok[1..]))
  {
    if tok != [] && AllDigits(tok) then Some(DigitsValue(tok) as int)
    else if |tok| > 1 && tok[0] == Minus && AllDigits(tok[1..]) then Some(-(DigitsValue(tok[1..]) as int))
    else None
  }

  lemma ParseFormatD(v: int)
    ensures ParseD(FormatD(v)) == Some(v)
  {
    if v < 0 {
      DigitsRoundTrip(-v);
      var bs := FormatD(v);
      assert bs[1..] == Digits(-v);
      assert !IsDigit(bs[0]);
    } else {
      DigitsRoundTrip(v);
    }
  }

  /** `sep.join(lines)` with a newline separator. */
  function Join(lines: seq<seq<byte>>): (bs: seq<byte>)
    ensures lines != [] && lines[0] != [] ==> bs != []
  {
    if lines == [] then []
    else if |lines| == 1 then lines[0]
    else lines[0] + [Newline] + Join(lines[1..])
  }

  /** No byte of bs before position i is a newline. */
  predicate NoNewlineBefore(bs: seq<byte>, i: int) {
    forall k :: 0 <= k < i && k < |bs| ==> bs[k] != Newline
  }

  /** The position of the first newline in bs, or |bs| when there is none. */
  function FirstNewline(bs: seq<byte>): (i: nat)
    ensures i <= |bs|
    ensures i < |bs| ==> bs[i] == Newline
    ensures NoNewlineBefore(bs, i)
  {
    if bs == [] || bs[0] == Newline then 0
    else 1 + FirstNewline(bs[1..])
  }

  /** The newline-separated fields of bs: one more than it has newlines. */
  function Fields(bs: seq<byte>): (fs: seq<seq<byte>>)
    ensures |fs| >= 1
    decreases |bs|
  {
    var i := FirstNewline(bs);
    if i == |bs| then [bs] else [bs[..i]] + Fields(bs[i + 1..])
  }

  /** The lines of a text file; an empty file has none. */
  function Split(bs: seq<byte>): seq<seq<byte>> {
    if bs == [] then [] else Fields(bs)
  }

  predicate IsLine(line: seq<byte>) {
    line != [] && NoNewlineBefore(line, |line|)
  }

  /** Every line is non-empty and holds no newline. */
  predicate AllLines(lines: seq<seq<byte>>) {
    forall k :: 0 <= k < |lines| ==> IsLine(lines[k])
  }

  /** Fields inverts Join for any lines without a newline, empty ones included. */
  lemma {:induction false} FieldsJoin(lines: seq<seq<byte>>)
    requires lines != []
    requires forall k :: 0 <= k < |lines| ==> NoNewlineBefore(lines[k], |lines[k]|)
    ensures Fields(Join(lines)) == lines
  {
    var bs := Join(lines);
    var line := lines[0];
    if |lines| == 1 {
      assert FirstNewline(bs) == |bs|;
    } else {
      assert bs == line + [Newline] + Join(lines[1..]);
      var i := FirstNewline(bs);
      assert bs[|line|] == Newline;
      assert i == |line|;
      assert bs[..i] == line;
      assert bs[i + 1..] == Join(lines[1..]);
      FieldsJoin(lines[1..]);
    }
  }

  /** Splitting the joined lines gives the lines back. */
  lemma SplitJoin(lines: seq<seq<byte>>)
    requires AllLines(lines)
    ensures Split(Join(lines)) == lines
  {
    if lines != [] {
      FieldsJoin(lines);
    }
  }

  /** Joining one more line appends a newline and that line. */
  lemma {:induction false} JoinSnoc(lines: seq<seq<byte>>, last: seq<byte>)
    requires lines != []
    ensures Join(lines + [last]) == Join(lines) + [Newline] + last
  {
    if |lines| > 1 {
      assert (lines + [last])[1..] == lines[1..] + [last];
      JoinSnoc(lines[1..], last);
    }
  }

  /**
   * The numbers of a text file: its newline-separated fields, where a final
   * newline ends the last line instead of starting an empty one.
   */
  function Tokens(bs: seq<byte>): seq<seq<byte>> {
    var ls := Split(bs);
    if ls != [] && ls[|ls| - 1] == [] then ls[..|ls| - 1] else ls
  }

  /** Lines joined by newlines give the lines back as tokens, with or without a final newline. */
  lemma TokensJoin(lines: seq<seq<byte>>)
    requires AllLines(lines)
    ensures Tokens(Join(lines)) == lines
    ensures lines != [] ==> Tokens(Join(lines) + [Newline]) == lines
  {
    SplitJoin(lines);
    if lines != [] {
      var ext := lines + [[]];
      JoinSnoc(lines, []);
      assert Join(ext) == Join(lines) + [Newline];
      assert forall k :: 0 <= k < |ext| ==> NoNewlineBefore(ext[k], |ext[k]|);
      FieldsJoin(ext);
      assert Split(Join(ext)) == ext;
      assert ext[..|ext| - 1] == lines;
    }
  }
}
