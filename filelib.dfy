/**
 * Format resolution, sample counting, reading and writing of DXX files.
 *
 * The file system is a map from path to contents. What numpy does in
 * floating point, and the machine's native byte order, are gathered in a
 * `Numpy` value that every operation takes.
 */
module Filelib {
  import opened Wrappers
  import opened Samples
  import opened NativeBytes
  import opened DecimalText
  import opened PosixPath
  import opened Conversions

  /** The six formats in declaration order; an IntEnum that `auto()` numbers from 1. */
  datatype Dtype = DSA | DFA | DDA | DSB | DFB | DDB {

    /** The row of the format tables that describes this format. */
    function Index(): (i: nat)
      ensures i < 6
    {
      match this
      case DSA => 0
      case DFA => 1
      case DDA => 2
      case DSB => 3
      case DFB => 4
      case DDB => 5
    }

    /** The IntEnum value. */
    function Value(): int {
      match this
      case DSA => 1
      case DFA => 2
      case DDA => 3
      case DSB => 4
      case DFB => 5
      case DDB => 6
    }

    /** `__str__`: the member's name, which is its file extension without the dot. */
    function Name(): (s: string)
      ensures Exts[Index()] == "." + s
    {
      match this
      case DSA => "DSA"
      case DFA => "DFA"
      case DDA => "DDA"
      case DSB => "DSB"
      case DFB => "DFB"
      case DDB => "DDB"
    }

    /** `byte_width`, as the tests use it; read from the width table. */
    function ByteWidth(): nat {
      DtypeByteWidth[Index()]
    }

    /** `numpy_dtype`, as the tests use it; read from the element-type table. */
    function NumpyDtype(): ElemType {
      Dtypes[Index()]
    }

    /** `is_DXA`, as the tests use it: the text formats. */
    predicate IsDXA() {
      Index() < 3
    }

    /** `is_DXB`, as the tests use it: the binary formats. */
    predicate IsDXB() {
      Index() >= 3
    }

    /**
     * `_format_specifiers`, as the tests use it. The table has a row for
     * each text format only; a binary format takes its text sibling's.
     */
    function FormatSpecifier(): string {
      FormatSpecifiers[Index() % 3]
    }

    /** `from_filename`, as the tests and the converter use it: the format a path resolves to. */
    static function FromFilename(name: string): (r: Result<Dtype, Error>)
      ensures r.Ok? <==> exists d: Dtype :: Ext(name) == "." + d.Name()
      ensures r.Ok? ==> Ext(name) == "." + r.value.Name()
      ensures r.Err? ==> r.error == BadDataStyle(Ext(name))
    {
      match Style(name)
      case Err(e) =>
        forall d: Dtype ensures Ext(name) != "." + d.Name() {
          assert Exts[d.Index()] in Exts;
        }
        Err(e)
      case Ok(index) =>
        var d := DtypeAt(index);
        assert Ext(name) == "." + d.Name();
        Ok(d)
    }

    /** `list_names`, as the tests and the converter use it. */
    static function ListNames(): (names: seq<string>)
      ensures |names| == 6
      ensures forall i :: 0 <= i < 6 ==> Exts[i] == "." + names[i]
    {
      seq(6, i requires 0 <= i < 6 => DtypeAt(i).Name())
    }
  }

  /** The format at row i of the tables. */
  function DtypeAt(i: nat): (d: Dtype)
    requires i < 6
    ensures d.Index() == i
  {
    [DSA, DFA, DDA, DSB, DFB, DDB][i]
  }

  const Exts: seq<string> := [".DSA", ".DFA", ".DDA", ".DSB", ".DFB", ".DDB"]
  const Dtypes: seq<ElemType> := [Int16, Float32, Float64, Int16, Float32, Float64]
  const DtypeByteWidth: seq<nat> := [2, 4, 8, 2, 4, 8]
  const FormatSpecifiers: seq<string> := ["%d", "%e", "%e"]

  /** The invariants the parallel tables keep. */
  lemma TableInvariants()
    ensures |Exts| == |Dtypes| == |DtypeByteWidth| == 6 && |FormatSpecifiers| == 3
    ensures forall i :: 0 <= i < 3 ==> Dtypes[i] == Dtypes[i + 3] && DtypeByteWidth[i] == DtypeByteWidth[i + 3]
    ensures forall i :: 0 <= i < 6 ==> DtypeByteWidth[i] == ElemWidth(Dtypes[i])
    ensures ElemWidth(Int16) == 2 && ElemWidth(Float32) == 4 && ElemWidth(Float64) == 8
    ensures forall i, j :: 0 <= i < 6 && 0 <= j < 6 && Exts[i] == Exts[j] ==> i == j
    ensures forall i :: 0 <= i < 6 ==> IsExtension(Exts[i])
  {
    assert forall i :: 0 <= i < 6 ==> |Exts[i]| == 4 && Exts[i][0] == '.';
    assert forall i :: 0 <= i < 6 ==> Exts[i][1..] == [Exts[i][1], Exts[i][2], Exts[i][3]];
  }

  /** Every format, seen through the accessors, agrees with its row of the tables. */
  lemma DtypeAccessors(d: Dtype)
    ensures DtypeAt(d.Index()) == d
    ensures d.Value() == d.Index() + 1
    ensures d.IsDXA() <==> !d.IsDXB()
    ensures d.ByteWidth() == ElemWidth(d.NumpyDtype())
    ensures d.IsDXA() <==> d.Name()[2] == 'A'
    ensures d.NumpyDtype() == Int16 <==> d.Name()[1] == 'S'
    ensures d.NumpyDtype() == Float32 <==> d.Name()[1] == 'F'
    ensures d.NumpyDtype() == Float64 <==> d.Name()[1] == 'D'
  {
  }

  /** The values test_filelib.py expects of the accessors, bar the one noted in FormatSpecifierAgainstTests. */
  lemma AccessorsAsTested()
    ensures Dtype.ListNames() == ["DSA", "DFA", "DDA", "DSB", "DFB", "DDB"]
    ensures Dtype.FromFilename("mock.DSB") == Ok(DSB)
    ensures [DSA.ByteWidth(), DFA.ByteWidth(), DDA.ByteWidth(), DSB.ByteWidth(), DFB.ByteWidth(), DDB.ByteWidth()] == [2, 4, 8, 2, 4, 8]
    ensures [DSA.NumpyDtype(), DFA.NumpyDtype(), DDA.NumpyDtype()] == [Int16, Float32, Float64]
    ensures [DSB.NumpyDtype(), DFB.NumpyDtype(), DDB.NumpyDtype()] == [Int16, Float32, Float64]
    ensures DSA.IsDXA() && DFA.IsDXA() && DDA.IsDXA() && !DSB.IsDXA() && !DFB.IsDXA() && !DDB.IsDXA()
    ensures !DSA.IsDXB() && !DFA.IsDXB() && !DDA.IsDXB() && DSB.IsDXB() && DFB.IsDXB() && DDB.IsDXB()
    ensures DSA.FormatSpecifier() == "%d" && DFA.FormatSpecifier() == "%e"
    ensures DSB.FormatSpecifier() == "%d" && DFB.FormatSpecifier() == "%e"
  {
    StyleAccepts();
    assert Dtype.ListNames() == [DSA.Name(), DFA.Name(), DDA.Name(), DSB.Name(), DFB.Name(), DDB.Name()];
  }

  /**
   * The conversion character of a printf-style specifier under Python's
   * `%` operator, which accepts a length modifier (h, l or L) and ignores it.
   */
  function PyConversion(spec: string): Option<char> {
    if |spec| == 2 && spec[0] == '%' then Some(spec[1])
    else if |spec| == 3 && spec[0] == '%' && spec[1] in "hlL" then Some(spec[2])
    else None
  }

  /**
   * The tests expect "%le" for DDA and DDB. The table holds "%e" for DDA and
   * has no row for DDB, whose "%e" is this model's choice (its text
   * sibling's). The strings differ, but Python formats a number the same way
   * under both.
   */
  lemma FormatSpecifierAgainstTests()
    ensures DDA.FormatSpecifier() == "%e" && DDB.FormatSpecifier() == "%e"
    ensures DDA.FormatSpecifier() != "%le"
    ensures PyConversion("%le") == PyConversion(DDA.FormatSpecifier()) == Some('e')
    ensures PyConversion(DSA.FormatSpecifier()) == Some('d')
  {
  }

  datatype Error =
    | BadDataStyle(got: string)
    | FileNotFound(path: string)
    | EmptyReduction
    | BadConversion(from: ElemType, to: ElemType)
    | ParseError(token: seq<byte>)

  type FileSystem = map<string, seq<byte>>

  /** What numpy supplies that the model leaves abstract. */
  datatype Numpy = Numpy(
    native: Endian,
    // the rescaling formula in floating point, then the cast to the target type
    rescale: Rescaler,
    // `"%e" % x` for the float stored in a word
    formatE: (ElemType, nat) -> seq<byte>,
    // the word of the float a text token denotes, if it denotes one
    scanE: (ElemType, seq<byte>) -> Option<nat>)

  /** `"%e"` renders every float as a non-empty string without a newline. */
  ghost predicate EFormatIsLine(np: Numpy) {
    forall t, w :: IsLine(np.formatE(t, w))
  }

  /** `list.index`: the first position of x in xs. */
  function IndexOf(xs: seq<string>, x: string): (i: nat)
    requires x in xs
    ensures i < |xs| && xs[i] == x
    ensures forall j :: 0 <= j < i ==> xs[j] != x
  {
    if xs[0] == x then 0
    else 1 + IndexOf(xs[1..], x)
  }

  /** `_style`: the table row of a path's extension, or BadDataStyleError. */
  function Style(name: string): (r: Result<nat, Error>)
    ensures r.Ok? <==> Ext(name) in Exts
    ensures r.Ok? ==> r.value < 6 && Exts[r.value] == Ext(name)
    ensures r.Err? ==> r.error == BadDataStyle(Ext(name))
  {
    var ext := Ext(name);
    if ext !in Exts then Err(BadDataStyle(ext))
    else Ok(IndexOf(Exts, ext))
  }

  /** A path resolves to a format exactly when its final component is a stem followed by that format's extension. */
  lemma {:induction false} StyleOfStem(root: string, d: Dtype)
    requires HasStem(root)
    ensures Style(root + Exts[d.Index()]) == Ok(d.Index())
  {
    TableInvariants();
    ExtOfStemAndExtension(root, Exts[d.Index()]);
  }

  lemma StyleResolvesOnlyExtensions(name: string, i: nat)
    requires Style(name) == Ok(i)
    ensures |Exts[i]| <= |name| && name == name[..|name| - |Exts[i]|] + Exts[i]
    ensures HasStem(name[..|name| - |Exts[i]|])
  {
    ExtCharacterisation(name, Exts[i]);
  }

  /** A path whose extension is row i's resolves to row i. */
  lemma StyleOfExtension(name: string, i: nat)
    requires i < 6 && Ext(name) == Exts[i]
    ensures Style(name) == Ok(i)
  {
    TableInvariants();
  }

  /** Every extension in the table is a dot, a capital D and two more letters. */
  lemma ExtsShape()
    ensures forall i :: 0 <= i < 6 ==> |Exts[i]| == 4 && Exts[i][0] == '.' && Exts[i][1] == 'D'
  {
  }

  /** Resolution of the name the tests use. */
  lemma StyleAccepts()
    ensures Style("mock.DSB") == Ok(3)
  {
    var root, e := "mock", ".DSB";
    assert Ext(root + e) == e by {
      PlainNameHasStem(root);
      ExtOfStemAndExtension(root, e);
    }
    assert root + e == "mock.DSB";
    StyleOfExtension("mock.DSB", 3);
  }

  /** Resolution is case-sensitive: a lower-case extension is rejected after any stem. */
  lemma StyleRejectsLowerCase(root: string)
    requires HasStem(root)
    ensures Style(root + ".dsb") == Err(BadDataStyle(".dsb"))
  {
    ExtOfStemAndExtension(root, ".dsb");
    ExtsShape();
    assert ".dsb"[1] == 'd';
  }

  /** A name without a dot has no extension, so it is rejected. */
  lemma StyleRejectsNoExtension(name: string)
    requires Lacks(name, '.')
    ensures Style(name) == Err(BadDataStyle(""))
  {
    NoDotNoExt(name);
    ExtsShape();
  }

  /** A dotfile such as ".DSB" has no extension: `splitext` skips the leading dots of the final component. */
  lemma StyleRejectsDotfile(e: string)
    requires IsExtension(e)
    ensures Style(e) == Err(BadDataStyle(""))
  {
    DotfileNoExt(e);
    ExtsShape();
  }

  /** A dot in a directory name does not start an extension, so a dot-free file under it is rejected. */
  lemma StyleRejectsDotInDirectory(dir: string, name: string)
    requires Lacks(name, '.') && Lacks(name, '/')
    ensures Style(dir + "/" + name) == Err(BadDataStyle(""))
  {
    DotInDirectoryNoExt(dir, name);
    ExtsShape();
  }

  /**
   * `len_file`: the file's size in bytes over the format's byte width,
   * truncated. The extension is checked before the file is looked at.
   */
  function LenFile(fs: FileSystem, filename: string): (r: Result<nat, Error>)
    ensures Style(filename).Err? ==> r == Err(BadDataStyle(Ext(filename)))
    ensures Style(filename).Ok? && filename !in fs ==> r == Err(FileNotFound(filename))
    ensures r.Ok? <==> Style(filename).Ok? && filename in fs
    ensures r.Ok? ==> IsTruncatedQuotient(r.value, |fs[filename]|, DtypeByteWidth[Style(filename).value])
  {
    var index :- Style(filename);
    if filename !in fs then Err(FileNotFound(filename))
    else
      var size, w := |fs[filename]|, DtypeByteWidth[index];
      ByteWidthPositive(index);
      TruncatedQuotient(size, w);
      Ok(size / w)
  }

  lemma ByteWidthPositive(i: nat)
    requires i < 6
    ensures DtypeByteWidth[i] > 0
  {
  }

  /** q is n over w rounded toward zero: q whole w-byte elements fit in n bytes, q + 1 do not. */
  predicate IsTruncatedQuotient(q: int, n: int, w: int) {
    q * w <= n < (q + 1) * w
  }

  lemma TruncatedQuotient(n: nat, w: nat)
    requires w > 0
    ensures IsTruncatedQuotient(n / w, n, w)
  {
    var q, r := n / w, n % w;
    assert n == q * w + r;
    assert (q + 1) * w == q * w + w;
  }

  /**
   * `read`. Both branches call `np.fromfile(f, dtype, -1)` with no
   * separator, which reads the file as raw binary even when it was opened
   * in text mode.
   */
  function Read(np: Numpy, fs: FileSystem, filename: string): (r: Result<Buffer, Error>)
    ensures r.Err? <==> LenFile(fs, filename).Err?
    ensures r.Err? ==> r.error == LenFile(fs, filename).error
    ensures r.Ok? ==> r.value.elem == Dtypes[Style(filename).value] && WellFormed(r.value)
    ensures r.Ok? ==> |r.value.words| == LenFile(fs, filename).value
  {
    var index :- Style(filename);
    if filename !in fs then Err(FileNotFound(filename))
    else
      var content := fs[filename];
      TableInvariants();
      if index < 3 then
        Ok(Buffer(Dtypes[index], Decode(np.native, content, DtypeByteWidth[index])))
      else
        Ok(Buffer(Dtypes[index], Decode(np.native, content, DtypeByteWidth[index])))
  }

  /** One sample as text: `"%d" % v` for int16, `"%e" % x` for a float. */
  function Render(np: Numpy, spec: string, elem: ElemType, w: nat): (s: seq<byte>)
    requires spec == "%d" <==> elem == Int16
    ensures spec == "%d" ==> IsLine(s) && ParseD(s) == Some(Signed16(w % 0x1_0000))
  {
    if spec == "%d" then
      ParseFormatD(Signed16(w % 0x1_0000));
      FormatD(Signed16(w % 0x1_0000))
    else np.formatE(elem, w)
  }

  /** The rendering of each sample, in order. */
  function Renderings(np: Numpy, spec: string, data: Buffer): (lines: seq<seq<byte>>)
    requires spec == "%d" <==> data.elem == Int16
    ensures |lines| == |data.words|
    ensures spec == "%d" ==> AllLines(lines)
  {
    var ws := data.words;
    seq(|ws|, i requires 0 <= i < |ws| => Render(np, spec, data.elem, ws[i]))
  }

  /** `tofile(name, sep="\n", format=spec)`: the renderings joined by newlines. */
  function TextBytes(np: Numpy, spec: string, data: Buffer): (bs: seq<byte>)
    requires spec == "%d" <==> data.elem == Int16
    ensures AllLines(Renderings(np, spec, data)) ==>
      Split(bs) == Renderings(np, spec, data) && Tokens(bs) == Renderings(np, spec, data)
  {
    var lines := Renderings(np, spec, data);
    if AllLines(lines) then
      SplitJoin(lines);
      TokensJoin(lines);
      Join(lines)
    else Join(lines)
  }

  /** The contents `write` leaves for row index: text for the first three rows, raw elements for the rest. */
  function Serialise(np: Numpy, index: nat, data: Buffer): (bs: seq<byte>)
    requires index < 6
    requires index < 3 ==> (FormatSpecifiers[index] == "%d" <==> data.elem == Int16)
    ensures index >= 3 ==> |bs| == |data.words| * ElemWidth(data.elem)
    ensures index < 3 && AllLines(Renderings(np, FormatSpecifiers[index], data)) ==>
      Split(bs) == Renderings(np, FormatSpecifiers[index], data)
      && Tokens(bs) == Renderings(np, FormatSpecifiers[index], data)
  {
    if index < 3 then TextBytes(np, FormatSpecifiers[index], data)
    else Encode(np.native, data.words, ElemWidth(data.elem))
  }

  /**
   * `write`: converts the data if the (data type, file type) pair has a
   * conversion, then serialises it. Every other pair is written unchanged:
   * the exception of the final else branch is built but never raised.
   */
  function Write(np: Numpy, fs: FileSystem, filename: string, data: Buffer): (r: Result<FileSystem, Error>)
    ensures r.Err? <==>
      Style(filename).Err? || (Dispatch(data.elem, Dtypes[Style(filename).value]) != NoConversion && data.words == [])
    ensures r.Err? ==> r.error == if Style(filename).Err? then BadDataStyle(Ext(filename)) else EmptyReduction
    ensures r.Ok? ==> r.value.Keys == fs.Keys + {filename}
    ensures r.Ok? ==> forall f :: f in fs && f != filename ==> r.value[f] == fs[f]
  {
    var index :- Style(filename);
    var conversion := Dispatch(data.elem, Dtypes[index]);
    match Convert(np.rescale, conversion, data)
    case None => Err(EmptyReduction)
    case Some(out) =>
      Ok(fs[filename := Serialise(np, index, out)])
  }

  /** The data `write` serialises: the input after its conversion. */
  function Converted(np: Numpy, index: nat, data: Buffer): Option<Buffer>
    requires index < 6
  {
    Convert(np.rescale, Dispatch(data.elem, Dtypes[index]), data)
  }

  /** What `write` leaves in a text file: the rendering of each converted sample on a line of its own. */
  lemma TextFileContent(np: Numpy, fs: FileSystem, filename: string, data: Buffer)
    requires Write(np, fs, filename, data).Ok?
    requires Style(filename).value < 3
    requires EFormatIsLine(np)
    ensures Converted(np, Style(filename).value, data).Some?
    ensures
      var index := Style(filename).value;
      var out := Converted(np, index, data).value;
      var content := Write(np, fs, filename, data).value[filename];
      && (FormatSpecifiers[index] == "%d" <==> out.elem == Int16)
      && Split(content) == Renderings(np, FormatSpecifiers[index], out)
      && Tokens(content) == Renderings(np, FormatSpecifiers[index], out)
      && |Split(content)| == |data.words|
  {
    var index := Style(filename).value;
    var out := Converted(np, index, data).value;
    var spec := FormatSpecifiers[index];
    var lines := Renderings(np, spec, out);
    forall k | 0 <= k < |lines| ensures IsLine(lines[k]) {
      if spec != "%d" {
        assert lines[k] == np.formatE(out.elem, out.words[k]);
      }
    }
    assert Write(np, fs, filename, data).value[filename] == Serialise(np, index, out);
  }

  /**
   * Both branches of `read` take the file's bytes as raw elements: the
   * words read, laid out again, are the file's bytes up to a trailing
   * partial element.
   */
  lemma ReadIsRawElements(np: Numpy, fs: FileSystem, filename: string)
    requires Read(np, fs, filename).Ok?
    ensures
      var ws, w := Read(np, fs, filename).value.words, DtypeByteWidth[Style(filename).value];
      |ws| * w <= |fs[filename]| && Encode(np.native, ws, w) == fs[filename][..|ws| * w]
  {
    var w := DtypeByteWidth[Style(filename).value];
    ByteWidthPositive(Style(filename).value);
    assert Read(np, fs, filename).value.words == Decode(np.native, fs[filename], w);
    EncodeDecode(np.native, fs[filename], w);
  }

  /** A binary file holds n elements of the written data's width, with nothing else. */
  lemma BinaryFileSize(np: Numpy, fs: FileSystem, filename: string, data: Buffer)
    requires Write(np, fs, filename, data).Ok?
    requires Style(filename).value >= 3
    ensures
      var out := Converted(np, Style(filename).value, data).value;
      |Write(np, fs, filename, data).value[filename]| == |data.words| * ElemWidth(out.elem)
  {
  }

  /**
   * Reading a binary file back yields the written (converted) samples
   * whenever the data reaching the file has the file's element type, and
   * `len_file` then counts them.
   */
  lemma BinaryReadBack(np: Numpy, fs: FileSystem, filename: string, data: Buffer)
    requires Write(np, fs, filename, data).Ok?
    requires Style(filename).value >= 3
    requires Produces(Dispatch(data.elem, Dtypes[Style(filename).value]), data.elem) == Dtypes[Style(filename).value]
    requires WellFormed(data)
    ensures
      var fs' := Write(np, fs, filename, data).value;
      && Read(np, fs', filename) == Ok(Converted(np, Style(filename).value, data).value)
      && LenFile(fs', filename) == Ok(|data.words|)
  {
    var index := Style(filename).value;
    var out := Converted(np, index, data).value;
    var fs' := Write(np, fs, filename, data).value;
    BinaryFileContent(np, fs, filename, data);
    assert WellFormed(out) && out.elem == Dtypes[index];
    ReadEncoded(np, fs', filename, out);
  }

  /**
   * A file holding the raw words of a buffer of its type reads back as that
   * buffer: a binary file by design, a text file because `read` decodes it
   * the same way.
   */
  lemma ReadEncoded(np: Numpy, fs: FileSystem, filename: string, b: Buffer)
    requires Style(filename).Ok?
    requires b.elem == Dtypes[Style(filename).value] && WellFormed(b)
    requires filename in fs && fs[filename] == Encode(np.native, b.words, ElemWidth(b.elem))
    ensures Read(np, fs, filename) == Ok(b)
    ensures LenFile(fs, filename) == Ok(|b.words|)
  {
    var index, k := Style(filename).value, ElemWidth(b.elem);
    assert DtypeByteWidth[index] == k by {
      TableInvariants();
    }
    DecodeEncode(np.native, b.words, k);
  }

  /** What `write` leaves in a binary file: the converted words, one after another. */
  lemma BinaryFileContent(np: Numpy, fs: FileSystem, filename: string, data: Buffer)
    requires Write(np, fs, filename, data).Ok?
    requires Style(filename).value >= 3
    ensures Converted(np, Style(filename).value, data).Some?
    ensures
      var out := Converted(np, Style(filename).value, data).value;
      Write(np, fs, filename, data).value[filename] == Encode(np.native, out.words, ElemWidth(out.elem))
  {
  }

  /** The DSB round trip: int16 samples written to a .DSB file read back unchanged. */
  lemma BinaryRoundTrip(np: Numpy, fs: FileSystem, filename: string, data: Buffer)
    requires Style(filename).Ok? && Style(filename).value >= 3
    requires data.elem == Dtypes[Style(filename).value] && WellFormed(data)
    ensures Write(np, fs, filename, data).Ok?
    ensures Read(np, Write(np, fs, filename, data).value, filename) == Ok(data)
    ensures LenFile(Write(np, fs, filename, data).value, filename) == Ok(|data.words|)
  {
    BinaryReadBack(np, fs, filename, data);
  }

  /** The test fixture: 5 s of 48 kHz int16 samples from `np.arange` (wrapping at 2^16) written to mock.DSB. */
  lemma MockDataFile(np: Numpy, fs: FileSystem)
    ensures
      var data := Buffer(Int16, seq(5 * 48000, i => i % 0x1_0000));
      && Write(np, fs, "mock.DSB", data).Ok?
      && LenFile(Write(np, fs, "mock.DSB", data).value, "mock.DSB") == Ok(240000)
      && Read(np, Write(np, fs, "mock.DSB", data).value, "mock.DSB") == Ok(data)
  {
    StyleAccepts();
    var data := Buffer(Int16, seq(5 * 48000, i => i % 0x1_0000));
    BinaryRoundTrip(np, fs, "mock.DSB", data);
  }

  // ---------------------------------------------------------------------
  // The text branch of `read` reads the file's raw bytes, not one number per line.

  /** [1, 2] written to any .DSA file is the text "1\n2"; `read` returns one sample of it, not two. */
  lemma TextReadAsWrittenLosesSamples(np: Numpy, fs: FileSystem, filename: string)
    requires Style(filename) == Ok(0)
    ensures Write(np, fs, filename, Buffer(Int16, [1, 2])).Ok?
    ensures
      var fs' := Write(np, fs, filename, Buffer(Int16, [1, 2])).value;
      && fs'[filename] == [49, 10, 50]
      && Read(np, fs', filename).Ok?
      && |Read(np, fs', filename).value.words| == 1
      && Read(np, fs', filename).value.words == [BytesWord(np.native, [49, 10])]
    ensures
      var fs' := Write(np, fs, filename, Buffer(Int16, [1, 2])).value;
      ReadFixed(np, fs', filename) == Ok(Buffer(Int16, [1, 2]))
  {
    var data := Buffer(Int16, [1, 2]);
    var content := Serialise(np, 0, data);
    assert Write(np, fs, filename, data) == Ok(fs[filename := content]);
    TwoSamplesAsText(np);
    TextRoundTrip(np, fs, filename, [1, 2]);
    RawReadOfThreeBytes(np, fs[filename := content], filename);
    assert content[..2] == [49, 10];
  }

  /** `read` of a three-byte DSA file: one int16 element, the first two bytes. */
  lemma RawReadOfThreeBytes(np: Numpy, fs: FileSystem, filename: string)
    requires Style(filename) == Ok(0) && filename in fs && |fs[filename]| == 3
    ensures Read(np, fs, filename) == Ok(Buffer(Int16, [BytesWord(np.native, fs[filename][..2])]))
  {
    var bs := fs[filename];
    assert Dtypes[0] == Int16 && DtypeByteWidth[0] == 2;
    assert Read(np, fs, filename) == Ok(Buffer(Int16, Decode(np.native, bs, 2)));
    assert Decode(np.native, bs[2..], 2) == [];
    var w := BytesWord(np.native, bs[..2]);
    assert Decode(np.native, bs, 2) == [w] + Decode(np.native, bs[2..], 2) == [w];
  }

  /** The text `write` produces for the samples 1 and 2: "1\n2". */
  lemma TwoSamplesAsText(np: Numpy)
    ensures Serialise(np, 0, Buffer(Int16, [1, 2])) == [49, 10, 50]
  {
    var lines := seq(2, i requires 0 <= i < 2 => Render(np, "%d", Int16, [1, 2][i]));
    assert lines == [[49], [50]];
    assert Join(lines) == [49] + [Newline] + Join([[50]]);
  }

  /** One token of a text file as a word of type t, or ParseError. */
  function ParseToken(np: Numpy, t: ElemType, tok: seq<byte>): (r: Result<nat, Error>)
    ensures r.Ok? ==> r.value < Modulus(t)
    ensures r.Err? ==> r.error == ParseError(tok)
    ensures t == Int16 ==> (r.Ok? <==> ParseD(tok).Some? && -0x8000 <= ParseD(tok).value < 0x8000)
    ensures t == Int16 && r.Ok? ==> Signed16(r.value) == ParseD(tok).value
    ensures t != Int16 ==> (r.Ok? <==> np.scanE(t, tok).Some? && np.scanE(t, tok).value < Modulus(t))
    ensures t != Int16 && r.Ok? ==> r.value == np.scanE(t, tok).value
  {
    if t == Int16 then
      match ParseD(tok)
      case Some(v) => if -0x8000 <= v < 0x8000 then Ok(Word16(v)) else Err(ParseError(tok))
      case None => Err(ParseError(tok))
    else
      match np.scanE(t, tok)
      case Some(w) => if w < Modulus(t) then Ok(w) else Err(ParseError(tok))
      case None => Err(ParseError(tok))
  }

  /** Parses every line, failing at the first malformed one. */
  function ParseLines(np: Numpy, t: ElemType, lines: seq<seq<byte>>): (r: Result<seq<nat>, Error>)
    ensures r.Ok? <==> forall i :: 0 <= i < |lines| ==> ParseToken(np, t, lines[i]).Ok?
    ensures r.Ok? ==> |r.value| == |lines|
    ensures r.Ok? ==> forall i :: 0 <= i < |lines| ==> r.value[i] == ParseToken(np, t, lines[i]).value
    ensures r.Ok? ==> forall i :: 0 <= i < |lines| ==> r.value[i] < Modulus(t)
    ensures r.Err? ==> exists i :: 0 <= i < |lines| && r.error == ParseError(lines[i])
  {
    if lines == [] then Ok([])
    else
      var w :- ParseToken(np, t, lines[0]);
      var rest :- ParseLines(np, t, lines[1..]);
      assert forall i :: 1 <= i < |lines| ==> lines[i] == lines[1..][i - 1];
      Ok([w] + rest)
  }

  /**
   * `read` as the text branch evidently means it: one sample per line, a
   * final newline ending the last line.
   */
  function ReadFixed(np: Numpy, fs: FileSystem, filename: string): (r: Result<Buffer, Error>)
    ensures Style(filename).Err? ==> r == Err(BadDataStyle(Ext(filename)))
    ensures Style(filename).Ok? && filename !in fs ==> r == Err(FileNotFound(filename))
    ensures r.Ok? ==> r.value.elem == Dtypes[Style(filename).value] && WellFormed(r.value)
    ensures r.Ok? && Style(filename).value < 3 ==> |r.value.words| == |Tokens(fs[filename])|
    ensures Style(filename).Ok? && Style(filename).value < 3 && filename in fs ==>
      var p := ParseLines(np, Dtypes[Style(filename).value], Tokens(fs[filename]));
      && (r.Ok? <==> p.Ok?)
      && (r.Ok? ==> r.value.words == p.value)
      && (r.Err? ==> r.error == p.error)
    ensures Style(filename).Ok? && Style(filename).value >= 3 ==> r == Read(np, fs, filename)
  {
    var index :- Style(filename);
    if filename !in fs then Err(FileNotFound(filename))
    else
      var content := fs[filename];
      TableInvariants();
      if index < 3 then
        var words :- ParseLines(np, Dtypes[index], Tokens(content));
        Ok(Buffer(Dtypes[index], words))
      else
        Ok(Buffer(Dtypes[index], Decode(np.native, content, DtypeByteWidth[index])))
  }

  /** The lines `%d` renders for int16 words. */
  function DecimalLines(ws: seq<nat>): (lines: seq<seq<byte>>)
    requires forall i :: 0 <= i < |ws| ==> ws[i] < 0x1_0000
    ensures |lines| == |ws| && forall k :: 0 <= k < |lines| ==> IsLine(lines[k])
  {
    seq(|ws|, i requires 0 <= i < |ws| => FormatD(Signed16(ws[i])))
  }

  /** The `"%d"` rendering of an int16 word parses back to that word. */
  lemma ParseDecimalToken(np: Numpy, w: nat)
    requires w < 0x1_0000
    ensures ParseToken(np, Int16, FormatD(Signed16(w))) == Ok(w)
  {
    ParseFormatD(Signed16(w));
  }

  lemma {:induction false} ParseDecimalLines(np: Numpy, ws: seq<nat>)
    requires forall i :: 0 <= i < |ws| ==> ws[i] < 0x1_0000
    ensures ParseLines(np, Int16, DecimalLines(ws)) == Ok(ws)
  {
    if ws != [] {
      var lines := DecimalLines(ws);
      ParseDecimalToken(np, ws[0]);
      assert lines[1..] == DecimalLines(ws[1..]);
      ParseDecimalLines(np, ws[1..]);
      ParseLinesCons(np, Int16, lines, ws[0], ws[1..]);
      assert ws == [ws[0]] + ws[1..];
    }
  }

  /** A first line that parses, followed by lines that parse, parse together. */
  lemma ParseLinesCons(np: Numpy, t: ElemType, lines: seq<seq<byte>>, w: nat, rest: seq<nat>)
    requires lines != []
    requires ParseToken(np, t, lines[0]) == Ok(w) && ParseLines(np, t, lines[1..]) == Ok(rest)
    ensures ParseLines(np, t, lines) == Ok([w] + rest)
  {
  }

  /** The DSA round trip: int16 samples written as text read back unchanged, one line each. */
  lemma TextRoundTrip(np: Numpy, fs: FileSystem, filename: string, ws: seq<nat>)
    requires Style(filename) == Ok(0)
    requires WellFormed(Buffer(Int16, ws))
    ensures WriteChecked(np, fs, filename, Buffer(Int16, ws)).Ok?
    ensures
      var fs' := WriteChecked(np, fs, filename, Buffer(Int16, ws)).value;
      && |Split(fs'[filename])| == |ws|
      && ReadFixed(np, fs', filename) == Ok(Buffer(Int16, ws))
  {
    var data := Buffer(Int16, ws);
    assert Dtypes[0] == Int16;
    assert WriteChecked(np, fs, filename, data) == Write(np, fs, filename, data);
    var content := Serialise(np, 0, data);
    assert Write(np, fs, filename, data) == Ok(fs[filename := content]);
    var fs' := fs[filename := content];
    var lines := seq(|ws|, i requires 0 <= i < |ws| => Render(np, "%d", Int16, ws[i]));
    assert forall i :: 0 <= i < |ws| ==> ws[i] % 0x1_0000 == ws[i];
    assert forall i :: 0 <= i < |ws| ==> lines[i] == DecimalLines(ws)[i];
    assert lines == DecimalLines(ws);
    assert content == Join(DecimalLines(ws));
    SplitJoin(DecimalLines(ws));
    TokensJoin(DecimalLines(ws));
    ParseDecimalLines(np, ws);
    assert fs'[filename] == content;
    assert ReadFixed(np, fs', filename) == Ok(Buffer(Int16, ws));
  }

  /** A DSA file whose last line ends in a newline reads the same: that newline starts no empty sample. */
  lemma TrailingNewlineAccepted(np: Numpy, fs: FileSystem, filename: string, ws: seq<nat>)
    requires Style(filename) == Ok(0)
    requires ws != [] && WellFormed(Buffer(Int16, ws))
    ensures ReadFixed(np, fs[filename := Join(DecimalLines(ws)) + [Newline]], filename) == Ok(Buffer(Int16, ws))
  {
    TokensJoin(DecimalLines(ws));
    ParseDecimalLines(np, ws);
  }

  // ---------------------------------------------------------------------
  // `write` builds the exception for a pair it cannot convert but does not raise it.

  /** Two float32 samples written to any .DDB file keep their 4-byte width; `len_file` then counts one. */
  lemma MismatchedWidthAsWritten(np: Numpy, fs: FileSystem, filename: string)
    requires Style(filename) == Ok(5)
    ensures Write(np, fs, filename, Buffer(Float32, [0, 0])).Ok?
    ensures
      var fs' := Write(np, fs, filename, Buffer(Float32, [0, 0])).value;
      && |fs'[filename]| == 8
      && LenFile(fs', filename) == Ok(1)
    ensures WriteChecked(np, fs, filename, Buffer(Float32, [0, 0])) == Err(BadConversion(Float32, Float64))
  {
    var data := Buffer(Float32, [0, 0]);
    assert Dispatch(Float32, Float64) == NoConversion;
    var content := Serialise(np, 5, data);
    assert Write(np, fs, filename, data) == Ok(fs[filename := content]);
    assert |content| == 2 * 4;
  }

  /**
   * `write` refusing the pairs it cannot convert. A file's dtype is what
   * `read` decodes it as (a .DDB file is read as float64), so data of
   * another type must not be written to it unconverted. Same-type data is
   * still written as is.
   */
  function WriteChecked(np: Numpy, fs: FileSystem, filename: string, data: Buffer): (r: Result<FileSystem, Error>)
    ensures r.Ok? ==> r == Write(np, fs, filename, data)
    ensures r.Err? && Write(np, fs, filename, data).Ok? ==> r.error == BadConversion(data.elem, Dtypes[Style(filename).value])
    ensures r.Ok? ==> Produces(Dispatch(data.elem, Dtypes[Style(filename).value]), data.elem) == Dtypes[Style(filename).value]
    ensures Style(filename).Err? ==> r == Err(BadDataStyle(Ext(filename)))
    ensures Style(filename).Ok? ==>
      var target := Dtypes[Style(filename).value];
      r == if Produces(Dispatch(data.elem, target), data.elem) == target then Write(np, fs, filename, data)
           else Err(BadConversion(data.elem, target))
  {
    var index :- Style(filename);
    var target := Dtypes[index];
    DispatchReachesTarget(data.elem, target);
    if data.elem != target && Dispatch(data.elem, target) == NoConversion then Err(BadConversion(data.elem, target))
    else Write(np, fs, filename, data)
  }

  /** With the check in place, every binary file written holds as many samples as the buffer, of the file's type. */
  lemma WriteCheckedKeepsSampleCount(np: Numpy, fs: FileSystem, filename: string, data: Buffer)
    requires WriteChecked(np, fs, filename, data).Ok?
    requires Style(filename).value >= 3 && WellFormed(data)
    ensures
      var fs' := WriteChecked(np, fs, filename, data).value;
      && LenFile(fs', filename) == Ok(|data.words|)
      && Read(np, fs', filename).Ok?
      && Read(np, fs', filename).value.elem == Dtypes[Style(filename).value]
      && |Read(np, fs', filename).value.words| == |data.words|
  {
    BinaryReadBack(np, fs, filename, data);
  }
}
