# DXX file library — a Dafny model

This project models `dxx/filelib.py` from dxx-py. That module reads and writes
the six DXX raw audio sample formats. Each format is named by a three-letter
extension:

- the second letter gives the element type: `S` for int16, `F` for float32, `D` for float64;
- the third letter gives the encoding: `A` for ASCII text with one sample per line, `B` for raw binary.

The model covers:

- the `Dtype` enumeration and the four parallel format tables (`exts`, `dtypes`, `dtype_byte_width`, `_format_specifiers`);
- extension resolution (`_style`), built on a model of the POSIX `os.path.splitext`;
- the sample count (`len_file`);
- `read` and `write`, including the choice of rescaling conversion;
- the whole-buffer absolute-value extrema that every conversion starts from.

Everything is pure. The file system is a `map` from path to byte contents. A
sample buffer is an element-type tag plus the raw words the samples occupy in
memory: the two's-complement pattern for int16 and the IEEE 754 pattern for
the floats. With that representation the binary layout that numpy's
`tofile`/`fromfile` use is exact, without any floating-point arithmetic. What
numpy computes in floating point is gathered in a `Numpy` parameter record:

- the machine's native byte order;
- the rescaling formula and the cast that follows it;
- `"%e"` rendering and parsing of floats.

Modules, in dependency order:

- `Wrappers` holds `Option` and `Result`.
- `Samples` holds element types, buffers, int16 two's complement and sample magnitudes.
- `NativeBytes` holds the raw element layout and its round trip.
- `DecimalText` holds `"%d"` rendering and parsing, plus newline join and split.
- `PosixPath` holds `rfind` and `splitext`.
- `Conversions` holds the `write` dispatch, the abs-extrema and buffer-global conversion.
- `Filelib` holds `Dtype`, the tables, `_style`, `len_file`, `read` and `write`, plus the corrected variants described under Findings.

Where the code's behaviour differs from what its tests, comments or messages
suggest, the model follows the code:

- `read` does not parse text files (Finding 1).
- `write` does not fail for a float32/float64 pair (Finding 2).
- The format-specifier table holds `"%e"` for DDA, where the tests expect `"%le"`.
- None of the three conversions guards against a zero range (`max_abs == min_abs`). The model passes that case on to the rescaler unchanged. `Conversions.ZeroRangeIffConstantMagnitude` states exactly when it occurs.

The `Dtype` accessors `from_filename`, `list_names`, `byte_width`,
`numpy_dtype`, `is_DXA`, `is_DXB` and `_format_specifiers` are used by
`tests/test_filelib.py` and `dxx/dxxconv.py:28-31`. The `Dtype` class in
`dxx/filelib.py:9-18` defines only `__str__`. The model therefore gives these
accessors definitions derived from the tables at `dxx/filelib.py:21-24` and
treats them as implied by the tests (rows marked "test-implied" below).
`_format_specifiers` has rows for the three text formats only, yet the tests
ask the binary formats for a specifier too. The model gives each binary format
its text sibling's specifier (`Index() % 3`). That choice is the model's own;
in the source, indexing the table with a binary row would raise `IndexError`.
`write` never does that, because it reads the table only for text rows.

## Model

| member | source | states |
|---|---|---|
| `Filelib.Dtype.Name` | dxx/filelib.py:17-18 | `__str__` is the member name, and the extension table's row for the member is that name with a leading dot |
| `Filelib.TableInvariants` | dxx/filelib.py:21-24 | the four tables have 6, 6, 6 and 3 rows; rows i and i+3 share dtype and byte width; each row's width is its dtype's itemsize (2, 4, 8); the six extensions are distinct and each is a well-formed extension |
| `Filelib.DtypeAccessors` | tests/test_filelib.py:13-81 | test-implied: every member maps to its own table row; the IntEnum value is row + 1; DXA and DXB partition the members; byte width equals the dtype's itemsize; DXA iff the name ends in `A`; the dtype follows the name's second letter |
| `Filelib.AccessorsAsTested` | tests/test_filelib.py:6-95 | test-implied: `list_names`, `from_filename("mock.DSB")`, byte widths, numpy dtypes, `is_DXA`/`is_DXB` and the `%d`/`%e` specifiers take the values the tests expect |
| `Filelib.FormatSpecifierAgainstTests` | tests/test_filelib.py:27-39 | test-implied: the three-row table gives `"%e"` for DDA where the test expects `"%le"`, and the model's choice for DDB (its text sibling's specifier) inherits that; the strings differ, but Python's `%` operator reads both as conversion `e` |
| `Filelib.Dtype.FromFilename` | tests/test_filelib.py:6-8 | test-implied: succeeds iff the path's extension is `"."` plus some member's name, returns that member, and otherwise fails with the bad extension |
| `Filelib.Dtype.ListNames` | tests/test_filelib.py:10-11 | test-implied: six names in declaration order, each the extension table's entry without its dot |
| `Filelib.IndexOf` | dxx/filelib.py:39 | `list.index` returns the first position holding the value |
| `PosixPath.RFind` | dxx/filelib.py:34 | the result is the position of the last occurrence of the character, or -1 when it does not occur |
| `PosixPath.SplitExt` | dxx/filelib.py:34 | `splitext` splits the path into root + extension, and the extension is empty or a dot followed by no dot and no separator |
| `PosixPath.ExtCharacterisation` | dxx/filelib.py:34 | the extension equals a non-empty e iff e is a well-formed extension, the path ends in e, and what precedes e has a final component that is not all dots |
| `Filelib.Style` | dxx/filelib.py:32-39 | `_style` succeeds iff the path's `splitext` extension is in `exts`; on success it returns the row (< 6) holding exactly that extension, leading dot included and case-sensitive; otherwise it fails with `BadDataStyleError` carrying the extension |
| `Filelib.StyleOfStem` | dxx/filelib.py:32-39 | any stem followed by a format's extension resolves to that format's row |
| `Filelib.StyleResolvesOnlyExtensions` | dxx/filelib.py:32-39 | a resolved path is a stem whose final component is not all dots, followed by the row's extension |
| `Filelib.StyleAccepts` | tests/test_filelib.py:6-8 | `"mock.DSB"` resolves to the DSB row (3) |
| `Filelib.StyleOfExtension` | dxx/filelib.py:34-39 | a path whose `splitext` extension is row i's extension resolves to row i |
| `Filelib.StyleRejectsLowerCase` | dxx/filelib.py:36-37 | after any stem, the lower-case `.dsb` is rejected, reporting `.dsb`: matching is case-sensitive |
| `Filelib.StyleRejectsNoExtension` | dxx/filelib.py:34-37 | any name with no dot is rejected, reporting the empty extension |
| `Filelib.StyleRejectsDotfile` | dxx/filelib.py:34-37 | a dotfile made of a dot and a would-be extension (such as `".DSB"`) has no extension and is rejected |
| `Filelib.StyleRejectsDotInDirectory` | dxx/filelib.py:34-37 | a dot in a directory name does not start an extension: a dot-free file under any directory is rejected |
| `PosixPath.NoDotNoExt` | dxx/filelib.py:34 | `splitext` gives a path with no dot the empty extension |
| `PosixPath.DotfileNoExt` | dxx/filelib.py:34 | `splitext` gives a dotfile the empty extension, since the final component has only dots before its last dot |
| `PosixPath.DotInDirectoryNoExt` | dxx/filelib.py:34 | `splitext` ignores dots before the last separator |
| `PosixPath.ExtOfStemAndExtension` | dxx/filelib.py:34 | a stem followed by a well-formed extension splits back into exactly that stem and extension |
| `Filelib.LenFile` | dxx/filelib.py:42-53 | `len_file` rejects a bad extension before looking at the file and reports a missing file; otherwise it returns the truncated quotient q of the byte size by the format's byte width, characterised by q·w ≤ size < (q+1)·w |
| `Filelib.Read` | dxx/filelib.py:56-78 | `read` fails exactly when `len_file` fails, with the same error; otherwise it returns a well-formed buffer of the row's dtype holding exactly `len_file` samples |
| `Filelib.ReadIsRawElements` | dxx/filelib.py:66-78 | in both branches the words `read` returns are the file's bytes taken as raw elements of the row's width in native order, up to a trailing partial element |
| `NativeBytes.Encode` | dxx/filelib.py:112 | `tofile` with no separator writes n·k bytes for n k-byte elements |
| `NativeBytes.Decode` | dxx/filelib.py:77 | `fromfile` with no separator reads ⌊size/k⌋ elements, each fitting k bytes |
| `NativeBytes.WordRoundTrip` | dxx/filelib.py:77 | in either byte order, the word stored in a word's bytes is that word |
| `NativeBytes.DecodeEncode` | dxx/filelib.py:108-112 | reading raw elements back from what `tofile` wrote gives the same words, in either byte order |
| `NativeBytes.EncodeDecode` | dxx/filelib.py:71-77 | the words `fromfile` reads, laid out again, are exactly the file's bytes up to a dropped trailing partial element |
| `Conversions.Dispatch` | dxx/filelib.py:94-103 | `write` picks `_float_to_int16` iff a float goes to int16, `_int16_to_float32` iff int16 goes to float32, `_int16_to_float64` iff int16 goes to float64, and no conversion iff the types match or both are floats |
| `Conversions.DispatchReachesTarget` | dxx/filelib.py:94-103 | after the dispatch the data has the file's dtype, except for the float32/float64 pairs that fall through the unraised exception |
| `Conversions.AbsMax` | dxx/filelib.py:117 | `np.abs(data).max()` is the magnitude of some sample, and no sample's magnitude exceeds it |
| `Conversions.AbsMin` | dxx/filelib.py:118 | `np.abs(data).min()` is the magnitude of some sample, and no sample's magnitude is below it |
| `Conversions.Extrema` | dxx/filelib.py:126-127 | the extrema exist iff the buffer is non-empty; they are then the pair (`AbsMin`, `AbsMax`), with 0 ≤ min_abs ≤ max_abs |
| `Conversions.ZeroRangeIffConstantMagnitude` | dxx/filelib.py:117-119 | the denominator `max - min` is zero iff every sample has the same magnitude |
| `Conversions.ExtremaAreOfMagnitudes` | dxx/filelib.py:135-136 | the extrema are of absolute values: for [-5, 3] they are 3 and 5, not the signed extrema |
| `Samples.Int16MagnitudeIsAbs` | dxx/filelib.py:125-126 | an int16 sample's magnitude is its absolute value taken after the cast to float, so it is at most 32768, reached only by -32768 |
| `Conversions.Convert` | dxx/filelib.py:115-138 | no conversion returns the buffer unchanged; a rescaling conversion fails iff the buffer is empty (numpy's reduction raises), and otherwise keeps the length and yields well-formed words of the produced type |
| `Conversions.ConvertIsBufferGlobal` | dxx/filelib.py:119 | an output sample depends on the rest of the buffer only through the two whole-buffer extrema |
| `Conversions.ConvertSampleUsesWholeBuffer` | dxx/filelib.py:126-128 | every output sample is the rescaler applied to its own input word, the amplitude, and the min and max magnitude of the entire buffer |
| `Filelib.Write` | dxx/filelib.py:81-112 | `write` fails iff the extension is bad or a rescaling conversion meets an empty buffer; on success it sets the target path and leaves every other file unchanged |
| `Filelib.Render` | dxx/filelib.py:108 | `"%d"` renders an int16 word as one non-empty line, which parses back to the word's signed value |
| `Filelib.Renderings` | dxx/filelib.py:108 | one rendering per sample, in order; with `"%d"` every rendering is a line |
| `Filelib.TextBytes` | dxx/filelib.py:108 | when every rendering is a line, splitting the text at newlines gives exactly the renderings, one per sample |
| `Filelib.Serialise` | dxx/filelib.py:105-112 | a binary row holds n × (element width) bytes; a text row, when every rendering is a line, splits back into exactly the renderings of the samples |
| `Filelib.TextFileContent` | dxx/filelib.py:92-108 | for any element type, conversion and text row, the text file `write` leaves has one line per sample holding that converted sample's `"%d"` or `"%e"` rendering, given that `"%e"` renders a non-empty string without a newline |
| `Filelib.BinaryFileSize` | dxx/filelib.py:110-112 | a binary file holds n × (width of the converted data) bytes, with no header or padding |
| `Filelib.BinaryFileContent` | dxx/filelib.py:110-112 | a successful binary `write` stores exactly the converted words, laid out by `tofile` in native byte order |
| `Filelib.ReadEncoded` | dxx/filelib.py:42-78 | a file of any row holding the raw words of a well-formed buffer of the row's dtype reads back as that buffer (the text branch decodes as the binary one does), and `len_file` counts its samples |
| `Filelib.BinaryReadBack` | dxx/filelib.py:92-112 | when the converted data has the file's dtype, reading the binary file back gives exactly the converted data, and `len_file` gives n |
| `Filelib.BinaryRoundTrip` | dxx/filelib.py:74-112 | a buffer of the file's dtype written to a DXB file reads back unchanged, and `len_file` equals its length |
| `Filelib.MockDataFile` | conftest.py:9-16 | 5 s of 48 kHz `np.arange` int16 samples written to `mock.DSB` give `len_file == 240000` and read back unchanged |
| `DecimalText.FormatD` | dxx/filelib.py:108 | `"%d" % v` is a non-empty rendering without a newline |
| `DecimalText.ParseFormatD` | dxx/filelib.py:108 | parsing the `"%d"` rendering of any integer gives that integer back |
| `DecimalText.SplitJoin` | dxx/filelib.py:108 | splitting newline-joined non-empty lines gives the lines back |
| `Filelib.TextReadAsWrittenLosesSamples` | dxx/filelib.py:68-72 | as written, `[1, 2]` written to a DSA file is `"1\n2"`, and `read` returns the one sample stored in the bytes `"1\n"` in native order; the corrected read returns `[1, 2]` |
| `Filelib.ParseToken` | dxx/filelib.py:68-72 | an int16 token succeeds iff it is a decimal integer in [-32768, 32767], giving the word whose signed value it denotes; a float token succeeds iff the float scanner yields a word of the type's width, giving that word; every failure is a `ParseError` naming the token |
| `Filelib.ParseLines` | dxx/filelib.py:68-72 | succeeds iff every line parses, and then word i is line i's parse; otherwise fails with the `ParseError` of one of the lines |
| `Filelib.ReadFixed` | dxx/filelib.py:56-78 | corrected `read`: same extension and missing-file errors; a text file succeeds iff its lines parse, giving exactly the parsed words, with the parse error otherwise; a final newline does not start an extra empty line; a binary file is read as before |
| `DecimalText.TokensJoin` | dxx/filelib.py:108 | newline-joined non-empty lines split back into those lines, whether or not a final newline follows |
| `Filelib.TrailingNewlineAccepted` | dxx/filelib.py:68-72 | a DSA file of `"%d"` lines ending in a newline reads back as the same samples, under the corrected read |
| `Filelib.ParseDecimalLines` | dxx/filelib.py:105-108 | parsing the `"%d"` lines of any int16 words gives those words back |
| `Filelib.TextRoundTrip` | dxx/filelib.py:105-108 | an int16 buffer written to a DSA file is one line per sample, and the corrected read recovers it unchanged |
| `Filelib.MismatchedWidthAsWritten` | dxx/filelib.py:102-103 | as written, two float32 samples written to a DDB file keep their 4-byte width, so `len_file` reports 1; the corrected write returns `BadConversion` |
| `Filelib.WriteChecked` | dxx/filelib.py:92-103 | corrected `write`: a bad extension fails as in `write`; a pair whose dispatch reaches the file's dtype (equal types or a conversion) behaves exactly as `write`; every other pair fails with `BadConversion`; so every success leaves data of the file's dtype |
| `Filelib.WriteCheckedKeepsSampleCount` | dxx/filelib.py:92-112 | with the correction, every binary file written holds as many samples of the file's dtype as the buffer had, per both `len_file` and `read` |

## Findings

| source | as written | input that shows it | evidently intended | confidence | as-written member | corrected member |
|---|---|---|---|---|---|---|
| dxx/filelib.py:69-72 | The text branch calls `np.fromfile(f, dtype, -1)` with no separator, which reads the file's raw bytes as binary elements. | int16 `[1, 2]` written to `x.DSA` is the 3 bytes `"1\n2"`; `read` returns 1 sample. | one sample parsed per line | high (not executed) | `Filelib.TextReadAsWrittenLosesSamples` | `Filelib.ReadFixed`, `Filelib.TextRoundTrip` |
| dxx/filelib.py:102-103 | The final `else` builds `BadDataStyleError` but never raises it, so mismatched data is written as is. | float32 `[0, 0]` written to `x.DDB` gives 8 bytes; `len_file` reports 1 and `read` returns 1 float64. | a file holds data of its table dtype, the type `read` decodes it as (`dtypes[5]` is float64 at line 77), so a pair with no conversion is refused | high (not executed) | `Filelib.MismatchedWidthAsWritten` | `Filelib.WriteChecked`, `Filelib.WriteCheckedKeepsSampleCount` |

## Left out

- Real file I/O (`open`, `os.path.getsize`, `np.fromfile`, `tofile`) is replaced by a map from path to bytes. Write failures such as permissions or a full disk are not modelled, so `write` never fails for I/O reasons.
- The native byte order is a parameter (`Numpy.native`), not a fixed platform choice.
- The rescaling formula `(x - min) / (max - min) * amp` and the `astype` casts are floating-point arithmetic. They are the abstract `Rescaler` parameter, which receives the types, the amplitude (32767 or 10000), the sample word and the two extrema. The model does not state how NaN or infinity come out of a zero denominator.
- `"%e"` rendering and parsing of floats are the abstract `Numpy.formatE` and `Numpy.scanE`. Only the int16 `"%d"` path is modelled concretely.
- Conversions.AbsMax: a float's magnitude is its bit pattern with the sign bit cleared. This matches `|x|` for every non-NaN value, but the model does not capture numpy's NaN propagation through `max`/`min`.
- The message text of `BadDataStyleError`, which lists the valid extensions, is not modelled. The error carries only the offending extension.
- `len_file` uses `int(size / width)` in floating point. The model uses integer division, which agrees for every size below 2^53 bytes.
- Filelib.ReadFixed: the corrected text read splits at newlines only and ignores a single final newline. It rejects blank lines in the middle, other whitespace between numbers, a line with surrounding spaces, and an integer with a leading `+` sign, all of which numpy's text parsing with a whitespace separator accepts.
- Filelib.TextFileContent: the "one line per sample" property for float data rests on `"%e"` never giving an empty string or a newline (`EFormatIsLine`). The model states this as an assumption about its float formatter; it does not derive it.
- Filelib.Dtype.FormatSpecifier: the specifier of a binary format (DSB, DFB, DDB) is the model's choice; the source table has no such row.
- `os.path.splitext` is modelled for POSIX paths only (`posixpath`): Windows' `ntpath` also splits at `\` and after a drive letter, so a path such as `x\.DSB` resolves differently there.
- Arrays of dtypes other than int16, float32 and float64 are outside the element-type enumeration.
- `dxx/dxxconv.py` (command-line front end and WAV I/O through soundfile), `setup.py` and the pytest fixture in `conftest.py` are not part of this model. The fixture serves only as the scenario of `Filelib.MockDataFile`.
