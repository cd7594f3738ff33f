# SnakeTail encoding detection, modelled in Dafny

SnakeTail is a log-file viewer. Before it starts tailing a file it decides
which text encoding to read it with (`EncodingHelper.DetectFileEncoding`),
and it stores that choice in a tail configuration as a label
(`GetEncodingDisplayName`, read back by `GetEncodingFromDisplayName`). This
project models that helper class and proves properties of it.

- `encodings.dfy` (module `Encodings`): the shared types. `byte` is `bv8`, so
  the scanner's masks read as in the source. `Io<T>` is the outcome of a call
  that may throw: `Done(value)` or `Failed`. `Encoding` is the closed set
  `Utf8(bom) | Ascii | Utf16LE | Utf16BE | Default | Other(name)`.
- `utf8_scan.dfy` (module `Utf8Scan`): the heuristic scorer `IsLikelyUtf8`.
  - The `while` loop over an `array<byte>` is kept as written.
  - It is proved equal to `LikelyUtf8(buffer[..length])`.
  - `LikelyUtf8` is defined through `TallyFrom`, the two counters the scan
    accumulates from a position to the end. Its steps are given by
    `UnitAt`, which says what the scanner recognises at one position.
  - `UnitAt` is checked against `LeadLength`, a second definition of the
    RFC 3629 section 3 bit patterns written with value ranges.
  - `CharLength` and `WellFormedUtf8` give strict well-formedness
    (RFC 3629 section 4). This is the reference for how lenient the
    scorer is.
- `detect.dfy` (module `EncodingDetect`): the detector.
  - `DetectFileEncoding` is a method. It fills the 4-byte mark buffer and
    the sample buffer, and it runs the `for` loop that looks for a decoded
    character above 127.
  - It is proved equal to the pure decision `Detect`, which uses `Classify`
    once the first read has succeeded.
  - The file system and the framework's decoder are parameters: see "Left out".
- `display_names.dfy` (module `EncodingNames`): the label mapping.
  - `DisplayName` maps an encoding to its label. `FromDisplayName` maps a
    label back to an encoding.
  - Parsing uses `ToUpper`, an ASCII upper-casing.

What the code does, where its own comments or a reader might expect otherwise:

- One might expect every detected encoding to survive being stored as a
  label and read back. UTF-16 big-endian is not given a label of its own. It
  is shown by its framework name, "Unicode (Big-Endian)", and that name
  parses back to the default (`BigEndianDoesNotRoundTrip`).
- The program is built for .NET 6 or later (`Program.cs:37` calls
  `ApplicationConfiguration.Initialize()`), where `Encoding.Default` is a
  `UTF8Encoding` without a preamble. `GetEncodingDisplayName` therefore
  labels it "UTF8" in its `UTF8Encoding` branch (EncodingHelper.cs:185-197), and the
  comparison with `Encoding.Default` at lines 207-209 is never reached. The
  default comes back as a new UTF-8 encoding without a mark
  (`DefaultIsLabelledUtf8`). Four encodings round-trip: UTF-8 with and
  without a mark, ASCII and UTF-16 little-endian.
- The comments at EncodingHelper.cs:72-77 and 96 expect decoding to fail on
  invalid bytes, and a mark-free file of bytes 80 to FF then to get the
  platform default. The code decodes with `new UTF8Encoding(false)`, which
  never throws on malformed bytes and substitutes U+FFFD for them. So such a
  file gets UTF-8 without a mark. The model follows the code; see "Findings".

## Model

| member | source | states |
|---|---|---|
| `Utf8Scan.UnitAt` | SnakeTail/EncodingHelper.cs:127-162 | At position i the scanner sees ASCII exactly when the byte is below 0x80. It sees a multi-byte sequence of length n exactly when the lead byte's RFC 3629 pattern announces n (from 2 to 4), n bytes remain in the sample, and all of them after the lead are in 0x80..0xBF; anything else is a stray byte. |
| `Utf8Scan.LikelyUtf8` | SnakeTail/EncodingHelper.cs:166-174 | The verdict holds exactly when the sample is non-empty and twice the valid bytes reach the non-ASCII bytes. This covers both the 50 percent rule with integer division for samples with non-ASCII bytes and the all-ASCII case. |
| `Utf8Scan.IsLikelyUtf8` | SnakeTail/EncodingHelper.cs:116-175 | The loop returns exactly the verdict `LikelyUtf8` gives for the first length bytes. Its invariants keep `validUtf8Bytes <= i <= length` and `totalNonAsciiBytes <= i`, and each counter plus what `TallyFrom` still adds from i equals the total. The guards keep every lookahead in bounds, and i strictly increases. |
| `Utf8Scan.EmptySampleIsNotLikely` | SnakeTail/EncodingHelper.cs:118-119 | An empty sample is not judged UTF-8. |
| `Utf8Scan.AsciiTally` | SnakeTail/EncodingHelper.cs:125-132 | Bytes below 0x80 leave both counters at zero. |
| `Utf8Scan.AsciiSampleIsLikely` | SnakeTail/EncodingHelper.cs:168-174 | A non-empty sample made only of ASCII bytes is judged UTF-8. |
| `Utf8Scan.StrayByteStep` | SnakeTail/EncodingHelper.cs:158-162 | A non-ASCII byte that does not start a complete sequence of the length its pattern announces adds one non-ASCII byte, adds no valid byte, and the scan resumes one position later. |
| `Utf8Scan.TruncatedTailIsStray` | SnakeTail/EncodingHelper.cs:143-161 | A 3-byte lead followed by only one continuation byte at the end of the sample adds, from its position on, two stray non-ASCII bytes and no valid ones. |
| `Utf8Scan.ContinuationOnlyTally` | SnakeTail/EncodingHelper.cs:133-162 | Bytes 0x80..0xBF alone give no valid bytes and one non-ASCII byte each. |
| `Utf8Scan.ContinuationOnlyIsNotLikely` | SnakeTail/EncodingHelper.cs:166-171 | A non-empty sample made only of bytes 0x80..0xBF is not judged UTF-8. |
| `Utf8Scan.NoTailAfterLead` | SnakeTail/EncodingHelper.cs:133-162 | When no byte from 0xC0 up is followed by a byte in 0x80..0xBF, none of the 2-, 3- or 4-byte guards ever passes: the valid count is zero and the non-ASCII count is the number of bytes from 0x80 up. |
| `Utf8Scan.HighBytesNotLikely` | SnakeTail/EncodingHelper.cs:133-174 | In the run 80 81 ... FF no byte counts as valid and some count as non-ASCII, so the scorer rejects it. |
| `Utf8Scan.TallyBounds` | SnakeTail/EncodingHelper.cs:135-157 | Neither counter exceeds the bytes scanned. The valid bytes are at most four times the non-ASCII bytes. |
| `Utf8Scan.PercentAtLeastHalf` | SnakeTail/EncodingHelper.cs:170 | With integer division, `v * 100 / n >= 50` holds exactly when `2 * v >= n`. |
| `Utf8Scan.PercentFitsInt32` | SnakeTail/EncodingHelper.cs:170 | For a sample of at most 8192 bytes, `validUtf8Bytes * 100` fits in a signed 32-bit int. |
| `Utf8Scan.LoneTwoByteSequence` | SnakeTail/EncodingHelper.cs:137-142 | C3 A9 counts one non-ASCII byte, the lead only, and two valid bytes, so it is judged UTF-8. |
| `Utf8Scan.CharLengthAgreesWithScanner` | SnakeTail/EncodingHelper.cs:137-157 | Where a character that is well-formed under RFC 3629 section 4 starts, the scanner recognises exactly that character. |
| `Utf8Scan.WellFormedTally` | SnakeTail/EncodingHelper.cs:125-164 | On well-formed UTF-8 the valid bytes are at least twice the non-ASCII bytes. |
| `Utf8Scan.WellFormedIsLikely` | SnakeTail/EncodingHelper.cs:166-174 | Every non-empty well-formed UTF-8 sample is judged UTF-8. |
| `Utf8Scan.OverlongIsLikelyButMalformed` | SnakeTail/EncodingHelper.cs:137-142 | The overlong C0 80 is not well-formed, yet the scorer accepts it. The scorer is more lenient than RFC 3629. |
| `EncodingDetect.Classify` | SnakeTail/EncodingHelper.cs:43-101 | Once the first read has succeeded, the result is never ASCII and never another framework encoding. |
| `EncodingDetect.Detect` | SnakeTail/EncodingHelper.cs:32-111 | The whole decision always yields one of UTF-8 with or without a mark, UTF-16 LE, UTF-16 BE or the default. No error escapes it. |
| `EncodingDetect.DetectFileEncoding` | SnakeTail/EncodingHelper.cs:32-111 | The method copies the first read into a 4-byte buffer and the second read into a buffer of `min(8192, length)` bytes, and scans the decoded text with the `for` loop. It returns exactly `Detect`, with "the decoder delivered text that holds a character above 127" as the decoder's verdict. |
| `EncodingDetect.Utf8BomWins` | SnakeTail/EncodingHelper.cs:47-51 | When at least three bytes were read and they start EF BB BF, the result is UTF-8 with a mark, whatever the sample or the decoder. |
| `EncodingDetect.Utf16LEBomDetected` | SnakeTail/EncodingHelper.cs:53-57 | When at least three bytes were read and they start FF FE, the result is UTF-16 LE. |
| `EncodingDetect.Utf16BEBomDetected` | SnakeTail/EncodingHelper.cs:59-63 | When at least three bytes were read and they start FE FF, the result is UTF-16 BE. |
| `EncodingDetect.NoSignatureIsDefault` | SnakeTail/EncodingHelper.cs:34-45 | A null, empty or missing path, a failed open or read, or fewer than three bytes read gives the default, even before FF FE or FE FF. |
| `EncodingDetect.WithoutBomUtf8Iff` | SnakeTail/EncodingHelper.cs:65-110 | Without a mark, the result is UTF-8 without a mark exactly when a non-empty sample was read and either the decoder found a non-ASCII character or the scorer accepts the sample. In every other case it is the default. |
| `EncodingDetect.AsciiFileIsUtf8` | SnakeTail/EncodingHelper.cs:65-101 | A readable file of at least three ASCII bytes is UTF-8 without a mark. |
| `EncodingDetect.WellFormedFileIsUtf8` | SnakeTail/EncodingHelper.cs:65-101 | A readable well-formed UTF-8 file without a mark is UTF-8 without a mark, whatever the decoder reports. |
| `EncodingDetect.CafeFileIsUtf8` | SnakeTail/EncodingHelper.cs:65-101 | A file holding the UTF-8 bytes of "café" (63 61 66 C3 A9) is UTF-8 without a mark. |
| `EncodingDetect.LenientDecoderOverridesScorer` | SnakeTail/EncodingHelper.cs:73-92 | The decoder used substitutes rather than throws, so its verdict is "the sample has a non-ASCII byte". With that decoder, every non-empty sample without a mark gives UTF-8 without a mark, and the 50 percent rule never decides. |
| `EncodingDetect.StrayFileAsWritten` | SnakeTail/EncodingHelper.cs:73-92 | The scorer rejects the bytes 80 81 82 83, yet the code as written detects them as UTF-8 without a mark. |
| `EncodingDetect.StrictDetectFollowsScorer` | SnakeTail/EncodingHelper.cs:73-101 | With a decoder that throws on malformed input (`DetectStrict`), a sample without a mark is UTF-8 without a mark exactly when the scorer accepts it. |
| `EncodingDetect.RejectedFile` | SnakeTail/EncodingHelper.cs:65-101 | A readable file that starts with a byte in 0x80..0xBF and that the scorer rejects is UTF-8 without a mark under the substituting decoder, and the default under a throwing decoder. |
| `EncodingDetect.HighBytesFile` | SnakeTail/EncodingHelper.cs:65-101 | A file holding the run 80 81 ... FF is UTF-8 without a mark under the substituting decoder the code uses, and the default under a throwing decoder. |
| `EncodingDetect.StrayFileCorrected` | SnakeTail/EncodingHelper.cs:94-101 | With the throwing decoder, the bytes 80 81 82 83 give the default. |
| `EncodingNames.DisplayName` | SnakeTail/EncodingHelper.cs:180-215 | Every encoding other than UTF-16 BE and foreign ones gets a label whose upper-case form the parser recognises; the default, a BOM-less UTF-8 encoding on .NET 6+, is among them. Only a foreign encoding with an empty name gets an empty label. |
| `EncodingNames.FromDisplayName` | SnakeTail/EncodingHelper.cs:220-244 | Parsing yields only UTF-8 with or without a mark, ASCII, UTF-16 LE or the default. |
| `EncodingNames.ToUpperIdempotent` | SnakeTail/EncodingHelper.cs:225 | Upper-casing an upper-cased label changes nothing. |
| `EncodingNames.ToUpperFixesUpper` | SnakeTail/EncodingHelper.cs:225 | A label without lower-case ASCII letters is its own upper-case form. |
| `EncodingNames.RoundTrip` | SnakeTail/EncodingHelper.cs:180-244 | For UTF-8, UTF-8 with a mark, ASCII and UTF-16 LE, the label parses back to the same encoding. |
| `EncodingNames.DisplayNamesDistinct` | SnakeTail/EncodingHelper.cs:180-215 | Those four encodings have four distinct labels. |
| `EncodingNames.DefaultIsLabelledUtf8` | SnakeTail/EncodingHelper.cs:185-197 | The platform default is labelled "UTF8", the label of UTF-8 without a mark, and parses back to UTF-8 without a mark. |
| `EncodingNames.BigEndianDoesNotRoundTrip` | SnakeTail/EncodingHelper.cs:211-214 | UTF-16 BE is shown by its framework name, which parses to the default. |
| `EncodingNames.OtherDoesNotRoundTrip` | SnakeTail/EncodingHelper.cs:211-214 | No other framework encoding survives the round trip. |
| `EncodingNames.NullEncodingIsDefault` | SnakeTail/EncodingHelper.cs:182-183 | A null encoding is labelled "Default", which parses to the default. |
| `EncodingNames.ParseIgnoresCase` | SnakeTail/EncodingHelper.cs:225 | Two labels with the same ASCII upper-case form parse to the same encoding. |
| `EncodingNames.ParseOfUpperCase` | SnakeTail/EncodingHelper.cs:225 | A label parses as its upper-case form does. |
| `EncodingNames.Synonyms` | SnakeTail/EncodingHelper.cs:227-239 | In any letter case, "utf-8" is UTF-8, "Utf-8 Bom" is UTF-8 with a mark, and "unicode", "utf16" and "UTF-16" are UTF-16 LE. |
| `EncodingNames.UnknownLabelIsDefault` | SnakeTail/EncodingHelper.cs:222-242 | A null or empty label, or one whose upper-case form is not a known label, parses to the default. |
| `EncodingNames.BogusLabelIsDefault` | SnakeTail/EncodingHelper.cs:240-242 | "bogus" parses to the default. |

## Findings

| source | as written | input that shows it | evidently intended | confidence | as-written member | corrected member |
|---|---|---|---|---|---|---|
| SnakeTail/EncodingHelper.cs:75-101 | The sample is decoded with `new UTF8Encoding(false)`. It does not throw on invalid bytes and turns them into U+FFFD, which is above 127. So `hasNonAscii` is true for every sample with a non-ASCII byte. `GetString` never throws, so the `catch` branch at lines 94-101 is never entered. The call to `IsLikelyUtf8` at line 89 only ever sees all-ASCII samples, so its 50 percent rule at line 170 never runs. | A 4-byte file 80 81 82 83, or the run 80 81 ... FF: the scorer rejects it, yet the result is UTF-8 without a mark. | The comments expect decoding to fail on invalid input and then fall back to pattern matching. That is a throwing decoder, `new UTF8Encoding(false, true)`: malformed samples are judged by the scorer, and 80 81 82 83 gets the default. | medium; not executed | `EncodingDetect.LenientDecoderOverridesScorer`, `EncodingDetect.StrayFileAsWritten`, `EncodingDetect.RejectedFile`, `EncodingDetect.HighBytesFile` | `EncodingDetect.DetectStrict` with `EncodingDetect.StrictDetectFollowsScorer`, `EncodingDetect.StrayFileCorrected` and `EncodingDetect.HighBytesFile` |

On .NET 6+ the platform default is itself a BOM-less UTF-8 encoding, so
for this file the two outcomes read the file alike; they differ in which
object is handed out and in what a reader of the code would expect.

`DetectFileEncoding` takes the decoder's output as a parameter. The same
method therefore covers both rows above. With the substituting decoder it is
the code as written. With a throwing decoder it is the corrected behaviour
that `DetectStrict` names.

## Left out

- File access is not modelled. `File.Exists`, the `FileStream` open, the
  four-byte read, `fs.Length`, the seek and the sample read become the
  parameters `fileExists`, `head`, `fileLength` and `sample`. A throw from
  any of them is `Failed`.
- A writer may append between the two reads. The model takes the prefix and
  the sample as independent inputs, so it covers that case without tying the
  two together.
- `UTF8Encoding.GetString` is not modelled. Its output, or `Failed` when it
  throws, is the parameter `decoded`. The pure decision takes only the
  boolean "the decoded text has a character above 127". C# compares UTF-16
  code units and Dafny compares scalar values; whether some character is
  above 127 comes out the same in both.
- `Encoding` objects are reduced to the closed `Encoding` datatype. The
  source compares with `==`, which is reference equality, so a separately
  constructed ASCII or UTF-16 encoding object would fall through to its
  `EncodingName`. The datatype identifies encodings by kind. `GetPreamble`
  becomes the `bom` flag of `Utf8`.
- UTF-16 BE is shown by its framework `EncodingName`, taken as the
  constant "Unicode (Big-Endian)". Other encodings carry their name in
  `Other(name)`.
- The default is taken as the .NET 6+ platform default, a BOM-less
  `UTF8Encoding`, and is labelled "UTF8". Under .NET Framework, where it is
  the ANSI code page, it would be labelled "Default" instead; that runtime
  is not modelled.
- The culture-sensitive `ToUpper` is modelled as ASCII upper-casing, which
  has two consequences:
  - `RoundTrip` assumes a culture without Turkish casing. Under tr-TR,
    "Unicode (UTF16 LE)" upper-cases to "UNİCODE (UTF16 LE)", so the
    program's UTF-16 LE round trip fails there.
  - In every culture, 'ı' (U+0131) and 'ſ' (U+017F) upper-case to the ASCII
    letters 'I' and 'S'. The program accepts labels such as "unıcode"; the
    model parses them to the default.
- The counters of `IsLikelyUtf8` are 32-bit in the source and unbounded here.
  `PercentFitsInt32` shows that the product cannot overflow for the at most
  8192 bytes the detector passes. Wrap-around for longer buffers is not
  modelled.
- Everything outside `SnakeTail/EncodingHelper.cs` is not part of this model.
  That covers the window management, session XML, SQLite-backed
  recent-file storage, crash dialog and update check.
