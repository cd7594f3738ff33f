/** The file encoding detector (EncodingHelper.DetectFileEncoding). It reads
    up to four bytes looking for a byte-order mark (Unicode Standard, section
    23.8), and without one reads a sample of at most 8192 bytes from the start
    of the file, which it decodes as UTF-8 and hands to the heuristic scorer.
    Every failure is swallowed and yields the platform default. */
module EncodingDetect {
  import opened Encodings
  import opened Utf8Scan

  /** How many bytes are read when looking for a byte-order mark. */
  const BomProbeLength: nat := 4

  /** The most bytes read as a sample. */
  const SampleLimit: nat := 8192

  function Min(a: nat, b: nat): nat {
    if a <= b then a else b
  }

  /** The UTF-8 byte-order mark EF BB BF. */
  predicate HasUtf8Bom(prefix: seq<byte>)
    requires |prefix| >= 3
  {
    prefix[0] == 0xEF && prefix[1] == 0xBB && prefix[2] == 0xBF
  }

  /** The UTF-16 little-endian byte-order mark FF FE. */
  predicate HasUtf16LEBom(prefix: seq<byte>)
    requires |prefix| >= 2
  {
    prefix[0] == 0xFF && prefix[1] == 0xFE
  }

  /** The UTF-16 big-endian byte-order mark FE FF. */
  predicate HasUtf16BEBom(prefix: seq<byte>)
    requires |prefix| >= 2
  {
    prefix[0] == 0xFE && prefix[1] == 0xFF
  }

  /** The path is neither null nor empty and names an existing file. */
  predicate PathUsable(filePath: Option<string>, fileExists: bool) {
    filePath.Some? && |filePath.value| > 0 && fileExists
  }

  /** Some character of the decoded text lies above code point 127. */
  predicate HasNonAscii(text: string) {
    exists k :: 0 <= k < |text| && text[k] as int > 127
  }

  /** The decision once the first read has delivered prefix: a prefix of
      fewer than three bytes gives the default; then the UTF-8 mark, the
      UTF-16 little-endian mark and the UTF-16 big-endian mark are tried in
      that order; without a mark, a sample that could not be read gives the
      default, and a non-empty sample is UTF-8 without a mark when its
      decoding holds a non-ASCII character or the scorer accepts it. */
  function Classify(prefix: seq<byte>, sample: Io<seq<byte>>, decodedHasNonAscii: bool): (e: Encoding)
    ensures !e.Ascii? && !e.Other?
  {
    if |prefix| < 3 then Default
    else if HasUtf8Bom(prefix) then Utf8(true)
    else if HasUtf16LEBom(prefix) then Utf16LE
    else if HasUtf16BEBom(prefix) then Utf16BE
    else if sample.Failed? then Default
    else if |sample.value| > 0 && (decodedHasNonAscii || LikelyUtf8(sample.value)) then Utf8(false)
    else Default
  }

  /** The decision for a whole call: an unusable path or a failed open or
      first read gives the default; otherwise the bytes decide. */
  function Detect(filePath: Option<string>, fileExists: bool, head: Io<seq<byte>>,
                  sample: Io<seq<byte>>, decodedHasNonAscii: bool): (e: Encoding)
    ensures !e.Ascii? && !e.Other?
  {
    if !PathUsable(filePath, fileExists) || head.Failed? then Default
    else Classify(head.value, sample, decodedHasNonAscii)
  }

  /** DetectFileEncoding(filePath). The file system and the framework are
      parameters: fileExists is File.Exists(filePath); head is what opening
      the file and reading four bytes delivered; fileLength is the stream's
      length; sample is what the seek back and the read into the sample
      buffer delivered; decoded is what UTF8Encoding.GetString made of the
      sample, or Failed when it threw. */
  method DetectFileEncoding(filePath: Option<string>, fileExists: bool, head: Io<seq<byte>>,
                            fileLength: nat, sample: Io<seq<byte>>, decoded: Io<string>)
    returns (e: Encoding)
    requires head.Done? ==> |head.value| <= BomProbeLength
    requires sample.Done? ==> |sample.value| <= Min(SampleLimit, fileLength)
    ensures e == Detect(filePath, fileExists, head, sample, decoded.Done? && HasNonAscii(decoded.value))
  {
    if filePath.None? || |filePath.value| == 0 || !fileExists {
      return Default;
    }
    if head.Failed? {
      return Default;
    }
    var bom := new byte[BomProbeLength];
    var bytesRead := |head.value|;
    forall k | 0 <= k < bytesRead {
      bom[k] := head.value[k];
    }
    if bytesRead < 3 {
      return Default;
    }
    assert bom[..3] == head.value[..3];
    if bytesRead >= 3 && bom[0] == 0xEF && bom[1] == 0xBB && bom[2] == 0xBF {
      return Utf8(true);
    }
    if bytesRead >= 2 && bom[0] == 0xFF && bom[1] == 0xFE {
      return Utf16LE;
    }
    if bytesRead >= 2 && bom[0] == 0xFE && bom[1] == 0xFF {
      return Utf16BE;
    }

    if sample.Failed? {
      return Default;
    }
    var buffer := new byte[Min(SampleLimit, fileLength)];
    bytesRead := |sample.value|;
    forall k | 0 <= k < bytesRead {
      buffer[k] := sample.value[k];
    }
    assert buffer[..bytesRead] == sample.value;
    if bytesRead > 0 {
      match decoded
      case Done(test) =>
        var hasNonAscii := false;
        for i := 0 to |test|
          invariant !hasNonAscii
          invariant forall j :: 0 <= j < i ==> test[j] as int <= 127
        {
          if test[i] as int > 127 {
            hasNonAscii := true;
            break;
          }
        }
        assert hasNonAscii == HasNonAscii(test);
        // the short-circuit or: the scorer runs only when no character
        // above 127 was found
        if hasNonAscii {
          return Utf8(false);
        }
        var likely := IsLikelyUtf8(buffer, bytesRead);
        if likely {
          return Utf8(false);
        }
      case Failed =>
        var likely := IsLikelyUtf8(buffer, bytesRead);
        if likely {
          return Utf8(false);
        }
    }
    return Default;
  }

  // ---------------------------------------------------------------------------
  // Properties of the decision
  // ---------------------------------------------------------------------------

  /** With three or more bytes read, EF BB BF gives UTF-8 with a mark,
      whatever follows. */
  lemma Utf8BomWins(filePath: Option<string>, fileExists: bool, prefix: seq<byte>,
                    sample: Io<seq<byte>>, decodedHasNonAscii: bool)
    requires PathUsable(filePath, fileExists)
    requires |prefix| >= 3 && prefix[..3] == [0xEF, 0xBB, 0xBF]
    ensures Detect(filePath, fileExists, Done(prefix), sample, decodedHasNonAscii) == Utf8(true)
  {
  }

  /** With three or more bytes read, FF FE gives UTF-16 little-endian. */
  lemma Utf16LEBomDetected(filePath: Option<string>, fileExists: bool, prefix: seq<byte>,
                           sample: Io<seq<byte>>, decodedHasNonAscii: bool)
    requires PathUsable(filePath, fileExists)
    requires |prefix| >= 3 && prefix[0] == 0xFF && prefix[1] == 0xFE
    ensures Detect(filePath, fileExists, Done(prefix), sample, decodedHasNonAscii) == Utf16LE
  {
  }

  /** With three or more bytes read, FE FF gives UTF-16 big-endian. */
  lemma Utf16BEBomDetected(filePath: Option<string>, fileExists: bool, prefix: seq<byte>,
                           sample: Io<seq<byte>>, decodedHasNonAscii: bool)
    requires PathUsable(filePath, fileExists)
    requires |prefix| >= 3 && prefix[0] == 0xFE && prefix[1] == 0xFF
    ensures Detect(filePath, fileExists, Done(prefix), sample, decodedHasNonAscii) == Utf16BE
  {
  }

  /** A null, empty or missing path, a failure to open or read, and a file
      that yields fewer than three bytes all give the default, even when the
      bytes read are FF FE or FE FF. */
  lemma NoSignatureIsDefault(filePath: Option<string>, fileExists: bool, head: Io<seq<byte>>,
                             sample: Io<seq<byte>>, decodedHasNonAscii: bool)
    requires !PathUsable(filePath, fileExists) || head.Failed? || |head.value| < 3
    ensures Detect(filePath, fileExists, head, sample, decodedHasNonAscii) == Default
  {
  }

  /** Without a mark the result is UTF-8 without a mark exactly when a
      non-empty sample was read and either its decoding holds a non-ASCII
      character or the scorer accepts it; in every other case it is the
      default. */
  lemma WithoutBomUtf8Iff(filePath: Option<string>, fileExists: bool, prefix: seq<byte>,
                          sample: Io<seq<byte>>, decodedHasNonAscii: bool)
    requires PathUsable(filePath, fileExists)
    requires |prefix| >= 3
    requires !HasUtf8Bom(prefix) && !HasUtf16LEBom(prefix) && !HasUtf16BEBom(prefix)
    ensures (Detect(filePath, fileExists, Done(prefix), sample, decodedHasNonAscii) == Utf8(false))
              <==> (sample.Done? && |sample.value| > 0 && (decodedHasNonAscii || LikelyUtf8(sample.value)))
    ensures (Detect(filePath, fileExists, Done(prefix), sample, decodedHasNonAscii) != Utf8(false))
              ==> (Detect(filePath, fileExists, Done(prefix), sample, decodedHasNonAscii) == Default)
  {
  }

  /** A readable file of ASCII bytes only, at least three of them, is UTF-8
      without a mark, whatever the decoder reports. */
  lemma AsciiFileIsUtf8(filePath: Option<string>, fileExists: bool, prefix: seq<byte>,
                        sample: seq<byte>, decodedHasNonAscii: bool)
    requires PathUsable(filePath, fileExists)
    requires |prefix| >= 3 && forall k :: 0 <= k < |prefix| ==> prefix[k] < 0x80
    requires |sample| > 0 && forall k :: 0 <= k < |sample| ==> sample[k] < 0x80
    ensures Detect(filePath, fileExists, Done(prefix), Done(sample), decodedHasNonAscii) == Utf8(false)
  {
    AsciiSampleIsLikely(sample);
  }

  /** A readable file that is well-formed UTF-8 and starts without a mark is
      UTF-8 without a mark, whatever the decoder reports. */
  lemma WellFormedFileIsUtf8(filePath: Option<string>, fileExists: bool, prefix: seq<byte>,
                             sample: seq<byte>, decodedHasNonAscii: bool)
    requires PathUsable(filePath, fileExists)
    requires |prefix| >= 3
    requires !HasUtf8Bom(prefix) && !HasUtf16LEBom(prefix) && !HasUtf16BEBom(prefix)
    requires |sample| > 0 && WellFormedUtf8(sample)
    ensures Detect(filePath, fileExists, Done(prefix), Done(sample), decodedHasNonAscii) == Utf8(false)
  {
    WellFormedIsLikely(sample);
  }

  /** The UTF-8 bytes of "café" (63 61 66 C3 A9) as the whole file are
      UTF-8 without a mark. */
  lemma CafeFileIsUtf8(filePath: Option<string>, fileExists: bool, decodedHasNonAscii: bool)
    requires PathUsable(filePath, fileExists)
    ensures Detect(filePath, fileExists, Done([0x63, 0x61, 0x66, 0xC3]),
                   Done([0x63, 0x61, 0x66, 0xC3, 0xA9]), decodedHasNonAscii) == Utf8(false)
  {
    var s: seq<byte> := [0x63, 0x61, 0x66, 0xC3, 0xA9];
    assert TallyFrom(s, 5) == Tally(0, 0);
    assert UnitAt(s, 3) == Sequence(2);
    assert TallyFrom(s, 3) == Tally(2, 1);
    assert UnitAt(s, 2) == AsciiByte && UnitAt(s, 1) == AsciiByte && UnitAt(s, 0) == AsciiByte;
    assert TallyFrom(s, 0) == TallyFrom(s, 3);
    assert LikelyUtf8(s);
  }

  // ---------------------------------------------------------------------------
  // The decoder the source uses, and the one it evidently meant
  // ---------------------------------------------------------------------------

  /** Some byte of s is not ASCII. */
  predicate HasHighByte(s: seq<byte>) {
    exists k :: 0 <= k < |s| && s[k] >= 0x80
  }

  /** The source decodes with new UTF8Encoding(false), which does not throw on
      malformed input but substitutes U+FFFD: ASCII bytes decode to the same
      ASCII characters, and every other byte ends up in a character above 127,
      so the decoded text holds a non-ASCII character exactly when the sample
      holds a non-ASCII byte. Under that decoder, the scorer never decides:
      every non-empty sample without a mark is UTF-8 without a mark. */
  lemma LenientDecoderOverridesScorer(filePath: Option<string>, fileExists: bool,
                                      prefix: seq<byte>, sample: seq<byte>)
    requires PathUsable(filePath, fileExists)
    requires |prefix| >= 3
    requires !HasUtf8Bom(prefix) && !HasUtf16LEBom(prefix) && !HasUtf16BEBom(prefix)
    requires |sample| > 0
    ensures Detect(filePath, fileExists, Done(prefix), Done(sample), HasHighByte(sample)) == Utf8(false)
  {
    if !HasHighByte(sample) {
      AsciiSampleIsLikely(sample);
    }
  }

  /** The bytes 80 81 82 83, which the scorer rejects, are nonetheless
      detected as UTF-8 without a mark by the source as written. */
  lemma StrayFileAsWritten(filePath: Option<string>, fileExists: bool)
    requires PathUsable(filePath, fileExists)
    ensures !LikelyUtf8([0x80, 0x81, 0x82, 0x83])
    ensures Detect(filePath, fileExists, Done([0x80, 0x81, 0x82, 0x83]),
                   Done([0x80, 0x81, 0x82, 0x83]), HasHighByte([0x80, 0x81, 0x82, 0x83])) == Utf8(false)
  {
  }

  /** The detection the source evidently intends: a decoder that throws on
      malformed input (new UTF8Encoding(false, true)), so that a malformed
      sample falls through to the scorer, and a well-formed one reports a
      non-ASCII character exactly when it holds a non-ASCII byte. */
  function DetectStrict(filePath: Option<string>, fileExists: bool, head: Io<seq<byte>>,
                        sample: Io<seq<byte>>): Encoding
  {
    Detect(filePath, fileExists, head, sample,
           sample.Done? && WellFormedUtf8(sample.value) && HasHighByte(sample.value))
  }

  /** With the throwing decoder, a sample without a mark is UTF-8 without a
      mark exactly when the scorer accepts it: the decoder's verdict never
      overrides the 50 percent rule, since the scorer accepts every
      well-formed sample. */
  lemma StrictDetectFollowsScorer(filePath: Option<string>, fileExists: bool,
                                  prefix: seq<byte>, sample: seq<byte>)
    requires PathUsable(filePath, fileExists)
    requires |prefix| >= 3
    requires !HasUtf8Bom(prefix) && !HasUtf16LEBom(prefix) && !HasUtf16BEBom(prefix)
    ensures (DetectStrict(filePath, fileExists, Done(prefix), Done(sample)) == Utf8(false))
              <==> LikelyUtf8(sample)
  {
    if |sample| > 0 && WellFormedUtf8(sample) {
      WellFormedIsLikely(sample);
    }
  }

  /** A file that starts with a stray byte and that the scorer rejects: the
      code as written detects it as UTF-8 without a mark, while with the
      throwing decoder it gets the default. */
  lemma RejectedFile(filePath: Option<string>, fileExists: bool, s: seq<byte>)
    requires PathUsable(filePath, fileExists)
    requires |s| >= 4 && 0x80 <= s[0] <= 0xBF && !LikelyUtf8(s)
    ensures Detect(filePath, fileExists, Done(s[..4]), Done(s), HasHighByte(s)) == Utf8(false)
    ensures DetectStrict(filePath, fileExists, Done(s[..4]), Done(s)) == Default
  {
    assert HasHighByte(s) by {
      assert s[0] >= 0x80;
    }
    assert !WellFormedUtf8(s) by {
      assert CharLength(s, 0) == 0;
    }
  }

  /** The run 80 81 ... FF is such a file. */
  lemma HighBytesFile(filePath: Option<string>, fileExists: bool)
    requires PathUsable(filePath, fileExists)
    ensures Detect(filePath, fileExists, Done(HighBytes[..4]), Done(HighBytes),
                   HasHighByte(HighBytes)) == Utf8(false)
    ensures DetectStrict(filePath, fileExists, Done(HighBytes[..4]), Done(HighBytes)) == Default
  {
    HighBytesNotLikely();
    HighBytesStart();
    RejectedFile(filePath, fileExists, HighBytes);
  }

  /** With the throwing decoder, the bytes 80 81 82 83 give the default. */
  lemma StrayFileCorrected(filePath: Option<string>, fileExists: bool)
    requires PathUsable(filePath, fileExists)
    ensures DetectStrict(filePath, fileExists, Done([0x80, 0x81, 0x82, 0x83]),
                         Done([0x80, 0x81, 0x82, 0x83])) == Default
  {
  }
}
