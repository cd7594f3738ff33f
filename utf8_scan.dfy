/** The heuristic UTF-8 scorer (EncodingHelper.IsLikelyUtf8): one left-to-right
    scan over a byte sample that counts the non-ASCII lead bytes it meets and
    the bytes of the well-formed multi-byte sequences they start, and accepts
    the sample when at least half as many valid bytes as non-ASCII bytes were
    seen. The bit patterns are those of RFC 3629, section 3. */
module Utf8Scan {
  import opened Encodings

  // ---------------------------------------------------------------------------
  // Bit patterns
  // ---------------------------------------------------------------------------

  /** A continuation byte, bit pattern 10xxxxxx, tested by mask as the scanner does. */
  predicate IsContinuation(b: byte) {
    (b & 0xC0) == 0x80
  }

  /** The length a byte announces by its leading bits, read off value ranges
      (RFC 3629, section 3): 1 for 0xxxxxxx, 2 for 110xxxxx, 3 for 1110xxxx,
      4 for 11110xxx, and 0 for a continuation byte or 11111xxx. This is the
      reference the scanner's masks are checked against. */
  function LeadLength(b: byte): nat {
    if b <= 0x7F then 1
    else if 0xC0 <= b <= 0xDF then 2
    else if 0xE0 <= b <= 0xEF then 3
    else if 0xF0 <= b <= 0xF7 then 4
    else 0
  }

  // ---------------------------------------------------------------------------
  // The scan, as a specification
  // ---------------------------------------------------------------------------

  /** What the scanner recognises at one position: an ASCII byte, a
      multi-byte sequence of the given length, or a stray non-ASCII byte. */
  datatype Unit = AsciiByte | Sequence(len: nat) | Stray

  /** The unit the scanner recognises at position i of the sample s. It looks
      ahead only as far as the sample reaches: a multi-byte sequence is
      recognised exactly when the lead byte announces 2 to 4 bytes, that many
      bytes remain, and all of the following ones are continuation bytes. */
  function UnitAt(s: seq<byte>, i: nat): (u: Unit)
    requires i < |s|
    ensures u.AsciiByte? <==> s[i] < 0x80
    ensures u.Sequence? <==>
              && 2 <= LeadLength(s[i])
              && i + LeadLength(s[i]) <= |s|
              && forall k :: i < k < i + LeadLength(s[i]) ==> 0x80 <= s[k] <= 0xBF
    ensures u.Sequence? ==> u.len == LeadLength(s[i])
  {
    var b := s[i];
    if b < 0x80 then
      AsciiByte
    else if (b & 0xE0) == 0xC0 && i + 1 < |s| && IsContinuation(s[i + 1]) then
      Sequence(2)
    else if (b & 0xF0) == 0xE0 && i + 2 < |s|
            && IsContinuation(s[i + 1]) && IsContinuation(s[i + 2]) then
      Sequence(3)
    else if (b & 0xF8) == 0xF0 && i + 3 < |s|
            && IsContinuation(s[i + 1]) && IsContinuation(s[i + 2])
            && IsContinuation(s[i + 3]) then
      Sequence(4)
    else
      Stray
  }

  /** The scanner's two counters. */
  datatype Tally = Tally(valid: nat, nonAscii: nat)

  /** What the scan adds to the counters from position i to the end of s:
      an ASCII byte adds nothing and advances one position; a multi-byte
      sequence counts its lead byte as non-ASCII, all of its bytes as valid,
      and advances past it; a stray byte counts as non-ASCII only and
      advances one position. */
  function TallyFrom(s: seq<byte>, i: nat): Tally
    requires i <= |s|
    decreases |s| - i
  {
    if i == |s| then Tally(0, 0)
    else
      match UnitAt(s, i)
      case AsciiByte => TallyFrom(s, i + 1)
      case Sequence(n) =>
        var t := TallyFrom(s, i + n);
        Tally(t.valid + n, t.nonAscii + 1)
      case Stray =>
        var t := TallyFrom(s, i + 1);
        Tally(t.valid, t.nonAscii + 1)
  }

  /** The verdict IsLikelyUtf8 gives for the sample s: false for an empty
      sample, true for one without non-ASCII bytes, and otherwise whether the
      integer percentage of valid bytes over non-ASCII bytes reaches 50. The
      50 percent rule with integer division is the same as asking for twice
      the valid bytes to reach the non-ASCII bytes. */
  function LikelyUtf8(s: seq<byte>): (likely: bool)
    ensures likely <==> |s| > 0 && 2 * TallyFrom(s, 0).valid >= TallyFrom(s, 0).nonAscii
  {
    if |s| == 0 then false
    else
      var t := TallyFrom(s, 0);
      if t.nonAscii > 0 then
        PercentAtLeastHalf(t.valid, t.nonAscii);
        t.valid * 100 / t.nonAscii >= 50
      else true
  }

  // ---------------------------------------------------------------------------
  // The scan, as the source runs it
  // ---------------------------------------------------------------------------

  /** IsLikelyUtf8(buffer, length): scans the first length bytes of buffer. */
  method IsLikelyUtf8(buffer: array<byte>, length: int) returns (likely: bool)
    requires 0 <= length <= buffer.Length
    ensures likely == LikelyUtf8(buffer[..length])
  {
    if length == 0 {
      return false;
    }
    ghost var s := buffer[..length];
    var validUtf8Bytes := 0;
    var totalNonAsciiBytes := 0;
    var i := 0;
    while i < length
      invariant 0 <= validUtf8Bytes <= i <= length
      invariant 0 <= totalNonAsciiBytes <= i
      invariant validUtf8Bytes + TallyFrom(s, i).valid == TallyFrom(s, 0).valid
      invariant totalNonAsciiBytes + TallyFrom(s, i).nonAscii == TallyFrom(s, 0).nonAscii
      decreases length - i
    {
      var b := buffer[i];
      if b < 0x80 {
        i := i + 1;
      } else {
        totalNonAsciiBytes := totalNonAsciiBytes + 1;
        if (b & 0xE0) == 0xC0 && i + 1 < length && (buffer[i + 1] & 0xC0) == 0x80 {
          validUtf8Bytes := validUtf8Bytes + 2;
          i := i + 2;
        } else if (b & 0xF0) == 0xE0 && i + 2 < length
                  && (buffer[i + 1] & 0xC0) == 0x80 && (buffer[i + 2] & 0xC0) == 0x80 {
          validUtf8Bytes := validUtf8Bytes + 3;
          i := i + 3;
        } else if (b & 0xF8) == 0xF0 && i + 3 < length
                  && (buffer[i + 1] & 0xC0) == 0x80 && (buffer[i + 2] & 0xC0) == 0x80
                  && (buffer[i + 3] & 0xC0) == 0x80 {
          validUtf8Bytes := validUtf8Bytes + 4;
          i := i + 4;
        } else {
          i := i + 1;
        }
      }
    }
    if totalNonAsciiBytes > 0 {
      return validUtf8Bytes * 100 / totalNonAsciiBytes >= 50;
    }
    return true;
  }

  // ---------------------------------------------------------------------------
  // Properties of the scan
  // ---------------------------------------------------------------------------

  /** An empty sample is never judged UTF-8. */
  lemma EmptySampleIsNotLikely()
    ensures !LikelyUtf8([])
  {
  }

  /** ASCII bytes leave both counters untouched. */
  lemma {:induction false} AsciiTally(s: seq<byte>, i: nat)
    requires i <= |s|
    requires forall k :: i <= k < |s| ==> s[k] < 0x80
    ensures TallyFrom(s, i) == Tally(0, 0)
    decreases |s| - i
  {
    if i < |s| {
      AsciiTally(s, i + 1);
    }
  }

  /** A non-empty sample of ASCII bytes only is judged UTF-8. */
  lemma AsciiSampleIsLikely(s: seq<byte>)
    requires |s| > 0
    requires forall k :: 0 <= k < |s| ==> s[k] < 0x80
    ensures LikelyUtf8(s)
  {
    AsciiTally(s, 0);
  }

  /** A non-ASCII byte that does not start a complete sequence of continuation
      bytes of the length its bit pattern announces is counted as non-ASCII,
      adds nothing to the valid bytes, and the scan resumes at the next byte. */
  lemma StrayByteStep(s: seq<byte>, i: nat)
    requires i < |s| && 0x80 <= s[i]
    requires !(&& 2 <= LeadLength(s[i])
               && i + LeadLength(s[i]) <= |s|
               && forall k :: i < k < i + LeadLength(s[i]) ==> 0x80 <= s[k] <= 0xBF)
    ensures TallyFrom(s, i) == Tally(TallyFrom(s, i + 1).valid, TallyFrom(s, i + 1).nonAscii + 1)
  {
  }

  /** A lead byte announcing three bytes followed by only one continuation
      byte at the end of the sample is not read past the end: both bytes are
      counted as stray non-ASCII bytes and none as valid. */
  lemma TruncatedTailIsStray(s: seq<byte>)
    requires |s| >= 2
    requires 0xE0 <= s[|s| - 2] <= 0xEF && 0x80 <= s[|s| - 1] <= 0xBF
    ensures TallyFrom(s, |s| - 2) == Tally(0, 2)
  {
    assert UnitAt(s, |s| - 2) == Stray;
    assert UnitAt(s, |s| - 1) == Stray;
    assert TallyFrom(s, |s| - 1) == Tally(0, 1);
  }

  /** Continuation bytes alone are all stray. */
  lemma {:induction false} ContinuationOnlyTally(s: seq<byte>, i: nat)
    requires i <= |s|
    requires forall k :: i <= k < |s| ==> 0x80 <= s[k] <= 0xBF
    ensures TallyFrom(s, i) == Tally(0, |s| - i)
    decreases |s| - i
  {
    if i < |s| {
      ContinuationOnlyTally(s, i + 1);
    }
  }

  /** A non-empty sample made only of bytes 0x80 to 0xBF is not judged UTF-8. */
  lemma ContinuationOnlyIsNotLikely(s: seq<byte>)
    requires |s| > 0
    requires forall k :: 0 <= k < |s| ==> 0x80 <= s[k] <= 0xBF
    ensures !LikelyUtf8(s)
  {
    ContinuationOnlyTally(s, 0);
  }

  /** When no byte from 0xC0 up is followed by a continuation byte, no
      multi-byte sequence is ever recognised: none of the 2-, 3- or 4-byte
      guards passes, every non-ASCII byte is stray, and the valid count stays
      zero while the non-ASCII count is the number of bytes from 0x80 up. */
  lemma {:induction false} NoTailAfterLead(s: seq<byte>, i: nat)
    requires i <= |s|
    requires forall j :: i <= j && j + 1 < |s| && s[j] >= 0xC0 ==> !(0x80 <= s[j + 1] <= 0xBF)
    ensures TallyFrom(s, i).valid == 0
    ensures TallyFrom(s, i).nonAscii == |set j | i <= j < |s| && s[j] >= 0x80|
    decreases |s| - i
  {
    if i < |s| {
      NoTailAfterLead(s, i + 1);
      var rest := set j | i + 1 <= j < |s| && s[j] >= 0x80;
      if s[i] >= 0x80 {
        assert !UnitAt(s, i).Sequence? by {
          if i + 1 < |s| && LeadLength(s[i]) >= 2 {
            assert !(0x80 <= s[i + 1] <= 0xBF);
          }
        }
        assert (set j | i <= j < |s| && s[j] >= 0x80) == rest + {i};
      } else {
        assert (set j | i <= j < |s| && s[j] >= 0x80) == rest;
      }
    }
  }

  /** The bytes b, b + 1, ..., FF, in order. */
  function RunTo(b: byte): seq<byte>
    decreases 0xFF - b as int
  {
    if b == 0xFF then [0xFF] else [b] + RunTo(b + 1)
  }

  /** Strictly increasing bytes. */
  predicate Increasing(s: seq<byte>) {
    forall j :: 0 <= j && j + 1 < |s| ==> s[j] < s[j + 1]
  }

  /** RunTo(b) starts at b, never drops below b, and increases. */
  lemma {:induction false} RunToFacts(b: byte)
    ensures |RunTo(b)| > 0 && RunTo(b)[0] == b
    ensures forall j :: 0 <= j < |RunTo(b)| ==> RunTo(b)[j] >= b
    ensures Increasing(RunTo(b))
    decreases 0xFF - b as int
  {
    if b != 0xFF {
      RunToFacts(b + 1);
    }
  }

  /** The run of bytes 80 81 82 ... FF, every non-ASCII byte once in order. */
  const HighBytes: seq<byte> := RunTo(0x80)

  /** The run starts 80 81 82 83. */
  lemma HighBytesStart()
    ensures |HighBytes| >= 4 && HighBytes[..4] == [0x80, 0x81, 0x82, 0x83]
  {
    assert HighBytes == [0x80, 0x81, 0x82] + RunTo(0x83);
    RunToFacts(0x83);
  }

  /** In that run no lead byte is followed by a continuation byte, so no
      byte counts as valid, every byte counts as non-ASCII, and the scorer
      rejects it. */
  lemma HighBytesNotLikely()
    ensures TallyFrom(HighBytes, 0).valid == 0
    ensures TallyFrom(HighBytes, 0).nonAscii == |set j | 0 <= j < |HighBytes| && HighBytes[j] >= 0x80|
    ensures TallyFrom(HighBytes, 0).nonAscii > 0
    ensures !LikelyUtf8(HighBytes)
  {
    RunToFacts(0x80);
    NoTailAfterLead(HighBytes, 0);
    assert 0 in (set j | 0 <= j < |HighBytes| && HighBytes[j] >= 0x80);
  }

  /** The counters never exceed the bytes scanned, and each non-ASCII lead
      byte accounts for at most four valid bytes. */
  lemma {:induction false} TallyBounds(s: seq<byte>, i: nat)
    requires i <= |s|
    ensures TallyFrom(s, i).valid <= |s| - i
    ensures TallyFrom(s, i).nonAscii <= |s| - i
    ensures TallyFrom(s, i).valid <= 4 * TallyFrom(s, i).nonAscii
    decreases |s| - i
  {
    if i < |s| {
      match UnitAt(s, i)
      case AsciiByte => TallyBounds(s, i + 1);
      case Sequence(n) => TallyBounds(s, i + n);
      case Stray => TallyBounds(s, i + 1);
    }
  }

  /** floor(v * 100 / n) >= 50 exactly when 2 * v >= n. */
  lemma PercentAtLeastHalf(v: nat, n: nat)
    requires n > 0
    ensures v * 100 / n >= 50 <==> 2 * v >= n
  {
  }

  /** On a sample of at most 8192 bytes, the product validUtf8Bytes * 100 fits
      in a signed 32-bit integer, so the unbounded model computes what the
      source computes. */
  lemma PercentFitsInt32(s: seq<byte>)
    requires |s| <= 8192
    ensures TallyFrom(s, 0).valid * 100 < 0x8000_0000
  {
    TallyBounds(s, 0);
  }

  /** A lone C3 A9 (U+00E9) counts one non-ASCII byte and two valid bytes,
      giving 2 * 100 / 1. */
  lemma LoneTwoByteSequence()
    ensures TallyFrom([0xC3, 0xA9], 0) == Tally(2, 1)
    ensures LikelyUtf8([0xC3, 0xA9])
  {
    assert UnitAt([0xC3, 0xA9], 0) == Sequence(2);
  }

  // ---------------------------------------------------------------------------
  // Strict UTF-8 (RFC 3629, section 4) as a reference
  // ---------------------------------------------------------------------------

  /** A byte in the continuation range 0x80 to 0xBF. */
  predicate IsTail(b: byte) {
    0x80 <= b <= 0xBF
  }

  /** The length of the well-formed character (RFC 3629, section 4) that
      starts at position i of s, or 0 when none starts there: this excludes
      overlong forms, surrogates and code points above U+10FFFF, which the
      scanner lets through. */
  function CharLength(s: seq<byte>, i: nat): (n: nat)
    requires i < |s|
    ensures n <= 4 && i + n <= |s|
  {
    var b := s[i];
    if b <= 0x7F then 1
    else if 0xC2 <= b <= 0xDF then
      if i + 1 < |s| && IsTail(s[i + 1]) then 2 else 0
    else if b == 0xE0 then
      if i + 2 < |s| && 0xA0 <= s[i + 1] <= 0xBF && IsTail(s[i + 2]) then 3 else 0
    else if (0xE1 <= b <= 0xEC) || (0xEE <= b <= 0xEF) then
      if i + 2 < |s| && IsTail(s[i + 1]) && IsTail(s[i + 2]) then 3 else 0
    else if b == 0xED then
      if i + 2 < |s| && 0x80 <= s[i + 1] <= 0x9F && IsTail(s[i + 2]) then 3 else 0
    else if b == 0xF0 then
      if i + 3 < |s| && 0x90 <= s[i + 1] <= 0xBF && IsTail(s[i + 2]) && IsTail(s[i + 3]) then 4 else 0
    else if 0xF1 <= b <= 0xF3 then
      if i + 3 < |s| && IsTail(s[i + 1]) && IsTail(s[i + 2]) && IsTail(s[i + 3]) then 4 else 0
    else if b == 0xF4 then
      if i + 3 < |s| && 0x80 <= s[i + 1] <= 0x8F && IsTail(s[i + 2]) && IsTail(s[i + 3]) then 4 else 0
    else 0
  }

  /** The bytes of s from position i on are a sequence of well-formed characters. */
  predicate WellFormedFrom(s: seq<byte>, i: nat)
    requires i <= |s|
    decreases |s| - i
  {
    i == |s| || (CharLength(s, i) > 0 && WellFormedFrom(s, i + CharLength(s, i)))
  }

  /** s is well-formed UTF-8. */
  predicate WellFormedUtf8(s: seq<byte>) {
    WellFormedFrom(s, 0)
  }

  /** Where a well-formed character starts, the scanner recognises exactly it. */
  lemma CharLengthAgreesWithScanner(s: seq<byte>, i: nat)
    requires i < |s| && CharLength(s, i) > 0
    ensures CharLength(s, i) == 1 ==> UnitAt(s, i).AsciiByte?
    ensures CharLength(s, i) >= 2 ==> UnitAt(s, i) == Sequence(CharLength(s, i))
  {
  }

  /** On well-formed input every non-ASCII lead byte brings two or more valid bytes. */
  lemma {:induction false} WellFormedTally(s: seq<byte>, i: nat)
    requires i <= |s| && WellFormedFrom(s, i)
    ensures TallyFrom(s, i).valid >= 2 * TallyFrom(s, i).nonAscii
    decreases |s| - i
  {
    if i < |s| {
      CharLengthAgreesWithScanner(s, i);
      WellFormedTally(s, i + CharLength(s, i));
    }
  }

  /** The scorer never rejects a non-empty well-formed UTF-8 sample. */
  lemma WellFormedIsLikely(s: seq<byte>)
    requires |s| > 0 && WellFormedUtf8(s)
    ensures LikelyUtf8(s)
  {
    WellFormedTally(s, 0);
  }

  /** The scorer is more lenient than RFC 3629: the overlong form C0 80 is
      not well-formed, yet it counts as a valid two-byte sequence. */
  lemma OverlongIsLikelyButMalformed()
    ensures !WellFormedUtf8([0xC0, 0x80])
    ensures LikelyUtf8([0xC0, 0x80])
  {
    assert UnitAt([0xC0, 0x80], 0) == Sequence(2);
  }
}
