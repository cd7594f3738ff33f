/** The display-name mapping (EncodingHelper.GetEncodingDisplayName and
    GetEncodingFromDisplayName): the label stored in a tail configuration for
    an encoding, and the encoding a stored label stands for. Parsing ignores
    ASCII letter case, accepts synonyms, and falls back to the platform
    default for anything it does not know. */
module EncodingNames {
  import opened Encodings

  /** The EncodingName the framework gives UTF-16 big-endian, which the
      display mapping hands through unchanged. */
  const BigEndianEncodingName: string := "Unicode (Big-Endian)"

  /** GetEncodingDisplayName(encoding); None is a null encoding. On the .NET
      runtime the program is built for, the platform default is a UTF8Encoding
      without a preamble, so it takes the UTF8 branch and is labelled "UTF8";
      the comparison with Encoding.Default after it is never reached. Every
      encoding the parser can produce gets a label the parser recognises, and
      only a foreign encoding with an empty name gets an empty label. */
  function DisplayName(encoding: Option<Encoding>): (shown: string)
    ensures encoding.Some? && !encoding.value.Utf16BE? && !encoding.value.Other? ==> IsKnownKey(ToUpper(shown))
    ensures shown == "" ==> encoding.Some? && encoding.value.Other? && encoding.value.name == ""
  {
    match encoding
    case None => "Default"
    case Some(Utf8(bom)) => if bom then "UTF8 BOM" else "UTF8"
    case Some(Ascii) => "ASCII"
    case Some(Utf16LE) =>
      assert ToUpper("Unicode (UTF16 LE)") == "UNICODE (UTF16 LE)";
      "Unicode (UTF16 LE)"
    case Some(Default) => "UTF8"
    case Some(Utf16BE) => BigEndianEncodingName
    case Some(Other(name)) => name
  }

  /** The upper-case form of an ASCII letter; every other character is kept. */
  function UpperChar(c: char): char {
    if 'a' <= c <= 'z' then (c as int - 32) as char else c
  }

  /** ASCII upper-casing of a whole string, character by character. */
  function ToUpper(s: string): string {
    seq(|s|, k requires 0 <= k < |s| => UpperChar(s[k]))
  }

  /** GetEncodingFromDisplayName(displayName); None is a null label. Only
      UTF-8 with or without a mark, ASCII, UTF-16 little-endian and the
      default can come out. */
  function FromDisplayName(displayName: Option<string>): (e: Encoding)
    ensures e == Utf8(false) || e == Utf8(true) || e == Ascii || e == Utf16LE || e == Default
  {
    if displayName.None? || displayName.value == "" then Default
    else
      var key := ToUpper(displayName.value);
      if key == "UTF8" || key == "UTF-8" then Utf8(false)
      else if key == "UTF8 BOM" || key == "UTF-8 BOM" then Utf8(true)
      else if key == "ASCII" then Ascii
      else if key == "UNICODE" || key == "UNICODE (UTF16 LE)" || key == "UTF16" || key == "UTF-16" then Utf16LE
      else Default  // "DEFAULT" and every other label
  }

  /** The labels FromDisplayName recognises, in upper case. */
  predicate IsKnownKey(key: string) {
    || key == "UTF8" || key == "UTF-8"
    || key == "UTF8 BOM" || key == "UTF-8 BOM"
    || key == "ASCII"
    || key == "UNICODE" || key == "UNICODE (UTF16 LE)" || key == "UTF16" || key == "UTF-16"
  }

  /** The encodings whose label parses back to themselves. */
  predicate HasOwnLabel(e: Encoding) {
    e.Utf8? || e == Ascii || e == Utf16LE
  }

  // ---------------------------------------------------------------------------
  // Properties of the mapping
  // ---------------------------------------------------------------------------

  /** Upper-casing twice changes nothing more. */
  lemma ToUpperIdempotent(s: string)
    ensures ToUpper(ToUpper(s)) == ToUpper(s)
  {
  }

  /** A string without lower-case ASCII letters is its own upper-case form. */
  lemma ToUpperFixesUpper(s: string)
    requires forall k :: 0 <= k < |s| ==> !('a' <= s[k] <= 'z')
    ensures ToUpper(s) == s
  {
  }

  /** The label of UTF-8, UTF-8 with a mark, ASCII and UTF-16 little-endian
      parses back to the same encoding. */
  lemma RoundTrip(e: Encoding)
    requires HasOwnLabel(e)
    ensures FromDisplayName(Some(DisplayName(Some(e)))) == e
  {
    match e
    case Utf8(bom) =>
      if bom {
        ToUpperFixesUpper("UTF8 BOM");
      } else {
        ToUpperFixesUpper("UTF8");
      }
    case Ascii =>
      ToUpperFixesUpper("ASCII");
    case Utf16LE =>
      assert ToUpper("Unicode (UTF16 LE)") == "UNICODE (UTF16 LE)";
  }

  /** The labels of the four encodings with a label of their own are distinct. */
  lemma DisplayNamesDistinct(e1: Encoding, e2: Encoding)
    requires HasOwnLabel(e1) && HasOwnLabel(e2) && e1 != e2
    ensures DisplayName(Some(e1)) != DisplayName(Some(e2))
  {
  }

  /** The platform default is labelled "UTF8" and so comes back as a new
      UTF-8 encoding without a mark; both decode alike, but the default does
      not round-trip to itself and shares its label with UTF-8. */
  lemma DefaultIsLabelledUtf8()
    ensures DisplayName(Some(Default)) == DisplayName(Some(Utf8(false))) == "UTF8"
    ensures FromDisplayName(Some(DisplayName(Some(Default)))) == Utf8(false)
  {
    ToUpperFixesUpper("UTF8");
  }

  /** UTF-16 big-endian does not round-trip: its framework name is no known
      label, so it parses to the default. */
  lemma BigEndianDoesNotRoundTrip()
    ensures FromDisplayName(Some(DisplayName(Some(Utf16BE)))) == Default
  {
  }

  /** Neither does any other framework encoding. */
  lemma OtherDoesNotRoundTrip(name: string)
    ensures FromDisplayName(Some(DisplayName(Some(Other(name))))) != Other(name)
  {
  }

  /** A null encoding is labelled "Default", which parses to the default. */
  lemma NullEncodingIsDefault()
    ensures DisplayName(None) == "Default"
    ensures FromDisplayName(Some(DisplayName(None))) == Default
  {
    assert ToUpper("Default") == "DEFAULT";
  }

  /** Parsing ignores ASCII letter case: two labels with the same upper-case
      form parse to the same encoding. */
  lemma ParseIgnoresCase(a: string, b: string)
    requires ToUpper(a) == ToUpper(b)
    ensures FromDisplayName(Some(a)) == FromDisplayName(Some(b))
  {
  }

  /** Every label parses as its upper-case form does. */
  lemma ParseOfUpperCase(s: string)
    ensures FromDisplayName(Some(ToUpper(s))) == FromDisplayName(Some(s))
  {
  }

  /** The synonyms, in any letter case: "UTF-8" for "UTF8", "UTF-8 BOM" for
      "UTF8 BOM", and "UNICODE", "UTF16" and "UTF-16" for UTF-16
      little-endian. */
  lemma Synonyms()
    ensures FromDisplayName(Some("utf-8")) == Utf8(false)
    ensures FromDisplayName(Some("Utf-8 Bom")) == Utf8(true)
    ensures FromDisplayName(Some("unicode")) == Utf16LE
    ensures FromDisplayName(Some("utf16")) == Utf16LE
    ensures FromDisplayName(Some("UTF-16")) == Utf16LE
  {
    assert ToUpper("utf-8") == "UTF-8";
    assert ToUpper("Utf-8 Bom") == "UTF-8 BOM";
    assert ToUpper("unicode") == "UNICODE";
    assert ToUpper("utf16") == "UTF16";
    ToUpperFixesUpper("UTF-16");
  }

  /** A null or empty label, and one whose upper-case form is not known,
      parse to the default. */
  lemma UnknownLabelIsDefault(displayName: Option<string>)
    requires displayName.Some? ==> !IsKnownKey(ToUpper(displayName.value))
    ensures FromDisplayName(displayName) == Default
  {
  }

  /** For instance "bogus". */
  lemma BogusLabelIsDefault()
    ensures FromDisplayName(Some("bogus")) == Default
  {
    assert ToUpper("bogus") == "BOGUS";
  }
}
