/** Types shared by the encoding detector and the display-name mapping of
    SnakeTail's EncodingHelper. */
module Encodings {

  /** A raw file byte; a bit-vector so that the detector's masks read as written. */
  type byte = bv8

  /** A reference that may be null. */
  datatype Option<+T> = None | Some(value: T)

  /** The outcome of a call into the file system or the framework that may
      throw: the value it delivered, or the exception that the helper swallows. */
  datatype Io<+T> = Done(value: T) | Failed

  /** The encodings the helper hands out or is handed, as a closed set:
      UTF-8 with or without a byte-order mark, ASCII, UTF-16 little- and
      big-endian, the platform default (Encoding.Default, on the .NET runtime
      the program is built for a UTF-8 encoding without a byte-order mark, kept
      apart here because the helper hands it out by reference), and any other
      framework encoding, known only by its EncodingName. */
  datatype Encoding =
    | Utf8(bom: bool)
    | Ascii
    | Utf16LE
    | Utf16BE
    | Default
    | Other(name: string)
}
