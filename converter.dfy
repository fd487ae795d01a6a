/** The reference converter the table generator relies on (the `iconv` binding,
    converting from a legacy encoding to UTF-8, whose output is then read back
    as a JavaScript string). The model keeps it abstract: a total function from
    the probed bytes to either the UTF-16 code units of the decoded string or
    the error code the binding throws. */
module Converter {

  /** One octet of a Node.js Buffer. */
  type Byte = x: int | 0 <= x < 0x100

  /** One UTF-16 code unit of a JavaScript string (what `charCodeAt` returns). */
  type CodeUnit = x: int | 0 <= x < 0x1_0000

  /** The `code` of an exception thrown by the converter. */
  datatype ErrorCode =
    | EILSEQ     // the bytes form no character of the encoding
    | EINVAL     // the bytes are an incomplete multi-byte sequence
    | OtherCode  // any other failure of the binding

  /** The result of converting one byte sequence. `units` is the decoded
      string as UTF-16 code units, so a character outside the BMP shows up
      as two units (a surrogate pair). */
  datatype Conversion = Ok(units: seq<CodeUnit>) | Fail(code: ErrorCode)

  /** A converter for one fixed encoding. */
  type Conv = seq<Byte> -> Conversion

  datatype Option<T> = None | Some(value: T)

  /** The binding's constructor `new Iconv(name, "UTF-8")`: the converter
      for an encoding name, or None when the binding knows no such name and
      the constructor throws. */
  type Converters = string -> Option<Conv>
}
