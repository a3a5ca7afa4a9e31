/** The error type shared by the encoder, the tables and the line parser (src/main.rs). */
module Errors {
  import opened Utf8

  /** The kinds of `std::num::ParseIntError` that `u32::from_str_radix` can report. */
  datatype IntErrorKind = EmptyDigits | InvalidDigit | PosOverflow

  datatype ParseError =
    | Empty
    | TooLongCode(code: seq<byte>)
    | NoTabFound(line: string)
    | MultipleCharacters(field: string)
    | NotValidChar
    | Invalid
    | ParseInt(kind: IntErrorKind)
    | CodepointMismatch
}
