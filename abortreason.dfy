/** An abort record as the parser collects it: the source position and the
    message of one `---- TRACE n abort` header. How a header line is decoded
    into these fields is not part of this model; the parser takes the decoder
    as a parameter. */
module AbortReasons {
  datatype AbortReason = AbortReason(file: string, line: nat, reason: string)

  /** The keys the abort views group records by. */
  function FileOf(a: AbortReason): string { a.file }
  function LineOf(a: AbortReason): nat { a.line }
  function ReasonOf(a: AbortReason): string { a.reason }
}
