/** Optional values and the single error kind of the editor. Every failure of the
    editor is one error carrying a human-readable message; the model keeps the
    fixed part of each message and drops the interpolated values. */
module Wrappers {

  datatype Option<T> = None | Some(value: T)

  /** An error the editor reports: the number of its message in `Messages`.
      Each module names the errors it raises. */
  datatype Error = Error(code: ErrorCode)

  type ErrorCode = n: nat | n < 39

  /** The text of every message, by number. */
  const Messages: seq<string> := [
    "invalid lnhash: missing '|' after line number",  // 0: ErrMissingLineSep
    "invalid lnhash: empty line number",  // 1: ErrEmptyLineno
    "invalid lnhash: bad line number",  // 2: ErrBadLineno
    "invalid lnhash: missing trailing '|' after hash",  // 3: ErrMissingHashSep
    "invalid lnhash: hash must be 4 hex chars",  // 4: ErrHashWidth
    "invalid lnhash: bad hash",  // 5: ErrBadHash
    "invalid lnhash: trailing characters after address",  // 6: ErrTrailing
    "missing command",  // 7: ErrMissingCommand
    "unexpected trailing characters",  // 8: ErrTrailingChars
    "0|0000| must have hash 0000",  // 9: ErrZeroHash
    "0|0000| is not allowed in ranges",  // 10: ErrZeroRange
    "0|0000| is only allowed with i or a",  // 11: ErrZeroOnlyIA
    "destination 0|0000| is not allowed for m",  // 12: ErrMoveZero
    "destination 0|0000| is not allowed for t",  // 13: ErrCopyZero
    "unknown command",  // 14: ErrUnknownCommand
    "invalid number",  // 15: ErrInvalidNumber
    "global requires /pat/cmd",  // 16: ErrGlobalSyntax
    "global requires a subcommand",  // 17: ErrGlobalNoSub
    "unexpected trailing characters in global subcommand",  // 18: ErrGlobalTrailing
    "substitute requires /pat/rep/[flags]",  // 19: ErrSubstSyntax
    "unknown substitute flag",  // 20: ErrUnknownFlag
    "substitute pattern may not be empty",  // 21: ErrEmptyPattern
    "missing delimiter",  // 22: ErrMissingDelim
    "unterminated delimited string",  // 23: ErrUnterminated
    "unexpected EOF while reading text block",  // 24: ErrEof
    "unexpected multiline input for this command",  // 25: ErrUnexpectedMultiline
    "0|0000| is only valid with i or a",  // 26: ErrZeroOnlyIAHere
    "address 0 is not allowed here",  // 27: ErrAddressZeroHere
    "address out of range",  // 28: ErrAddressOutOfRange
    "stale lnhash",  // 29: ErrStale
    "address 0 is not valid for this command",  // 30: ErrAddressZero
    "invalid range",  // 31: ErrInvalidRange
    "address 0 is not valid for join",  // 32: ErrJoinZero
    "cannot join: file has fewer than 2 lines",  // 33: ErrJoinShort
    "cannot join: no next line",  // 34: ErrJoinLast
    "destination 0 is not allowed",  // 35: ErrDestZero
    "destination out of range",  // 36: ErrDestRange
    "destination is within moved range",  // 37: ErrDestInside
    "invalid regex"   // 38: ErrInvalidRegex
  ]

  /** The text of an error. */
  function Message(e: Error): string {
    Messages[e.code]
  }

  datatype Result<T> = Ok(value: T) | Err(msg: Error) {

    predicate IsFailure() {
      Err?
    }

    function PropagateFailure<U>(): Result<U>
      requires Err?
    {
      Err(msg)
    }

    function Extract(): T
      requires Ok?
    {
      value
    }
  }
}
