/** The error values of src/error.rs. */
module Errors {
  import opened Tokens

  /** `TokenizerError`. */
  datatype TokenizerError =
    | RepeatedKeyNotMatch(expected: char, found: char, full: string)
    | EmptyShortKey

  /** `Error<VP>`: what building a value from the command line can report;
      `VP` is the payload of a value that failed to parse. */
  datatype Error<+VP> =
    | Tokenizer(tokenizerError: TokenizerError)
    | UnknownOption(token: Token)
    | UnexpectedMulti(token: Token)
    | ExpectedValue(token: Token)
    | UnexpectedValue(token: Token)
    | ExpectedPositional(token: Token)
    | UnexpectedPositional(token: Token)
    | RequiredOption(option: string)
    | TooManyOptions(token: Token)
    | ValueParse(payload: VP)

  /** Returned by a switch that is set a second time. */
  datatype SwitchAlreadySetError = SwitchAlreadySetError

  /** Returned by a counter that would go past its maximum. */
  datatype TooManyOptionsError = TooManyOptionsError
}
