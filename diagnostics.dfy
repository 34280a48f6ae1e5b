/**
 * The diagnostics of the assembler. Where the program prints a message to
 * standard error and exits with status 1, the model returns one of these.
 */
module Diagnostics {

  /** Why a line's tokens were rejected (a `ValueError` raised by `preproc`). */
  datatype ArgProblem =
    | NoTokens                     // the line held no token at all: `head, *tail = []` fails
    | NotAnInteger(token: string)  // an operand token that `int` cannot read, such as `R`

  /** The four categories the line loop reports. */
  datatype Diagnostic =
    | BadArgument(problem: ArgProblem)          // "the instruction's arguments are invalid"
    | UnknownCommand(cmd: string)               // "the command name is not correct"
    | OutOfRange(value: int)                    // "the size of the value is invalid"
    | WrongArgCount(expected: nat, given: nat)  // "the number of arguments is invalid"

  /** A diagnostic together with the 1-based number of the line it concerns. */
  datatype AsmError = AsmError(line: nat, diag: Diagnostic)
}
