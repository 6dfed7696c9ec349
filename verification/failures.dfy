/** Result and option types shared by the whole model, and the calculator's
    error taxonomy. Every exception the C++ code throws becomes one `Error`
    value; nothing is ever caught inside the core. */
module Failures {

  datatype Option<+T> = None | Some(value: T)

  datatype Result<+T> = Ok(value: T) | Err(error: Error)

  datatype Error =
    | BadToken              // get(): a character no token can start with
    | EndOfInput            // get(): the character source is exhausted
    | UnlexedNumber         // get(): a digit or '.' the host float parser would read
    | BufferFull            // putback() into a full buffer
    | NameExpected          // declaration(): name expected
    | AssignExpected        // declaration: "=" expected
    | OperandExpected       // expression(): operand expected
    | PrimaryExpected       // primary expected
    | Expected(closer: char) // primary(): the given ')' '}' '(' or ',' was expected
    | DivideByZero          // term() '/' and '%', and pow()
    | NarrowingError        // narrow<int>() of a value with a fractional part
    | NegativeSqrt          // sqrt of a negative number
    | NegativeFactorial     // factorial() of a negative integer
    | Overflow              // factorial(): overflow
    | UndeclaredName        // undeclared variable / not found in var_tbl
    | ImmutableAssignment   // can't change constant
    | DuplicateName         // declared twice
    | ReservedName          // is reserved name
}
