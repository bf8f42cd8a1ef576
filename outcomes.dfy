/**
 * Failure-carrying results shared by the lexer, the parser and the binder.
 */
module Outcomes {

  /** The exceptions the kernel can raise. */
  datatype Error =
    | ParseError      // lexical or syntax error (the source's ParseError)
    | StopIteration   // the token stream ran out before the automaton stopped
    | UnboundName     // bind: a name with no enclosing binder ("Failed lookup")
    | Malformed       // an unchecked pop, dictionary lookup or assert that fails

  datatype Result<+T> = Ok(value: T) | Fail(error: Error) {
    predicate IsFailure() { Fail? }

    function PropagateFailure<U>(): Result<U>
      requires Fail?
    {
      Fail(error)
    }

    function Extract(): T
      requires Ok?
    {
      value
    }
  }

  datatype Option<+T> = None | Some(value: T)
}
