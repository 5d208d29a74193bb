/** Python's `None`-or-value and the exceptions `InterviewPractice` raises,
    turned into values so that every error path is part of a contract. */
module Errors {

  /** A value that may be Python's `None`. */
  datatype Option<+T> = None | Some(value: T)

  /** Why an operation of the practice session raised instead of returning. */
  datatype Error =
    | EmptyBank                                // ValueError: no questions in the bank
    | EmptyCategory(category: Option<string>)  // ValueError: the category filter matched nothing
    | InvalidIndex                             // ValueError: idx is None or idx >= len(candidates)
    | IndexOutOfRange                          // IndexError: candidates[idx] with idx < -len(candidates)
    | NoActiveQuestion                         // ValueError: no question has been asked
    | QuestionNotFound                         // StopIteration: the current id is not in the bank
    | ModelUnavailable                         // ImportError: semantic comparison without an embedding model
    | UnsupportedMethod                        // ValueError: unknown comparison method

  /** The value an operation returns, or the exception it raises. */
  datatype Result<+T> = Ok(value: T) | Err(error: Error)
}
