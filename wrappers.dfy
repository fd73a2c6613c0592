/** Optional values, the failures the build can raise, and a result type that carries them. */
module Wrappers {

  datatype Option<+T> = None | Some(value: T)

  /** The exceptions the modelled code lets escape, by kind. */
  datatype Error =
    | NoEntry                      // ENOENT: nothing at that path
    | IsDirectory                  // EISDIR: a file operation named a directory
    | NotDirectory                 // ENOTDIR / EEXIST: a directory was expected, a file is there
    | ConverterThrew(message: string)
    | BadJson                      // JSON.parse threw
    | TypeError                    // a method was called on `undefined`

  /** What a call that may throw returns: its value, or the error it threw. */
  datatype Result<+T> = Ok(value: T) | Err(error: Error) {
    predicate IsFailure() {
      Err?
    }

    function PropagateFailure<U>(): Result<U>
      requires Err?
    {
      Err(error)
    }

    function Extract(): T
      requires Ok?
    {
      value
    }
  }
}
