/** Option and exception-carrying results shared by every module of the model. */
module Wrappers {

  /** JavaScript `null`/`undefined` versus a present value. */
  datatype Option<+T> = None | Some(value: T)

  /** The exception a JavaScript operation raises. */
  datatype Exception =
    | TypeError                 // e.g. reading a property of `undefined`
    | RangeError                // e.g. a Buffer read or write out of bounds
    | Error(message: string)    // `new Error(message)` thrown or passed on by the code itself

  /** A value, or the exception raised while computing it. */
  datatype Result<+T> = Ok(value: T) | Throw(exception: Exception)
}
