/** The Python exceptions the modelled scripts can raise, and the value-or-exception
    result that every partial operation of the model returns instead of raising. */
module Outcomes {

  datatype Option<+T> = None | Some(value: T)

  datatype Error =
    | KeyError(key: string)          // a missing dictionary, group or attribute key
    | ValueError(message: string)    // an explicit `raise ValueError(...)` or a failed unpacking
    | TypeError                      // an operand of the wrong type (`in` on an int, `json.loads` of a list)
    | AttributeError                 // a method called on a value that lacks it (`split` on a list)
    | ZeroDivisionError              // `//` by zero
    | JsonDecodeError                // `json.loads` of malformed text

  datatype Result<+T> = Ok(value: T) | Fail(error: Error)
}
