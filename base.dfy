/** Small value types shared by the whole model: optional values and the
    outcome of a Python call that either returns or raises. */
module Base {

  datatype Option<T> = None | Some(value: T) {
    /** Python's `x if x is not None else default`. */
    function GetOr(default: T): T {
      if Some? then value else default
    }
  }

  /** The exceptions the bridge can let escape. */
  datatype Error =
    | PasswordDeleteError(key: string)  // keyring.delete_password on a key that holds nothing
    | IndexError                        // indexing the second half of a split that found no separator

  /** What a Python call did: returned a value, or raised. */
  datatype Outcome<T> = Returned(value: T) | Raised(error: Error) {
    /** Keeps a raised error, replaces a returned value by `v`. */
    function WithValue<U>(v: U): Outcome<U> {
      if Returned? then Returned(v) else Raised(error)
    }
  }
}
