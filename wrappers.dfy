/** The optional value used wherever the TypeScript code has `T | null` or
    `T | undefined`: `None` stands for `null`/`undefined`. */
module Wrappers {

  datatype Option<+T> = None | Some(value: T)
}
