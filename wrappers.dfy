/** The optional values of the store: a TypeScript `?:` field or a value that may be `undefined`. */
module Wrappers {

  datatype Option<T> = None | Some(value: T)
}
