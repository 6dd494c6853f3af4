/** The optional value the C# code writes as a nullable reference (`string?`, `T?`). */
module Wrappers {

  datatype Option<+T> = None | Some(value: T)
}
