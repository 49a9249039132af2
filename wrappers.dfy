/** Optional values, used for Swift's failable initialisers (`Int(_:)`,
    `Float(_:)`, `URL(string:)`) and for arithmetic that traps. */
module Wrappers {

  datatype Option<+T> = None | Some(value: T)
}
