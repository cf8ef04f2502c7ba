/** An optional value: the pandas "absent" result (a missing table, a failed
    parse, an operation that raised and was caught). */
module Wrappers {

  datatype Option<+T> = None | Some(value: T)
}
