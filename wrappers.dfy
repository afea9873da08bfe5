/** The Some/None datatype used for optional results: an extraction that is
    skipped, a document that does not parse. */
module Wrappers {

  datatype Option<+T> = None | Some(value: T)
}
