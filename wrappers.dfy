/** The optional value used throughout the model for JavaScript's `undefined`
    (an absent query parameter, a missing property, a search that found nothing). */
module Wrappers {
  datatype Option<+T> = None | Some(value: T)
}
