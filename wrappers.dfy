/** The optional value used wherever the source may hold `undefined`, a falsy
    request field or a failed upstream call. */
module Wrappers {

  datatype Option<+T> = None | Some(value: T)
}
