/** The optional value shared by the scoring and history modules. */
module Wrappers {

  /** A value that may be absent: `None` stands for JavaScript's `null`/`undefined`
      and, in the scoring code, for the `NaN` returned on an empty input. */
  datatype Option<+T> = None | Some(value: T)
}
