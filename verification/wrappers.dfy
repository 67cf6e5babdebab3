/** The optional value used for PHP's nullable results (`?Node`, `?ClassMethod`,
    `?ClassReflection`): `None` stands for `null`. */
module Wrappers {

  datatype Option<+T> = None | Some(value: T)
}
