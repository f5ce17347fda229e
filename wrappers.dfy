/** `Option` and `Result`, used for the errors `rename_top_cell` and `update_lef_file` raise. */
module Wrappers {

  datatype Option<+T> = None | Some(value: T)

  datatype Result<+R, +E> = Success(value: R) | Failure(error: E)
}
