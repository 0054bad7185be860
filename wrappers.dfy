/** The optional value shared by the firmware and the bridge models. */
module Wrappers {

  datatype Option<+T> = None | Some(value: T)
}
