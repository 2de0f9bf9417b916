/** The optional-value datatype shared by the model: Swift's `T?`. */
module Wrappers {

  /** `None` stands for Swift's `nil`, and for a collaborator call that threw. */
  datatype Option<+T> = None | Some(value: T)
}
