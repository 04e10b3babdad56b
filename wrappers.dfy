/** The optional value used where the page's code may find nothing:
    a DOM lookup that returns null, a model without an animation clip. */
module Wrappers {

  datatype Option<+T> = None | Some(value: T)
}
