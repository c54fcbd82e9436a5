/** The Option and Ordering types shared by the models. */
module Wrappers {
  datatype Option<+T> = None | Some(value: T)

  datatype Ordering = Less | Equal | Greater

  function Compare(a: int, b: int): Ordering {
    if a < b then Less else if a == b then Equal else Greater
  }
}
