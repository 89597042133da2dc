/** The null-able value: `None` stands for pandas' NaN in an id column or an absent field. */
module Wrappers {

  datatype Option<+T> = None | Some(value: T)

}
