/** The optional value used throughout the model; None stands for a
    JavaScript NaN, a missing link piece or a failed request. */
module Wrappers {

  datatype Option<+T> = None | Some(value: T)
}
