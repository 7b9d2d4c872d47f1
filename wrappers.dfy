/** The optional value used wherever the source answers "not found" (a
    `std::string::npos` position, a null connection pointer). */
module Wrappers {

  datatype Option<+T> = None | Some(value: T)

}
