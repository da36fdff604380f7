/** The optional value used where the script keeps `None` (a note's content before its
    header is met, a folder's missing parent). */
module Wrappers {

  datatype Option<+T> = None | Some(value: T)

}
