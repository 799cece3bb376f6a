/** The optional value used wherever the script reads a key that may be
    missing (`dict.get`) or calls a collaborator that may fail. */
module Wrappers {

  datatype Option<+T> = None | Some(value: T)
}
