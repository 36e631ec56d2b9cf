/** The usual optional value, used where the C++ code has "no task", "no such
    record" or a read that would leave the buffer. */
module Options {
  datatype Option<+T> = None | Some(value: T)
}
