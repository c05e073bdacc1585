// Optional values, used for the histogram's sparse rows and for decoded records.
module Options {
  datatype Option<T> = None | Some(value: T)
}
