/** The optional value used wherever the source either produces something or reports
    that it did not (a miss, no pixel data, no accepted random sample). */
module Options {
  datatype Option<+T> = None | Some(value: T)
}
