/** The optional value used wherever the window code holds a pointer or handle
    that may be NULL, or an index that may be LB_ERR. */
module Optional {
  datatype Option<+T> = None | Some(value: T)
}
