/** A nullable value: a nullable column, or a lookup that may find nothing. */
module Optional {
  datatype Option<+T> = None | Some(value: T)
}
