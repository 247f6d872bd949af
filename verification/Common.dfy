/** Small shared vocabulary: optional results. */
module Common {

  datatype Option<+T> = None | Some(value: T)
}
