/** Small shared vocabulary: the optional value the Python code expresses with None. */
module Common {

  datatype Option<T> = None | Some(value: T)

}
