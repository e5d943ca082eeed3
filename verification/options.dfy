/** Python's `None` or a value, as the extraction and the session state meet it. */
module Options {

  datatype Option<T> = None | Some(value: T)

}
