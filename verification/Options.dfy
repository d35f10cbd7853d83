// The value that may be missing.
module Options {

  datatype Option<T> = None | Some(value: T)

  // What a layer hands on: nothing for nothing.
  function OrEmpty<T>(o: Option<seq<T>>): seq<T> {
    if o.Some? then o.value else []
  }
}
