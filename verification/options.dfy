/** Optional values: the model's stand-in for Java's `Optional` and for
    fields and arguments that may be `null`. */
module Options {

  datatype Option<+T> = None | Some(value: T)
}
