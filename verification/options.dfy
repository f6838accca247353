/** Optional values: Python's `None`-or-value, used for the optional product
    fields and for "nothing matched" results of a selector cascade. */
module Options {

  datatype Option<+T> = None | Some(value: T)
}
