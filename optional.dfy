/** The usual Some/None wrapper, used for JavaScript values that may be absent
    (`null`, `undefined`, a missing storage key, a missing JSON field). */
module Optional {

  datatype Option<+T> = None | Some(value: T)
}
