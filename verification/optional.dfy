/** An optional value: an unset environment variable, a nil `*string`
    in the configuration, or a hook that returned no error. */
module Optional {

  datatype Option<+T> = None | Some(value: T)
}
