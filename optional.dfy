/** A value that may be absent: JavaScript's null/undefined, a cancelled prompt,
    a missing storage entry or a missing object member. */
module Optional {

  datatype Option<+T> = None | Some(value: T)
}
