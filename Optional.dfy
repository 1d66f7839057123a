/** A value that may be missing: an absent file, a cancelled dialog. */
module Optional {
  datatype Option<+T> = None | Some(value: T)
}
