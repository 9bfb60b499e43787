/** Values that may be absent: pointers that may be NULL in the original. */
module Options {
  datatype Option<T> = None | Some(value: T)

  /** Which steps of replacing a file by a new one succeed: creating and opening the new file,
      opening the old one again, removing the old one, and renaming the new one. */
  datatype Disk = Disk(create: bool, open: bool, reopen: bool, unlink: bool, rename: bool)
}
