/** The optional fields of the TypeScript records (`language?`, `files?`,
    `solution?`): a value that is either absent or present. */
module Optional {

  datatype Option<+T> = None | Some(value: T)
}
