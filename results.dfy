/** The optional and failing results used by the model. */
module Results {

  datatype Option<+T> = None | Some(value: T)

  /** What loading the dictionaries can fail with. */
  datatype LoadError =
    /** An alias line without a comma: the loader asks for the second
        comma-separated field of the line and fails with an index error.
        `line` is the zero-based position of the offending line. */
    | AliasFieldMissing(line: nat)

  datatype Result<+T> = Ok(value: T) | Err(error: LoadError)
}
