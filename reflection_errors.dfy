/** The exceptions the reflective helpers let escape, one constructor per distinct cause. */
module ReflectionErrors {
  import opened Wrappers

  datatype Error =
    // ReflectionPathException, by cause
    | NullEntryInPath
    | EmptyMap(entry: string)
    | KeyNotDeserialized(entry: string)
    | KeyNotFound(entry: string)
    | IndexMalformed(entry: string)
    | IndexBeyondSize(entry: string)
    | NotACollection(entry: string)
    | FieldDoesNotExist(name: string)
    | FieldNotAccessible(name: string)
    // exceptions that are not converted to ReflectionPathException
    | ClassCast(entry: string)
    | NullPointer
    | IllegalArgument(text: Option<string>)
    | NumberFormat(text: Option<string>)

  /** The failures a single path step can raise. */
  predicate IsStepError(e: Error) {
    !(e.NullEntryInPath? || e.IndexMalformed? || e.IllegalArgument? || e.NumberFormat?)
  }
}
