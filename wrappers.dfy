/** Option and Result types, and the errors the template command can return. */
module Wrappers {

  datatype Option<+T> = None | Some(value: T)

  /** Every error value the modelled code produces or passes on.
      Errors raised by collaborators that are not modelled (os.ReadFile,
      encoding/json, text/template, filepath.Walk) are arbitrary values of
      this type. */
  datatype Error =
    | MissingProjectName            // `--name` left empty
    | FromPathNotFound              // the `--from` path does not exist
    | TemplateNotFound(name: string) // the embedded fallback could not load `name`
    | NilTemplate                   // RenderTemplate called with no template
    | NotADirectory(path: string)   // MkdirAll met a regular file on its way
    | IsADirectory(path: string)    // Create on a path that is a directory
    | NoSuchDirectory(path: string) // Create in a directory that does not exist

  /** A value or an error; usable with `:-`. */
  datatype Result<+T> = Ok(value: T) | Err(error: Error) {

    predicate IsFailure() {
      Err?
    }

    function PropagateFailure<U>(): Result<U>
      requires Err?
    {
      Err(error)
    }

    function Extract(): T
      requires Ok?
    {
      value
    }
  }
}
