/** Optional values, the failures the server raises, and results that carry
    either a value or one of those failures. */
module Outcomes {

  datatype Option<T> = None | Some(value: T) {
    function GetOr(default: T): T {
      if Some? then value else default
    }
  }

  /** The exceptions the parse-output assembly raises. */
  datatype Error =
    | EmptyOutput(command: seq<string>, stderr: string)
      // `_alpino_error`: "Problem calling {command}, output was empty. Error: {err!r}"
    | UnknownOutput(output: string)
      // `ValueError("Unknown output: ...")` from `parse`
    | MissingId(id: string)
      // `KeyError` from `result[id]` in the treebank-triples overlay
    | Unpack(line: string)
      // `ValueError` from `triple, fn = line.rsplit("|", 1)` when the line has no `|`

  datatype Result<T> = Ok(value: T) | Err(error: Error)
}
