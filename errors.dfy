/** The failures the model distinguishes; the source throws, the model returns `Failure(e)`. */
module Errors {
  import opened Js

  datatype Error =
    /** A property read on `null`/`undefined`, a call of a non-function, or spreading a non-iterable. */
    | TypeError
    /** A dispatch table has no constructor for this `kind` tag. */
    | UnknownKind(tag: Value)
    /** No element of the named collection has this name. */
    | NotFound(collection: string, name: Value)
    /** An element of the named collection already has this name. */
    | Conflict(collection: string, name: Value)
    /** A capability view was bound to a node of another kind. */
    | KindMismatch(expected: string, actual: Value)
    /** SDL input that is neither text, a document nor an array of them. */
    | InvalidSdl(input: Value)
    /** Text that the external GraphQL parser rejects. */
    | SyntaxError(text: string)
}
