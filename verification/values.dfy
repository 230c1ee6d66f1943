/** Values as they arrive from the document store and from request bodies. */
module Values {

  datatype Option<+T> = None | Some(value: T) {
    function GetOr(default: T): T {
      match this
      case Some(v) => v
      case None => default
    }
  }

  datatype Result<+T, +E> = Ok(value: T) | Err(error: E)

  /** An optional text field of a stored document: never set (`undefined`),
      set to SQL NULL (`null`), or a string. */
  datatype Field = Undefined | Null | Str(text: string) {

    /** `v || ''`: the string, or "" for a missing value (an empty string is falsy too). */
    function OrEmpty(): (r: string)
      ensures Str? ==> r == text
      ensures !Str? ==> r == ""
    {
      if Str? then text else ""
    }

    /** `${v}` inside a template literal. */
    function Interpolate(): (r: string)
      ensures Str? ==> r == text
    {
      match this
      case Undefined => "undefined"
      case Null => "null"
      case Str(s) => s
    }
  }

  /** An optional numeric field of a stored document (integer amounts only). */
  datatype Number = NoNumber | Num(n: int)
}
