/** The nullable-reference and fallible-call shapes of the source, as values. */
module Optional {

  /** A value that may be absent (a C# `null` reference). */
  datatype Option<+T> = None | Some(value: T) {

    /** The value, or `default` when absent (`??` in C#). */
    function GetOr(default: T): T
    {
      match this
      case Some(v) => v
      case None => default
    }
  }
}
