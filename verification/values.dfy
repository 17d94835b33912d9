/**
 The Java values the plugin passes around: references that may be `null`,
 and computations that either return or throw.
 */
module Values {

  /** A Java reference that may be `null`. */
  datatype Nullable<+T> = Null | NonNull(value: T)

  /** A value that may be absent, where the absence is not a Java `null`. */
  datatype Option<+T> = None | Some(value: T)

  /** A Java `String` reference. */
  type JString = Nullable<string>

  /** The outcome of a Java call: it returns a value or throws. The kind of
      exception is not kept: every handler in the plugin catches all of them. */
  datatype Try<+T> = Returned(value: T) | Threw

  /** The text `String.format` writes for a `%s` argument: the string itself,
      or the four letters `null` for a null reference. */
  function Render(s: JString): (r: string)
    ensures s.NonNull? ==> r == s.value
    ensures s.Null? ==> r == "null"
  {
    match s
    case Null => "null"
    case NonNull(v) => v
  }
}
