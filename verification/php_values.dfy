/** The value shapes the backend exchanges with its PHP host. */
module PhpValues {

  /** A value that may be missing, such as an unset configuration key. */
  datatype Option<+T> = None | Some(value: T)

  /** PHP's `string|false` return type: a string, or the literal `false`. */
  datatype StringOrFalse = Text(text: string) | False
}
