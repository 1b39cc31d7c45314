/** The optional value used wherever the decoder works with a Java `null`. */
module Options {

  /** `None` stands for `null` (an absent group, an unbound device, no record). */
  datatype Option<+T> = None | Some(value: T)
}
