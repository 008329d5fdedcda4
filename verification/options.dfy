/** The optional value used for JavaScript's `null` (no speaker, no filter node). */
module Options {

  datatype Option<+T> = None | Some(value: T)

}
