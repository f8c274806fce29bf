/** The optional value shared by the models of maybe-empty handles and failed lookups. */
module Options {

  datatype Option<+T> = None | Some(value: T)
}
