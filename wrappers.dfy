/** Option and the outcome of a run of the generator. */
module Wrappers {

  datatype Option<+T> = None | Some(value: T)

  /** How a computation of the generator ends: with a value, with a call to
      log.Fatal (or a run-time panic) carrying its message, or, in this model
      only, with the recursion bound exhausted (see Assembler). */
  datatype Outcome<+T> = Ok(value: T) | Fatal(msg: string) | OutOfFuel

  /** reflect.StructTag.Get and a Go map index both give the zero value "" for
      a missing entry. */
  function GetOr(v: Option<string>): string
  {
    match v
    case Some(s) => s
    case None => ""
  }
}
