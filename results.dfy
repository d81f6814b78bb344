/** Outcomes of the engine's validating entry points: a thrown `Error` in the
    source becomes a `Fail` value here, and optional uniform writes become `Option`s. */
module Results {

  datatype Option<+T> = None | Some(value: T)

  datatype Outcome<+E> = Pass | Fail(error: E)
}
