/** Names shared by every module of the project. */
module Base {

  /** An optional column, a nullable field, or the result of a lookup that may find nothing. */
  datatype Option<+T> = None | Some(value: T)

  /** Opaque text (an identifier, a fingerprint, a canonical JSON body): only equality and a
      total order are ever used, so a number stands for each text. */
  type Id = nat

  /** Milliseconds of the server clock. */
  type Time = int
}
