/** Failure-carrying values shared by every module of the model.

    `Option` stands for the source's nullable references, `Either` for
    `fr.wseduc.webutils.Either<String, T>`, whose `Left` carries an i18n error key. */
module Results {

  datatype Option<+T> = None | Some(value: T) {

    /** The value, or `default` for `None` (a JSON getter with a default). */
    function GetOr(default: T): T {
      match this
      case Some(v) => v
      case None => default
    }
  }

  datatype Either<+L, +R> = Left(left: L) | Right(right: R)

  /** Java's `StringBuilder.append(String)` writes "null" for a null reference. */
  function AppendText(o: Option<string>): string {
    o.GetOr("null")
  }
}
