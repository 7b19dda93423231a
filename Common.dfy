/** Values shared by every part of the quiz application model: optional values
    and the `{ data, error }` shape of a reply from the record store. */
module Common {

  /** A value that may be missing (`null` or `undefined` in the application). */
  datatype Option<+T> = None | Some(value: T) {
    function GetOr(default: T): T {
      match this
      case Some(v) => v
      case None => default
    }
  }

  /** The reply of one record-store request: either its rows or an error carrying
      the store's error code. */
  datatype Response<+T> = Data(rows: T) | Error(code: string)

  /** The error code the record store reports when a single-row read finds no row. */
  const NoRowsCode: string := "PGRST116"

  /** A string is "truthy" in the application exactly when it is non-empty; a
      missing string is modelled as the empty string. */
  predicate Truthy(s: string) {
    s != ""
  }
}
