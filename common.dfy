/** Small shared vocabulary: an optional value, the status a request
    handler answers with, and what an external payload store reports. */
module Common {

  datatype Option<+T> = None | Some(value: T) {
    function GetOr(default: T): T {
      match this
      case Some(v) => v
      case None => default
    }
  }

  /** The HTTP statuses the handlers answer with (transport formatting left out). */
  datatype Status =
    | Ok            // 200
    | BadRequest    // 400
    | NotFound      // 404
    | NotAcceptable // 406
    | Gone          // 410
    | Internal      // 500

  /** What an external store (file system or SQL table) answers when asked
      whether the object a message refers to exists. */
  datatype Lookup = Present | Absent | Failed
}
