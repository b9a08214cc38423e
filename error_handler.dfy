/**
 * errorHandler.js: the last Express middleware, which turns an error into a
 * status and a JSON body `{ error }`. Only validation errors show their own
 * message; everything else answers 500 with a fixed text.
 */
module ErrorHandler {
  import opened Js

  /** The fields of a thrown error the handler looks at: `err.type` and `err.message`. */
  datatype Error = Error(kind: Option<string>, message: Option<string>)

  /** The response: its status and the `error` field of its body. */
  datatype Response = Response(status: int, error: Option<string>)

  const DatabaseError := "Database error occurred"
  const InternalError := "Internal Server Error"

  function HandleError(err: Error): (r: Response)
    ensures r.status == 400 || r.status == 500
    ensures r.status == 400 <==> err.kind == Some("validation")
    ensures r.status == 400 ==> r.error == err.message
    ensures err.kind == Some("database") ==> r == Response(500, Some(DatabaseError))
    ensures err.kind != Some("validation") && err.kind != Some("database") ==> r == Response(500, Some(InternalError))
    ensures r.status == 500 ==> r.error == Some(DatabaseError) || r.error == Some(InternalError)
  {
    if err.kind == Some("validation") then Response(400, err.message)
    else if err.kind == Some("database") then Response(500, Some(DatabaseError))
    else Response(500, Some(InternalError))
  }

  /** A server error never repeats the error's own message, whatever it says. */
  lemma ServerErrorsHideMessage(kind: Option<string>, m1: Option<string>, m2: Option<string>)
    requires kind != Some("validation")
    ensures HandleError(Error(kind, m1)) == HandleError(Error(kind, m2))
  {
  }
}
