/** The handler the router answers with when a path has no route for the request's method. */
module General {
  import opened Http

  /** MethodNotAllowed: whatever the request, a 405 carrying its status text as plain text. */
  function MethodNotAllowed(req: Request): (r: Response)
    ensures r.status == StatusMethodNotAllowed
    ensures r.contentType == TextPlain && r.payload == Text("Method Not Allowed\n")
  {
    assert StatusText(StatusMethodNotAllowed) + "\n" == "Method Not Allowed\n";
    ErrorResponse(StatusMethodNotAllowed)
  }
}
