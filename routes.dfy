/**
 The request/response shape shared by the directory routes of both servers:
 the token guard, the users request carrying the caller's token, and one try
 block whose catch answers 500 with a fixed message.
 */
module Routes {
  import opened Wrappers
  import opened JsString
  import opened Bearer
  import opened Directory

  datatype Body =
    | Error(error: string)
    | GroupNames(names: seq<string>)
    | UserRecords(users: seq<Entry>)

  datatype Response = Response(status: int, body: Body)

  /**
   One handled request: the Authorization header sent to the user directory,
   or `None` when the directory was not called, and the response.
   */
  datatype Exchange = Exchange(forwarded: Option<string>, response: Response)

  const TokenRequired := "Authorization token is required"

  /** `res.status(401).json({ error: 'Authorization token is required' })` */
  function Unauthorized(): Response {
    Response(401, Error(TokenRequired))
  }

  /**
   A directory route. `directory` answers the users request for the
   Authorization header it is sent. `handle` is the work done on the users
   array inside the try block; `None` means it threw. Any failure answers 500
   with `failure`, whatever the upstream detail was.
   */
  function DirectoryRoute(authorization: Option<string>, directory: string -> Upstream,
                          failure: string, handle: seq<Entry> -> Option<Body>): (x: Exchange)
    ensures x.forwarded.None? <==> !Truthy(Token(authorization))
    ensures x.forwarded.None? ==> x.response == Unauthorized()
    ensures x.forwarded.Some? ==> x.forwarded.value == ForwardedAuthorization(Token(authorization).value)
    ensures x.forwarded.Some? ==> x.response.status in {200, 500}
    ensures x.response.status == 500 ==> x.response.body == Error(failure)
    ensures x.forwarded.Some? ==>
      (x.response.status == 500 <==>
         directory(x.forwarded.value).FetchError? || handle(directory(x.forwarded.value).entries).None?)
    ensures x.response.status == 200 ==>
      && directory(x.forwarded.value).Fetched?
      && handle(directory(x.forwarded.value).entries) == Some(x.response.body)
  {
    var token := Token(authorization);
    if !Truthy(token) then
      Exchange(None, Unauthorized())
    else
      var header := ForwardedAuthorization(token.value);
      var outcome := match directory(header)
        case FetchError(_) => None
        case Fetched(entries) => handle(entries);
      match outcome
      case None => Exchange(Some(header), Response(500, Error(failure)))
      case Some(body) => Exchange(Some(header), Response(200, body))
  }

  /** Without a token the directory is never consulted: the exchange is the same whatever it would answer. */
  lemma NoTokenNoFetch(authorization: Option<string>, d1: string -> Upstream, d2: string -> Upstream,
                       failure: string, handle: seq<Entry> -> Option<Body>)
    requires !Truthy(Token(authorization))
    ensures DirectoryRoute(authorization, d1, failure, handle) == DirectoryRoute(authorization, d2, failure, handle)
    ensures DirectoryRoute(authorization, d1, failure, handle) == Exchange(None, Unauthorized())
  {
  }

  /** The upstream error detail never reaches the response. */
  lemma FailureHidesDetail(authorization: Option<string>, d1: string -> Upstream, d2: string -> Upstream,
                           failure: string, handle: seq<Entry> -> Option<Body>)
    requires Truthy(Token(authorization))
    requires var header := ForwardedAuthorization(Token(authorization).value);
      d1(header).FetchError? && d2(header).FetchError?
    ensures DirectoryRoute(authorization, d1, failure, handle) == DirectoryRoute(authorization, d2, failure, handle)
  {
  }
}
