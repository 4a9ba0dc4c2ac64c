/** The middleware chain the adapter installs, one request at a time:
    `cors()`, which answers a preflight itself, then JSON body parsing, then
    `authorize`, then `handleRequest`. */
module Server {
  import opened Values
  import opened Auth
  import opened Lifecycle
  import opened Dispatch

  /** The HTTP reply: the empty 204 `cors()` sends for an OPTIONS request,
      400 "Invalid JSON", 403 {"message":"token verify failed!"}, Express's
      500 for an error thrown in a middleware, or a 200 JSON envelope. */
  datatype Reply = Preflight | InvalidJson | TokenVerifyFailed | InternalError | Json(envelope: Envelope)

  /** The method `cors()` answers without calling `next()`. */
  const PreflightVerb: string := "OPTIONS"

  function Status(r: Reply): (code: int)
    ensures code == 200 <==> r.Json?
    ensures r.Preflight? ==> code == 204
    ensures r.InvalidJson? ==> code == 400
    ensures r.TokenVerifyFailed? ==> code == 403
    ensures r.InternalError? ==> code == 500
  {
    match r
    case Preflight => 204
    case InvalidJson => 400
    case TokenVerifyFailed => 403
    case InternalError => 500
    case Json(_) => 200
  }

  /** One request through the chain; `bodyParses` is false when the JSON
      parser rejects the body. The gate reads the adapter's current token. */
  function Serve(a: Adapter, actions: Actions, req: Request, bodyParses: bool): (r: Reply)
    // a preflight goes no further than `cors()`
    ensures req.verb == PreflightVerb <==> r == Preflight
    ensures req.verb != PreflightVerb && !bodyParses ==> r == InvalidJson
    ensures req.verb != PreflightVerb && bodyParses ==>
              (r == TokenVerifyFailed <==> Authorize(a.config.token, req.authorization, req.query) == Reject)
    ensures r.Json? ==> bodyParses && Authorize(a.config.token, req.authorization, req.query) == Admit
    ensures r.Json? ==> r.envelope == HandleRequest(a, actions, req)
    // `next()` passes an admitted request on to the handler
    ensures req.verb != PreflightVerb && bodyParses && Authorize(a.config.token, req.authorization, req.query) == Admit ==>
              r == Json(HandleRequest(a, actions, req))
    ensures req.verb != PreflightVerb && bodyParses && Authorize(a.config.token, req.authorization, req.query) == Fault ==>
              r == InternalError
  {
    if req.verb == PreflightVerb then Preflight
    else if !bodyParses then InvalidJson
    else
      match Authorize(a.config.token, req.authorization, req.query)
      case Admit => Json(HandleRequest(a, actions, req))
      case Reject => TokenVerifyFailed
      case Fault => InternalError
  }

  /** A request the gate does not admit never reaches an action: the reply
      does not depend on the registered actions. */
  lemma RejectedReachesNoAction(a: Adapter, actions1: Actions, actions2: Actions, req: Request, bodyParses: bool)
    requires !bodyParses || Authorize(a.config.token, req.authorization, req.query) != Admit
    ensures Serve(a, actions1, req, bodyParses) == Serve(a, actions2, req, bodyParses)
    ensures !Serve(a, actions1, req, bodyParses).Json?
  {
  }

  /** After `close()` a request still in flight gets the "Server is closed"
      envelope, or an auth/parse reply; it is never dispatched. */
  lemma RequestAfterClose(a: Adapter, actions: Actions, req: Request, bodyParses: bool)
    ensures Serve(Close(a), actions, req, bodyParses).Json? ==>
              Serve(Close(a), actions, req, bodyParses).envelope == Failed(ServerClosed, 200)
  {
  }

  /** The token of the configuration given to `reload` guards every later
      request but a preflight, whichever branch the reload took. */
  lemma ReloadedTokenGuards(a: Adapter, c: Config, boot: bool, actions: Actions, req: Request)
    requires req.verb != PreflightVerb
    ensures Serve(Reload(a, c, boot).adapter, actions, req, true) == TokenVerifyFailed <==>
              Authorize(c.token, req.authorization, req.query) == Reject
  {
  }

  /** An enabled adapter on port 8080 without a token, reloaded with the
      same port and token "x": the reload is `Normal`, a request without a
      credential is then refused and one with "Bearer x" is dispatched. */
  lemma TokenChangeWithoutRestart(actions: Actions, path: string)
    ensures var a := Adapter("http", true, Config(true, 8080, None), Some(8080));
            var r := Reload(a, Config(true, 8080, Some("x")), true);
            && r.kind == Normal
            && Serve(r.adapter, actions, Request("POST", path, None, Some(map[]), None), true) == TokenVerifyFailed
            && Serve(r.adapter, actions, Request("POST", path, Some("Bearer x"), Some(map[]), None), true).Json?
  {
  }
}
