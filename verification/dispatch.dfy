/** The request handler of the passive HTTP adapter
    (`OB11PassiveHttpAdapter.handleRequest`): payload normalisation, action
    lookup and the response envelope. */
module Dispatch {
  import opened Values
  import opened Text
  import opened Lifecycle

  /** What the handler reads from an Express request. `query` and `body`
      are the parsed query string and JSON body, `undefined` when absent. */
  datatype Request = Request(
    verb: string,   // `req.method`
    path: string,
    authorization: Option<string>,
    query: Option<Fields>,
    body: Option<Fields>)

  /** How an awaited `action.handle(payload, adapterName)` ends: a value, or
      a thrown error with its `stack` and `message`. */
  datatype Outcome = Returned(data: Value) | Threw(stack: Option<string>, message: Option<string>)

  /** An action handler, called with the payload and the adapter's name. */
  type Handler = (Option<Fields>, string) -> Outcome

  /** The registered actions (`ActionMap`), read only. */
  type Actions = map<string, Handler>

  /** What `res.json` sends with status 200: an `OB11Response.error(message,
      retcode)`, or the handler's result unchanged. */
  datatype Envelope = Failed(message: string, retcode: int) | Forwarded(result: Value)

  const ServerClosed: string := "Server is closed"
  const UnsupportedPrefix: string := "不支持的api "
  const ErrorFallback: string := "Error Handle"

  /** The payload given to the action. For the literal method "get" it is
      the query. Otherwise, when there is a query, a body property wins over
      a query property of the same name and nothing else appears; without a
      query it is the body. Express always supplies a query object, so the
      last branch is not reached by the running server. */
  function NormalizePayload(verb: string, query: Option<Fields>, body: Option<Fields>): (payload: Option<Fields>)
    ensures verb == "get" ==> payload == query
    ensures verb != "get" && query.Some? ==>
              && payload.Some?
              && payload.value.Keys == query.value.Keys + Spread(body).Keys
              && forall k :: Lookup(payload, k) == (if Lookup(body, k).Some? then Lookup(body, k) else Lookup(query, k))
    ensures verb != "get" && query.None? ==> payload == body
  {
    if verb == "get" then query
    else if query.Some? then Some(Spread(query) + Spread(body))
    else body
  }

  /** The verb comparison is case-sensitive, so an upper-case "GET"
      merges; with no body properties that still yields the query. */
  lemma UpperCaseGetMerges(query: Fields, body: Option<Fields>)
    ensures body.None? || body == Some(map[]) ==>
              NormalizePayload("GET", Some(query), body) == Some(query)
    ensures NormalizePayload("GET", Some(query), body) == Some(query + Spread(body))
  {
    assert query + map[] == query;
  }

  /** `path.split('/')[1]`: `undefined` when the path has no '/'. */
  function ActionName(path: string): (n: Option<string>)
    ensures n.Some? <==> '/' in path
    ensures n.Some? ==> '/' !in n.value
  {
    var parts := Split(path, "/");
    SplitPiecesFree(path, "/");
    if |parts| > 1 then
      assert !Contains(parts[1], "/");
      NoCharContained(parts[1], '/');
      Some(parts[1])
    else
      SplitOnePiece(path, '/');
      None
  }

  /** In a path "/<name>" or "/<name>/<rest>" the action name is `name`. */
  lemma {:induction false} ActionNameOfRoute(name: string, rest: string)
    requires '/' !in name
    requires rest == "" || rest[0] == '/'
    ensures ActionName("/" + name + rest) == Some(name)
  {
    var tail := name + rest;
    assert "/" + name + rest == "/" + tail;
    SplitAfterSeparator("/", tail);
    FirstPiece(name, '/', rest);
    var parts := Split("/" + tail, "/");
    assert parts == [""] + Split(tail, "/");
    assert parts[1] == name;
  }

  /** The diagnostic of a caught error: its stack, else its message, else a
      fixed text; an empty string counts as absent. */
  function ErrorText(stack: Option<string>, message: Option<string>): (t: string)
    ensures t != ""
    ensures stack.Some? && stack.value != "" ==> t == stack.value
    ensures (stack.None? || stack.value == "") && message.Some? && message.value != "" ==> t == message.value
    ensures (stack.None? || stack.value == "") && (message.None? || message.value == "") ==> t == ErrorFallback
  {
    if stack.Some? && stack.value != "" then stack.value
    else if message.Some? && message.value != "" then message.value
    else ErrorFallback
  }

  /** The text naming the action in the "unsupported api" reply; a missing
      name prints as JavaScript's "undefined". */
  function NameText(n: Option<string>): (t: string)
    ensures n.Some? ==> t == n.value
    ensures n.None? ==> t == "undefined"
  {
    match n
    case Some(s) => s
    case None => "undefined"
  }

  function HandleRequest(a: Adapter, actions: Actions, req: Request): (e: Envelope)
    // every error the handler reports travels in an envelope with status 200
    ensures e.Failed? ==> e.retcode == 200
    ensures !a.isEnable ==> e == Failed(ServerClosed, 200)
    ensures a.isEnable && (ActionName(req.path).None? || ActionName(req.path).value !in actions) ==>
              e == Failed(UnsupportedPrefix + NameText(ActionName(req.path)), 200)
    ensures e.Forwarded? ==>
              && a.isEnable
              && ActionName(req.path).Some? && ActionName(req.path).value in actions
              && actions[ActionName(req.path).value](NormalizePayload(req.verb, req.query, req.body), a.name)
                 == Returned(e.result)
  {
    if !a.isEnable then Failed(ServerClosed, 200)
    else
      var payload := NormalizePayload(req.verb, req.query, req.body);
      var name := ActionName(req.path);
      if name.Some? && name.value in actions then
        match actions[name.value](payload, a.name)
        case Returned(data) => Forwarded(data)
        case Threw(stack, message) => Failed(ErrorText(stack, message), 200)
      else Failed(UnsupportedPrefix + NameText(name), 200)
  }

  /** A closed adapter invokes no action: the reply does not depend on the
      registered actions. */
  lemma ClosedInvokesNothing(a: Adapter, actions1: Actions, actions2: Actions, req: Request)
    requires !a.isEnable
    ensures HandleRequest(a, actions1, req) == HandleRequest(a, actions2, req)
  {
  }

  /** A found handler's outcome decides the reply: a returned value is sent
      unchanged, a thrown error becomes an error envelope with its text. */
  lemma HandlerOutcomeDecides(a: Adapter, actions: Actions, req: Request, name: string)
    requires a.isEnable
    requires ActionName(req.path) == Some(name) && name in actions
    ensures var o := actions[name](NormalizePayload(req.verb, req.query, req.body), a.name);
            HandleRequest(a, actions, req) ==
              (if o.Returned? then Forwarded(o.data) else Failed(ErrorText(o.stack, o.message), 200))
  {
  }
}
