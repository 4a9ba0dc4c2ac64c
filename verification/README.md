# Passive HTTP adapter of the OneBot 11 network layer

This project models `OB11PassiveHttpAdapter`, the OneBot 11 adapter that
runs an HTTP server and answers API calls. The model covers its decision
logic:

- the lifecycle: the constructor, `open`, `close` and `reload` with its four
  outcomes `NetWorkOpen`, `NetWorkClose`, `NetWorkReload` and `Normal`;
- the `authorize` middleware, which checks the `Authorization` header or the
  `access_token` query parameter against the configured token;
- `handleRequest`, which takes the payload from the query and body, takes
  the action name from the path, looks the action up, runs it and builds the
  reply envelope;
- the middleware chain that links them for one request: `cors()` answers an
  OPTIONS request itself with 204, then JSON parse failure, then the gate,
  then the handler.

Everything is a pure function over immutable values. The adapter is the
value `Lifecycle.Adapter`. It holds the `isEnable` flag, the current
configuration, and the port its `http.Server` listens on (if any). Action
handlers are an abstract `map<string, Handler>`. A handler is a function from
the payload and the adapter name to `Returned(data)` or
`Threw(stack, message)`, so an exception is a value.

Modules, leaf first:

- `Values`: JSON-like values, object properties and object spread.
- `Text`: JavaScript's `split` with a non-empty separator, its inverse
  `Join`, and the last piece of a split. The `Bearer ` header credential
  and the action name are both cut with `split`.
- `Auth`: the authorization gate.
- `Lifecycle`: the adapter state, construction, `open`, `close` and `reload`.
- `Dispatch`: payload normalisation, the action name, and `handleRequest`.
- `Server`: the middleware chain for one request.

The model follows the code as written. A reader may not expect these
details:

- The header credential is the last piece of the header split on `Bearer `.
  It is not trimmed, and a header without `Bearer ` is compared whole
  (`Auth.BareHeaderComparedWhole`).
- The read-only payload branch fires only for the literal method `get`.
  Node reports methods in upper case, so a `GET` goes through the merge
  branch. With no body properties the merge still yields the query
  (`Dispatch.UpperCaseGetMerges`).
- `reload` assigns the new configuration without copying it. Only the
  constructor copies it. With immutable values the two are the same.
- The port-change branch of `reload` also fires when the adapter was
  disabled and stays disabled. It reports `NetWorkReload` and does not
  reopen.
- With a token configured, `authorize` reads `req.query.access_token`.
  It would throw if the query were `undefined`, and Express would answer
  with its 500 error page. The model keeps this branch as `Auth.Gate.Fault`
  and `Server.Reply.InternalError`. Express always gives `req.query` an
  object, `{}` for a request without a query string. So the running server
  never takes this branch, nor the no-query branch of the payload
  normalisation.
- A missing action name (a path without `/`) appears in the reply text as
  `undefined`.

The invariant `Lifecycle.Consistent` says the adapter is enabled exactly
when a listener exists, and that the listener is bound to the configured
port. The constructor establishes it, and `open`, `close` and `reload`
preserve it.

## Model

| member | source | states |
|---|---|---|
| Values.Spread | src/onebot/network/passive-http.ts:100 | object spread copies exactly the properties `Lookup` finds, and nothing from `undefined` |
| Text.Split | src/onebot/network/passive-http.ts:80 | `split` always yields at least one piece, and joining the pieces with the separator gives back the input |
| Text.SplitPiecesFree | src/onebot/network/passive-http.ts:80 | no piece of a split contains the separator |
| Text.SplitWithoutSeparator | src/onebot/network/passive-http.ts:80 | a string without the separator splits into itself alone |
| Text.LastSegmentIsTail | src/onebot/network/passive-http.ts:80 | the inductive proof behind `Text.LastSegment`: for every string, the last element of the split holds no separator, ends the string, follows a separator when there is one, and is the whole string otherwise |
| Text.LastSegment | src/onebot/network/passive-http.ts:80 | `split(sep).pop()` holds no separator, ends the string, is preceded by the separator when the string has one, and is the whole string otherwise |
| Text.SplitAtChar | src/onebot/network/passive-http.ts:103 | with a one-character separator, the text before its first occurrence is the first piece and the rest splits on its own |
| Auth.QueryToken | src/onebot/network/passive-http.ts:81-82 | the query credential exists exactly when `access_token` is a non-empty string, and it is that string |
| Auth.NoAuth | src/onebot/network/passive-http.ts:79 | no-auth mode holds exactly when the token is absent or empty |
| Auth.ClientToken | src/onebot/network/passive-http.ts:82 | the credential is the query credential when there is one, else the header credential |
| Auth.Authorize | src/onebot/network/passive-http.ts:78-88 | no token (absent or empty) admits everything; otherwise a missing query faults, and a request is admitted iff the chosen credential equals the token |
| Auth.NoTokenAdmitsAll | src/onebot/network/passive-http.ts:79 | with the token absent or empty, every request is admitted, whatever its header and query |
| Auth.QueryTokenTakesPrecedence | src/onebot/network/passive-http.ts:81-86 | a non-empty string `access_token` alone decides admission, whatever the header; a mismatch is a 403 rejection |
| Auth.BearerHeaderDecides | src/onebot/network/passive-http.ts:80-86 | with no query credential, `Bearer <c>`, for a `c` without `Bearer ` in it, is admitted iff `c` equals the token |
| Auth.BareHeaderComparedWhole | src/onebot/network/passive-http.ts:80-86 | a header without `Bearer ` is compared whole with the token |
| Auth.HeaderToken | src/onebot/network/passive-http.ts:80 | without a header the credential is `''`; otherwise it ends the header, contains no `Bearer `, is preceded by `Bearer ` when the header has one, and is the whole header when it has none |
| Auth.MissingCredentialRejected | src/onebot/network/passive-http.ts:80-86 | with a token set, a request with no header and no query credential is rejected |
| Lifecycle.New | src/onebot/network/passive-http.ts:16-23 | a new adapter holds the given configuration, is not enabled, and satisfies the listener invariant |
| Lifecycle.Open | src/onebot/network/passive-http.ts:29-43 | opening an enabled adapter changes nothing; a disabled one becomes enabled iff the server boots, and a boot failure leaves it unchanged; the invariant is kept |
| Lifecycle.Close | src/onebot/network/passive-http.ts:45-49 | after close the adapter is disabled with no listener and the same configuration |
| Lifecycle.Reload | src/onebot/network/passive-http.ts:117-139 | the configuration is always replaced; the outcome is Open/Close/Reload/Normal exactly per old `isEnable`, new `enable` and port change; when the server boots `isEnable` ends equal to `newConfig.enable`, and when it fails to boot every outcome but `Normal` leaves the adapter disabled; the invariant is kept; `Normal` restarts nothing |
| Lifecycle.OpenIdempotent | src/onebot/network/passive-http.ts:31-34 | a second open after a successful one changes nothing |
| Lifecycle.CloseIdempotent | src/onebot/network/passive-http.ts:45-49 | closing twice is closing once |
| Dispatch.NormalizePayload | src/onebot/network/passive-http.ts:96-101 | a `get` payload is the query; otherwise, with a query, its keys are the query's and body's and each property is the body's when the body has it, else the query's; without a query the payload is the body |
| Dispatch.UpperCaseGetMerges | src/onebot/network/passive-http.ts:97-100 | method `GET` takes the merge branch, which yields the query when the body has no properties |
| Dispatch.ActionName | src/onebot/network/passive-http.ts:103 | the action name exists iff the path contains `/`, and it never contains `/` |
| Dispatch.ActionNameOfRoute | src/onebot/network/passive-http.ts:103 | for a path `/<name>` or `/<name>/...` the action name is `name` |
| Dispatch.ErrorText | src/onebot/network/passive-http.ts:110 | the error text is the stack if non-empty, else the message if non-empty, else `Error Handle`; it is never empty |
| Dispatch.NameText | src/onebot/network/passive-http.ts:113 | the action name as it appears in the reply text; a missing name prints as `undefined` |
| Dispatch.HandleRequest | src/onebot/network/passive-http.ts:90-115 | a disabled adapter replies `Server is closed`; an unknown action replies `不支持的api <name>`; every error envelope has code 200; a forwarded result is exactly what the found handler returned |
| Dispatch.ClosedInvokesNothing | src/onebot/network/passive-http.ts:91-94 | on a disabled adapter the reply does not depend on the registered actions |
| Dispatch.HandlerOutcomeDecides | src/onebot/network/passive-http.ts:104-111 | for a found action, a returned value is sent unchanged and a thrown error becomes an error envelope carrying its text |
| Server.Status | src/onebot/network/passive-http.ts:55-87 | a preflight is 204, invalid JSON 400, a token failure 403, a middleware fault 500, and an envelope reply 200 exactly |
| Server.Serve | src/onebot/network/passive-http.ts:55-72 | an OPTIONS request, and only that, gets the `cors()` preflight reply; for any other request a body that fails to parse gives 400 before authorization, a 403 is given iff the gate rejects with the current token, a gate fault gives 500, and an admitted request gets exactly the handler's envelope; no other request gets an envelope |
| Server.RejectedReachesNoAction | src/onebot/network/passive-http.ts:83-87 | a request the gate does not admit gets a reply that does not depend on the registered actions, and it is not an envelope |
| Server.RequestAfterClose | src/onebot/network/passive-http.ts:91-94 | after close, any dispatched request gets the `Server is closed` envelope |
| Server.ReloadedTokenGuards | src/onebot/network/passive-http.ts:117-120 | after any reload, a request other than a preflight is refused with 403 iff the new configuration's token rejects it |
| Server.TokenChangeWithoutRestart | src/onebot/network/passive-http.ts:117-138 | a reload that changes only the token is `Normal`, yet a request without a credential is then refused and `Bearer x` is admitted |

## Left out

- Express and `http` wiring in `initializeServer` is left out: the CORS response headers, the URL-encoded parser, the 5000mb body limits, the forced `application/json` content type, and `listen`. The one CORS decision kept is that `cors()` answers every OPTIONS request with 204 before any later middleware. A JSON parse failure is the input flag `bodyParses`.
- Server.Serve: `bodyParses` covers the JSON parser only. A failure of the URL-encoded parser skips the 400 middleware, because that middleware takes no error argument. Express's default handler then answers with the parser's own status, such as 413 for too many parameters or 415 for an unsupported charset. The model has no reply for these.
- Lifecycle.Open: boot failure is the parameter `boot`. It covers only synchronous throws from `initializeServer`, such as an out-of-range port. An asynchronous `listen` error, such as a port already in use, is not caught by `open`. The model does not represent that case, where the adapter is enabled with no listener.
- Logging calls have no effect on the state and are left out. This includes the misworded "Cannot open a closed HTTP server" message.
- `structuredClone` in the constructor is left out. Configurations are immutable values, so a copy is the value itself.
- Asynchrony and concurrent in-flight requests are left out. The model handles one request at a time. `close` takes effect at once, as its body has no `await`, and `server.close()` is shutting the listener.
- `OB11Response.error` and the `ActionMap` implementation are not part of this model. The error envelope is the constructor `Failed(message, retcode)`, and the action map is a Dafny map.
- JSON numbers are doubles, but `Values.Value` holds integers only, so a property such as `1.5` has no model value. The adapter only copies values and never computes with them.
- JSON bodies that are arrays or primitives are left out. The body is an object's properties or `undefined`. Spreading an array body would add index keys.
- Only the `enable`, `port` and `token` fields of `HttpServerConfig` are modelled. `onEvent` is left out because it does nothing.
