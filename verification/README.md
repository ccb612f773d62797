# A verified model of the dop-api edge

The edge is a stateless backend-for-frontend: REST and server-sent events for the cockpit,
gRPC for the CLI and the agents, and one core behind both. Most of it copies fields. This
project models the parts that carry an algorithm or a protocol and proves what they promise,
for every input and over every run:

- **The live stream.** `Pump` is the generator that iterates one of the core's calls and owes
  it a cancellation; `Sse` turns its items into frames and lets no error escape; `Resume` puts
  the two in a system with a growing log, a client and a connection that comes and goes, and
  proves exactly-once delivery; `Servicers` is what the gRPC servicers make of the same items
  and `Interceptors` the stack that carries them; `Parity` compares what the two ports deliver.
- **Who is calling.** `Authentication` is the REST middleware next to the gRPC interceptor's
  decision; `CertificateBrake` and `TokenCache` are the timed caches behind them, over any run
  with a clock that never goes back (`Rates` turns a minimum gap into a bound on any window);
  `Templates` compiles route templates to patterns and `Routes` walks the route tree and fills
  the two tables.
- **What is signed.** `Base64Url` (RFC 4648, section 5), `CallAuth` and `Metadata`: the signed
  assertion, its unique readability, and its agreement with the headers beside it.
- **What is shown.** `Grouping` (the attention box), `Refusal` (the merge queue's sentence) and
  `LogMask` (the redaction of secrets). `Errors`, `Text` and `Options` are shared.

A source file's objects that update fields are classes here (`Pump.Generator`,
`CertificateBrake.FirebaseVerifier`, `Routes.Registry`, ...), their methods proved against a
specification function; the lemmas then speak about that function over whole runs.

## Where the code and its documentation differ

The model follows the code. Each of these is a theorem with its exact boundary:

- `_pump` is documented to guarantee the cancellation. A pump that was never advanced never
  enters its `try`: a subscription whose consumer leaves at the opening frame is not cancelled
  by it (`Pump.CancelledExactly`, `Sse.SseEvents`).
- The error body's `since_event_id` is offered as the place to resume from. It starts empty on
  every connection, so a connection that resumed at a cursor and emitted no id reports an empty
  one (`Sse.ErrorBodyResumesExactly`).
- The log mask is documented to work at any depth. It enters no container but dicts and lists
  (`LogMask.NonInterferingThroughSealedExactly`).
- The certificate brake is documented to bound the traffic of a flood of invented key ids. Only
  a successful fetch arms it (`CertificateBrake.BrakeBoundsTrafficExactly`).
- A token-only route asks the resolver nothing on REST and has no counterpart on the gRPC port
  (`Authentication.PortsAgreeExactly`).
- The logging interceptor's unary wrapper resets its context on a return or an `Exception`, not
  when the task is cancelled (`Interceptors.UnaryCall.Logged`).
- The attention router's documentation says that an update has no event id. The use case fills
  it in and the SSE port emits it; the gRPC servicer drops it (`Parity.SameReadingsExactly`).
- The stream's documentation relies on the browser resending the most recent id it processed.
  A client that follows the letter of the WHATWG HTML Standard, section 9.2.6, starts each
  connection with an empty id buffer, and the opening frame, which has no id, then empties its
  last event id (`Resume.OpeningKeepsTheCursorExactly`, `Resume.OnceExactlyWhenCareful`).

## Model

| member | source | states |
|---|---|---|
| Resume.ExactlyOnce | app/routers/stream.py:202-237 | for every client, whether or not it seeds its id buffer: after any careful run of connections, drops, errors and replays, what it processed is exactly the wanted events of one contiguous stretch of the log, ending at its place, which between connections is where the next one would resume |
| Resume.SeesTheLogsEvents | app/usecases/stream.py:101-109 | on careful runs every item the client processed is an event of that stretch which passes the filters, with its id, type, aggregate, aggregate id and payload |
| Resume.OnceExactlyWhenCareful | app/routers/stream.py:202-237 | the exact condition, over every run of every client: no connection is lost while the client has no event id to come back with and the URL names another place than the connection was opened at, if and only if from every point of the run a client that merely comes back and loses nothing more sees no event twice |
| Resume.SeededClientsAreCareful | app/routers/stream.py:202-215 | a client that starts each connection's id buffer from its last event id is careful on every run |
| Resume.NeverMovesBack | app/routers/stream.py:202-215 | on careful runs, once the client is anchored, by a query parameter or a processed event, its view never restarts and its place never moves back, however the query parameter has aged; what it has seen only grows |
| Resume.CaughtUp | app/usecases/stream.py:171-197 | on careful runs, a client with nothing in flight on a connection that has caught up has seen every wanted event since its view started |
| Resume.NoDuplicates | app/routers/stream.py:202-237 | no event is processed twice in any careful run |
| Resume.StepKeepsInv | app/routers/stream.py:154-237 | every step of the system (log, connect, emit, end, process, careful drop) keeps the invariant, for clients of either kind, and only extends an anchored client's view |
| Resume.OpeningKeepsTheCursorExactly | app/routers/stream.py:107-115 | after any careful run and any course of a further connection, losing that connection is careful if and only if the client seeds its id buffer, came with no place or the URL's, has processed no frame of the connection, or has processed an event of it |
| Resume.UnseededSeesTwice | app/routers/stream.py:107-115 | a concrete run, on a URL with a cursor and strict replay alone, in which a client with an unseeded buffer processes one event twice |
| Resume.DemandStreamHasNoCursor | app/usecases/stream.py:112-128 | a whole demand stream, however it ends, leaves the client's last event id alone |
| Resume.DemandStreamShowsTheEvents | app/usecases/stream.py:112-128 | each event of a demand is shown in its turn, with the demand for its aggregate id and for its aggregate where the core names none |
| Resume.GuardKeepsThePlaceExactly | app/routers/stream.py:165-175 | a frame emitted without the guard on empty ids is read like the guarded one if and only if the item's id is not the empty one or the client has no place to lose; otherwise it wipes the place |
| Sse.SseEvents | app/routers/stream.py:154-195 | over any call, translation and patience the consumer receives a prefix of the stream's frames; only a cancellation escapes, and only past the items; the call is cancelled once if anything past the opening frame was asked for, else never |
| Sse.FramesOf | app/routers/stream.py:154-195 | the generator's loop over the pump, with the guard that turns an empty id into none: the frames it yields, what escapes, and in which phase it leaves the pump |
| Sse.StreamShape | app/routers/stream.py:162-195 | one opening frame, one frame per item in order with its id if and only if it has one that is not empty, then an error frame if and only if the source failed, and last; no frame carries an empty id |
| Sse.ErrorFrameMeaning | app/routers/stream.py:118-195 | the error body carries the code, its HTTP image, the last id of the connection, the retry advice for four named codes and no other, and the core's own text for no code that is the server's fault |
| Sse.LastIdMeaning | app/routers/stream.py:162-174 | the last id is that of the last item that has one, and empty only if none has |
| Sse.ErrorBodyResumesExactly | app/routers/stream.py:118-148 | the error body names the place to resume from if and only if the connection emitted an id or had no cursor to lose |
| Sse.ADroppedSubscriberIsToldToStartOver | app/routers/stream.py:162-178 | a subscriber resumed at a cursor and dropped before anything happens is given an empty cursor, with the advice to retry |
| Pump.Generator.Next | app/usecases/stream.py:138-165 | an advance takes at most one message, counts it, yields its translation, and on every way out cancels the call |
| Pump.Generator.Finalize | app/usecases/stream.py:138-165 | abandoning a suspended pump cancels the call; abandoning one never advanced does not |
| Pump.CancelledExactly | app/usecases/stream.py:138-165 | over every run of the consumer, the call is cancelled exactly once if the pump was advanced and has finished, and never otherwise |
| Pump.YieldsATranslatedPrefix | app/usecases/stream.py:138-165 | the values yielded translate a prefix of the messages in order, and `emitted` is their number, plus one if a translation failed |
| Pump.EmittedIsYielded | app/usecases/stream.py:148-165 | with a total translation `emitted` is the number yielded |
| Pump.Drain | app/usecases/stream.py:138-165 | a consumer that reads to the end gets the longest translatable prefix and the right ending, and leaves the call cancelled once |
| Parity.SameItems | app/grpcapi/interceptors.py:162-282 | a gRPC client that takes n items has received the servicer's copies of what an SSE client finds in the opening frame and the n after it |
| Parity.SameReadingsExactly | app/grpcapi/attention.py:78-87 | over a whole stream, clients of the two ports read the same items at every point if and only if no item is an attention update with an event id |
| Servicers.CarriedExactly | app/grpcapi/attention.py:44-87 | the gRPC message says what the use case's item says, for events, log lines and updates of the core, if and only if the item is no attention update with an event id |
| Servicers.UpdateSurvives | app/usecases/attention.py:284-289 | the servicer's copy keeps all of an update, its kind and change through both name tables, but its event id |
| Servicers.MessageHoldsTheCores | app/grpcapi/attention.py:44-87 | through both tables of names, the message holds the core's kind and change and every field of its item |
| Servicers.OnlySseHandsOutTheCursor | app/grpcapi/attention.py:78-87 | an update with an event id has it in its SSE frame, and the same gRPC message whatever the id was |
| Parity.SameEnding | app/grpcapi/interceptors.py:255-282 | the gRPC call completes, aborts or lets a cancellation through exactly as the SSE stream closes, reports an error or lets it through |
| Parity.SameCoreError | app/platform/errors.py:86-94 | a core error's gRPC status is the core's own, its SSE body carries that code and its HTTP image; on the gRPC port eight named codes hide the core's text, and the SSE port differs only by its own text for two of them |
| Parity.OtherFaultsAgreeExactly | app/routers/stream.py:179-195 | for a failure not the core's, the ports name the same code if and only if the gRPC one is INTERNAL |
| Parity.CoreTextIsHiddenExactly | app/platform/errors.py:29-37 | on either port, what a client receives of a broken-off stream is independent of the core's text if and only if the code is one of eight, named |
| Interceptors.UnaryCall.Authenticated | app/grpcapi/interceptors.py:301-329 | the handler runs with the authenticated context set, or does not run; what it found is kept; the variable is restored whatever the outcome |
| Interceptors.UnaryCall.Translated | app/grpcapi/interceptors.py:229-253 | every fault but a cancellation leaves as the abort of its status |
| Interceptors.UnaryCall.Logged | app/grpcapi/interceptors.py:121-160 | through the whole stack the handler runs at most once, on a method that is not public if and only if the verifier and the resolver take the caller, and then finds the call's request context and a context made of these credentials and the resolver's answer; the request context is restored if and only if the outcome is not a cancellation |
| Interceptors.StreamCall.AuthNext | app/grpcapi/interceptors.py:331-363 | each advance runs the handler with the authenticated context set; it stays set while suspended and is restored at the end |
| Interceptors.StreamCall.ErrorNext | app/grpcapi/interceptors.py:255-282 | each advance delivers the item, completes, or terminates with the fault's status |
| Interceptors.StreamCall.Next | app/grpcapi/interceptors.py:162-218 | at each advance so far the handler found the call's request context and, on a method that is not public, a context made of these credentials and the resolver's answer; the stack's invariant is kept |
| Interceptors.StreamCall.Finalize | app/grpcapi/interceptors.py:94-104 | each variable by itself: restored if its wrapper is finalized in the context that set it, left as it is if finalized elsewhere |
| Interceptors.ServeStream | app/grpcapi/interceptors.py:162-363 | a whole streaming call delivers the handler's items up to its first non-item; the handler runs if and only if the caller is admitted or the method is public, and every time finds both contexts as they must be; each variable is restored unless the consumer left midway and that variable's wrapper was finalized elsewhere |
| Authentication.AuthMiddleware.Dispatch | app/platform/security/middleware.py:24-71 | the reply is that of the decision on this request, the application finds the decided context, and the context variable is restored whatever happens |
| Authentication.PortsAgreeExactly | app/grpcapi/interceptors.py:365-395 | REST and gRPC build the same context or refuse alike, for every verifier and resolver, if and only if the route is not token-only or the resolver would have said nobody |
| Authentication.ServeAll | app/platform/security/middleware.py:24-71 | a registered route tree and any sequence of requests to a new middleware: without credentials, or with a token the verifier refuses, a request reaches the application if and only if its path is one of three or a leaf marked public takes it, and is otherwise answered 401 "Not authenticated" when it has no credentials; an exempt route sees no context, whoever called before, and any other sees the one made of that very request's credentials |
| Authentication.OpenExactly | app/platform/security/decorator.py:99-106 | the middleware's exemptions and its spared routes, read off the tree |
| Authentication.GoesOnExactly | app/platform/security/middleware.py:28-71 | a request that is not open goes on if and only if the verifier takes its token and the resolver, where it is asked, answers; each other case has its refusal |
| Authentication.TheTokenIsBare | app/grpcapi/interceptors.py:365-395 | the raw token is what follows the scheme, if there is one, without the blanks around it |
| Authentication.FaultsByKind | app/grpcapi/interceptors.py:229-253 | a message that does not validate is INVALID_ARGUMENT with its text; a bare exception is INTERNAL and shows nothing of its text |
| Authentication.AdmittedContext | app/grpcapi/interceptors.py:308-329 | a caller is admitted if and only if the verifier takes the token and the resolver answers, and the context is made of the verified principal, the bare token, the requested account and the resolver's answer to exactly those |
| Errors.DetourThroughHttp | app/platform/errors.py:45-106 | a core error that crosses HTTP on its way to gRPC keeps its status if and only if its code is not OK, CANCELLED, UNKNOWN, ABORTED, OUT_OF_RANGE or DATA_LOSS, the codes whose HTTP image reads back as another; its detail always survives |
| Errors.DetailsLeakExactlyBelow500 | app/platform/errors.py:29-52 | on both ports what goes out is independent of the core's text if and only if the code is CANCELLED, UNKNOWN, DEADLINE_EXCEEDED, OUT_OF_RANGE, UNIMPLEMENTED, INTERNAL, UNAVAILABLE or DATA_LOSS; for any other code a text of the core arrives unchanged, with a 4xx status unless the code is OK |
| Errors.HttpStatusSurvivesExactly | app/platform/errors.py:26-83 | an HTTP status that becomes a gRPC one reads back as itself if and only if it is one of eleven, and all but ten become INTERNAL |
| CallAuth.RefusedExactly | app/coreclient/callauth.py:62-66 | a claim is refused if and only if one of its five fields holds a pipe or a dot, and the field named is such a one; the expiry never is |
| CallAuth.ReadsBackWhatWasSigned | app/coreclient/callauth.py:46-69 | splitting at the dot, decoding and splitting at the pipes gives back exactly the five fields, the expiry, and the digest of exactly that payload |
| CallAuth.WireLayout | app/coreclient/callauth.py:61-69 | the assertion is the unpadded encoding of caller, actor, kind, account, session and expiry between pipes, a dot, and the digest of that payload |
| CallAuth.HexReadsBack | app/coreclient/callauth.py:68 | two hexadecimal digits for each byte of the digest, which give it back |
| CallAuth.EqualPayloadsMeanEqualClaims | app/coreclient/callauth.py:46-69 | equal payload parts mean equal claims and expiries, whatever the keys |
| CallAuth.PipeBanIsExact | app/coreclient/callauth.py:31-35 | the payload splits back into its fields if and only if no field holds a pipe |
| CallAuth.ExpiryWindow | app/coreclient/callauth.py:37-62 | an assertion expires at most 120 s and more than 119 s after it was made |
| Base64Url.DecodeOfEncode | app/coreclient/callauth.py:69 | decoding undoes encoding for every byte sequence |
| Base64Url.UnpaddedRoundTrip | app/platform/security/firebase.py:177-183 | stripping removes only padding, never leaves a length of 1 mod 4, and re-padding by the negated length mod 4 restores the encoding and the bytes |
| Base64Url.UnpaddedInjective | app/coreclient/callauth.py:69 | different bytes print differently |
| Base64Url.UnpaddedIsUrlSafe | app/coreclient/callauth.py:69 | what is printed holds letters, digits, `-` and `_` and nothing else |
| Base64Url.StandardVectors | app/coreclient/callauth.py:69 | `foobar` of RFC 4648, section 10, and the two characters that section 5 changes |
| Base64Url.RepaddedDecodesExactly | app/platform/security/firebase.py:177-183 | a re-padded segment of data characters decodes if and only if its length is not 1 mod 4, to three quarters of it |
| Metadata.MetadataFor | app/coreclient/client.py:145-200 | the list built by appending is the specified one, or the refusal of the field that cannot be signed |
| Metadata.HeadersMeaning | app/coreclient/client.py:162-200 | what each header holds and when it is present |
| Metadata.SignsWhatItStates | app/coreclient/client.py:166-200 | the assertion reads back as the actor, account, kind and session stated beside it, or as the system on no account when nothing is stated |
| Metadata.BuiltExactly | app/coreclient/client.py:166-179 | metadata goes out if and only if there is no key or no signed field carries a separator |
| Templates.CompilePreservesMeaning | app/platform/security/decorator.py:94 | the pattern matches a path if and only if it is the template with each parameter replaced by a non-empty slash-free string, up to the trailing newline `$` tolerates |
| Templates.WholeSegments | app/platform/security/decorator.py:94 | with parameters filling whole segments, that is segment-by-segment matching |
| Templates.CompiledRouteMatches | app/platform/security/decorator.py:94-106 | hence the compiled pattern matches exactly the paths a segment-by-segment router would |
| Routes.FlattenVisitsEachLeafOnce | app/platform/security/decorator.py:46-70 | the walk terminates and yields exactly the leaves of the tree, each once, in document order |
| Routes.Registry.Add | app/platform/security/decorator.py:82-96 | a leaf adds its pairs to the table it is marked for and nothing to the other |
| Routes.Registry.Register | app/platform/security/decorator.py:73-96 | both tables are a function of the tree alone, whatever they held before |
| Routes.TablesExactly | app/platform/security/decorator.py:79-96 | the public table holds exactly the pairs of public leaves, the token-only table exactly those of leaves token-only and not public |
| Routes.HitExactly | app/platform/security/decorator.py:99-106 | a request hits a table if and only if a leaf of the tree marked for it has its method and a template its path fills |
| Routes.QueriesExactly | app/platform/security/decorator.py:46-106 | after registration `is_public` holds of a request if and only if a leaf down the tree, marked public and with a path, lists its method in either case and has a template its path fills; `is_token_only` likewise for a leaf marked token-only and not public |
| Routes.FlattenedExactly | app/platform/security/decorator.py:46-70 | the walk yields a route if and only if it ends some way down the tree, through `routes` or the inner router's |
| Grouping.GroupByDemand | app/usecases/attention.py:201-226 | the in-place loop leaves new groups equal to the declarative grouping |
| Grouping.FindOrInsert | app/usecases/attention.py:221-224 | looking a group up, or creating and inserting it last, keeps the dictionary and its order in step |
| Grouping.GroupsAreWellGrouped | app/usecases/attention.py:201-213 | groups have distinct demands, none is empty, every demand of the queue has one, and they come in the order of first occurrence |
| Grouping.ItemsAreConserved | app/usecases/attention.py:201-226 | no item is lost or repeated |
| Grouping.HeadsKeepTheCoresOrder | app/usecases/attention.py:204-213 | on a queue in priority order every group is non-empty and in that order, and so are the heads of any two groups |
| Grouping.RegroupingExactly | app/usecases/attention.py:201-226 | laying groups end to end and grouping again gives them back if and only if they are a grouping |
| Grouping.GroupingTwiceIsGroupingOnce | app/usecases/attention.py:201-226 | grouping the grouped box changes nothing |
| Refusal.RoundTripExactly | app/usecases/delivery.py:206-218 | printing then parsing gives a refusal back if and only if its reason is trimmed and free of `: ` and its items are trimmed, non-empty and free of `; ` |
| Refusal.ParsesWhatIsPrinted | app/usecases/delivery.py:66-70 | the parser undoes the core's printer |
| Refusal.SentenceBySight | app/usecases/delivery.py:66-70 | the core's sentence spelled out: the reason alone, or `reason: item; item` |
| Text.StripsBlanks | app/usecases/delivery.py:209-218 | blanks, tabs and line ends around a visible text are stripped, and nothing of the text is |
| Refusal.ParsedIsPrintable | app/usecases/delivery.py:214-218 | whatever the core writes, the parsed reason and items are clean |
| Refusal.ParsingIsStable | app/usecases/delivery.py:206-218 | for every detail, printing the parse and parsing again is a fixed point |
| Refusal.ItemsExactlyWhenSeparated | app/usecases/delivery.py:209-218 | items come out if and only if the stripped sentence holds the reason separator; otherwise the whole of it is the reason |
| LogMask.MaskedEqualExactly | app/platform/logging/config.py:42-52 | two events mask to the same line if and only if they differ only under masked keys, at any depth of dicts and lists |
| LogMask.MaskedByName | app/platform/logging/config.py:23-39 | a key is masked if and only if it spells one of the twelve names, in any mix of small and capital letters |
| LogMask.SecretsAreMarked | app/platform/logging/config.py:42-52 | wherever it stands in the output, under dicts and lists, a key that spells one of them holds `***` |
| LogMask.TheRestIsKept | app/platform/logging/config.py:42-52 | what stands under none of them is in its place: a dict with its keys, a list with its length, any other value as it was |
| LogMask.UnchangedExactlyWhenRedacted | app/platform/logging/config.py:45-50 | an event is left alone if and only if every masked key already holds the mark |
| LogMask.WalkRedactsAndKeepsTheRest | app/platform/logging/config.py:42-52 | every masked key of the output holds the mark and everything else keeps its shape and value |
| LogMask.MaskingTwiceIsMaskingOnce | app/platform/logging/config.py:42-52 | masking is idempotent |
| LogMask.NonInterferingThroughSealedExactly | app/platform/logging/config.py:43-52 | where the containers the mask does not enter count as depth, it hides every secret of an event if and only if no such container in it holds a masked key |
| LogMask.ATupleShowsItsSecret | app/platform/logging/config.py:45-50 | a password inside a tuple comes out as it went in |
| CertificateBrake.FirebaseVerifier.FetchCertificates | app/platform/security/firebase.py:142-155 | inside 30 s of the last success nothing is sent; otherwise one request is, and only a success replaces the keys and the stamp |
| CertificateBrake.FirebaseVerifier.PublicKey | app/platform/security/firebase.py:119-140 | the outcome, the new cache and the traffic of one lookup, bad headers refused before any fetch |
| CertificateBrake.FirebaseVerifier.PublicKeys | app/platform/security/firebase.py:119-155 | the same over a sequential run |
| CertificateBrake.BrakeBoundsServedFetches | app/platform/security/firebase.py:142-155 | over any run successful fetches are at least 30 s apart, so any window of D seconds holds at most D/30 + 1 |
| CertificateBrake.KeysComeFromTheLatestFetch | app/platform/security/firebase.py:135-140 | a key returned is the one the latest successful fetch lists under the token's id; a refused id is one it does not list |
| CertificateBrake.RequestSentExactly | app/platform/security/firebase.py:119-155 | a visit sends a request if and only if its header is acceptable, the latest served keys do not list its id, and the latest served answer is 30 s old or more |
| CertificateBrake.OutcomesExactly | app/platform/security/firebase.py:119-155 | an acceptable id that the latest or the just served keys list yields its certificate; a fetch error comes out if and only if a request was sent and failed; anything else is refused for the first reason there is |
| CertificateBrake.RotatedKeysAreFound | app/platform/security/firebase.py:135-155 | past the brake, an id that the endpoint would serve is never refused unless the latest keys list it with no certificate |
| CertificateBrake.BrakeBoundsTrafficExactly | app/platform/security/firebase.py:142-155 | requests that fare a given way are always at least 30 s apart if and only if all but the last of them succeed |
| TokenCache.ServiceIdentity.FreshToken | app/coreclient/client.py:76-90 | the token served and the cache left behind, with an hour's recorded life from the clock read first |
| TokenCache.FirebaseAdmin.AccessToken | app/platform/security/firebase_admin.py:57-69 | the same with the server's lifetime; none of it with the emulator; a lifetime that is not a number leaves the new token under the old expiry |
| TokenCache.CachedTokensHaveLifeLeft | app/coreclient/client.py:77-79 | over any run, a token served from cache is the last one the server brought, and the latest grant has more than 300 s of its recorded life left |
| TokenCache.AsksExactly | app/coreclient/client.py:77-79 | over any run, a call sends a request if and only if there is no token or its recorded life is down to 300 s |
| TokenCache.GrantsAreServedAndKept | app/platform/security/firebase_admin.py:60-69 | a call that asks serves and keeps the token it is granted, with the life it is given, and raises anything else |
| TokenCache.HourlyTokensBoundRequests | app/coreclient/client.py:76-90 | with non-empty tokens good for an hour or more, requests are at least 3300 s apart over any run, which bounds every window |
| TokenCache.SparedExactly | app/platform/security/firebase_admin.py:60-69 | a later call is spared the trip if and only if the grant was a non-empty token with more than the wait plus 300 s of life, or an answer with a garbled lifetime brought a token in place of an empty one whose expiry is that far off |

## Left out

- CompilePreservesMeaning: templates whose literal text holds a regex metacharacter, because the regex engine is modelled on literal characters and the slash-free wildcard only.
- HitExactly: the same restriction, on the marked leaves alone; methods are upper-cased as ASCII.
- QueriesExactly: the same restriction as HitExactly.
- ServeAll: the same restriction as HitExactly.
- The core's own behaviour, but for two assumptions: it replays strictly after a cursor it knows, and event ids are new to the log, non-empty and free of NUL. A cursor the log does not know is not modelled, and with no cursor the core may start anywhere.
- The text encoding of frames, JSON encoding (taken as total), heartbeats, and line breaks in ids.
- Concurrency inside one object: one consumer per stream, and sequential calls to the caches (two coroutines can both pass the brake before either fetch returns).
- When an abandoned generator is finalized: it is taken to be finalized, in the context that created it or in another.
- Texts in the signed claim are their UTF-8 bytes; the keyed digest is any function of key and payload; signature and X.509 checks are verdicts.
- `str.lower` and `str.upper` beyond the characters that decide membership in the mask's names and in ASCII method names; dictionary keys that are not text.
- A route object whose `methods` is present but null.
- CarriedExactly: an event's and a log line's moment is left out of the items; other moments and JSON payloads are opaque values that the copies pass on; their protobuf encodings are not modelled.
- The resumption of the attention stream: the protocol of the account-event stream with another item.
- The generation of request ids, and what else the request context holds: any value is taken.
- Role and grant checks, the account-scoped decorator, the emulator's claim checks, link generation, tracing, settings, HTTP clients and routers: one branch each, or none.
