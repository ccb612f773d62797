/** Who is calling: the REST middleware (`AuthMiddleware.dispatch`,
    app/platform/security/middleware.py) and the gRPC interceptor's `_authenticate` and
    `_resolve` (app/grpcapi/interceptors.py) decide it from the same two answers. */
module Authentication {
  import opened Errors
  import opened Options
  import Routes
  import Text

  datatype Principal = Principal(subject: string, email: string, name: string, sessionId: string)

  datatype AuthContext = AuthContext(principal: Principal, rawToken: string, userId: string, accountId: string,
                                     role: string, grants: map<string, string>)

  /** The two fields both ports read: `authorization` and `x-account-id`, empty when
      absent. */
  datatype Credentials = Credentials(authorization: string, accountId: string)

  /** `verifier.verify(raw)`. */
  datatype Verdict = Verified(principal: Principal) | InvalidToken(text: string) | VerifierThrows(fault: Fault)

  /** `resolver(principal, account_id, raw_token)`. */
  datatype Resolution = Resolved(userId: string, role: string, grants: map<string, string>) | ResolverThrows(fault: Fault)

  datatype Services = Services(verify: string -> Verdict, resolver: Maybe<(Principal, string, string) -> Resolution>)

  /** What authentication comes to. */
  datatype Decision = Admitted(context: AuthContext) | Rejected(fault: Fault)

  const NOT_AUTHENTICATED := HttpError(401, "Not authenticated")
  const UNRESOLVED := HttpError(503, "Failed to resolve the account")
  const BEARER := "Bearer "

  function RawToken(authorization: string): string {
    Text.Strip(Text.RemovePrefix(authorization, BEARER))
  }

  /** A token travels as it is: with or without the scheme before it, and with blanks
      around it or none. */
  lemma TheTokenIsBare(before: string, token: string, after: string)
    requires Text.IsBlank(before) && Text.IsBlank(after)
    requires token != "" ==> '!' <= token[0] <= '~' && '!' <= token[|token| - 1] <= '~'
    ensures RawToken("Bearer " + (before + token + after)) == token
    ensures !("Bearer " <= before + token + after) ==> RawToken(before + token + after) == token
  {
    Text.StripsBlanks(before, token, after);
    assert ("Bearer " + (before + token + after))[|"Bearer "|..] == before + token + after;
  }

  // ── gRPC ────────────────────────────────────────────────────────────────────

  datatype Identity = Identity(principal: Principal, rawToken: string, accountId: string) | Unidentified(fault: Fault)

  /** `_authenticate`. */
  function Authenticate(services: Services, c: Credentials): Identity {
    if c.authorization == "" then Unidentified(Http(NOT_AUTHENTICATED))
    else
      match services.verify(c.authorization)
      case Verified(p) => Identity(p, RawToken(c.authorization), c.accountId)
      case InvalidToken(text) => Unidentified(Http(HttpError(401, text)))
      case VerifierThrows(fault) => Unidentified(fault)
  }

  /** `_resolve`: an `HTTPException` goes on, any other `Exception` becomes a 503. */
  function Resolve(services: Services, p: Principal, accountId: string, rawToken: string): Resolution {
    match services.resolver
    case None => Resolved("", "", map[])
    case Some(resolve) =>
      match resolve(p, accountId, rawToken)
      case Resolved(u, r, g) => Resolved(u, r, g)
      case ResolverThrows(Http(h)) => ResolverThrows(Http(h))
      case ResolverThrows(Cancelled) => ResolverThrows(Cancelled)
      case ResolverThrows(_) => ResolverThrows(Http(UNRESOLVED))
  }

  /** The two together, as both gRPC wrappers call them. */
  function GrpcDecision(services: Services, c: Credentials): Decision {
    match Authenticate(services, c)
    case Unidentified(fault) => Rejected(fault)
    case Identity(p, raw, account) =>
      match Resolve(services, p, account, raw)
      case ResolverThrows(fault) => Rejected(fault)
      case Resolved(u, r, g) => Admitted(AuthContext(p, raw, u, account, r, g))
  }

  // ── REST ────────────────────────────────────────────────────────────────────

  /** What the rest of the application does with a request. */
  datatype Response = Json(status: int, detail: string) | Handled(body: string)

  datatype Reply = Responds(response: Response) | Throws(fault: Fault)

  const OPEN_PATHS := ["/healthz", "/docs", "/openapi.json"]

  predicate IsOpen(registry: Routes.Registry, verb: string, path: string)
    reads registry
  {
    registry.IsPublic(verb, path) || path in OPEN_PATHS
  }

  /** `outcomes` is bookkeeping: what became of every request, and for one that went on,
      the context the application found. */
  class AuthMiddleware {
    const services: Services
    const registry: Routes.Registry
    var authCtx: Maybe<AuthContext>
    ghost var outcomes: seq<RestOutcome>

    constructor (services: Services, registry: Routes.Registry)
      ensures this.services == services && this.registry == registry && authCtx == None && outcomes == []
    {
      this.services, this.registry, authCtx, outcomes := services, registry, None, [];
    }

    /** `call_next`: the rest of the application, which finds what the variable holds. */
    method CallNext(next: Maybe<AuthContext> -> Reply) returns (reply: Reply)
      modifies this`outcomes
      ensures outcomes == old(outcomes) + [Proceeds(authCtx)] && reply == next(authCtx)
    {
      outcomes := outcomes + [Proceeds(authCtx)];
      reply := next(authCtx);
    }

    method Refuse(status: int, detail: string) returns (reply: Reply)
      modifies this`outcomes
      ensures outcomes == old(outcomes) + [Refused(HttpError(status, detail))]
      ensures reply == Responds(Json(status, detail))
    {
      outcomes := outcomes + [Refused(HttpError(status, detail))];
      reply := Responds(Json(status, detail));
    }

    method Escape(fault: Fault) returns (reply: Reply)
      modifies this`outcomes
      ensures outcomes == old(outcomes) + [Escapes(fault)] && reply == Throws(fault)
    {
      outcomes := outcomes + [Escapes(fault)];
      reply := Throws(fault);
    }

    /** `dispatch`. `next` is `call_next`: what the application answers given the context
        it finds. Whatever happens, the context variable is as it was. */
    method Dispatch(verb: string, path: string, c: Credentials, next: Maybe<AuthContext> -> Reply)
      returns (reply: Reply)
      modifies this`authCtx, this`outcomes
      ensures authCtx == old(authCtx)
      ensures var outcome := RestDecision(services, IsOpen(registry, verb, path), registry.IsTokenOnly(verb, path),
                                          c, old(authCtx));
              outcomes == old(outcomes) + [outcome] && reply == RestReply(outcome, next)
    {
      if registry.IsPublic(verb, path) || path in OPEN_PATHS {
        reply := CallNext(next);
        return;
      }
      var raw := c.authorization;
      if raw == "" {
        reply := Refuse(401, "Not authenticated");
        return;
      }
      var principal;
      match services.verify(raw) {
        case Verified(p) =>
          principal := p;
        case InvalidToken(text) =>
          reply := Refuse(401, text);
          return;
        case VerifierThrows(fault) =>
          reply := Escape(fault);
          return;
      }
      var userId, role, grants := "", "", map[];
      if services.resolver.Some? && !registry.IsTokenOnly(verb, path) {
        var resolve := services.resolver.value;
        match resolve(principal, c.accountId, RawToken(raw)) {
          case Resolved(u, r, g) =>
            userId, role, grants := u, r, g;
          case ResolverThrows(fault) =>
            if fault.Http? {
              reply := Refuse(fault.refusal.status, fault.refusal.detail);
            } else if fault.Cancelled? {
              reply := Escape(fault);
            } else {
              reply := Refuse(503, "Failed to resolve the account");
            }
            return;
        }
      }
      var token := authCtx;
      authCtx := Some(AuthContext(principal, RawToken(raw), userId, c.accountId, role, grants));
      reply := CallNext(next);
      authCtx := token;
    }
  }

  datatype Request = Request(verb: string, path: string, credentials: Credentials, next: Maybe<AuthContext> -> Reply)

  /** A context made of these credentials and no others. */
  predicate MadeOf(services: Services, c: Credentials, context: AuthContext) {
    && services.verify(c.authorization) == Verified(context.principal)
    && context.rawToken == RawToken(c.authorization) && context.accountId == c.accountId
  }

  /** A new middleware serving one request after another, behind a registry. */
  method ServeBehind(services: Services, registry: Routes.Registry, requests: seq<Request>)
    returns (app: AuthMiddleware, replies: seq<Reply>)
    ensures fresh(app) && |app.outcomes| == |replies| == |requests| && app.authCtx == None
    ensures forall i :: 0 <= i < |requests| ==>
              var r := requests[i];
              && app.outcomes[i] == RestDecision(services, IsOpen(registry, r.verb, r.path),
                                                 registry.IsTokenOnly(r.verb, r.path), r.credentials, None)
              && replies[i] == RestReply(app.outcomes[i], r.next)
  {
    app := new AuthMiddleware(services, registry);
    replies := [];
    for n := 0 to |requests|
      invariant fresh(app) && app.services == services && app.registry == registry
      invariant |app.outcomes| == |replies| == n && app.authCtx == None
      invariant forall i :: 0 <= i < n ==> replies[i] == RestReply(app.outcomes[i], requests[i].next)
      invariant forall i :: 0 <= i < n ==>
                  var r := requests[i];
                  app.outcomes[i] == RestDecision(services, IsOpen(registry, r.verb, r.path),
                                                  registry.IsTokenOnly(r.verb, r.path), r.credentials, None)
    {
      var r := requests[n];
      var reply := app.Dispatch(r.verb, r.path, r.credentials, r.next);
      replies := replies + [reply];
    }
  }

  /** The whole REST side: the tree is registered, and a new middleware serves one request
      after another. Whoever called before, a request without credentials reaches the
      application exactly if it is exempt, one of three paths or taken by a leaf marked
      public, and otherwise is answered 401. So it is for a request whose token the verifier
      refuses. What goes on with a context has the one made of its own credentials, and a
      leaf marked token-only spares the resolver. */
  method ServeAll(services: Services, routes: seq<Routes.Route>, requests: seq<Request>)
    returns (app: AuthMiddleware, replies: seq<Reply>)
    requires Routes.TemplatesOnly(routes)
    ensures |app.outcomes| == |replies| == |requests| && app.authCtx == None
    ensures forall i | 0 <= i < |requests| ::
              var r, outcome := requests[i], app.outcomes[i];
              && outcome == RestDecision(services, Exempt(routes, r.verb, r.path), Spared(routes, r.verb, r.path),
                                         r.credentials, None)
              && replies[i] == RestReply(outcome, r.next)
    ensures forall i | 0 <= i < |requests| :: Sound(services, routes, requests[i], app.outcomes[i], replies[i])
    ensures forall i | 0 <= i < |requests| && requests[i].credentials.authorization == "" ::
              replies[i] ==
                if requests[i].path in {"/healthz", "/docs", "/openapi.json"}
                   || exists leaf :: Routes.MarkedPublic(routes, leaf, requests[i].verb, requests[i].path)
                then requests[i].next(None)
                else Responds(Json(401, "Not authenticated"))
  {
    var registry := new Routes.Registry();
    registry.Register(routes);
    app, replies := ServeBehind(services, registry, requests);
    forall i | 0 <= i < |requests|
      ensures IsOpen(registry, requests[i].verb, requests[i].path) == Exempt(routes, requests[i].verb, requests[i].path)
      ensures registry.IsTokenOnly(requests[i].verb, requests[i].path)
           == Spared(routes, requests[i].verb, requests[i].path)
      ensures Sound(services, routes, requests[i], app.outcomes[i], replies[i])
    {
      var r := requests[i];
      OpenExactly(registry, routes, r.verb, r.path);
      DecisionsAreSound(services, routes, r);
    }
    assert forall i | 0 <= i < |requests| ::
        Exempt(routes, requests[i].verb, requests[i].path) <==>
          requests[i].path in {"/healthz", "/docs", "/openapi.json"}
          || exists leaf :: Routes.MarkedPublic(routes, leaf, requests[i].verb, requests[i].path);
  }

  ghost predicate Exempt(routes: seq<Routes.Route>, verb: string, path: string) {
    path in {"/healthz", "/docs", "/openapi.json"} || exists leaf :: Routes.MarkedPublic(routes, leaf, verb, path)
  }

  ghost predicate Spared(routes: seq<Routes.Route>, verb: string, path: string) {
    exists leaf :: Routes.MarkedTokenOnly(routes, leaf, verb, path)
  }

  /** Nobody gets in without credentials that the verifier takes but to an exempt route,
      and nobody with another's context. */
  ghost predicate Sound(services: Services, routes: seq<Routes.Route>, r: Request, outcome: RestOutcome, reply: Reply) {
    var c, exempt := r.credentials, Exempt(routes, r.verb, r.path);
    && (exempt ==> outcome == Proceeds(None) && reply == r.next(None))
    && (!exempt && c.authorization == "" ==> !outcome.Proceeds? && reply == Responds(Json(401, "Not authenticated")))
    && (!exempt && !services.verify(c.authorization).Verified? ==> !outcome.Proceeds?)
    && (!exempt && outcome.Proceeds? ==> outcome.context.Some? && MadeOf(services, c, outcome.context.value))
  }

  lemma DecisionsAreSound(services: Services, routes: seq<Routes.Route>, r: Request)
    ensures var outcome := RestDecision(services, Exempt(routes, r.verb, r.path), Spared(routes, r.verb, r.path),
                                        r.credentials, None);
            Sound(services, routes, r, outcome, RestReply(outcome, r.next))
  {
  }

  /** Which requests are open, read off the tree the registry was filled from. */
  lemma OpenExactly(registry: Routes.Registry, routes: seq<Routes.Route>, verb: string, path: string)
    requires registry.publicPatterns == Routes.Entries(Routes.Flatten(routes), Routes.Public)
    requires registry.tokenOnlyPatterns == Routes.Entries(Routes.Flatten(routes), Routes.TokenOnly)
    requires Routes.TemplatesOnly(routes)
    ensures IsOpen(registry, verb, path) <==>
              path in {"/healthz", "/docs", "/openapi.json"}
              || exists leaf :: Routes.MarkedPublic(routes, leaf, verb, path)
    ensures registry.IsTokenOnly(verb, path) <==> exists leaf :: Routes.MarkedTokenOnly(routes, leaf, verb, path)
  {
    Routes.QueriesExactly(registry, routes, verb, path);
  }

  /** A request goes on exactly if it is open, or the verifier takes its token and the
      resolver, where it is asked, answers; then with the context made of the three. A
      token the verifier refuses goes back with the verifier's words, and a resolver that
      fails without a refusal of its own is a 503. */
  lemma GoesOnExactly(services: Services, open: bool, tokenOnly: bool, c: Credentials, current: Maybe<AuthContext>)
    ensures var outcome, verdict := RestDecision(services, open, tokenOnly, c, current), services.verify(c.authorization);
      && (outcome.Proceeds? <==>
            open || (c.authorization != "" && verdict.Verified?
                     && (tokenOnly || services.resolver.None?
                         || services.resolver.value(verdict.principal, c.accountId, RawToken(c.authorization)).Resolved?)))
      && (open ==> outcome.context == current)
      && (!open && c.authorization != "" && verdict.InvalidToken? ==> outcome == Refused(HttpError(401, verdict.text)))
    ensures var outcome := RestDecision(services, open, tokenOnly, c, current);
            !open && outcome.Proceeds? ==>
              && outcome.context.Some? && MadeOf(services, c, outcome.context.value)
              && var ctx := outcome.context.value;
                 if tokenOnly || services.resolver.None? then ctx.userId == ctx.role == "" && ctx.grants == map[]
                 else services.resolver.value(ctx.principal, ctx.accountId, ctx.rawToken)
                      == Resolved(ctx.userId, ctx.role, ctx.grants)
    ensures var outcome := RestDecision(services, open, tokenOnly, c, current);
            !open && c.authorization != "" && services.verify(c.authorization).Verified? && !tokenOnly
            && services.resolver.Some? ==>
              match services.resolver.value(services.verify(c.authorization).principal, c.accountId,
                                            RawToken(c.authorization))
              case Resolved(_, _, _) => outcome.Proceeds?
              case ResolverThrows(fault) =>
                outcome == if fault.Cancelled? then Escapes(fault)
                           else if fault.Http? then Refused(fault.refusal)
                           else Refused(HttpError(503, "Failed to resolve the account"))
  {
  }

  /** Where a REST request goes: on, with the context the handlers see, or back. */
  datatype RestOutcome = Proceeds(context: Maybe<AuthContext>) | Refused(refusal: HttpError) | Escapes(fault: Fault)

  function RestDecision(services: Services, open: bool, tokenOnly: bool, c: Credentials, current: Maybe<AuthContext>)
    : RestOutcome
  {
    if open then Proceeds(current)
    else if c.authorization == "" then Refused(NOT_AUTHENTICATED)
    else
      match services.verify(c.authorization)
      case InvalidToken(text) => Refused(HttpError(401, text))
      case VerifierThrows(fault) => Escapes(fault)
      case Verified(p) =>
        var raw := RawToken(c.authorization);
        if services.resolver.None? || tokenOnly then
          Proceeds(Some(AuthContext(p, raw, "", c.accountId, "", map[])))
        else
          match services.resolver.value(p, c.accountId, raw)
          case Resolved(u, r, g) => Proceeds(Some(AuthContext(p, raw, u, c.accountId, r, g)))
          case ResolverThrows(Http(h)) => Refused(h)
          case ResolverThrows(Cancelled) => Escapes(Cancelled)
          case ResolverThrows(_) => Refused(UNRESOLVED)
  }

  function RestReply(outcome: RestOutcome, next: Maybe<AuthContext> -> Reply): Reply {
    match outcome
    case Proceeds(context) => next(context)
    case Refused(h) => Responds(Json(h.status, h.detail))
    case Escapes(fault) => Throws(fault)
  }

  // ── parity ──────────────────────────────────────────────────────────────────

  /** The terminal status of a fault on the gRPC port (`ErrorInterceptor`). */
  function StatusOf(fault: Fault): GrpcStatus
    requires !fault.Cancelled?
  {
    match fault
    case Core(e) => AsGrpc(e)
    case Http(h) => AsGrpcFromHttp(h)
    case Validation(text) => GrpcStatus(INVALID_ARGUMENT, text)
    case Other(_) => GrpcStatus(INTERNAL, INTERNAL_ERROR)
  }

  /** The status of a fault that is not the core's: a message that does not validate is the
      client's to read, an HTTP refusal keeps its detail below 500, and a bare exception
      shows nothing of its text. */
  lemma FaultsByKind(fault: Fault, text: string, other: string)
    ensures StatusOf(Validation(text)) == GrpcStatus(INVALID_ARGUMENT, text)
    ensures StatusOf(Other(text)) == StatusOf(Other(other)) == GrpcStatus(INTERNAL, "internal error")
    ensures fault.Http? ==>
              StatusOf(fault).detail == if fault.refusal.status >= 500 then "internal error" else fault.refusal.detail
  {
  }

  /** The two ports agree: the same context, or a refusal each, where the gRPC status is
      the image of the HTTP one and the details are equal below 500. */
  ghost predicate Agree(rest: RestOutcome, grpc: Decision) {
    match (rest, grpc)
    case (Proceeds(Some(a)), Admitted(b)) => a == b
    case (Refused(h), Rejected(fault)) =>
      && !fault.Cancelled? && StatusOf(fault).code == GrpcStatusForHttp(h.status)
      && StatusOf(fault).detail == if h.status < 500 then h.detail else INTERNAL_ERROR
    case (Escapes(f), Rejected(g)) => f == g
    case _ => false
  }

  /** Does the request get as far as the resolver, on a port that asks it? */
  predicate Asks(services: Services, c: Credentials) {
    c.authorization != "" && services.verify(c.authorization).Verified? && services.resolver.Some?
  }

  /** Authentication parity. On a route that is neither open nor token-only, the two ports
      agree for every verifier and every resolver. On a token-only route they agree
      exactly when the resolver is not reached or would have answered what REST fills in
      without asking: nobody, with no role and no grant. */
  lemma PortsAgreeExactly(services: Services, tokenOnly: bool, c: Credentials, current: Maybe<AuthContext>)
    ensures Agree(RestDecision(services, false, tokenOnly, c, current), GrpcDecision(services, c)) <==>
              !tokenOnly || !Asks(services, c)
              || services.resolver.value(services.verify(c.authorization).principal, c.accountId, RawToken(c.authorization))
                 == Resolved("", "", map[])
  {
  }

  /** The context of a caller the verifier took and the resolver answered for: it holds
      the resolver's answer to exactly this principal, account and token. */
  predicate AdmittedAs(services: Services, c: Credentials, ctx: AuthContext) {
    && MadeOf(services, c, ctx)
    && (if services.resolver.Some? then
          services.resolver.value(ctx.principal, ctx.accountId, ctx.rawToken) == Resolved(ctx.userId, ctx.role, ctx.grants)
        else ctx.userId == ctx.role == "" && ctx.grants == map[])
  }

  /** Who is admitted on the gRPC port, and with what context. */
  lemma AdmittedContext(services: Services, c: Credentials)
    ensures GrpcDecision(services, c).Admitted? <==>
              c.authorization != "" && services.verify(c.authorization).Verified?
              && (services.resolver.None?
                  || services.resolver.value(services.verify(c.authorization).principal, c.accountId,
                                             RawToken(c.authorization)).Resolved?)
    ensures GrpcDecision(services, c).Admitted? ==> AdmittedAs(services, c, GrpcDecision(services, c).context)
  {
  }
}
