/** The gRPC interceptor stack (app/grpcapi/interceptors.py): logging outermost, error
    translation in the middle, authentication innermost, around the servicer's handler.
    Context variables are set on the way in and reset on the way out. */
module Interceptors {
  import opened Errors
  import opened Options
  import opened Pump
  import opened Authentication

  /** The canonical fields of a call's logging context. */
  datatype RequestInfo = RequestInfo(requestId: string, path: string, verb: string, clientIp: string) | NoRequest

  /** What a handler finds in the context variables when its code runs. */
  datatype Seen = Seen(auth: Maybe<AuthContext>, request: RequestInfo)

  /** How a call leaves the stack: with `context.abort`, or with an exception that is not
      the stack's to translate. */
  datatype Exit = Abort(status: GrpcStatus) | Uncaught(fault: Fault)

  datatype Unary<R> = Returns(value: R) | Leaves(fault: Fault)

  datatype Answer<R> = Replies(value: R) | Exits(exit: Exit)

  /** How `ErrorInterceptor` lets a fault out. */
  function ExitFor(fault: Fault): Exit {
    if fault.Cancelled? then Uncaught(fault) else Abort(StatusOf(fault))
  }

  /** What the handler sees: on a public method, whatever was there. */
  function SeenBy(decision: Decision, isPublic: bool, current: Maybe<AuthContext>, info: RequestInfo): Seen
    requires isPublic || decision.Admitted?
  {
    Seen(if isPublic then current else Some(decision.context), info)
  }

  // ── unary calls ─────────────────────────────────────────────────────────────

  class UnaryCall<R> {
    const services: Services
    const credentials: Credentials
    const isPublic: bool
    const handler: Seen -> Unary<R>
    var requestCtx: RequestInfo
    var authCtx: Maybe<AuthContext>
    ghost var trace: seq<Seen>

    constructor (services: Services, credentials: Credentials, isPublic: bool, handler: Seen -> Unary<R>,
                 requestCtx: RequestInfo, authCtx: Maybe<AuthContext>)
      ensures this.services == services && this.credentials == credentials && this.isPublic == isPublic
      ensures this.handler == handler && this.requestCtx == requestCtx && this.authCtx == authCtx && trace == []
    {
      this.services, this.credentials, this.isPublic, this.handler := services, credentials, isPublic, handler;
      this.requestCtx, this.authCtx, trace := requestCtx, authCtx, [];
    }

    /** The handler runs, and finds what the variables hold at that moment. */
    method Run() returns (outcome: Unary<R>)
      modifies this`trace
      ensures trace == old(trace) + [Seen(authCtx, requestCtx)]
      ensures outcome == handler(Seen(authCtx, requestCtx))
    {
      trace := trace + [Seen(authCtx, requestCtx)];
      outcome := handler(Seen(authCtx, requestCtx));
    }

    /** `AuthInterceptor._wrap`. */
    method Authenticated() returns (outcome: Unary<R>)
      modifies this`authCtx, this`trace
      ensures authCtx == old(authCtx)
      ensures var d := GrpcDecision(services, credentials);
              outcome == if isPublic || d.Admitted? then handler(SeenBy(d, isPublic, old(authCtx), requestCtx))
                         else Leaves(d.fault)
      ensures var d := GrpcDecision(services, credentials);
              trace == old(trace) + if isPublic || d.Admitted? then [SeenBy(d, isPublic, old(authCtx), requestCtx)] else []
    {
      if isPublic {
        outcome := Run();
        return;
      }
      match GrpcDecision(services, credentials)
      case Rejected(fault) =>
        return Leaves(fault);
      case Admitted(context) =>
        var token := authCtx;
        authCtx := Some(context);
        outcome := Run();
        authCtx := token;
    }

    /** `ErrorInterceptor._wrap`. */
    method Translated() returns (answer: Answer<R>)
      modifies this`authCtx, this`trace
      ensures authCtx == old(authCtx)
      ensures var d := GrpcDecision(services, credentials);
              trace == old(trace) + if isPublic || d.Admitted? then [SeenBy(d, isPublic, old(authCtx), requestCtx)] else []
      ensures answer == UnaryAnswer(GrpcDecision(services, credentials), isPublic, old(authCtx), requestCtx, handler)
    {
      var outcome := Authenticated();
      match outcome
      case Returns(value) => answer := Replies(value);
      case Leaves(fault) => answer := Exits(ExitFor(fault));
    }

    /** `LoggingInterceptor._wrap`. The context is reset on a return and on an
        `Exception`, an abort being one; not on a cancellation. The handler runs at most
        once: always on a public method, where it finds the caller there was; on any
        other exactly if the verifier and the resolver take the caller, whom it finds. */
    method Logged(info: RequestInfo) returns (answer: Answer<R>)
      modifies this
      ensures trace == old(trace) || (|trace| == |old(trace)| + 1 && old(trace) == trace[..|old(trace)|])
      ensures trace != old(trace) <==>
                isPublic || (credentials.authorization != "" && services.verify(credentials.authorization).Verified?
                             && (services.resolver.None?
                                 || services.resolver.value(services.verify(credentials.authorization).principal,
                                                            credentials.accountId,
                                                            RawToken(credentials.authorization)).Resolved?))
      ensures trace != old(trace) ==>
                var found := trace[|trace| - 1];
                && found.request == info
                && (if isPublic then found.auth == old(authCtx)
                    else found.auth.Some? && AdmittedAs(services, credentials, found.auth.value))
      ensures authCtx == old(authCtx)
      ensures answer == UnaryAnswer(GrpcDecision(services, credentials), isPublic, old(authCtx), info, handler)
      ensures requestCtx == if answer == Exits(Uncaught(Cancelled)) then info else old(requestCtx)
    {
      var token := requestCtx;
      requestCtx := info;
      answer := Translated();
      AdmittedContext(services, credentials);
      match answer
      case Exits(Uncaught(_)) =>
      case Exits(Abort(_)) => requestCtx := token;
      case Replies(_) => requestCtx := token;
    }
  }

  /** What a unary call comes to, through the whole stack. */
  function UnaryAnswer<R>(d: Decision, isPublic: bool, current: Maybe<AuthContext>, info: RequestInfo,
                          handler: Seen -> Unary<R>): Answer<R>
  {
    if !isPublic && d.Rejected? then Exits(ExitFor(d.fault))
    else match handler(SeenBy(d, isPublic, current, info))
      case Returns(value) => Replies(value)
      case Leaves(fault) => Exits(ExitFor(fault))
  }

  // ── server-streaming calls ──────────────────────────────────────────────────

  /** A streaming handler: what its generator comes back with at each advance, given what
      it sees in the context variables at that moment. */
  type Handler<T> = (Seen, nat) -> Out<T, Fault>

  /** What an advance of the outermost wrapper comes back with. */
  datatype Delivery<T> = Delivers(value: T) | Completes | Terminates(exit: Exit)

  /** One streaming call: the context variables of its task, and the frames of the three
      generators, each created, suspended at its `yield`, or finished. */
  class StreamCall<T> {
    const services: Services
    const credentials: Credentials
    const isPublic: bool
    const handler: Handler<T>
    const info: RequestInfo
    var requestCtx: RequestInfo
    var authCtx: Maybe<AuthContext>

    var logging: Phase
    var requestToken: RequestInfo
    var sent: nat
    var error: Phase
    var auth: Phase
    var authToken: Maybe<AuthContext>
    var pulls: nat
    ghost var trace: seq<Seen>

    ghost const requestBefore: RequestInfo
    ghost const authBefore: Maybe<AuthContext>

    constructor (services: Services, credentials: Credentials, isPublic: bool, handler: Handler<T>, info: RequestInfo,
                 requestCtx: RequestInfo, authCtx: Maybe<AuthContext>)
      ensures this.services == services && this.credentials == credentials && this.isPublic == isPublic
      ensures this.handler == handler && this.info == info
      ensures requestBefore == requestCtx && authBefore == authCtx
      ensures logging == Created && pulls == 0 && Valid()
    {
      this.services, this.credentials, this.isPublic, this.handler := services, credentials, isPublic, handler;
      this.info, this.requestCtx, this.authCtx := info, requestCtx, authCtx;
      requestBefore, authBefore := requestCtx, authCtx;
      logging, error, auth := Created, Created, Created;
      requestToken, authToken, pulls, sent, trace := requestCtx, authCtx, 0, 0, [];
    }

    ghost function TheDecision(): Decision {
      GrpcDecision(services, credentials)
    }

    ghost predicate Open() {
      isPublic || TheDecision().Admitted?
    }

    /** What the handler is to see, at every advance. */
    ghost function View(): Seen
      requires Open()
    {
      SeenBy(TheDecision(), isPublic, authBefore, info)
    }

    /** What the handler found, each time its code ran. */
    ghost predicate Informed()
      reads this
    {
      && |trace| == pulls && (trace != [] ==> Open())
      && forall i :: 0 <= i < |trace| ==>
           && trace[i].request == info
           && (if isPublic then trace[i].auth == authBefore
               else trace[i].auth.Some? && AdmittedAs(services, credentials, trace[i].auth.value))
    }

    /** While the innermost wrapper is suspended the authenticated context is set; before
        and after, the variable holds what it held before the call. */
    ghost predicate AuthValid()
      reads this
    {
      && (auth == Suspended ==> Open() && authCtx == View().auth && authToken == authBefore)
      && (auth != Suspended ==> authCtx == authBefore)
    }

    ghost predicate Valid()
      reads this
    {
      && AuthValid() && Informed() && logging == error == auth
      && (logging == Suspended ==> requestCtx == info && requestToken == requestBefore && sent == pulls)
      && (logging != Suspended ==> requestCtx == requestBefore)
      && (logging == Created ==> pulls == sent == 0)
    }

    /** `AuthInterceptor._wrap_stream`; a public method has no wrapper of its own. */
    method AuthNext() returns (out: Out<T, Fault>)
      requires AuthValid() && Informed() && auth != Finished && requestCtx == info
      modifies this`auth, this`authCtx, this`authToken, this`pulls, this`trace
      ensures AuthValid() && Informed() && auth == (if out.Yields? then Suspended else Finished)
      ensures Open() ==> out == handler(View(), old(pulls)) && pulls == old(pulls) + 1
      ensures !Open() ==> out == Raises(TheDecision().fault) && pulls == old(pulls)
    {
      if auth == Created && !isPublic {
        match GrpcDecision(services, credentials)
        case Rejected(fault) =>
          auth := Finished;
          return Raises(fault);
        case Admitted(context) =>
          authToken := authCtx;
          authCtx := Some(context);
      } else if auth == Created {
        authToken := authCtx;
      }
      auth := Suspended;
      AdmittedContext(services, credentials);
      trace := trace + [Seen(authCtx, requestCtx)];
      out := handler(Seen(authCtx, requestCtx), pulls);
      pulls := pulls + 1;
      if !out.Yields? {
        authCtx := authToken;
        auth := Finished;
      }
    }

    /** `ErrorInterceptor._wrap_stream`. */
    method ErrorNext() returns (d: Delivery<T>)
      requires AuthValid() && Informed() && auth == error != Finished && requestCtx == info
      modifies this`error, this`auth, this`authCtx, this`authToken, this`pulls, this`trace
      ensures AuthValid() && Informed() && auth == error == (if d.Delivers? then Suspended else Finished)
      ensures Open() ==> d == Deliver(handler(View(), old(pulls))) && pulls == old(pulls) + 1
      ensures !Open() ==> d == Terminates(ExitFor(TheDecision().fault)) && pulls == old(pulls)
    {
      error := Suspended;
      var out := AuthNext();
      match out
      case Yields(value) =>
        return Delivers(value);
      case Stops =>
        error := Finished;
        return Completes;
      case Raises(fault) =>
        error := Finished;
        return Terminates(ExitFor(fault));
    }

    /** `LoggingInterceptor._wrap_stream`. */
    method Next() returns (d: Delivery<T>)
      requires Valid() && logging != Finished
      modifies this
      ensures |trace| == pulls
      ensures forall i :: 0 <= i < |trace| ==>
                && trace[i].request == info
                && (if isPublic then trace[i].auth == authBefore
                    else trace[i].auth.Some? && AdmittedAs(services, credentials, trace[i].auth.value))
      ensures Valid() && logging == (if d.Delivers? then Suspended else Finished)
      ensures Open() ==> d == Deliver(handler(View(), old(pulls))) && pulls == old(pulls) + 1
      ensures !Open() ==> d == Terminates(ExitFor(TheDecision().fault)) && pulls == old(pulls)
    {
      if logging == Created {
        requestToken := requestCtx;
        requestCtx := info;
      }
      logging := Suspended;
      d := ErrorNext();
      if d.Delivers? {
        sent := sent + 1;
      } else {
        requestCtx := requestToken;
        logging := Finished;
      }
    }

    /** The consumer abandons the call. Each suspended wrapper is finalized by itself and
        runs its `finally`, which resets its variable if it runs in the context that set
        it (`requestHome`, `authHome`), and otherwise lets the refusal to reset pass. */
    method Finalize(requestHome: bool, authHome: bool)
      requires Valid()
      modifies this
      ensures logging == error == auth == Finished && Informed() && pulls == old(pulls)
      ensures requestCtx == if requestHome || old(logging) != Suspended then requestBefore else old(requestCtx)
      ensures authCtx == if authHome || old(logging) != Suspended then authBefore else old(authCtx)
    {
      if logging == Suspended && requestHome {
        requestCtx := requestToken;
      }
      if auth == Suspended && authHome && !isPublic {
        authCtx := authToken;
      }
      logging, error, auth := Finished, Finished, Finished;
    }
  }

  function Deliver<T>(out: Out<T, Fault>): Delivery<T> {
    match out
    case Yields(value) => Delivers(value)
    case Stops => Completes
    case Raises(fault) => Terminates(ExitFor(fault))
  }

  /** How many of the first `n` advances yield before one does not. */
  function Leading<T>(handler: Handler<T>, seen: Seen, n: nat): (m: nat)
    ensures m <= n && forall k: nat :: k < m ==> handler(seen, k).Yields?
    ensures m < n ==> !handler(seen, m).Yields?
  {
    if n == 0 then 0
    else
      var m := Leading(handler, seen, n - 1);
      if m == n - 1 && handler(seen, m).Yields? then n else m
  }

  /** The items a consumer that advances `n` times receives. */
  function ItemsWithin<T>(handler: Handler<T>, seen: Seen, n: nat): seq<T> {
    seq(Leading(handler, seen, n), k requires 0 <= k < Leading(handler, seen, n) => handler(seen, k).value)
  }

  /** How its call ends, if it does within `n` advances. */
  function EndWithin<T>(handler: Handler<T>, seen: Seen, n: nat): Maybe<Delivery<T>> {
    var m := Leading(handler, seen, n);
    if m < n then Some(Deliver(handler(seen, m))) else None
  }

  /** A whole streaming call: the consumer advances at most `n` times and then leaves.
      The handler runs, for every item, with the authenticated context and the call's
      logging context set; and each variable ends as it was before the call, unless the
      consumer left in the middle and its wrapper was finalized elsewhere. */
  method ServeStream<T>(call: StreamCall<T>, n: nat, requestHome: bool, authHome: bool)
    returns (items: seq<T>, end: Maybe<Delivery<T>>)
    requires call.Valid() && call.logging == Created
    modifies call
    ensures call.Open() ==> items == ItemsWithin(call.handler, call.View(), n)
    ensures call.Open() ==> end == EndWithin(call.handler, call.View(), n)
    ensures !call.Open() ==> items == []
    ensures !call.Open() ==> end == if n == 0 then None else Some(Terminates(ExitFor(call.TheDecision().fault)))
    ensures end.None? && n > 0 ==> call.Open()
    ensures |items| <= |call.trace| == call.pulls <= |items| + 1
    ensures call.trace != [] <==>
              n > 0 && (call.isPublic
                        || (var c, services := call.credentials, call.services;
                            c.authorization != "" && services.verify(c.authorization).Verified?
                            && (services.resolver.None?
                                || services.resolver.value(services.verify(c.authorization).principal, c.accountId,
                                                           RawToken(c.authorization)).Resolved?)))
    ensures forall i :: 0 <= i < |call.trace| ==>
              && call.trace[i].request == call.info
              && (if call.isPublic then call.trace[i].auth == call.authBefore
                  else call.trace[i].auth.Some? && AdmittedAs(call.services, call.credentials, call.trace[i].auth.value))
    ensures call.requestCtx == if requestHome || end.Some? || n == 0 then call.requestBefore else call.info
    ensures call.authCtx == if authHome || end.Some? || n == 0 then call.authBefore else call.View().auth
  {
    AdmittedContext(call.services, call.credentials);
    items, end := Pull(call, n);
    if end.None? {
      call.Finalize(requestHome, authHome);
    }
  }

  /** The consumer's advances, up to the end or to the `n`th. */
  method Pull<T>(call: StreamCall<T>, n: nat) returns (items: seq<T>, end: Maybe<Delivery<T>>)
    requires call.Valid() && call.logging == Created
    modifies call
    ensures call.Valid() && |items| <= call.pulls <= |items| + 1 && (call.pulls > 0 <==> n > 0 && call.Open())
    ensures call.logging == if end.Some? then Finished else if n == 0 then Created else Suspended
    ensures call.Open() ==> items == ItemsWithin(call.handler, call.View(), n)
    ensures call.Open() ==> end == EndWithin(call.handler, call.View(), n)
    ensures !call.Open() ==> items == []
    ensures !call.Open() ==> end == if n == 0 then None else Some(Terminates(ExitFor(call.TheDecision().fault)))
  {
    items, end := [], None;
    while |items| < n
      invariant call.Valid() && call.pulls == |items| <= n
      invariant call.logging == if items == [] then Created else Suspended
      invariant call.Open() ==> Leading(call.handler, call.View(), |items|) == |items|
      invariant call.Open() ==> items == ItemsWithin(call.handler, call.View(), |items|)
      invariant !call.Open() ==> items == []
      decreases n - |items|
    {
      var d := call.Next();
      if !d.Delivers? {
        end := Some(d);
        if call.Open() {
          StopsAt(call.handler, call.View(), |items|, n);
        }
        return;
      }
      if call.Open() {
        OneMoreItem(call.handler, call.View(), |items|);
      }
      items := items + [d.value];
    }
  }

  lemma OneMoreItem<T>(handler: Handler<T>, seen: Seen, k: nat)
    requires Leading(handler, seen, k) == k && handler(seen, k).Yields?
    ensures Leading(handler, seen, k + 1) == k + 1
    ensures ItemsWithin(handler, seen, k + 1) == ItemsWithin(handler, seen, k) + [handler(seen, k).value]
  {
  }

  lemma StopsAt<T>(handler: Handler<T>, seen: Seen, m: nat, n: nat)
    requires Leading(handler, seen, m) == m && !handler(seen, m).Yields? && m < n
    ensures ItemsWithin(handler, seen, n) == ItemsWithin(handler, seen, m)
    ensures EndWithin(handler, seen, n) == Some(Deliver(handler(seen, m)))
  {
    LeadingStops(handler, seen, m, n);
  }

  lemma {:induction false} LeadingStops<T>(handler: Handler<T>, seen: Seen, m: nat, n: nat)
    requires Leading(handler, seen, m) == m && !handler(seen, m).Yields? && m < n
    ensures Leading(handler, seen, n) == m
  {
    if n > m + 1 {
      LeadingStops(handler, seen, m, n - 1);
    }
  }
}
