/** The translation of errors between the core, HTTP and gRPC (app/platform/errors.py). */
module Errors {

  datatype StatusCode =
    | OK | CANCELLED | UNKNOWN | INVALID_ARGUMENT | DEADLINE_EXCEEDED | NOT_FOUND | ALREADY_EXISTS
    | PERMISSION_DENIED | RESOURCE_EXHAUSTED | FAILED_PRECONDITION | ABORTED | OUT_OF_RANGE
    | UNIMPLEMENTED | INTERNAL | UNAVAILABLE | DATA_LOSS | UNAUTHENTICATED

  /** An `AioRpcError`; absent details read as the empty string. */
  datatype CoreError = CoreError(code: StatusCode, details: string)

  /** An `HTTPException`. */
  datatype HttpError = HttpError(status: int, detail: string)

  /** An exception on its way out of a handler or a stream. `Cancelled` stands for those
      that are not an `Exception`: the cancellation of the task. */
  datatype Fault =
    | Core(error: CoreError) | Http(refusal: HttpError) | Validation(text: string) | Other(text: string) | Cancelled

  /** A terminal gRPC status. */
  datatype GrpcStatus = GrpcStatus(code: StatusCode, detail: string)

  const INTERNAL_ERROR := "internal error"
  const CORE_ERROR := "core error"

  function HttpStatusFor(code: StatusCode): int {
    match code
    case OK => 200
    case INVALID_ARGUMENT => 400
    case UNAUTHENTICATED => 401
    case PERMISSION_DENIED => 403
    case NOT_FOUND => 404
    case ALREADY_EXISTS => 409
    case ABORTED => 409
    case FAILED_PRECONDITION => 412
    case RESOURCE_EXHAUSTED => 429
    case UNIMPLEMENTED => 501
    case UNAVAILABLE => 503
    case DEADLINE_EXCEEDED => 504
    case _ => 500
  }

  function GrpcStatusForHttp(status: int): StatusCode {
    match status
    case 400 => INVALID_ARGUMENT
    case 401 => UNAUTHENTICATED
    case 403 => PERMISSION_DENIED
    case 404 => NOT_FOUND
    case 409 => ALREADY_EXISTS
    case 412 => FAILED_PRECONDITION
    case 429 => RESOURCE_EXHAUSTED
    case 501 => UNIMPLEMENTED
    case 503 => UNAVAILABLE
    case 504 => DEADLINE_EXCEEDED
    case _ => INTERNAL
  }

  /** `_detail_for`: the one writer of details, for both ports. */
  function DetailFor(e: CoreError, status: int): string {
    if status >= 500 then INTERNAL_ERROR else if e.details != "" then e.details else CORE_ERROR
  }

  function AsHttp(e: CoreError): HttpError {
    var status := HttpStatusFor(e.code);
    HttpError(status, DetailFor(e, status))
  }

  function AsGrpc(e: CoreError): GrpcStatus {
    GrpcStatus(e.code, DetailFor(e, HttpStatusFor(e.code)))
  }

  function AsGrpcFromHttp(e: HttpError): GrpcStatus {
    GrpcStatus(GrpcStatusForHttp(e.status), if e.status >= 500 then INTERNAL_ERROR else e.detail)
  }

  /** The codes whose HTTP image reads back as another code. */
  predicate Collapses(code: StatusCode) {
    code in {OK, CANCELLED, UNKNOWN, ABORTED, OUT_OF_RANGE, DATA_LOSS}
  }

  /** A core error that reaches the gRPC client by way of HTTP (the resolver's do) arrives
      as it would have arrived directly, exactly when its code is none of six: OK, and
      those whose HTTP status is read as a sibling's. The detail always survives. */
  lemma DetourThroughHttp(e: CoreError)
    ensures AsGrpcFromHttp(AsHttp(e)) == AsGrpc(e) <==> !Collapses(e.code)
    ensures AsGrpcFromHttp(AsHttp(e)).detail == AsGrpc(e).detail
  {
  }

  /** An HTTP status survives the trip to gRPC and back exactly if it is one of eleven. */
  lemma HttpStatusSurvivesExactly(status: int)
    ensures HttpStatusFor(GrpcStatusForHttp(status)) == status <==>
              status in {400, 401, 403, 404, 409, 412, 429, 500, 501, 503, 504}
    ensures GrpcStatusForHttp(status) == INTERNAL <==>
              status !in {400, 401, 403, 404, 409, 412, 429, 501, 503, 504}
    ensures HttpStatusFor(INVALID_ARGUMENT) == 400 && HttpStatusFor(UNAUTHENTICATED) == 401
         && HttpStatusFor(PERMISSION_DENIED) == 403 && HttpStatusFor(NOT_FOUND) == 404
         && HttpStatusFor(ALREADY_EXISTS) == 409 && HttpStatusFor(FAILED_PRECONDITION) == 412
         && HttpStatusFor(RESOURCE_EXHAUSTED) == 429 && HttpStatusFor(UNIMPLEMENTED) == 501
  {
  }

  /** The codes that blame no client, and those that do. */
  lemma ServerFaultsByName(code: StatusCode)
    ensures HttpStatusFor(code) >= 500 <==>
              code in {CANCELLED, UNKNOWN, DEADLINE_EXCEEDED, OUT_OF_RANGE, UNIMPLEMENTED, INTERNAL, UNAVAILABLE, DATA_LOSS}
    ensures HttpStatusFor(code) >= 500 || code == OK || 400 <= HttpStatusFor(code) < 500
  {
  }

  /** What either port writes is independent of the core's text exactly for the eight
      codes that blame no client, and then it is the edge's own. For every other code a
      text the core gave arrives unchanged. */
  lemma DetailsLeakExactlyBelow500(code: StatusCode)
    ensures (forall a, b :: AsGrpc(CoreError(code, a)) == AsGrpc(CoreError(code, b))) <==>
              code in {CANCELLED, UNKNOWN, DEADLINE_EXCEEDED, OUT_OF_RANGE, UNIMPLEMENTED, INTERNAL, UNAVAILABLE, DATA_LOSS}
    ensures (forall a, b :: AsHttp(CoreError(code, a)) == AsHttp(CoreError(code, b))) <==>
              code in {CANCELLED, UNKNOWN, DEADLINE_EXCEEDED, OUT_OF_RANGE, UNIMPLEMENTED, INTERNAL, UNAVAILABLE, DATA_LOSS}
    ensures forall text :: text != "" ==>
              var http, grpc := AsHttp(CoreError(code, text)), AsGrpc(CoreError(code, text));
              && grpc.code == code && grpc.detail == http.detail
              && (http.detail == text || (http.detail == "internal error" && http.status >= 500))
              && (http.status >= 500 || code == OK || 400 <= http.status < 500)
  {
    ServerFaultsByName(code);
    if HttpStatusFor(code) < 500 {
      assert AsGrpc(CoreError(code, "x")).detail == "x" != "yy" == AsGrpc(CoreError(code, "yy")).detail;
      assert AsHttp(CoreError(code, "x")).detail == "x" != "yy" == AsHttp(CoreError(code, "yy")).detail;
    }
  }
}
