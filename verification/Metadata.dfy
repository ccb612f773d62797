/** The metadata of a call to the core (`CoreClient.metadata_for`,
    app/coreclient/client.py): the proofs and the stated context travel together. */
module Metadata {
  import opened Base64Url
  import opened CallAuth

  /** The header names, spelled `x-request-id`, `x-dop-assertion`, `authorization`,
      `x-account-id`, `x-actor-id`, `x-actor-kind`, `x-actor-name` and `x-session-id`. */
  datatype Name =
    | RequestId | DopAssertion | Authorization
    | AccountId | ActorId | ActorKind | ActorName | SessionId

  datatype Header = Header(name: Name, value: Bytes)

  datatype Built = Built(md: seq<Header>) | Unsignable(field: Bytes)

  datatype Found = Found(value: Bytes) | Absent

  /** Who is calling, as the caller of `metadata_for` states it. */
  datatype Caller = Caller(userId: Bytes, accountId: Bytes, actorName: Bytes, actorKind: Bytes,
                           sessionId: Bytes, rawToken: Bytes)
  {
    predicate Stated() {
      userId != [] || accountId != []
    }
  }

  function Ascii(s: string): Bytes
    requires forall i :: 0 <= i < |s| ==> s[i] < '\U{80}'
  {
    seq(|s|, i requires 0 <= i < |s| => s[i] as int)
  }

  const BFF: Bytes := Ascii("bff")
  const SYSTEM: Bytes := Ascii("system")
  const BEARER: Bytes := Ascii("Bearer ")

  /** The first value under a name, as the core's metadata reader finds it. */
  function Get(md: seq<Header>, name: Name): Found {
    if md == [] then Absent
    else if md[0].name == name then Found(md[0].value)
    else Get(md[1..], name)
  }

  lemma {:induction false} GetAt(md: seq<Header>, i: nat)
    requires i < |md| && forall j :: 0 <= j < i ==> md[j].name != md[i].name
    ensures Get(md, md[i].name) == Found(md[i].value)
  {
    if i > 0 {
      GetAt(md[1..], i - 1);
    }
  }

  lemma {:induction false} GetAbsent(md: seq<Header>, name: Name)
    requires forall j :: 0 <= j < |md| ==> md[j].name != name
    ensures Get(md, name) == Absent
  {
    if md != [] {
      GetAbsent(md[1..], name);
    }
  }

  lemma {:induction false} GetAppend(a: seq<Header>, b: seq<Header>, name: Name)
    ensures Get(a + b, name) == if Get(a, name).Found? then Get(a, name) else Get(b, name)
  {
    if a == [] {
      assert a + b == b;
    } else {
      assert (a + b)[1..] == a[1..] + b;
      GetAppend(a[1..], b, name);
    }
  }

  /** The claim that is signed: the edge is the caller, and with neither a user nor an
      account the actor is the system. */
  function ClaimOf(c: Caller): Claim {
    Claim(BFF, c.userId, if c.Stated() then c.actorKind else SYSTEM, c.accountId, c.sessionId)
  }

  function ProofHeaders(key: Bytes, assertion: Bytes, rawToken: Bytes): seq<Header> {
    (if key != [] then [Header(DopAssertion, assertion)] else [])
    + (if rawToken != [] then [Header(Authorization, BEARER + rawToken)] else [])
  }

  function StatedHeaders(c: Caller): seq<Header> {
    if !c.Stated() then []
    else [Header(AccountId, c.accountId), Header(ActorId, c.userId), Header(ActorKind, c.actorKind),
          Header(ActorName, c.actorName), Header(SessionId, c.sessionId)]
  }

  function Spec(key: Bytes, c: Caller, requestId: Bytes, now: real, digest: (Bytes, Bytes) -> Bytes): Built {
    var signed := Sign(key, ClaimOf(c), now, digest);
    if key != [] && signed.Refused? then Unsignable(signed.field)
    else
      Built([Header(RequestId, requestId)]
            + ProofHeaders(key, if key != [] then signed.text else [], c.rawToken)
            + StatedHeaders(c))
  }

  /** `metadata_for`: `current` is the context's request id, `fresh` a new one. */
  method MetadataFor(key: Bytes, c: Caller, current: Bytes, fresh': Bytes, now: real, digest: (Bytes, Bytes) -> Bytes)
    returns (r: Built)
    ensures r == Spec(key, c, if current != [] then current else fresh', now, digest)
  {
    var md := [Header(RequestId, if current != [] then current else fresh')];
    if key != [] {
      var kind := if c.userId != [] || c.accountId != [] then c.actorKind else SYSTEM;
      match Sign(key, Claim(BFF, c.userId, kind, c.accountId, c.sessionId), now, digest)
      case Refused(field) => return Unsignable(field);
      case Assertion(text) => md := md + [Header(DopAssertion, text)];
    }
    if c.rawToken != [] {
      md := md + [Header(Authorization, BEARER + c.rawToken)];
    }
    if c.userId != [] || c.accountId != [] {
      md := md + [Header(AccountId, c.accountId), Header(ActorId, c.userId),
                  Header(ActorKind, c.actorKind), Header(ActorName, c.actorName),
                  Header(SessionId, c.sessionId)];
    }
    r := Built(md);
  }

  /** What each header holds, and when it is there. */
  lemma HeadersMeaning(key: Bytes, c: Caller, requestId: Bytes, now: real, digest: (Bytes, Bytes) -> Bytes)
    requires Spec(key, c, requestId, now, digest).Built?
    ensures var md := Spec(key, c, requestId, now, digest).md;
      && Get(md, RequestId) == Found(requestId)
      && (Get(md, DopAssertion).Found? <==> key != [])
      && (key != [] ==> Get(md, DopAssertion) == Found(Sign(key, ClaimOf(c), now, digest).text))
      && Get(md, Authorization) == (if c.rawToken != [] then Found(BEARER + c.rawToken) else Absent)
      && Get(md, AccountId) == (if c.userId != [] || c.accountId != [] then Found(c.accountId) else Absent)
      && Get(md, ActorId) == (if c.userId != [] || c.accountId != [] then Found(c.userId) else Absent)
      && Get(md, ActorKind) == (if c.userId != [] || c.accountId != [] then Found(c.actorKind) else Absent)
      && Get(md, ActorName) == (if c.userId != [] || c.accountId != [] then Found(c.actorName) else Absent)
      && Get(md, SessionId) == (if c.userId != [] || c.accountId != [] then Found(c.sessionId) else Absent)
  {
    var a := [Header(RequestId, requestId)];
    var b := ProofHeaders(key, if key != [] then Sign(key, ClaimOf(c), now, digest).text else [], c.rawToken);
    var d := StatedHeaders(c);
    GetAt(a, 0);
    ProofLookups(key, if key != [] then Sign(key, ClaimOf(c), now, digest).text else [], c.rawToken);
    StatedLookups(c);
    forall name: Name
      ensures Get(a + b + d, name)
           == if name == RequestId then Found(requestId) else if Get(b, name).Found? then Get(b, name) else Get(d, name)
    {
      GetAppend(a + b, d, name);
      GetAppend(a, b, name);
      if name != RequestId { GetAbsent(a, name); }
    }
  }

  lemma ProofLookups(key: Bytes, assertion: Bytes, rawToken: Bytes)
    ensures var b := ProofHeaders(key, assertion, rawToken);
      && Get(b, DopAssertion) == (if key != [] then Found(assertion) else Absent)
      && Get(b, Authorization) == (if rawToken != [] then Found(BEARER + rawToken) else Absent)
      && forall name :: name != DopAssertion && name != Authorization ==> Get(b, name) == Absent
  {
    var b := ProofHeaders(key, assertion, rawToken);
    forall name: Name | forall j :: 0 <= j < |b| ==> b[j].name != name {
      GetAbsent(b, name);
    }
    forall i | 0 <= i < |b| {
      GetAt(b, i);
    }
  }

  lemma StatedLookups(c: Caller)
    ensures var d := StatedHeaders(c);
      && Get(d, AccountId) == (if c.Stated() then Found(c.accountId) else Absent)
      && Get(d, ActorId) == (if c.Stated() then Found(c.userId) else Absent)
      && Get(d, ActorKind) == (if c.Stated() then Found(c.actorKind) else Absent)
      && Get(d, ActorName) == (if c.Stated() then Found(c.actorName) else Absent)
      && Get(d, SessionId) == (if c.Stated() then Found(c.sessionId) else Absent)
      && Get(d, RequestId) == Get(d, DopAssertion) == Get(d, Authorization) == Absent
  {
    var d := StatedHeaders(c);
    forall name: Name | forall j :: 0 <= j < |d| ==> d[j].name != name {
      GetAbsent(d, name);
    }
    if c.Stated() {
      GetAt(d, 0);
      GetAt(d, 1);
      GetAt(d, 2);
      GetAt(d, 3);
      GetAt(d, 4);
    }
  }

  /** The edge signs what it states. Whatever metadata goes out with an assertion, the
      assertion reads back as the actor, account, kind and session the headers state;
      when they state nothing, it reads back as the system acting on no account. */
  lemma SignsWhatItStates(key: Bytes, c: Caller, requestId: Bytes, now: real, digest: (Bytes, Bytes) -> Bytes)
    requires key != [] && Spec(key, c, requestId, now, digest).Built?
    ensures var md := Spec(key, c, requestId, now, digest).md;
      && Get(md, DopAssertion).Found?
      && var reading := Read(Get(md, DopAssertion).value);
      && reading.Reading? && reading.expires == Expiry(now) && reading.claim.caller == BFF
      && (if Get(md, ActorId).Found? then
            && Get(md, ActorId) == Found(reading.claim.actorId)
            && Get(md, AccountId) == Found(reading.claim.accountId)
            && Get(md, ActorKind) == Found(reading.claim.actorKind)
            && Get(md, SessionId) == Found(reading.claim.sessionId)
          else
            && reading.claim.actorId == [] && reading.claim.accountId == []
            && reading.claim.actorKind == SYSTEM && Get(md, AccountId).Absent?)
    ensures var md := Spec(key, c, requestId, now, digest).md;
            var claim := Read(Get(md, DopAssertion).value).claim;
            claim == if c.userId == [] && c.accountId == []
                     then Claim(BFF, [], SYSTEM, [], c.sessionId)
                     else Claim(BFF, c.userId, c.actorKind, c.accountId, c.sessionId)
  {
    HeadersMeaning(key, c, requestId, now, digest);
    RefusedExactly(key, ClaimOf(c), now, digest);
    ReadsBackWhatWasSigned(key, ClaimOf(c), now, digest);
  }

  /** With a key, nothing goes out when a field of the claim carries a separator;
      without one, everything does. */
  lemma BuiltExactly(key: Bytes, c: Caller, requestId: Bytes, now: real, digest: (Bytes, Bytes) -> Bytes)
    ensures Spec(key, c, requestId, now, digest).Built? <==> key == [] || Clean(ClaimOf(c))
  {
    RefusedExactly(key, ClaimOf(c), now, digest);
  }
}
