/** The two timed token caches: `_ServiceIdentity._fresh_token` (app/coreclient/client.py)
    and `FirebaseAdmin._access_token` (app/platform/security/firebase_admin.py). */
module TokenCache {
  import opened Rates
  import Text

  const SKEW := 300.0
  const HOUR := 3600.0

  /** What the metadata server answers: a token and its lifetime, a token whose
      `expires_in` is not a number, or an error. */
  datatype Reply = Granted(token: string, life: real) | Garbled(token: string) | Refused

  datatype Cache = Cache(token: string, expiresAt: real)

  datatype Served = Cached(token: string) | Fetched(token: string) | Raised

  /** One sequential call: the clock it reads, and what the server would answer. */
  datatype Call = Call(now: real, reply: Reply)

  predicate Fresh(c: Cache, now: real) {
    c.token != "" && now < c.expiresAt - SKEW
  }

  /** A cache call. The expiry counts from the clock read before the request, and a
      garbled lifetime leaves the new token under the old expiry. */
  function CacheAfter(c: Cache, call: Call): Cache {
    if Fresh(c, call.now) then c
    else match call.reply
      case Granted(token, life) => Cache(token, call.now + life)
      case Garbled(token) => c.(token := token)
      case Refused => c
  }

  function ServedBy(c: Cache, call: Call): Served {
    if Fresh(c, call.now) then Cached(c.token)
    else match call.reply
      case Granted(token, _) => Fetched(token)
      case _ => Raised
  }

  /** What the identity endpoint answers: a body, or an error of any kind. */
  datatype Body = Body(text: string) | NoBody

  /** An identity token is the stripped body, and is taken to live an hour. */
  function AsReply(body: Body): Reply {
    match body case Body(text) => Granted(Text.Strip(text), HOUR) case NoBody => Refused
  }

  /** The service's own identity token. */
  class ServiceIdentity {
    var token: string
    var expiresAt: real

    constructor ()
      ensures State() == Cache("", 0.0)
    {
      token, expiresAt := "", 0.0;
    }

    function State(): Cache
      reads this
    {
      Cache(token, expiresAt)
    }

    /** `_fresh_token`. */
    method FreshToken(now: real, body: Body) returns (served: Served)
      modifies this
      ensures State() == CacheAfter(old(State()), Call(now, AsReply(body)))
      ensures served == ServedBy(old(State()), Call(now, AsReply(body)))
      ensures served.Fetched? ==> served.token == token && Text.TrimOf(body.text, token) && expiresAt == now + 3600.0
    {
      if token != "" && now < expiresAt - SKEW {
        return Cached(token);
      }
      match body
      case NoBody =>
        return Raised;
      case Body(text) =>
        token := Text.Strip(text);
        Text.StripMeaning(text);
        expiresAt := now + HOUR;
        return Fetched(token);
    }
  }

  /** The access token for Identity Platform; the emulator needs none. */
  class FirebaseAdmin {
    const emulator: string
    var token: string
    var expiresAt: real

    constructor (emulator: string)
      ensures this.emulator == emulator && State() == Cache("", 0.0)
    {
      this.emulator := emulator;
      token, expiresAt := "", 0.0;
    }

    function State(): Cache
      reads this
    {
      Cache(token, expiresAt)
    }

    /** `_access_token`. */
    method AccessToken(now: real, answer: Reply) returns (served: Served)
      modifies this
      ensures emulator != "" ==> State() == old(State()) && served == Cached("")
      ensures emulator == "" ==> State() == CacheAfter(old(State()), Call(now, answer))
      ensures emulator == "" ==> served == ServedBy(old(State()), Call(now, answer))
    {
      if emulator != "" {
        return Cached("");
      }
      if token != "" && now < expiresAt - SKEW {
        return Cached(token);
      }
      match answer
      case Refused =>
        return Raised;
      case Garbled(t) =>
        token := t;
        return Raised;
      case Granted(t, life) =>
        token := t;
        expiresAt := now + life;
        return Fetched(token);
    }
  }

  // ── runs ────────────────────────────────────────────────────────────────────

  const NEW := Cache("", 0.0)

  function After(calls: seq<Call>): Cache {
    if calls == [] then NEW else CacheAfter(After(calls[..|calls| - 1]), calls[|calls| - 1])
  }

  /** The requests sent over a run. */
  function Requests(calls: seq<Call>): seq<Call> {
    if calls == [] then []
    else
      var init, call := calls[..|calls| - 1], calls[|calls| - 1];
      Requests(init) + if Fresh(After(init), call.now) then [] else [call]
  }

  function Times(requests: seq<Call>): seq<real> {
    seq(|requests|, i requires 0 <= i < |requests| => requests[i].now)
  }

  ghost predicate Clocked(calls: seq<Call>) {
    forall i, j :: 0 <= i < j < |calls| ==> calls[i].now <= calls[j].now
  }

  /** The latest request that was granted: where the recorded expiry comes from. */
  ghost predicate GrantedLast(requests: seq<Call>, k: nat) {
    && k < |requests| && requests[k].reply.Granted?
    && forall i :: k < i < |requests| ==> !requests[i].reply.Granted?
  }

  ghost predicate NeverGranted(requests: seq<Call>) {
    forall i :: 0 <= i < |requests| ==> !requests[i].reply.Granted?
  }

  /** The latest request that brought a token, granted or garbled: where the cached token
      comes from. */
  ghost predicate BroughtLast(requests: seq<Call>, k: nat) {
    && k < |requests| && !requests[k].reply.Refused?
    && forall i :: k < i < |requests| ==> requests[i].reply.Refused?
  }

  lemma RequestsAppend(init: seq<Call>, call: Call)
    ensures After(init + [call]) == CacheAfter(After(init), call)
    ensures Requests(init + [call]) == Requests(init) + if Fresh(After(init), call.now) then [] else [call]
  {
    assert (init + [call])[..|init|] == init;
  }

  lemma GrantsAppend(was: seq<Call>, call: Call, k: nat)
    ensures NeverGranted(was + [call]) <==> NeverGranted(was) && !call.reply.Granted?
    ensures call.reply.Granted? ==> GrantedLast(was + [call], |was|)
    ensures !call.reply.Granted? && GrantedLast(was, k) ==> GrantedLast(was + [call], k)
    ensures k < |was| ==> (was + [call])[k] == was[k]
  {
    var rs := was + [call];
    assert rs[|was|] == call && forall i :: 0 <= i < |was| ==> rs[i] == was[i];
  }

  lemma {:induction false} ExpiryIsTheLatestGrants(calls: seq<Call>) returns (k: nat)
    ensures if NeverGranted(Requests(calls)) then After(calls).expiresAt == 0.0
            else GrantedLast(Requests(calls), k)
                 && After(calls).expiresAt == Requests(calls)[k].now + Requests(calls)[k].reply.life
  {
    k := 0;
    if calls != [] {
      var init, call := calls[..|calls| - 1], calls[|calls| - 1];
      k := ExpiryIsTheLatestGrants(init);
      RequestsAppend(init, call);
      assert calls == init + [call];
      var was, rs := Requests(init), Requests(calls);
      if !Fresh(After(init), call.now) {
        GrantsAppend(was, call, k);
        k := if call.reply.Granted? then |was| else k;
      } else {
        assert rs == was;
      }
    }
  }

  lemma {:induction false} TokenIsTheLatestBrought(calls: seq<Call>) returns (k: nat)
    ensures After(calls).token != "" ==>
              BroughtLast(Requests(calls), k) && After(calls).token == Requests(calls)[k].reply.token
  {
    k := 0;
    if calls != [] {
      var init, call := calls[..|calls| - 1], calls[|calls| - 1];
      k := TokenIsTheLatestBrought(init);
      RequestsAppend(init, call);
      assert calls == init + [call];
      var was, rs := Requests(init), Requests(calls);
      if !Fresh(After(init), call.now) {
        assert rs[|was|] == call && forall i :: 0 <= i < |was| ==> rs[i] == was[i];
        if !call.reply.Refused? {
          k := |was|;
        }
      } else {
        assert rs == was;
      }
    }
  }

  /** A call sends a request exactly when there is no token, or its life is down to 300 s. */
  lemma AsksExactly(calls: seq<Call>, call: Call)
    ensures |Requests(calls + [call])| > |Requests(calls)| <==>
              After(calls).token == "" || After(calls).expiresAt - call.now <= 300.0
  {
    RequestsAppend(calls, call);
  }

  /** What a call that sends a request serves and leaves behind: a granted answer is
      served and kept, with the life it was given; anything else is raised, and a
      refusal leaves the cache as it was. */
  lemma GrantsAreServedAndKept(calls: seq<Call>, call: Call)
    requires |Requests(calls + [call])| > |Requests(calls)|
    ensures Requests(calls + [call]) == Requests(calls) + [call]
    ensures var was, now := After(calls), After(calls + [call]);
            match call.reply
            case Granted(token, life) =>
              ServedBy(was, call) == Fetched(token) && now.token == token && now.expiresAt == call.now + life
            case Garbled(token) => ServedBy(was, call) == Raised && now.token == token && now.expiresAt == was.expiresAt
            case Refused => ServedBy(was, call) == Raised && now == was
  {
    RequestsAppend(calls, call);
  }

  /** A token served from the cache is the last one the server brought, in good order or
      not, and the latest grant had more than 300 s of its recorded life left. Clocks
      count from the epoch, where a new cache's expiry stands. */
  lemma CachedTokensHaveLifeLeft(calls: seq<Call>, call: Call)
    requires ServedBy(After(calls), call).Cached?
    ensures exists k: nat :: BroughtLast(Requests(calls), k)
              && ServedBy(After(calls), call).token == Requests(calls)[k].reply.token
    ensures call.now >= 0.0 ==>
              exists k: nat :: GrantedLast(Requests(calls), k)
                && Requests(calls)[k].now + Requests(calls)[k].reply.life - call.now > 300.0
  {
    var j := TokenIsTheLatestBrought(calls);
    assert BroughtLast(Requests(calls), j);
    var k := ExpiryIsTheLatestGrants(calls);
    assert call.now >= 0.0 ==> GrantedLast(Requests(calls), k);
  }

  /** Every request of the run is granted a non-empty token for at least `life`. */
  ghost predicate GrantsFor(requests: seq<Call>, life: real) {
    forall i :: 0 <= i < |requests| ==>
      requests[i].reply.Granted? && requests[i].reply.token != "" && requests[i].reply.life >= life
  }

  lemma {:induction false} RequestsSpaced(calls: seq<Call>, life: real)
    requires Clocked(calls) && GrantsFor(Requests(calls), life) && life >= SKEW
    ensures Spaced(Times(Requests(calls)), life - SKEW)
    ensures var rs := Requests(calls);
            rs != [] ==> After(calls).token != "" && After(calls).expiresAt >= rs[|rs| - 1].now + life
  {
    if calls != [] {
      var init, call := calls[..|calls| - 1], calls[|calls| - 1];
      var rs, was := Requests(calls), Requests(init);
      assert forall i :: 0 <= i < |was| ==> rs[i] == was[i];
      RequestsSpaced(init, life);
      if !Fresh(After(init), call.now) {
        assert rs == was + [call];
        assert call == rs[|was|];
        SpacedAppend(Times(was), life - SKEW, call.now);
        assert Times(rs) == Times(was) + [call.now];
      } else {
        assert rs == was;
      }
    }
  }

  /** With tokens good for an hour or more, requests are at least 55 minutes apart over
      any run, which bounds how many a window holds. Nothing is asked of the clock but
      that it never goes back. */
  lemma HourlyTokensBoundRequests(calls: seq<Call>, lo: real, hi: real)
    requires Clocked(calls) && GrantsFor(Requests(calls), 3600.0) && lo <= hi
    ensures Spaced(Times(Requests(calls)), 3300.0)
    ensures 3300.0 * (|Within(Times(Requests(calls)), lo, hi)| - 1) as real <= hi - lo
  {
    RequestsSpaced(calls, HOUR);
    WindowBound(Times(Requests(calls)), 3300.0, lo, hi);
  }

  // ── when the cache caches at all ────────────────────────────────────────────

  /** After a request at `now`, a call `wait` later is spared the trip exactly when the
      grant was a non-empty token with more than `wait` + 300 s of life, or a garbled
      answer brought a token in place of an empty one whose expiry is that far off. A
      refusal, an empty token or a life of 300 s or less spares none. */
  lemma SparedExactly(c: Cache, now: real, reply: Reply, wait: real)
    requires !Fresh(c, now) && wait >= 0.0
    ensures Fresh(CacheAfter(c, Call(now, reply)), now + wait) <==>
              match reply
              case Granted(token, life) => token != "" && life > wait + 300.0
              case Garbled(token) => token != "" && c.token == "" && c.expiresAt - now > wait + 300.0
              case Refused => false
  {
  }
}
