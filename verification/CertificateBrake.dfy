/** The signing-key cache and its brake (`FirebaseVerifier._public_key` and
    `_fetch_certificates`, app/platform/security/firebase.py). */
module CertificateBrake {
  import opened Rates

  const BRAKE_S := 30.0
  const RS256 := "RS256"

  /** The unverified header of a token; an absent field reads as the empty string. */
  datatype TokenHeader = Unreadable | Header(alg: string, kid: string)

  /** What the certificate endpoint answers: a key per id, or an error of any kind. */
  datatype Reply = Served(keys: map<string, string>) | Failed

  /** One sequential call of `_public_key`: the token, the clock when the brake reads
      it, the answer a request would get, and the clock when that answer is in. */
  datatype Visit = Visit(header: TokenHeader, asked: real, reply: Reply, answered: real)

  datatype Outcome = Key(cert: string) | InvalidToken(reason: string) | FetchError

  datatype Fetch = Fetch(asked: real, answered: real, reply: Reply)

  datatype Cache = Cache(keys: map<string, string>, fetchedAt: real)

  /** The fetch a visit causes, if any: the key id is unknown and the brake is off. */
  function FetchOf(c: Cache, v: Visit): seq<Fetch> {
    if v.header.Header? && v.header.alg == RS256 && v.header.kid != "" && v.header.kid !in c.keys
       && v.asked - c.fetchedAt >= BRAKE_S
    then [Fetch(v.asked, v.answered, v.reply)] else []
  }

  function CacheAfter(c: Cache, v: Visit): Cache {
    if FetchOf(c, v) != [] && v.reply.Served? then Cache(v.reply.keys, v.answered) else c
  }

  function OutcomeOf(c: Cache, v: Visit): Outcome {
    if v.header.Unreadable? then InvalidToken("malformed token")
    else if v.header.alg != RS256 then InvalidToken("signature algorithm not accepted")
    else if v.header.kid == "" then InvalidToken("token with no kid")
    else if FetchOf(c, v) != [] && v.reply.Failed? then FetchError
    else
      var keys := CacheAfter(c, v).keys;
      if v.header.kid in keys && keys[v.header.kid] != "" then Key(keys[v.header.kid])
      else InvalidToken("unknown signing key")
  }

  class FirebaseVerifier {
    var keys: map<string, string>
    var fetchedAt: real
    ghost var fetches: seq<Fetch>

    function State(): Cache
      reads this
    {
      Cache(keys, fetchedAt)
    }

    constructor ()
      ensures State() == Cache(map[], 0.0) && fetches == []
    {
      keys, fetchedAt, fetches := map[], 0.0, [];
    }

    /** `_fetch_certificates`: false is an exception on its way out. */
    method FetchCertificates(asked: real, reply: Reply, answered: real) returns (ok: bool)
      modifies this
      ensures ok <==> asked - old(fetchedAt) < BRAKE_S || reply.Served?
      ensures State() == if asked - old(fetchedAt) >= BRAKE_S && reply.Served?
                         then Cache(reply.keys, answered) else old(State())
      ensures fetches == old(fetches)
                       + if asked - old(fetchedAt) >= BRAKE_S then [Fetch(asked, answered, reply)] else []
    {
      if asked - fetchedAt < BRAKE_S {
        return true;
      }
      fetches := fetches + [Fetch(asked, answered, reply)];
      match reply
      case Failed => return false;
      case Served(ks) =>
        keys := ks;
        fetchedAt := answered;
        return true;
    }

    /** `_public_key`. */
    method PublicKey(v: Visit) returns (outcome: Outcome)
      modifies this
      ensures outcome == OutcomeOf(old(State()), v) && State() == CacheAfter(old(State()), v)
      ensures fetches == old(fetches) + FetchOf(old(State()), v)
    {
      if v.header.Unreadable? {
        return InvalidToken("malformed token");
      }
      if v.header.alg != RS256 {
        return InvalidToken("signature algorithm not accepted");
      }
      if v.header.kid == "" {
        return InvalidToken("token with no kid");
      }
      if v.header.kid !in keys {
        var ok := FetchCertificates(v.asked, v.reply, v.answered);
        if !ok {
          return FetchError;
        }
      }
      if v.header.kid !in keys || keys[v.header.kid] == "" {
        return InvalidToken("unknown signing key");
      }
      return Key(keys[v.header.kid]);
    }

    /** A sequential run of verifications. */
    method PublicKeys(visits: seq<Visit>) returns (outcomes: seq<Outcome>)
      modifies this
      ensures State() == After(old(State()), visits) && outcomes == Outcomes(old(State()), visits)
      ensures fetches == old(fetches) + Fetches(old(State()), visits)
    {
      outcomes := [];
      for n := 0 to |visits|
        invariant State() == After(old(State()), visits[..n]) && outcomes == Outcomes(old(State()), visits[..n])
        invariant fetches == old(fetches) + Fetches(old(State()), visits[..n])
      {
        var outcome := PublicKey(visits[n]);
        outcomes := outcomes + [outcome];
        RunAppend(old(State()), visits[..n], visits[n]);
        OutcomesAppend(old(State()), visits[..n], visits[n]);
        assert visits[..n + 1] == visits[..n] + [visits[n]];
      }
      assert visits[..|visits|] == visits;
    }
  }

  function Outcomes(c: Cache, visits: seq<Visit>): seq<Outcome> {
    if visits == [] then []
    else
      var init := visits[..|visits| - 1];
      Outcomes(c, init) + [OutcomeOf(After(c, init), visits[|visits| - 1])]
  }

  function After(c: Cache, visits: seq<Visit>): Cache {
    if visits == [] then c else CacheAfter(After(c, visits[..|visits| - 1]), visits[|visits| - 1])
  }

  /** Every request sent to the certificate endpoint, answered or not. */
  function Fetches(c: Cache, visits: seq<Visit>): seq<Fetch> {
    if visits == [] then []
    else
      var init := visits[..|visits| - 1];
      Fetches(c, init) + FetchOf(After(c, init), visits[|visits| - 1])
  }

  lemma RunAppend(c: Cache, visits: seq<Visit>, v: Visit)
    ensures After(c, visits + [v]) == CacheAfter(After(c, visits), v)
    ensures Fetches(c, visits + [v]) == Fetches(c, visits) + FetchOf(After(c, visits), v)
  {
    assert (visits + [v])[..|visits|] == visits;
  }

  lemma OutcomesAppend(c: Cache, visits: seq<Visit>, v: Visit)
    ensures Outcomes(c, visits + [v]) == Outcomes(c, visits) + [OutcomeOf(After(c, visits), v)]
  {
    assert (visits + [v])[..|visits|] == visits;
  }

  /** When the successful ones were answered. */
  function Stamps(fetches: seq<Fetch>): seq<real> {
    if fetches == [] then []
    else
      var last := fetches[|fetches| - 1];
      Stamps(fetches[..|fetches| - 1]) + if last.reply.Served? then [last.answered] else []
  }

  /** A clock that never goes back, over calls made one after the other. */
  ghost predicate Clocked(visits: seq<Visit>) {
    && (forall i :: 0 <= i < |visits| ==> visits[i].asked <= visits[i].answered)
    && (forall i, j :: 0 <= i < j < |visits| ==> visits[i].answered <= visits[j].asked)
  }

  lemma StampsAppend(fetches: seq<Fetch>, f: Fetch)
    ensures Stamps(fetches + [f]) == Stamps(fetches) + if f.reply.Served? then [f.answered] else []
  {
    assert (fetches + [f])[..|fetches|] == fetches;
  }

  /** What `fetchedAt` stands for: the latest stamp, all stamps after the initial one. */
  ghost predicate StampedBy(stamps: seq<real>, from: real, at: real) {
    && at == (if stamps == [] then from else stamps[|stamps| - 1])
    && at >= from
    && Spaced(stamps, BRAKE_S)
  }

  lemma {:induction false} StampsSpaced(c: Cache, visits: seq<Visit>)
    requires Clocked(visits)
    ensures StampedBy(Stamps(Fetches(c, visits)), c.fetchedAt, After(c, visits).fetchedAt)
  {
    if visits != [] {
      var init, v := visits[..|visits| - 1], visits[|visits| - 1];
      assert Clocked(init);
      StampsSpaced(c, init);
      var here := After(c, init);
      if FetchOf(here, v) != [] {
        StampsAppend(Fetches(c, init), FetchOf(here, v)[0]);
        SpacedAppend(Stamps(Fetches(c, init)), BRAKE_S, v.answered);
      } else {
        assert Fetches(c, visits) == Fetches(c, init);
      }
    }
  }

  /** The brake bounds successful traffic: over any sequential run, whatever the key
      ids, successful fetches are at least 30 s apart, so a window of D seconds holds
      at most D / 30 + 1 of them. */
  lemma BrakeBoundsServedFetches(c: Cache, visits: seq<Visit>, lo: real, hi: real)
    requires Clocked(visits) && lo <= hi
    ensures Spaced(Stamps(Fetches(c, visits)), 30.0)
    ensures 30.0 * (|Within(Stamps(Fetches(c, visits)), lo, hi)| - 1) as real <= hi - lo
  {
    StampsSpaced(c, visits);
    WindowBound(Stamps(Fetches(c, visits)), BRAKE_S, lo, hi);
  }

  /** The keys of the latest successful fetch, read off the traffic alone. */
  function LatestKeys(initial: map<string, string>, fetches: seq<Fetch>): map<string, string> {
    if fetches == [] then initial
    else
      var last := fetches[|fetches| - 1];
      if last.reply.Served? then last.reply.keys else LatestKeys(initial, fetches[..|fetches| - 1])
  }

  lemma {:induction false} CacheHoldsLatest(c: Cache, visits: seq<Visit>)
    ensures After(c, visits).keys == LatestKeys(c.keys, Fetches(c, visits))
  {
    if visits != [] {
      var init, v := visits[..|visits| - 1], visits[|visits| - 1];
      CacheHoldsLatest(c, init);
      if FetchOf(After(c, init), v) != [] {
        var fs := Fetches(c, visits);
        assert fs[..|fs| - 1] == Fetches(c, init);
      } else {
        assert Fetches(c, visits) == Fetches(c, init);
      }
    }
  }

  lemma {:induction false} StampIsTheLatest(c: Cache, visits: seq<Visit>)
    ensures var stamps := Stamps(Fetches(c, visits));
            After(c, visits).fetchedAt == if stamps == [] then c.fetchedAt else stamps[|stamps| - 1]
  {
    if visits != [] {
      var init, v := visits[..|visits| - 1], visits[|visits| - 1];
      StampIsTheLatest(c, init);
      if FetchOf(After(c, init), v) != [] {
        StampsAppend(Fetches(c, init), FetchOf(After(c, init), v)[0]);
      } else {
        assert Fetches(c, visits) == Fetches(c, init);
      }
    }
  }

  /** When a request is sent, read off the traffic alone: the header is acceptable, the
      latest served keys do not list its id, and the latest served answer is 30 s old or
      more. Then it is sent once, with this visit's times. */
  lemma RequestSentExactly(c: Cache, visits: seq<Visit>, v: Visit)
    ensures var before := Fetches(c, visits); var stamps := Stamps(before);
            Fetches(c, visits + [v]) == before + (
              if v.header.Header? && v.header.alg == "RS256" && v.header.kid != ""
                 && v.header.kid !in LatestKeys(c.keys, before)
                 && v.asked - (if stamps == [] then c.fetchedAt else stamps[|stamps| - 1]) >= 30.0
              then [Fetch(v.asked, v.answered, v.reply)] else [])
  {
    RunAppend(c, visits, v);
    CacheHoldsLatest(c, visits);
    StampIsTheLatest(c, visits);
  }

  /** What comes out, read off the traffic alone. An acceptable id that the latest keys
      list, or those just served, always yields its certificate; a fetch error comes out
      exactly when a request was sent and failed; and anything else is refused for the
      first reason there is. */
  lemma OutcomesExactly(c: Cache, visits: seq<Visit>, v: Visit)
    ensures var before, after := Fetches(c, visits), Fetches(c, visits + [v]);
            var latest := LatestKeys(c.keys, after);
            OutcomeOf(After(c, visits), v) ==
              if v.header.Unreadable? then InvalidToken("malformed token")
              else if v.header.alg != "RS256" then InvalidToken("signature algorithm not accepted")
              else if v.header.kid == "" then InvalidToken("token with no kid")
              else if after != before && v.reply.Failed? then FetchError
              else if v.header.kid in latest && latest[v.header.kid] != "" then Key(latest[v.header.kid])
              else InvalidToken("unknown signing key")
  {
    RunAppend(c, visits, v);
    CacheHoldsLatest(c, visits + [v]);
  }

  /** After a rotation the new key is fetched: an id the endpoint would serve is refused
      only within 30 s of the latest served answer. */
  lemma RotatedKeysAreFound(c: Cache, visits: seq<Visit>, v: Visit)
    requires v.header.Header? && v.header.alg == "RS256" && v.header.kid != ""
    requires v.reply.Served? && v.header.kid in v.reply.keys && v.reply.keys[v.header.kid] != ""
    requires var stamps := Stamps(Fetches(c, visits));
             v.asked - (if stamps == [] then c.fetchedAt else stamps[|stamps| - 1]) >= 30.0
    ensures var latest := LatestKeys(c.keys, Fetches(c, visits));
            OutcomeOf(After(c, visits), v) ==
              if v.header.kid !in latest then Key(v.reply.keys[v.header.kid])
              else if latest[v.header.kid] != "" then Key(latest[v.header.kid])
              else InvalidToken("unknown signing key")
  {
    RequestSentExactly(c, visits, v);
    OutcomesExactly(c, visits, v);
    var before := Fetches(c, visits);
    if v.header.kid !in LatestKeys(c.keys, before) {
      assert LatestKeys(c.keys, before + [Fetch(v.asked, v.answered, v.reply)]) == v.reply.keys;
    } else {
      assert Fetches(c, visits + [v]) == before;
    }
  }

  /** A key is returned exactly when the token's header is acceptable and the latest
      successful fetch lists its id; it is the certificate listed there. */
  lemma KeysComeFromTheLatestFetch(c: Cache, visits: seq<Visit>, v: Visit)
    ensures var outcome := OutcomeOf(After(c, visits), v);
            var latest := LatestKeys(c.keys, Fetches(c, visits + [v]));
            outcome.Key? ==>
              && v.header.Header? && v.header.alg == RS256 && v.header.kid != ""
              && v.header.kid in latest && outcome.cert == latest[v.header.kid] != ""
    ensures var outcome := OutcomeOf(After(c, visits), v);
            var latest := LatestKeys(c.keys, Fetches(c, visits + [v]));
            !outcome.Key? && !outcome.FetchError? && v.header.Header? && v.header.alg == RS256 && v.header.kid != ""
            ==> v.header.kid !in latest || latest[v.header.kid] == ""
  {
    assert (visits + [v])[..|visits|] == visits;
    CacheHoldsLatest(c, visits + [v]);
  }

  // ── a failed fetch does not arm the brake ───────────────────────────────────

  function Asked(fetches: seq<Fetch>): seq<real> {
    seq(|fetches|, i requires 0 <= i < |fetches| => fetches[i].asked)
  }

  function ServedFlags(fetches: seq<Fetch>): seq<bool> {
    seq(|fetches|, i requires 0 <= i < |fetches| => fetches[i].reply.Served?)
  }

  lemma TrafficAppend(fetches: seq<Fetch>, f: Fetch)
    ensures Asked(fetches + [f]) == Asked(fetches) + [f.asked]
    ensures ServedFlags(fetches + [f]) == ServedFlags(fetches) + [f.reply.Served?]
  {
  }

  /** Whoever the visitors and whatever the clock, requests that fare like `flags` are
      at least 30 s apart. */
  ghost predicate AlwaysBraked(flags: seq<bool>) {
    forall c, visits | Clocked(visits) && ServedFlags(Fetches(c, visits)) == flags ::
      Spaced(Asked(Fetches(c, visits)), 30.0)
  }

  ghost predicate AllButLast(flags: seq<bool>) {
    forall i :: 0 <= i < |flags| - 1 ==> flags[i]
  }

  lemma AllButLastInit(flags: seq<bool>, last: bool)
    requires AllButLast(flags + [last])
    ensures AllButLast(flags) && (flags != [] ==> flags[|flags| - 1])
  {
    assert forall i :: 0 <= i < |flags| ==> (flags + [last])[i] == flags[i];
  }

  lemma {:induction false} ServedRunSpaced(c: Cache, visits: seq<Visit>)
    requires Clocked(visits) && AllButLast(ServedFlags(Fetches(c, visits)))
    ensures Spaced(Asked(Fetches(c, visits)), BRAKE_S)
    ensures var fs := Fetches(c, visits);
            fs != [] && fs[|fs| - 1].reply.Served? ==>
              fs[|fs| - 1].asked <= fs[|fs| - 1].answered == After(c, visits).fetchedAt
  {
    if visits != [] {
      var init, v := visits[..|visits| - 1], visits[|visits| - 1];
      var gs, added := Fetches(c, init), FetchOf(After(c, init), v);
      if added != [] {
        TrafficAppend(gs, added[0]);
        assert Fetches(c, visits) == gs + [added[0]];
        AllButLastInit(ServedFlags(gs), v.reply.Served?);
        ServedRunSpaced(c, init);
        SpacedAppend(Asked(gs), BRAKE_S, v.asked);
      } else {
        assert Fetches(c, visits) == gs;
        ServedRunSpaced(c, init);
      }
    }
  }

  /** The empty cache of a new verifier. */
  const EMPTY := Cache(map[], 0.0)

  /** When the brake lets the next fetch through, after fetches that fared like `flags`:
      only a served one pushes it back. */
  function NextAsk(flags: seq<bool>): real {
    if flags == [] then BRAKE_S
    else NextAsk(flags[..|flags| - 1]) + if flags[|flags| - 1] then BRAKE_S else 0.0
  }

  function NextAsks(flags: seq<bool>): seq<real> {
    if flags == [] then [] else NextAsks(flags[..|flags| - 1]) + [NextAsk(flags[..|flags| - 1])]
  }

  function ImpatientVisit(served: bool, now: real): Visit {
    Visit(Header(RS256, "unknown"), now, if served then Served(map[]) else Failed, now)
  }

  /** Unknown key ids, each asking as soon as the brake lets it. */
  function Impatient(flags: seq<bool>): seq<Visit> {
    if flags == [] then []
    else
      var init := flags[..|flags| - 1];
      Impatient(init) + [ImpatientVisit(flags[|flags| - 1], NextAsk(init))]
  }

  /** An impatient visit is let through. */
  lemma ImpatientStep(served: bool, now: real)
    ensures var c, v := Cache(map[], now - BRAKE_S), ImpatientVisit(served, now);
      && FetchOf(c, v) == [Fetch(now, now, v.reply)]
      && CacheAfter(c, v) == Cache(map[], if served then now else now - BRAKE_S)
  {
  }

  lemma {:induction false} ImpatientCache(flags: seq<bool>)
    ensures After(EMPTY, Impatient(flags)) == Cache(map[], NextAsk(flags) - BRAKE_S)
  {
    if flags != [] {
      var init, last := flags[..|flags| - 1], flags[|flags| - 1];
      ImpatientCache(init);
      ImpatientStep(last, NextAsk(init));
      RunAppend(EMPTY, Impatient(init), ImpatientVisit(last, NextAsk(init)));
    }
  }

  function ImpatientFetches(flags: seq<bool>): seq<Fetch> {
    if flags == [] then []
    else
      var v := ImpatientVisit(flags[|flags| - 1], NextAsk(flags[..|flags| - 1]));
      ImpatientFetches(flags[..|flags| - 1]) + [Fetch(v.asked, v.answered, v.reply)]
  }

  /** The impatient are all let through, each at its time. */
  lemma {:induction false} ImpatientRun(flags: seq<bool>)
    ensures Fetches(EMPTY, Impatient(flags)) == ImpatientFetches(flags)
  {
    if flags != [] {
      var init, last := flags[..|flags| - 1], flags[|flags| - 1];
      ImpatientRun(init);
      ImpatientCache(init);
      ImpatientStep(last, NextAsk(init));
      RunAppend(EMPTY, Impatient(init), ImpatientVisit(last, NextAsk(init)));
    }
  }

  lemma {:induction false} ImpatientTraffic(flags: seq<bool>)
    ensures ServedFlags(ImpatientFetches(flags)) == flags
    ensures Asked(ImpatientFetches(flags)) == NextAsks(flags)
  {
    if flags != [] {
      var init, last := flags[..|flags| - 1], flags[|flags| - 1];
      ImpatientTraffic(init);
      var v := ImpatientVisit(last, NextAsk(init));
      TrafficAppend(ImpatientFetches(init), Fetch(v.asked, v.answered, v.reply));
      assert flags == init + [last];
    }
  }

  ghost predicate AnsweredBy(visits: seq<Visit>, t: real) {
    forall i :: 0 <= i < |visits| ==> visits[i].answered <= t
  }

  lemma ClockedAppend(visits: seq<Visit>, v: Visit, t: real)
    requires Clocked(visits) && AnsweredBy(visits, v.asked) && v.asked <= v.answered <= t
    ensures Clocked(visits + [v]) && AnsweredBy(visits + [v], t)
  {
  }

  lemma {:induction false} ImpatientClocked(flags: seq<bool>)
    ensures Clocked(Impatient(flags)) && AnsweredBy(Impatient(flags), NextAsk(flags))
  {
    if flags != [] {
      var init := flags[..|flags| - 1];
      ImpatientClocked(init);
      ClockedAppend(Impatient(init), ImpatientVisit(flags[|flags| - 1], NextAsk(init)), NextAsk(flags));
    }
  }

  lemma {:induction false} NextAsksAt(flags: seq<bool>, i: nat)
    requires i < |flags|
    ensures |NextAsks(flags)| == |flags| && NextAsks(flags)[i] == NextAsk(flags[..i])
  {
    var init := flags[..|flags| - 1];
    if i < |init| {
      NextAsksAt(init, i);
      assert init[..i] == flags[..i];
    } else if i > 0 {
      NextAsksAt(init, 0);
    }
  }

  lemma ImpatientBreakThrough(flags: seq<bool>, i: nat)
    requires i + 1 < |flags| && !flags[i]
    ensures |NextAsks(flags)| == |flags| && NextAsks(flags)[i + 1] == NextAsks(flags)[i]
  {
    NextAsksAt(flags, i);
    NextAsksAt(flags, i + 1);
    assert flags[..i + 1][..i] == flags[..i];
  }

  /** The brake's promise, to bound the traffic a flood of invented key ids causes,
      holds of a pattern of answers exactly when every fetch but the last succeeds: a
      failed one does not arm the brake. */
  lemma BrakeBoundsTrafficExactly(flags: seq<bool>)
    ensures AlwaysBraked(flags) <==> AllButLast(flags)
  {
    if AllButLast(flags) {
      forall c, visits | Clocked(visits) && ServedFlags(Fetches(c, visits)) == flags
        ensures Spaced(Asked(Fetches(c, visits)), BRAKE_S)
      {
        ServedRunSpaced(c, visits);
      }
    } else {
      var i :| 0 <= i < |flags| - 1 && !flags[i];
      ImpatientRun(flags);
      ImpatientTraffic(flags);
      ImpatientClocked(flags);
      ImpatientBreakThrough(flags, i);
      var asked := Asked(Fetches(EMPTY, Impatient(flags)));
      assert asked[i + 1] - asked[i] < BRAKE_S;
    }
  }
}
