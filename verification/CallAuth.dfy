/** The signed assertion the edge sends the core (app/coreclient/callauth.py). Texts are
    their UTF-8 bytes; the keyed digest is a parameter, so nothing is assumed of it. */
module CallAuth {
  import opened Base64Url
  import opened Text

  const TTL_SECONDS := 120.0
  const PIPE: Byte := 124
  const DOT: Byte := 46
  const MINUS: Byte := 45

  datatype Claim = Claim(caller: Bytes, actorId: Bytes, actorKind: Bytes, accountId: Bytes, sessionId: Bytes)

  datatype Signed = Assertion(text: Bytes) | Refused(field: Bytes)

  /** What a reader of the assertion gets out of it. */
  datatype Reading = Reading(claim: Claim, expires: int, mac: Bytes) | Unreadable

  datatype Number = Number(value: int) | NotANumber

  /** `int(x)` on a float truncates toward zero. */
  function Truncate(x: real): int {
    if x >= 0.0 then x.Floor else -((-x).Floor)
  }

  function Digits(n: nat): (s: Bytes)
    ensures s != [] && forall i :: 0 <= i < |s| ==> 48 <= s[i] <= 57
  {
    (if n < 10 then [] else Digits(n / 10)) + [48 + n % 10]
  }

  /** `str(n)`. */
  function Decimal(n: int): Bytes {
    if n < 0 then [MINUS] + Digits(-n) else Digits(n)
  }

  function ParseDigits(s: Bytes): Number {
    if s == [] then Number(0)
    else
      var last := s[|s| - 1];
      match ParseDigits(s[..|s| - 1])
      case Number(n) => if 48 <= last <= 57 then Number(n * 10 + (last - 48)) else NotANumber
      case NotANumber => NotANumber
  }

  function ParseDecimal(s: Bytes): Number {
    if s != [] && s[0] == MINUS then
      match ParseDigits(s[1..]) case Number(n) => Number(-n) case NotANumber => NotANumber
    else if s == [] then NotANumber
    else ParseDigits(s)
  }

  function HexDigit(v: int): Byte
    requires 0 <= v < 16
  {
    if v < 10 then 48 + v else 97 + (v - 10)
  }

  /** `.hexdigest()` of a digest. */
  function Hex(digest: Bytes): (s: Bytes)
    ensures forall i :: 0 <= i < |s| ==> s[i] != DOT
  {
    if digest == [] then [] else [HexDigit(digest[0] / 16), HexDigit(digest[0] % 16)] + Hex(digest[1..])
  }

  function Expiry(now: real): int {
    Truncate(now + TTL_SECONDS)
  }

  function ClaimFields(claim: Claim): seq<Bytes> {
    [claim.caller, claim.actorId, claim.actorKind, claim.accountId, claim.sessionId]
  }

  function Fields(claim: Claim, expires: int): seq<Bytes> {
    ClaimFields(claim) + [Decimal(expires)]
  }

  predicate HasSeparator(field: Bytes) {
    PIPE in field || DOT in field
  }

  datatype FieldCheck = AllClean | Bad(field: Bytes)

  /** The loop over the fields: the first one with a separator is the one refused. */
  function CheckFields(fields: seq<Bytes>): FieldCheck {
    if fields == [] then AllClean
    else if HasSeparator(fields[0]) then Bad(fields[0])
    else CheckFields(fields[1..])
  }

  /** `sign`. */
  function Sign(key: Bytes, claim: Claim, now: real, digest: (Bytes, Bytes) -> Bytes): Signed {
    var fields := Fields(claim, Expiry(now));
    match CheckFields(fields)
    case Bad(field) => Refused(field)
    case AllClean =>
      var payload := Join(fields, [PIPE]);
      Assertion(Unpadded(payload) + [DOT] + Hex(digest(key, payload)))
  }

  /** The other end of the wire format: split at the dot, decode, split at the pipes. */
  function Read(text: Bytes): Reading {
    var parts := Split(text, [DOT]);
    if |parts| != 2 then Unreadable
    else
      match Decode(Repad(parts[0]))
      case Malformed => Unreadable
      case Data(payload) =>
        var f := Split(payload, [PIPE]);
        if |f| != 6 then Unreadable
        else
          match ParseDecimal(f[5])
          case NotANumber => Unreadable
          case Number(n) => Reading(Claim(f[0], f[1], f[2], f[3], f[4]), n, parts[1])
  }

  /** No field of the claim carries a separator. */
  predicate Clean(claim: Claim) {
    forall i :: 0 <= i < |ClaimFields(claim)| ==> !HasSeparator(ClaimFields(claim)[i])
  }

  lemma {:induction false} ParseOfDigits(n: nat)
    ensures ParseDigits(Digits(n)) == Number(n)
  {
    var s := Digits(n);
    if n >= 10 {
      ParseOfDigits(n / 10);
      assert s[..|s| - 1] == Digits(n / 10);
    } else {
      assert s[..|s| - 1] == [];
    }
  }

  lemma DigitsClean(n: nat)
    ensures !HasSeparator(Digits(n)) && Digits(n)[0] != MINUS
  {
  }

  lemma MinusParses(d: Bytes, m: int)
    requires ParseDigits(d) == Number(m) && !HasSeparator(d)
    ensures ParseDecimal([MINUS] + d) == Number(-m) && !HasSeparator([MINUS] + d)
  {
    assert ([MINUS] + d)[1..] == d;
  }

  lemma ParseOfDecimal(n: int)
    ensures ParseDecimal(Decimal(n)) == Number(n) && !HasSeparator(Decimal(n))
  {
    var m: int := if n < 0 then -n else n;
    var d := Digits(m);
    ParseOfDigits(m);
    DigitsClean(m);
    if n < 0 {
      MinusParses(d, m);
    }
  }

  /** One byte occurs in a text exactly when the text contains it as a separator. */
  lemma ContainsByte(s: Bytes, b: Byte)
    ensures Contains(s, [b]) <==> b in s
  {
    if b in s {
      var i :| 0 <= i < |s| && s[i] == b;
      assert At(s, [b], i);
    }
    if Contains(s, [b]) {
      var i: nat :| i <= |s| && At(s, [b], i);
      assert s[i + 0] == [b][0];
    }
  }

  lemma {:induction false} CheckFieldsExactly(fields: seq<Bytes>)
    ensures CheckFields(fields).AllClean? <==> forall i :: 0 <= i < |fields| ==> !HasSeparator(fields[i])
    ensures CheckFields(fields).Bad? ==> HasSeparator(CheckFields(fields).field) && CheckFields(fields).field in fields
  {
    if fields != [] {
      CheckFieldsExactly(fields[1..]);
      assert forall i :: 0 < i < |fields| ==> fields[i] == fields[1..][i - 1];
    }
  }

  lemma {:induction false} CheckAppend(fields: seq<Bytes>, last: Bytes)
    requires !HasSeparator(last)
    ensures CheckFields(fields + [last]) == CheckFields(fields)
  {
    if fields == [] {
      assert (fields + [last])[1..] == [];
    } else {
      assert (fields + [last])[1..] == fields[1..] + [last];
      CheckAppend(fields[1..], last);
    }
  }

  /** A claim is refused exactly when one of its fields carries a separator, and the
      field named in the refusal is such a field. The expiry never causes one. */
  lemma RefusedExactly(key: Bytes, claim: Claim, now: real, digest: (Bytes, Bytes) -> Bytes)
    ensures Sign(key, claim, now, digest).Assertion? <==> Clean(claim)
    ensures Sign(key, claim, now, digest).Refused? <==>
              exists field :: field in [claim.caller, claim.actorId, claim.actorKind, claim.accountId, claim.sessionId]
                           && ('|' as int in field || '.' as int in field)
    ensures Sign(key, claim, now, digest).Refused? ==>
              var field := Sign(key, claim, now, digest).field;
              && ('|' as int in field || '.' as int in field)
              && field in [claim.caller, claim.actorId, claim.actorKind, claim.accountId, claim.sessionId]
  {
    ParseOfDecimal(Expiry(now));
    CheckAppend(ClaimFields(claim), Decimal(Expiry(now)));
    CheckFieldsExactly(ClaimFields(claim));
  }

  lemma UnpaddedHasNoDot(bs: Bytes)
    ensures DOT !in Unpadded(bs)
  {
    UnpaddedRoundTrip(bs);
    assert ValueOf(DOT) == -1;
  }

  lemma SplitsAtTheDot(payload: Bytes, mac: Bytes)
    requires DOT !in mac
    ensures Split(Unpadded(payload) + [DOT] + mac, [DOT]) == [Unpadded(payload), mac]
  {
    UnpaddedHasNoDot(payload);
    ContainsByte(Unpadded(payload), DOT);
    ContainsByte(mac, DOT);
    var parts := [Unpadded(payload), mac];
    assert Join(parts, [DOT]) == Unpadded(payload) + [DOT] + mac by {
      assert Join([mac], [DOT]) == mac;
      assert parts[1..] == [mac];
    }
    SplitOfJoin(parts, [DOT]);
  }

  ghost predicate PipeFree(fields: seq<Bytes>) {
    forall i :: 0 <= i < |fields| ==> PIPE !in fields[i]
  }

  lemma FreeOfPipe(fields: seq<Bytes>)
    ensures AllFree(fields, [PIPE]) <==> PipeFree(fields)
  {
    forall i | 0 <= i < |fields|
      ensures Contains(fields[i], [PIPE]) <==> PIPE in fields[i]
    {
      ContainsByte(fields[i], PIPE);
    }
  }

  /** The payload splits back into its fields exactly when no field holds a pipe: the
      ban on that separator is what makes the format readable. */
  lemma PipeBanIsExact(claim: Claim, expires: int)
    ensures Split(Join(Fields(claim, expires), [PIPE]), [PIPE]) == Fields(claim, expires)
       <==> PipeFree(ClaimFields(claim))
  {
    ParseOfDecimal(expires);
    FreeOfPipe(Fields(claim, expires));
    SplitOfJoinExactly(Fields(claim, expires), [PIPE]);
    PipeFreeAppend(ClaimFields(claim), Decimal(expires));
  }

  lemma PipeFreeAppend(fields: seq<Bytes>, last: Bytes)
    requires PIPE !in last
    ensures PipeFree(fields + [last]) <==> PipeFree(fields)
  {
    assert forall i :: 0 <= i < |fields| ==> (fields + [last])[i] == fields[i];
  }

  lemma ReadsFields(payload: Bytes, mac: Bytes, claim: Claim, expires: int)
    requires DOT !in mac && Split(payload, [PIPE]) == Fields(claim, expires)
    ensures Read(Unpadded(payload) + [DOT] + mac) == Reading(claim, expires, mac)
  {
    SplitsAtTheDot(payload, mac);
    UnpaddedRoundTrip(payload);
    ParseOfDecimal(expires);
  }

  /** Unique readability: what was signed reads back as the same five fields and the
      expiry, next to the digest of exactly that payload. */
  lemma ReadsBackWhatWasSigned(key: Bytes, claim: Claim, now: real, digest: (Bytes, Bytes) -> Bytes)
    requires Clean(claim)
    ensures Sign(key, claim, now, digest).Assertion?
    ensures Read(Sign(key, claim, now, digest).text)
         == Reading(claim, Expiry(now), Hex(digest(key, Join(Fields(claim, Expiry(now)), [PIPE]))))
  {
    var payload := Join(Fields(claim, Expiry(now)), [PIPE]);
    RefusedExactly(key, claim, now, digest);
    PipeBanIsExact(claim, Expiry(now));
    ReadsFields(payload, Hex(digest(key, payload)), claim, Expiry(now));
  }

  /** The layout on the wire: the encoded payload, a dot, and two hexadecimal digits for
      each byte of the digest of that payload. */
  lemma WireLayout(key: Bytes, claim: Claim, now: real, digest: (Bytes, Bytes) -> Bytes)
    requires Clean(claim)
    ensures var bar, dot: Byte := '|' as int, '.' as int;
            var payload := claim.caller + [bar] + (claim.actorId + [bar] + (claim.actorKind + [bar]
                             + (claim.accountId + [bar] + (claim.sessionId + [bar] + Decimal(Expiry(now))))));
            Sign(key, claim, now, digest) == Assertion(Unpadded(payload) + [dot] + Hex(digest(key, payload)))
  {
    RefusedExactly(key, claim, now, digest);
    var e := Decimal(Expiry(now));
    JoinCons(claim.sessionId, [e]);
    JoinCons(claim.accountId, [claim.sessionId] + [e]);
    JoinCons(claim.actorKind, [claim.accountId] + ([claim.sessionId] + [e]));
    JoinCons(claim.actorId, [claim.actorKind] + ([claim.accountId] + ([claim.sessionId] + [e])));
    var rest := [claim.actorId] + ([claim.actorKind] + ([claim.accountId] + ([claim.sessionId] + [e])));
    JoinCons(claim.caller, rest);
    assert Fields(claim, Expiry(now)) == [claim.caller] + rest;
  }

  lemma JoinCons(first: Bytes, rest: seq<Bytes>)
    requires rest != []
    ensures Join([first] + rest, [PIPE]) == first + [PIPE] + Join(rest, [PIPE])
    ensures |rest| == 1 ==> Join(rest, [PIPE]) == rest[0]
  {
    assert ([first] + rest)[1..] == rest;
  }

  function HexValue(c: Byte): int {
    if '0' as int <= c <= '9' as int then c - '0' as int
    else if 'a' as int <= c <= 'f' as int then c - 'a' as int + 10
    else -1
  }

  /** The text gives these bytes back, two digits for each. */
  predicate Spells(text: Bytes, bytes: Bytes) {
    && |text| == 2 * |bytes|
    && (bytes != [] ==>
          && 0 <= HexValue(text[0]) && 0 <= HexValue(text[1])
          && HexValue(text[0]) * 16 + HexValue(text[1]) == bytes[0]
          && Spells(text[2..], bytes[1..]))
  }

  /** Hexadecimal digits give the digest back, byte for byte. */
  lemma {:induction false} HexReadsBack(digest: Bytes)
    ensures Spells(Hex(digest), digest)
  {
    if digest != [] {
      HexReadsBack(digest[1..]);
      HexDigitReadsBack(digest[0] / 16);
      HexDigitReadsBack(digest[0] % 16);
      assert Hex(digest)[2..] == Hex(digest[1..]);
    }
  }

  lemma HexDigitReadsBack(v: int)
    requires 0 <= v < 16
    ensures HexValue(HexDigit(v)) == v
  {
  }

  /** The part before the dot. */
  function PayloadPart(text: Bytes): Bytes {
    Split(text, [DOT])[0]
  }

  /** Equal payload parts mean equal claims and equal expiries, whatever the keys. */
  lemma EqualPayloadsMeanEqualClaims(key1: Bytes, claim1: Claim, now1: real,
                                     key2: Bytes, claim2: Claim, now2: real, digest: (Bytes, Bytes) -> Bytes)
    requires Clean(claim1) && Clean(claim2)
    requires Sign(key1, claim1, now1, digest).Assertion? && Sign(key2, claim2, now2, digest).Assertion?
    requires PayloadPart(Sign(key1, claim1, now1, digest).text) == PayloadPart(Sign(key2, claim2, now2, digest).text)
    ensures claim1 == claim2 && Expiry(now1) == Expiry(now2)
  {
    ReadsBackWhatWasSigned(key1, claim1, now1, digest);
    ReadsBackWhatWasSigned(key2, claim2, now2, digest);
  }

  /** An assertion is worth at most two minutes, and at least one second less. */
  lemma ExpiryWindow(now: real)
    requires now >= 0.0
    ensures now + 119.0 < Expiry(now) as real <= now + 120.0
  {
  }
}
