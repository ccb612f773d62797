/** The log mask (app/platform/logging/config.py): secrets are redacted by key,
    through every dict and every list of an event. */
module LogMask {
  import opened Options

  /** A logged Python value. Dicts keep insertion order. `Sealed` is any container the
      mask does not enter: a tuple, a set, a deque; or a mapping or an object that is no
      dict, its one part being the dict of what it holds. `Other` is any value that
      contains no other. */
  datatype Value =
    | Dict(entries: seq<Entry>)
    | List(items: seq<Value>)
    | Sealed(parts: seq<Value>)
    | Text(text: string)
    | Other(repr: int)

  datatype Entry = Entry(key: string, value: Value)

  const AUTO_MASK: set<string> := {
    "password", "token", "secret", "authorization", "api_key", "private_key",
    "client_secret", "credential", "id_token", "refresh_token", "cpf", "cnpj"
  }

  const REDACTED := Text("***")

  /** `str.lower` as far as `AUTO_MASK` can tell: besides A to Z, only the Kelvin
      sign lowers to a character an ASCII name can hold. */
  function LowerChar(c: char): char {
    if 'A' <= c <= 'Z' then (c as int + 32) as char
    else if c == '\U{212A}' then 'k'
    else c
  }

  function Lower(s: string): string {
    seq(|s|, i requires 0 <= i < |s| => LowerChar(s[i]))
  }

  predicate Masked(key: string) {
    Lower(key) in AUTO_MASK
  }

  /** `walk`. */
  function Walk(v: Value): Value {
    match v
    case Dict(entries) =>
      Dict(seq(|entries|, i requires 0 <= i < |entries| =>
        Entry(entries[i].key, if Masked(entries[i].key) then REDACTED else Walk(entries[i].value))))
    case List(items) => List(seq(|items|, i requires 0 <= i < |items| => Walk(items[i])))
    case _ => v
  }

  /** Equal but for what stands under masked keys, at any depth of dicts and lists. */
  predicate SameOutsideMask(a: Value, b: Value) {
    match (a, b)
    case (Dict(xs), Dict(ys)) =>
      && |xs| == |ys|
      && forall i :: 0 <= i < |xs| ==>
           xs[i].key == ys[i].key && (Masked(xs[i].key) || SameOutsideMask(xs[i].value, ys[i].value))
    case (List(xs), List(ys)) =>
      |xs| == |ys| && forall i :: 0 <= i < |xs| ==> SameOutsideMask(xs[i], ys[i])
    case _ => a == b
  }

  /** Every masked key reachable through dicts and lists holds the redaction mark. */
  predicate FullyRedacted(v: Value) {
    match v
    case Dict(entries) =>
      forall i :: 0 <= i < |entries| ==>
        if Masked(entries[i].key) then entries[i].value == REDACTED else FullyRedacted(entries[i].value)
    case List(items) => forall i :: 0 <= i < |items| ==> FullyRedacted(items[i])
    case _ => true
  }

  /** Non-interference, both ways: two events mask to the same line exactly when they
      differ only under masked keys. So the line shows nothing of a secret, and
      everything that is not one. */
  lemma {:induction false} MaskedEqualExactly(a: Value, b: Value)
    ensures Walk(a) == Walk(b) <==> SameOutsideMask(a, b)
  {
    match (a, b)
    case (Dict(xs), Dict(ys)) =>
      if |xs| == |ys| {
        forall i | 0 <= i < |xs| {
          MaskedEqualExactly(xs[i].value, ys[i].value);
        }
        var ws, zs := Walk(a).entries, Walk(b).entries;
        assert ws == zs <==> forall i :: 0 <= i < |ws| ==> ws[i] == zs[i];
        assert forall i :: 0 <= i < |xs| ==> (ws[i] == zs[i] <==>
          xs[i].key == ys[i].key && (Masked(xs[i].key) || SameOutsideMask(xs[i].value, ys[i].value)));
      }
    case (List(xs), List(ys)) =>
      assert |Walk(a).items| == |xs| && |Walk(b).items| == |ys|;
      if |xs| == |ys| {
        forall i | 0 <= i < |xs| {
          MaskedEqualExactly(xs[i], ys[i]);
        }
        var ws, zs := Walk(a).items, Walk(b).items;
        assert ws == zs <==> forall i :: 0 <= i < |ws| ==> ws[i] == zs[i];
        assert forall i :: 0 <= i < |xs| ==> (ws[i] == zs[i] <==> SameOutsideMask(xs[i], ys[i]));
      }
    case _ =>
  }

  /** The mask leaves a value alone exactly when it is already redacted. */
  lemma {:induction false} UnchangedExactlyWhenRedacted(v: Value)
    ensures Walk(v) == v <==> FullyRedacted(v)
  {
    match v
    case Dict(entries) =>
      forall i | 0 <= i < |entries| {
        UnchangedExactlyWhenRedacted(entries[i].value);
      }
      var ws := Walk(v).entries;
      assert ws == entries <==> forall i :: 0 <= i < |ws| ==> ws[i] == entries[i];
    case List(items) =>
      forall i | 0 <= i < |items| {
        UnchangedExactlyWhenRedacted(items[i]);
      }
      var ws := Walk(v).items;
      assert ws == items <==> forall i :: 0 <= i < |ws| ==> ws[i] == items[i];
    case _ =>
  }

  /** The output redacts every masked key at any depth, and is otherwise the input. */
  lemma {:induction false} WalkRedactsAndKeepsTheRest(v: Value)
    ensures FullyRedacted(Walk(v)) && SameOutsideMask(v, Walk(v))
  {
    match v
    case Dict(entries) =>
      forall i | 0 <= i < |entries| {
        WalkRedactsAndKeepsTheRest(entries[i].value);
      }
    case List(items) =>
      forall i | 0 <= i < |items| {
        WalkRedactsAndKeepsTheRest(items[i]);
      }
    case _ =>
  }

  lemma MaskingTwiceIsMaskingOnce(v: Value)
    ensures Walk(Walk(v)) == Walk(v)
  {
    WalkRedactsAndKeepsTheRest(v);
    UnchangedExactlyWhenRedacted(Walk(v));
  }

  // ── which keys, and where ───────────────────────────────────────────────────

  /** `key` is `name` in any mix of small and capital letters; Python lowers the Kelvin
      sign to a `k` as well. */
  predicate Spells(key: string, name: string) {
    && |key| == |name|
    && forall i :: 0 <= i < |key| ==>
         || key[i] == name[i]
         || ('a' <= name[i] <= 'z' && key[i] as int == name[i] as int - 32)
         || (name[i] == 'k' && key[i] == '\U{212A}')
  }

  /** The twelve names, as the mask promises to know them. */
  ghost predicate SpellsASecret(key: string) {
    || Spells(key, "password") || Spells(key, "token") || Spells(key, "secret") || Spells(key, "authorization")
    || Spells(key, "api_key") || Spells(key, "private_key") || Spells(key, "client_secret") || Spells(key, "credential")
    || Spells(key, "id_token") || Spells(key, "refresh_token") || Spells(key, "cpf") || Spells(key, "cnpj")
  }

  predicate Plain(name: string) {
    forall i :: 0 <= i < |name| ==> 'a' <= name[i] <= 'z' || name[i] == '_'
  }

  lemma LowersTo(key: string, name: string)
    requires Plain(name)
    ensures Lower(key) == name <==> Spells(key, name)
  {
    if |key| == |name| {
      assert forall i :: 0 <= i < |key| ==>
        (LowerChar(key[i]) == name[i] <==>
          key[i] == name[i] || ('a' <= name[i] <= 'z' && key[i] as int == name[i] as int - 32)
          || (name[i] == 'k' && key[i] == '\U{212A}'));
    }
  }

  /** A key is masked exactly when it spells one of the twelve names. */
  lemma MaskedByName(key: string)
    ensures Masked(key) <==> SpellsASecret(key)
  {
    LowersTo(key, "password");
    LowersTo(key, "token");
    LowersTo(key, "secret");
    LowersTo(key, "authorization");
    LowersTo(key, "api_key");
    LowersTo(key, "private_key");
    LowersTo(key, "client_secret");
    LowersTo(key, "credential");
    LowersTo(key, "id_token");
    LowersTo(key, "refresh_token");
    LowersTo(key, "cpf");
    LowersTo(key, "cnpj");
  }

  /** The value at a place: an entry of a dict or an element of a list, by position, at
      every step. */
  function ValueAt(v: Value, place: seq<nat>): Maybe<Value>
    decreases |place|
  {
    if place == [] then Some(v)
    else match v
      case Dict(entries) => if place[0] < |entries| then ValueAt(entries[place[0]].value, place[1..]) else None
      case List(items) => if place[0] < |items| then ValueAt(items[place[0]], place[1..]) else None
      case _ => None
  }

  /** No key on the way to the place, nor at it, spells a secret. */
  ghost predicate NoSecretOnTheWay(v: Value, place: seq<nat>)
    decreases |place|
  {
    place != [] ==>
      match v
      case Dict(entries) =>
        place[0] < |entries| ==>
          !SpellsASecret(entries[place[0]].key) && NoSecretOnTheWay(entries[place[0]].value, place[1..])
      case List(items) => place[0] < |items| ==> NoSecretOnTheWay(items[place[0]], place[1..])
      case _ => true
  }

  /** Wherever it stands in the output, under dicts and lists, a key that spells a secret
      holds the mark. */
  lemma {:induction false} SecretsAreMarked(v: Value, place: seq<nat>, i: nat)
    requires ValueAt(Walk(v), place).Some? && ValueAt(Walk(v), place).value.Dict?
    requires var entries := ValueAt(Walk(v), place).value.entries; i < |entries| && SpellsASecret(entries[i].key)
    ensures ValueAt(Walk(v), place).value.entries[i].value == Text("***")
    decreases |place|
  {
    match v
    case Dict(entries) =>
      if place == [] {
        MaskedByName(entries[i].key);
      } else if !Masked(entries[place[0]].key) {
        SecretsAreMarked(entries[place[0]].value, place[1..], i);
      }
    case List(items) =>
      SecretsAreMarked(items[place[0]], place[1..], i);
    case _ =>
  }

  /** What stands under no secret stays in its place: a dict with its keys, a list with
      its length, and any other value as it is. */
  lemma {:induction false} TheRestIsKept(v: Value, place: seq<nat>)
    requires NoSecretOnTheWay(v, place) && ValueAt(v, place).Some?
    ensures ValueAt(Walk(v), place).Some?
    ensures var was, now := ValueAt(v, place).value, ValueAt(Walk(v), place).value;
            match was
            case Dict(xs) => now.Dict? && |now.entries| == |xs| && forall i :: 0 <= i < |xs| ==> now.entries[i].key == xs[i].key
            case List(xs) => now.List? && |now.items| == |xs|
            case _ => now == was
    decreases |place|
  {
    if place != [] {
      match v
      case Dict(entries) =>
        MaskedByName(entries[place[0]].key);
        TheRestIsKept(entries[place[0]].value, place[1..]);
      case List(items) =>
        TheRestIsKept(items[place[0]], place[1..]);
    }
  }

  // ── containers the mask does not enter ──────────────────────────────────────

  /** The stronger reading of "at any depth": equal but for what stands under masked
      keys, through sealed containers as well. */
  predicate SameThroughSealed(a: Value, b: Value) {
    match (a, b)
    case (Dict(xs), Dict(ys)) =>
      && |xs| == |ys|
      && forall i :: 0 <= i < |xs| ==>
           xs[i].key == ys[i].key && (Masked(xs[i].key) || SameThroughSealed(xs[i].value, ys[i].value))
    case (List(xs), List(ys)) =>
      |xs| == |ys| && forall i :: 0 <= i < |xs| ==> SameThroughSealed(xs[i], ys[i])
    case (Sealed(xs), Sealed(ys)) =>
      |xs| == |ys| && forall i :: 0 <= i < |xs| ==> SameThroughSealed(xs[i], ys[i])
    case _ => a == b
  }

  /** No masked key stands anywhere in the value. */
  predicate NoMaskedKey(v: Value) {
    match v
    case Dict(entries) =>
      forall i :: 0 <= i < |entries| ==> !Masked(entries[i].key) && NoMaskedKey(entries[i].value)
    case List(items) => forall i :: 0 <= i < |items| ==> NoMaskedKey(items[i])
    case Sealed(parts) => forall i :: 0 <= i < |parts| ==> NoMaskedKey(parts[i])
    case _ => true
  }

  /** No sealed container the mask meets holds a masked key. */
  predicate SealedClean(v: Value) {
    match v
    case Dict(entries) =>
      forall i :: 0 <= i < |entries| ==> Masked(entries[i].key) || SealedClean(entries[i].value)
    case List(items) => forall i :: 0 <= i < |items| ==> SealedClean(items[i])
    case Sealed(parts) => forall i :: 0 <= i < |parts| ==> NoMaskedKey(parts[i])
    case _ => true
  }

  /** The value with another secret under every masked key. */
  function Disguise(v: Value): Value {
    match v
    case Dict(entries) =>
      Dict(seq(|entries|, i requires 0 <= i < |entries| =>
        Entry(entries[i].key,
              if Masked(entries[i].key) then (if entries[i].value == Other(0) then Other(1) else Other(0))
              else Disguise(entries[i].value))))
    case List(items) => List(seq(|items|, i requires 0 <= i < |items| => Disguise(items[i])))
    case Sealed(parts) => Sealed(seq(|parts|, i requires 0 <= i < |parts| => Disguise(parts[i])))
    case _ => v
  }

  lemma {:induction false} DisguiseHidesInPlainSight(v: Value)
    ensures SameThroughSealed(v, Disguise(v))
    ensures Disguise(v) == v <==> NoMaskedKey(v)
  {
    match v
    case Dict(entries) =>
      forall i | 0 <= i < |entries| {
        DisguiseHidesInPlainSight(entries[i].value);
      }
      var ws := Disguise(v).entries;
      assert ws == entries <==> forall i :: 0 <= i < |ws| ==> ws[i] == entries[i];
    case List(items) =>
      forall i | 0 <= i < |items| {
        DisguiseHidesInPlainSight(items[i]);
      }
      var ws := Disguise(v).items;
      assert ws == items <==> forall i :: 0 <= i < |ws| ==> ws[i] == items[i];
    case Sealed(parts) =>
      forall i | 0 <= i < |parts| {
        DisguiseHidesInPlainSight(parts[i]);
      }
      var ws := Disguise(v).parts;
      assert ws == parts <==> forall i :: 0 <= i < |ws| ==> ws[i] == parts[i];
    case _ =>
  }

  lemma {:induction false} DisguiseShowsThroughSealed(v: Value)
    ensures SameOutsideMask(v, Disguise(v)) ==> SealedClean(v)
  {
    match v
    case Dict(entries) =>
      forall i | 0 <= i < |entries| {
        DisguiseShowsThroughSealed(entries[i].value);
      }
    case List(items) =>
      forall i | 0 <= i < |items| {
        DisguiseShowsThroughSealed(items[i]);
      }
    case Sealed(parts) =>
      DisguiseHidesInPlainSight(v);
    case _ =>
  }

  lemma {:induction false} SameWithoutMaskedKeys(a: Value, b: Value)
    requires NoMaskedKey(a) && SameThroughSealed(a, b)
    ensures a == b
  {
    match (a, b)
    case (Dict(xs), Dict(ys)) =>
      forall i | 0 <= i < |xs|
        ensures xs[i] == ys[i]
      {
        SameWithoutMaskedKeys(xs[i].value, ys[i].value);
      }
      assert xs == ys;
    case (List(xs), List(ys)) =>
      forall i | 0 <= i < |xs|
        ensures xs[i] == ys[i]
      {
        SameWithoutMaskedKeys(xs[i], ys[i]);
      }
      assert xs == ys;
    case (Sealed(xs), Sealed(ys)) =>
      forall i | 0 <= i < |xs|
        ensures xs[i] == ys[i]
      {
        SameWithoutMaskedKeys(xs[i], ys[i]);
      }
      assert xs == ys;
    case _ =>
  }

  lemma {:induction false} CleanSealedShowNothing(a: Value, b: Value)
    requires SealedClean(a) && SameThroughSealed(a, b)
    ensures SameOutsideMask(a, b)
  {
    match (a, b)
    case (Dict(xs), Dict(ys)) =>
      forall i | 0 <= i < |xs| && !Masked(xs[i].key)
        ensures SameOutsideMask(xs[i].value, ys[i].value)
      {
        CleanSealedShowNothing(xs[i].value, ys[i].value);
      }
    case (List(xs), List(ys)) =>
      forall i | 0 <= i < |xs|
        ensures SameOutsideMask(xs[i], ys[i])
      {
        CleanSealedShowNothing(xs[i], ys[i]);
      }
    case (Sealed(xs), Sealed(ys)) =>
      SameWithoutMaskedKeys(a, b);
    case _ =>
  }

  /** Where sealed containers count as depth, the mask is non-interfering on an event
      exactly when none in it holds a masked key. */
  lemma NonInterferingThroughSealedExactly(a: Value)
    ensures (forall b :: SameThroughSealed(a, b) ==> Walk(a) == Walk(b)) <==> SealedClean(a)
  {
    if SealedClean(a) {
      forall b | SameThroughSealed(a, b)
        ensures Walk(a) == Walk(b)
      {
        CleanSealedShowNothing(a, b);
        MaskedEqualExactly(a, b);
      }
    } else {
      DisguiseHidesInPlainSight(a);
      DisguiseShowsThroughSealed(a);
      MaskedEqualExactly(a, Disguise(a));
    }
  }

  /** A concrete secret the mask lets through. */
  lemma ATupleShowsItsSecret(secret: string)
    ensures var inner := Dict([Entry("password", Text(secret))]);
            Walk(Dict([Entry("args", Sealed([inner]))])) == Dict([Entry("args", Sealed([inner]))])
  {
    var event := Dict([Entry("args", Sealed([Dict([Entry("password", Text(secret))])]))]);
    assert Lower("args")[1] == 'r';
    assert Walk(event).entries == event.entries;
  }
}
