/** The route-template compiler (app/platform/security/decorator.py): a template such as
    `/repos/{repo_id}/merge-queue` becomes the text of a regular expression. */
module Templates {
  import opened Text

  // ── compiling ───────────────────────────────────────────────────────────────

  const WILD := "[^/]+"

  /** The index of the first `}`, or the length when there is none. */
  function CloseAt(s: string): (i: nat)
    ensures i <= |s| && (i < |s| ==> s[i] == '}') && forall j :: 0 <= j < i ==> s[j] != '}'
  {
    if s == "" || s[0] == '}' then 0 else 1 + CloseAt(s[1..])
  }

  /** `re.sub(r"\{[^}]+\}", "[^/]+", path)`: a brace, at least one character that does
      not close it, and the closing brace. */
  function Substitute(path: string): string
    decreases |path|
  {
    if path == "" then ""
    else if path[0] == '{' && 2 <= CloseAt(path) < |path| then WILD + Substitute(path[CloseAt(path) + 1..])
    else [path[0]] + Substitute(path[1..])
  }

  /** The text handed to `re.compile`. */
  function Pattern(path: string): string {
    "^" + Substitute(path) + "$"
  }

  // ── the fragment of the regex language the patterns use ─────────────────────

  predicate IsMeta(c: char) {
    c in ".^$*+?{}[]\\|()"
  }

  datatype Atom = Is(c: char) | NotSlashes

  datatype Regex = Anchored(atoms: seq<Atom>) | OutsideFragment

  function ParseBody(body: string): Regex
    decreases |body|
  {
    if body == "" then Anchored([])
    else if WILD <= body then Put(NotSlashes, ParseBody(body[|WILD|..]))
    else if IsMeta(body[0]) then OutsideFragment
    else Put(Is(body[0]), ParseBody(body[1..]))
  }

  function Put(a: Atom, rest: Regex): Regex {
    match rest case Anchored(atoms) => Anchored([a] + atoms) case OutsideFragment => OutsideFragment
  }

  function ParsePattern(text: string): Regex {
    if |text| < 2 || text[0] != '^' || text[|text| - 1] != '$' then OutsideFragment
    else ParseBody(text[1..|text| - 1])
  }

  predicate NoSlash(s: string) {
    '/' !in s
  }

  /** Some way of matching the whole of `s`: what backtracking searches for. */
  predicate Accepts(atoms: seq<Atom>, s: string)
    decreases |atoms|
  {
    if atoms == [] then s == ""
    else
      match atoms[0]
      case Is(c) => s != "" && s[0] == c && Accepts(atoms[1..], s[1..])
      case NotSlashes => exists n: nat :: 1 <= n <= |s| && NoSlash(s[..n]) && Accepts(atoms[1..], s[n..])
  }

  /** `s` without one trailing newline, before which `$` also matches. */
  function Chomp(s: string): string {
    if s != "" && s[|s| - 1] == '\n' then s[..|s| - 1] else s
  }

  /** `re.compile(text).match(s)` for a text of the fragment. */
  predicate Matches(text: string, s: string) {
    match ParsePattern(text)
    case OutsideFragment => false
    case Anchored(atoms) => Accepts(atoms, s) || Accepts(atoms, Chomp(s))
  }

  // ── what a template means ───────────────────────────────────────────────────

  datatype Part = Literal(text: string) | Param(name: string)

  type Template = seq<Part>

  predicate SafeText(s: string) {
    forall i :: 0 <= i < |s| ==> !IsMeta(s[i])
  }

  /** Literals free of metacharacters; parameters named by one or more characters
      other than `}`. */
  predicate WellFormed(t: Template) {
    forall i :: 0 <= i < |t| ==>
      match t[i]
      case Literal(text) => SafeText(text)
      case Param(name) => name != "" && '}' !in name
  }

  /** Letters, digits, `/`, `-` and `_` are no metacharacters. */
  lemma OrdinaryTextIsSafe(s: string)
    requires forall i :: 0 <= i < |s| ==>
               || 'a' <= s[i] <= 'z' || 'A' <= s[i] <= 'Z' || '0' <= s[i] <= '9' || s[i] in {'/', '-', '_'}
    ensures SafeText(s) && WellFormed([Literal(s)])
  {
  }

  function Spell(p: Part): string {
    match p case Literal(text) => text case Param(name) => "{" + name + "}"
  }

  /** The template as it is written on the route. */
  function Spelling(t: Template): string {
    if t == [] then "" else Spell(t[0]) + Spelling(t[1..])
  }

  function ParamCount(t: Template): nat {
    if t == [] then 0 else (if t[0].Param? then 1 else 0) + ParamCount(t[1..])
  }

  /** The template with its parameters replaced, in order, by `values`. */
  function Fill(t: Template, values: seq<string>): string
    requires |values| == ParamCount(t)
  {
    if t == [] then ""
    else match t[0]
      case Literal(text) => text + Fill(t[1..], values)
      case Param(_) => values[0] + Fill(t[1..], values[1..])
  }

  /** One non-empty, slash-free value for each parameter. */
  predicate Fits(t: Template, values: seq<string>) {
    |values| == ParamCount(t) && forall i :: 0 <= i < |values| ==> values[i] != "" && NoSlash(values[i])
  }

  ghost predicate Instance(t: Template, s: string) {
    exists values :: Fits(t, values) && Fill(t, values) == s
  }

  // ── compiling preserves meaning ─────────────────────────────────────────────

  function LiteralAtoms(s: string): seq<Atom> {
    seq(|s|, i requires 0 <= i < |s| => Is(s[i]))
  }

  /** The atoms a template stands for. */
  function AtomsOf(t: Template): seq<Atom> {
    if t == [] then []
    else (match t[0] case Literal(text) => LiteralAtoms(text) case Param(_) => [NotSlashes]) + AtomsOf(t[1..])
  }

  /** What the compiler writes for a template. */
  function BodyOf(t: Template): string {
    if t == [] then ""
    else (match t[0] case Literal(text) => text case Param(_) => WILD) + BodyOf(t[1..])
  }

  lemma {:induction false} SubstituteLiteral(text: string, rest: string)
    requires SafeText(text)
    ensures Substitute(text + rest) == text + Substitute(rest)
  {
    if text == "" {
      assert text + rest == rest;
    } else {
      assert IsMeta('{');
      assert (text + rest)[1..] == text[1..] + rest;
      SubstituteLiteral(text[1..], rest);
    }
  }

  lemma {:induction false} CloseAtFirst(name: string, rest: string)
    requires '}' !in name
    ensures CloseAt(name + "}" + rest) == |name|
  {
    var s := name + "}" + rest;
    assert s[|name|] == '}';
    assert forall j :: 0 <= j < |name| ==> s[j] == name[j];
  }

  lemma {:induction false} SubstituteSpelling(t: Template)
    requires WellFormed(t)
    ensures Substitute(Spelling(t)) == BodyOf(t)
  {
    if t != [] {
      var rest := Spelling(t[1..]);
      SubstituteSpelling(t[1..]);
      match t[0]
      case Literal(text) =>
        SubstituteLiteral(text, rest);
      case Param(name) =>
        var s := "{" + name + "}" + rest;
        assert s == ("{" + name) + "}" + rest;
        CloseAtFirst("{" + name, rest);
        assert s[CloseAt(s) + 1..] == rest;
        assert Spelling(t) == s;
    }
  }

  lemma {:induction false} ParseLiteral(text: string, rest: string)
    requires SafeText(text) && ParseBody(rest).Anchored?
    ensures ParseBody(text + rest) == Anchored(LiteralAtoms(text) + ParseBody(rest).atoms)
  {
    if text == "" {
      assert text + rest == rest;
      assert LiteralAtoms(text) + ParseBody(rest).atoms == ParseBody(rest).atoms;
    } else {
      var s := text + rest;
      assert s[1..] == text[1..] + rest;
      assert !(WILD <= s) by { assert WILD[0] == '[' && IsMeta('[') && s[0] == text[0]; }
      ParseLiteral(text[1..], rest);
      assert LiteralAtoms(text) == [Is(text[0])] + LiteralAtoms(text[1..]);
      assert [Is(text[0])] + (LiteralAtoms(text[1..]) + ParseBody(rest).atoms)
          == LiteralAtoms(text) + ParseBody(rest).atoms;
    }
  }

  lemma {:induction false} ParseOfBody(t: Template)
    requires WellFormed(t)
    ensures ParseBody(BodyOf(t)) == Anchored(AtomsOf(t))
  {
    if t != [] {
      ParseOfBody(t[1..]);
      match t[0]
      case Literal(text) =>
        ParseLiteral(text, BodyOf(t[1..]));
      case Param(_) =>
        var s := WILD + BodyOf(t[1..]);
        assert s[|WILD|..] == BodyOf(t[1..]);
    }
  }

  lemma {:induction false} AcceptsLiteral(text: string, rest: seq<Atom>, s: string)
    ensures Accepts(LiteralAtoms(text) + rest, s) <==> text <= s && Accepts(rest, s[|text|..])
  {
    var atoms := LiteralAtoms(text) + rest;
    if text == "" {
      assert atoms == rest && s[0..] == s;
    } else {
      assert atoms[0] == Is(text[0]);
      assert atoms[1..] == LiteralAtoms(text[1..]) + rest;
      if s != "" && s[0] == text[0] {
        AcceptsLiteral(text[1..], rest, s[1..]);
        assert text <= s <==> text[1..] <= s[1..];
        if text <= s {
          assert s[1..][|text| - 1..] == s[|text|..];
        }
      }
    }
  }

  /** An accepted text is an instance, and here are its parameters. */
  lemma {:induction false} AcceptedValues(t: Template, s: string) returns (values: seq<string>)
    requires Accepts(AtomsOf(t), s)
    ensures Fits(t, values) && Fill(t, values) == s
  {
    if t == [] {
      values := [];
    } else {
      match t[0]
      case Literal(text) =>
        AcceptsLiteral(text, AtomsOf(t[1..]), s);
        values := AcceptedValues(t[1..], s[|text|..]);
      case Param(_) =>
        assert AtomsOf(t)[1..] == AtomsOf(t[1..]);
        var n: nat :| 1 <= n <= |s| && NoSlash(s[..n]) && Accepts(AtomsOf(t[1..]), s[n..]);
        var rest := AcceptedValues(t[1..], s[n..]);
        values := [s[..n]] + rest;
        assert values[1..] == rest;
    }
  }

  lemma {:induction false} FilledIsAccepted(t: Template, values: seq<string>)
    requires Fits(t, values)
    ensures Accepts(AtomsOf(t), Fill(t, values))
  {
    if t != [] {
      var s := Fill(t, values);
      match t[0]
      case Literal(text) =>
        FilledIsAccepted(t[1..], values);
        assert s[|text|..] == Fill(t[1..], values);
        AcceptsLiteral(text, AtomsOf(t[1..]), s);
      case Param(_) =>
        var v := values[0];
        FilledIsAccepted(t[1..], values[1..]);
        assert AtomsOf(t)[1..] == AtomsOf(t[1..]);
        assert s[..|v|] == v && s[|v|..] == Fill(t[1..], values[1..]);
    }
  }

  lemma AcceptsExactlyInstances(t: Template, s: string)
    ensures Accepts(AtomsOf(t), s) <==> Instance(t, s)
  {
    if Accepts(AtomsOf(t), s) {
      var values := AcceptedValues(t, s);
    }
    if Instance(t, s) {
      var values :| Fits(t, values) && Fill(t, values) == s;
      FilledIsAccepted(t, values);
    }
  }

  /** Compiling preserves meaning: the registered pattern matches a path exactly when
      the path is the template with every parameter replaced by a non-empty slash-free
      string, up to the one trailing newline that `$` tolerates. */
  lemma CompilePreservesMeaning(t: Template, s: string)
    requires WellFormed(t)
    ensures Matches(Pattern(Spelling(t)), s) <==> Instance(t, s) || Instance(t, Chomp(s))
  {
    var text := Pattern(Spelling(t));
    SubstituteSpelling(t);
    assert text[1..|text| - 1] == BodyOf(t);
    ParseOfBody(t);
    AcceptsExactlyInstances(t, s);
    AcceptsExactlyInstances(t, Chomp(s));
  }

  // ── parameters that fill whole segments ─────────────────────────────────────

  predicate Separated(segments: seq<Part>) {
    && segments != [] && WellFormed(segments)
    && forall i :: 0 <= i < |segments| ==> segments[i].Literal? ==> NoSlash(segments[i].text)
  }

  /** The template whose segments, between slashes, are `segments`. */
  function Slashed(segments: seq<Part>): Template
    requires segments != []
  {
    if |segments| == 1 then segments else [segments[0], Literal("/")] + Slashed(segments[1..])
  }

  predicate SegmentMatches(p: Part, s: string) {
    match p case Literal(text) => s == text case Param(_) => s != "" && NoSlash(s)
  }

  /** Segment-by-segment matching: as many segments as the template has, each equal to
      its literal or, for a parameter, not empty. */
  predicate RouteMatches(segments: seq<Part>, path: string) {
    var parts := Split(path, "/");
    |parts| == |segments| && forall i :: 0 <= i < |segments| ==> SegmentMatches(segments[i], parts[i])
  }

  lemma SlashFree(s: string)
    ensures Contains(s, "/") <==> !NoSlash(s)
  {
    if '/' in s {
      var i :| 0 <= i < |s| && s[i] == '/';
      assert At(s, "/", i);
    }
    if Contains(s, "/") {
      var i: nat :| i <= |s| && At(s, "/", i);
      assert s[i + 0] == "/"[0];
    }
  }

  ghost predicate Chosen(segments: seq<Part>, parts: seq<string>) {
    |parts| == |segments| && forall i :: 0 <= i < |segments| ==> SegmentMatches(segments[i], parts[i])
  }

  lemma InstanceOfOne(p: Part, s: string)
    ensures Instance([p], s) <==> SegmentMatches(p, s)
  {
    var t := [p];
    assert t[1..] == [];
    match p
    case Literal(text) =>
      assert Fits(t, []);
      assert Fill(t, []) == text + "" == text;
    case Param(_) =>
      if SegmentMatches(p, s) {
        assert Fits(t, [s]);
        assert Fill(t, [s]) == s + "" == s;
      }
      if Instance(t, s) {
        var values :| Fits(t, values) && Fill(t, values) == s;
        assert |values| == 1 && Fill(t[1..], values[1..]) == "";
        assert s == values[0] + "" == values[0];
      }
  }

  ghost predicate HeadAt(p: Part, t: Template, s: string, n: nat) {
    n <= |s| && SegmentMatches(p, s[..n]) && Instance(t, s[n..])
  }

  lemma HeadOfInstance(p: Part, t: Template, s: string) returns (n: nat)
    requires Instance([p] + t, s)
    ensures HeadAt(p, t, s, n)
  {
    var u := [p] + t;
    assert u[1..] == t;
    var values :| Fits(u, values) && Fill(u, values) == s;
    match p
    case Literal(text) =>
      n := |text|;
      assert s[..n] == text && s[n..] == Fill(t, values);
    case Param(_) =>
      n := |values[0]|;
      assert s[..n] == values[0] && s[n..] == Fill(t, values[1..]);
      assert Fits(t, values[1..]);
  }

  lemma InstanceOfHead(p: Part, t: Template, s: string, n: nat)
    requires HeadAt(p, t, s, n)
    ensures Instance([p] + t, s)
  {
    var u := [p] + t;
    assert u[1..] == t && s == s[..n] + s[n..];
    var values :| Fits(t, values) && Fill(t, values) == s[n..];
    match p
    case Literal(text) =>
      assert Fits(u, values) && Fill(u, values) == s;
    case Param(_) =>
      var all := [s[..n]] + values;
      assert all[1..] == values;
      assert Fits(u, all) && Fill(u, all) == s;
  }

  lemma {:induction false} SlashedWellFormed(segments: seq<Part>)
    requires Separated(segments)
    ensures WellFormed(Slashed(segments))
  {
    if |segments| > 1 {
      SlashedWellFormed(segments[1..]);
      assert !IsMeta('/');
      assert SafeText("/");
    }
  }

  /** Head and tail of a slashed template, around the slash between them. */
  lemma InstanceOfSegment(p: Part, t: Template, s: string)
    ensures Instance([p, Literal("/")] + t, s) <==> exists n: nat :: CutAt(p, t, s, n)
  {
    var rest := [Literal("/")] + t;
    assert [p, Literal("/")] + t == [p] + rest;
    if Instance([p] + rest, s) {
      var n := HeadOfInstance(p, rest, s);
      var m := HeadOfInstance(Literal("/"), t, s[n..]);
      assert s[n..][..m] == "/" && s[n..][m..] == s[n + 1..] && s[n] == s[n..][0];
      assert CutAt(p, t, s, n);
    }
    if exists n: nat :: CutAt(p, t, s, n) {
      var n: nat :| CutAt(p, t, s, n);
      assert s[n..][..1] == "/" && s[n..][1..] == s[n + 1..];
      InstanceOfHead(Literal("/"), t, s[n..], 1);
      InstanceOfHead(p, rest, s, n);
    }
  }

  ghost predicate CutAt(p: Part, t: Template, s: string, n: nat) {
    n < |s| && SegmentMatches(p, s[..n]) && s[n] == '/' && Instance(t, s[n + 1..])
  }

  /** An instance of a slashed template is a match of each segment, joined by slashes. */
  lemma {:induction false} InstanceParts(segments: seq<Part>, s: string) returns (parts: seq<string>)
    requires Separated(segments) && Instance(Slashed(segments), s)
    ensures Chosen(segments, parts) && Join(parts, "/") == s
  {
    if |segments| == 1 {
      assert segments == [segments[0]];
      InstanceOfOne(segments[0], s);
      parts := [s];
    } else {
      var rest := Slashed(segments[1..]);
      InstanceOfSegment(segments[0], rest, s);
      var n: nat :| CutAt(segments[0], rest, s, n);
      var tail := InstanceParts(segments[1..], s[n + 1..]);
      parts := [s[..n]] + tail;
      assert parts[1..] == tail;
      assert s == s[..n] + "/" + s[n + 1..];
    }
  }

  lemma {:induction false} PartsInstance(segments: seq<Part>, parts: seq<string>)
    requires Separated(segments) && Chosen(segments, parts)
    ensures Instance(Slashed(segments), Join(parts, "/"))
  {
    if |segments| == 1 {
      assert segments == [segments[0]];
      InstanceOfOne(segments[0], parts[0]);
    } else {
      var rest, tail := Slashed(segments[1..]), Join(parts[1..], "/");
      PartsInstance(segments[1..], parts[1..]);
      var s, n := parts[0] + "/" + tail, |parts[0]|;
      assert s[..n] == parts[0] && s[n] == '/' && s[n + 1..] == tail;
      assert CutAt(segments[0], rest, s, n);
      InstanceOfSegment(segments[0], rest, s);
    }
  }

  /** When parameters fill whole segments, matching the pattern is matching segment by
      segment, as a router would. */
  lemma WholeSegments(segments: seq<Part>, path: string)
    requires Separated(segments)
    ensures Instance(Slashed(segments), path) <==> RouteMatches(segments, path)
  {
    JoinOfSplit(path, "/");
    if Instance(Slashed(segments), path) {
      var parts := InstanceParts(segments, path);
      forall i | 0 <= i < |parts|
        ensures !Contains(parts[i], "/")
      {
        SlashFree(parts[i]);
        assert SegmentMatches(segments[i], parts[i]);
      }
      SplitOfJoin(parts, "/");
    }
    if RouteMatches(segments, path) {
      PartsInstance(segments, Split(path, "/"));
    }
  }

  lemma CompiledRouteMatches(segments: seq<Part>, path: string)
    requires Separated(segments)
    ensures Matches(Pattern(Spelling(Slashed(segments))), path)
       <==> RouteMatches(segments, path) || RouteMatches(segments, Chomp(path))
  {
    SlashedWellFormed(segments);
    CompilePreservesMeaning(Slashed(segments), path);
    WholeSegments(segments, path);
    WholeSegments(segments, Chomp(path));
  }
}
