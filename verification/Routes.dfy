/** The route registry (app/platform/security/decorator.py): the walk over the route
    tree, the two tables it fills, and the questions the middleware asks of them. */
module Routes {
  import opened Options
  import opened Templates

  /** The markers of a handler. */
  datatype Endpoint = Endpoint(isPublic: bool, isTokenOnly: bool)

  /** A `routes` attribute, when the object has one. */
  datatype Listing = Absent | Listed(routes: seq<Route>)

  /** An `original_router` attribute, when the object has one. */
  datatype Inner = NoRouter | Router(listing: Listing)

  /** What the walk reads off a route object: where its children may be, and what a leaf
      carries. `methods` is in the order in which its set is iterated. */
  datatype Route = Route(own: Listing, inner: Inner, endpoint: Maybe<Endpoint>, path: string, methods: seq<string>)
  {
    /** The children: `routes` if present, else the inner router's, else none. An empty
        list is as good as none. */
    function Children(): seq<Route>
    {
      match own
      case Listed(rs) => rs
      case Absent =>
        match inner
        case Router(Listed(rs)) => rs
        case _ => []
    }
  }

  /** `_flatten`. */
  function Flatten(routes: seq<Route>): seq<Route> {
    if routes == [] then []
    else
      (if routes[0].Children() != [] then Flatten(routes[0].Children()) else [routes[0]])
      + Flatten(routes[1..])
  }

  // ── the walk visits each leaf once, left to right ───────────────────────────

  /** The route at an address: a child index for every level of the tree. */
  function RouteAt(routes: seq<Route>, address: seq<nat>): Maybe<Route>
    decreases |address|
  {
    if address == [] || address[0] >= |routes| then None
    else if |address| == 1 then Some(routes[address[0]])
    else RouteAt(routes[address[0]].Children(), address[1..])
  }

  predicate IsLeafAddress(routes: seq<Route>, address: seq<nat>) {
    var r := RouteAt(routes, address);
    r.Some? && r.value.Children() == []
  }

  /** Document order of addresses. */
  predicate Precedes(a: seq<nat>, b: seq<nat>)
    decreases |a|
  {
    a != [] && b != [] && (a[0] < b[0] || (a[0] == b[0] && Precedes(a[1..], b[1..])))
  }

  function Under(n: nat, addresses: seq<seq<nat>>): seq<seq<nat>> {
    seq(|addresses|, i requires 0 <= i < |addresses| => [n] + addresses[i])
  }

  function Shift(addresses: seq<seq<nat>>): seq<seq<nat>>
    requires forall i :: 0 <= i < |addresses| ==> addresses[i] != []
  {
    seq(|addresses|, i requires 0 <= i < |addresses| => [addresses[i][0] + 1] + addresses[i][1..])
  }

  /** The addresses the walk goes through, in its order. */
  function Visits(routes: seq<Route>): (vs: seq<seq<nat>>)
    ensures forall i :: 0 <= i < |vs| ==> vs[i] != []
  {
    if routes == [] then []
    else
      (if routes[0].Children() != [] then Under(0, Visits(routes[0].Children())) else [[0]])
      + Shift(Visits(routes[1..]))
  }

  lemma RouteAtShift(routes: seq<Route>, address: seq<nat>)
    requires routes != [] && address != []
    ensures RouteAt(routes, [address[0] + 1] + address[1..]) == RouteAt(routes[1..], address)
  {
    var shifted := [address[0] + 1] + address[1..];
    assert shifted[1..] == address[1..];
    if address[0] < |routes[1..]| {
      assert routes[address[0] + 1] == routes[1..][address[0]];
    }
  }

  lemma RouteAtUnder(routes: seq<Route>, n: nat, address: seq<nat>)
    requires n < |routes| && address != []
    ensures RouteAt(routes, [n] + address) == RouteAt(routes[n].Children(), address)
  {
    assert ([n] + address)[1..] == address;
  }

  /** `addresses` lead to `leaves`, one to one. */
  ghost predicate Addressed(routes: seq<Route>, addresses: seq<seq<nat>>, leaves: seq<Route>) {
    && |addresses| == |leaves|
    && forall i :: 0 <= i < |addresses| ==>
         addresses[i] != [] && RouteAt(routes, addresses[i]) == Some(leaves[i]) && leaves[i].Children() == []
  }

  lemma UnderAddressed(routes: seq<Route>, addresses: seq<seq<nat>>, leaves: seq<Route>)
    requires routes != [] && Addressed(routes[0].Children(), addresses, leaves)
    ensures Addressed(routes, Under(0, addresses), leaves)
  {
    forall i | 0 <= i < |addresses|
      ensures RouteAt(routes, Under(0, addresses)[i]) == Some(leaves[i])
    {
      RouteAtUnder(routes, 0, addresses[i]);
    }
  }

  lemma ShiftAddressed(routes: seq<Route>, addresses: seq<seq<nat>>, leaves: seq<Route>)
    requires routes != [] && Addressed(routes[1..], addresses, leaves)
    ensures Addressed(routes, Shift(addresses), leaves)
  {
    forall i | 0 <= i < |addresses|
      ensures RouteAt(routes, Shift(addresses)[i]) == Some(leaves[i])
    {
      RouteAtShift(routes, addresses[i]);
    }
  }

  lemma AddressedConcat(routes: seq<Route>, a: seq<seq<nat>>, b: seq<seq<nat>>, xs: seq<Route>, ys: seq<Route>)
    requires Addressed(routes, a, xs) && Addressed(routes, b, ys)
    ensures Addressed(routes, a + b, xs + ys)
  {
  }

  lemma {:induction false} VisitsAreTheLeaves(routes: seq<Route>)
    ensures Addressed(routes, Visits(routes), Flatten(routes))
  {
    if routes != [] {
      var children := routes[0].Children();
      var head := if children != [] then Under(0, Visits(children)) else [[0]];
      var leaves := if children != [] then Flatten(children) else [routes[0]];
      if children != [] {
        VisitsAreTheLeaves(children);
        UnderAddressed(routes, Visits(children), leaves);
      }
      VisitsAreTheLeaves(routes[1..]);
      ShiftAddressed(routes, Visits(routes[1..]), Flatten(routes[1..]));
      AddressedConcat(routes, head, Shift(Visits(routes[1..])), leaves, Flatten(routes[1..]));
    }
  }

  lemma InUnder(n: nat, addresses: seq<seq<nat>>, address: seq<nat>)
    requires address in addresses
    ensures [n] + address in Under(n, addresses)
  {
    var i :| 0 <= i < |addresses| && addresses[i] == address;
    assert Under(n, addresses)[i] == [n] + address;
  }

  lemma InShift(addresses: seq<seq<nat>>, address: seq<nat>)
    requires address in addresses && forall i :: 0 <= i < |addresses| ==> addresses[i] != []
    ensures [address[0] + 1] + address[1..] in Shift(addresses)
  {
    var i :| 0 <= i < |addresses| && addresses[i] == address;
    assert Shift(addresses)[i] == [address[0] + 1] + address[1..];
  }

  lemma {:induction false} EveryLeafVisited(routes: seq<Route>, address: seq<nat>)
    requires IsLeafAddress(routes, address)
    ensures address in Visits(routes)
    decreases routes
  {
    var children := routes[0].Children();
    if address[0] > 0 {
      var back: seq<nat> := [address[0] - 1] + address[1..];
      RouteAtShift(routes, back);
      assert [back[0] + 1] + back[1..] == address;
      EveryLeafVisited(routes[1..], back);
      InShift(Visits(routes[1..]), back);
    } else if |address| > 1 {
      assert address == [0] + address[1..];
      RouteAtUnder(routes, 0, address[1..]);
      EveryLeafVisited(children, address[1..]);
      InUnder(0, Visits(children), address[1..]);
    } else {
      assert address == [0];
    }
  }

  predicate InOrder(addresses: seq<seq<nat>>) {
    forall i, j :: 0 <= i < j < |addresses| ==> Precedes(addresses[i], addresses[j])
  }

  lemma UnderInOrder(n: nat, addresses: seq<seq<nat>>)
    requires InOrder(addresses)
    ensures InOrder(Under(n, addresses))
  {
    var vs := Under(n, addresses);
    forall i, j | 0 <= i < j < |vs|
      ensures Precedes(vs[i], vs[j])
    {
      assert vs[i][1..] == addresses[i] && vs[j][1..] == addresses[j];
    }
  }

  lemma ShiftInOrder(addresses: seq<seq<nat>>)
    requires InOrder(addresses) && forall i :: 0 <= i < |addresses| ==> addresses[i] != []
    ensures InOrder(Shift(addresses))
  {
    var vs := Shift(addresses);
    forall i, j | 0 <= i < j < |vs|
      ensures Precedes(vs[i], vs[j])
    {
      assert vs[i][1..] == addresses[i][1..] && vs[j][1..] == addresses[j][1..];
      assert Precedes(addresses[i], addresses[j]);
    }
  }

  lemma InOrderConcat(head: seq<seq<nat>>, tail: seq<seq<nat>>)
    requires InOrder(head) && InOrder(tail)
    requires forall i :: 0 <= i < |head| ==> head[i] != [] && head[i][0] == 0
    requires forall i :: 0 <= i < |tail| ==> tail[i] != [] && tail[i][0] > 0
    ensures InOrder(head + tail)
  {
    forall i, j | 0 <= i < j < |head + tail|
      ensures Precedes((head + tail)[i], (head + tail)[j])
    {
      if j < |head| {
        assert Precedes(head[i], head[j]);
      } else if i >= |head| {
        assert Precedes(tail[i - |head|], tail[j - |head|]);
      } else {
        assert head[i][0] < tail[j - |head|][0];
      }
    }
  }

  lemma {:induction false} VisitsInOrder(routes: seq<Route>)
    ensures InOrder(Visits(routes))
  {
    if routes != [] {
      var children := routes[0].Children();
      var head := if children != [] then Under(0, Visits(children)) else [[0]];
      var tail := Shift(Visits(routes[1..]));
      if children != [] {
        VisitsInOrder(children);
        UnderInOrder(0, Visits(children));
      }
      VisitsInOrder(routes[1..]);
      ShiftInOrder(Visits(routes[1..]));
      InOrderConcat(head, tail);
      assert Visits(routes) == head + tail;
    }
  }

  lemma {:induction false} NeverBeforeItself(a: seq<nat>)
    ensures !Precedes(a, a)
    decreases |a|
  {
    if a != [] {
      NeverBeforeItself(a[1..]);
    }
  }

  /** The walk yields exactly the leaves of the tree, each once, in document order. */
  lemma FlattenVisitsEachLeafOnce(routes: seq<Route>)
    ensures |Visits(routes)| == |Flatten(routes)|
    ensures forall i :: 0 <= i < |Visits(routes)| ==> RouteAt(routes, Visits(routes)[i]) == Some(Flatten(routes)[i])
    ensures forall address :: IsLeafAddress(routes, address) <==> address in Visits(routes)
    ensures forall i, j :: 0 <= i < j < |Visits(routes)| ==>
              Precedes(Visits(routes)[i], Visits(routes)[j]) && Visits(routes)[i] != Visits(routes)[j]
  {
    VisitsAreTheLeaves(routes);
    VisitsInOrder(routes);
    forall address | IsLeafAddress(routes, address)
      ensures address in Visits(routes)
    {
      EveryLeafVisited(routes, address);
    }
    forall i, j | 0 <= i < j < |Visits(routes)|
      ensures Visits(routes)[i] != Visits(routes)[j]
    {
      NeverBeforeItself(Visits(routes)[i]);
    }
  }

  // ── registering ─────────────────────────────────────────────────────────────

  function UpperChar(c: char): char {
    if 'a' <= c <= 'z' then (c as int - 32) as char else c
  }

  /** `str.upper` on an HTTP method, which is ASCII. */
  function Upper(s: string): string {
    seq(|s|, i requires 0 <= i < |s| => UpperChar(s[i]))
  }

  datatype Entry = Entry(verb: string, pattern: string)

  datatype Table = Public | TokenOnly | Neither

  /** The table a leaf belongs to: @public wins over @token_only. */
  function TableOf(leaf: Route): Table {
    match leaf.endpoint
    case None => Neither
    case Some(e) =>
      if leaf.path == "" then Neither
      else if e.isPublic then Public
      else if e.isTokenOnly then TokenOnly
      else Neither
  }

  function EntriesFor(methods: seq<string>, pattern: string): seq<Entry> {
    seq(|methods|, i requires 0 <= i < |methods| => Entry(Upper(methods[i]), pattern))
  }

  lemma EntriesForNext(methods: seq<string>, k: nat, pattern: string)
    requires k < |methods|
    ensures EntriesFor(methods[..k + 1], pattern)
         == EntriesFor(methods[..k], pattern) + [Entry(Upper(methods[k]), pattern)]
  {
  }

  lemma EntriesNext(leaves: seq<Route>, n: nat, table: Table)
    requires n < |leaves|
    ensures Entries(leaves[..n + 1], table) == Entries(leaves[..n], table) + Given(leaves[n], table)
  {
    assert leaves[..n + 1][..n] == leaves[..n];
  }

  /** The entries a leaf gives a table. */
  function Given(leaf: Route, table: Table): seq<Entry> {
    if TableOf(leaf) == table then EntriesFor(leaf.methods, Pattern(leaf.path)) else []
  }

  /** The entries the leaves give a table, in order. */
  function Entries(leaves: seq<Route>, table: Table): seq<Entry> {
    if leaves == [] then []
    else Entries(leaves[..|leaves| - 1], table) + Given(leaves[|leaves| - 1], table)
  }

  predicate Hit(entries: seq<Entry>, verb: string, path: string) {
    exists i :: 0 <= i < |entries| && entries[i].verb == Upper(verb) && Matches(entries[i].pattern, path)
  }

  /** The module's two lists. */
  class Registry {
    var publicPatterns: seq<Entry>
    var tokenOnlyPatterns: seq<Entry>

    constructor ()
      ensures publicPatterns == [] && tokenOnlyPatterns == []
    {
      publicPatterns, tokenOnlyPatterns := [], [];
    }

    /** The loop's body: one leaf, and its methods in turn. */
    method Add(leaf: Route)
      modifies this
      ensures publicPatterns == old(publicPatterns) + Given(leaf, Public)
      ensures tokenOnlyPatterns == old(tokenOnlyPatterns) + Given(leaf, TokenOnly)
    {
      if leaf.endpoint.None? {
        return;
      }
      var e := leaf.endpoint.value;
      if !e.isPublic && !e.isTokenOnly {
        return;
      }
      if leaf.path == "" {
        return;
      }
      var pattern := Pattern(leaf.path);
      ghost var done: seq<Entry> := [];
      for k := 0 to |leaf.methods|
        invariant done == EntriesFor(leaf.methods[..k], pattern)
        invariant publicPatterns == old(publicPatterns) + if e.isPublic then done else []
        invariant tokenOnlyPatterns == old(tokenOnlyPatterns) + if e.isPublic then [] else done
      {
        var entry := Entry(Upper(leaf.methods[k]), pattern);
        EntriesForNext(leaf.methods, k, pattern);
        if e.isPublic {
          publicPatterns := publicPatterns + [entry];
        } else {
          tokenOnlyPatterns := tokenOnlyPatterns + [entry];
        }
        done := done + [entry];
      }
      assert leaf.methods[..|leaf.methods|] == leaf.methods;
    }

    /** `register_public_routes`. The tables it leaves depend on the tree alone, so
        registering again leaves the same ones. */
    method Register(routes: seq<Route>)
      modifies this
      ensures publicPatterns == Entries(Flatten(routes), Public)
      ensures tokenOnlyPatterns == Entries(Flatten(routes), TokenOnly)
    {
      publicPatterns, tokenOnlyPatterns := [], [];
      var leaves := Flatten(routes);
      for n := 0 to |leaves|
        invariant publicPatterns == Entries(leaves[..n], Public)
        invariant tokenOnlyPatterns == Entries(leaves[..n], TokenOnly)
      {
        Add(leaves[n]);
        EntriesNext(leaves, n, Public);
        EntriesNext(leaves, n, TokenOnly);
      }
      assert leaves[..|leaves|] == leaves;
    }

    /** `is_public`. */
    predicate IsPublic(verb: string, path: string)
      reads this
    {
      Hit(publicPatterns, verb, path)
    }

    /** `is_token_only`. */
    predicate IsTokenOnly(verb: string, path: string)
      reads this
    {
      Hit(tokenOnlyPatterns, verb, path)
    }
  }

  /** `leaf` puts `entry` into `table`. */
  predicate Contributes(leaf: Route, table: Table, entry: Entry) {
    && TableOf(leaf) == table && entry.pattern == Pattern(leaf.path)
    && exists k :: 0 <= k < |leaf.methods| && Upper(leaf.methods[k]) == entry.verb
  }

  lemma GivenExactly(leaf: Route, table: Table, entry: Entry)
    ensures entry in Given(leaf, table) <==> Contributes(leaf, table, entry)
  {
    if Contributes(leaf, table, entry) {
      var k :| 0 <= k < |leaf.methods| && Upper(leaf.methods[k]) == entry.verb;
      assert Given(leaf, table)[k] == entry;
    }
  }

  /** A table holds exactly the (method, pattern) pairs of the leaves marked for it. */
  lemma {:induction false} EntriesExactly(leaves: seq<Route>, table: Table, entry: Entry)
    ensures entry in Entries(leaves, table) <==> exists leaf :: leaf in leaves && Contributes(leaf, table, entry)
  {
    if leaves != [] {
      var init, last := leaves[..|leaves| - 1], leaves[|leaves| - 1];
      EntriesExactly(init, table, entry);
      GivenExactly(last, table, entry);
      assert leaves == init + [last];
    }
  }

  /** The public table holds exactly the pairs of public-marked leaves, the token-only
      table exactly those of leaves marked token-only and not public. */
  lemma TablesExactly(routes: seq<Route>, entry: Entry)
    ensures entry in Entries(Flatten(routes), Public) <==>
              exists leaf :: leaf in Flatten(routes) && Contributes(leaf, Public, entry)
                          && leaf.endpoint.value.isPublic
    ensures entry in Entries(Flatten(routes), TokenOnly) <==>
              exists leaf :: leaf in Flatten(routes) && Contributes(leaf, TokenOnly, entry)
                          && leaf.endpoint.value.isTokenOnly && !leaf.endpoint.value.isPublic
  {
    EntriesExactly(Flatten(routes), Public, entry);
    EntriesExactly(Flatten(routes), TokenOnly, entry);
  }

  /** `leaf` serves this request: same method, and the path is its template filled in. */
  ghost predicate Serves(leaf: Route, t: Template, verb: string, path: string) {
    && WellFormed(t) && leaf.path == Spelling(t)
    && (exists k :: 0 <= k < |leaf.methods| && Upper(leaf.methods[k]) == Upper(verb))
    && (Instance(t, path) || Instance(t, Chomp(path)))
  }

  ghost predicate IsTemplate(path: string) {
    exists t :: WellFormed(t) && Spelling(t) == path
  }

  /** `leaf` is marked for the table and serves the request, by the template `t`. */
  ghost predicate Answers(leaf: Route, t: Template, table: Table, verb: string, path: string) {
    TableOf(leaf) == table && Serves(leaf, t, verb, path)
  }

  lemma ServedHits(leaves: seq<Route>, leaf: Route, t: Template, table: Table, verb: string, path: string)
    requires leaf in leaves && Answers(leaf, t, table, verb, path)
    ensures Hit(Entries(leaves, table), verb, path)
  {
    CompilePreservesMeaning(t, path);
    var entry := Entry(Upper(verb), Pattern(leaf.path));
    assert Contributes(leaf, table, entry);
    EntriesExactly(leaves, table, entry);
    var i :| 0 <= i < |Entries(leaves, table)| && Entries(leaves, table)[i] == entry;
  }

  lemma HitIsServed(leaves: seq<Route>, table: Table, verb: string, path: string) returns (leaf: Route, t: Template)
    requires forall l :: l in leaves && TableOf(l) == table ==> IsTemplate(l.path)
    requires Hit(Entries(leaves, table), verb, path)
    ensures leaf in leaves && Answers(leaf, t, table, verb, path)
  {
    var es := Entries(leaves, table);
    var i :| 0 <= i < |es| && es[i].verb == Upper(verb) && Matches(es[i].pattern, path);
    EntriesExactly(leaves, table, es[i]);
    leaf :| leaf in leaves && Contributes(leaf, table, es[i]);
    t :| WellFormed(t) && Spelling(t) == leaf.path;
    CompilePreservesMeaning(t, path);
  }

  /** End to end: after registration a request hits a table exactly when some leaf of
      the tree, marked for that table, serves it. */
  lemma HitExactly(routes: seq<Route>, table: Table, verb: string, path: string)
    requires forall leaf :: leaf in Flatten(routes) && TableOf(leaf) == table ==> IsTemplate(leaf.path)
    ensures Hit(Entries(Flatten(routes), table), verb, path) <==>
              exists leaf, t :: leaf in Flatten(routes) && Answers(leaf, t, table, verb, path)
  {
    if Hit(Entries(Flatten(routes), table), verb, path) {
      var leaf, t := HitIsServed(Flatten(routes), table, verb, path);
    }
    if exists leaf, t :: leaf in Flatten(routes) && Answers(leaf, t, table, verb, path) {
      var leaf, t :| leaf in Flatten(routes) && Answers(leaf, t, table, verb, path);
      ServedHits(Flatten(routes), leaf, t, table, verb, path);
    }
  }

  // ── which requests are exempt, read off the tree ────────────────────────────

  /** `leaf` ends some path down the tree. An object has the children its own `routes`
      lists, or for want of that attribute its inner router's; with none it is a leaf. */
  ghost predicate Leaf(routes: seq<Route>, leaf: Route) {
    exists i :: 0 <= i < |routes| && LeafUnder(routes[i], leaf)
  }

  ghost predicate LeafUnder(r: Route, leaf: Route) {
    match r.own
    case Listed(rs) => if rs == [] then leaf == r else Leaf(rs, leaf)
    case Absent =>
      match r.inner
      case Router(Listed(rs)) => if rs == [] then leaf == r else Leaf(rs, leaf)
      case _ => leaf == r
  }

  lemma {:induction false} FlattenedExactly(routes: seq<Route>, leaf: Route)
    ensures leaf in Flatten(routes) <==> Leaf(routes, leaf)
  {
    if routes != [] {
      var first, rest := routes[0], routes[1..];
      FlattenedExactly(rest, leaf);
      LeafHeadOrRest(routes, leaf);
      if first.Children() != [] {
        FlattenedExactly(first.Children(), leaf);
      }
    }
  }

  lemma LeafHeadOrRest(routes: seq<Route>, leaf: Route)
    requires routes != []
    ensures Leaf(routes, leaf) <==> LeafUnder(routes[0], leaf) || Leaf(routes[1..], leaf)
  {
    if Leaf(routes[1..], leaf) {
      var i :| 0 <= i < |routes[1..]| && LeafUnder(routes[1..][i], leaf);
      assert LeafUnder(routes[i + 1], leaf);
    }
    if Leaf(routes, leaf) && !LeafUnder(routes[0], leaf) {
      var i :| 0 <= i < |routes| && LeafUnder(routes[i], leaf);
      assert LeafUnder(routes[1..][i - 1], leaf);
    }
  }

  /** The same method, small or capital letters aside. */
  predicate SameMethod(a: string, b: string) {
    && |a| == |b|
    && forall i :: 0 <= i < |a| ==>
         || a[i] == b[i]
         || ('a' <= a[i] <= 'z' && b[i] as int == a[i] as int - 32)
         || ('a' <= b[i] <= 'z' && a[i] as int == b[i] as int - 32)
  }

  lemma UpperExactly(a: string, b: string)
    ensures Upper(a) == Upper(b) <==> SameMethod(a, b)
  {
    if |a| == |b| {
      forall i | 0 <= i < |a|
        ensures Upper(a)[i] == Upper(b)[i] <==>
                  || a[i] == b[i]
                  || ('a' <= a[i] <= 'z' && b[i] as int == a[i] as int - 32)
                  || ('a' <= b[i] <= 'z' && a[i] as int == b[i] as int - 32)
      {
      }
      assert (forall i :: 0 <= i < |a| ==> Upper(a)[i] == Upper(b)[i]) ==> Upper(a) == Upper(b);
    }
  }

  /** The leaf lists the method, and has a template that the path fills in, `$` minding
      no newline at its end. */
  ghost predicate Takes(leaf: Route, verb: string, path: string) {
    && (exists k :: 0 <= k < |leaf.methods| && SameMethod(leaf.methods[k], verb))
    && exists t :: WellFormed(t) && Spelling(t) == leaf.path && (Instance(t, path) || Instance(t, Chomp(path)))
  }

  lemma ServesIsTakes(leaf: Route, verb: string, path: string)
    ensures Takes(leaf, verb, path) <==> exists t :: Serves(leaf, t, verb, path)
  {
    forall k | 0 <= k < |leaf.methods|
      ensures Upper(leaf.methods[k]) == Upper(verb) <==> SameMethod(leaf.methods[k], verb)
    {
      UpperExactly(leaf.methods[k], verb);
    }
    if Takes(leaf, verb, path) {
      var k :| 0 <= k < |leaf.methods| && SameMethod(leaf.methods[k], verb);
      assert Upper(leaf.methods[k]) == Upper(verb);
      var t :| WellFormed(t) && Spelling(t) == leaf.path && (Instance(t, path) || Instance(t, Chomp(path)));
      assert Serves(leaf, t, verb, path);
    }
  }

  /** Every path that a marked leaf carries is the spelling of a template. */
  ghost predicate TemplatesOnly(routes: seq<Route>) {
    forall leaf :: Leaf(routes, leaf) && leaf.endpoint.Some?
                   && (leaf.endpoint.value.isPublic || leaf.endpoint.value.isTokenOnly) && leaf.path != ""
                   ==> IsTemplate(leaf.path)
  }

  /** A leaf that carries a marker and takes the request. */
  ghost predicate MarkedPublic(routes: seq<Route>, leaf: Route, verb: string, path: string) {
    && Leaf(routes, leaf) && leaf.endpoint.Some? && leaf.endpoint.value.isPublic
    && leaf.path != "" && Takes(leaf, verb, path)
  }

  ghost predicate MarkedTokenOnly(routes: seq<Route>, leaf: Route, verb: string, path: string) {
    && Leaf(routes, leaf) && leaf.endpoint.Some? && leaf.endpoint.value.isTokenOnly && !leaf.endpoint.value.isPublic
    && leaf.path != "" && Takes(leaf, verb, path)
  }

  /** The queries of a registry filled from a tree, read off the tree: `is_public` says
      yes exactly when a leaf marked public, with a path, takes the request, and
      `is_token_only` exactly when one marked token-only and not public does. */
  lemma QueriesExactly(registry: Registry, routes: seq<Route>, verb: string, path: string)
    requires registry.publicPatterns == Entries(Flatten(routes), Public)
    requires registry.tokenOnlyPatterns == Entries(Flatten(routes), TokenOnly)
    requires TemplatesOnly(routes)
    ensures registry.IsPublic(verb, path) <==> exists leaf :: MarkedPublic(routes, leaf, verb, path)
    ensures registry.IsTokenOnly(verb, path) <==> exists leaf :: MarkedTokenOnly(routes, leaf, verb, path)
  {
    forall leaf: Route
      ensures leaf in Flatten(routes) <==> Leaf(routes, leaf)
      ensures Takes(leaf, verb, path) <==> exists t :: Serves(leaf, t, verb, path)
    {
      FlattenedExactly(routes, leaf);
      ServesIsTakes(leaf, verb, path);
    }
    HitExactly(routes, Public, verb, path);
    HitExactly(routes, TokenOnly, verb, path);
    PublicAnswers(routes, verb, path);
    TokenOnlyAnswers(routes, verb, path);
  }

  lemma PublicAnswers(routes: seq<Route>, verb: string, path: string)
    requires forall leaf :: leaf in Flatten(routes) <==> Leaf(routes, leaf)
    requires forall leaf :: Takes(leaf, verb, path) <==> exists t :: Serves(leaf, t, verb, path)
    ensures (exists leaf, t :: leaf in Flatten(routes) && Answers(leaf, t, Public, verb, path)) <==>
              exists leaf :: MarkedPublic(routes, leaf, verb, path)
  {
    if leaf :| MarkedPublic(routes, leaf, verb, path) {
      var t :| Serves(leaf, t, verb, path);
      assert Answers(leaf, t, Public, verb, path);
    }
    if leaf, t :| leaf in Flatten(routes) && Answers(leaf, t, Public, verb, path) {
      assert MarkedPublic(routes, leaf, verb, path);
    }
  }

  lemma TokenOnlyAnswers(routes: seq<Route>, verb: string, path: string)
    requires forall leaf :: leaf in Flatten(routes) <==> Leaf(routes, leaf)
    requires forall leaf :: Takes(leaf, verb, path) <==> exists t :: Serves(leaf, t, verb, path)
    ensures (exists leaf, t :: leaf in Flatten(routes) && Answers(leaf, t, TokenOnly, verb, path)) <==>
              exists leaf :: MarkedTokenOnly(routes, leaf, verb, path)
  {
    if leaf :| MarkedTokenOnly(routes, leaf, verb, path) {
      var t :| Serves(leaf, t, verb, path);
      assert Answers(leaf, t, TokenOnly, verb, path);
    }
    if leaf, t :| leaf in Flatten(routes) && Answers(leaf, t, TokenOnly, verb, path) {
      assert MarkedTokenOnly(routes, leaf, verb, path);
    }
  }
}
