/** The resume protocol of the account-event stream, over whole runs: the core's log, the
    connection the edge opens at `_cursor` and feeds frame by frame, and the EventSource
    client that processes frames, loses connections and comes back. */
module Resume {
  import opened Errors
  import opened Options
  import opened Pump
  import opened Sse

  const EVENT := "event"

  // ── the client ──────────────────────────────────────────────────────────────

  /** An EventSource. `buffer` is its last event ID buffer, `lastEventId` the string it
      resends in the `Last-Event-ID` header. */
  datatype Client = Client(lastEventId: string, buffer: string, seen: seq<Item>, errors: seq<ErrorBody>)

  /** Interpreting one frame: an id field with no NUL, empty or not, sets the buffer, the
      blank line sets the string from the buffer, and a frame with data is dispatched. */
  function Absorb(c: Client, f: Frame): Client {
    var buffer := if f.id.Some? && '\0' !in f.id.value then f.id.value else c.buffer;
    var c' := c.(lastEventId := buffer, buffer := buffer);
    match f.data
    case NoData => c'
    case ItemData(item) => c'.(seen := c.seen + [item])
    case ErrorData(body) => c'.(errors := c.errors + [body])
  }

  // ── the system ──────────────────────────────────────────────────────────────

  /** A connection: the cursor it was opened at, where the core's subscription stands in
      the log, what the edge has emitted on it, the frames in flight, and whether the
      stream has ended. */
  datatype Link = Down | Up(cursor: string, next: nat, sent: seq<Item>, wire: seq<Frame>, ended: bool)

  /** `query` is frozen in the URL. `seeds` says that the client starts the buffer of a
      new connection from its last event id; one that follows the letter of the WHATWG
      HTML Standard, section 9.2.6, starts it empty. `base` is bookkeeping: the log
      position from which the client's view starts. */
  datatype System = System(log: seq<Envelope>, query: string, seeds: bool, client: Client, link: Link, base: nat)

  type Filter = Envelope -> bool

  predicate ValidId(id: string) {
    id != "" && '\0' !in id
  }

  /** One past the position of the event `id` names, or 0 when there is none. */
  function PositionAfter(log: seq<Envelope>, id: string): (p: nat)
    ensures p <= |log|
    ensures p > 0 ==> log[p - 1].id == id
    ensures p == 0 ==> forall i :: 0 <= i < |log| ==> log[i].id != id
  {
    if log == [] then 0
    else if log[|log| - 1].id == id then |log|
    else PositionAfter(log[..|log| - 1], id)
  }

  /** Ids that are sound, and each new to the log when its event was logged. */
  predicate ValidLog(log: seq<Envelope>) {
    log == []
    || (var init, last := log[..|log| - 1], log[|log| - 1];
        ValidLog(init) && ValidId(last.id) && PositionAfter(init, last.id) == 0)
  }

  /** The cursor a connection opened now would carry. */
  function CursorOf(s: System): string {
    Cursor(s.client.lastEventId, s.query)
  }

  /** The cursor that names the client's place: the last event it processed on its
      connection, the cursor its connection was opened at if it has processed none there,
      and between connections the one it would send. */
  function Held(s: System): string {
    Cursor(s.client.lastEventId, if s.link.Up? then s.link.cursor else s.query)
  }

  /** The client's place in the log: the core replays strictly after it. */
  function At(s: System): nat {
    Place(s.log, Held(s), s.base)
  }

  function Place(log: seq<Envelope>, cursor: string, base: nat): nat {
    if cursor == "" then base else PositionAfter(log, cursor)
  }

  /** The events of the log that pass the connection's filters. */
  function Wanted(filter: Filter, log: seq<Envelope>): seq<Item> {
    if log == [] then []
    else
      var last := log[|log| - 1];
      Wanted(filter, log[..|log| - 1]) + if filter(last) then [EventItem(last)] else []
  }

  datatype Step =
    | Append(event: Envelope)          // the core logs an event
    | Connect(start: nat)              // the client connects; with no cursor the core chooses where to start
    | Emit                             // the core's next message, and its frame if it passes the filters
    | End(end: CallEnd<Fault>)         // the source ends and the edge closes the stream
    | Process                          // the client processes the oldest frame in flight
    | Drop                             // the connection goes, with all that is in flight

  predicate Enabled(s: System, step: Step) {
    match step
    case Append(e) => ValidId(e.id) && PositionAfter(s.log, e.id) == 0
    case Connect(start) =>
      s.link.Down? && if CursorOf(s) == "" then start <= |s.log| else PositionAfter(s.log, CursorOf(s)) > 0
    case Emit => s.link.Up? && !s.link.ended && s.link.next < |s.log|
    case End(_) => s.link.Up? && !s.link.ended
    case Process => s.link.Up? && s.link.wire != []
    case Drop => s.link.Up?
  }

  /** The core's next message, and its frame if it passes the filters. */
  function EmitOn(filter: Filter, log: seq<Envelope>, link: Link): Link
    requires link.Up? && link.next < |log|
  {
    var e := log[link.next];
    if filter(e) then
      Up(link.cursor, link.next + 1, link.sent + [EventItem(e)], link.wire + [ItemFrame(EVENT, EventItem(e))], link.ended)
    else link.(next := link.next + 1)
  }

  /** The stream closes, with an error frame if it failed. */
  function EndOn(link: Link, end: CallEnd<Fault>): Link
    requires link.Up?
  {
    link.(wire := link.wire + Closing(end, LastId(link.sent)), ended := true)
  }

  function Do(filter: Filter, s: System, step: Step): System
    requires Enabled(s, step)
  {
    match step
    case Append(e) => s.(log := s.log + [e])
    case Connect(start) =>
      var next := if CursorOf(s) == "" then start else PositionAfter(s.log, CursorOf(s));
      s.(link := Up(CursorOf(s), next, [], [Opening()], false),
         client := s.client.(buffer := if s.seeds then s.client.lastEventId else ""),
         base := if CursorOf(s) == "" then start else s.base)
    case Emit => s.(link := EmitOn(filter, s.log, s.link))
    case End(end) => s.(link := EndOn(s.link, end))
    case Process =>
      s.(link := s.link.(wire := s.link.wire[1..]), client := Absorb(s.client, s.link.wire[0]))
    case Drop => s.(link := Down)
  }

  /** A client that has seen nothing, at a query parameter that is empty or names an
      event of the log. */
  ghost predicate Init(s: System) {
    && ValidLog(s.log) && s.client == Client("", "", [], []) && s.link == Down
    && (s.query != "" ==> PositionAfter(s.log, s.query) > 0)
    && s.base == PositionAfter(s.log, s.query)
  }

  predicate Runs(filter: Filter, s: System, steps: seq<Step>)
    decreases |steps|
  {
    steps == [] || (Enabled(s, steps[0]) && Runs(filter, Do(filter, s, steps[0]), steps[1..]))
  }

  function RunTo(filter: Filter, s: System, steps: seq<Step>): System
    requires Runs(filter, s, steps)
    decreases |steps|
  {
    if steps == [] then s else RunTo(filter, Do(filter, s, steps[0]), steps[1..])
  }

  // ── careful runs ────────────────────────────────────────────────────────────

  /** Losing the connection is harmless: the client holds an event id to come back with,
      or the URL names the place at which the connection was opened. */
  predicate CarefulDrop(s: System) {
    s.link.Up? ==> s.client.lastEventId != "" || s.link.cursor == s.query
  }

  /** Every connection lost on the way is lost carefully. */
  predicate Careful(filter: Filter, s: System, steps: seq<Step>)
    requires Runs(filter, s, steps)
    decreases |steps|
  {
    steps == []
    || ((steps[0].Drop? ==> CarefulDrop(s)) && Careful(filter, Do(filter, s, steps[0]), steps[1..]))
  }

  // ── the invariant ───────────────────────────────────────────────────────────

  /** The events on their way, oldest first. */
  function InFlight(wire: seq<Frame>): seq<Item> {
    if wire == [] then []
    else (if wire[0].data.ItemData? then [wire[0].data.item] else []) + InFlight(wire[1..])
  }

  /** An event's frame carries the event's id, and any other carries none. */
  predicate Faithful(f: Frame) {
    if f.data.ItemData? then f.id.Some? && f.id == GetId(f.data.item) && ValidId(f.id.value) else f.id == None
  }

  predicate AllFaithful(wire: seq<Frame>) {
    wire == [] || (Faithful(wire[0]) && AllFaithful(wire[1..]))
  }

  /** The client's buffer holds its last event id; or the connection is so new that its
      opening frame is still in flight, and the buffer is empty. */
  predicate Settled(client: Client, link: Link)
    requires link.Up?
  {
    client.buffer == client.lastEventId
    || (client.buffer == "" && client.lastEventId == link.cursor && link.wire != [] && link.wire[0] == Opening())
  }

  /** What is in flight is what the core has sent past the client's place. */
  ghost predicate LinkInv(filter: Filter, log: seq<Envelope>, client: Client, at: nat, link: Link) {
    link.Up? ==>
      && at <= link.next <= |log|
      && InFlight(link.wire) == Wanted(filter, log[at..link.next])
      && AllFaithful(link.wire)
      && Settled(client, link)
  }

  predicate Known(log: seq<Envelope>, id: string) {
    id != "" ==> PositionAfter(log, id) > 0
  }

  /** Every cursor in the system names an event of the log. Other than the URL's, it is
      that of an event the client has processed. */
  predicate CursorInv(s: System) {
    && Known(s.log, s.query) && (s.query != "" ==> s.base == PositionAfter(s.log, s.query))
    && Known(s.log, s.client.lastEventId) && (s.client.lastEventId != "" ==> s.client.seen != [])
    && (s.link.Up? ==> Known(s.log, s.link.cursor) && (s.link.cursor != s.query ==> s.client.seen != []))
  }

  /** A seeding client never loses its place. */
  predicate SeedInv(s: System) {
    s.seeds && s.link.Up? ==>
      s.client.buffer == s.client.lastEventId && (s.client.lastEventId == "" ==> s.link.cursor == s.query)
  }

  /** What was processed is the wanted part of the log from `base` to the client's place. */
  ghost predicate ViewInv(filter: Filter, s: System) {
    && ValidLog(s.log) && s.base <= At(s) <= |s.log|
    && s.client.seen == Wanted(filter, s.log[s.base..At(s)])
  }

  ghost predicate Inv(filter: Filter, s: System) {
    && CursorInv(s) && SeedInv(s) && ViewInv(filter, s)
    && LinkInv(filter, s.log, s.client, At(s), s.link)
  }

  /** A client with a cursor has a fixed place in the log. */
  predicate Anchored(s: System) {
    Held(s) != ""
  }

  /** What a step may do to an anchored client's view: extend it, never move it back or
      start it elsewhere. */
  ghost predicate Extends(s: System, s': System) {
    && s.log <= s'.log && s.client.seen <= s'.client.seen
    && (Anchored(s) ==> Anchored(s') && s'.base == s.base && At(s) <= At(s'))
  }

  // ── lemmas on logs ──────────────────────────────────────────────────────────

  /** In a valid log, ids are sound and name one event each. */
  lemma {:induction false} PositionUnique(log: seq<Envelope>, k: nat)
    requires ValidLog(log) && k < |log|
    ensures ValidId(log[k].id) && PositionAfter(log, log[k].id) == k + 1
  {
    if k < |log| - 1 {
      PositionUnique(log[..|log| - 1], k);
      assert log[..|log| - 1][k] == log[k];
    }
  }

  lemma PositionAppend(log: seq<Envelope>, e: Envelope, id: string)
    requires PositionAfter(log, id) > 0 && id != e.id
    ensures PositionAfter(log + [e], id) == PositionAfter(log, id)
  {
    assert (log + [e])[..|log|] == log;
  }

  lemma KnownAppend(log: seq<Envelope>, e: Envelope, id: string)
    requires Known(log, id) && PositionAfter(log, e.id) == 0
    ensures Known(log + [e], id)
    ensures id != "" ==> PositionAfter(log + [e], id) == PositionAfter(log, id)
  {
    if id != "" {
      assert log[PositionAfter(log, id) - 1].id == id;
      PositionAppend(log, e, id);
    }
  }

  lemma WantedAppend(filter: Filter, log: seq<Envelope>, e: Envelope)
    ensures Wanted(filter, log + [e]) == Wanted(filter, log) + if filter(e) then [EventItem(e)] else []
  {
    assert (log + [e])[..|log|] == log;
  }

  lemma {:induction false} WantedConcat(filter: Filter, a: seq<Envelope>, b: seq<Envelope>)
    ensures Wanted(filter, a + b) == Wanted(filter, a) + Wanted(filter, b)
  {
    if b == [] {
      assert a + b == a;
    } else {
      assert (a + b)[..|a + b| - 1] == a + b[..|b| - 1];
      WantedConcat(filter, a, b[..|b| - 1]);
    }
  }

  lemma WantedHead(filter: Filter, log: seq<Envelope>)
    requires log != []
    ensures Wanted(filter, log) == (if filter(log[0]) then [EventItem(log[0])] else []) + Wanted(filter, log[1..])
  {
    assert log == log[..1] + log[1..] && log[..1][..0] == [];
    WantedConcat(filter, log[..1], log[1..]);
  }

  /** The first wanted event of a stretch of the log, with the rest of the stretch. */
  lemma {:induction false} FirstWanted(filter: Filter, log: seq<Envelope>) returns (k: nat)
    requires Wanted(filter, log) != []
    ensures k < |log| && filter(log[k]) && forall i :: 0 <= i < k ==> !filter(log[i])
    ensures Wanted(filter, log[..k + 1]) == [EventItem(log[k])]
    ensures Wanted(filter, log) == [EventItem(log[k])] + Wanted(filter, log[k + 1..])
  {
    WantedHead(filter, log);
    if filter(log[0]) {
      k := 0;
      assert log[..1][..0] == [];
    } else {
      var n := FirstWanted(filter, log[1..]);
      k := n + 1;
      WantedHead(filter, log[..k + 1]);
      assert log[..k + 1][1..] == log[1..][..n + 1] && log[1..][n + 1..] == log[k + 1..];
      assert forall i :: 0 < i <= k ==> log[i] == log[1..][i - 1];
    }
  }

  lemma WantedSplit(filter: Filter, log: seq<Envelope>, i: nat, j: nat, k: nat)
    requires i <= j <= k <= |log|
    ensures Wanted(filter, log[i..k]) == Wanted(filter, log[i..j]) + Wanted(filter, log[j..k])
  {
    assert log[i..k] == log[i..j] + log[j..k];
    WantedConcat(filter, log[i..j], log[j..k]);
  }

  lemma FirstWantedFrom(filter: Filter, log: seq<Envelope>, at: nat, next: nat) returns (p: nat)
    requires at <= next <= |log| && Wanted(filter, log[at..next]) != []
    ensures at < p <= next && filter(log[p - 1]) && forall i :: at <= i < p - 1 ==> !filter(log[i])
    ensures Wanted(filter, log[at..p]) == [EventItem(log[p - 1])]
    ensures Wanted(filter, log[at..next]) == [EventItem(log[p - 1])] + Wanted(filter, log[p..next])
  {
    var stretch := log[at..next];
    var k := FirstWanted(filter, stretch);
    p := at + k + 1;
    assert stretch[..k + 1] == log[at..p] && stretch[k + 1..] == log[p..next];
    assert forall i :: at <= i < next ==> log[i] == stretch[i - at];
  }

  /** Frames put on the wire travel behind the others. */
  lemma {:induction false} InFlightAppend(wire: seq<Frame>, more: seq<Frame>)
    ensures InFlight(wire + more) == InFlight(wire) + InFlight(more)
  {
    if wire == [] {
      assert wire + more == more;
    } else {
      var first := if wire[0].data.ItemData? then [wire[0].data.item] else [];
      assert (wire + more)[1..] == wire[1..] + more;
      InFlightAppend(wire[1..], more);
      Regroup(first, InFlight(wire[1..]), InFlight(more));
    }
  }

  lemma Regroup(a: seq<Item>, b: seq<Item>, c: seq<Item>)
    ensures (a + b) + c == a + (b + c)
  {
  }

  lemma {:induction false} FaithfulAppend(wire: seq<Frame>, more: seq<Frame>)
    requires AllFaithful(wire) && AllFaithful(more)
    ensures AllFaithful(wire + more)
  {
    if wire == [] {
      assert wire + more == more;
    } else {
      assert (wire + more)[1..] == wire[1..] + more;
      FaithfulAppend(wire[1..], more);
    }
  }

  lemma OneOnTheWire(f: Frame)
    ensures InFlight([f]) == if f.data.ItemData? then [f.data.item] else []
    ensures AllFaithful([f]) <==> Faithful(f)
  {
    assert [f][1..] == [];
  }

  // ── every step keeps the invariant ──────────────────────────────────────────

  lemma KeepsAppend(filter: Filter, s: System, e: Envelope)
    requires Inv(filter, s) && Enabled(s, Append(e))
    ensures var s' := Do(filter, s, Append(e)); Inv(filter, s') && Extends(s, s') && At(s') == At(s)
  {
    AppendKeepsPlaces(s, e);
    AppendKeepsStretch(s.log, e, s.base, At(s));
    if s.link.Up? {
      AppendKeepsStretch(s.log, e, At(s), s.link.next);
    }
  }

  lemma AppendKeepsPlaces(s: System, e: Envelope)
    requires CursorInv(s) && Enabled(s, Append(e))
    ensures var s' := s.(log := s.log + [e]); CursorInv(s') && At(s') == At(s)
  {
    KnownAppend(s.log, e, s.query);
    KnownAppend(s.log, e, s.client.lastEventId);
    if s.link.Up? {
      KnownAppend(s.log, e, s.link.cursor);
    }
  }

  lemma AppendKeepsStretch(log: seq<Envelope>, e: Envelope, i: nat, j: nat)
    requires i <= j <= |log|
    ensures (log + [e])[i..j] == log[i..j] && (log + [e])[..|log|] == log
  {
  }

  lemma KeepsConnect(filter: Filter, s: System, start: nat)
    requires Inv(filter, s) && Enabled(s, Connect(start))
    ensures var s' := Do(filter, s, Connect(start)); Inv(filter, s') && Extends(s, s')
  {
    var s' := Do(filter, s, Connect(start));
    OneOnTheWire(Opening());
    assert s'.log[At(s')..s'.link.next] == [];
    if CursorOf(s) == "" {
      assert s.log[s.base..At(s)] == [] && s'.log[s'.base..At(s')] == [];
    }
  }

  lemma OneMoreInFlight(wire: seq<Frame>, item: Item)
    requires AllFaithful(wire) && GetId(item).Some? && ValidId(GetId(item).value)
    ensures AllFaithful(wire + [ItemFrame(EVENT, item)])
    ensures InFlight(wire + [ItemFrame(EVENT, item)]) == InFlight(wire) + [item]
  {
    OneOnTheWire(ItemFrame(EVENT, item));
    InFlightAppend(wire, [ItemFrame(EVENT, item)]);
    FaithfulAppend(wire, [ItemFrame(EVENT, item)]);
  }

  lemma OneMoreWanted(filter: Filter, log: seq<Envelope>, at: nat, next: nat)
    requires at <= next < |log|
    ensures Wanted(filter, log[at..next + 1])
         == Wanted(filter, log[at..next]) + if filter(log[next]) then [EventItem(log[next])] else []
  {
    assert log[at..next + 1] == log[at..next] + [log[next]];
    WantedAppend(filter, log[at..next], log[next]);
  }

  lemma LinkEmit(filter: Filter, log: seq<Envelope>, client: Client, at: nat, link: Link)
    requires LinkInv(filter, log, client, at, link) && link.Up? && link.next < |log| && ValidId(log[link.next].id)
    ensures LinkInv(filter, log, client, at, EmitOn(filter, log, link))
  {
    OneMoreWanted(filter, log, at, link.next);
    if filter(log[link.next]) {
      OneMoreInFlight(link.wire, EventItem(log[link.next]));
    }
  }

  lemma LinkEnd(filter: Filter, log: seq<Envelope>, client: Client, at: nat, link: Link, end: CallEnd<Fault>)
    requires LinkInv(filter, log, client, at, link) && link.Up?
    ensures LinkInv(filter, log, client, at, EndOn(link, end))
  {
    var closing := Closing(end, LastId(link.sent));
    ClosingOnTheWire(end, LastId(link.sent));
    InFlightAppend(link.wire, closing);
    FaithfulAppend(link.wire, closing);
  }

  lemma ClosingOnTheWire(end: CallEnd<Fault>, lastId: string)
    ensures InFlight(Closing(end, lastId)) == [] && AllFaithful(Closing(end, lastId))
  {
    var closing := Closing(end, lastId);
    if closing != [] {
      OneOnTheWire(closing[0]);
      assert closing == [closing[0]];
    }
  }

  /** The oldest event in flight is the first wanted one after `at`: taking it in moves
      the client's place just past it. */
  lemma TakeFirst(filter: Filter, log: seq<Envelope>, base: nat, at: nat, next: nat) returns (p: nat)
    requires ValidLog(log) && base <= at <= next <= |log| && Wanted(filter, log[at..next]) != []
    ensures at < p <= next && PositionAfter(log, log[p - 1].id) == p
    ensures Wanted(filter, log[at..next]) == [EventItem(log[p - 1])] + Wanted(filter, log[p..next])
    ensures Wanted(filter, log[base..p]) == Wanted(filter, log[base..at]) + [EventItem(log[p - 1])]
  {
    p := FirstWantedFrom(filter, log, at, next);
    PositionUnique(log, p - 1);
    WantedSplit(filter, log, base, at, p);
  }

  lemma KeepsProcessEvent(filter: Filter, s: System)
    requires Inv(filter, s) && Enabled(s, Process) && s.link.wire[0].data.ItemData?
    ensures var s' := Do(filter, s, Process); Inv(filter, s') && Extends(s, s')
  {
    var s' := Do(filter, s, Process);
    var item, rest := s.link.wire[0].data.item, InFlight(s.link.wire[1..]);
    assert InFlight(s.link.wire) == [item] + rest;
    var p := TakeFirst(filter, s.log, s.base, At(s), s.link.next);
    assert ([item] + rest)[0] == item == EventItem(s.log[p - 1]);
    assert rest == Wanted(filter, s.log[p..s.link.next]) by {
      assert ([item] + rest)[1..] == rest;
      assert ([EventItem(s.log[p - 1])] + Wanted(filter, s.log[p..s.link.next]))[1..]
          == Wanted(filter, s.log[p..s.link.next]);
    }
    assert Faithful(s.link.wire[0]);
    assert s'.client.lastEventId == s.log[p - 1].id && At(s') == p;
  }

  lemma KeepsProcess(filter: Filter, s: System)
    requires Inv(filter, s) && Enabled(s, Process)
    ensures var s' := Do(filter, s, Process); Inv(filter, s') && Extends(s, s')
  {
    if s.link.wire[0].data.ItemData? {
      KeepsProcessEvent(filter, s);
    } else {
      KeepsProcessOther(filter, s);
    }
  }

  /** A frame that is no event: the place stays, whether or not the client's string does. */
  lemma KeepsProcessOther(filter: Filter, s: System)
    requires Inv(filter, s) && Enabled(s, Process) && !s.link.wire[0].data.ItemData?
    ensures var s' := Do(filter, s, Process); Inv(filter, s') && Extends(s, s')
  {
    var s', wire := Do(filter, s, Process), s.link.wire;
    assert InFlight(wire) == InFlight(wire[1..]) && AllFaithful(wire[1..]) && Faithful(wire[0]);
    AbsorbIdless(s.client, wire[0]);
    assert s'.client.lastEventId == s.client.lastEventId || (s'.client.lastEventId == "" && !s.seeds);
    assert Held(s') == Held(s);
  }

  lemma AbsorbIdless(c: Client, f: Frame)
    requires f.id == None && !f.data.ItemData?
    ensures Absorb(c, f).(errors := c.errors) == c.(lastEventId := c.buffer)
  {
  }

  lemma StepKeepsInv(filter: Filter, s: System, step: Step)
    requires Inv(filter, s) && Enabled(s, step) && (step.Drop? ==> CarefulDrop(s))
    ensures Inv(filter, Do(filter, s, step)) && Extends(s, Do(filter, s, step))
  {
    match step
    case Append(e) => KeepsAppend(filter, s, e);
    case Connect(start) => KeepsConnect(filter, s, start);
    case Emit =>
      PositionUnique(s.log, s.link.next);
      LinkEmit(filter, s.log, s.client, At(s), s.link);
    case End(end) => LinkEnd(filter, s.log, s.client, At(s), s.link, end);
    case Process => KeepsProcess(filter, s);
    case Drop => assert Held(Do(filter, s, Drop)) == Held(s);
  }

  lemma {:induction false} RunKeepsInv(filter: Filter, s: System, steps: seq<Step>)
    requires Inv(filter, s) && Runs(filter, s, steps) && Careful(filter, s, steps)
    ensures Inv(filter, RunTo(filter, s, steps)) && Extends(s, RunTo(filter, s, steps))
    decreases |steps|
  {
    if steps != [] {
      StepKeepsInv(filter, s, steps[0]);
      RunKeepsInv(filter, Do(filter, s, steps[0]), steps[1..]);
    }
  }

  lemma InitHolds(filter: Filter, s: System)
    requires Init(s)
    ensures Inv(filter, s)
  {
    assert s.log[s.base..At(s)] == [];
  }

  // ── exactly once ────────────────────────────────────────────────────────────

  /** Exactly-once delivery. After any careful run of connections, drops, errors and
      replays, what the client has processed is exactly the wanted events of one
      contiguous stretch of the log, from where its view started up to its place, which
      between connections is where the next one would resume: no gap, no duplicate. */
  lemma ExactlyOnce(filter: Filter, s: System, steps: seq<Step>)
    requires Init(s) && Runs(filter, s, steps) && Careful(filter, s, steps)
    ensures var t := RunTo(filter, s, steps);
      && t.base <= At(t) <= |t.log|
      && t.client.seen == Wanted(filter, t.log[t.base..At(t)])
      && (t.link.Down? ==> At(t) == Place(t.log, CursorOf(t), t.base))
      && (s.query != "" ==> t.base == PositionAfter(s.log, s.query))
  {
    InitHolds(filter, s);
    RunKeepsInv(filter, s, steps);
  }

  /** The events of the log, as the client saw them: each with its id, type, aggregate and
      payload, and passing the connection's filters. */
  lemma SeesTheLogsEvents(filter: Filter, s: System, steps: seq<Step>, i: nat) returns (k: nat)
    requires Init(s) && Runs(filter, s, steps) && Careful(filter, s, steps)
    requires i < |RunTo(filter, s, steps).client.seen|
    ensures var t := RunTo(filter, s, steps);
      && t.base <= k < At(t) <= |t.log| && filter(t.log[k])
      && t.client.seen[i]
         == StreamEvent(t.log[k].id, t.log[k].kind, t.log[k].aggregate, t.log[k].aggregateId, t.log[k].payload)
  {
    ExactlyOnce(filter, s, steps);
    var t := RunTo(filter, s, steps);
    var n := WantedSource(filter, t.log[t.base..At(t)], i);
    k := t.base + n;
  }

  /** Cut a careful run in two: from the moment the client is anchored, whether by its first
      processed event or by a query parameter, its view never restarts, its cursor never
      moves back, however old the query parameter has grown, and what it has seen only
      grows. */
  lemma NeverMovesBack(filter: Filter, s: System, before: seq<Step>, after: seq<Step>)
    requires Init(s) && Runs(filter, s, before) && Runs(filter, RunTo(filter, s, before), after)
    requires Careful(filter, s, before) && Careful(filter, RunTo(filter, s, before), after)
    ensures var t := RunTo(filter, s, before); var u := RunTo(filter, t, after);
      && t.client.seen <= u.client.seen
      && (t.client.seen != [] ==> Anchored(t))
      && (Anchored(t) ==> u.base == t.base && At(t) <= At(u))
  {
    InitHolds(filter, s);
    RunKeepsInv(filter, s, before);
    var t := RunTo(filter, s, before);
    RunKeepsInv(filter, t, after);
    assert !Anchored(t) ==> t.log[t.base..At(t)] == [];
  }

  /** Nothing is withheld: a client that has processed all that is in flight, on a
      connection that has caught up with the log, has seen every wanted event since its
      view started. */
  lemma CaughtUp(filter: Filter, s: System, steps: seq<Step>)
    requires Init(s) && Runs(filter, s, steps) && Careful(filter, s, steps)
    requires var t := RunTo(filter, s, steps); t.link.Up? && t.link.wire == [] && t.link.next == |t.log|
    ensures var t := RunTo(filter, s, steps);
            t.base <= |t.log| && t.client.seen == Wanted(filter, t.log[t.base..])
  {
    InitHolds(filter, s);
    RunKeepsInv(filter, s, steps);
    var t := RunTo(filter, s, steps);
    assert InFlight(t.link.wire) == [];
    CaughtUpNow(filter, t.log, t.base, At(t));
  }

  lemma CaughtUpNow(filter: Filter, log: seq<Envelope>, base: nat, at: nat)
    requires base <= at <= |log| && Wanted(filter, log[at..|log|]) == []
    ensures Wanted(filter, log[base..]) == Wanted(filter, log[base..at])
  {
    assert log[base..] == log[base..|log|];
    WantedSplit(filter, log, base, at, |log|);
  }

  lemma {:induction false} WantedSource(filter: Filter, log: seq<Envelope>, i: nat) returns (k: nat)
    requires i < |Wanted(filter, log)|
    ensures k < |log| && filter(log[k]) && Wanted(filter, log)[i] == EventItem(log[k])
  {
    if i < |Wanted(filter, log[..|log| - 1])| {
      k := WantedSource(filter, log[..|log| - 1], i);
    } else {
      k := |log| - 1;
    }
  }

  lemma DistinctIds(log: seq<Envelope>, i: nat, j: nat)
    requires ValidLog(log) && i < j < |log|
    ensures log[i].id != log[j].id
  {
    PositionUnique(log, i);
    PositionUnique(log, j);
  }

  lemma {:induction false} WantedIds(filter: Filter, log: seq<Envelope>)
    requires forall i, j :: 0 <= i < j < |log| ==> log[i].id != log[j].id
    ensures forall i, j :: 0 <= i < j < |Wanted(filter, log)| ==>
              GetId(Wanted(filter, log)[i]) != GetId(Wanted(filter, log)[j])
  {
    if log != [] {
      var init := log[..|log| - 1];
      WantedIds(filter, init);
      forall i | 0 <= i < |Wanted(filter, init)|
        ensures GetId(Wanted(filter, init)[i]) != Some(log[|log| - 1].id)
      {
        var k := WantedSource(filter, init, i);
        assert log[k] == init[k];
      }
    }
  }

  ghost predicate NoTwoAlike(items: seq<Item>) {
    forall i, j :: 0 <= i < j < |items| ==> GetId(items[i]) != GetId(items[j])
  }

  lemma WantedDistinct(filter: Filter, log: seq<Envelope>, base: nat, at: nat)
    requires ValidLog(log) && base <= at <= |log|
    ensures NoTwoAlike(Wanted(filter, log[base..at]))
  {
    forall i, j | 0 <= i < j < at - base
      ensures log[base..at][i].id != log[base..at][j].id
    {
      DistinctIds(log, base + i, base + j);
    }
    WantedIds(filter, log[base..at]);
  }

  /** In particular no event is processed twice. */
  lemma NoDuplicates(filter: Filter, s: System, steps: seq<Step>)
    requires Init(s) && Runs(filter, s, steps) && Careful(filter, s, steps)
    ensures NoTwoAlike(RunTo(filter, s, steps).client.seen)
  {
    InitHolds(filter, s);
    RunKeepsInv(filter, s, steps);
    var t := RunTo(filter, s, steps);
    WantedDistinct(filter, t.log, t.base, At(t));
  }

  /** A client that seeds its buffer is careful whatever happens to it, so all of the
      above holds of every run of such a client. */
  lemma {:induction false} SeededClientsAreCareful(filter: Filter, s: System, steps: seq<Step>)
    requires Init(s) && s.seeds && Runs(filter, s, steps)
    ensures Careful(filter, s, steps)
  {
    InitHolds(filter, s);
    SeededRunsAreCareful(filter, s, steps);
  }

  lemma {:induction false} SeededRunsAreCareful(filter: Filter, s: System, steps: seq<Step>)
    requires Inv(filter, s) && s.seeds && Runs(filter, s, steps)
    ensures Careful(filter, s, steps)
    decreases |steps|
  {
    if steps != [] {
      StepKeepsInv(filter, s, steps[0]);
      SeededRunsAreCareful(filter, Do(filter, s, steps[0]), steps[1..]);
    }
  }

  // ── runs cut and joined ─────────────────────────────────────────────────────

  lemma Prepend(filter: Filter, s: System, step: Step, rest: seq<Step>)
    requires Enabled(s, step) && Runs(filter, Do(filter, s, step), rest)
    ensures Runs(filter, s, [step] + rest)
    ensures RunTo(filter, s, [step] + rest) == RunTo(filter, Do(filter, s, step), rest)
    ensures Careful(filter, s, [step] + rest) <==>
              (step.Drop? ==> CarefulDrop(s)) && Careful(filter, Do(filter, s, step), rest)
  {
    assert ([step] + rest)[1..] == rest;
  }

  lemma {:induction false} Joined(filter: Filter, s: System, a: seq<Step>, b: seq<Step>)
    requires Runs(filter, s, a) && Runs(filter, RunTo(filter, s, a), b)
    ensures Runs(filter, s, a + b) && RunTo(filter, s, a + b) == RunTo(filter, RunTo(filter, s, a), b)
    ensures Careful(filter, s, a + b) <==> Careful(filter, s, a) && Careful(filter, RunTo(filter, s, a), b)
    decreases |a|
  {
    if a == [] {
      assert a + b == b;
    } else {
      var t := Do(filter, s, a[0]);
      Joined(filter, t, a[1..], b);
      Prepend(filter, s, a[0], a[1..] + b);
      assert a + b == [a[0]] + (a[1..] + b);
    }
  }

  lemma {:induction false} CutAt(filter: Filter, s: System, a: seq<Step>, b: seq<Step>)
    requires Runs(filter, s, a + b)
    ensures Runs(filter, s, a) && Runs(filter, RunTo(filter, s, a), b)
    decreases |a|
  {
    if a == [] {
      assert a + b == b;
    } else {
      assert (a + b)[1..] == a[1..] + b;
      CutAt(filter, Do(filter, s, a[0]), a[1..], b);
    }
  }

  lemma {:induction false} NoDropsNoCare(filter: Filter, s: System, steps: seq<Step>)
    requires Runs(filter, s, steps) && Drop !in steps
    ensures Careful(filter, s, steps)
    decreases |steps|
  {
    if steps != [] {
      NoDropsNoCare(filter, Do(filter, s, steps[0]), steps[1..]);
    }
  }

  // ── careless runs ───────────────────────────────────────────────────────────

  /** On a fresh connection, the core sends its way to the next wanted event, `k` events
      further on. */
  lemma {:induction false} EmitTo(filter: Filter, s: System, k: nat) returns (steps: seq<Step>)
    requires s.link.Up? && !s.link.ended && s.link.next + k < |s.log| && filter(s.log[s.link.next + k])
    requires forall i :: s.link.next <= i < s.link.next + k ==> !filter(s.log[i])
    ensures Runs(filter, s, steps) && Drop !in steps
    ensures var t := RunTo(filter, s, steps);
      && t.client == s.client && t.link.Up?
      && t.link.wire == s.link.wire + [ItemFrame(EVENT, EventItem(s.log[s.link.next + k]))]
    decreases k
  {
    var t := Do(filter, s, Emit);
    if k == 0 {
      steps := [Emit];
    } else {
      var rest := EmitTo(filter, t, k - 1);
      Prepend(filter, s, Emit, rest);
      steps := [Emit] + rest;
    }
  }

  /** The client takes in the two frames it is sent. */
  lemma ProcessBoth(filter: Filter, s: System, item: Item)
    requires s.link.Up? && s.link.wire == [Opening(), ItemFrame(EVENT, item)]
    ensures Runs(filter, s, [Process, Process])
    ensures RunTo(filter, s, [Process, Process]).client.seen == s.client.seen + [item]
  {
    var t := Do(filter, s, Process);
    assert t.link.wire == [ItemFrame(EVENT, item)];
    Prepend(filter, t, Process, []);
    Prepend(filter, s, Process, [Process] + []);
    assert [Process] + ([Process] + []) == [Process, Process];
  }

  /** A fresh connection, read up to its first event. */
  lemma ReadTo(filter: Filter, s: System, k: nat) returns (steps: seq<Step>)
    requires s.link.Up? && !s.link.ended && s.link.wire == [Opening()]
    requires s.link.next + k < |s.log| && filter(s.log[s.link.next + k])
    requires forall i :: s.link.next <= i < s.link.next + k ==> !filter(s.log[i])
    ensures Runs(filter, s, steps) && Drop !in steps
    ensures RunTo(filter, s, steps).client.seen == s.client.seen + [EventItem(s.log[s.link.next + k])]
  {
    var sent := EmitTo(filter, s, k);
    ProcessBoth(filter, RunTo(filter, s, sent), EventItem(s.log[s.link.next + k]));
    Joined(filter, s, sent, [Process, Process]);
    steps := sent + [Process, Process];
  }

  /** A client that comes back at the start of a stretch of the log sees the first wanted
      event of that stretch. */
  lemma ReplayFirst(filter: Filter, s: System, at: nat) returns (steps: seq<Step>)
    requires s.link.Down? && s.base <= at <= |s.log| && Wanted(filter, s.log[s.base..at]) != []
    requires if CursorOf(s) == "" then true else PositionAfter(s.log, CursorOf(s)) == s.base > 0
    ensures Runs(filter, s, steps) && Drop !in steps
    ensures RunTo(filter, s, steps).client.seen == s.client.seen + [Wanted(filter, s.log[s.base..at])[0]]
  {
    var p := FirstWantedFrom(filter, s.log, s.base, at);
    var c := Do(filter, s, Connect(s.base));
    var read := ReadTo(filter, c, p - 1 - s.base);
    Prepend(filter, s, Connect(s.base), read);
    steps := [Connect(s.base)] + read;
  }

  /** After a careless drop, a client that merely comes back sees an event again. */
  lemma CarelessDropRepeats(filter: Filter, s: System) returns (more: seq<Step>)
    requires Inv(filter, s) && s.link.Up? && !CarefulDrop(s)
    ensures Drop !in more && Runs(filter, Do(filter, s, Drop), more)
    ensures !NoTwoAlike(RunTo(filter, Do(filter, s, Drop), more).client.seen)
  {
    var t := Do(filter, s, Drop);
    more := ReplayFirst(filter, t, At(s));
    var seen := RunTo(filter, t, more).client.seen;
    assert seen[0] == s.client.seen[0] == seen[|s.client.seen|];
  }

  /** From where `steps` leads, a client that loses no connection sees no event twice. */
  ghost predicate OnceAfter(filter: Filter, s: System, steps: seq<Step>) {
    forall more | Drop !in more && Runs(filter, s, steps + more) ::
      NoTwoAlike(RunTo(filter, s, steps + more).client.seen)
  }

  lemma {:induction false} FirstCareless(filter: Filter, s: System, steps: seq<Step>) returns (n: nat)
    requires Runs(filter, s, steps) && !Careful(filter, s, steps)
    ensures n < |steps| && steps[n] == Drop && Runs(filter, s, steps[..n]) && Careful(filter, s, steps[..n])
    ensures RunTo(filter, s, steps[..n]).link.Up? && !CarefulDrop(RunTo(filter, s, steps[..n]))
    decreases |steps|
  {
    if steps[0].Drop? && !CarefulDrop(s) {
      n := 0;
    } else {
      var m := FirstCareless(filter, Do(filter, s, steps[0]), steps[1..]);
      n := m + 1;
      Prepend(filter, s, steps[0], steps[1..][..m]);
      assert steps[..n] == [steps[0]] + steps[1..][..m];
    }
  }

  /** The exact condition, over every run of every client: it is careful if and only if,
      from wherever it has been, coming back once more repeats nothing. */
  lemma OnceExactlyWhenCareful(filter: Filter, s: System, steps: seq<Step>)
    requires Init(s) && Runs(filter, s, steps)
    ensures Careful(filter, s, steps) <==> forall n | 0 <= n <= |steps| :: OnceAfter(filter, s, steps[..n])
  {
    if Careful(filter, s, steps) {
      forall n | 0 <= n <= |steps|
        ensures OnceAfter(filter, s, steps[..n])
      {
        OnceAfterCareful(filter, s, steps, n);
      }
    } else {
      var n := CarelessShows(filter, s, steps);
    }
  }

  lemma CarelessShows(filter: Filter, s: System, steps: seq<Step>) returns (n: nat)
    requires Init(s) && Runs(filter, s, steps) && !Careful(filter, s, steps)
    ensures n <= |steps| && !OnceAfter(filter, s, steps[..n])
  {
    var m := FirstCareless(filter, s, steps);
    TwiceAfterCareless(filter, s, steps[..m]);
    assert steps[..m + 1] == steps[..m] + [Drop];
    n := m + 1;
  }

  lemma OnceAfterCareful(filter: Filter, s: System, steps: seq<Step>, n: nat)
    requires Init(s) && Runs(filter, s, steps) && Careful(filter, s, steps) && n <= |steps|
    ensures OnceAfter(filter, s, steps[..n])
  {
    forall more | Drop !in more && Runs(filter, s, steps[..n] + more)
      ensures NoTwoAlike(RunTo(filter, s, steps[..n] + more).client.seen)
    {
      CarefulContinuation(filter, s, steps, n, more);
      NoDuplicates(filter, s, steps[..n] + more);
    }
  }

  lemma TwiceAfterCareless(filter: Filter, s: System, before: seq<Step>)
    requires Init(s) && Runs(filter, s, before) && Careful(filter, s, before)
    requires RunTo(filter, s, before).link.Up? && !CarefulDrop(RunTo(filter, s, before))
    ensures !OnceAfter(filter, s, before + [Drop])
  {
    InitHolds(filter, s);
    RunKeepsInv(filter, s, before);
    var t := RunTo(filter, s, before);
    var more := CarelessDropRepeats(filter, t);
    AfterTheDrop(filter, s, before, more);
  }

  lemma AfterTheDrop(filter: Filter, s: System, before: seq<Step>, more: seq<Step>)
    requires Runs(filter, s, before) && RunTo(filter, s, before).link.Up?
    requires Runs(filter, Do(filter, RunTo(filter, s, before), Drop), more)
    ensures Runs(filter, s, before + [Drop] + more)
    ensures RunTo(filter, s, before + [Drop] + more) == RunTo(filter, Do(filter, RunTo(filter, s, before), Drop), more)
  {
    Prepend(filter, RunTo(filter, s, before), Drop, more);
    Joined(filter, s, before, [Drop] + more);
    assert (before + [Drop]) + more == before + ([Drop] + more);
  }

  lemma CarefulContinuation(filter: Filter, s: System, steps: seq<Step>, n: nat, more: seq<Step>)
    requires Runs(filter, s, steps) && Careful(filter, s, steps) && n <= |steps|
    requires Drop !in more && Runs(filter, s, steps[..n] + more)
    ensures Careful(filter, s, steps[..n] + more)
  {
    assert steps == steps[..n] + steps[n..];
    CutAt(filter, s, steps[..n], steps[n..]);
    Joined(filter, s, steps[..n], steps[n..]);
    CutAt(filter, s, steps[..n], more);
    NoDropsNoCare(filter, RunTo(filter, s, steps[..n]), more);
    Joined(filter, s, steps[..n], more);
  }

  // ── what makes a drop careless ──────────────────────────────────────────────

  /** A connection opened by `t`, so far: nothing processed, the opening frame and no
      event, or some event. */
  predicate OnConnection(t: System, u: System, processed: bool) {
    && u.link.Up? && u.link.cursor == CursorOf(t) && u.query == t.query
    && |t.client.seen| <= |u.client.seen|
    && var kept := if t.seeds then t.client.lastEventId else "";
       if |t.client.seen| < |u.client.seen| then u.client.buffer == u.client.lastEventId != ""
       else if processed then u.client.buffer == u.client.lastEventId == kept
       else u.client.lastEventId == t.client.lastEventId && u.client.buffer == kept
            && u.link.wire != [] && u.link.wire[0] == Opening()
  }

  lemma {:induction false} ConnectionGoesOn(filter: Filter, t: System, u: System, processed: bool, steps: seq<Step>)
    requires Inv(filter, u) && OnConnection(t, u, processed) && Runs(filter, u, steps) && Drop !in steps
    ensures OnConnection(t, RunTo(filter, u, steps), processed || Process in steps)
    decreases |steps|
  {
    if steps != [] {
      var v := Do(filter, u, steps[0]);
      StepKeepsInv(filter, u, steps[0]);
      assert Process in steps <==> steps[0].Process? || Process in steps[1..];
      ConnectionStep(filter, t, u, processed, steps[0]);
      ConnectionGoesOn(filter, t, v, processed || steps[0].Process?, steps[1..]);
    }
  }

  lemma ConnectionStep(filter: Filter, t: System, u: System, processed: bool, step: Step)
    requires Inv(filter, u) && OnConnection(t, u, processed) && Enabled(u, step) && !step.Drop?
    ensures OnConnection(t, Do(filter, u, step), processed || step.Process?)
  {
    if step.Process? {
      assert Faithful(u.link.wire[0]);
    }
  }

  /** The opening frame has no id, so processing it sets the last event id from the
      buffer. Over a whole connection: it costs the client its place exactly when the
      client has processed it and no event since, did not seed the buffer, and had come
      with a place other than the URL's. */
  lemma OpeningKeepsTheCursorExactly(filter: Filter, s: System, before: seq<Step>, start: nat, during: seq<Step>)
    requires Init(s) && Runs(filter, s, before) && Careful(filter, s, before)
    requires var t := RunTo(filter, s, before);
             Enabled(t, Connect(start)) && Runs(filter, Do(filter, t, Connect(start)), during) && Drop !in during
    ensures var t := RunTo(filter, s, before); var u := RunTo(filter, Do(filter, t, Connect(start)), during);
            CarefulDrop(u) <==> t.seeds || t.client.lastEventId in {"", t.query} || Process !in during
                                || |t.client.seen| < |u.client.seen|
  {
    InitHolds(filter, s);
    RunKeepsInv(filter, s, before);
    var t := RunTo(filter, s, before);
    var c := Do(filter, t, Connect(start));
    KeepsConnect(filter, t, start);
    ConnectionGoesOn(filter, t, c, false, during);
  }

  /** The log of two events, read past the first by a client whose URL names it. */
  lemma ReadSecond(filter: Filter, s: System, q: Envelope, e: Envelope, rest: seq<Step>) returns (t: System)
    requires s.log == [q, e] && q.id != e.id && ValidId(q.id) && ValidId(e.id) && filter(e)
    requires s.query == q.id && s.client.lastEventId == "" && s.link.Down?
    ensures t.client.seen == s.client.seen + [EventItem(e)] && t.client.lastEventId == e.id
    ensures t.log == s.log && t.query == s.query && t.seeds == s.seeds && t.link.Up?
    ensures Runs(filter, t, rest) ==>
              Runs(filter, s, [Connect(0), Emit, Process, Process] + rest)
              && RunTo(filter, s, [Connect(0), Emit, Process, Process] + rest) == RunTo(filter, t, rest)
  {
    assert PositionAfter([q, e], q.id) == 1 by {
      assert [q, e][..1] == [q];
    }
    var a := Do(filter, s, Connect(0));
    var b := Do(filter, a, Emit);
    var c := Do(filter, b, Process);
    t := Do(filter, c, Process);
    if Runs(filter, t, rest) {
      Prepend(filter, c, Process, rest);
      Prepend(filter, b, Process, [Process] + rest);
      Prepend(filter, a, Emit, [Process] + ([Process] + rest));
      Prepend(filter, s, Connect(0), [Emit] + ([Process] + ([Process] + rest)));
      assert [Connect(0)] + ([Emit] + ([Process] + ([Process] + rest))) == [Connect(0), Emit, Process, Process] + rest;
    }
  }

  /** A concrete careless run, on strict replay alone: the opening frame of a second
      connection wipes the place of a client that does not seed, and the third replays
      from the event the URL still names. */
  lemma UnseededSeesTwice(filter: Filter, q: Envelope, e: Envelope) returns (s: System, steps: seq<Step>)
    requires ValidId(q.id) && ValidId(e.id) && q.id != e.id && filter(e)
    ensures Init(s) && !s.seeds && s.query == q.id && Runs(filter, s, steps)
    ensures RunTo(filter, s, steps).client.seen == [EventItem(e), EventItem(e)]
  {
    assert PositionAfter([q, e], q.id) == 1 && ValidLog([q, e]) by {
      assert [q, e][..1] == [q] && [q][..0] == [];
    }
    s := System([q, e], q.id, false, Client("", "", [], []), Down, 1);
    var again := [Connect(0), Emit, Process, Process] + [];
    var middle := [Drop, Connect(0), Process, Drop] + again;
    var t := ReadSecond(filter, s, q, e, middle);
    var a := Do(filter, t, Drop);
    assert PositionAfter(a.log, e.id) == 2;
    var b := Do(filter, a, Connect(0));
    var c := Do(filter, b, Process);
    var d := Do(filter, c, Drop);
    assert d.client.lastEventId == "" && d.client.seen == [EventItem(e)];
    var u := ReadSecond(filter, d, q, e, []);
    Prepend(filter, c, Drop, again);
    Prepend(filter, b, Process, [Drop] + again);
    Prepend(filter, a, Connect(0), [Process] + ([Drop] + again));
    Prepend(filter, t, Drop, [Connect(0)] + ([Process] + ([Drop] + again)));
    assert [Drop] + ([Connect(0)] + ([Process] + ([Drop] + again))) == middle;
    steps := [Connect(0), Emit, Process, Process] + middle;
  }

  // ── why an empty id is not emitted ──────────────────────────────────────────

  function AbsorbAll(c: Client, frames: seq<Frame>): Client {
    if frames == [] then c else Absorb(AbsorbAll(c, frames[..|frames| - 1]), frames[|frames| - 1])
  }

  lemma {:induction false} IdlessFramesKeepThePlace(c: Client, frames: seq<Frame>)
    requires c.buffer == c.lastEventId && forall i :: 0 <= i < |frames| ==> frames[i].id == None
    ensures AbsorbAll(c, frames).buffer == AbsorbAll(c, frames).lastEventId == c.lastEventId
  {
    if frames != [] {
      IdlessFramesKeepThePlace(c, frames[..|frames| - 1]);
    }
  }

  function DemandSource(events: seq<DemandEvent>, demandId: string, end: CallEnd<Fault>): Source {
    Source(seq(|events|, i requires 0 <= i < |events| => DemandItem(events[i], demandId)), end)
  }

  /** A whole demand stream, however it ends, leaves the client's last event id alone:
      there is nothing to resume from, and none is pretended. */
  lemma DemandStreamHasNoCursor(c: Client, events: seq<DemandEvent>, demandId: string, end: CallEnd<Fault>)
    requires c.buffer == c.lastEventId
    ensures AbsorbAll(c, Frames(DemandSource(events, demandId, end), EVENT)).lastEventId == c.lastEventId
  {
    var source := DemandSource(events, demandId, end);
    var frames := Frames(source, EVENT);
    StreamShape(source, EVENT);
    forall i | 0 <= i < |frames|
      ensures frames[i].id == None
    {
      if 0 < i <= |source.items| {
        assert Shows(frames[i - 1 + 1], EVENT, source.items[i - 1]);
      }
    }
    IdlessFramesKeepThePlace(c, frames);
  }

  /** Each event of a demand is shown in its turn: with the demand for its aggregate id,
      and for its aggregate where the core names none. */
  lemma DemandStreamShowsTheEvents(events: seq<DemandEvent>, demandId: string, end: CallEnd<Fault>, i: nat)
    requires i < |events|
    ensures i + 1 < |Frames(DemandSource(events, demandId, end), EVENT)|
    ensures Frames(DemandSource(events, demandId, end), EVENT)[i + 1].data ==
              ItemData(StreamEvent("", events[i].kind, if events[i].aggregate != "" then events[i].aggregate else "demand",
                                   demandId, events[i].payload))
  {
    var source := DemandSource(events, demandId, end);
    StreamShape(source, EVENT);
    assert Shows(Frames(source, EVENT)[i + 1], EVENT, source.items[i]);
  }

  /** The frame an emitter without the guard on empty ids would send. */
  function UnguardedFrame(name: string, item: Item): Frame {
    Frame(name, GetId(item), ItemData(item), 0)
  }

  /** The guard matters exactly for an item with an empty id, read by a client with a
      place to lose: the unguarded frame wipes it. */
  lemma GuardKeepsThePlaceExactly(c: Client, name: string, item: Item)
    ensures Absorb(c, UnguardedFrame(name, item)) == Absorb(c, ItemFrame(name, item))
            <==> GetId(item) != Some("") || c.buffer == ""
    ensures GetId(item) == Some("") ==> Absorb(c, UnguardedFrame(name, item)).lastEventId == ""
  {
  }
}
