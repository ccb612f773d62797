/** Server-sent events (`_sse_events`, `_error`, `_opening` and `_cursor`,
    app/routers/stream.py): the use case's items as frames, with no error escaping. */
module Sse {
  import opened Errors
  import opened Options
  import opened Pump
  import Grouping

  /** What a use case emits: `StreamEvent`, `LogLine` or `AttentionUpdate`. */
  datatype Item =
    | StreamEvent(id: string, kind: string, aggregate: string, aggregateId: string, payload: string)
    | LogLine(source: string, service: string, line: string)
    | AttentionUpdate(id: string, change: string, subject: Grouping.AttentionItem)

  /** `data.get("id")`: a log line has no such field. */
  function GetId(item: Item): Maybe<string> {
    match item
    case StreamEvent(id, _, _, _, _) => Some(id)
    case AttentionUpdate(id, _, _) => Some(id)
    case LogLine(_, _, _) => None
  }

  /** An empty id is as good as none. */
  function EventId(item: Item): Maybe<string> {
    if GetId(item) == Some("") then None else GetId(item)
  }

  /** An event of the account's log, as the core sends it. */
  datatype Envelope = Envelope(id: string, kind: string, aggregate: string, aggregateId: string, payload: string)

  /** An event of one demand, which the core sends with no id. */
  datatype DemandEvent = DemandEvent(kind: string, aggregate: string, payload: string)

  /** `_event`. */
  function EventItem(env: Envelope): Item {
    StreamEvent(env.id, env.kind, env.aggregate, env.aggregateId, env.payload)
  }

  /** `_demand_event`: no id is invented. */
  function DemandItem(ev: DemandEvent, demandId: string): Item {
    StreamEvent("", ev.kind, if ev.aggregate != "" then ev.aggregate else "demand", demandId, ev.payload)
  }

  /** A source of items, as its consumer finds it: what comes, then how it ends. */
  datatype Source = Source(items: seq<Item>, end: CallEnd<Fault>)

  /** The pump over a call, seen as a source. */
  function SourceOf<M>(messages: seq<M>, end: CallEnd<Fault>, translate: M -> Translated<Item, Fault>): Source {
    Source(seq(Translatable(messages, translate), i requires 0 <= i < Translatable(messages, translate) =>
             translate(messages[i]).value),
           Ending(messages, end, translate))
  }

  /** The ending is one the stream must report: an `Exception`. */
  predicate Failed(end: CallEnd<Fault>) {
    end.Breaks? && !end.error.Cancelled?
  }

  datatype ErrorBody = ErrorBody(status: int, code: StatusCode, detail: string, retryable: bool, sinceEventId: string)

  datatype Data = NoData | ItemData(item: Item) | ErrorData(error: ErrorBody)

  /** A `ServerSentEvent`; an empty `event` is an absent one. An empty `id` is not: it
      goes down the wire, and empties the client's buffer. */
  datatype Frame = Frame(event: string, id: Maybe<string>, data: Data, retry: nat)

  const ERROR := "error"
  const RECONNECT := "the connection was closed by the core; reconnect with since_event_id"
  const RETRY_MS := 3000

  predicate Retryable(code: StatusCode) {
    code in {UNAVAILABLE, DEADLINE_EXCEEDED, RESOURCE_EXHAUSTED, ABORTED}
  }

  function Opening(): Frame {
    Frame("", None, NoData, RETRY_MS)
  }

  function ItemFrame(name: string, item: Item): Frame {
    Frame(name, EventId(item), ItemData(item), 0)
  }

  /** `_error`. */
  function ErrorFrame(e: CoreError, lastId: string): Frame {
    var status := HttpStatusFor(e.code);
    var detail := if Retryable(e.code) && status >= 500 then RECONNECT else DetailFor(e, status);
    Frame(ERROR, None, ErrorData(ErrorBody(status, e.code, detail, Retryable(e.code), lastId)), 0)
  }

  /** The frame for a failure of the edge's own. */
  function FailureFrame(lastId: string): Frame {
    Frame(ERROR, None, ErrorData(ErrorBody(500, INTERNAL, INTERNAL_ERROR, false, lastId)), 0)
  }

  /** The last non-empty id among the items, or empty. */
  function LastId(items: seq<Item>): string {
    if items == [] then ""
    else if EventId(items[|items| - 1]).Some? then EventId(items[|items| - 1]).value
    else LastId(items[..|items| - 1])
  }

  function Closing(end: CallEnd<Fault>, lastId: string): seq<Frame> {
    match end
    case Exhausted => []
    case Breaks(Cancelled) => []
    case Breaks(Core(e)) => [ErrorFrame(e, lastId)]
    case Breaks(_) => [FailureFrame(lastId)]
  }

  function ItemFrames(name: string, items: seq<Item>): seq<Frame> {
    seq(|items|, i requires 0 <= i < |items| => ItemFrame(name, items[i]))
  }

  /** Everything a consumer that reads to the end receives. */
  function Frames(source: Source, name: string): seq<Frame> {
    [Opening()] + ItemFrames(name, source.items) + Closing(source.end, LastId(source.items))
  }

  /** `_sse_events` over a pump, read by a consumer that goes away after `patience`
      frames; the abandoned pump is then finalized. `escaped` is an exception that left
      the generator. However long the consumer stays it receives a prefix of the
      stream's frames, and the core's call ends up cancelled, once, if the consumer asked
      for anything past the opening frame, and not at all otherwise. */
  method SseEvents<M>(pump: Generator<M, Item, Fault>, name: string, patience: nat)
    returns (frames: seq<Frame>, escaped: bool)
    requires pump.Now() == START
    modifies pump, pump.call
    ensures var all := Frames(SourceOf(pump.call.messages, pump.call.end, pump.translate), name);
            frames == if patience <= |all| then all[..patience] else all
    ensures var source := SourceOf(pump.call.messages, pump.call.end, pump.translate);
            escaped <==> source.end == Breaks(Cancelled) && patience > |source.items| + 1
    ensures pump.call.cancels == if patience >= 2 then 1 else 0
  {
    frames, escaped := [], false;
    if patience > 0 {
      frames, escaped := FramesOf(pump, name, patience);
    }
    pump.Finalize();
  }

  lemma OneMoreFrame(name: string, items: seq<Item>, n: nat)
    requires n < |items|
    ensures ItemFrames(name, items[..n + 1]) == ItemFrames(name, items[..n]) + [ItemFrame(name, items[n])]
    ensures LastId(items[..n + 1]) == if EventId(items[n]).Some? then EventId(items[n]).value else LastId(items[..n])
  {
    assert items[..n + 1][..n] == items[..n];
  }

  /** The first frames of a stream are the opening and the first items'. */
  lemma FirstFrames(source: Source, name: string, n: nat)
    requires n <= |source.items|
    ensures Frames(source, name)[..n + 1] == [Opening()] + ItemFrames(name, source.items[..n])
  {
    assert ItemFrames(name, source.items[..n]) == ItemFrames(name, source.items)[..n];
  }

  /** The generator's body, for a consumer that asks at least once. */
  method FramesOf<M>(pump: Generator<M, Item, Fault>, name: string, patience: nat)
    returns (frames: seq<Frame>, escaped: bool)
    requires pump.Now() == START && patience > 0
    modifies pump, pump.call
    ensures var all := Frames(SourceOf(pump.call.messages, pump.call.end, pump.translate), name);
            frames == if patience <= |all| then all[..patience] else all
    ensures var source := SourceOf(pump.call.messages, pump.call.end, pump.translate);
            escaped <==> source.end == Breaks(Cancelled) && patience > |source.items| + 1
    ensures pump.phase == Created <==> patience == 1
    ensures pump.call.cancels == if pump.phase == Finished then 1 else 0
  {
    ghost var source := SourceOf(pump.call.messages, pump.call.end, pump.translate);
    var lastId := "";
    escaped := false;
    frames := [Opening()];
    ghost var n := 0;
    while |frames| < patience
      invariant n <= |source.items| && |frames| == n + 1 <= patience
      invariant frames == [Opening()] + ItemFrames(name, source.items[..n])
      invariant lastId == LastId(source.items[..n])
      invariant pump.phase == (if n == 0 then Created else Suspended)
      invariant pump.call.taken == n && pump.call.cancels == 0
      decreases |source.items| - n
    {
      var out := pump.Next();
      match out {
        case Yields(item) =>
          OneMoreFrame(name, source.items, n);
          var eventId := GetId(item);
          if eventId == Some("") {
            eventId := None;
          }
          if eventId.Some? {
            lastId := eventId.value;
          }
          frames := frames + [Frame(name, eventId, ItemData(item), 0)];
          n := n + 1;
        case Stops =>
          assert source.items[..n] == source.items && source.end == Exhausted;
          return;
        case Raises(fault) =>
          assert source.items[..n] == source.items && source.end == Breaks(fault);
          if fault.Core? {
            frames := frames + [ErrorFrame(fault.error, lastId)];
          } else if fault.Cancelled? {
            escaped := true;
          } else {
            frames := frames + [FailureFrame(lastId)];
          }
          return;
      }
    }
    FirstFrames(source, name, n);
  }

  predicate IsError(f: Frame) {
    f.data.ErrorData?
  }

  lemma {:induction false} LastIdMeaning(items: seq<Item>)
    ensures LastId(items) == "" ==> forall i :: 0 <= i < |items| ==> EventId(items[i]) == None
    ensures LastId(items) != "" ==>
              exists i :: 0 <= i < |items| && EventId(items[i]) == Some(LastId(items))
                       && forall j :: i < j < |items| ==> EventId(items[j]) == None
  {
    if items != [] {
      var init := items[..|items| - 1];
      LastIdMeaning(init);
      if EventId(items[|items| - 1]) == None {
        if LastId(init) != "" {
          var i :| 0 <= i < |init| && EventId(init[i]) == Some(LastId(init))
                   && forall j :: i < j < |init| ==> EventId(init[j]) == None;
          assert EventId(items[i]) == Some(LastId(items));
        }
      } else {
        assert EventId(items[|items| - 1]) == Some(LastId(items));
      }
    }
  }

  /** A frame that shows `item` under `name`: its id field is there exactly when the item
      has an id that is not empty, and holds it. */
  predicate Shows(f: Frame, name: string, item: Item) {
    && f.data == ItemData(item) && f.event == name && f.retry == 0
    && (f.id.Some? <==> GetId(item).Some? && GetId(item).value != "")
    && (f.id.Some? ==> f.id == GetId(item))
  }

  /** The shape of a stream: one opening frame and no other; then one frame per item, in
      order, carrying its id exactly when it has one; then at most one error frame,
      there exactly when the source failed, and last. No frame carries an empty id. */
  lemma StreamShape(source: Source, name: string)
    ensures var fs, n := Frames(source, name), |source.items|;
      && |fs| == n + (if Failed(source.end) then 2 else 1)
      && fs[0] == Opening()
    ensures forall i :: 0 <= i < |source.items| ==> Shows(Frames(source, name)[i + 1], name, source.items[i])
    ensures forall i :: 0 <= i < |Frames(source, name)| ==>
              (IsError(Frames(source, name)[i]) <==> i == |source.items| + 1)
    ensures |Frames(source, name)| == |source.items| + 2 ==>
              var last := Frames(source, name)[|source.items| + 1]; last.event == ERROR && last.id == None
    ensures forall i :: 0 <= i < |Frames(source, name)| ==> Frames(source, name)[i].id != Some("")
  {
    var fs, n := Frames(source, name), |source.items|;
    var closing := Closing(source.end, LastId(source.items));
    forall i | 0 <= i < n
      ensures fs[i + 1] == ItemFrame(name, source.items[i])
    {
      assert fs[i + 1] == ItemFrames(name, source.items)[i];
    }
    forall i | 0 <= i < |fs|
      ensures (IsError(fs[i]) <==> i == n + 1) && fs[i].id != Some("")
    {
      if 0 < i <= n {
        assert fs[i - 1 + 1] == ItemFrame(name, source.items[i - 1]);
      } else if i > n {
        assert fs[i] == closing[i - n - 1];
      }
    }
    if closing != [] {
      assert fs[n + 1] == closing[0];
    }
  }

  /** The error frame names the core's code and its HTTP image, invites a retry exactly
      for the four retryable codes, and says where the connection stood. The core's own
      text goes out only for a code that blames the client. */
  lemma ErrorFrameMeaning(source: Source, name: string)
    requires Failed(source.end)
    ensures var fs := Frames(source, name); var f := fs[|fs| - 1];
      && IsError(f) && f.data.error.sinceEventId == LastId(source.items)
      && (!source.end.error.Core? ==>
            f.data.error.(sinceEventId := "") == ErrorBody(500, INTERNAL, INTERNAL_ERROR, false, ""))
      && (source.end.error.Core? ==>
            var e := source.end.error.error; var body := f.data.error;
            && body.code == e.code && body.status == HttpStatusFor(e.code)
            && (body.retryable <==> e.code in {UNAVAILABLE, DEADLINE_EXCEEDED, RESOURCE_EXHAUSTED, ABORTED})
            && body.detail ==
                 if e.code in {UNAVAILABLE, DEADLINE_EXCEEDED} then RECONNECT
                 else if e.code in {CANCELLED, UNKNOWN, OUT_OF_RANGE, UNIMPLEMENTED, INTERNAL, DATA_LOSS}
                 then "internal error"
                 else if e.details != "" then e.details else "core error")
  {
    if source.end.error.Core? {
      ServerFaultsByName(source.end.error.error.code);
    }
    var fs := Frames(source, name);
    assert fs[|fs| - 1] == Closing(source.end, LastId(source.items))[0];
  }

  // ── the resume cursor ───────────────────────────────────────────────────────

  /** `_cursor`: the header beats the query parameter. */
  function Cursor(lastEventId: string, sinceEventId: string): string {
    if lastEventId != "" then lastEventId else sinceEventId
  }

  /** The error body offers its `since_event_id` as the place to resume from. For a
      connection opened at `cursor` it is that place, the last id seen by whoever
      processed every frame, exactly when the connection emitted an id or had no cursor
      to lose: the generator does not start from the request's cursor. */
  lemma ErrorBodyResumesExactly(source: Source, name: string, cursor: string)
    requires Failed(source.end)
    ensures var fs := Frames(source, name);
            fs[|fs| - 1].data.ErrorData?
            && (fs[|fs| - 1].data.error.sinceEventId == Cursor(LastId(source.items), cursor)
                <==> cursor == "" || exists i :: 0 <= i < |source.items| && EventId(source.items[i]).Some?)
  {
    ErrorFrameMeaning(source, name);
    LastIdMeaning(source.items);
  }

  /** The smallest case: the core drops a subscriber that resumed at `cursor` before
      anything new happens, and the error body forgets the cursor. */
  lemma ADroppedSubscriberIsToldToStartOver(cursor: string)
    requires cursor != ""
    ensures var fs := Frames(Source([], Breaks(Core(CoreError(UNAVAILABLE, "slow")))), "event");
            fs[1].data.ErrorData? && fs[1].data.error.retryable && fs[1].data.error.sinceEventId == "" != cursor
  {
    ErrorFrameMeaning(Source([], Breaks(Core(CoreError(UNAVAILABLE, "slow")))), "event");
  }
}
