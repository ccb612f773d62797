/** The two ports over the same stream: server-sent events (app/routers/stream.py) and the
    gRPC interceptor stack (app/grpcapi/interceptors.py). */
module Parity {
  import opened Errors
  import opened Options
  import opened Pump
  import opened Servicers
  import opened Sse
  import opened Authentication
  import opened Interceptors

  /** The servicer's generator over a source: one message per item, then the source's own
      ending. */
  function SourceHandler(source: Source): Handler<Message> {
    (seen: Seen, k: nat) =>
      if k < |source.items| then Yields(Copy(source.items[k]))
      else if k == |source.items| && source.end.Breaks? then Raises(source.end.error)
      else Stops
  }

  /** The items a client finds in a run of frames. */
  function ItemsShown(frames: seq<Frame>): seq<Item> {
    if frames == [] then []
    else
      var last := frames[|frames| - 1];
      ItemsShown(frames[..|frames| - 1]) + if last.data.ItemData? then [last.data.item] else []
  }

  function Min(a: nat, b: nat): nat {
    if a < b then a else b
  }

  lemma {:induction false} LeadingItems(source: Source, seen: Seen, n: nat)
    ensures Leading(SourceHandler(source), seen, n) == Min(n, |source.items|)
  {
    if n > 0 {
      LeadingItems(source, seen, n - 1);
    }
  }

  lemma {:induction false} ShownConcat(a: seq<Frame>, b: seq<Frame>)
    ensures ItemsShown(a + b) == ItemsShown(a) + ItemsShown(b)
  {
    if b == [] {
      assert a + b == a;
    } else {
      assert (a + b)[..|a + b| - 1] == a + b[..|b| - 1];
      ShownConcat(a, b[..|b| - 1]);
    }
  }

  lemma {:induction false} ShownItemFrames(name: string, items: seq<Item>)
    ensures ItemsShown(ItemFrames(name, items)) == items
  {
    if items != [] {
      var init := items[..|items| - 1];
      assert ItemFrames(name, items)[..|items| - 1] == ItemFrames(name, init);
      ShownItemFrames(name, init);
    }
  }

  lemma ShownItems(source: Source, name: string, n: nat)
    requires 0 < n <= |Frames(source, name)|
    ensures ItemsShown(Frames(source, name)[..n]) == source.items[..Min(n - 1, |source.items|)]
  {
    var m := Min(n - 1, |source.items|);
    var closing := Closing(source.end, LastId(source.items));
    var rest := closing[..n - 1 - m];
    assert Frames(source, name)[..n] == ([Opening()] + ItemFrames(name, source.items[..m])) + rest;
    ShownConcat([Opening()] + ItemFrames(name, source.items[..m]), rest);
    ShownAfterOpening(name, source.items[..m]);
    assert ItemsShown(rest) == [];
  }

  lemma ShownAfterOpening(name: string, items: seq<Item>)
    ensures ItemsShown([Opening()] + ItemFrames(name, items)) == items
  {
    ShownConcat([Opening()], ItemFrames(name, items));
    ShownItemFrames(name, items);
    assert ItemsShown([Opening()]) == [];
  }

  function Copies(items: seq<Item>): seq<Message> {
    seq(|items|, i requires 0 <= i < |items| => Copy(items[i]))
  }

  /** Same items: a gRPC client that takes `n` items, if there are as many, has received
      the copies of what an SSE client finds in the opening frame and the `n` after it. */
  lemma SameItems(source: Source, seen: Seen, name: string, n: nat)
    ensures var fs := Frames(source, name);
            ItemsWithin(SourceHandler(source), seen, n) == Copies(ItemsShown(fs[..Min(n + 1, |fs|)]))
  {
    var fs := Frames(source, name);
    LeadingItems(source, seen, n);
    ShownItems(source, name, Min(n + 1, |fs|));
    StreamShape(source, name);
    assert ItemsWithin(SourceHandler(source), seen, n) == Copies(source.items[..Min(n, |source.items|)]);
  }

  function Readings(messages: seq<Message>): seq<Item> {
    seq(|messages|, i requires 0 <= i < |messages| => Reading(messages[i]))
  }

  /** What a gRPC client that takes `n` items reads, and what an SSE client is shown by
      the opening frame and the `n` after it. */
  function Told(source: Source, seen: Seen, n: nat): seq<Item> {
    Readings(ItemsWithin(SourceHandler(source), seen, n))
  }

  function Shown(source: Source, name: string, n: nat): seq<Item> {
    var fs := Frames(source, name);
    ItemsShown(fs[..Min(n + 1, |fs|)])
  }

  /** Both clients read the same at every point of the stream. */
  ghost predicate ReadAlike(source: Source, seen: Seen, name: string) {
    forall n: nat :: Told(source, seen, n) == Shown(source, name, n)
  }

  predicate CarriesCursor(item: Item) {
    item.AttentionUpdate? && item.id != ""
  }

  /** The two ports tell their clients the same, over the whole stream, exactly when no
      item of it is an attention update with an event id. */
  lemma SameReadingsExactly(source: Source, seen: Seen, name: string)
    requires forall i :: 0 <= i < |source.items| ==> Emitted(source.items[i])
    ensures ReadAlike(source, seen, name) <==> forall i :: 0 <= i < |source.items| ==> !CarriesCursor(source.items[i])
  {
    var items := source.items;
    forall n: nat
      ensures Told(source, seen, n) == Shown(source, name, n)
              <==> forall i :: 0 <= i < Min(n, |items|) ==> !CarriesCursor(items[i])
    {
      AlikeUpToExactly(source, seen, name, n);
    }
    assert ReadAlike(source, seen, name) ==> Told(source, seen, |items|) == Shown(source, name, |items|);
  }

  lemma AlikeUpToExactly(source: Source, seen: Seen, name: string, n: nat)
    requires forall i :: 0 <= i < |source.items| ==> Emitted(source.items[i])
    ensures Told(source, seen, n) == Shown(source, name, n)
            <==> forall i :: 0 <= i < Min(n, |source.items|) ==> !CarriesCursor(source.items[i])
  {
    var first := source.items[..Min(n, |source.items|)];
    SameItems(source, seen, name, n);
    StreamShape(source, name);
    ShownItems(source, name, Min(n + 1, |Frames(source, name)|));
    assert Shown(source, name, n) == first && Told(source, seen, n) == Readings(Copies(first));
    ReadingsExactly(first);
    forall i | 0 <= i < |first|
      ensures Reading(Copy(first[i])) == first[i] <==> !CarriesCursor(source.items[i])
    {
      CarriedExactly(source.items[i]);
    }
  }

  lemma ReadingsExactly(items: seq<Item>)
    ensures Readings(Copies(items)) == items <==> forall i :: 0 <= i < |items| ==> Reading(Copy(items[i])) == items[i]
  {
    var rs := Readings(Copies(items));
    assert rs == items <==> forall i :: 0 <= i < |items| ==> rs[i] == items[i];
  }

  /** The last frame of a stream that failed. */
  function LastError(source: Source, name: string): ErrorBody
    requires Failed(source.end)
  {
    ErrorFrameMeaning(source, name);
    var fs := Frames(source, name);
    fs[|fs| - 1].data.error
  }

  /** Same ending: past its items, the gRPC call completes, aborts or lets a cancellation
      through exactly as the SSE stream closes, reports an error or lets it through. */
  lemma SameEnding(source: Source, seen: Seen, name: string, n: nat)
    requires n > |source.items|
    ensures EndWithin(SourceHandler(source), seen, n) ==
            match source.end
            case Exhausted => Some(Completes)
            case Breaks(Cancelled) => Some(Terminates(Uncaught(Cancelled)))
            case Breaks(fault) => Some(Terminates(Abort(StatusOf(fault))))
    ensures (exists i :: 0 <= i < |Frames(source, name)| && IsError(Frames(source, name)[i])) <==>
              exists status :: EndWithin(SourceHandler(source), seen, n) == Some(Terminates(Abort(status)))
  {
    LeadingItems(source, seen, n);
    StreamShape(source, name);
    if Failed(source.end) {
      assert IsError(Frames(source, name)[|source.items| + 1]);
      assert EndWithin(SourceHandler(source), seen, n) == Some(Terminates(Abort(StatusOf(source.end.error))));
    }
  }

  /** A core error on the two ports: the gRPC status is the core's own, the SSE body
      carries that code and its HTTP image, and the details are equal but for the one
      text the SSE port puts in place of a silenced, retryable one. */
  lemma SameCoreError(source: Source, name: string)
    requires source.end.Breaks? && source.end.error.Core?
    ensures var e := source.end.error.error; var grpc := StatusOf(source.end.error); var sse := LastError(source, name);
      && grpc.code == e.code == sse.code && sse.status == HttpStatusFor(e.code)
      && sse.detail == (if e.code in {UNAVAILABLE, DEADLINE_EXCEEDED} then RECONNECT else grpc.detail)
      && grpc.detail ==
           if e.code in {CANCELLED, UNKNOWN, DEADLINE_EXCEEDED, OUT_OF_RANGE, UNIMPLEMENTED, INTERNAL, UNAVAILABLE, DATA_LOSS}
           then "internal error"
           else if e.details != "" then e.details else "core error"
  {
    ServerFaultsByName(source.end.error.error.code);
    ErrorFrameMeaning(source, name);
  }

  /** For a failure that is not the core's, the SSE port always says INTERNAL; the gRPC
      port says the same exactly when the fault is a bare exception or an HTTP refusal
      with no gRPC counterpart. */
  lemma OtherFaultsAgreeExactly(source: Source, name: string)
    requires Failed(source.end) && !source.end.error.Core?
    ensures var fault := source.end.error;
      && LastError(source, name).code == INTERNAL && LastError(source, name).status == 500
      && (StatusOf(fault).code == LastError(source, name).code <==>
            fault.Other? || (fault.Http? && GrpcStatusForHttp(fault.refusal.status) == INTERNAL))
  {
    ErrorFrameMeaning(source, name);
  }

  function BrokenOff(items: seq<Item>, code: StatusCode, details: string): Source {
    Source(items, CallEnd.Breaks(Core(CoreError(code, details))))
  }

  /** No leak: on either port, what a client receives of a stream the core breaks off is
      independent of the core's text exactly for the eight codes that blame no client. */
  lemma CoreTextIsHiddenExactly(items: seq<Item>, code: StatusCode, name: string, seen: Seen, n: nat)
    requires n > |items|
    ensures (forall a, b :: Frames(BrokenOff(items, code, a), name) == Frames(BrokenOff(items, code, b), name)) <==>
              code in {CANCELLED, UNKNOWN, DEADLINE_EXCEEDED, OUT_OF_RANGE, UNIMPLEMENTED, INTERNAL, UNAVAILABLE, DATA_LOSS}
    ensures (forall a, b :: EndWithin(SourceHandler(BrokenOff(items, code, a)), seen, n)
                         == EndWithin(SourceHandler(BrokenOff(items, code, b)), seen, n)) <==>
              code in {CANCELLED, UNKNOWN, DEADLINE_EXCEEDED, OUT_OF_RANGE, UNIMPLEMENTED, INTERNAL, UNAVAILABLE, DATA_LOSS}
  {
    ServerFaultsByName(code);
    HiddenFromTheServersFaults(items, code, name, seen, n);
  }

  lemma HiddenFromTheServersFaults(items: seq<Item>, code: StatusCode, name: string, seen: Seen, n: nat)
    requires n > |items|
    ensures (forall a, b :: Frames(BrokenOff(items, code, a), name) == Frames(BrokenOff(items, code, b), name))
       <==> HttpStatusFor(code) >= 500
    ensures (forall a, b :: EndWithin(SourceHandler(BrokenOff(items, code, a)), seen, n)
                         == EndWithin(SourceHandler(BrokenOff(items, code, b)), seen, n))
       <==> HttpStatusFor(code) >= 500
  {
    forall a: string
      ensures EndWithin(SourceHandler(BrokenOff(items, code, a)), seen, n)
           == Some(Terminates(Abort(AsGrpc(CoreError(code, a)))))
      ensures Frames(BrokenOff(items, code, a), name)[|items| + 1] == ErrorFrame(CoreError(code, a), LastId(items))
    {
      SameEnding(BrokenOff(items, code, a), seen, name, n);
    }
    if HttpStatusFor(code) < 500 {
      assert AsGrpc(CoreError(code, "x")).detail == "x" != "yy" == AsGrpc(CoreError(code, "yy")).detail;
      assert ErrorFrame(CoreError(code, "x"), LastId(items)).data.error.detail == "x";
      assert ErrorFrame(CoreError(code, "yy"), LastId(items)).data.error.detail == "yy";
    } else {
      forall a, b
        ensures Frames(BrokenOff(items, code, a), name) == Frames(BrokenOff(items, code, b), name)
      {
        assert ErrorFrame(CoreError(code, a), LastId(items)) == ErrorFrame(CoreError(code, b), LastId(items));
      }
    }
  }
}
