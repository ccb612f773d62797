/** The pump (`_pump`, app/usecases/stream.py): an asynchronous generator over one of the
    core's streaming calls, which owes the call a cancellation. */
module Pump {

  /** How a call ends once its messages are out. A task cancelled while it waits for the
      next message is an ending too: `Breaks` with that exception. */
  datatype CallEnd<E> = Exhausted | Breaks(error: E)

  /** `translate(msg)`: a model of the edge, or an exception. */
  datatype Translated<T, E> = Value(value: T) | Fails(error: E)

  /** One of the core's server-streaming calls. */
  class Call<M, E> {
    const messages: seq<M>
    const end: CallEnd<E>
    var taken: nat
    var cancels: nat

    constructor (messages: seq<M>, end: CallEnd<E>)
      ensures this.messages == messages && this.end == end && taken == 0 && cancels == 0
    {
      this.messages, this.end := messages, end;
      taken, cancels := 0, 0;
    }

    method Cancel()
      modifies this`cancels
      ensures cancels == old(cancels) + 1
    {
      cancels := cancels + 1;
    }
  }

  /** A generator that was never advanced has not entered its `try`. */
  datatype Phase = Created | Suspended | Finished

  /** What an advance of the generator comes back with. */
  datatype Out<T, E> = Yields(value: T) | Stops | Raises(error: E)

  /** What a consumer does to a generator: ask for the next item, or finalize it. */
  datatype Op = Advance | Close

  datatype State = State(phase: Phase, taken: nat, emitted: nat, cancels: nat)

  const START := State(Created, 0, 0, 0)

  /** One operation on the pump over `messages` and `end`. */
  function Step<M, T, E>(messages: seq<M>, end: CallEnd<E>, translate: M -> Translated<T, E>, s: State, op: Op)
    : (State, Out<T, E>)
  {
    match op
    case Close =>
      (match s.phase
       case Suspended => s.(phase := Finished, cancels := s.cancels + 1)
       case _ => s.(phase := Finished), Stops)
    case Advance =>
      if s.phase == Finished then (s, Stops)
      else if s.taken < |messages| then
        match translate(messages[s.taken])
        case Value(v) => (State(Suspended, s.taken + 1, s.emitted + 1, s.cancels), Yields(v))
        case Fails(e) => (State(Finished, s.taken + 1, s.emitted + 1, s.cancels + 1), Raises(e))
      else
        (s.(phase := Finished, cancels := s.cancels + 1),
         match end case Exhausted => Stops case Breaks(e) => Raises(e))
  }

  class Generator<M, T, E> {
    const call: Call<M, E>
    const translate: M -> Translated<T, E>
    var phase: Phase
    var emitted: nat

    constructor (call: Call<M, E>, translate: M -> Translated<T, E>)
      requires call.taken == 0 && call.cancels == 0
      ensures this.call == call && this.translate == translate && Now() == START
    {
      this.call, this.translate := call, translate;
      phase, emitted := Created, 0;
    }

    function Now(): State
      reads this, call
    {
      State(phase, call.taken, emitted, call.cancels)
    }

    /** The body up to its next suspension: the loop's next message, or the way out
        through `finally`. */
    method Next() returns (out: Out<T, E>)
      modifies this, call
      ensures (Now(), out) == Step(call.messages, call.end, translate, old(Now()), Advance)
    {
      if phase == Finished {
        return Stops;
      }
      phase := Suspended;
      if call.taken < |call.messages| {
        var msg := call.messages[call.taken];
        call.taken := call.taken + 1;
        emitted := emitted + 1;
        match translate(msg)
        case Value(v) =>
          return Yields(v);
        case Fails(e) =>
          out := Raises(e);
      } else {
        match call.end
        case Exhausted => out := Stops;
        case Breaks(e) => out := Raises(e);
      }
      call.Cancel();
      phase := Finished;
    }

    /** The consumer abandons the generator: the exception thrown in at the suspension
        point runs `finally`; before the first advance there is none to run. */
    method Finalize()
      modifies this, call
      ensures Now() == Step(call.messages, call.end, translate, old(Now()), Close).0
    {
      if phase == Suspended {
        call.Cancel();
      }
      phase := Finished;
    }
  }

  // ── runs ────────────────────────────────────────────────────────────────────

  /** The state and the outputs after a run of consumer operations. */
  function Run<M, T, E>(messages: seq<M>, end: CallEnd<E>, translate: M -> Translated<T, E>, ops: seq<Op>)
    : (State, seq<Out<T, E>>)
  {
    if ops == [] then (START, [])
    else
      var (s, outs) := Run(messages, end, translate, ops[..|ops| - 1]);
      var (s', out) := Step(messages, end, translate, s, ops[|ops| - 1]);
      (s', outs + [out])
  }

  function Yielded<T, E>(outs: seq<Out<T, E>>): seq<T> {
    if outs == [] then []
    else
      var last := outs[|outs| - 1];
      Yielded(outs[..|outs| - 1]) + match last case Yields(v) => [v] case _ => []
  }

  lemma YieldedAppend<T, E>(outs: seq<Out<T, E>>, out: Out<T, E>)
    ensures Yielded(outs + [out]) == Yielded(outs) + match out case Yields(v) => [v] case _ => []
  {
    assert (outs + [out])[..|outs|] == outs;
  }

  /** Was the generator ever advanced while it was open? Only the first operation says. */
  predicate Entered(ops: seq<Op>) {
    ops != [] && ops[0] == Advance
  }

  /** `values` translates the first messages of the call. */
  ghost predicate Translates<M, T, E>(messages: seq<M>, translate: M -> Translated<T, E>, values: seq<T>) {
    |values| <= |messages| && forall i :: 0 <= i < |values| ==> translate(messages[i]) == Value(values[i])
  }

  /** The cancellation guarantee, over every call, translation and run of the consumer:
      a pump that was advanced is cancelled once it has finished, and only once; one
      that was never advanced is never cancelled, finished or not. */
  lemma {:induction false} CancelledExactly<M, T, E>(messages: seq<M>, end: CallEnd<E>,
                                                     translate: M -> Translated<T, E>, ops: seq<Op>)
    ensures var s := Run(messages, end, translate, ops).0;
            s.cancels == if s.phase == Finished && Entered(ops) then 1 else 0
    ensures var s := Run(messages, end, translate, ops).0;
            (s.phase == Created <==> ops == []) && (s.phase == Suspended ==> Entered(ops))
  {
    if ops != [] {
      var init := ops[..|ops| - 1];
      CancelledExactly(messages, end, translate, init);
      assert init != [] ==> init[0] == ops[0];
    }
  }

  /** The `values` yielded so far translate a prefix of the messages, and `emitted`
      counts them, along with the message whose translation ended the run if one did. */
  ghost predicate PrefixSoFar<M, T, E>(messages: seq<M>, translate: M -> Translated<T, E>, s: State, values: seq<T>) {
    && s.emitted == s.taken <= |messages|
    && Translates(messages, translate, values)
    && (s.emitted == |values|
        || (s.phase == Finished && s.emitted == |values| + 1 && translate(messages[s.emitted - 1]).Fails?))
  }

  lemma StepKeepsPrefix<M, T, E>(messages: seq<M>, end: CallEnd<E>, translate: M -> Translated<T, E>,
                                 s: State, op: Op, values: seq<T>)
    requires PrefixSoFar(messages, translate, s, values)
    ensures var (s', out) := Step(messages, end, translate, s, op);
            PrefixSoFar(messages, translate, s', values + match out case Yields(v) => [v] case _ => [])
  {
    if op == Close || s.phase == Finished || s.taken == |messages| {
      assert values + [] == values;
    } else {
      match translate(messages[s.taken])
      case Value(v) => assert forall i :: 0 <= i < |values| ==> (values + [v])[i] == values[i];
      case Fails(_) => assert values + [] == values;
    }
  }

  /** What comes out is the translation of a prefix of the call's messages, in order,
      and `emitted` counts the messages taken: as many as were yielded, plus the one
      whose translation failed if one did. */
  lemma {:induction false} YieldsATranslatedPrefix<M, T, E>(messages: seq<M>, end: CallEnd<E>,
                                                            translate: M -> Translated<T, E>, ops: seq<Op>)
    ensures var (s, outs) := Run(messages, end, translate, ops); PrefixSoFar(messages, translate, s, Yielded(outs))
  {
    if ops != [] {
      var init := ops[..|ops| - 1];
      YieldsATranslatedPrefix(messages, end, translate, init);
      var (s, outs) := Run(messages, end, translate, init);
      var (_, out) := Step(messages, end, translate, s, ops[|ops| - 1]);
      StepKeepsPrefix(messages, end, translate, s, ops[|ops| - 1], Yielded(outs));
      YieldedAppend(outs, out);
    }
  }

  /** With a total translation, `emitted` is the number yielded. */
  lemma EmittedIsYielded<M, T, E>(messages: seq<M>, end: CallEnd<E>, translate: M -> Translated<T, E>, ops: seq<Op>)
    requires forall i :: 0 <= i < |messages| ==> translate(messages[i]).Value?
    ensures var (s, outs) := Run(messages, end, translate, ops); s.emitted == |Yielded(outs)|
  {
    YieldsATranslatedPrefix(messages, end, translate, ops);
  }

  // ── a consumer that drains the pump ─────────────────────────────────────────

  /** How many messages translate before the first that does not. */
  function Translatable<M, T, E>(messages: seq<M>, translate: M -> Translated<T, E>): (n: nat)
    ensures n <= |messages|
    ensures forall i :: 0 <= i < n ==> translate(messages[i]).Value?
    ensures n < |messages| ==> translate(messages[n]).Fails?
  {
    if messages == [] || translate(messages[0]).Fails? then 0
    else
      var rest := Translatable(messages[1..], translate);
      assert forall i :: 0 <= i < rest ==> messages[i + 1] == messages[1..][i];
      assert forall i :: 0 < i < rest + 1 ==> messages[i] == messages[1..][i - 1];
      1 + rest
  }

  /** How a drained pump ends: as the call does, unless a translation fails first. */
  function Ending<M, T, E>(messages: seq<M>, end: CallEnd<E>, translate: M -> Translated<T, E>): CallEnd<E> {
    var n := Translatable(messages, translate);
    if n < |messages| then Breaks(translate(messages[n]).error) else end
  }

  /** A consumer that goes on to the end sees the translated prefix and the ending, and
      the call is cancelled. */
  method Drain<M, T, E>(g: Generator<M, T, E>) returns (values: seq<T>, ending: CallEnd<E>)
    requires g.Now() == START
    modifies g, g.call
    ensures |values| == Translatable(g.call.messages, g.translate)
    ensures forall i :: 0 <= i < |values| ==> g.translate(g.call.messages[i]) == Value(values[i])
    ensures ending == Ending(g.call.messages, g.call.end, g.translate)
    ensures g.phase == Finished && g.call.cancels == 1
  {
    values := [];
    while true
      invariant g.phase != Finished && g.call.cancels == 0 && g.call.taken == |values|
      invariant |values| <= Translatable(g.call.messages, g.translate)
      invariant forall i :: 0 <= i < |values| ==> g.translate(g.call.messages[i]) == Value(values[i])
      decreases |g.call.messages| - |values|
    {
      var out := g.Next();
      match out
      case Yields(v) => values := values + [v];
      case Stops => return values, Exhausted;
      case Raises(e) => return values, Breaks(e);
    }
  }
}
