/** The streaming observation of a plugin task: load the task, let the plugin's hook render
    events, write them, wait, repeat. The database, the hook, the response machine, the clock
    and the client are oracles: a `Tick` lists what they answer in one round. */
module ObservationStream {
  import opened Text

  datatype Event = Event(kind: string, data: string)

  const TERMINAL := {"response.completed", "response.failed", "response.incomplete"}

  /** Everything that reaches the client, in order. A batch is what one round wrote of the
      events it had; `whole` says whether all of them were written. */
  datatype Written =
    | Created | Heartbeat | Failure | Timeout
    | Batch(events: seq<Event>, whole: bool)

  /** The plugin's state value, if it returned one. */
  type State = Option<string>

  /** Why a context was found done: the observation deadline or the client. */
  datatype Context = Fine | DeadlinePassed | ClientGone

  datatype Load = LoadTimedOut | Unavailable(context: Context) | Loaded(status: string)

  datatype Hook =
    | HookFailed(context: Context)          // an error other than admission
    | AdmissionTimedOut
    | Rendered(decoded: Option<Result>)     // None: the result or the transition was invalid

  /** The events the response machine makes of the hook's answer, and the answer's state. */
  datatype Result = Result(events: seq<Event>, state: State)

  /** How the wait between rounds ended, after some heartbeats. */
  datatype Wait = Elapsed(beats: nat) | Stopped(beats: nat, context: Context)

  /** `prepared`: the view, its encoding, the renderer context and the previous state were
      built; `writable`: how many events the client takes; `closing`: whether a final failure
      or timeout event can be built and written. */
  datatype Tick = Tick(load: Load, prepared: bool, hook: Hook, writable: nat, wait: Wait, closing: bool)

  /** One call of the hook: the state it was given and what came of it. */
  datatype Call = Call(previous: State, hook: Hook)

  ghost predicate HasTerminal(events: seq<Event>) { exists i | 0 <= i < |events| :: events[i].kind in TERMINAL }

  /** taskPluginProtocolEventsTerminal, a scan that stops at the first terminal event. */
  method EventsTerminal(events: seq<Event>) returns (terminal: bool)
    ensures terminal <==> HasTerminal(events)
    ensures terminal <==> exists i | 0 <= i < |events| ::
              || events[i].kind == "response.completed" || events[i].kind == "response.failed"
              || events[i].kind == "response.incomplete"
  {
    for i := 0 to |events|
      invariant forall j | 0 <= j < i :: events[j].kind !in TERMINAL
    {
      if events[i].kind in TERMINAL { return true; }
    }
    return false;
  }

  // ----- What is promised of the trace -----

  /** Nothing may follow: a failure or timeout event, a batch cut short, or a batch that holds
      a terminal event. */
  ghost predicate Final(w: Written) {
    match w
    case Failure => true
    case Timeout => true
    case Batch(events, whole) => !whole || HasTerminal(events)
    case _ => false
  }

  ghost predicate WellShaped(trace: seq<Written>) {
    && (trace != [] ==> trace[0].Created?)
    && (forall i | 1 <= i < |trace| :: !trace[i].Created?)
    && (forall i | 0 <= i < |trace| - 1 :: !Final(trace[i]))
  }

  /** The state returned by the latest round whose hook was not overloaded. */
  ghost function Latest(calls: seq<Call>): State {
    if calls == [] then None
    else match calls[|calls| - 1].hook
      case Rendered(Some(result)) => result.state
      case _ => Latest(calls[..|calls| - 1])
  }

  ghost predicate Threaded(calls: seq<Call>) {
    forall k | 0 <= k < |calls| :: calls[k].previous == Latest(calls[..k])
  }

  /** The latest state: that of the last call whose answer was used, and none before that. */
  lemma {:induction false} LatestIs(calls: seq<Call>, k: nat)
    requires k <= |calls|
    requires forall j | k <= j < |calls| :: !(calls[j].hook.Rendered? && calls[j].hook.decoded.Some?)
    requires k > 0 ==> calls[k - 1].hook.Rendered? && calls[k - 1].hook.decoded.Some?
    ensures Latest(calls) == if k == 0 then None else calls[k - 1].hook.decoded.value.state
    decreases |calls|
  {
    if k < |calls| { LatestIs(calls[..|calls| - 1], k); }
  }

  /** The batches of the trace, and the event lists the hook calls produced. */
  ghost function Batches(trace: seq<Written>): seq<seq<Event>> {
    if trace == [] then []
    else
      var w := trace[|trace| - 1];
      Batches(trace[..|trace| - 1]) + (if w.Batch? then [w.events] else [])
  }

  ghost function Outputs(calls: seq<Call>): seq<seq<Event>> {
    if calls == [] then []
    else
      var before := Outputs(calls[..|calls| - 1]);
      match calls[|calls| - 1].hook
      case Rendered(Some(result)) => before + [result.events]
      case _ => before
  }

  /** The written batches are the produced lists, in order; only the last may be cut short. */
  ghost predicate Delivers(trace: seq<Written>, calls: seq<Call>) {
    var b, o := Batches(trace), Outputs(calls);
    && |b| == |o|
    && (forall k | 0 <= k < |o| - 1 :: b[k] == o[k])
    && (o != [] ==> b[|o| - 1] <= o[|o| - 1])
  }

  // ----- The invariant of a running observation -----

  ghost predicate Running(trace: seq<Written>, calls: seq<Call>, previous: State) {
    && trace != [] && WellShaped(trace) && !Final(trace[|trace| - 1])
    && Threaded(calls) && previous == Latest(calls)
    && Batches(trace) == Outputs(calls)
  }

  ghost predicate Promised(trace: seq<Written>, calls: seq<Call>) {
    WellShaped(trace) && Threaded(calls) && Delivers(trace, calls)
  }

  lemma Push(trace: seq<Written>, w: Written)
    ensures Batches(trace + [w]) == Batches(trace) + (if w.Batch? then [w.events] else [])
  {
    assert (trace + [w])[..|trace|] == trace;
  }

  /** Writing one more item that is not the created event. */
  lemma Written1(trace: seq<Written>, calls: seq<Call>, previous: State, w: Written)
    requires Running(trace, calls, previous) && !w.Created? && !w.Batch?
    ensures Promised(trace + [w], calls)
    ensures !Final(w) ==> Running(trace + [w], calls, previous)
  {
    Push(trace, w);
  }

  lemma RunningIsPromised(trace: seq<Written>, calls: seq<Call>, previous: State)
    requires Running(trace, calls, previous)
    ensures Promised(trace, calls)
  {
  }

  lemma Called(trace: seq<Written>, calls: seq<Call>, previous: State, hook: Hook)
    requires Running(trace, calls, previous)
    ensures var calls' := calls + [Call(previous, hook)];
      && Threaded(calls')
      && (!(hook.Rendered? && hook.decoded.Some?) ==> Running(trace, calls', previous) && Promised(trace, calls'))
      && (hook.Rendered? && hook.decoded.Some? ==>
            && Latest(calls') == hook.decoded.value.state
            && Outputs(calls') == Outputs(calls) + [hook.decoded.value.events])
  {
    var calls' := calls + [Call(previous, hook)];
    assert calls'[..|calls|] == calls;
    forall k | 0 <= k < |calls'| ensures calls'[k].previous == Latest(calls'[..k]) {
      assert k <= |calls| && calls'[..k] == calls[..k];
      if k == |calls| { assert calls[..k] == calls; }
    }
  }

  lemma ShapedPush(trace: seq<Written>, w: Written)
    requires trace != [] && WellShaped(trace) && !Final(trace[|trace| - 1]) && !w.Created?
    ensures WellShaped(trace + [w])
  {
  }

  lemma DeliversPush(trace: seq<Written>, calls: seq<Call>, trace': seq<Written>, calls': seq<Call>,
                     part: seq<Event>, whole: seq<Event>)
    requires Batches(trace) == Outputs(calls) && part <= whole
    requires Batches(trace') == Batches(trace) + [part] && Outputs(calls') == Outputs(calls) + [whole]
    ensures Delivers(trace', calls')
  {
  }

  lemma Delivered(trace: seq<Written>, calls: seq<Call>, previous: State, result: Result, n: nat)
    requires Running(trace, calls, previous) && n <= |result.events|
    ensures var calls' := calls + [Call(previous, Rendered(Some(result)))];
      var trace' := trace + [Batch(result.events[..n], n == |result.events|)];
      && Promised(trace', calls')
      && (n == |result.events| && !HasTerminal(result.events) ==> Running(trace', calls', result.state))
  {
    var calls' := calls + [Call(previous, Rendered(Some(result)))];
    var w := Batch(result.events[..n], n == |result.events|);
    var trace' := trace + [w];
    Called(trace, calls, previous, Rendered(Some(result)));
    Push(trace, w);
    ShapedPush(trace, w);
    DeliversPush(trace, calls, trace', calls', w.events, result.events);
    if n == |result.events| { assert result.events[..n] == result.events; }
  }

  // ----- What each round writes -----

  /** The closing event: a timeout once the deadline has passed, nothing for a client that is
      gone, a failure otherwise. */
  function ClosingEvent(context: Context, closing: bool): seq<Written> {
    if !closing || context.ClientGone? then [] else if context.DeadlinePassed? then [Timeout] else [Failure]
  }

  predicate CallsHook(t: Tick) { t.load.Loaded? && t.prepared }

  /** The round neither fails nor completes the observation. */
  predicate Continues(t: Tick) {
    || t.load.LoadTimedOut?
    || (CallsHook(t) && (t.hook.AdmissionTimedOut? || (t.hook.Rendered? && t.hook.decoded.Some?
          && t.writable >= |t.hook.decoded.value.events|
          && forall i | 0 <= i < |t.hook.decoded.value.events| :: t.hook.decoded.value.events[i].kind !in TERMINAL)))
  }

  function RoundWrites(t: Tick): seq<Written> {
    match t.load
    case LoadTimedOut => []
    case Unavailable(context) => ClosingEvent(context, t.closing)
    case Loaded(_) =>
      if !t.prepared then ClosingEvent(Fine, t.closing)
      else match t.hook
        case HookFailed(context) => ClosingEvent(context, t.closing)
        case AdmissionTimedOut => []
        case Rendered(None) => ClosingEvent(Fine, t.closing)
        case Rendered(Some(result)) =>
          var n := if t.writable < |result.events| then t.writable else |result.events|;
          [Batch(result.events[..n], n == |result.events|)]
  }

  function WaitWrites(t: Tick): seq<Written> {
    seq(t.wait.beats, _ => Heartbeat)
    + (if t.wait.Stopped? && t.wait.context.DeadlinePassed? then ClosingEvent(DeadlinePassed, t.closing) else [])
  }

  predicate GoesOn(t: Tick) { Continues(t) && t.wait.Elapsed? }

  function TickWrites(t: Tick): seq<Written> { RoundWrites(t) + (if Continues(t) then WaitWrites(t) else []) }

  /** Everything after the created event. */
  ghost function Writes(script: seq<Tick>): seq<Written> {
    if script == [] then []
    else TickWrites(script[0]) + (if GoesOn(script[0]) then Writes(script[1..]) else [])
  }

  /** What the hook answered, in the rounds that reached it. */
  ghost function Hooks(script: seq<Tick>): seq<Hook> {
    if script == [] then []
    else (if CallsHook(script[0]) then [script[0].hook] else [])
         + (if GoesOn(script[0]) then Hooks(script[1..]) else [])
  }

  /** The round reaches the hook, and the hook's answer is used. */
  ghost predicate Answers(t: Tick) { t.load.Loaded? && t.prepared && t.hook.Rendered? && t.hook.decoded.Some? }

  /** The round keeps the observation going: the task could not be loaded in time, the hook was
      overloaded, or its events were written in full and none was terminal. */
  ghost predicate KeepsGoing(t: Tick) {
    || t.load.LoadTimedOut?
    || (t.load.Loaded? && t.prepared && t.hook.AdmissionTimedOut?)
    || (Answers(t) && |t.hook.decoded.value.events| <= t.writable && !HasTerminal(t.hook.decoded.value.events))
  }

  /** The deadline passes: while loading, in the hook, or in the wait of a round that goes on. */
  ghost predicate RunsOut(t: Tick) {
    || t.load == Unavailable(DeadlinePassed)
    || (t.load.Loaded? && t.prepared && t.hook == HookFailed(DeadlinePassed))
    || (KeepsGoing(t) && t.wait.Stopped? && t.wait.context.DeadlinePassed?)
  }

  /** Something fails while the client is there and the deadline is not reached. */
  ghost predicate Fails(t: Tick) {
    || t.load == Unavailable(Fine)
    || (t.load.Loaded? && !t.prepared)
    || (t.load.Loaded? && t.prepared && (t.hook == HookFailed(Fine) || t.hook == Rendered(None)))
  }

  lemma RoundIs(t: Tick)
    ensures Continues(t) <==> KeepsGoing(t)
    ensures |RoundWrites(t)| <= 1 && (Continues(t) && RoundWrites(t) != [] ==> RoundWrites(t)[0].Batch?)
    ensures Timeout in RoundWrites(t) <==>
            && t.closing
            && (t.load == Unavailable(DeadlinePassed)
                || (t.load.Loaded? && t.prepared && t.hook == HookFailed(DeadlinePassed)))
    ensures Failure in RoundWrites(t) <==> t.closing && Fails(t)
    ensures (RoundWrites(t) != [] && RoundWrites(t)[0].Batch?) <==> Answers(t)
    ensures Answers(t) ==>
            var events := t.hook.decoded.value.events;
            RoundWrites(t) == if |events| <= t.writable then [Batch(events, true)]
                              else [Batch(events[..t.writable], false)]
  {
    if Answers(t) && |t.hook.decoded.value.events| <= t.writable {
      var events := t.hook.decoded.value.events;
      assert events[..|events|] == events;
    }
  }

  lemma WaitIs(t: Tick)
    ensures Timeout in WaitWrites(t) <==> t.closing && t.wait.Stopped? && t.wait.context.DeadlinePassed?
    ensures forall w | w in WaitWrites(t) :: w == Heartbeat || w == Timeout
    ensures |WaitWrites(t)| >= t.wait.beats && forall i | 0 <= i < t.wait.beats :: WaitWrites(t)[i] == Heartbeat
  {
    if t.wait.Stopped? && t.wait.context.DeadlinePassed? && t.closing {
      assert WaitWrites(t)[t.wait.beats] == Timeout;
    }
  }

  /** A round writes a timeout event exactly when the deadline passes in it, a failure event
      exactly when something fails - if such an event can be written - and a batch exactly when
      the hook's answer is used. */
  lemma TickIs(t: Tick)
    ensures Continues(t) <==> KeepsGoing(t)
    ensures Timeout in TickWrites(t) <==> t.closing && RunsOut(t)
    ensures Failure in TickWrites(t) <==> t.closing && Fails(t)
    ensures (exists w | w in TickWrites(t) :: w.Batch?) <==> Answers(t)
  {
    RoundIs(t);
    WaitIs(t);
    var round, wait := RoundWrites(t), WaitWrites(t);
    assert forall w :: w in TickWrites(t) <==> w in round || (Continues(t) && w in wait);
    if Answers(t) { assert round[0] in TickWrites(t); }
  }

  /** The rounds before the i-th all go on to the next. */
  ghost predicate Reached(script: seq<Tick>, i: nat) {
    i < |script| && forall j | 0 <= j < i :: KeepsGoing(script[j]) && script[j].wait.Elapsed?
  }

  lemma ReachedTail(script: seq<Tick>, i: nat)
    requires 0 < i
    ensures Reached(script, i) <==>
            script != [] && KeepsGoing(script[0]) && script[0].wait.Elapsed? && Reached(script[1..], i - 1)
  {
    if script != [] && Reached(script[1..], i - 1) && KeepsGoing(script[0]) && script[0].wait.Elapsed? {
      forall j | 0 <= j < i ensures KeepsGoing(script[j]) && script[j].wait.Elapsed? {
        if j > 0 { assert script[1..][j - 1] == script[j]; }
      }
    }
    if Reached(script, i) {
      forall j | 0 <= j < i - 1 ensures KeepsGoing(script[1..][j]) && script[1..][j].wait.Elapsed? {
        assert script[1..][j] == script[j + 1];
      }
    }
  }

  lemma WrittenLater(script: seq<Tick>, w: Written, i: nat)
    requires script != []
    ensures Reached(script, i + 1) && w in TickWrites(script[i + 1]) <==>
            GoesOn(script[0]) && Reached(script[1..], i) && w in TickWrites(script[1..][i])
  {
    ReachedTail(script, i + 1);
    RoundIs(script[0]);
    if i < |script| - 1 { assert script[1..][i] == script[i + 1]; }
  }

  /** Over the whole observation: something is written exactly when some round that is reached
      writes it. With `TickIs`, the client sees a timeout event exactly when the deadline passes
      in a round that is reached and the event can be written, and likewise a failure event. */
  lemma {:induction false} WrittenIff(script: seq<Tick>, w: Written)
    ensures w in Writes(script) <==> exists i: nat | Reached(script, i) :: w in TickWrites(script[i])
    decreases |script|
  {
    if script != [] {
      var rest := script[1..];
      WrittenIff(rest, w);
      assert Reached(script, 0);
      if GoesOn(script[0]) && w in Writes(rest) {
        var i: nat :| Reached(rest, i) && w in TickWrites(rest[i]);
        WrittenLater(script, w, i);
      }
      if i: nat :| Reached(script, i) && w in TickWrites(script[i]) {
        if i > 0 { WrittenLater(script, w, i - 1); }
      }
    }
  }

  ghost function HooksOf(calls: seq<Call>): seq<Hook> { seq(|calls|, i requires 0 <= i < |calls| => calls[i].hook) }

  // ----- The loop -----

  /** Closes the stream with a failure or timeout event, if that can still be written. */
  method Finish(trace: seq<Written>, w: Written, closing: bool, ghost calls: seq<Call>, ghost previous: State)
    returns (trace': seq<Written>)
    requires Running(trace, calls, previous) && (w.Failure? || w.Timeout?)
    ensures Promised(trace', calls) && trace' == if closing then trace + [w] else trace
  {
    RunningIsPromised(trace, calls, previous);
    Written1(trace, calls, previous, w);
    trace' := if closing then trace + [w] else trace;
  }

  /** waitForTaskPluginProtocolTick and what follows when it reports that the wait was cut. */
  method WaitForTick(trace: seq<Written>, t: Tick, ghost calls: seq<Call>, ghost previous: State)
    returns (trace': seq<Written>, goOn: bool)
    requires Running(trace, calls, previous)
    ensures Promised(trace', calls) && (goOn ==> Running(trace', calls, previous))
    ensures goOn <==> t.wait.Elapsed?
    ensures trace' == trace + WaitWrites(t)
  {
    trace' := trace;
    for i := 0 to t.wait.beats
      invariant Running(trace', calls, previous)
      invariant trace' == trace + seq(i, _ => Heartbeat)
    {
      Written1(trace', calls, previous, Heartbeat);
      trace' := trace' + [Heartbeat];
    }
    RunningIsPromised(trace', calls, previous);
    goOn := t.wait.Elapsed?;
    if t.wait.Stopped? && t.wait.context.DeadlinePassed? {
      trace' := Finish(trace', Timeout, t.closing, calls, previous);
    }
  }

  /** The hook is called with the previous state and its events are written. */
  method HookRound(trace: seq<Written>, calls: seq<Call>, previous: State, t: Tick)
    returns (trace': seq<Written>, calls': seq<Call>, previous': State, goOn: bool)
    requires Running(trace, calls, previous) && CallsHook(t)
    ensures Promised(trace', calls') && (goOn ==> Running(trace', calls', previous'))
    ensures trace' == trace + RoundWrites(t) && (goOn <==> Continues(t))
    ensures calls' == calls + [Call(previous, t.hook)]
  {
    trace', calls', previous', goOn := trace, calls + [Call(previous, t.hook)], previous, false;
    Called(trace, calls, previous, t.hook);
    match t.hook
    case HookFailed(context) =>
      if context.DeadlinePassed? {
        trace' := Finish(trace, Timeout, t.closing, calls', previous);
      } else if context.Fine? {
        trace' := Finish(trace, Failure, t.closing, calls', previous);
      }
    case AdmissionTimedOut =>
      goOn := true;
    case Rendered(decoded) =>
      if decoded.None? {
        trace' := Finish(trace, Failure, t.closing, calls', previous);
        return;
      }
      var events := decoded.value.events;
      var n := if t.writable < |events| then t.writable else |events|;
      Delivered(trace, calls, previous, decoded.value, n);
      trace' := trace + [Batch(events[..n], n == |events|)];
      if n < |events| { return; }
      var terminal := EventsTerminal(events);
      if terminal { return; }
      previous' := decoded.value.state;
      goOn := true;
  }

  /** One round up to the wait. `goOn` is false when the observation has ended. */
  method Round(trace: seq<Written>, calls: seq<Call>, previous: State, t: Tick)
    returns (trace': seq<Written>, calls': seq<Call>, previous': State, goOn: bool)
    requires Running(trace, calls, previous)
    ensures Promised(trace', calls') && (goOn ==> Running(trace', calls', previous'))
    ensures trace' == trace + RoundWrites(t) && (goOn <==> Continues(t))
    ensures calls' == if CallsHook(t) then calls + [Call(previous, t.hook)] else calls
  {
    trace', calls', previous', goOn := trace, calls, previous, false;
    RunningIsPromised(trace, calls, previous);
    match t.load
    case LoadTimedOut =>
      goOn := true;
    case Unavailable(context) =>
      if context.DeadlinePassed? {
        trace' := Finish(trace, Timeout, t.closing, calls, previous);
      } else if context.Fine? {
        trace' := Finish(trace, Failure, t.closing, calls, previous);
      }
    case Loaded(_) =>
      if t.prepared {
        trace', calls', previous', goOn := HookRound(trace, calls, previous, t);
      } else {
        trace' := Finish(trace, Failure, t.closing, calls, previous);
      }
  }

  /** One round and the wait after it. */
  method DoTick(trace: seq<Written>, calls: seq<Call>, previous: State, t: Tick)
    returns (trace': seq<Written>, calls': seq<Call>, previous': State, goOn: bool)
    requires Running(trace, calls, previous)
    ensures Promised(trace', calls') && (goOn ==> Running(trace', calls', previous'))
    ensures trace' == trace + TickWrites(t) && (goOn <==> GoesOn(t))
    ensures HooksOf(calls') == HooksOf(calls) + (if CallsHook(t) then [t.hook] else [])
  {
    TickJoins(trace, t);
    HooksPush(calls, Call(previous, t.hook));
    trace', calls', previous', goOn := Round(trace, calls, previous, t);
    if goOn {
      trace', goOn := WaitForTick(trace', t, calls', previous');
    }
  }

  lemma TickJoins(trace: seq<Written>, t: Tick)
    ensures trace + TickWrites(t)
            == if Continues(t) then trace + RoundWrites(t) + WaitWrites(t) else trace + RoundWrites(t)
  {
  }

  lemma HooksPush(calls: seq<Call>, c: Call)
    ensures HooksOf(calls + [c]) == HooksOf(calls) + [c.hook]
    ensures HooksOf(calls) + [] == HooksOf(calls)
  {
  }

  lemma UnrollWrites(script: seq<Tick>, i: nat, trace: seq<Written>)
    requires i < |script|
    ensures var t := script[i];
      trace + Writes(script[i..]) == trace + TickWrites(t) + (if GoesOn(t) then Writes(script[i + 1..]) else [])
  {
    var rest, now := script[i..], TickWrites(script[i]);
    assert rest[0] == script[i] && rest[1..] == script[i + 1..];
    var later := if GoesOn(script[i]) then Writes(script[i + 1..]) else [];
    assert Writes(rest) == now + later;
    Associative(trace, now, later);
  }

  lemma Associative(a: seq<Written>, b: seq<Written>, c: seq<Written>)
    ensures a + (b + c) == a + b + c
  {
  }

  lemma UnrollHooks(script: seq<Tick>, i: nat, hooks: seq<Hook>)
    requires i < |script|
    ensures var t := script[i];
      hooks + Hooks(script[i..]) == hooks + (if CallsHook(t) then [t.hook] else [])
                                    + (if GoesOn(t) then Hooks(script[i + 1..]) else [])
  {
    var rest := script[i..];
    assert rest[0] == script[i] && rest[1..] == script[i + 1..];
  }

  /** streamTaskPluginProtocol over a script of rounds, or as much of it as happens. The trace
      begins with the created event; a failure or timeout event, a batch cut short by a write
      error and a batch holding a terminal event are the last thing written; the batches are
      what the response machine made of the hook's answers, in order; and every call of the
      hook is given the state returned by the latest call that was not overloaded. */
  method StreamObservation(createdOk: bool, script: seq<Tick>)
    returns (trace: seq<Written>, calls: seq<Call>, ended: bool)
    ensures Promised(trace, calls)
    ensures trace == if createdOk then [Created] + Writes(script) else []
    ensures HooksOf(calls) == if createdOk then Hooks(script) else []
    ensures !ended ==> trace != [] && !Final(trace[|trace| - 1])
  {
    trace, calls, ended := [], [], true;
    if !createdOk { return; }
    trace := [Created];
    StartsRunning();
    var previous: State := None;
    assert script[0..] == script;
    for i := 0 to |script|
      invariant Running(trace, calls, previous)
      invariant trace + Writes(script[i..]) == [Created] + Writes(script)
      invariant HooksOf(calls) + Hooks(script[i..]) == Hooks(script)
    {
      UnrollWrites(script, i, trace);
      UnrollHooks(script, i, HooksOf(calls));
      var goOn;
      trace, calls, previous, goOn := DoTick(trace, calls, previous, script[i]);
      if !goOn { return; }
    }
    RunningIsPromised(trace, calls, previous);
    ended := false;
  }

  lemma StartsRunning()
    ensures Running([Created], [], None)
  {
    Push([], Created);
    assert [] + [Created] == [Created];
  }
}
