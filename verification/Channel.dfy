/** The bounded channel between producers and the event worker, after `record`, `flush` and `close` of
    src/events.rs and the select of src/events/worker.rs: any number of producers, one step at a time. */
module Channel {
  import opened Wrappers
  import opened Worker
  import opened WorkerRuns

  /** `published` says that `close` has not yet cleared the shared sender, `holders` counts the producers that
      have loaded it and not let go, `receiving` says that the worker's receiver still exists. `accepted` records
      the messages whose sender was told so, `discarded` those that went down with the receiver. */
  datatype System = System(
    published: bool,
    holders: nat,
    receiving: bool,
    queue: seq<EventMessage>,
    worker: WorkerState,
    closing: bool,
    exit: Option<Exit>,
    accepted: seq<EventMessage>,
    discarded: seq<EventMessage>)

  datatype Action =
    | LoadSender                        // `sender.load_full`, by a producer that found it
    | TrySend(message: EventMessage)    // by a producer that holds it
    | DropSender
    | Close                             // `sender.store(None)`
    | WorkerStep(poll: Poll, choice: Choice)
    | DropReceiver                      // some time after the worker has left its loop

  /** What the worker's select picks when it could pick anything that is ready. */
  datatype Choice = TakeShutdown(graceful: bool) | TakeChannel(exchanges: Exchanges) | TakeTimer(exchanges: Exchanges)

  const START := System(true, 0, true, [], NEW_WORKER, false, None, [], [])

  /** The receiver yields the oldest message; it reports disconnection only once it is empty and no sender is
      left, neither the shared one nor a producer's. */
  function Yield(s: System, exchanges: Exchanges): Option<Wake> {
    if s.queue != [] then Some(Message(s.queue[0], exchanges))
    else if !s.published && s.holders == 0 then Some(Disconnected(exchanges))
    else None
  }

  function Act(config: WorkerConfig, capacity: nat, s: System, action: Action): System
    requires config.maxEventsPerRequest > 0
  {
    match action
    case LoadSender => if s.published then s.(holders := s.holders + 1) else s
    case TrySend(message) =>
      if s.holders == 0 || |s.queue| >= capacity || !s.receiving then s
      else s.(queue := s.queue + [message], accepted := s.accepted + [message])
    case DropSender => if s.holders > 0 then s.(holders := s.holders - 1) else s
    case Close => s.(published := false)
    case DropReceiver =>
      if s.exit.None? || !s.receiving then s
      else s.(receiving := false, queue := [], discarded := s.queue)
    case WorkerStep(poll, choice) =>
      if s.exit.Some? then s
      else
        var wake := match choice
                    case TakeShutdown(graceful) => Some(ShutdownMessage(graceful))
                    case TakeChannel(exchanges) => Yield(s, exchanges)
                    case TakeTimer(exchanges) => Some(Timer(exchanges));
        if wake.None? then
          // the poll has been made, and the select goes on waiting
          if poll == AbortRequested then s.(exit := Some(Aborted))
          else s.(closing := s.closing || poll == GracefulRequested)
        else
          var round := TakeTurn(config, s.worker, s.closing, Turn(poll, wake.value));
          var queue := if wake.value.Message? && poll != AbortRequested then s.queue[1..] else s.queue;
          s.(worker := round.state, closing := round.closing, exit := round.exit, queue := queue)
  }

  function Run(config: WorkerConfig, capacity: nat, start: System, actions: seq<Action>): System
    requires config.maxEventsPerRequest > 0
  {
    if actions == [] then start
    else Act(config, capacity, Run(config, capacity, start, actions[..|actions| - 1]), actions[|actions| - 1])
  }

  function Payloads(queue: seq<EventMessage>): seq<PayloadEvent> {
    if queue == [] then []
    else (if queue[0].Payload? then [queue[0].event] else []) + Payloads(queue[1..])
  }

  lemma {:induction false} PayloadsAppend(a: seq<EventMessage>, b: seq<EventMessage>)
    ensures Payloads(a + b) == Payloads(a) + Payloads(b)
  {
    if a == [] {
      assert a + b == b;
    } else {
      var first := if a[0].Payload? then [a[0].event] else [];
      PayloadsAppend(a[1..], b);
      assert (a + b)[1..] == a[1..] + b;
      assert first + (Payloads(a[1..]) + Payloads(b)) == first + Payloads(a[1..]) + Payloads(b);
    }
  }

  // ---------------------------------------------------------------------------------------------------

  function Shapes(messages: seq<EventMessage>): seq<Option<PayloadEvent>> {
    seq(|messages|, i requires 0 <= i < |messages| => Shape(messages[i]))
  }

  lemma ShapesAppend(a: seq<EventMessage>, b: seq<EventMessage>)
    ensures Shapes(a + b) == Shapes(a) + Shapes(b)
  {
  }

  /** Every accepted message is, in order, consumed or among the rest. */
  ghost predicate Accounted(accepted: seq<EventMessage>, history: seq<WorkerEvent>, rest: seq<EventMessage>) {
    Shapes(accepted) == Consumed(history) + Shapes(rest)
  }

  lemma SendIsAccounted(accepted: seq<EventMessage>, history: seq<WorkerEvent>, rest: seq<EventMessage>,
                        message: EventMessage)
    requires Accounted(accepted, history, rest)
    ensures Accounted(accepted + [message], history, rest + [message])
  {
    ShapesAppend(accepted, [message]);
    ShapesAppend(rest, [message]);
  }

  /** The rest is what went down with the receiver, or else is still queued. */
  ghost predicate Sound(config: WorkerConfig, capacity: nat, s: System) {
    var a := Book(s.worker.history);
    && |s.queue| <= capacity
    && Clean(config, s.worker.history)
    && Accounted(s.accepted, s.worker.history, Rest(s))
    && (s.receiving ==> s.discarded == [])
    && (!s.receiving ==> s.queue == [] && s.exit.Some?)
    && (s.exit.None? ==> WorkerRuns.Sound(config, s.worker) && !a.cancelled)
    && (s.exit == Some(ChannelClosed) ==> IsClosed(s) && (GoesOn(a) ==> a.received == a.handed))
  }

  function Rest(s: System): seq<EventMessage> { if s.receiving then s.queue else s.discarded }

  predicate IsClosed(s: System) { !s.published && s.holders == 0 && s.queue == [] && s.discarded == [] }

  lemma WorkerStepKeepsSound(config: WorkerConfig, capacity: nat, s: System, poll: Poll, choice: Choice)
    requires config.maxEventsPerRequest > 0 && Sound(config, capacity, s) && s.exit.None?
    ensures Sound(config, capacity, Act(config, capacity, s, WorkerStep(poll, choice)))
  {
    var wake := match choice
                case TakeShutdown(graceful) => Some(ShutdownMessage(graceful))
                case TakeChannel(exchanges) => Yield(s, exchanges)
                case TakeTimer(exchanges) => Some(Timer(exchanges));
    if wake.Some? && poll != AbortRequested {
      AwakeningKeepsSound(config, capacity, s, poll, wake.value);
    }
  }

  lemma AwakeningKeepsSound(config: WorkerConfig, capacity: nat, s: System, poll: Poll, wake: Wake)
    requires config.maxEventsPerRequest > 0 && Sound(config, capacity, s) && s.exit.None? && poll != AbortRequested
    requires wake.Message? ==> s.queue != [] && wake.message == s.queue[0]
    requires wake.Disconnected? ==> !s.published && s.holders == 0 && s.queue == []
    ensures var round := TakeTurn(config, s.worker, s.closing, Turn(poll, wake));
            Sound(config, capacity, s.(worker := round.state, closing := round.closing, exit := round.exit,
                                       queue := if wake.Message? then s.queue[1..] else s.queue))
  {
    var closing := s.closing || poll == GracefulRequested;
    var round := TakeTurn(config, s.worker, s.closing, Turn(poll, wake));
    assert round == Awaken(config, s.worker, closing, wake);
    AwakenKeepsSound(config, s.worker, closing, wake);
    AwakenConsumes(config, s.worker, closing, wake);
    TurnIsAccounted(s, wake, round);
    ClosedOnlyByDisconnect(config, s.worker, closing, wake);
    var a := Book(round.state.history);
    assert a.handed + [] == a.handed;
  }

  lemma TakingIsAccounted(accepted: seq<EventMessage>, history: seq<WorkerEvent>, after: seq<WorkerEvent>,
                          queue: seq<EventMessage>)
    requires queue != [] && Accounted(accepted, history, queue)
    requires Consumed(after) == Consumed(history) + [Shape(queue[0])]
    ensures Accounted(accepted, after, queue[1..])
  {
    var shapes := Shapes(queue);
    assert shapes == [Shape(queue[0])] + Shapes(queue[1..]);
    assert Consumed(history) + ([Shape(queue[0])] + Shapes(queue[1..]))
           == Consumed(history) + [Shape(queue[0])] + Shapes(queue[1..]);
  }

  lemma TurnIsAccounted(s: System, wake: Wake, round: Round)
    requires Accounted(s.accepted, s.worker.history, s.queue)
    requires wake.Message? ==> s.queue != [] && wake.message == s.queue[0]
    requires Consumed(round.state.history)
          == Consumed(s.worker.history) + if wake.Message? then [Shape(wake.message)] else []
    ensures Accounted(s.accepted, round.state.history, if wake.Message? then s.queue[1..] else s.queue)
  {
    if wake.Message? {
      TakingIsAccounted(s.accepted, s.worker.history, round.state.history, s.queue);
    } else {
      assert Consumed(s.worker.history) + [] == Consumed(s.worker.history);
    }
  }

  lemma ClosedOnlyByDisconnect(config: WorkerConfig, s: WorkerState, closing: bool, wake: Wake)
    requires config.maxEventsPerRequest > 0
    ensures Awaken(config, s, closing, wake).exit == Some(ChannelClosed) <==> wake.Disconnected?
  {
  }

  lemma ActKeepsSound(config: WorkerConfig, capacity: nat, s: System, action: Action)
    requires config.maxEventsPerRequest > 0 && Sound(config, capacity, s)
    ensures Sound(config, capacity, Act(config, capacity, s, action))
  {
    match action {
      case TrySend(message) =>
        if s.receiving {
          SendIsAccounted(s.accepted, s.worker.history, s.queue, message);
        }
      case WorkerStep(poll, choice) =>
        if s.exit.None? {
          WorkerStepKeepsSound(config, capacity, s, poll, choice);
        }
      case _ =>
    }
  }

  lemma {:induction false} RunKeepsSound(config: WorkerConfig, capacity: nat, start: System, actions: seq<Action>)
    requires config.maxEventsPerRequest > 0 && Sound(config, capacity, start)
    ensures Sound(config, capacity, Run(config, capacity, start, actions))
  {
    if actions != [] {
      var before := Run(config, capacity, start, actions[..|actions| - 1]);
      RunKeepsSound(config, capacity, start, actions[..|actions| - 1]);
      ActKeepsSound(config, capacity, before, actions[|actions| - 1]);
      assert Run(config, capacity, start, actions) == Act(config, capacity, before, actions[|actions| - 1]);
    }
  }

  // ---------------------------------------------------------------------------------------------------
  // Every run

  function Somes(shapes: seq<Option<PayloadEvent>>): seq<PayloadEvent> {
    if shapes == [] then []
    else Somes(shapes[..|shapes| - 1]) + if shapes[|shapes| - 1].Some? then [shapes[|shapes| - 1].value] else []
  }

  lemma {:induction false} SomesAppend(a: seq<Option<PayloadEvent>>, b: seq<Option<PayloadEvent>>)
    ensures Somes(a + b) == Somes(a) + Somes(b)
  {
    if b == [] {
      assert a + b == a;
    } else {
      SomesAppend(a, b[..|b| - 1]);
      assert (a + b)[..|a + b| - 1] == a + b[..|b| - 1];
    }
  }

  lemma {:induction false} SomesOfShapes(messages: seq<EventMessage>)
    ensures Somes(Shapes(messages)) == Payloads(messages)
  {
    if messages != [] {
      var before, last := messages[..|messages| - 1], messages[|messages| - 1..];
      SomesOfShapes(before);
      PayloadsAppend(before, last);
      assert messages == before + last;
      assert Shapes(messages)[..|before|] == Shapes(before);
    }
  }

  lemma {:induction false} SomesOfConsumed(history: seq<WorkerEvent>)
    ensures Somes(Consumed(history)) == Book(history).received
  {
    if history != [] {
      var before := history[..|history| - 1];
      SomesOfConsumed(before);
      SomesAppend(Consumed(before), Consumed(history)[|Consumed(before)|..]);
      assert Consumed(history) == Consumed(before) + Consumed(history)[|Consumed(before)|..];
    }
  }

  /** At every moment of every run: FIFO, with nothing accepted lost or reordered on the way to delivery, except
      what is left in the channel when a worker that has left its loop drops the receiver. */
  lemma AcceptedEventsAreConserved(config: WorkerConfig, capacity: nat, actions: seq<Action>)
    requires config.maxEventsPerRequest > 0
    ensures var s := Run(config, capacity, START, actions);
            var a := Book(s.worker.history);
            && Payloads(s.accepted) == a.received + Payloads(s.discarded) + Payloads(s.queue)
            && |s.queue| <= capacity
            && (s.receiving ==> s.discarded == [])
            && (!s.receiving ==> s.exit.Some? && s.queue == [])
            && (s.exit.None? && GoesOn(a) ==> Payloads(s.accepted) == a.handed + s.worker.buffer + Payloads(s.queue))
  {
    RunKeepsSound(config, capacity, START, actions);
    var s := Run(config, capacity, START, actions);
    PayloadsAccounted(s.accepted, s.worker.history, Rest(s));
    var received := Book(s.worker.history).received;
    assert received + [] + Payloads(s.queue) == received + Payloads(s.queue);
    assert received + Payloads(s.discarded) + [] == received + Payloads(s.discarded);
  }

  lemma PayloadsAccounted(accepted: seq<EventMessage>, history: seq<WorkerEvent>, rest: seq<EventMessage>)
    requires Accounted(accepted, history, rest)
    ensures Payloads(accepted) == Book(history).received + Payloads(rest)
  {
    SomesOfShapes(accepted);
    SomesOfShapes(rest);
    SomesOfConsumed(history);
    SomesAppend(Consumed(history), Shapes(rest));
  }

  /** A worker that leaves because its channel closed has handed over, in order, every payload that any producer
      was ever told was accepted, also by producers that had loaded the sender before the close, unless delivery
      had stopped or its last send was cancelled. */
  lemma GracefulCloseDrains(config: WorkerConfig, capacity: nat, actions: seq<Action>)
    requires config.maxEventsPerRequest > 0
    requires Run(config, capacity, START, actions).exit == Some(ChannelClosed)
    ensures var s := Run(config, capacity, START, actions);
            && s.queue == [] && s.discarded == []
            && Book(s.worker.history).received == Payloads(s.accepted)
            && (GoesOn(Book(s.worker.history)) ==> Book(s.worker.history).handed == Payloads(s.accepted))
  {
    RunKeepsSound(config, capacity, START, actions);
    AcceptedEventsAreConserved(config, capacity, actions);
    var s := Run(config, capacity, START, actions);
    assert Book(s.worker.history).received + [] + [] == Book(s.worker.history).received;
  }

  /** Nothing can be sent any more. */
  predicate IsShut(s: System) { !s.receiving || (!s.published && s.holders == 0) }

  lemma ActAfterExit(config: WorkerConfig, capacity: nat, s: System, action: Action)
    requires config.maxEventsPerRequest > 0 && s.exit.Some?
    ensures var next := Act(config, capacity, s, action);
            && next.worker == s.worker && next.exit == s.exit && s.accepted <= next.accepted
            && (IsShut(s) ==> IsShut(next) && next.accepted == s.accepted)
  {
  }

  lemma {:induction false} RunAfterExit(config: WorkerConfig, capacity: nat, s: System, actions: seq<Action>)
    requires config.maxEventsPerRequest > 0 && s.exit.Some?
    ensures var later := Run(config, capacity, s, actions);
            && later.worker == s.worker && later.exit == s.exit && s.accepted <= later.accepted
            && (IsShut(s) ==> IsShut(later) && later.accepted == s.accepted)
  {
    if actions != [] {
      RunAfterExit(config, capacity, s, actions[..|actions| - 1]);
      ActAfterExit(config, capacity, Run(config, capacity, s, actions[..|actions| - 1]), actions[|actions| - 1]);
    }
  }

  /** And that stays so: once the worker has left its loop it does no more, and once its receiver is gone, or it
      has left because the channel closed, nothing more is ever accepted. In between, a send can still succeed. */
  lemma NothingAcceptedAfterwards(config: WorkerConfig, capacity: nat, actions: seq<Action>, more: seq<Action>)
    requires config.maxEventsPerRequest > 0
    requires Run(config, capacity, START, actions).exit.Some?
    ensures var s := Run(config, capacity, START, actions);
            var later := Run(config, capacity, s, more);
            && later.worker == s.worker && later.exit == s.exit && s.accepted <= later.accepted
            && (!s.receiving || s.exit == Some(ChannelClosed) ==> later.accepted == s.accepted)
  {
    RunKeepsSound(config, capacity, START, actions);
    RunAfterExit(config, capacity, Run(config, capacity, START, actions), more);
  }

  // ---------------------------------------------------------------------------------------------------
  // The meaning of a flush reply, from the producers' side

  /** The reply answers the flush message that is next after what had been consumed, and it is true exactly when
      delivery has not stopped and every payload accepted between the previous flush message and this one was in
      a batch whose send succeeded. */
  ghost predicate AnswersItsFlush(accepted: seq<EventMessage>, before: seq<WorkerEvent>, delivered: bool) {
    var n := |Consumed(before)|;
    && n < |accepted| && accepted[n].Flush?
    && Shapes(accepted[..n]) == Consumed(before)
    && (delivered <==> !Book(before).fatal && PayloadsSinceFlush(accepted[..n]) == Book(before).succeededSince)
  }

  function PayloadsSinceFlush(messages: seq<EventMessage>): seq<PayloadEvent> {
    if messages == [] || messages[|messages| - 1].Flush? then []
    else PayloadsSinceFlush(messages[..|messages| - 1]) + [messages[|messages| - 1].event]
  }

  lemma {:induction false} SinceFlushOfShapes(messages: seq<EventMessage>)
    ensures SinceFlush(Shapes(messages)) == PayloadsSinceFlush(messages)
  {
    if messages != [] {
      SinceFlushOfShapes(messages[..|messages| - 1]);
      assert Shapes(messages)[..|messages| - 1] == Shapes(messages[..|messages| - 1]);
    }
  }

  lemma {:induction false} ConsumedGrows(history: seq<WorkerEvent>, i: nat)
    requires i <= |history|
    ensures Consumed(history[..i]) <= Consumed(history)
  {
    if i < |history| {
      ConsumedGrows(history[..|history| - 1], i);
      assert history[..|history| - 1][..i] == history[..i];
    } else {
      assert history[..i] == history;
    }
  }

  lemma ReplyIsRight(config: WorkerConfig, capacity: nat, s: System, i: nat)
    requires Sound(config, capacity, s)
    requires i < |s.worker.history| && s.worker.history[i].Answered?
    ensures AnswersItsFlush(s.accepted, s.worker.history[..i], s.worker.history[i].delivered)
  {
    var history := s.worker.history;
    var before, n := history[..i], |Consumed(history[..i])|;
    ConsumedGrows(history, i + 1);
    assert history[..i + 1][..i] == before;
    assert Consumed(history[..i + 1]) == Consumed(before) + [None];
    assert Consumed(history)[n] == Shapes(s.accepted)[n];
    forall k | 0 <= k < n ensures Shapes(s.accepted[..n])[k] == Consumed(before)[k] {
      assert Consumed(history[..i + 1])[k] == Consumed(history)[k] == Shapes(s.accepted)[k];
    }
    assert Shapes(s.accepted[..n]) == Consumed(before);
    CleanMeans(config, history, i);
    BookOfConsumed(before);
    SinceFlushOfShapes(s.accepted[..n]);
  }

  /** Over the whole system, for every reply of every run. */
  lemma EveryReplyIsRight(config: WorkerConfig, capacity: nat, actions: seq<Action>)
    requires config.maxEventsPerRequest > 0
    ensures var s := Run(config, capacity, START, actions);
            forall i :: 0 <= i < |s.worker.history| && s.worker.history[i].Answered? ==>
                          AnswersItsFlush(s.accepted, s.worker.history[..i], s.worker.history[i].delivered)
  {
    RunKeepsSound(config, capacity, START, actions);
    var s := Run(config, capacity, START, actions);
    forall i | 0 <= i < |s.worker.history| && s.worker.history[i].Answered?
      ensures AnswersItsFlush(s.accepted, s.worker.history[..i], s.worker.history[i].delivered)
    {
      ReplyIsRight(config, capacity, s, i);
    }
  }

  // ---------------------------------------------------------------------------------------------------
  // What ends the worker, and what lets it drain

  predicate IsAbortStep(action: Action) {
    action.WorkerStep? && (action.poll == AbortRequested || action.choice == TakeShutdown(false))
  }

  predicate IsGracefulStep(action: Action) {
    action.WorkerStep? && (action.poll == GracefulRequested || action.choice == TakeShutdown(true))
  }

  /** No shared sender, no producer's, and nothing queued: the receiver reports the disconnection. */
  predicate FindsTheChannelClosed(s: System, action: Action) {
    action.WorkerStep? && action.choice.TakeChannel? && !s.published && s.holders == 0 && s.queue == []
  }

  /** Of a worker in its loop: an abort step ends it, at once and with nothing handed over; finding the channel closed
      ends it after a last flush; a graceful shutdown ends nothing, but from then on the timer does nothing. */
  lemma StepMeaning(config: WorkerConfig, capacity: nat, s: System, action: Action)
    requires config.maxEventsPerRequest > 0 && Sound(config, capacity, s) && s.exit.None?
    ensures var next := Act(config, capacity, s, action);
            && (next.exit == Some(Aborted) <==> IsAbortStep(action))
            && (IsAbortStep(action) ==> next.worker == s.worker && next.queue == s.queue)
            && (next.exit == Some(ChannelClosed) <==> !IsAbortStep(action) && FindsTheChannelClosed(s, action))
            && (next.exit == Some(SendCancelled) ==> Book(next.worker.history).cancelled)
            && (!IsAbortStep(action) ==> next.closing == (s.closing || IsGracefulStep(action)))
            && (next.closing && action.WorkerStep? && action.choice.TakeTimer? ==> next.worker == s.worker)
  {
    match action {
      case WorkerStep(poll, choice) =>
        var wake := match choice
                    case TakeShutdown(graceful) => Some(ShutdownMessage(graceful))
                    case TakeChannel(exchanges) => Yield(s, exchanges)
                    case TakeTimer(exchanges) => Some(Timer(exchanges));
        if wake.Some? {
          TurnMeaning(config, s.worker, s.closing, Turn(poll, wake.value));
        }
      case _ =>
    }
  }

  /** The worker is still in its loop when it takes step `i`. */
  ghost predicate IsInLoop(config: WorkerConfig, capacity: nat, actions: seq<Action>, i: int)
    requires config.maxEventsPerRequest > 0
  {
    0 <= i < |actions| && Run(config, capacity, START, actions[..i]).exit.None?
  }

  /** Over every run of the system: the worker ends as aborted exactly if it takes an abort step; without one it ends
      only because the channel closed or a send was cancelled; and it is closing exactly if it took a graceful one. */
  lemma SystemShutdownMeaning(config: WorkerConfig, capacity: nat, actions: seq<Action>)
    requires config.maxEventsPerRequest > 0
    ensures var s := Run(config, capacity, START, actions);
            && (s.exit == Some(Aborted)
                <==> exists i :: IsInLoop(config, capacity, actions, i) && IsAbortStep(actions[i]))
            && (s.exit != Some(Aborted) ==>
                  (s.closing <==> exists i :: IsInLoop(config, capacity, actions, i) && IsGracefulStep(actions[i])))
  {
    Shutdowns(config, capacity, actions);
    TookStepMeans(config, capacity, actions, IsAbortStep);
    TookStepMeans(config, capacity, actions, IsGracefulStep);
  }

  /** The worker took a step of a kind while in its loop. */
  ghost predicate TookStep(config: WorkerConfig, capacity: nat, actions: seq<Action>, kind: Action -> bool)
    requires config.maxEventsPerRequest > 0
  {
    actions != [] &&
    var last := |actions| - 1;
    || TookStep(config, capacity, actions[..last], kind)
    || (Run(config, capacity, START, actions[..last]).exit.None? && kind(actions[last]))
  }

  lemma TookStepMeans(config: WorkerConfig, capacity: nat, actions: seq<Action>, kind: Action -> bool)
    requires config.maxEventsPerRequest > 0
    ensures TookStep(config, capacity, actions, kind) <==>
            exists i :: IsInLoop(config, capacity, actions, i) && kind(actions[i])
  {
    if TookStep(config, capacity, actions, kind) {
      var _ := StepTaken(config, capacity, actions, kind);
    }
    forall i | IsInLoop(config, capacity, actions, i) && kind(actions[i])
      ensures TookStep(config, capacity, actions, kind)
    {
      TakingIsRecorded(config, capacity, actions, kind, i);
    }
  }

  lemma {:induction false} StepTaken(config: WorkerConfig, capacity: nat, actions: seq<Action>, kind: Action -> bool)
    returns (i: nat)
    requires config.maxEventsPerRequest > 0 && TookStep(config, capacity, actions, kind)
    ensures IsInLoop(config, capacity, actions, i) && kind(actions[i])
  {
    var n := |actions| - 1;
    if TookStep(config, capacity, actions[..n], kind) {
      i := StepTaken(config, capacity, actions[..n], kind);
      InLoopPrefix(config, capacity, actions, i);
    } else {
      i := n;
    }
  }

  lemma {:induction false} TakingIsRecorded(config: WorkerConfig, capacity: nat, actions: seq<Action>,
                                            kind: Action -> bool, i: nat)
    requires config.maxEventsPerRequest > 0 && IsInLoop(config, capacity, actions, i) && kind(actions[i])
    ensures TookStep(config, capacity, actions, kind)
  {
    if i < |actions| - 1 {
      InLoopPrefix(config, capacity, actions, i);
      TakingIsRecorded(config, capacity, actions[..|actions| - 1], kind, i);
    }
  }

  lemma InLoopPrefix(config: WorkerConfig, capacity: nat, actions: seq<Action>, i: nat)
    requires config.maxEventsPerRequest > 0 && i < |actions| - 1
    ensures IsInLoop(config, capacity, actions, i) <==> IsInLoop(config, capacity, actions[..|actions| - 1], i)
  {
    assert actions[..|actions| - 1][..i] == actions[..i];
  }

  lemma {:induction false} Shutdowns(config: WorkerConfig, capacity: nat, actions: seq<Action>)
    requires config.maxEventsPerRequest > 0
    ensures var s := Run(config, capacity, START, actions);
            && (s.exit == Some(Aborted) <==> TookStep(config, capacity, actions, IsAbortStep))
            && (s.exit != Some(Aborted) ==> (s.closing <==> TookStep(config, capacity, actions, IsGracefulStep)))
  {
    if actions != [] {
      var n := |actions| - 1;
      var prefix, s := actions[..n], Run(config, capacity, START, actions[..n]);
      Shutdowns(config, capacity, prefix);
      RunKeepsSound(config, capacity, START, prefix);
      if s.exit.None? {
        StepMeaning(config, capacity, s, actions[n]);
      } else {
        ActAfterExit(config, capacity, s, actions[n]);
        ClosingAfterExit(config, capacity, s, actions[n]);
      }
    }
  }

  lemma ClosingAfterExit(config: WorkerConfig, capacity: nat, s: System, action: Action)
    requires config.maxEventsPerRequest > 0 && s.exit.Some?
    ensures Act(config, capacity, s, action).closing == s.closing
  {
  }

  /** A send is accepted exactly by a sender that holds the channel while its receiver is there and there is room. */
  lemma SendMeaning(config: WorkerConfig, capacity: nat, s: System, message: EventMessage)
    requires config.maxEventsPerRequest > 0
    ensures var next := Act(config, capacity, s, TrySend(message));
            if s.holders > 0 && s.receiving && |s.queue| < capacity
            then next.accepted == s.accepted + [message] && next.queue == s.queue + [message]
            else next == s
  {
  }

  // ---------------------------------------------------------------------------------------------------
  // A closed channel drains

  lemma {:induction false} RunFromFront(config: WorkerConfig, capacity: nat, s: System, action: Action,
                                        rest: seq<Action>)
    requires config.maxEventsPerRequest > 0
    ensures Run(config, capacity, s, [action] + rest) == Run(config, capacity, Act(config, capacity, s, action), rest)
  {
    if rest == [] {
      OneAction(config, capacity, s, action);
      assert [action] + rest == [action];
    } else {
      var n := |rest| - 1;
      RunFromFront(config, capacity, s, action, rest[..n]);
      RunAppends(config, capacity, s, [action] + rest[..n], rest[n]);
      RunAppends(config, capacity, Act(config, capacity, s, action), rest[..n], rest[n]);
      assert [action] + rest == [action] + rest[..n] + [rest[n]] && rest == rest[..n] + [rest[n]];
    }
  }

  lemma OneAction(config: WorkerConfig, capacity: nat, s: System, action: Action)
    requires config.maxEventsPerRequest > 0
    ensures Run(config, capacity, s, [action]) == Act(config, capacity, s, action)
  {
    assert [action][..0] == [];
  }

  lemma RunAppends(config: WorkerConfig, capacity: nat, s: System, actions: seq<Action>, last: Action)
    requires config.maxEventsPerRequest > 0
    ensures Run(config, capacity, s, actions + [last]) == Act(config, capacity, Run(config, capacity, s, actions), last)
  {
    assert (actions + [last])[..|actions|] == actions;
  }

  /** Turns in which the worker takes from the channel. */
  function Takings(exchanges: Exchanges, n: nat): seq<Action> {
    if n == 0 then [] else [WorkerStep(Empty, TakeChannel(exchanges))] + Takings(exchanges, n - 1)
  }

  /** `close` keeps new producers out for good. */
  lemma CloseMeaning(config: WorkerConfig, capacity: nat, s: System, action: Action)
    requires config.maxEventsPerRequest > 0
    ensures !Act(config, capacity, s, Close).published
    ensures !s.published ==>
            !Act(config, capacity, s, action).published && Act(config, capacity, s, action).holders <= s.holders
    ensures Act(config, capacity, s, DropSender).holders == if s.holders > 0 then s.holders - 1 else 0
    ensures s.published ==> Act(config, capacity, s, LoadSender).holders == s.holders + 1
  {
  }

  ghost predicate IsDrained(config: WorkerConfig, capacity: nat, s: System) {
    && Sound(config, capacity, s)
    && (|| s.exit == Some(SendCancelled)
        || (s.exit == Some(ChannelClosed) && s.queue == [] && s.worker.buffer == []))
  }

  /** Once the last sender is gone, the worker takes what is left, message by message, and then leaves because the
      channel has closed, with everything handed over, unless a send is cancelled on the way. */
  lemma ClosedChannelDrains(config: WorkerConfig, capacity: nat, s: System, exchanges: Exchanges)
    requires config.maxEventsPerRequest > 0 && Sound(config, capacity, s)
    requires s.exit.None? && !s.published && s.holders == 0
    ensures IsDrained(config, capacity, Run(config, capacity, s, Takings(exchanges, |s.queue| + 1)))
  {
    Drains(config, capacity, s, exchanges, |s.queue|);
  }

  lemma {:induction false} Drains(config: WorkerConfig, capacity: nat, s: System, exchanges: Exchanges, n: nat)
    requires config.maxEventsPerRequest > 0 && Sound(config, capacity, s) && n == |s.queue|
    requires s.exit.None? && !s.published && s.holders == 0
    ensures IsDrained(config, capacity, Run(config, capacity, s, Takings(exchanges, n + 1)))
    decreases n
  {
    var next := Act(config, capacity, s, WorkerStep(Empty, TakeChannel(exchanges)));
    TakingMeaning(config, capacity, s, exchanges);
    RunFromFront(config, capacity, s, WorkerStep(Empty, TakeChannel(exchanges)), Takings(exchanges, n));
    if n == 0 {
      assert Run(config, capacity, next, []) == next;
    } else if next.exit.None? {
      Drains(config, capacity, next, exchanges, n - 1);
    } else {
      StaysLeft(config, capacity, next, Takings(exchanges, n));
    }
  }

  lemma StaysLeft(config: WorkerConfig, capacity: nat, s: System, rest: seq<Action>)
    requires config.maxEventsPerRequest > 0 && Sound(config, capacity, s) && s.exit.Some?
    ensures var end := Run(config, capacity, s, rest); Sound(config, capacity, end) && end.exit == s.exit
  {
    RunAfterExit(config, capacity, s, rest);
    RunKeepsSound(config, capacity, s, rest);
  }

  lemma TakingMeaning(config: WorkerConfig, capacity: nat, s: System, exchanges: Exchanges)
    requires config.maxEventsPerRequest > 0 && Sound(config, capacity, s)
    requires s.exit.None? && !s.published && s.holders == 0
    ensures var next := Act(config, capacity, s, WorkerStep(Empty, TakeChannel(exchanges)));
            && Sound(config, capacity, next) && !next.published && next.holders == 0
            && (if s.queue == [] then next.exit == Some(ChannelClosed) && next.queue == [] && next.worker.buffer == []
                else next.queue == s.queue[1..] && (next.exit == None || next.exit == Some(SendCancelled)))
  {
    var step := WorkerStep(Empty, TakeChannel(exchanges));
    ActKeepsSound(config, capacity, s, step);
    StepMeaning(config, capacity, s, step);
    if s.queue == [] {
      AwakenKeepsSound(config, s.worker, s.closing, Disconnected(exchanges));
    }
  }
}
