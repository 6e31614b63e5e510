/** Properties of every run of the event worker. */
module WorkerRuns {
  import opened Wrappers
  import opened Worker

  /** What a history adds up to. The `since` parts start over at each flush message. */
  datatype Account = Account(
    received: seq<PayloadEvent>,
    handed: seq<PayloadEvent>,
    receivedSince: seq<PayloadEvent>,
    handedSince: seq<PayloadEvent>,
    succeededSince: seq<PayloadEvent>,
    fatal: bool,
    cancelled: bool)

  const NOTHING := Account([], [], [], [], [], false, false)

  function Enter(a: Account, e: WorkerEvent): Account {
    match e
    case Received(event) => a.(received := a.received + [event], receivedSince := a.receivedSince + [event])
    case Handed(batch, outcome) =>
      a.(handed := a.handed + batch, handedSince := a.handedSince + batch,
         succeededSince := if outcome == Sent(Succeeded) then a.succeededSince + batch else a.succeededSince,
         fatal := a.fatal || outcome == Sent(Fatal),
         cancelled := a.cancelled || outcome == Sent(Cancelled))
    case Answered(_) => a.(receivedSince := [], handedSince := [], succeededSince := [])
  }

  function Book(history: seq<WorkerEvent>): Account {
    if history == [] then NOTHING else Enter(Book(history[..|history| - 1]), history[|history| - 1])
  }

  /** Delivery goes on: no fatal answer, no cancelled send. */
  predicate GoesOn(a: Account) { !a.fatal && !a.cancelled }

  /** What each event of a history may be, given what came before it. A batch has between one event and the
      configured maximum, and none follows a fatal or cancelled one. The answer to a flush message is true
      exactly when delivery has not stopped and every event received since the previous flush message was in
      a batch whose send succeeded. */
  ghost predicate Allowed(config: WorkerConfig, before: Account, e: WorkerEvent) {
    match e
    case Received(_) => true
    case Handed(batch, _) => 1 <= |batch| <= config.maxEventsPerRequest && GoesOn(before)
    case Answered(delivered) => delivered <==> !before.fatal && before.receivedSince == before.succeededSince
  }

  ghost predicate AllAllowed(config: WorkerConfig, history: seq<WorkerEvent>) {
    forall i :: 0 <= i < |history| ==> Allowed(config, Book(history[..i]), history[i])
  }

  // ---------------------------------------------------------------------------------------------------
  // The invariant

  ghost predicate Clean(config: WorkerConfig, history: seq<WorkerEvent>) {
    history != [] ==>
      Clean(config, history[..|history| - 1]) && Allowed(config, Book(history[..|history| - 1]), history[|history| - 1])
  }

  lemma {:induction false} CleanMeans(config: WorkerConfig, history: seq<WorkerEvent>, n: nat)
    requires Clean(config, history) && n < |history|
    ensures Allowed(config, Book(history[..n]), history[n])
  {
    if n < |history| - 1 {
      CleanMeans(config, history[..|history| - 1], n);
      assert history[..|history| - 1][..n] == history[..n];
    }
  }

  /** Of a batch, all or nothing succeeded; `failed` says whether something since the last flush did not. */
  ghost predicate Tracks(a: Account, failed: bool) {
    if failed then |a.succeededSince| < |a.handedSince| else a.succeededSince == a.handedSince
  }

  /** `outstanding` is what has been received and not handed over. */
  ghost predicate Conserves(a: Account, outstanding: seq<PayloadEvent>) {
    a.received == a.handed + outstanding && a.receivedSince == a.handedSince + outstanding
  }

  /** Holds at every head of the worker's loop. */
  ghost predicate Sound(config: WorkerConfig, s: WorkerState) {
    var a := Book(s.history);
    && config.maxEventsPerRequest > 0
    && Clean(config, s.history)
    && s.stopped == a.fatal
    && (GoesOn(a) ==> Conserves(a, s.buffer) && Tracks(a, s.unreportedFailure)
                      && |s.buffer| < config.maxEventsPerRequest)
    && (s.stopped ==> s.buffer == [])
  }

  lemma SawOne(s: WorkerState, e: WorkerEvent)
    ensures Book(s.Saw(e).history) == Enter(Book(s.history), e)
    ensures forall config :: Clean(config, s.Saw(e).history) <==>
            Clean(config, s.history) && Allowed(config, Book(s.history), e)
  {
    assert (s.history + [e])[..|s.history|] == s.history;
  }

  /** What a delivery does to the books. */
  ghost predicate Delivered(config: WorkerConfig, s: WorkerState, events: seq<PayloadEvent>, failedBefore: bool,
                            s': WorkerState, outcome: FlushOutcome)
  {
    var a, a' := Book(s.history), Book(s'.history);
    && Clean(config, s'.history)
    && s'.buffer == s.buffer && s'.unreportedFailure == s.unreportedFailure && s'.stopped == a'.fatal
    && a'.received == a.received && a'.receivedSince == a.receivedSince
    && outcome.keepRunning == !a'.cancelled
    && (GoesOn(a') ==> a'.handed == a.handed + events && a'.handedSince == a.handedSince + events
                       && Tracks(a', failedBefore || !outcome.delivered))
    && (!GoesOn(a') ==> !outcome.delivered && |a'.succeededSince| < |a.handedSince| + |events|)
  }

  lemma HandOverStep(config: WorkerConfig, s: WorkerState, batch: seq<PayloadEvent>, outcome: HandOver, failed: bool)
    requires Clean(config, s.history) && GoesOn(Book(s.history)) && Tracks(Book(s.history), failed)
    requires 1 <= |batch| <= config.maxEventsPerRequest
    ensures var after := s.Saw(Handed(batch, outcome));
            && Clean(config, after.history)
            && Book(after.history) == Enter(Book(s.history), Handed(batch, outcome))
            && Tracks(Book(after.history), failed || outcome != Sent(Succeeded))
  {
    SawOne(s, Handed(batch, outcome));
  }

  lemma HandOversCompose(config: WorkerConfig, s: WorkerState, batch: seq<PayloadEvent>, handOver: HandOver,
                         rest: seq<PayloadEvent>,
                         failedBefore: bool, s': WorkerState, outcome: FlushOutcome)
    requires handOver != Sent(Fatal) && handOver != Sent(Cancelled)
    requires Book(s.Saw(Handed(batch, handOver)).history) == Enter(Book(s.history), Handed(batch, handOver))
    requires Delivered(config, s.Saw(Handed(batch, handOver)), rest, failedBefore, s', outcome)
    ensures Delivered(config, s, batch + rest, failedBefore, s', outcome)
  {
    var a := Book(s.history);
    assert a.handed + batch + rest == a.handed + (batch + rest);
    assert a.handedSince + batch + rest == a.handedSince + (batch + rest);
  }

  lemma {:induction false} DeliverKeepsBooks(config: WorkerConfig, s: WorkerState, events: seq<PayloadEvent>,
                                             exchanges: Exchanges, k: nat, delivered: bool, failedBefore: bool)
    requires config.maxEventsPerRequest > 0
    requires Clean(config, s.history) && GoesOn(Book(s.history)) && !s.stopped
    requires Tracks(Book(s.history), failedBefore || !delivered)
    ensures var (s', outcome) := Deliver(config, s, events, exchanges, k, delivered);
            Delivered(config, s, events, failedBefore, s', outcome)
    decreases |events|
  {
    if events == [] {
      NothingDelivered(config, s, failedBefore, delivered);
    } else {
      var n := Chunk(config, events);
      var batch, rest := events[..n], events[n..];
      var handOver := HandOverOf(config, exchanges(k));
      assert batch + rest == events;
      HandOverStep(config, s, batch, handOver, failedBefore || !delivered);
      if handOver == Sent(Fatal) || handOver == Sent(Cancelled) {
        DeliveryEnds(config, s, batch, handOver, rest, failedBefore);
      } else {
        var after, delivered' := s.Saw(Handed(batch, handOver)), delivered && handOver == Sent(Succeeded);
        DeliverKeepsBooks(config, after, rest, exchanges, k + 1, delivered', failedBefore);
        var (s', outcome) := Deliver(config, after, rest, exchanges, k + 1, delivered');
        HandOversCompose(config, s, batch, handOver, rest, failedBefore, s', outcome);
      }
    }
  }

  lemma NothingDelivered(config: WorkerConfig, s: WorkerState, failedBefore: bool, delivered: bool)
    requires Clean(config, s.history) && GoesOn(Book(s.history)) && !s.stopped
    requires Tracks(Book(s.history), failedBefore || !delivered)
    ensures Delivered(config, s, [], failedBefore, s, FlushOutcome(delivered, true))
  {
    var a := Book(s.history);
    assert a.handed + [] == a.handed && a.handedSince + [] == a.handedSince;
  }

  lemma DeliveryEnds(config: WorkerConfig, s: WorkerState, batch: seq<PayloadEvent>, handOver: HandOver,
                     rest: seq<PayloadEvent>, failedBefore: bool)
    requires handOver == Sent(Fatal) || handOver == Sent(Cancelled)
    requires Clean(config, s.Saw(Handed(batch, handOver)).history) && GoesOn(Book(s.history)) && !s.stopped
    requires Book(s.Saw(Handed(batch, handOver)).history) == Enter(Book(s.history), Handed(batch, handOver))
    requires |Book(s.history).succeededSince| <= |Book(s.history).handedSince| && |batch| > 0
    ensures var fatal := handOver == Sent(Fatal);
            var s' := s.Saw(Handed(batch, handOver)).(stopped := fatal);
            Delivered(config, s, batch + rest, failedBefore, s', FlushOutcome(false, fatal))
  {
  }

  lemma FlushKeepsBooks(config: WorkerConfig, s: WorkerState, exchanges: Exchanges)
    requires config.maxEventsPerRequest > 0 && Clean(config, s.history) && s.stopped == Book(s.history).fatal
    requires !Book(s.history).cancelled
    requires GoesOn(Book(s.history)) ==>
             Conserves(Book(s.history), s.buffer) && Tracks(Book(s.history), s.unreportedFailure)
    ensures var (s', outcome) := FlushBuffer(config, s, exchanges);
            var a' := Book(s'.history);
            && Clean(config, s'.history) && s'.buffer == [] && s'.stopped == a'.fatal
            && s'.unreportedFailure == s.unreportedFailure
            && outcome.keepRunning == !a'.cancelled
            && (GoesOn(a') ==> Conserves(a', []) && Tracks(a', s.unreportedFailure || !outcome.delivered))
            && (!GoesOn(a') ==> !outcome.delivered && (a'.fatal || |a'.succeededSince| < |a'.receivedSince|))
            && a'.received == Book(s.history).received
  {
    if !s.stopped && s.buffer != [] {
      DeliverKeepsBooks(config, s.(buffer := []), s.buffer, exchanges, 0, true, s.unreportedFailure);
      var (s', outcome) := FlushBuffer(config, s, exchanges);
      var a' := Book(s'.history);
      assert GoesOn(a') ==> a'.handed + [] == a'.handed && a'.handedSince + [] == a'.handedSince;
    }
  }

  lemma ProcessKeepsSound(config: WorkerConfig, s: WorkerState, message: EventMessage, exchanges: Exchanges)
    requires Sound(config, s) && !Book(s.history).cancelled
    ensures var (s', keepRunning) := Processed(config, s, message, exchanges);
            Sound(config, s') && keepRunning == !Book(s'.history).cancelled
    ensures Book(Processed(config, s, message, exchanges).0.history).received
         == Book(s.history).received + if message.Payload? then [message.event] else []
    ensures message.Flush? ==> Processed(config, s, message, exchanges).0.buffer == []
  {
    match message {
      case Payload(event) => PayloadKeepsSound(config, s, event, exchanges);
      case Flush(_) =>
        FlushKeepsBooks(config, s, exchanges);
        var (flushed, outcome) := FlushBuffer(config, s, exchanges);
        AnswerIsRight(config, s, flushed, outcome);
    }
  }

  lemma PayloadKeepsSound(config: WorkerConfig, s: WorkerState, event: PayloadEvent, exchanges: Exchanges)
    requires Sound(config, s) && !Book(s.history).cancelled
    ensures var (s', keepRunning) := Processed(config, s, Payload(event), exchanges);
            Sound(config, s') && keepRunning == !Book(s'.history).cancelled
            && Book(s'.history).received == Book(s.history).received + [event]
  {
    PushStep(config, s, event);
    var pushed := s.Saw(Received(event)).(buffer := s.buffer + [event]);
    if !s.stopped && |pushed.buffer| >= config.maxEventsPerRequest {
      FlushKeepsBooks(config, pushed, exchanges);
    }
  }

  lemma PushStep(config: WorkerConfig, s: WorkerState, event: PayloadEvent)
    requires Sound(config, s)
    ensures var seen, a := s.Saw(Received(event)), Book(s.history);
            && Book(seen.history) == Enter(a, Received(event))
            && Clean(config, seen.history)
            && (GoesOn(a) ==> Conserves(Book(seen.history), s.buffer + [event])
                              && Tracks(Book(seen.history), s.unreportedFailure))
  {
    SawOne(s, Received(event));
    var a := Book(s.history);
    assert a.handed + s.buffer + [event] == a.handed + (s.buffer + [event]);
    assert a.handedSince + s.buffer + [event] == a.handedSince + (s.buffer + [event]);
  }

  lemma AnswerIsRight(config: WorkerConfig, s: WorkerState, flushed: WorkerState, outcome: FlushOutcome)
    requires config.maxEventsPerRequest > 0
    requires var a := Book(flushed.history);
             && Clean(config, flushed.history) && flushed.buffer == [] && flushed.stopped == a.fatal
             && flushed.unreportedFailure == s.unreportedFailure
             && (GoesOn(a) ==> Conserves(a, []) && Tracks(a, s.unreportedFailure || !outcome.delivered))
             && (!GoesOn(a) ==> !outcome.delivered && (a.fatal || |a.succeededSince| < |a.receivedSince|))
    ensures var delivered := outcome.delivered && !flushed.unreportedFailure;
            var answered := flushed.(unreportedFailure := false).Saw(Answered(delivered));
            Sound(config, answered) && Book(answered.history).cancelled == Book(flushed.history).cancelled
            && Book(answered.history).received == Book(flushed.history).received
  {
    var a := Book(flushed.history);
    SawOne(flushed.(unreportedFailure := false), Answered(outcome.delivered && !flushed.unreportedFailure));
    if GoesOn(a) {
      assert a.handedSince + [] == a.handedSince;
    }
  }

  // ---------------------------------------------------------------------------------------------------
  // Every run

  ghost predicate RoundSound(config: WorkerConfig, r: Round) {
    var a := Book(r.state.history);
    && Clean(config, r.state.history)
    && (r.exit.None? ==> Sound(config, r.state) && !a.cancelled)
    && (r.exit == Some(SendCancelled) ==> a.cancelled)
    && (r.exit == Some(Aborted) ==> !a.cancelled)
    && (GoesOn(a) ==> a.received == a.handed + r.state.buffer)
    && (r.exit == Some(ChannelClosed) ==> r.state.buffer == [])
  }

  lemma AwakenKeepsSound(config: WorkerConfig, s: WorkerState, closing: bool, wake: Wake)
    requires Sound(config, s) && !Book(s.history).cancelled
    ensures RoundSound(config, Awaken(config, s, closing, wake))
    ensures Book(Awaken(config, s, closing, wake).state.history).received
         == Book(s.history).received + if wake.Message? && wake.message.Payload? then [wake.message.event] else []
    ensures wake.Disconnected? || (wake.Timer? && !closing) || (wake.Message? && wake.message.Flush?) ==>
            Awaken(config, s, closing, wake).state.buffer == []
  {
    match wake {
      case ShutdownMessage(_) =>
      case Message(message, exchanges) => ProcessKeepsSound(config, s, message, exchanges);
      case Disconnected(exchanges) => FlushKeepsBooks(config, s, exchanges);
      case Timer(exchanges) => FlushKeepsBooks(config, s, exchanges);
    }
  }

  lemma {:induction false} TurnsKeepSound(config: WorkerConfig, s: WorkerState, closing: bool, turns: seq<Turn>)
    requires Sound(config, s) && !Book(s.history).cancelled
    ensures RoundSound(config, RunTurns(config, s, closing, turns))
    decreases |turns|
  {
    if turns != [] {
      var turn := turns[0];
      AwakenKeepsSound(config, s, closing || turn.poll == GracefulRequested, turn.wake);
      var round := TakeTurn(config, s, closing, turn);
      if round.exit.None? {
        TurnsKeepSound(config, round.state, round.closing, turns[1..]);
      }
    }
  }

  const NEW_WORKER := WorkerState([], false, false, [])

  /** For every run of the worker, whatever the channel, the clock and the server do: every batch is of a legal
      size, nothing is handed over after a fatal answer, every flush is answered rightly; until a fatal answer
      or a cancelled send, what was received is, in order, what was handed over followed by the buffer; and a
      worker whose channel has closed has handed over everything it received. */
  lemma EveryRunIsSound(config: WorkerConfig, turns: seq<Turn>)
    requires config.maxEventsPerRequest > 0
    ensures var r := RunTurns(config, NEW_WORKER, false, turns);
            var a := Book(r.state.history);
            && AllAllowed(config, r.state.history)
            && (GoesOn(a) ==> a.received == a.handed + r.state.buffer)
            && (r.exit.None? ==> |r.state.buffer| < config.maxEventsPerRequest)
            && (r.exit == Some(ChannelClosed) && GoesOn(a) ==> a.received == a.handed)
            && (r.exit == Some(SendCancelled) ==> a.cancelled)
  {
    TurnsKeepSound(config, NEW_WORKER, false, turns);
    var r := RunTurns(config, NEW_WORKER, false, turns);
    forall i | 0 <= i < |r.state.history| ensures Allowed(config, Book(r.state.history[..i]), r.state.history[i]) {
      CleanMeans(config, r.state.history, i);
    }
    assert Book(r.state.history).handed + [] == Book(r.state.history).handed;
  }

  // ---------------------------------------------------------------------------------------------------
  // Which messages a history has consumed

  /** A message as far as the books can tell: its payload, or none for a flush. */
  function Shape(message: EventMessage): Option<PayloadEvent> {
    if message.Payload? then Some(message.event) else None
  }

  function Consumed(history: seq<WorkerEvent>): seq<Option<PayloadEvent>> {
    if history == [] then []
    else
      Consumed(history[..|history| - 1]) +
      match history[|history| - 1]
      case Received(event) => [Some(event)]
      case Answered(_) => [None]
      case Handed(_, _) => []
  }

  /** The payloads after the last flush. */
  function SinceFlush(messages: seq<Option<PayloadEvent>>): seq<PayloadEvent> {
    if messages == [] || messages[|messages| - 1].None? then []
    else SinceFlush(messages[..|messages| - 1]) + [messages[|messages| - 1].value]
  }

  lemma {:induction false} BookOfConsumed(history: seq<WorkerEvent>)
    ensures Book(history).receivedSince == SinceFlush(Consumed(history))
  {
    if history != [] {
      var before := history[..|history| - 1];
      BookOfConsumed(before);
      var last := history[|history| - 1];
      if last.Received? {
        assert Consumed(history) == Consumed(before) + [Some(last.event)];
        assert (Consumed(before) + [Some(last.event)])[..|Consumed(before)|] == Consumed(before);
      } else if last.Answered? {
        assert Consumed(history) == Consumed(before) + [None];
      } else {
        assert Consumed(history) == Consumed(before) + [] == Consumed(before);
      }
    }
  }

  lemma {:induction false} DeliverConsumes(config: WorkerConfig, s: WorkerState, events: seq<PayloadEvent>,
                                           exchanges: Exchanges, k: nat, delivered: bool)
    requires config.maxEventsPerRequest > 0
    ensures Consumed(Deliver(config, s, events, exchanges, k, delivered).0.history) == Consumed(s.history)
    decreases |events|
  {
    if events != [] {
      var n := Chunk(config, events);
      var handOver := HandOverOf(config, exchanges(k));
      var after := s.Saw(Handed(events[..n], handOver));
      SawOne(s, Handed(events[..n], handOver));
      assert after.history[..|after.history| - 1] == s.history;
      DeliverConsumes(config, after, events[n..], exchanges, k + 1, delivered && handOver == Sent(Succeeded));
    }
  }

  lemma FlushConsumes(config: WorkerConfig, s: WorkerState, exchanges: Exchanges)
    requires config.maxEventsPerRequest > 0
    ensures Consumed(FlushBuffer(config, s, exchanges).0.history) == Consumed(s.history)
  {
    DeliverConsumes(config, s.(buffer := []), s.buffer, exchanges, 0, true);
  }

  lemma SeeingConsumes(s: WorkerState, e: WorkerEvent)
    requires !e.Handed?
    ensures Consumed(s.Saw(e).history) == Consumed(s.history) + [if e.Received? then Some(e.event) else None]
  {
    assert (s.history + [e])[..|s.history|] == s.history;
  }

  /** A message is consumed by its processing, whatever is delivered meanwhile. */
  lemma ProcessedConsumes(config: WorkerConfig, s: WorkerState, message: EventMessage, exchanges: Exchanges)
    requires config.maxEventsPerRequest > 0
    ensures Consumed(Processed(config, s, message, exchanges).0.history) == Consumed(s.history) + [Shape(message)]
  {
    match message {
      case Payload(event) =>
        SeeingConsumes(s, Received(event));
        FlushConsumes(config, s.Saw(Received(event)).(buffer := s.buffer + [event]), exchanges);
      case Flush(_) =>
        FlushConsumes(config, s, exchanges);
        var (flushed, outcome) := FlushBuffer(config, s, exchanges);
        SeeingConsumes(flushed.(unreportedFailure := false), Answered(outcome.delivered && !flushed.unreportedFailure));
    }
  }

  lemma AwakenConsumes(config: WorkerConfig, s: WorkerState, closing: bool, wake: Wake)
    requires config.maxEventsPerRequest > 0
    ensures Consumed(Awaken(config, s, closing, wake).state.history)
         == Consumed(s.history) + if wake.Message? then [Shape(wake.message)] else []
  {
    match wake {
      case ShutdownMessage(_) =>
      case Message(message, exchanges) => ProcessedConsumes(config, s, message, exchanges);
      case Disconnected(exchanges) => FlushConsumes(config, s, exchanges);
      case Timer(exchanges) => FlushConsumes(config, s, exchanges);
    }
  }

  // ---------------------------------------------------------------------------------------------------
  // When a batch is handed over

  /** A nonempty buffer goes out as one batch, whole and in order; a worker whose delivery has stopped drops it. */
  lemma FlushIsOneBatch(config: WorkerConfig, s: WorkerState, exchanges: Exchanges)
    requires config.maxEventsPerRequest > 0 && |s.buffer| <= config.maxEventsPerRequest
    ensures var after := FlushBuffer(config, s, exchanges).0;
            && after.buffer == []
            && after.history == if s.stopped || s.buffer == [] then s.history
                                else s.history + [Handed(s.buffer, HandOverOf(config, exchanges(0)))]
  {
    if !s.stopped && s.buffer != [] {
      var n := Chunk(config, s.buffer);
      assert n == |s.buffer| && s.buffer[..n] == s.buffer && s.buffer[n..] == [];
      var handOver := HandOverOf(config, exchanges(0));
      var after := s.(buffer := []).Saw(Handed(s.buffer, handOver));
      assert Deliver(config, after, [], exchanges, 1, handOver == Sent(Succeeded)).0 == after;
    }
  }

  /** A payload waits in the buffer until it fills a batch; it goes out then, with all before it, and not earlier. Once
      delivery has stopped it is dropped. */
  lemma PayloadsWaitForABatch(config: WorkerConfig, s: WorkerState, event: PayloadEvent, exchanges: Exchanges)
    requires config.maxEventsPerRequest > 0 && |s.buffer| < config.maxEventsPerRequest
    ensures var after := Processed(config, s, Payload(event), exchanges).0;
            if s.stopped then after == s.(history := s.history + [Received(event)])
            else if |s.buffer| + 1 < config.maxEventsPerRequest
            then after == s.(buffer := s.buffer + [event], history := s.history + [Received(event)])
            else && after.buffer == []
                 && after.history == s.history
                    + [Received(event), Handed(s.buffer + [event], HandOverOf(config, exchanges(0)))]
  {
    var pushed := s.Saw(Received(event)).(buffer := s.buffer + [event]);
    if !s.stopped && |pushed.buffer| >= config.maxEventsPerRequest {
      FlushIsOneBatch(config, pushed, exchanges);
      assert s.history + [Received(event)] + [Handed(pushed.buffer, HandOverOf(config, exchanges(0)))]
          == s.history + [Received(event), Handed(s.buffer + [event], HandOverOf(config, exchanges(0)))];
    }
  }

  // ---------------------------------------------------------------------------------------------------
  // What ends the worker

  /** An abort, polled or received; a disconnected shutdown channel counts as one. */
  predicate IsAbort(turn: Turn) { turn.poll == AbortRequested || turn.wake == ShutdownMessage(false) }

  predicate IsGraceful(turn: Turn) { turn.poll == GracefulRequested || turn.wake == ShutdownMessage(true) }

  /** A turn ends the worker as aborted exactly upon an abort, and then hands nothing over; as closed exactly when
      the channel is found disconnected; and otherwise only when a send was cancelled. A graceful shutdown ends
      nothing: it makes the worker closing, which it stays, and from then on the timer does nothing. */
  lemma TurnMeaning(config: WorkerConfig, s: WorkerState, closing: bool, turn: Turn)
    requires Sound(config, s) && !Book(s.history).cancelled
    ensures var r := TakeTurn(config, s, closing, turn);
            && (r.exit == Some(Aborted) <==> IsAbort(turn))
            && (IsAbort(turn) ==> r.state == s)
            && (r.exit == Some(ChannelClosed) <==> !IsAbort(turn) && turn.wake.Disconnected?)
            && (r.exit == Some(SendCancelled) ==> Book(r.state.history).cancelled)
            && (!IsAbort(turn) ==> r.closing == (closing || IsGraceful(turn)))
            && ((closing || IsGraceful(turn)) && turn.wake.Timer? ==> r.state == s)
            && (turn.wake.ShutdownMessage? ==> r.state == s)
            && (!closing && !IsGraceful(turn) && !IsAbort(turn) && turn.wake.Timer? ==>
                  r.state.history
                  == s.history
                     + if s.buffer == [] then [] else [Handed(s.buffer, HandOverOf(config, turn.wake.exchanges(0)))])
  {
    var after := closing || turn.poll == GracefulRequested;
    AwakenKeepsSound(config, s, after, turn.wake);
    if turn.wake.Timer? {
      if GoesOn(Book(s.history)) {
        FlushIsOneBatch(config, s, turn.wake.exchanges);
      }
      assert s.history + [] == s.history;
    }
  }

  /** Turn `i` is taken: none before it ended the worker. */
  ghost predicate IsTaken(config: WorkerConfig, s: WorkerState, closing: bool, turns: seq<Turn>, i: int)
    requires config.maxEventsPerRequest > 0
  {
    0 <= i < |turns| && RunTurns(config, s, closing, turns[..i]).exit.None?
  }

  lemma {:induction false} TakenShifts(config: WorkerConfig, s: WorkerState, closing: bool, turns: seq<Turn>, i: int)
    requires config.maxEventsPerRequest > 0 && turns != [] && i >= 0
    requires TakeTurn(config, s, closing, turns[0]).exit.None?
    ensures var r := TakeTurn(config, s, closing, turns[0]);
            IsTaken(config, s, closing, turns, i + 1) <==> IsTaken(config, r.state, r.closing, turns[1..], i)
  {
    if i + 1 < |turns| {
      assert turns[..i + 1][0] == turns[0] && turns[..i + 1][1..] == turns[1..][..i];
    }
  }

  /** Over every run: it ends as aborted exactly if it takes a turn with an abort; without one it ends only because
      the channel closed or a send was cancelled; and it is closing exactly if it took a turn with a graceful
      shutdown. */
  lemma {:induction false} ShutdownMeaning(config: WorkerConfig, s: WorkerState, closing: bool, turns: seq<Turn>)
    requires Sound(config, s) && !Book(s.history).cancelled
    ensures var r := RunTurns(config, s, closing, turns);
            && (r.exit == Some(Aborted) <==> exists i :: IsTaken(config, s, closing, turns, i) && IsAbort(turns[i]))
            && (r.exit != Some(Aborted) ==>
                  (r.closing <==> closing || exists i :: IsTaken(config, s, closing, turns, i) && IsGraceful(turns[i])))
    decreases |turns|
  {
    if turns != [] {
      var r := TakeTurn(config, s, closing, turns[0]);
      TurnMeaning(config, s, closing, turns[0]);
      AwakenKeepsSound(config, s, closing || turns[0].poll == GracefulRequested, turns[0].wake);
      assert turns[..0] == [];
      assert IsTaken(config, s, closing, turns, 0);
      if r.exit.None? {
        ShutdownMeaning(config, r.state, r.closing, turns[1..]);
        forall i | i >= 0
          ensures IsTaken(config, s, closing, turns, i + 1) <==> IsTaken(config, r.state, r.closing, turns[1..], i)
        {
          TakenShifts(config, s, closing, turns, i);
        }
        ShiftedWitness(config, s, closing, turns);
      } else {
        forall i | IsTaken(config, s, closing, turns, i) ensures i == 0 {
          ExitIsLast(config, s, closing, turns, i);
        }
      }
    }
  }

  lemma ExitIsLast(config: WorkerConfig, s: WorkerState, closing: bool, turns: seq<Turn>, i: int)
    requires config.maxEventsPerRequest > 0 && IsTaken(config, s, closing, turns, i)
    ensures i == 0 || TakeTurn(config, s, closing, turns[0]).exit.None?
  {
    if i > 0 {
      assert turns[..i][0] == turns[0];
    }
  }

  lemma ShiftedWitness(config: WorkerConfig, s: WorkerState, closing: bool, turns: seq<Turn>)
    requires config.maxEventsPerRequest > 0 && turns != []
    requires TakeTurn(config, s, closing, turns[0]).exit.None?
    requires var r := TakeTurn(config, s, closing, turns[0]);
             forall i {:trigger IsTaken(config, r.state, r.closing, turns[1..], i)} :: i >= 0 ==>
                  (IsTaken(config, s, closing, turns, i + 1) <==> IsTaken(config, r.state, r.closing, turns[1..], i))
    ensures var r := TakeTurn(config, s, closing, turns[0]);
            && ((exists i :: IsTaken(config, s, closing, turns, i) && IsAbort(turns[i])) <==>
                IsAbort(turns[0])
                || exists i :: IsTaken(config, r.state, r.closing, turns[1..], i) && IsAbort(turns[1..][i]))
            && ((exists i :: IsTaken(config, s, closing, turns, i) && IsGraceful(turns[i])) <==>
                IsGraceful(turns[0])
                || exists i :: IsTaken(config, r.state, r.closing, turns[1..], i) && IsGraceful(turns[1..][i]))
  {
    var r := TakeTurn(config, s, closing, turns[0]);
    assert turns[..0] == [];
    assert IsTaken(config, s, closing, turns, 0);
    forall i | IsTaken(config, r.state, r.closing, turns[1..], i)
      ensures IsTaken(config, s, closing, turns, i + 1) && turns[i + 1] == turns[1..][i]
    {
    }
    forall i | IsTaken(config, s, closing, turns, i) && i > 0
      ensures IsTaken(config, r.state, r.closing, turns[1..], i - 1) && turns[i] == turns[1..][i - 1]
    {
      TakenShifts(config, s, closing, turns, i - 1);
    }
  }
}
