/** The event worker, after src/events/worker.rs: what each input does, and the loops that do it. Responses, abort
    signals and serialization are oracles that the environment chooses for every attempt. */
module Worker {
  import opened Wrappers
  import Model

  datatype PayloadEvent =
    | Evaluation(user: Model.FbUser, flagKey: string, variationId: string, variationValue: string, timestamp: int)
    | Metric(user: Model.FbUser, name: string, value: real)

  datatype EventMessage = Payload(event: PayloadEvent) | Flush(hasReply: bool)

  datatype WorkerConfig = WorkerConfig(maxEventsPerRequest: nat, maxAttempts: nat, hasClient: bool)

  // ---------------------------------------------------------------------------------------------------
  // Sending one request

  datatype Response = Status(code: nat) | TransportError

  datatype Exchange = Exchange(
    serializes: bool,
    abortedWaiting: nat -> bool,
    abortedRequesting: nat -> bool,
    response: nat -> Response)

  datatype Delivery = Succeeded | Failed | Fatal | Cancelled

  predicate IsSuccess(code: nat) { 200 <= code < 300 }

  predicate IsRecoverable(code: nat) { 400 <= code < 500 ==> code == 400 || code == 408 || code == 429 }

  /** What attempt `k` settles; none if it is to be retried. */
  function Verdict(x: Exchange, k: nat): Option<Delivery> {
    if (k > 0 && x.abortedWaiting(k)) || x.abortedRequesting(k) then Some(Cancelled)
    else
      match x.response(k)
      case Status(code) =>
        if IsSuccess(code) then Some(Succeeded)
        else if IsRecoverable(code) then None
        else Some(Fatal)
      case TransportError => None
  }

  ghost predicate SettlesAt(x: Exchange, k: nat) {
    Verdict(x, k).Some? && forall j :: 0 <= j < k ==> Verdict(x, j).None?
  }

  function SendFrom(x: Exchange, maxAttempts: nat, k: nat): (d: Delivery)
    requires k <= maxAttempts
    requires forall j :: 0 <= j < k ==> Verdict(x, j).None?
    ensures d == Failed <==> forall j :: 0 <= j < maxAttempts ==> Verdict(x, j).None?
    ensures d != Failed ==> exists j :: 0 <= j < maxAttempts && SettlesAt(x, j) && Verdict(x, j) == Some(d)
    decreases maxAttempts - k
  {
    if k == maxAttempts then Failed
    else if Verdict(x, k).Some? then
      assert SettlesAt(x, k);
      Verdict(x, k).value
    else SendFrom(x, maxAttempts, k + 1)
  }

  function SendResult(config: WorkerConfig, x: Exchange): Delivery {
    if config.hasClient then SendFrom(x, config.maxAttempts, 0) else Fatal
  }

  // ---------------------------------------------------------------------------------------------------
  // What each input does

  datatype HandOver = Unserializable | Sent(delivery: Delivery)

  datatype WorkerEvent =
    | Received(event: PayloadEvent)
    | Handed(batch: seq<PayloadEvent>, outcome: HandOver)
    | Answered(delivered: bool)

  datatype WorkerState = WorkerState(
    buffer: seq<PayloadEvent>,
    stopped: bool,
    unreportedFailure: bool,
    history: seq<WorkerEvent>)
  {
    function Saw(event: WorkerEvent): WorkerState { this.(history := history + [event]) }
  }

  datatype FlushOutcome = FlushOutcome(delivered: bool, keepRunning: bool)

  type Exchanges = nat -> Exchange

  function Chunk(config: WorkerConfig, events: seq<PayloadEvent>): nat
    requires config.maxEventsPerRequest > 0
  {
    if |events| < config.maxEventsPerRequest then |events| else config.maxEventsPerRequest
  }

  function Deliver(config: WorkerConfig, s: WorkerState, events: seq<PayloadEvent>, exchanges: Exchanges, k: nat,
                   delivered: bool)
    : (WorkerState, FlushOutcome)
    requires config.maxEventsPerRequest > 0
    decreases |events|
  {
    if events == [] then (s, FlushOutcome(delivered, true))
    else
      var n := Chunk(config, events);
      var batch, rest := events[..n], events[n..];
      var handOver := HandOverOf(config, exchanges(k));
      var after := s.Saw(Handed(batch, handOver));
      if handOver == Sent(Fatal) then (after.(stopped := true), FlushOutcome(false, true))
      else if handOver == Sent(Cancelled) then (after, FlushOutcome(false, false))
      else Deliver(config, after, rest, exchanges, k + 1, delivered && handOver == Sent(Succeeded))
  }

  function HandOverOf(config: WorkerConfig, x: Exchange): HandOver {
    if x.serializes then Sent(SendResult(config, x)) else Unserializable
  }

  function FlushBuffer(config: WorkerConfig, s: WorkerState, exchanges: Exchanges): (WorkerState, FlushOutcome)
    requires config.maxEventsPerRequest > 0
  {
    var emptied := s.(buffer := []);
    if s.stopped then (emptied, FlushOutcome(false, true))
    else if s.buffer == [] then (s, FlushOutcome(true, true))
    else Deliver(config, emptied, s.buffer, exchanges, 0, true)
  }

  function Remember(s: WorkerState, outcome: FlushOutcome): WorkerState {
    s.(unreportedFailure := s.unreportedFailure || !outcome.delivered)
  }

  function Processed(config: WorkerConfig, s: WorkerState, message: EventMessage, exchanges: Exchanges)
    : (WorkerState, bool)
    requires config.maxEventsPerRequest > 0
  {
    match message
    case Payload(event) =>
      var seen := s.Saw(Received(event));
      if s.stopped then (seen, true)
      else
        var pushed := seen.(buffer := s.buffer + [event]);
        if |pushed.buffer| >= config.maxEventsPerRequest then
          var (flushed, outcome) := FlushBuffer(config, pushed, exchanges);
          (Remember(flushed, outcome), outcome.keepRunning)
        else (pushed, true)
    case Flush(_) =>
      var (flushed, outcome) := FlushBuffer(config, s, exchanges);
      var delivered := outcome.delivered && !flushed.unreportedFailure;
      (flushed.(unreportedFailure := false).Saw(Answered(delivered)), outcome.keepRunning)
  }

  // ---------------------------------------------------------------------------------------------------
  // The run loop

  datatype Poll = Empty | GracefulRequested | AbortRequested

  /** What the select of one round yields. `Timer` is the default arm, which only the open select has. */
  datatype Wake =
    | ShutdownMessage(graceful: bool)
    | Message(message: EventMessage, exchanges: Exchanges)
    | Disconnected(exchanges: Exchanges)
    | Timer(exchanges: Exchanges)

  datatype Turn = Turn(poll: Poll, wake: Wake)

  datatype Exit = Aborted | SendCancelled | ChannelClosed

  datatype Round = Round(state: WorkerState, closing: bool, exit: Option<Exit>)

  function Awaken(config: WorkerConfig, s: WorkerState, closing: bool, wake: Wake): Round
    requires config.maxEventsPerRequest > 0
  {
    match wake
    case ShutdownMessage(graceful) => if graceful then Round(s, true, None) else Round(s, closing, Some(Aborted))
    case Message(message, exchanges) =>
      var (after, keepRunning) := Processed(config, s, message, exchanges);
      Round(after, closing, if keepRunning then None else Some(SendCancelled))
    case Disconnected(exchanges) =>
      var (after, _) := FlushBuffer(config, s, exchanges);
      Round(after, closing, Some(ChannelClosed))
    case Timer(exchanges) =>
      if closing then Round(s, closing, None)
      else
        var (after, outcome) := FlushBuffer(config, s, exchanges);
        Round(Remember(after, outcome), closing, if outcome.keepRunning then None else Some(SendCancelled))
  }

  function TakeTurn(config: WorkerConfig, s: WorkerState, closing: bool, turn: Turn): Round
    requires config.maxEventsPerRequest > 0
  {
    match turn.poll
    case AbortRequested => Round(s, closing, Some(Aborted))
    case GracefulRequested => Awaken(config, s, true, turn.wake)
    case Empty => Awaken(config, s, closing, turn.wake)
  }

  function RunTurns(config: WorkerConfig, s: WorkerState, closing: bool, turns: seq<Turn>): Round
    requires config.maxEventsPerRequest > 0
    decreases |turns|
  {
    if turns == [] then Round(s, closing, None)
    else
      var round := TakeTurn(config, s, closing, turns[0]);
      if round.exit.Some? then round else RunTurns(config, round.state, round.closing, turns[1..])
  }

  // ---------------------------------------------------------------------------------------------------
  // The worker

  class EventWorker {
    const config: WorkerConfig
    var buffer: seq<PayloadEvent>
    var deliveryStopped: bool
    var sharedDeliveryStopped: bool
    var unreportedDeliveryFailure: bool
    var history: seq<WorkerEvent>

    ghost predicate Valid()
      reads this
    {
      config.maxEventsPerRequest > 0 && sharedDeliveryStopped == deliveryStopped
    }

    ghost function State(): WorkerState
      reads this
    {
      WorkerState(buffer, deliveryStopped, unreportedDeliveryFailure, history)
    }

    constructor (config: WorkerConfig)
      requires config.maxEventsPerRequest > 0
      ensures Valid() && this.config == config && State() == WorkerState([], false, false, [])
    {
      this.config := config;
      buffer, deliveryStopped, sharedDeliveryStopped, unreportedDeliveryFailure, history := [], false, false, false, [];
    }

    /** One turn of the loop for each element; it ends early if the worker leaves its loop. */
    method Run(turns: seq<Turn>) returns (closing: bool, exit: Option<Exit>)
      requires Valid()
      modifies this
      ensures Valid()
      ensures Round(State(), closing, exit) == RunTurns(config, old(State()), false, turns)
    {
      closing, exit := false, None;
      for i := 0 to |turns|
        invariant Valid() && exit.None?
        invariant RunTurns(config, State(), closing, turns[i..]) == RunTurns(config, old(State()), false, turns)
      {
        closing, exit := RunTurn(turns[i], closing);
        if exit.Some? {
          return;
        }
        assert turns[i..][1..] == turns[i + 1..];
      }
    }

    method RunTurn(turn: Turn, wasClosing: bool) returns (closing: bool, exit: Option<Exit>)
      requires Valid()
      modifies this
      ensures Valid()
      ensures Round(State(), closing, exit) == TakeTurn(config, old(State()), wasClosing, turn)
    {
      closing, exit := wasClosing, None;
      match turn.poll {
        case Empty =>
        case GracefulRequested => closing := true;
        case AbortRequested => return closing, Some(Aborted);
      }
      match turn.wake
      case ShutdownMessage(graceful) =>
        if graceful {
          closing := true;
        } else {
          exit := Some(Aborted);
        }
      case Message(message, exchanges) =>
        var keepRunning := Process(message, exchanges);
        exit := if keepRunning then None else Some(SendCancelled);
      case Disconnected(exchanges) =>
        var _ := Flush(exchanges);
        exit := Some(ChannelClosed);
      case Timer(exchanges) =>
        if !closing {
          var outcome := Flush(exchanges);
          RememberDeliveryFailure(outcome);
          exit := if outcome.keepRunning then None else Some(SendCancelled);
        }
    }

    method Process(message: EventMessage, exchanges: Exchanges) returns (keepRunning: bool)
      requires Valid()
      modifies this
      ensures Valid()
      ensures (State(), keepRunning) == Processed(config, old(State()), message, exchanges)
    {
      match message
      case Payload(event) =>
        history := history + [Received(event)];
        if !deliveryStopped {
          buffer := buffer + [event];
          if |buffer| >= config.maxEventsPerRequest {
            var outcome := Flush(exchanges);
            RememberDeliveryFailure(outcome);
            return outcome.keepRunning;
          }
        }
        keepRunning := true;
      case Flush(_) =>
        var outcome := Flush(exchanges);
        var delivered := outcome.delivered && !unreportedDeliveryFailure;
        unreportedDeliveryFailure := false;
        history := history + [Answered(delivered)];
        keepRunning := outcome.keepRunning;
    }

    method RememberDeliveryFailure(outcome: FlushOutcome)
      requires Valid()
      modifies this`unreportedDeliveryFailure
      ensures Valid() && State() == Remember(old(State()), outcome)
    {
      if !outcome.delivered {
        unreportedDeliveryFailure := true;
      }
    }

    method Flush(exchanges: Exchanges) returns (outcome: FlushOutcome)
      requires Valid()
      modifies this
      ensures Valid()
      ensures (State(), outcome) == FlushBuffer(config, old(State()), exchanges)
    {
      if deliveryStopped {
        buffer := [];
        return FlushOutcome(false, true);
      }
      if buffer == [] {
        return FlushOutcome(true, true);
      }
      var events := buffer;
      buffer := [];
      outcome := DeliverEvents(events, exchanges);
    }

    method DeliverEvents(events: seq<PayloadEvent>, exchanges: Exchanges) returns (outcome: FlushOutcome)
      requires Valid()
      modifies this
      ensures Valid()
      ensures (State(), outcome) == Deliver(config, old(State()), events, exchanges, 0, true)
    {
      var delivered, rest, k := true, events, 0;
      while rest != []
        invariant Valid()
        invariant Deliver(config, State(), rest, exchanges, k, delivered)
               == Deliver(config, old(State()), events, exchanges, 0, true)
        decreases |rest|
      {
        var n := Chunk(config, rest);
        var batch := rest[..n];
        var x := exchanges(k);
        rest, k := rest[n..], k + 1;
        if !x.serializes {
          history := history + [Handed(batch, Unserializable)];
          delivered := false;
        } else {
          var delivery, _ := Send(x);
          history := history + [Handed(batch, Sent(delivery))];
          if delivery == Fatal {
            deliveryStopped, sharedDeliveryStopped := true, true;
            return FlushOutcome(false, true);
          } else if delivery == Cancelled {
            return FlushOutcome(false, false);
          } else if delivery == Failed {
            delivered := false;
          }
        }
      }
      outcome := FlushOutcome(delivered, true);
    }

    /** The retry loop. `posts` counts the requests that were started. */
    method Send(x: Exchange) returns (delivery: Delivery, posts: nat)
      ensures delivery == SendResult(config, x)
      ensures posts <= config.maxAttempts
      ensures !config.hasClient ==> posts == 0
      ensures delivery == Failed ==> posts == config.maxAttempts
    {
      posts := 0;
      if !config.hasClient {
        return Fatal, 0;
      }
      for attempt := 0 to config.maxAttempts
        invariant posts == attempt
        invariant forall j :: 0 <= j < attempt ==> Verdict(x, j).None?
      {
        if attempt > 0 && x.abortedWaiting(attempt) {
          Settled(x, config.maxAttempts, attempt);
          return Cancelled, posts;
        }
        posts := posts + 1;
        if x.abortedRequesting(attempt) {
          Settled(x, config.maxAttempts, attempt);
          return Cancelled, posts;
        }
        match x.response(attempt)
        case Status(code) =>
          if IsSuccess(code) {
            Settled(x, config.maxAttempts, attempt);
            return Succeeded, posts;
          }
          if !IsRecoverable(code) {
            Settled(x, config.maxAttempts, attempt);
            return Fatal, posts;
          }
        case TransportError =>
      }
      delivery := Failed;
    }
  }

  /** The first settling attempt decides the send. */
  lemma Settled(x: Exchange, maxAttempts: nat, k: nat)
    requires k < maxAttempts && SettlesAt(x, k)
    ensures SendFrom(x, maxAttempts, 0) == Verdict(x, k).value
  {
    var j :| 0 <= j < maxAttempts && SettlesAt(x, j) && Verdict(x, j) == Some(SendFrom(x, maxAttempts, 0));
    assert SettlesAt(x, j);
    assert !(j < k) && !(k < j);
  }

  // ---------------------------------------------------------------------------------------------------
  // What a delivery result means, response by response

  predicate GotAnswer(x: Exchange, k: nat) { !(k > 0 && x.abortedWaiting(k)) && !x.abortedRequesting(k) }

  /** Transport errors, and every status but success and most client errors. */
  predicate IsWorthRetrying(response: Response) {
    response.TransportError? || response.code in {400, 408, 429}
        || !(200 <= response.code < 300 || 400 <= response.code < 500)
  }

  ghost predicate IsReached(x: Exchange, k: nat) {
    forall j :: 0 <= j < k ==> GotAnswer(x, j) && IsWorthRetrying(x.response(j))
  }

  ghost predicate EndsWith(x: Exchange, k: nat, d: Delivery) {
    && IsReached(x, k)
    && match d
       case Succeeded => GotAnswer(x, k) && x.response(k).Status? && 200 <= x.response(k).code < 300
       case Fatal => GotAnswer(x, k) && x.response(k).Status? && 400 <= x.response(k).code < 500
           && x.response(k).code !in {400, 408, 429}
       case Cancelled => !GotAnswer(x, k)
       case Failed => false
  }

  /** Delivered by a 2xx answer, stopped for good by a client error other than 400, 408 and 429 or for want of a
      client, cancelled by an abort, each at the first attempt that does not call for a retry; failed only when
      all attempts called for one. */
  lemma SendMeans(config: WorkerConfig, x: Exchange)
    ensures var d := SendResult(config, x);
            && (d == Failed <==> config.hasClient && IsReached(x, config.maxAttempts))
            && (!config.hasClient ==> d == Fatal)
            && (config.hasClient && d != Failed ==> exists k :: 0 <= k < config.maxAttempts && EndsWith(x, k, d))
            && (config.hasClient ==> forall k, d' :: 0 <= k < config.maxAttempts && EndsWith(x, k, d') ==> d == d')
  {
    forall k: nat ensures Verdict(x, k).None? <==> GotAnswer(x, k) && IsWorthRetrying(x.response(k)) {
    }
    forall k: nat, d | EndsWith(x, k, d) ensures SettlesAt(x, k) && Verdict(x, k) == Some(d) {
    }
    if config.hasClient {
      var d := SendFrom(x, config.maxAttempts, 0);
      forall k: nat, d' | k < config.maxAttempts && EndsWith(x, k, d') ensures d == d' {
        Settled(x, config.maxAttempts, k);
      }
      if d != Failed {
        var k: nat :| k < config.maxAttempts && SettlesAt(x, k) && Verdict(x, k) == Some(d);
        assert EndsWith(x, k, d);
      }
    }
  }
}
