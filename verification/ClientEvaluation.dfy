/** The variation methods of a client, after src/client/evaluation.rs, and the recording of their events, after
    `EventProcessor` of src/events.rs. One clock reading `now` stands for those of one call. */
module ClientEvaluation {
  import opened Wrappers
  import opened Model
  import opened Capacity
  import opened Store
  import opened Meaning
  import opened Segments
  import opened Evaluator
  import opened Status
  import opened Worker

  /** `retainedBytes` is the saturating size estimate of an evaluation event and its admission. */
  datatype Host = Host(text: Library, retainedBytes: (FbUser, string, string, string) -> Usize)

  // ---------------------------------------------------------------------------------------------------
  // Recording an event

  datatype Intake = Intake(
    enabled: bool,
    closed: bool,
    deliveryStopped: bool,
    hasSender: bool,
    hasReceiver: bool,
    limit: nat,
    queue: seq<EventMessage>,
    counters: Counters,
    overflowing: bool)
  {
    predicate IsAccepting() { enabled && !closed && !deliveryStopped }

    predicate WithinLimits() {
      |queue| <= limit && counters.queued <= counters.maxQueued && counters.retained <= counters.maxBytes
    }
  }

  predicate IsRecordable(host: Host, event: PayloadEvent)
    requires event.Evaluation?
  {
    event.user.key != "" && !IsBlank(host.text, event.flagKey) && !IsBlank(host.text, event.variationId)
  }

  /** The counters after a reservation for the event, if there is room for it in the queue and in memory. */
  function Room(host: Host, s: Intake, event: PayloadEvent): Option<Counters>
    requires event.Evaluation?
  {
    if |s.queue| >= s.limit then None
    else Reserved(s.counters, host.retainedBytes(event.user, event.flagKey, event.variationId, event.variationValue))
  }

  predicate IsTaken(host: Host, s: Intake, event: PayloadEvent)
    requires event.Evaluation?
  {
    IsRecordable(host, event) && s.IsAccepting() && s.hasSender && s.hasReceiver && Room(host, s, event).Some?
  }

  function Recorded(host: Host, s: Intake, event: PayloadEvent): Intake
    requires event.Evaluation?
  {
    if IsTaken(host, s, event)
    then s.(queue := s.queue + [Payload(event)], counters := Room(host, s, event).value, overflowing := false)
    else if IsRecordable(host, event) && s.IsAccepting() && s.hasSender && Room(host, s, event).None?
    then s.(overflowing := true)
    else s
  }

  /** A user with a key, and a flag key and a variation id that are not blank. */
  ghost predicate IsValidEvent(host: Host, event: PayloadEvent)
    requires event.Evaluation?
  {
    && event.user.key != ""
    && (exists i :: 0 <= i < |event.flagKey| && !host.text.isWhitespace(event.flagKey[i]))
    && (exists i :: 0 <= i < |event.variationId| && !host.text.isWhitespace(event.variationId[i]))
  }

  ghost predicate IsOpen(s: Intake) {
    s.enabled && !s.closed && !s.deliveryStopped && s.hasSender
  }

  ghost predicate HasRoomFor(host: Host, s: Intake, event: PayloadEvent)
    requires event.Evaluation?
  {
    && |s.queue| < s.limit
    && s.counters.queued < s.counters.maxQueued
    && s.counters.retained + host.retainedBytes(event.user, event.flagKey, event.variationId, event.variationValue)
       <= s.counters.maxBytes
  }

  /** What recording does, in terms of the fields: a valid event is taken exactly by an open processor with a live
      receiver and room in the queue and in memory; otherwise nothing changes but the mark of an overflow, which
      is for want of room only. */
  lemma RecordedMeaning(host: Host, s: Intake, event: PayloadEvent)
    requires event.Evaluation?
    ensures var after, bytes := Recorded(host, s, event),
                                host.retainedBytes(event.user, event.flagKey, event.variationId, event.variationValue);
            var taken := IsValidEvent(host, event) && IsOpen(s) && s.hasReceiver && HasRoomFor(host, s, event);
            && (IsTaken(host, s, event) <==> taken)
            && after.queue == (if taken then s.queue + [Payload(event)] else s.queue)
            && after.counters.queued == s.counters.queued + (if taken then 1 else 0)
            && after.counters.retained == s.counters.retained + (if taken then bytes else 0)
            && after.overflowing
               == (!taken && (s.overflowing || (IsValidEvent(host, event) && IsOpen(s) && !HasRoomFor(host, s, event))))
            && after == s.(queue := after.queue,
                           counters := s.counters.(queued := after.counters.queued,
                                                   retained := after.counters.retained),
                           overflowing := after.overflowing)
  {
  }

  class EventProcessor {
    const enabled: bool
    const limit: nat
    const capacity: EventCapacity
    var closed: bool
    var deliveryStopped: bool
    var hasSender: bool
    var hasReceiver: bool
    var queue: seq<EventMessage>
    var overflowing: bool

    constructor (enabled: bool, limit: Usize, maxBytes: Usize)
      ensures State() == Intake(enabled, false, false, true, true, limit, [], Counters(limit, maxBytes, 0, 0), false)
      ensures fresh(capacity)
    {
      this.enabled, this.limit := enabled, limit;
      capacity := new EventCapacity(limit, maxBytes);
      closed, deliveryStopped, hasSender, hasReceiver, queue, overflowing := false, false, true, true, [], false;
    }

    function State(): Intake
      reads this, capacity
    {
      Intake(enabled, closed, deliveryStopped, hasSender, hasReceiver, limit, queue, capacity.counters, overflowing)
    }

    predicate Accepts()
      reads this
    {
      enabled && !closed && !deliveryStopped
    }

    method RecordEvaluationAt(host: Host, user: FbUser, flagKey: string, variationId: string, variationValue: string,
                              timestamp: int)
      returns (accepted: bool)
      requires State().WithinLimits()
      modifies this, capacity
      ensures State() == Recorded(host, old(State()), Evaluation(user, flagKey, variationId, variationValue, timestamp))
      ensures var event := Evaluation(user, flagKey, variationId, variationValue, timestamp);
              accepted <==> IsValidEvent(host, event) && IsOpen(old(State())) && hasReceiver
                            && HasRoomFor(host, old(State()), event)
      ensures State().WithinLimits()
    {
      RecordedMeaning(host, State(), Evaluation(user, flagKey, variationId, variationValue, timestamp));
      if user.key == "" || IsBlank(host.text, flagKey) || IsBlank(host.text, variationId) {
        return false;
      }
      if !Accepts() {
        return false;
      }
      accepted := Record(host.retainedBytes(user, flagKey, variationId, variationValue),
                         Evaluation(user, flagKey, variationId, variationValue, timestamp));
    }

    /** `record`: a refused send drops its admission, which gives back what was reserved. */
    method Record(bytes: Usize, event: PayloadEvent) returns (accepted: bool)
      requires Accepts() && State().WithinLimits()
      modifies this, capacity
      ensures accepted <==> hasSender && hasReceiver && |old(queue)| < limit
                            && Reserved(old(capacity.counters), bytes).Some?
      ensures accepted ==> queue == old(queue) + [Payload(event)]
                           && capacity.counters == Reserved(old(capacity.counters), bytes).value
      ensures !accepted ==> queue == old(queue) && capacity.counters == old(capacity.counters)
      ensures overflowing == if accepted then false
                             else
                               || old(overflowing)
                               || (hasSender && |old(queue)| >= limit)
                               || (hasSender && Reserved(old(capacity.counters), bytes).None?)
      ensures closed == old(closed) && deliveryStopped == old(deliveryStopped)
      ensures hasSender == old(hasSender) && hasReceiver == old(hasReceiver)
    {
      if !hasSender {
        return false;
      }
      if |queue| >= limit {
        overflowing := true;
        return false;
      }
      var admission := capacity.TryReserve(bytes);
      if admission.None? {
        overflowing := true;
        return false;
      }
      if !hasReceiver {
        admission.value.Drop();
        return false;
      }
      queue := queue + [Payload(event)];
      overflowing := false;
      return true;
    }
  }

  // ---------------------------------------------------------------------------------------------------
  // What the application and its observer see

  datatype EvaluationError = ClientNotReady | NoTargetingKey | NoSuchFlag | Malformed

  datatype ObservationError = ProviderNotReady | TargetingKeyMissing | FlagMissing | ParseError | TypeMismatch

  datatype ObservationReason = Disabled | TargetingMatch | Split | Default

  datatype Observation =
    | Success(timestamp: int, flagKey: string, contextKey: string, variationId: string, variationValue: string,
              reason: ObservationReason)
    | Failure(timestamp: int, flagKey: string, context: Option<string>, error: ObservationError)

  datatype FbEvaluationEvent = FbEvaluationEvent(
    flagKey: string,
    variationId: string,
    variationValue: string,
    timestamp: int,
    insightsEnabled: bool)

  datatype RawEvaluation = RawEvaluation(flagId: string, flagType: string, reason: EvalReason, event: FbEvaluationEvent)

  datatype ReasonKind =
    | NotReadyKind
    | OffKind
    | FallthroughKind
    | TargetMatchKind
    | RuleMatchKind
    | WrongTypeKind
    | ErrorKind

  datatype EvaluationDetail<T> = EvaluationDetail(
    key: string,
    kind: ReasonKind,
    reason: string,
    value: T,
    variationId: string,
    evaluationEvent: Option<FbEvaluationEvent>)

  type Converter<T> = string -> Result<T, ObservationError>

  function FromEvalError(error: EvalError): EvaluationError {
    match error
    case InvalidContext => NoTargetingKey
    case FlagNotFound => NoSuchFlag
    case MalformedFlag => Malformed
  }

  function ToObservationError(error: EvaluationError): ObservationError {
    match error
    case ClientNotReady => ProviderNotReady
    case NoTargetingKey => TargetingKeyMissing
    case NoSuchFlag => FlagMissing
    case Malformed => ParseError
  }

  function ToObservationReason(reason: EvalReason): ObservationReason {
    match reason
    case Off => ObservationReason.Disabled
    case TargetMatch => TargetingMatch
    case RuleMatch(_, split) => if split then Split else TargetingMatch
    case FallthroughMatch(split) => if split then Split else ObservationReason.Default
  }

  function ReasonDetail(reason: EvalReason): (ReasonKind, string) {
    match reason
    case Off => (OffKind, "flag off")
    case TargetMatch => (TargetMatchKind, "target match")
    case RuleMatch(name, _) => (RuleMatchKind, "match rule " + name)
    case FallthroughMatch(_) => (FallthroughKind, "fall through targets and rules")
  }

  function ConversionFailureDetail(error: ObservationError): (ReasonKind, string) {
    if error.ParseError? then (ErrorKind, "parse error") else (WrongTypeKind, "type mismatch")
  }

  function EvaluationFailureDetail(error: EvaluationError): (ReasonKind, string) {
    match error
    case ClientNotReady => (NotReadyKind, "client not ready")
    case NoTargetingKey => (ErrorKind, "targeting key is missing")
    case NoSuchFlag => (ErrorKind, "flag not found")
    case Malformed => (ErrorKind, "malformed flag")
  }

  // ---------------------------------------------------------------------------------------------------
  // The one meaning of the three ways to evaluate

  datatype ClientView = ClientView(
    hasObserver: bool,
    disableEvents: bool,
    available: bool,
    snapshot: DataSnapshot,
    intake: Intake,
    observations: seq<Observation>)

  function Observed(c: ClientView, observation: Observation): ClientView {
    if c.hasObserver then c.(observations := c.observations + [observation]) else c
  }

  function Outcome(host: Host, c: ClientView, key: string, user: FbUser): Result<EvalResult, EvaluationError> {
    if !c.available then Err(ClientNotReady)
    else
      match Evaluate(host.text, c.snapshot, key, user)
      case Ok(result) => Ok(result)
      case Err(error) => Err(FromEvalError(error))
  }

  function Unevaluated(c: ClientView, key: string, user: FbUser, error: EvaluationError, now: int): ClientView {
    Observed(c, Failure(now, key, if user.key == "" then None else Some(user.key), ToObservationError(error)))
  }

  /** An evaluation that yielded a value, at the time of its capture. */
  function CompletedCapture(host: Host, c: ClientView, user: FbUser, e: FbEvaluationEvent, reason: ObservationReason)
    : ClientView
  {
    var event := Evaluation(user, e.flagKey, e.variationId, e.variationValue, e.timestamp);
    var intake := if e.insightsEnabled && !c.disableEvents then Recorded(host, c.intake, event) else c.intake;
    Observed(c.(intake := intake), Success(e.timestamp, e.flagKey, user.key, e.variationId, e.variationValue, reason))
  }

  function Completed(host: Host, c: ClientView, key: string, user: FbUser, result: EvalResult, now: int): ClientView {
    CompletedCapture(host, c, user, EventOf(key, result, now), ToObservationReason(result.reason))
  }

  /** What an evaluation leaves behind, however it is asked for. */
  function Evaluated<T>(host: Host, c: ClientView, key: string, user: FbUser, converter: Converter<T>, now: int)
    : ClientView
  {
    match Outcome(host, c, key, user)
    case Err(error) => Unevaluated(c, key, user, error, now)
    case Ok(result) =>
      match converter(result.variation.value)
      case Err(error) => Observed(c, Failure(now, key, Some(user.key), error))
      case Ok(_) => Completed(host, c, key, user, result, now)
  }

  function ValueOr<T>(host: Host, c: ClientView, key: string, user: FbUser, converter: Converter<T>, default: T): T {
    match Outcome(host, c, key, user)
    case Err(_) => default
    case Ok(result) =>
      match converter(result.variation.value)
      case Err(_) => default
      case Ok(value) => value
  }

  /** What a call returns: the conversion of the variation that the flag serves; the default exactly when the
      client is not available, the flag serves nothing, or what it serves cannot be converted. */
  ghost predicate Returns<T>(host: Host, c: ClientView, key: string, user: FbUser, converter: Converter<T>,
                             default: T, value: T)
  {
    || (c.available && exists id, served :: IsServed(host.text, c.snapshot, key, user, id, served)
                                            && converter(served) == Ok(value))
    || (value == default && !(c.available && exists id, served :: IsServed(host.text, c.snapshot, key, user, id, served)
                                                                  && converter(served).Ok?))
  }

  lemma ValueIsReturned<T>(host: Host, c: ClientView, key: string, user: FbUser, converter: Converter<T>, default: T)
    requires SoundIndex(host.text, c.snapshot)
    ensures Returns(host, c, key, user, converter, default, ValueOr(host, c, key, user, converter, default))
  {
    EvaluationMeaning(host.text, c.snapshot, key, user);
    forall id, served | IsServed(host.text, c.snapshot, key, user, id, served)
      ensures var evaluation := Evaluate(host.text, c.snapshot, key, user);
              evaluation.Ok? && evaluation.value.variation == Variation(id, served)
    {
      ServedIsEvaluated(host.text, c.snapshot, key, user, id, served);
    }
  }

  /** Nothing else is returned. */
  lemma ReturnIsUnique<T>(host: Host, c: ClientView, key: string, user: FbUser, converter: Converter<T>, default: T,
                          a: T, b: T)
    requires SoundIndex(host.text, c.snapshot)
    requires Returns(host, c, key, user, converter, default, a) && Returns(host, c, key, user, converter, default, b)
    ensures a == b
  {
    forall id, served | IsServed(host.text, c.snapshot, key, user, id, served)
      ensures var evaluation := Evaluate(host.text, c.snapshot, key, user);
              evaluation.Ok? && evaluation.value.variation == Variation(id, served)
    {
      ServedIsEvaluated(host.text, c.snapshot, key, user, id, served);
    }
  }

  /** What a detail says besides its value: of a success the variation, the event and the clause that governed; of a
      fallback, why. */
  ghost predicate Describes<T, D>(host: Host, c: ClientView, key: string, user: FbUser, converter: Converter<T>,
                                  now: int, detail: EvaluationDetail<D>)
  {
    && detail.key == key
    && if !c.available then IsFallback(detail, NotReadyKind, "client not ready")
       else if user.key == "" then IsFallback(detail, ErrorKind, "targeting key is missing")
       else if !IsEvaluable(c.snapshot, key, user) then IsFallback(detail, ErrorKind, "flag not found")
       else if ServesNothing(host.text, c.snapshot, key, user) then IsFallback(detail, ErrorKind, "malformed flag")
       else exists id, served :: IsServed(host.text, c.snapshot, key, user, id, served)
                                 && DescribesServed(host, c, key, user, converter(served), now, detail, id, served)
  }

  ghost predicate DescribesServed<T, D>(host: Host, c: ClientView, key: string, user: FbUser,
                                        converted: Result<T, ObservationError>, now: int,
                                        detail: EvaluationDetail<D>, id: string, served: string)
    requires key in c.snapshot.flags
  {
    var flag := c.snapshot.flags[key];
    match converted
    case Err(ParseError) => IsFallback(detail, ErrorKind, "parse error")
    case Err(_) => IsFallback(detail, WrongTypeKind, "type mismatch")
    case Ok(_) =>
      && detail.variationId == id
      && detail.evaluationEvent == Some(FbEvaluationEvent(key, id, served, now, flag.insightsEnabled))
      && exists clause :: Governs(host.text, c.snapshot, flag, user, clause)
                          && IsToldBy(flag, clause, detail.kind, detail.reason)
  }

  ghost predicate IsFallback<D>(detail: EvaluationDetail<D>, kind: ReasonKind, reason: string) {
    detail.variationId == "" && detail.evaluationEvent == None && detail.kind == kind && detail.reason == reason
  }

  ghost predicate IsToldBy(flag: FeatureFlag, clause: Clause, kind: ReasonKind, reason: string)
    requires clause.Rule? ==> clause.index < |flag.rules|
  {
    match clause
    case Disabled => kind == OffKind && reason == "flag off"
    case Target(_) => kind == TargetMatchKind && reason == "target match"
    case Rule(i) => kind == RuleMatchKind && reason == "match rule " + flag.rules[i].name
    case Default => kind == FallthroughKind && reason == "fall through targets and rules"
  }

  /** The detail of each branch, in terms of the outcome. */
  predicate Tells<T, D>(host: Host, c: ClientView, key: string, user: FbUser, converter: Converter<T>, now: int,
                        detail: EvaluationDetail<D>)
  {
    match Outcome(host, c, key, user)
    case Err(error) =>
      && detail.variationId == ""
      && detail.evaluationEvent.None?
      && (detail.kind, detail.reason) == EvaluationFailureDetail(error)
    case Ok(result) =>
      match converter(result.variation.value)
      case Err(error) =>
        && detail.variationId == ""
        && detail.evaluationEvent.None?
        && (detail.kind, detail.reason) == ConversionFailureDetail(error)
      case Ok(_) =>
        && detail.variationId == result.variation.id
        && Some(EventOf(key, result, now)) == detail.evaluationEvent
        && (detail.kind, detail.reason) == ReasonDetail(result.reason)
  }

  lemma TellingDescribes<T, D>(host: Host, c: ClientView, key: string, user: FbUser, converter: Converter<T>, now: int,
                               detail: EvaluationDetail<D>)
    requires SoundIndex(host.text, c.snapshot)
    requires detail.key == key && Tells(host, c, key, user, converter, now, detail)
    ensures Describes(host, c, key, user, converter, now, detail)
  {
    EvaluationMeaning(host.text, c.snapshot, key, user);
    var evaluation := Evaluate(host.text, c.snapshot, key, user);
    if c.available && evaluation.Ok? {
      ReasonIsTold(host.text, c.snapshot, key, user);
      var chosen := evaluation.value.variation;
      assert DescribesServed(host, c, key, user, converter(chosen.value), now, detail, chosen.id, chosen.value);
    }
  }

  lemma ReasonIsTold(text: Library, snapshot: DataSnapshot, key: string, user: FbUser)
    requires SoundIndex(text, snapshot) && IsEvaluable(snapshot, key, user) && Evaluate(text, snapshot, key, user).Ok?
    ensures var (kind, reason) := ReasonDetail(Evaluate(text, snapshot, key, user).value.reason);
            exists clause :: Governs(text, snapshot, snapshot.flags[key], user, clause)
                             && IsToldBy(snapshot.flags[key], clause, kind, reason)
  {
    var clause := OneClauseGoverns(text, snapshot, snapshot.flags[key], user);
    EvaluationFollowsTheClause(text, snapshot, key, user, clause);
    var (kind, reason) := ReasonDetail(Evaluate(text, snapshot, key, user).value.reason);
    assert IsToldBy(snapshot.flags[key], clause, kind, reason);
  }

  /** The value-only path skips completion when there is no observer and either the event is not wanted or the
      processor is not accepting. */
  lemma SkippingIsInvisible(host: Host, c: ClientView, key: string, user: FbUser, result: EvalResult, now: int)
    requires !c.hasObserver
    requires !(result.insightsEnabled && !c.disableEvents && c.intake.IsAccepting())
    ensures Completed(host, c, key, user, result, now) == c
  {
  }

  function EventOf(key: string, result: EvalResult, now: int): FbEvaluationEvent {
    FbEvaluationEvent(key, result.variation.id, result.variation.value, now, result.insightsEnabled)
  }

  class FbClient {
    const host: Host
    const hasObserver: bool
    const disableEvents: bool
    const store: SnapshotStore
    const status: StatusTracker
    const processor: EventProcessor
    var closed: bool
    var observations: seq<Observation>

    constructor (host: Host, hasObserver: bool, disableEvents: bool, store: SnapshotStore, status: StatusTracker,
                 processor: EventProcessor)
      ensures this.host == host && this.hasObserver == hasObserver && this.disableEvents == disableEvents
      ensures this.store == store && this.status == status && this.processor == processor
      ensures !closed && observations == []
    {
      this.host, this.hasObserver, this.disableEvents := host, hasObserver, disableEvents;
      this.store, this.status, this.processor := store, status, processor;
      closed, observations := false, [];
    }

    function View(): ClientView
      reads this, store, status, processor, processor.capacity
    {
      ClientView(hasObserver, disableEvents, EvaluationAvailable(), store.snapshot, processor.State(), observations)
    }

    predicate EvaluationAvailable()
      reads this, status
    {
      !closed && status.initialized && (status.status == Ready || status.status == Stale)
    }

    ghost predicate Valid()
      reads store, processor, processor.capacity
    {
      processor.State().WithinLimits() && store.text == host.text && SoundIndex(host.text, store.snapshot)
    }

    /** Open, initialized, and ready or stale. */
    lemma AvailabilityMeaning()
      ensures View().available <==>
              !closed && status.initialized && status.status != Starting && status.status != SyncStatus.Closed
    {
    }

    method EvaluateTypedValue<T>(key: string, user: FbUser, default: T, converter: Converter<T>, now: int)
      returns (value: T)
      requires Valid()
      modifies this`observations, processor, processor.capacity
      ensures Valid()
      ensures Returns(host, old(View()), key, user, converter, default, value)
      ensures value == ValueOr(host, old(View()), key, user, converter, default)
      ensures View() == Evaluated(host, old(View()), key, user, converter, now)
    {
      ValueIsReturned(host, View(), key, user, converter, default);
      var evaluated := TryEvaluate(key, user, now);
      match evaluated {
        case Err(_) => return default;
        case Ok(result) =>
          var completes := ShouldCompleteValueEvaluation(result.insightsEnabled);
          match converter(result.variation.value) {
            case Err(error) =>
              ObserveEvaluationError(key, Some(user.key), error, now);
              return default;
            case Ok(converted) =>
              if !completes {
                SkippingIsInvisible(host, View(), key, user, result, now);
              } else {
                var observation := CompleteEvaluation(user, key, result, now);
                NotifySuccessfulEvaluation(observation);
              }
              return converted;
          }
      }
    }

    method EvaluateTypedDetail<T>(key: string, user: FbUser, default: T, converter: Converter<T>, now: int)
      returns (detail: EvaluationDetail<T>)
      requires Valid()
      modifies this`observations, processor, processor.capacity
      ensures Valid()
      ensures Returns(host, old(View()), key, user, converter, default, detail.value)
      ensures Describes(host, old(View()), key, user, converter, now, detail)
      ensures detail.key == key && detail.value == ValueOr(host, old(View()), key, user, converter, default)
      ensures View() == Evaluated(host, old(View()), key, user, converter, now)
      ensures Tells(host, old(View()), key, user, converter, now, detail)
    {
      ghost var before := View();
      ValueIsReturned(host, before, key, user, converter, default);
      var evaluated := TryEvaluate(key, user, now);
      match evaluated {
        case Err(error) =>
          var (kind, reason) := EvaluationFailureDetail(error);
          detail := EvaluationDetail(key, kind, reason, default, "", None);
        case Ok(result) =>
          match converter(result.variation.value) {
            case Err(error) =>
              ObserveEvaluationError(key, Some(user.key), error, now);
              var (kind, reason) := ConversionFailureDetail(error);
              detail := EvaluationDetail(key, kind, reason, default, "", None);
            case Ok(value) =>
              var (kind, reason) := ReasonDetail(result.reason);
              detail := EvaluationDetail(key, kind, reason, value, result.variation.id,
                                         Some(EventOf(key, result, now)));
              CompleteCapturedEvaluation(user, detail.evaluationEvent.value, ToObservationReason(result.reason));
          }
      }
      TellingDescribes(host, before, key, user, converter, now, detail);
    }

    /** A success leaves nothing behind until it is completed. */
    method EvaluateRaw(key: string, user: FbUser, now: int) returns (evaluation: Result<RawEvaluation, EvaluationError>)
      requires Valid()
      modifies this`observations
      ensures Valid()
      ensures match Outcome(host, old(View()), key, user)
              case Err(error) => evaluation == Err(error) && View() == Unevaluated(old(View()), key, user, error, now)
              case Ok(result) =>
                && evaluation == Ok(RawEvaluation(result.flagId, result.flagType, result.reason,
                                                  EventOf(key, result, now)))
                && View() == old(View())
      ensures evaluation.Ok? ==>
                var e := evaluation.value.event;
                && old(View()).available
                && IsServed(host.text, store.snapshot, key, user, e.variationId, e.variationValue)
                && var flag := store.snapshot.flags[key];
                && e.flagKey == key && e.timestamp == now && e.insightsEnabled == flag.insightsEnabled
                && evaluation.value.flagId == flag.id && evaluation.value.flagType == flag.variationType
    {
      EvaluationMeaning(host.text, store.snapshot, key, user);
      var evaluated := TryEvaluate(key, user, now);
      match evaluated {
        case Err(error) => return Err(error);
        case Ok(result) => return Ok(RawEvaluation(result.flagId, result.flagType, result.reason,
                                                   EventOf(key, result, now)));
      }
    }

    /** Completes with what was captured, whatever the client has become since. */
    method CompleteRawEvaluation(user: FbUser, evaluation: RawEvaluation)
      requires Valid()
      modifies this`observations, processor, processor.capacity
      ensures Valid()
      ensures View() == CompletedCapture(host, old(View()), user, evaluation.event,
                                         ToObservationReason(evaluation.reason))
    {
      CompleteCapturedEvaluation(user, evaluation.event, ToObservationReason(evaluation.reason));
    }

    /** An integration that converts for itself ends where the typed methods end. */
    method EvaluateThroughAdapter<T>(key: string, user: FbUser, default: T, converter: Converter<T>, now: int)
      returns (value: T)
      requires Valid()
      modifies this`observations, processor, processor.capacity
      ensures Valid()
      ensures Returns(host, old(View()), key, user, converter, default, value)
      ensures value == ValueOr(host, old(View()), key, user, converter, default)
      ensures View() == Evaluated(host, old(View()), key, user, converter, now)
    {
      ValueIsReturned(host, View(), key, user, converter, default);
      var evaluation := EvaluateRaw(key, user, now);
      match evaluation {
        case Err(_) => return default;
        case Ok(raw) =>
          match converter(raw.event.variationValue) {
            case Err(error) =>
              ObserveEvaluationError(key, Some(user.key), error, now);
              return default;
            case Ok(converted) =>
              CompleteRawEvaluation(user, raw);
              return converted;
          }
      }
    }

    method TryEvaluate(key: string, user: FbUser, now: int) returns (evaluated: Result<EvalResult, EvaluationError>)
      modifies this`observations
      ensures evaluated == Outcome(host, old(View()), key, user)
      ensures View() == match evaluated
                        case Err(error) => Unevaluated(old(View()), key, user, error, now)
                        case Ok(_) => old(View())
    {
      var context := if user.key == "" then None else Some(user.key);
      if !EvaluationAvailable() {
        ObserveEvaluationError(key, context, ProviderNotReady, now);
        return Err(ClientNotReady);
      }
      match Evaluate(host.text, store.snapshot, key, user) {
        case Ok(result) => return Ok(result);
        case Err(error) =>
          ObserveEvaluationError(key, context, ToObservationError(FromEvalError(error)), now);
          return Err(FromEvalError(error));
      }
    }

    predicate ShouldCompleteValueEvaluation(insightsEnabled: bool)
      reads this, processor
    {
      hasObserver || (insightsEnabled && !disableEvents && processor.Accepts())
    }

    method CompleteEvaluation(user: FbUser, key: string, result: EvalResult, timestamp: int)
      returns (observation: Option<Observation>)
      requires Valid()
      modifies processor, processor.capacity
      ensures Valid()
      ensures observation.Some? == hasObserver
      ensures Completed(host, old(View()), key, user, result, timestamp)
           == if observation.Some? then Observed(View(), observation.value) else View()
    {
      if result.insightsEnabled && !disableEvents {
        var _ := processor.RecordEvaluationAt(host, user, key, result.variation.id, result.variation.value, timestamp);
      }
      observation := SuccessfulObservation(
        Success(timestamp, key, user.key, result.variation.id, result.variation.value,
                ToObservationReason(result.reason)));
    }

    method CompleteCapturedEvaluation(user: FbUser, event: FbEvaluationEvent, reason: ObservationReason)
      requires Valid()
      modifies this`observations, processor, processor.capacity
      ensures Valid()
      ensures View() == CompletedCapture(host, old(View()), user, event, reason)
    {
      if !disableEvents {
        if event.insightsEnabled {
          var _ := processor.RecordEvaluationAt(host, user, event.flagKey, event.variationId, event.variationValue,
                                                event.timestamp);
        }
      }
      var observation := SuccessfulObservation(
        Success(event.timestamp, event.flagKey, user.key, event.variationId, event.variationValue, reason));
      NotifySuccessfulEvaluation(observation);
    }

    function SuccessfulObservation(success: Observation): Option<Observation> {
      if hasObserver then Some(success) else None
    }

    method NotifySuccessfulEvaluation(observation: Option<Observation>)
      modifies this`observations
      ensures View() == if observation.Some? then Observed(old(View()), observation.value) else old(View())
    {
      if hasObserver && observation.Some? {
        observations := observations + [observation.value];
      }
    }

    method ObserveEvaluationError(key: string, context: Option<string>, error: ObservationError, now: int)
      modifies this`observations
      ensures View() == Observed(old(View()), Failure(now, key, context, error))
    {
      if hasObserver {
        observations := observations + [Failure(now, key, context, error)];
      }
    }
  }
}
