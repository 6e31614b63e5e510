/** What one call of a variation method means and leaves behind, and what any run of calls adds up to. */
module ClientRuns {
  import opened Capacity
  import Channel
  import opened ClientEvaluation
  import opened Evaluator
  import opened Meaning
  import opened Model
  import opened Segments
  import opened Store
  import opened Worker
  import opened Wrappers

  predicate IsConverted<T>(host: Host, c: ClientView, key: string, user: FbUser, converter: Converter<T>) {
    var outcome := Outcome(host, c, key, user);
    outcome.Ok? && converter(outcome.value.variation.value).Ok?
  }

  /** Whether the call enqueues its event. */
  predicate Counts<T>(host: Host, c: ClientView, key: string, user: FbUser, converter: Converter<T>, now: int) {
    && IsConverted(host, c, key, user, converter)
    && var result := Outcome(host, c, key, user).value;
    && result.insightsEnabled
    && !c.disableEvents
    && IsTaken(host, c.intake, Evaluation(user, key, result.variation.id, result.variation.value, now))
  }

  /** One observation a call, a success exactly when a converted value is returned; at most one event, and only
      for such a success. */
  lemma EvaluationLeaves<T>(host: Host, c: ClientView, key: string, user: FbUser, converter: Converter<T>, now: int)
    ensures var after := Evaluated(host, c, key, user, converter, now);
            && after == c.(intake := after.intake, observations := after.observations)
            && (if c.hasObserver
                then |after.observations| == |c.observations| + 1
                     && c.observations < after.observations
                     && (after.observations[|c.observations|].Success? <==> IsConverted(host, c, key, user, converter))
                else after.observations == c.observations)
            && (if Counts(host, c, key, user, converter, now)
                then var chosen := Outcome(host, c, key, user).value.variation;
                     && after.intake.queue
                        == c.intake.queue + [Payload(Evaluation(user, key, chosen.id, chosen.value, now))]
                     && after.intake.counters.queued == c.intake.counters.queued + 1
                else after.intake.queue == c.intake.queue && after.intake.counters == c.intake.counters)
            && after.intake.IsAccepting() == c.intake.IsAccepting()
            && (c.intake.WithinLimits() ==> after.intake.WithinLimits())
  {
  }

  /** The event of a call is that of the variation served, at the time of the call. It is taken exactly if the
      flag's insights and the client's events are on, it is valid, and the processor is open and has room; and then
      nothing else is, and otherwise nothing at all. */
  lemma EventMeaning<T>(host: Host, c: ClientView, key: string, user: FbUser, converter: Converter<T>, now: int)
    requires SoundIndex(host.text, c.snapshot)
    ensures var s, s' := c.intake, Evaluated(host, c, key, user, converter, now).intake;
            && (forall id, served :: IsWanted(host, c, key, user, converter, now, id, served) ==>
                  && s'.queue == s.queue + [Payload(Evaluation(user, key, id, served, now))]
                  && s'.counters.queued == s.counters.queued + 1
                  && s'.counters.retained == s.counters.retained + host.retainedBytes(user, key, id, served))
            && ((forall id, served :: !IsWanted(host, c, key, user, converter, now, id, served)) ==>
                  s'.queue == s.queue && s'.counters == s.counters)
  {
    EvaluationMeaning(host.text, c.snapshot, key, user);
    var evaluation := Evaluate(host.text, c.snapshot, key, user);
    forall id, served | IsServed(host.text, c.snapshot, key, user, id, served)
      ensures evaluation.Ok? && evaluation.value.variation == Variation(id, served)
    {
      ServedIsEvaluated(host.text, c.snapshot, key, user, id, served);
    }
    if evaluation.Ok? {
      var chosen := evaluation.value.variation;
      RecordedMeaning(host, c.intake, Evaluation(user, key, chosen.id, chosen.value, now));
      assert IsWanted(host, c, key, user, converter, now, chosen.id, chosen.value)
             <==> Counts(host, c, key, user, converter, now);
    }
  }

  ghost predicate IsWanted<T>(host: Host, c: ClientView, key: string, user: FbUser, converter: Converter<T>, now: int,
                              id: string, served: string)
  {
    var event := Evaluation(user, key, id, served, now);
    && c.available
    && IsServed(host.text, c.snapshot, key, user, id, served)
    && converter(served).Ok?
    && c.snapshot.flags[key].insightsEnabled
    && !c.disableEvents
    && IsValidEvent(host, event)
    && IsOpen(c.intake)
    && c.intake.hasReceiver
    && HasRoomFor(host, c.intake, event)
  }

  /** What the observer hears of a governing clause. */
  ghost function ReasonOf(flag: FeatureFlag, clause: Clause): ObservationReason
    requires clause.Rule? ==> clause.index < |flag.rules|
  {
    match clause
    case Disabled => ObservationReason.Disabled
    case Target(_) => TargetingMatch
    case Rule(i) => if IsSplit(flag.rules[i].variations) then Split else TargetingMatch
    case Default => if IsSplit(flag.fallthrough.variations) then Split else ObservationReason.Default
  }

  /** What the observer hears of a call: why there was no evaluation, or the variation and the reason of the one
      clause that governs. */
  lemma ObservationFollowsTheClause<T>(host: Host, c: ClientView, key: string, user: FbUser, converter: Converter<T>,
                                       now: int, clause: Clause)
    requires c.hasObserver && SoundIndex(host.text, c.snapshot)
    requires key in c.snapshot.flags ==> Governs(host.text, c.snapshot, c.snapshot.flags[key], user, clause)
    ensures var after := Evaluated(host, c, key, user, converter, now).observations;
            && |after| == |c.observations| + 1
            && var heard := after[|c.observations|];
            && heard.timestamp == now && heard.flagKey == key
            && if !c.available then
                 heard.Failure? && heard.error == ProviderNotReady && (heard.context.Some? <==> user.key != "")
               else if user.key == "" then heard == Failure(now, key, None, TargetingKeyMissing)
               else if key !in c.snapshot.flags || c.snapshot.flags[key].isArchived then
                 heard == Failure(now, key, Some(user.key), FlagMissing)
               else Hears(host, c.snapshot.flags[key], user, clause, converter, heard)
  {
    if c.available && user.key != "" && key in c.snapshot.flags && !c.snapshot.flags[key].isArchived {
      ClauseIsHeard(host, c, key, user, converter, now, clause);
    }
  }

  /** A success is the first variation with the id that the clause names. A failure means that it names none, or
      one that no variation has, or else that this very variation could not be converted. */
  ghost predicate Hears<T>(host: Host, flag: FeatureFlag, user: FbUser, clause: Clause, converter: Converter<T>,
                           heard: Observation)
    requires clause.Target? ==> clause.index < |flag.targetUsers|
    requires clause.Rule? ==> clause.index < |flag.rules|
  {
    match heard
    case Success(_, _, contextKey, id, value, reason) =>
      && contextKey == user.key
      && reason == ReasonOf(flag, clause)
      && Names(host.text, flag, user, clause, Some(id))
      && IsFirstWith(flag, id, value)
      && converter(value).Ok?
    case Failure(_, _, context, error) =>
      && context == Some(user.key)
      && (|| (error == ParseError && Names(host.text, flag, user, clause, None))
          || (error == ParseError && exists id :: Names(host.text, flag, user, clause, Some(id)) && HasNone(flag, id))
          || (exists id, value :: Names(host.text, flag, user, clause, Some(id)) && IsFirstWith(flag, id, value)
                                  && converter(value) == Err(error)))
  }

  lemma ClauseIsHeard<T>(host: Host, c: ClientView, key: string, user: FbUser, converter: Converter<T>, now: int,
                         clause: Clause)
    requires c.hasObserver && c.available && SoundIndex(host.text, c.snapshot)
    requires user.key != "" && key in c.snapshot.flags && !c.snapshot.flags[key].isArchived
    requires Governs(host.text, c.snapshot, c.snapshot.flags[key], user, clause)
    ensures var after := Evaluated(host, c, key, user, converter, now).observations;
            |after| == |c.observations| + 1
                && Hears(host, c.snapshot.flags[key], user, clause, converter, after[|c.observations|])
  {
    EvaluationFollowsTheClause(host.text, c.snapshot, key, user, clause);
    var evaluation := Evaluate(host.text, c.snapshot, key, user);
    if evaluation.Ok? {
      ResultIsHeard(host, c.snapshot.flags[key], user, clause, converter, evaluation.value, key, now);
    }
  }

  lemma ResultIsHeard<T>(host: Host, flag: FeatureFlag, user: FbUser, clause: Clause, converter: Converter<T>,
                         result: EvalResult, key: string, now: int)
    requires clause.Target? ==> clause.index < |flag.targetUsers|
    requires clause.Rule? ==> clause.index < |flag.rules|
    requires Follows(host.text, flag, user, clause, Ok(result))
    ensures var converted := converter(result.variation.value);
            Hears(host, flag, user, clause, converter,
                  if converted.Ok?
                  then Success(now, key, user.key, result.variation.id, result.variation.value,
                               ToObservationReason(result.reason))
                  else Failure(now, key, Some(user.key), converted.error))
  {
  }

  /** What can happen to a client between and during its calls: also a flush request, from `flush` or from
      `flush_and_wait` once it finds room, the worker's taking of a message and its release of an event, and the
      end of the worker, which discards what is still queued. */
  datatype Happening<T> =
    | Call(key: string, user: FbUser, converter: Converter<T>, now: int)
    | FlushRequested(hasReply: bool)
    | Dequeued
    | Released(bytes: Usize)
    | EventsClosed
    | DeliveryStopped
    | ReceiverDropped
    | Became(available: bool, snapshot: DataSnapshot)

  function Happen<T>(host: Host, c: ClientView, h: Happening<T>): ClientView {
    match h
    case Call(key, user, converter, now) => Evaluated(host, c, key, user, converter, now)
    case Became(available, snapshot) => c.(available := available, snapshot := snapshot)
    case _ => c.(intake := Change(c.intake, h))
  }

  function Change<T>(s: Intake, h: Happening<T>): Intake {
    match h
    case FlushRequested(hasReply) => if TakesFlush(s) then s.(queue := s.queue + [Flush(hasReply)]) else s
    case Dequeued => if s.queue == [] then s else Without(s, 1)
    case Released(bytes) => s.(counters := s.counters.(retained := Lowered(s.counters.retained, bytes)))
    case EventsClosed => s.(closed := true, hasSender := false)
    case DeliveryStopped => s.(deliveryStopped := true)
    case ReceiverDropped => Without(s, |s.queue|).(hasReceiver := false)
    case _ => s
  }

  predicate TakesFlush(s: Intake) {
    s.enabled && !s.closed && s.hasSender && s.hasReceiver && |s.queue| < s.limit
  }

  /** Takes the first messages off the queue; each payload among them gives its slot back, a flush holds none. */
  function Without(s: Intake, n: nat): Intake
    requires n <= |s.queue|
  {
    var slots := |Channel.Payloads(s.queue[..n])|;
    s.(queue := s.queue[n..], counters := s.counters.(queued := Lowered(s.counters.queued, slots)))
  }

  /** A subtraction of what is held, which Capacity.dfy shows never to wrap. */
  function Lowered(counter: Usize, amount: nat): Usize {
    if amount <= counter then counter - amount else 0
  }

  function Run<T>(host: Host, start: ClientView, run: seq<Happening<T>>): ClientView {
    if |run| == 0 then start else Happen(host, Run(host, start, run[..|run| - 1]), run[|run| - 1])
  }

  function IsCall<T>(h: Happening<T>): nat { if h.Call? then 1 else 0 }

  function CallCount<T>(run: seq<Happening<T>>): nat {
    if |run| == 0 then 0 else CallCount(run[..|run| - 1]) + IsCall(run[|run| - 1])
  }

  /** The event of a call that counts: of its user, its flag, the variation chosen and its time. */
  function CountedEvent<T>(host: Host, c: ClientView, h: Happening<T>): seq<PayloadEvent> {
    if h.Call? && Counts(host, c, h.key, h.user, h.converter, h.now) then
      var chosen := Outcome(host, c, h.key, h.user).value.variation;
      [Evaluation(h.user, h.key, chosen.id, chosen.value, h.now)]
    else []
  }

  /** The events of the calls of a run that counted, in order. */
  function CountedEvents<T>(host: Host, start: ClientView, run: seq<Happening<T>>): seq<PayloadEvent> {
    if |run| == 0 then []
    else
      var before := run[..|run| - 1];
      CountedEvents(host, start, before) + CountedEvent(host, Run(host, start, before), run[|run| - 1])
  }

  function AddedBy<T>(host: Host, c: ClientView, h: Happening<T>): seq<EventMessage> {
    if h.FlushRequested? && TakesFlush(c.intake) then [Flush(h.hasReply)]
    else
      var event := CountedEvent(host, c, h);
      if event == [] then [] else [Payload(event[0])]
  }

  function RemovedBy<T>(c: ClientView, h: Happening<T>): seq<EventMessage> {
    if h.Dequeued? && c.intake.queue != [] then c.intake.queue[..1]
    else if h.ReceiverDropped? then c.intake.queue
    else []
  }

  /** The messages that a run put into the queue, in order. */
  function Added<T>(host: Host, start: ClientView, run: seq<Happening<T>>): seq<EventMessage> {
    if |run| == 0 then []
    else
      var before := run[..|run| - 1];
      Added(host, start, before) + AddedBy(host, Run(host, start, before), run[|run| - 1])
  }

  /** The messages that it took off the queue, in order. */
  function Removed<T>(host: Host, start: ClientView, run: seq<Happening<T>>): seq<EventMessage> {
    if |run| == 0 then []
    else
      var before := run[..|run| - 1];
      Removed(host, start, before) + RemovedBy(Run(host, start, before), run[|run| - 1])
  }

  // ---------------------------------------------------------------------------------------------------
  // One step

  /** The queue is within its limits and its counter counts its payloads. */
  ghost predicate InOrder(s: Intake) {
    s.WithinLimits() && s.counters.queued == |Channel.Payloads(s.queue)|
  }

  ghost predicate Booked(c: ClientView) { InOrder(c.intake) }

  lemma HappenMovesTheQueue<T>(host: Host, c: ClientView, h: Happening<T>)
    ensures RemovedBy(c, h) + Happen(host, c, h).intake.queue == c.intake.queue + AddedBy(host, c, h)
    ensures Channel.Payloads(AddedBy(host, c, h)) == CountedEvent(host, c, h)
  {
    if h.Call? {
      EvaluationLeaves(host, c, h.key, h.user, h.converter, h.now);
    } else {
      ChangeMovesTheQueue(c, h);
    }
  }

  lemma ChangeMovesTheQueue<T>(c: ClientView, h: Happening<T>)
    requires !h.Call?
    ensures RemovedBy(c, h) + Change(c.intake, h).queue
         == c.intake.queue + if h.FlushRequested? && TakesFlush(c.intake) then [Flush(h.hasReply)] else []
  {
    var queue, after := c.intake.queue, Change(c.intake, h).queue;
    EmptyAdds(queue);
    EmptyAdds(after);
    match h {
      case Dequeued =>
        if queue != [] {
          assert after == queue[1..];
          assert queue[..1] + queue[1..] == queue;
        }
      case ReceiverDropped => assert after == [];
      case _ =>
    }
  }

  lemma EmptyAdds<A>(queue: seq<A>)
    ensures queue + [] == queue && [] + queue == queue
  {
  }

  lemma HappenKeepsBooks<T>(host: Host, c: ClientView, h: Happening<T>)
    requires Booked(c)
    ensures Booked(Happen(host, c, h))
  {
    if h.Call? {
      EvaluationLeaves(host, c, h.key, h.user, h.converter, h.now);
      var after := Happen(host, c, h).intake;
      if after.queue != c.intake.queue {
        Channel.PayloadsAppend(c.intake.queue, [after.queue[|after.queue| - 1]]);
      }
    } else {
      ChangeKeepsBooks(c.intake, h);
    }
  }

  lemma ChangeKeepsBooks<T>(s: Intake, h: Happening<T>)
    requires InOrder(s)
    ensures InOrder(Change(s, h))
  {
    match h {
      case FlushRequested(hasReply) => Channel.PayloadsAppend(s.queue, [Flush(hasReply)]);
      case Dequeued =>
        if s.queue != [] {
          TakingKeepsBooks(s, 1);
        }
      case ReceiverDropped => TakingKeepsBooks(s, |s.queue|);
      case _ =>
    }
  }

  lemma TakingKeepsBooks(s: Intake, n: nat)
    requires InOrder(s) && n <= |s.queue|
    ensures InOrder(Without(s, n))
  {
    Channel.PayloadsAppend(s.queue[..n], s.queue[n..]);
    assert s.queue[..n] + s.queue[n..] == s.queue;
  }

  lemma HappenIsObserved<T>(host: Host, c: ClientView, h: Happening<T>)
    ensures var after := Happen(host, c, h);
            && |after.observations| == |c.observations| + (if c.hasObserver then IsCall(h) else 0)
            && after.hasObserver == c.hasObserver && after.disableEvents == c.disableEvents
            && (c.disableEvents || !c.intake.IsAccepting() ==> CountedEvent(host, c, h) == [])
            && (!c.intake.IsAccepting() ==> !after.intake.IsAccepting())
            && |CountedEvent(host, c, h)| <= IsCall(h)
  {
    if h.Call? {
      EvaluationLeaves(host, c, h.key, h.user, h.converter, h.now);
    }
  }

  // ---------------------------------------------------------------------------------------------------
  // Every run

  /** The queue is FIFO: what was taken off it, followed by what is in it, is what was in it at the start, followed
      by what was put in; and the events among what was put in are exactly those of the calls that counted. */
  lemma {:induction false} QueueIsFifo<T>(host: Host, start: ClientView, run: seq<Happening<T>>)
    ensures Removed(host, start, run) + Run(host, start, run).intake.queue
            == start.intake.queue + Added(host, start, run)
    ensures Channel.Payloads(Added(host, start, run)) == CountedEvents(host, start, run)
  {
    if |run| == 0 {
      assert start.intake.queue + [] == [] + start.intake.queue;
    } else {
      var before, last := run[..|run| - 1], run[|run| - 1];
      var c := Run(host, start, before);
      QueueIsFifo(host, start, before);
      HappenMovesTheQueue(host, c, last);
      Channel.PayloadsAppend(Added(host, start, before), AddedBy(host, c, last));
      Moved(Removed(host, start, before), c.intake.queue, start.intake.queue, Added(host, start, before),
            RemovedBy(c, last), Happen(host, c, last).intake.queue, AddedBy(host, c, last));
    }
  }

  lemma Moved<A>(removed: seq<A>, queue: seq<A>, start: seq<A>, added: seq<A>, out: seq<A>, after: seq<A>, in_: seq<A>)
    requires removed + queue == start + added && out + after == queue + in_
    ensures (removed + out) + after == start + (added + in_)
  {
    assert (removed + out) + after == removed + (out + after);
    assert removed + (queue + in_) == (removed + queue) + in_;
    assert (start + added) + in_ == start + (added + in_);
  }

  /** Over every run of calls, flushes, dequeues, releases, closes and updates: the observer hears every call
      exactly once; the queue counter counts the queued payloads; and the events that leave and stay in the queue
      are, in order, those of the start followed by those of the counted calls. */
  lemma EveryCallIsAccountedFor<T>(host: Host, start: ClientView, run: seq<Happening<T>>)
    ensures var after := Run(host, start, run);
            && Channel.Payloads(Removed(host, start, run)) + Channel.Payloads(after.intake.queue)
               == Channel.Payloads(start.intake.queue) + CountedEvents(host, start, run)
            && (Booked(start) ==> Booked(after))
            && |after.observations| == |start.observations| + (if start.hasObserver then CallCount(run) else 0)
            && (start.disableEvents ==> CountedEvents(host, start, run) == [])
            && |CountedEvents(host, start, run)| <= CallCount(run)
  {
    QueueIsFifo(host, start, run);
    CallsAreObserved(host, start, run);
    Channel.PayloadsAppend(Removed(host, start, run), Run(host, start, run).intake.queue);
    Channel.PayloadsAppend(start.intake.queue, Added(host, start, run));
  }

  lemma {:induction false} CallsAreObserved<T>(host: Host, start: ClientView, run: seq<Happening<T>>)
    ensures var after := Run(host, start, run);
            && (Booked(start) ==> Booked(after))
            && |after.observations| == |start.observations| + (if start.hasObserver then CallCount(run) else 0)
            && after.hasObserver == start.hasObserver && after.disableEvents == start.disableEvents
            && (start.disableEvents ==> CountedEvents(host, start, run) == [])
            && |CountedEvents(host, start, run)| <= CallCount(run)
  {
    if |run| > 0 {
      var c, last := Run(host, start, run[..|run| - 1]), run[|run| - 1];
      CallsAreObserved(host, start, run[..|run| - 1]);
      HappenIsObserved(host, c, last);
      if Booked(start) {
        HappenKeepsBooks(host, c, last);
      }
    }
  }

  /** Without a processor, or once it is closed or its delivery has stopped, no later call enqueues anything. */
  lemma {:induction false} NothingCountsAfterwards<T>(host: Host, start: ClientView, run: seq<Happening<T>>)
    requires !start.intake.enabled || start.intake.closed || start.intake.deliveryStopped
    ensures CountedEvents(host, start, run) == []
    ensures var after := Run(host, start, run).intake;
            !after.enabled || after.closed || after.deliveryStopped
  {
    if |run| > 0 {
      var before, last := run[..|run| - 1], run[|run| - 1];
      NothingCountsAfterwards(host, start, before);
      RefusedCallsDoNotCount(host, Run(host, start, before), last);
    }
  }

  lemma RefusedCallsDoNotCount<T>(host: Host, c: ClientView, h: Happening<T>)
    requires !c.intake.enabled || c.intake.closed || c.intake.deliveryStopped
    ensures CountedEvent(host, c, h) == []
    ensures var after := Happen(host, c, h).intake;
            !after.enabled || after.closed || after.deliveryStopped
  {
    if h.Call? {
      if CountedEvent(host, c, h) != [] {
        RecordedMeaning(host, c.intake, CountedEvent(host, c, h)[0]);
      }
      CallsDoNotTouchTheProcessor(host, c, h.key, h.user, h.converter, h.now);
    } else {
      ChangesOpenNothing(c.intake, h);
    }
  }

  lemma ChangesOpenNothing<T>(s: Intake, h: Happening<T>)
    requires !s.enabled || s.closed || s.deliveryStopped
    ensures var after := Change(s, h);
            !after.enabled || after.closed || after.deliveryStopped
  {
  }

  lemma CallsDoNotTouchTheProcessor<T>(host: Host, c: ClientView, key: string, user: FbUser, converter: Converter<T>,
                                       now: int)
    ensures var s, after := c.intake, Evaluated(host, c, key, user, converter, now).intake;
            after.enabled == s.enabled && after.closed == s.closed && after.deliveryStopped == s.deliveryStopped
  {
    var outcome := Outcome(host, c, key, user);
    if outcome.Ok? {
      var chosen := outcome.value.variation;
      RecordedMeaning(host, c.intake, Evaluation(user, key, chosen.id, chosen.value, now));
    }
  }

  lemma {:induction false} RunsCompose<T>(host: Host, start: ClientView, first: seq<Happening<T>>,
                                          second: seq<Happening<T>>)
    ensures Run(host, start, first + second) == Run(host, Run(host, start, first), second)
    ensures CountedEvents(host, start, first + second)
         == CountedEvents(host, start, first) + CountedEvents(host, Run(host, start, first), second)
  {
    if |second| == 0 {
      assert first + second == first;
    } else {
      var before, last := second[..|second| - 1], second[|second| - 1];
      RunsCompose(host, start, first, before);
      assert (first + second)[..|first + second| - 1] == first + before;
      assert (first + second)[|first + second| - 1] == last;
      var middle := Run(host, start, first);
      assert Run(host, start, first + second) == Happen(host, Run(host, start, first + before), last);
      Associate(CountedEvents(host, start, first), CountedEvents(host, middle, before),
                CountedEvent(host, Run(host, middle, before), last));
    }
  }

  lemma ClosedAddsNothing<T>(host: Host, c: ClientView, h: Happening<T>)
    requires c.intake.closed
    ensures AddedBy(host, c, h) == [] && Happen(host, c, h).intake.closed
  {
    if h.Call? {
      RefusedCallsDoNotCount(host, c, h);
      CallsDoNotTouchTheProcessor(host, c, h.key, h.user, h.converter, h.now);
    } else {
      ChangesKeepItClosed(c.intake, h);
    }
  }

  lemma ChangesKeepItClosed<T>(s: Intake, h: Happening<T>)
    requires s.closed
    ensures Change(s, h).closed && !TakesFlush(s)
  {
  }

  /** To a closed processor nothing is added at all, flush requests included. */
  lemma {:induction false} NothingIsAddedOnceClosed<T>(host: Host, start: ClientView, run: seq<Happening<T>>)
    requires start.intake.closed
    ensures Added(host, start, run) == [] && Run(host, start, run).intake.closed
  {
    if |run| > 0 {
      NothingIsAddedOnceClosed(host, start, run[..|run| - 1]);
      ClosedAddsNothing(host, Run(host, start, run[..|run| - 1]), run[|run| - 1]);
    }
  }

  lemma Associate<A>(a: seq<A>, b: seq<A>, c: seq<A>)
    ensures a + b + c == a + (b + c)
  {
  }

  /** In any run, after events are closed or delivery stops, nothing is added to what counted before. */
  lemma NothingCountsAfterAClose<T>(host: Host, start: ClientView, before: seq<Happening<T>>, end: Happening<T>,
                                    after: seq<Happening<T>>)
    requires end in {EventsClosed, DeliveryStopped}
    ensures CountedEvents(host, start, before + ([end] + after)) == CountedEvents(host, start, before)
  {
    var middle := Run(host, start, before);
    RunsCompose(host, start, before, [end] + after);
    RunsCompose(host, middle, [end], after);
    OneStep(host, middle, end);
    NothingCountsAfterwards(host, Happen(host, middle, end), after);
  }

  lemma OneStep<T>(host: Host, c: ClientView, h: Happening<T>)
    ensures Run(host, c, [h]) == Happen(host, c, h) && CountedEvents(host, c, [h]) == CountedEvent(host, c, h)
  {
    assert [h][..0] == [];
  }
}
