/** Admission control, after `EventCapacity` and `EventAdmission` of src/events.rs, one atomic operation a step. */
module Capacity {
  import opened Wrappers

  const USIZE_MODULUS: nat := 0x1_0000_0000_0000_0000

  type Usize = n: nat | n < USIZE_MODULUS

  /** One reservation attempt, from its first load to the release of what it was granted. */
  datatype Token =
    // try_reserve, on the way to a slot
    | SlotsRead(bytes: Usize, current: Usize)
    | HasSlot(bytes: Usize)
    // try_reserve, on the way to the bytes
    | BytesRead(bytes: Usize, current: Usize)
    | RollingBack(bytes: Usize)
    | Refused
    // an EventAdmission: queued, taken off the queue, dropped
    | Admitted(bytes: Usize)
    | Dequeuing(bytes: Usize)
    | Dequeued(bytes: Usize)
    | DroppingSlot(bytes: Usize)
    | DroppingBytes(bytes: Usize)
    | Released

  datatype Counters = Counters(maxQueued: Usize, maxBytes: Usize, queued: Usize, retained: Usize)

  datatype System = System(counters: Counters, tokens: seq<Token>)

  /** `fetch_sub`, which wraps. */
  function FetchSub(counter: Usize, amount: Usize): Usize { (counter + USIZE_MODULUS - amount) % USIZE_MODULUS }

  function SlotsOf(t: Token): nat {
    match t
    case HasSlot(_) | BytesRead(_, _) | RollingBack(_) | Admitted(_) | Dequeuing(_) | DroppingSlot(_) => 1
    case _ => 0
  }

  function BytesOf(t: Token): nat {
    match t
    case Admitted(b) => b
    case Dequeuing(b) => b
    case Dequeued(b) => b
    case DroppingSlot(b) => b
    case DroppingBytes(b) => b
    case _ => 0
  }

  /** An atomic operation. Loads are relaxed, so `observed` may be any stale value; a weak exchange may fail even
      when the expected value is there. */
  datatype Action =
    | Begin(bytes: Usize, observed: Usize)
    | ExchangeSlots(spurious: bool, observed: Usize)
    | LoadBytes(observed: Usize)
    | ExchangeBytes(spurious: bool, observed: Usize)
    | RollBack
    | ClearSlotFlag
    | SubtractSlot
    | StartDrop
    | SubtractBytes

  /** `checked_add`, then the comparison with the maximum. */
  predicate Fits(current: nat, amount: nat, maximum: nat) {
    current + amount < USIZE_MODULUS && current + amount <= maximum
  }

  function Move(c: Counters, t: Token, action: Action): Option<(Counters, Token)> {
    match (action, t)
    case (ExchangeSlots(spurious, observed), SlotsRead(bytes, current)) =>
      if !Fits(current, 1, c.maxQueued) then Some((c, Refused))
      else if c.queued == current && !spurious then Some((c.(queued := current + 1), HasSlot(bytes)))
      else Some((c, SlotsRead(bytes, observed)))
    case (LoadBytes(observed), HasSlot(bytes)) => Some((c, BytesRead(bytes, observed)))
    case (ExchangeBytes(spurious, observed), BytesRead(bytes, current)) =>
      if !Fits(current, bytes, c.maxBytes) then Some((c, RollingBack(bytes)))
      else if c.retained == current && !spurious then Some((c.(retained := current + bytes), Admitted(bytes)))
      else Some((c, BytesRead(bytes, observed)))
    case (RollBack, RollingBack(_)) => Some((c.(queued := FetchSub(c.queued, 1)), Refused))
    case (ClearSlotFlag, Admitted(bytes)) => Some((c, Dequeuing(bytes)))
    case (SubtractSlot, Dequeuing(bytes)) => Some((c.(queued := FetchSub(c.queued, 1)), Dequeued(bytes)))
    case (StartDrop, Admitted(bytes)) => Some((c, DroppingSlot(bytes)))
    case (StartDrop, Dequeued(bytes)) => Some((c, DroppingBytes(bytes)))
    case (SubtractSlot, DroppingSlot(bytes)) => Some((c.(queued := FetchSub(c.queued, 1)), DroppingBytes(bytes)))
    case (SubtractBytes, DroppingBytes(bytes)) => Some((c.(retained := FetchSub(c.retained, bytes)), Released))
    case _ => None
  }

  datatype Step = Step(token: nat, action: Action)

  function Take(s: System, step: Step): System {
    match step.action
    case Begin(bytes, observed) => s.(tokens := s.tokens + [SlotsRead(bytes, observed)])
    case _ =>
      if step.token >= |s.tokens| then s
      else
        match Move(s.counters, s.tokens[step.token], step.action)
        case Some((counters, token)) => System(counters, s.tokens[step.token := token])
        case None => s
  }

  function Run(start: System, steps: seq<Step>): System {
    if steps == [] then start else Take(Run(start, steps[..|steps| - 1]), steps[|steps| - 1])
  }

  function Fresh(maxQueued: Usize, maxBytes: Usize): System { System(Counters(maxQueued, maxBytes, 0, 0), []) }

  // ---------------------------------------------------------------------------------------------------
  // The two accounts

  function TotalSlots(tokens: seq<Token>): nat {
    if tokens == [] then 0 else TotalSlots(tokens[..|tokens| - 1]) + SlotsOf(tokens[|tokens| - 1])
  }

  function TotalBytes(tokens: seq<Token>): nat {
    if tokens == [] then 0 else TotalBytes(tokens[..|tokens| - 1]) + BytesOf(tokens[|tokens| - 1])
  }

  /** Each counter is exactly what its holders hold, and never more than its maximum. */
  ghost predicate Balanced(s: System) {
    && s.counters.queued == TotalSlots(s.tokens) <= s.counters.maxQueued
    && s.counters.retained == TotalBytes(s.tokens) <= s.counters.maxBytes
  }

  lemma {:induction false} UpdateTotals(tokens: seq<Token>, i: nat, t: Token)
    requires i < |tokens|
    ensures SlotsOf(tokens[i]) <= TotalSlots(tokens) && BytesOf(tokens[i]) <= TotalBytes(tokens)
    ensures TotalSlots(tokens[i := t]) == TotalSlots(tokens) - SlotsOf(tokens[i]) + SlotsOf(t)
    ensures TotalBytes(tokens[i := t]) == TotalBytes(tokens) - BytesOf(tokens[i]) + BytesOf(t)
  {
    var n := |tokens| - 1;
    if i == n {
      assert tokens[i := t][..n] == tokens[..n];
    } else {
      UpdateTotals(tokens[..n], i, t);
      assert tokens[i := t][..n] == tokens[..n][i := t];
    }
  }

  lemma SubtractionIsExact(counter: Usize, amount: Usize)
    requires amount <= counter
    ensures FetchSub(counter, amount) == counter - amount
  {
  }

  /** What a step does to each counter is exactly what its token comes to hold, or lets go of. */
  ghost predicate IsExact(c: Counters, t: Token, c': Counters, t': Token) {
    c'.queued - c.queued == SlotsOf(t') - SlotsOf(t) && c'.retained - c.retained == BytesOf(t') - BytesOf(t)
  }

  lemma MoveIsExact(c: Counters, t: Token, action: Action)
    requires SlotsOf(t) <= c.queued && BytesOf(t) <= c.retained
    ensures match Move(c, t, action)
            case Some((c', t')) => IsExact(c, t, c', t')
            case None => true
  {
    if SlotsOf(t) == 1 {
      SubtractionIsExact(c.queued, 1);
    }
    SubtractionIsExact(c.retained, BytesOf(t));
  }

  lemma TakeKeepsBalance(s: System, step: Step)
    requires Balanced(s)
    ensures Balanced(Take(s, step)) && SameLimits(s, Take(s, step))
  {
    if step.action.Begin? {
      assert (s.tokens + [SlotsRead(step.action.bytes, step.action.observed)])[..|s.tokens|] == s.tokens;
    } else if step.token < |s.tokens| {
      var t := s.tokens[step.token];
      UpdateTotals(s.tokens, step.token, t);
      MoveIsExact(s.counters, t, step.action);
      MoveKeepsLimits(s.counters, t, step.action);
      match Move(s.counters, t, step.action) {
        case Some((_, t')) => UpdateTotals(s.tokens, step.token, t');
        case None =>
      }
    }
  }

  lemma MoveKeepsLimits(c: Counters, t: Token, action: Action)
    requires SlotsOf(t) <= c.queued <= c.maxQueued && BytesOf(t) <= c.retained <= c.maxBytes
    ensures match Move(c, t, action)
            case Some((c', _)) =>
              && c'.maxQueued == c.maxQueued && c'.maxBytes == c.maxBytes
              && c'.queued <= c.maxQueued && c'.retained <= c.maxBytes
            case None => true
  {
    MoveIsExact(c, t, action);
  }

  /** In every run no operation wraps. */
  lemma StepsNeverWrap(maxQueued: Usize, maxBytes: Usize, steps: seq<Step>, next: Step)
    ensures var s := Run(Fresh(maxQueued, maxBytes), steps);
            next.token < |s.tokens| ==>
              match Move(s.counters, s.tokens[next.token], next.action)
              case Some((counters, after)) => IsExact(s.counters, s.tokens[next.token], counters, after)
              case None => true
  {
    EveryRunBalances(Fresh(maxQueued, maxBytes), steps);
    var s := Run(Fresh(maxQueued, maxBytes), steps);
    if next.token < |s.tokens| {
      UpdateTotals(s.tokens, next.token, s.tokens[next.token]);
      MoveIsExact(s.counters, s.tokens[next.token], next.action);
    }
  }

  ghost predicate SameLimits(s: System, s': System) {
    s.counters.maxQueued == s'.counters.maxQueued && s.counters.maxBytes == s'.counters.maxBytes
  }

  /** For any number of producers and any interleaving of single atomic operations, stale loads included. */
  lemma {:induction false} EveryRunBalances(start: System, steps: seq<Step>)
    requires Balanced(start)
    ensures Balanced(Run(start, steps)) && SameLimits(start, Run(start, steps))
  {
    if steps != [] {
      var before := Run(start, steps[..|steps| - 1]);
      EveryRunBalances(start, steps[..|steps| - 1]);
      TakeKeepsBalance(before, steps[|steps| - 1]);
      assert Run(start, steps) == Take(before, steps[|steps| - 1]);
    }
  }

  ghost predicate Idle(tokens: seq<Token>) {
    forall i :: 0 <= i < |tokens| ==> tokens[i] in {Refused, Released} || tokens[i].SlotsRead?
  }

  lemma {:induction false} IdleHoldsNothing(tokens: seq<Token>)
    requires Idle(tokens)
    ensures TotalSlots(tokens) == 0 && TotalBytes(tokens) == 0
  {
    if tokens != [] {
      IdleHoldsNothing(tokens[..|tokens| - 1]);
    }
  }

  /** Capacity is never leaked: once nothing is held, both counters are back at zero. */
  lemma CapacityComesBack(maxQueued: Usize, maxBytes: Usize, steps: seq<Step>)
    requires Idle(Run(Fresh(maxQueued, maxBytes), steps).tokens)
    ensures var c := Run(Fresh(maxQueued, maxBytes), steps).counters; c.queued == 0 && c.retained == 0
  {
    EveryRunBalances(Fresh(maxQueued, maxBytes), steps);
    IdleHoldsNothing(Run(Fresh(maxQueued, maxBytes), steps).tokens);
  }

  /** No reservation steals another's: admissions that hold a slot are at most the slot maximum, and the bytes
      that admissions hold, queued, buffered or in flight, are at most the byte maximum. */
  lemma AdmissionsAreWithinLimits(maxQueued: Usize, maxBytes: Usize, steps: seq<Step>)
    ensures var tokens := Run(Fresh(maxQueued, maxBytes), steps).tokens;
            TotalSlots(tokens) <= maxQueued && TotalBytes(tokens) <= maxBytes
  {
    EveryRunBalances(Fresh(maxQueued, maxBytes), steps);
  }

  // ---------------------------------------------------------------------------------------------------
  // The same operations, run without interference

  /** The effect of an undisturbed `try_reserve`. */
  function Reserved(c: Counters, bytes: Usize): (r: Option<Counters>)
    ensures r.Some? <==> c.queued < c.maxQueued && c.retained + bytes <= c.maxBytes
  {
    if Fits(c.queued, 1, c.maxQueued) && Fits(c.retained, bytes, c.maxBytes)
    then Some(c.(queued := c.queued + 1, retained := c.retained + bytes))
    else None
  }

  /** One attempt whose loads are fresh and whose exchanges succeed. */
  function Solo(s: System, bytes: Usize): System {
    var i := |s.tokens|;
    var begun := Take(s, Step(i, Begin(bytes, s.counters.queued)));
    var slotted := Take(begun, Step(i, ExchangeSlots(false, 0)));
    var loaded := Take(slotted, Step(i, LoadBytes(s.counters.retained)));
    var exchanged := Take(loaded, Step(i, ExchangeBytes(false, 0)));
    Take(exchanged, Step(i, RollBack))
  }

  /** Undisturbed, the steps grant exactly what fits, and a refusal leaves both counters as they were. */
  lemma SoloAttempt(s: System, bytes: Usize)
    requires Balanced(s)
    ensures Solo(s, bytes) == match Reserved(s.counters, bytes)
                              case Some(counters) => System(counters, s.tokens + [Admitted(bytes)])
                              case None => System(s.counters, s.tokens + [Refused])
  {
    var i, c := |s.tokens|, s.counters;
    forall t, t' ensures (s.tokens + [t])[i := t'] == s.tokens + [t'] {
    }
    if Fits(c.queued, 1, c.maxQueued) && !Fits(c.retained, bytes, c.maxBytes) {
      SubtractionIsExact(c.queued + 1, 1);
    }
  }

  /** A granted event that is dequeued and dropped, or dropped while still queued, gives back its slot and its bytes. */
  lemma SoloRelease(c: Counters, bytes: Usize)
    requires c.queued > 0 && c.retained >= bytes
    ensures var cleared := Move(c, Admitted(bytes), ClearSlotFlag);
            && cleared == Some((c, Dequeuing(bytes)))
            && var freed := c.(queued := c.queued - 1);
            && Move(c, Dequeuing(bytes), SubtractSlot) == Some((freed, Dequeued(bytes)))
            && Move(freed, Dequeued(bytes), StartDrop) == Some((freed, DroppingBytes(bytes)))
            && Move(c, Admitted(bytes), StartDrop) == Some((c, DroppingSlot(bytes)))
            && Move(c, DroppingSlot(bytes), SubtractSlot) == Some((freed, DroppingBytes(bytes)))
            && Move(freed, DroppingBytes(bytes), SubtractBytes)
               == Some((freed.(retained := freed.retained - bytes), Released))
  {
    SubtractionIsExact(c.queued, 1);
    SubtractionIsExact(c.retained, bytes);
  }

  class EventCapacity {
    var counters: Counters

    constructor (maxQueued: Usize, maxBytes: Usize)
      ensures counters == Counters(maxQueued, maxBytes, 0, 0)
    {
      counters := Counters(maxQueued, maxBytes, 0, 0);
    }

    method TryReserve(bytes: Usize) returns (admission: Option<EventAdmission>)
      requires counters.queued <= counters.maxQueued && counters.retained <= counters.maxBytes
      modifies this
      ensures admission.Some? <==> Reserved(old(counters), bytes).Some?
      ensures counters == if admission.Some? then Reserved(old(counters), bytes).value else old(counters)
      ensures admission.Some? ==> fresh(admission.value) && admission.value.capacity == this
                                  && admission.value.retainedBytes == bytes && admission.value.occupiesQueueSlot
    {
      if !Fits(counters.queued, 1, counters.maxQueued) {
        return None;
      }
      counters := counters.(queued := counters.queued + 1);
      if !Fits(counters.retained, bytes, counters.maxBytes) {
        counters := counters.(queued := FetchSub(counters.queued, 1));
        return None;
      }
      counters := counters.(retained := counters.retained + bytes);
      var granted := new EventAdmission(this, bytes);
      return Some(granted);
    }
  }

  class EventAdmission {
    const capacity: EventCapacity
    const retainedBytes: Usize
    var occupiesQueueSlot: bool

    constructor (capacity: EventCapacity, bytes: Usize)
      ensures this.capacity == capacity && retainedBytes == bytes && occupiesQueueSlot
    {
      this.capacity, retainedBytes, occupiesQueueSlot := capacity, bytes, true;
    }

    /** Gives the queue slot back once, however often it is called. */
    method MarkDequeued()
      requires occupiesQueueSlot ==> capacity.counters.queued > 0
      modifies this, capacity
      ensures !occupiesQueueSlot
      ensures capacity.counters == old(capacity.counters).(
                queued := old(capacity.counters.queued) - if old(occupiesQueueSlot) then 1 else 0)
    {
      if occupiesQueueSlot {
        occupiesQueueSlot := false;
        capacity.counters := capacity.counters.(queued := FetchSub(capacity.counters.queued, 1));
      }
    }

    /** The destructor: whatever is still held goes back. */
    method Drop()
      requires occupiesQueueSlot ==> capacity.counters.queued > 0
      requires capacity.counters.retained >= retainedBytes
      modifies capacity
      ensures capacity.counters == old(capacity.counters).(
                queued := old(capacity.counters.queued) - (if occupiesQueueSlot then 1 else 0),
                retained := old(capacity.counters.retained) - retainedBytes)
    {
      if occupiesQueueSlot {
        capacity.counters := capacity.counters.(queued := FetchSub(capacity.counters.queued, 1));
      }
      capacity.counters := capacity.counters.(retained := FetchSub(capacity.counters.retained, retainedBytes));
    }
  }

  /** Reserving, dequeuing and dropping one event leaves the counters where they were. */
  method ReserveAndRelease(capacity: EventCapacity, bytes: Usize) returns (admitted: bool)
    requires capacity.counters.queued <= capacity.counters.maxQueued
             && capacity.counters.retained <= capacity.counters.maxBytes
    modifies capacity
    ensures capacity.counters == old(capacity.counters)
    ensures admitted <==> Reserved(old(capacity.counters), bytes).Some?
  {
    var admission := capacity.TryReserve(bytes);
    admitted := admission.Some?;
    if admitted {
      admission.value.MarkDequeued();
      admission.value.Drop();
    }
  }
}
