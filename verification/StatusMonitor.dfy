/** The waiting half of src/data_sync/status.rs as a monitor: any number of setters and waiters, interleaved at
    every access to the lock, the condition variable and the two atomics. */
module StatusMonitor {
  import opened Wrappers
  import opened Status

  /** Where a thread stands. A setter that found nothing to notify skips `MustNotify`. */
  datatype Thread =
    | Idle
    // wait_until_initialized
    | WantsLock                             // past the unlocked check, or woken: contending for the lock
    | Checking                              // holds the lock, at the head of the loop
    | SawUninitialized                      // holds the lock, has read `initialized` as false
    | SawOpen                               // holds the lock, has also read a status that is not Closed
    | GivingUp                              // holds the lock, out of the loop by timeout
    | Leaving(sawClosed: bool)              // holds the lock, out of the loop by its condition
    | Asleep                                // on the condition variable, not notified
    | TimedOut                              // left the condition variable by timeout, contending for the lock
    | Returned(result: bool, sawClosed: bool, timedOut: bool)
    // set
    | WantsToSet(target: SyncStatus)
    | Setting(target: SyncStatus)           // holds the lock
    | Swapping(target: SyncStatus)          // holds the lock, `initialized` stored if it was due
    | MustNotify                            // holds the lock, has swapped the status
    | Unlocking                             // holds the lock

  datatype Monitor = Monitor(status: SyncStatus, initialized: bool, threads: seq<Thread>)

  predicate HoldsLock(t: Thread) {
    match t
    case Checking | SawUninitialized | SawOpen | GivingUp | Leaving(_) => true
    case Setting(_) | Swapping(_) | MustNotify | Unlocking => true
    case _ => false
  }

  predicate LockIsFree(m: Monitor) { forall i :: 0 <= i < |m.threads| ==> !HoldsLock(m.threads[i]) }

  datatype Action =
    | CallWait        // including the unlocked fast path
    | Acquire
    | ReadInitialized
    | ReadStatus
    | Sleep           // releases the lock and sleeps, as one step
    | Expire          // the deadline has passed, before the sleep or during it
    | SpuriousWake
    | Return
    | CallSet(target: SyncStatus)
    | StoreInitialized
    | SwapStatus
    | NotifyAll
    | Release

  function Wake(t: Thread): Thread { if t == Asleep then WantsLock else t }

  function WakeAll(threads: seq<Thread>): seq<Thread> {
    seq(|threads|, i requires 0 <= i < |threads| => Wake(threads[i]))
  }

  /** One atomic step of thread `i`, if it can take the action now. */
  function Act(m: Monitor, i: nat, action: Action): Option<Monitor>
    requires i < |m.threads|
  {
    var t := m.threads[i];
    match action
    case CallWait =>
      if t != Idle then None
      else if m.initialized then Some(At(m, i, Returned(true, false, false)))
      else Some(At(m, i, WantsLock))
    case CallSet(target) => if t == Idle then Some(At(m, i, WantsToSet(target))) else None
    case Acquire =>
      if !LockIsFree(m) then None
      else
        (match t
         case WantsLock => Some(At(m, i, Checking))
         case TimedOut => Some(At(m, i, GivingUp))
         case WantsToSet(target) => Some(At(m, i, Setting(target)))
         case _ => None)
    case ReadInitialized =>
      if t != Checking then None
      else Some(At(m, i, if m.initialized then Leaving(false) else SawUninitialized))
    case ReadStatus =>
      if t != SawUninitialized then None
      else Some(At(m, i, if m.status == Closed then Leaving(true) else SawOpen))
    case Sleep => if t == SawOpen then Some(At(m, i, Asleep)) else None
    case Expire =>
      if t == SawOpen then Some(At(m, i, GivingUp))
      else if t == Asleep then Some(At(m, i, TimedOut))
      else None
    case SpuriousWake => if t == Asleep then Some(At(m, i, WantsLock)) else None
    case Return =>
      (match t
       case GivingUp => Some(At(m, i, Returned(m.initialized, false, true)))
       case Leaving(sawClosed) => Some(At(m, i, Returned(m.initialized, sawClosed, false)))
       case _ => None)
    case StoreInitialized =>
      (match t
       case Setting(target) => Some(At(m.(initialized := m.initialized || target == Ready), i, Swapping(target)))
       case _ => None)
    case SwapStatus =>
      (match t
       case Swapping(target) =>
         Some(At(m.(status := target), i, if m.status != target || target == Ready then MustNotify else Unlocking))
       case _ => None)
    case NotifyAll =>
      if t == MustNotify then Some(At(m.(threads := WakeAll(m.threads)), i, Unlocking)) else None
    case Release => if t == Unlocking then Some(At(m, i, Idle)) else None
  }

  function At(m: Monitor, i: nat, t: Thread): Monitor
    requires i < |m.threads|
  {
    m.(threads := m.threads[i := t])
  }

  datatype Step = Step(thread: nat, action: Action)

  /** A run that starts with every thread idle; steps that are not possible are skipped. */
  function Run(start: Monitor, steps: seq<Step>): (end: Monitor)
    ensures |end.threads| == |start.threads|
  {
    if steps == [] then start
    else
      var m := Run(start, steps[..|steps| - 1]);
      var step := steps[|steps| - 1];
      if step.thread >= |m.threads| then m
      else
        match Act(m, step.thread, step.action)
        case Some(next) => next
        case None => m
  }

  // ---------------------------------------------------------------------------------------------------

  /** A reason to wake: the loop's condition has become false. */
  predicate ShouldWake(m: Monitor) { m.initialized || m.status == Closed }

  /** A setter that has made the condition false, and is bound to notify before it lets go of the lock. */
  predicate WillNotify(t: Thread) { t == MustNotify || t == Swapping(Ready) }

  ghost predicate Safe(m: Monitor) {
    && (forall i, j :: 0 <= i < j < |m.threads| ==> !(HoldsLock(m.threads[i]) && HoldsLock(m.threads[j])))
    && (forall i :: 0 <= i < |m.threads| ==> ThreadSafe(m, m.threads[i]))
  }

  ghost predicate ThreadSafe(m: Monitor, t: Thread) {
    match t
    case Asleep => ShouldWake(m) ==> SomeoneWillNotify(m)
    case SawUninitialized => !m.initialized
    case SawOpen => !ShouldWake(m)
    case Swapping(Ready) => m.initialized
    case Leaving(sawClosed) => m.initialized || sawClosed
    case Returned(result, sawClosed, timedOut) => if result then m.initialized else sawClosed || timedOut
    case _ => true
  }

  ghost predicate SomeoneWillNotify(m: Monitor) { exists j :: 0 <= j < |m.threads| && WillNotify(m.threads[j]) }

  /** The lock is handed on, and nobody else moves or loses what it knows. */
  lemma OneThreadMoves(m: Monitor, i: nat, t: Thread)
    requires i < |m.threads| && Safe(m) && ThreadSafe(m, t)
    requires t != Asleep
    requires HoldsLock(t) ==> HoldsLock(m.threads[i]) || LockIsFree(m)
    requires WillNotify(m.threads[i]) ==> WillNotify(t)
    ensures Safe(At(m, i, t))
  {
    var m' := At(m, i, t);
    if j :| 0 <= j < |m.threads| && WillNotify(m.threads[j]) {
      assert WillNotify(m'.threads[j]);
    }
  }

  lemma ActKeepsSafe(m: Monitor, i: nat, action: Action)
    requires i < |m.threads| && Safe(m)
    ensures Act(m, i, action).Some? ==> Safe(Act(m, i, action).value)
  {
    if Act(m, i, action).Some? {
      var m' := Act(m, i, action).value;
      match action {
        case Sleep => SleepKeepsSafe(m, i);
        case StoreInitialized => StoreKeepsSafe(m, i);
        case SwapStatus => SwapKeepsSafe(m, i);
        case NotifyAll => NotifyKeepsSafe(m, i);
        case _ => OneThreadMoves(m, i, m'.threads[i]);
      }
    }
  }

  lemma SleepKeepsSafe(m: Monitor, i: nat)
    requires i < |m.threads| && Safe(m) && m.threads[i] == SawOpen
    ensures Safe(At(m, i, Asleep))
  {
    assert ThreadSafe(m, m.threads[i]);
  }

  lemma OneHolder(m: Monitor, i: nat)
    requires i < |m.threads| && Safe(m) && HoldsLock(m.threads[i])
    ensures forall j :: 0 <= j < |m.threads| && HoldsLock(m.threads[j]) ==> j == i
  {
    forall j | 0 <= j < |m.threads| && HoldsLock(m.threads[j]) ensures j == i {
      assert !(i < j) && !(j < i);
    }
  }

  lemma StoreKeepsSafe(m: Monitor, i: nat)
    requires i < |m.threads| && Safe(m) && m.threads[i].Setting?
    ensures Safe(Act(m, i, StoreInitialized).value)
  {
    var m' := Act(m, i, StoreInitialized).value;
    assert WillNotify(m'.threads[i]) || m'.initialized == m.initialized;
    OneHolder(m, i);
    forall j | 0 <= j < |m.threads| ensures ThreadSafe(m', m'.threads[j]) {
      assert ThreadSafe(m, m.threads[j]);
    }
  }

  lemma SwapKeepsSafe(m: Monitor, i: nat)
    requires i < |m.threads| && Safe(m) && m.threads[i].Swapping?
    ensures Safe(Act(m, i, SwapStatus).value)
  {
    var m' := Act(m, i, SwapStatus).value;
    assert m'.threads[i] == MustNotify || m'.status == m.status;
    OneHolder(m, i);
    forall j | 0 <= j < |m.threads| ensures ThreadSafe(m', m'.threads[j]) {
      assert ThreadSafe(m, m.threads[j]);
      assert WillNotify(m'.threads[i]) ==> SomeoneWillNotify(m');
    }
  }

  lemma NotifyKeepsSafe(m: Monitor, i: nat)
    requires i < |m.threads| && Safe(m) && m.threads[i] == MustNotify
    ensures Safe(Act(m, i, NotifyAll).value)
  {
    var m' := Act(m, i, NotifyAll).value;
    forall j | 0 <= j < |m.threads| ensures ThreadSafe(m', m'.threads[j]) {
      assert ThreadSafe(m, m.threads[j]);
    }
  }

  // ---------------------------------------------------------------------------------------------------
  // Every run

  ghost predicate Begins(m: Monitor) { forall i :: 0 <= i < |m.threads| ==> m.threads[i] == Idle }

  lemma {:induction false} RunIsSafe(start: Monitor, steps: seq<Step>)
    requires Begins(start)
    ensures Safe(Run(start, steps))
    ensures start.initialized ==> Run(start, steps).initialized
  {
    if steps != [] {
      RunIsSafe(start, steps[..|steps| - 1]);
      var m, step := Run(start, steps[..|steps| - 1]), steps[|steps| - 1];
      if step.thread < |m.threads| {
        ActKeepsSafe(m, step.thread, step.action);
      }
    }
  }

  /** No lost wake-up: whenever the lock is free, a thread still asleep on the condition variable has nothing to
      wake for: the tracker is uninitialized and not Closed. This includes the updates that notify nobody
      because the status did not change. While the lock is taken, the only exception is that its holder is a
      setter that has yet to notify. */
  lemma NoLostWakeUps(start: Monitor, steps: seq<Step>, i: nat)
    requires Begins(start) && i < |start.threads|
    ensures var m := Run(start, steps);
            m.threads[i] == Asleep ==> !ShouldWake(m) || (!LockIsFree(m) && SomeoneWillNotify(m))
  {
    RunIsSafe(start, steps);
    var m := Run(start, steps);
    assert ThreadSafe(m, m.threads[i]);
  }

  /** A wait returns true only if data has arrived, and returns false only by timeout or upon seeing Closed. */
  lemma WaitAnswersRight(start: Monitor, steps: seq<Step>, i: nat)
    requires Begins(start) && i < |start.threads|
    ensures var m := Run(start, steps);
            m.threads[i].Returned? ==>
              if m.threads[i].result then m.initialized else m.threads[i].sawClosed || m.threads[i].timedOut
  {
    RunIsSafe(start, steps);
    assert ThreadSafe(Run(start, steps), Run(start, steps).threads[i]);
  }

  // ---------------------------------------------------------------------------------------------------
  // What an update and a wait do

  /** The thread holds the lock and is about to let it go, or the status has been swapped and it is to notify. */
  function Swapped(m: Monitor, i: nat, target: SyncStatus): Monitor
    requires i < |m.threads|
  {
    At(Monitor(target, m.initialized || target == Ready, m.threads), i,
       if m.status != target || target == Ready then MustNotify else Unlocking)
  }

  /** An update whose thread gets the lock stores the status and initializes exactly for Ready. */
  lemma UpdateMeaning(m: Monitor, i: nat, target: SyncStatus)
    requires i < |m.threads| && m.threads[i] == Idle && LockIsFree(m)
    ensures Act(m, i, CallSet(target)) == Some(At(m, i, WantsToSet(target)))
    ensures Act(At(m, i, WantsToSet(target)), i, Acquire) == Some(At(m, i, Setting(target)))
    ensures var stored := m.(initialized := m.initialized || target == Ready);
            && Act(At(m, i, Setting(target)), i, StoreInitialized) == Some(At(stored, i, Swapping(target)))
            && Act(At(stored, i, Swapping(target)), i, SwapStatus) == Some(Swapped(m, i, target))
  {
    assert m.threads[i := WantsToSet(target)][i := Setting(target)] == m.threads[i := Setting(target)];
    assert m.threads[i := Setting(target)][i := Swapping(target)] == m.threads[i := Swapping(target)];
    assert m.threads[i := Swapping(target)][i := MustNotify] == m.threads[i := MustNotify];
    assert m.threads[i := Swapping(target)][i := Unlocking] == m.threads[i := Unlocking];
  }

  /** Then it wakes every sleeper if the status changed or is Ready, and leaves the lock free: all together what
      `StatusTracker.Set` does in one step. */
  lemma NotificationMeaning(m: Monitor, i: nat, target: SyncStatus)
    requires i < |m.threads| && m.threads[i] == Idle
    ensures var swapped, after := Swapped(m, i, target), Monitor(target, m.initialized || target == Ready, m.threads);
            if m.status != target || target == Ready
            then && Act(swapped, i, NotifyAll) == Some(At(after.(threads := WakeAll(m.threads)), i, Unlocking))
                 && Act(At(after.(threads := WakeAll(m.threads)), i, Unlocking), i, Release)
                    == Some(after.(threads := WakeAll(m.threads)))
            else Act(swapped, i, Release) == Some(after)
  {
    if m.status != target || target == Ready {
      assert WakeAll(m.threads[i := MustNotify])[i := Unlocking] == WakeAll(m.threads)[i := Unlocking];
      assert WakeAll(m.threads)[i := Unlocking][i := Idle] == WakeAll(m.threads);
    } else {
      assert m.threads[i := Unlocking][i := Idle] == m.threads;
    }
  }

  /** A wait on an initialized tracker returns true at once; one that finds the tracker closed and uninitialized, with
      the lock free, returns false without sleeping; and otherwise it goes to sleep, until woken or out of time. */
  lemma WaitMeaning(m: Monitor, i: nat)
    requires i < |m.threads| && m.threads[i] == Idle && LockIsFree(m)
    ensures Act(m, i, CallWait) == Some(At(m, i, if m.initialized then Returned(true, false, false) else WantsLock))
    ensures !m.initialized ==>
              var waiting := At(m, i, WantsLock);
              && Act(waiting, i, Acquire) == Some(At(m, i, Checking))
              && Act(At(m, i, Checking), i, ReadInitialized) == Some(At(m, i, SawUninitialized))
              && Act(At(m, i, SawUninitialized), i, ReadStatus)
                 == Some(At(m, i, if m.status == Closed then Leaving(true) else SawOpen))
              && (m.status == Closed ==>
                  Act(At(m, i, Leaving(true)), i, Return) == Some(At(m, i, Returned(false, true, false))))
              && (m.status != Closed ==> Act(At(m, i, SawOpen), i, Sleep) == Some(At(m, i, Asleep)))
  {
    forall t, t' ensures At(At(m, i, t), i, t') == At(m, i, t') {
      assert m.threads[i := t][i := t'] == m.threads[i := t'];
    }
  }
}
