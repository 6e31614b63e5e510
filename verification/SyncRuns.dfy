/** Properties of every run of the synchronizer, whatever the environment does. */
module SyncRuns {
  import opened Wrappers
  import opened Model
  import opened Store
  import opened Status
  import opened Backoff
  import opened Protocol
  import StoreRuns

  // ---------------------------------------------------------------------------------------------------
  // What a history says

  /** A full sync is owed from a reported conflict until a full message has been applied. */
  ghost predicate Owed(history: seq<Observed>) {
    history != [] &&
    var last, before := history[|history| - 1], history[..|history| - 1];
    match last
    case Applied(_, Full, _) => false
    case Applied(_, Conflict, _) => true
    case _ => Owed(before)
  }

  /** Every data-sync request, in every connection, asks for everything exactly while a full sync is owed,
      and otherwise for what is newer than the store. */
  ghost predicate RequestsFollowTheDebt(history: seq<Observed>) {
    forall i :: 0 <= i < |history| && history[i].Requested? ==> IsDue(history[..i], history[i])
  }

  ghost predicate IsDue(before: seq<Observed>, requested: Observed)
    requires requested.Requested?
  {
    requested.timestamp == if Owed(before) then 0 else NonNegative(requested.version)
  }

  function NonNegative(version: int): int { if version < 0 then 0 else version }

  /** No handled message leaves the client Ready while a full sync is owed. */
  ghost predicate NeverReadyInDebt(history: seq<Observed>) {
    forall i :: 0 <= i < |history| && history[i].Applied? && Owed(history[..i + 1]) ==> history[i].status != Ready
  }

  /** A conflict that opens a debt is answered at once with a request, which asks for everything. */
  ghost predicate ConflictsAreAsked(history: seq<Observed>) {
    forall i :: 0 <= i < |history| && IsConflict(history[i]) && !Owed(history[..i]) ==>
        i + 1 < |history| && history[i + 1].Requested?
  }

  ghost predicate EndsUnasked(history: seq<Observed>) {
    history != [] && IsConflict(history[|history| - 1]) && !Owed(history[..|history| - 1])
  }

  predicate IsConflict(observed: Observed) { observed.Applied? && observed.result == Conflict }

  ghost predicate SawGoodData(history: seq<Observed>) {
    exists i :: 0 <= i < |history| && IsGoodData(history[i])
  }

  ghost predicate SawData(history: seq<Observed>) {
    exists i :: 0 <= i < |history| && IsData(history[i])
  }

  predicate IsGoodData(observed: Observed) {
    observed.Applied? && (observed.result == Full || observed.result == Patch)
  }

  predicate IsData(observed: Observed) { observed.Applied? && observed.result != Ignored }

  // ---------------------------------------------------------------------------------------------------
  // The invariant

  ghost predicate Sound(text: Library, w: World, populatedBefore: bool) {
    Unsettled(text, w, populatedBefore) && !EndsUnasked(w.history)
  }

  ghost predicate Unsettled(text: Library, w: World, populatedBefore: bool) {
    && StoreInvariant(text, w.snapshot)
    && Clean(w.history)
    && (Owed(w.history) ==> w.status != Ready)
    && (w.status == Ready ==> w.initialized)
    && (w.initialized <==> Tally(w.history).good)
    && (w.snapshot.populated <==> populatedBefore || Tally(w.history).any)
  }

  /** The history predicates, event by event. */
  ghost predicate Clean(history: seq<Observed>) {
    history != [] ==>
      var last, before := history[|history| - 1], history[..|history| - 1];
      && Clean(before)
      && (EndsUnasked(before) ==> last.Requested?)
      && (last.Requested? ==> IsDue(before, last))
      && (last.Applied? && Owed(history) ==> last.status != Ready)
  }

  datatype Tallied = Tallied(good: bool, any: bool)

  ghost function Tally(history: seq<Observed>): Tallied {
    if history == [] then Tallied(false, false)
    else
      var last, before := history[|history| - 1], Tally(history[..|history| - 1]);
      Tallied(before.good || IsGoodData(last), before.any || IsData(last))
  }

  lemma {:induction false} CleanMeans(history: seq<Observed>)
    requires Clean(history)
    ensures RequestsFollowTheDebt(history) && NeverReadyInDebt(history)
    ensures !EndsUnasked(history) ==> ConflictsAreAsked(history)
  {
    forall i | 0 <= i < |history| && IsConflict(history[i]) && !Owed(history[..i]) && !EndsUnasked(history)
      ensures i + 1 < |history| && history[i + 1].Requested?
    {
      if i + 1 < |history| {
        CleanPrefix(history, i + 2);
        assert history[..i + 2][..i + 1] == history[..i + 1];
        assert history[..i + 1][..i] == history[..i];
      }
    }
    forall i | 0 <= i < |history|
      ensures history[i].Requested? ==> IsDue(history[..i], history[i])
      ensures history[i].Applied? && Owed(history[..i + 1]) ==> history[i].status != Ready
    {
      CleanPrefix(history, i + 1);
      assert history[..i + 1][..i] == history[..i];
    }
  }

  lemma {:induction false} CleanPrefix(history: seq<Observed>, n: nat)
    requires Clean(history) && n <= |history|
    ensures Clean(history[..n])
  {
    if n == |history| {
      assert history[..n] == history;
    } else {
      CleanPrefix(history[..|history| - 1], n);
      assert history[..|history| - 1][..n] == history[..n];
    }
  }

  lemma {:induction false} TallyMeans(history: seq<Observed>)
    ensures Tally(history) == Tallied(SawGoodData(history), SawData(history))
  {
    if history != [] {
      var n := |history| - 1;
      TallyMeans(history[..n]);
      assert forall i :: 0 <= i < n ==> history[..n][i] == history[i];
    }
  }

  /** Inside a connection the flag `awaiting` carries the debt; an end passes it on. */
  ghost predicate CarriesDebt(step: Step) {
    match step.end
    case None => step.awaiting == Owed(step.world.history)
    case Some(Reconnect) => !Owed(step.world.history)
    case Some(Resync) => Owed(step.world.history)
    case _ => true
  }

  lemma SawOne(history: seq<Observed>, observed: Observed)
    ensures var h := history + [observed]; h[..|h| - 1] == history && h[|h| - 1] == observed && h != []
  {
  }

  /** What applying a message does before its result is handled. */
  ghost predicate Follows(text: Library, w: World, applied: World, result: ApplyResult) {
    && StoreInvariant(text, applied.snapshot)
    && applied.history == w.history
    && (result == Ignored ==> applied == w)
    && (result != Ignored ==>
        applied.snapshot.populated && applied.status == if result == Conflict then Stale else Ready)
    && applied.initialized == (w.initialized || result == Full || result == Patch)
  }

  lemma ApplyFollows(text: Library, w: World, envelope: Option<DataSyncEnvelope>)
    requires StoreInvariant(text, w.snapshot)
    ensures var (applied, result) := ApplyMessage(text, w, envelope); Follows(text, w, applied, result)
  {
    if envelope.Some? && envelope.value.messageType == "data-sync" {
      FullFollows(text, w, envelope.value.data);
      PatchFollows(text, w, envelope.value.data);
    }
  }

  lemma FullFollows(text: Library, w: World, data: DataSet)
    ensures Follows(text, w, w.(snapshot := Populated(text, data)).Set(Ready), Full)
  {
    PopulatedIsValid(text, data);
  }

  lemma PatchFollows(text: Library, w: World, data: DataSet)
    requires StoreInvariant(text, w.snapshot)
    ensures var patched := w.(snapshot := Patched(text, w.snapshot, data));
            if PatchVerdict(w.snapshot, data) == VersionConflict then Follows(text, w, patched.Set(Stale), Conflict)
            else Follows(text, w, patched.Set(Ready), Patch)
  {
    PatchedIsValid(text, w.snapshot, data);
    PatchPopulates(text, w.snapshot, data);
  }

  lemma PatchPopulates(text: Library, s: DataSnapshot, data: DataSet)
    ensures Patched(text, s, data).populated
  {
  }

  lemma AppliedKeepsSound(text: Library, w: World, settled: World, message: Option<DataSyncEnvelope>,
                          result: ApplyResult, populatedBefore: bool)
    requires Sound(text, w, populatedBefore)
    requires settled.history == w.history && StoreInvariant(text, settled.snapshot)
    requires result == Conflict || (Owed(w.history) && result != Full) ==> settled.status != Ready
    requires settled.status == Ready ==> settled.initialized
    requires settled.initialized == (w.initialized || result == Full || result == Patch)
    requires settled.snapshot.populated == (w.snapshot.populated || result != Ignored)
    ensures var seen := settled.Saw(Applied(message, result, settled.status));
            && Unsettled(text, seen, populatedBefore)
            && (EndsUnasked(seen.history) <==> result == Conflict && !Owed(w.history))
            && Owed(seen.history) == (result == Conflict || (Owed(w.history) && result != Full))
  {
    SawOne(w.history, Applied(message, result, settled.status));
  }

  lemma HandlingKeepsSound(text: Library, w: World, applied: World, message: Option<DataSyncEnvelope>,
                           result: ApplyResult, awaiting: bool, send: SocketSend, populatedBefore: bool)
    requires Sound(text, w, populatedBefore) && awaiting == Owed(w.history)
    requires Follows(text, w, applied, result)
    ensures var step := HandleApplyResult(applied, message, result, awaiting, send);
            Sound(text, step.world, populatedBefore) && CarriesDebt(step)
  {
    var settled := if awaiting && result != Full then applied.Set(Stale) else applied;
    AppliedKeepsSound(text, w, settled, message, result, populatedBefore);
    if result == Conflict && !awaiting {
      var seen := settled.Saw(Applied(message, result, settled.status));
      RequestKeepsSound(text, seen, Requested(0, settled.snapshot.version, send), populatedBefore);
    }
  }

  lemma MessageKeepsSound(text: Library, w: World, awaiting: bool, envelope: Option<DataSyncEnvelope>,
                          send: SocketSend, populatedBefore: bool)
    requires Sound(text, w, populatedBefore) && awaiting == Owed(w.history)
    ensures var (applied, result) := ApplyMessage(text, w, envelope);
            var step := HandleApplyResult(applied, envelope, result, awaiting, send);
            Sound(text, step.world, populatedBefore) && CarriesDebt(step)
  {
    ApplyFollows(text, w, envelope);
    var (applied, result) := ApplyMessage(text, w, envelope);
    HandlingKeepsSound(text, w, applied, envelope, result, awaiting, send, populatedBefore);
  }

  lemma RequestKeepsSound(text: Library, w: World, requested: Observed, populatedBefore: bool)
    requires Unsettled(text, w, populatedBefore)
    requires requested.Requested? && IsDue(w.history, requested)
    ensures Sound(text, w.Saw(requested), populatedBefore) && Owed(w.Saw(requested).history) == Owed(w.history)
  {
    SawOne(w.history, requested);
  }

  lemma ReactKeepsSound(text: Library, options: SyncOptions, w: World, awaiting: bool, h: Happening,
                        populatedBefore: bool)
    requires Sound(text, w, populatedBefore) && awaiting == Owed(w.history)
    ensures var step := React(text, options, w, awaiting, h);
            Sound(text, step.world, populatedBefore) && CarriesDebt(step)
  {
    match h.cause {
      case Incoming(Text(_, envelope)) => MessageKeepsSound(text, w, awaiting, envelope, h.send, populatedBefore);
      case Incoming(Binary(_, envelope)) => MessageKeepsSound(text, w, awaiting, envelope, h.send, populatedBefore);
      case _ =>
    }
  }

  lemma {:induction false} ConverseKeepsSound(text: Library, options: SyncOptions, w: World, awaiting: bool,
                                              happenings: seq<Happening>, populatedBefore: bool)
    requires Sound(text, w, populatedBefore) && awaiting == Owed(w.history)
    ensures var step := Converse(text, options, w, awaiting, happenings);
            Sound(text, step.world, populatedBefore) && CarriesDebt(step)
    decreases |happenings|
  {
    if happenings != [] {
      ReactKeepsSound(text, options, w, awaiting, happenings[0], populatedBefore);
      var step := React(text, options, w, awaiting, happenings[0]);
      if step.end.None? {
        ConverseKeepsSound(text, options, step.world, step.awaiting, happenings[1..], populatedBefore);
      }
    }
  }

  // ---------------------------------------------------------------------------------------------------
  // The outer loop

  ghost predicate LoopSound(text: Library, l: Loop, progress: Progress, populatedBefore: bool) {
    && Sound(text, l.world, populatedBefore)
    && (progress == Looping ==> l.forceFullSync == Owed(l.world.history))
    && (progress == Finished ==> l.world.status == Closed)
  }

  lemma RoundKeepsSound(text: Library, options: SyncOptions, l: Loop, a: Attempt, populatedBefore: bool)
    requires LoopSound(text, l, Looping, populatedBefore)
    ensures var (next, progress) := Round(text, options, l, a); LoopSound(text, next, progress, populatedBefore)
  {
    if a.stopAtHead {
      FinishKeepsSound(text, l, l.world, populatedBefore);
    } else {
      var head := l.(world := MarkStale(l.world));
      match a.connect {
        case ConnectStopped => FinishKeepsSound(text, head, head.world, populatedBefore);
        case ConnectFailed => PauseKeepsSound(text, options, head, a, false, None, populatedBefore);
        case Connected => SessionKeepsSound(text, options, head, a, populatedBefore);
      }
    }
  }

  lemma SessionKeepsSound(text: Library, options: SyncOptions, l: Loop, a: Attempt, populatedBefore: bool)
    requires LoopSound(text, l, Looping, populatedBefore)
    ensures var (next, progress) := Session(text, options, l, a); LoopSound(text, next, progress, populatedBefore)
  {
    var requested := Requested(RequestedVersion(l, l.world), l.world.snapshot.version, a.firstSend);
    RequestKeepsSound(text, l.world, requested, populatedBefore);
    var asked := l.world.Saw(requested);
    match a.firstSend {
      case Interrupted => FinishKeepsSound(text, l, asked, populatedBefore);
      case Failed => PauseKeepsSound(text, options, l.(world := asked), a, false, None, populatedBefore);
      case Sent =>
        ConverseKeepsSound(text, options, asked, l.forceFullSync, a.happenings, populatedBefore);
        LeavingKeepsSound(text, options, l, a, Converse(text, options, asked, l.forceFullSync, a.happenings),
                          populatedBefore);
    }
  }

  lemma FinishKeepsSound(text: Library, l: Loop, w: World, populatedBefore: bool)
    requires Sound(text, w, populatedBefore)
    ensures var (next, progress) := Finish(l, w); LoopSound(text, next, progress, populatedBefore)
  {
  }

  lemma PauseKeepsSound(text: Library, options: SyncOptions, l: Loop, a: Attempt, reset: bool,
                        session: Option<(SyncStatus, nat)>, populatedBefore: bool)
    requires Sound(text, l.world, populatedBefore) && l.forceFullSync == Owed(l.world.history)
    ensures var (next, progress) := Pause(options, l, a, reset, session);
            LoopSound(text, next, progress, populatedBefore)
  {
  }

  lemma LeavingKeepsSound(text: Library, options: SyncOptions, l: Loop, a: Attempt, step: Step, populatedBefore: bool)
    requires Sound(text, step.world, populatedBefore) && CarriesDebt(step)
    ensures var (next, progress) := AfterConnection(options, l, a, step);
            LoopSound(text, next, progress, populatedBefore)
  {
  }

  lemma {:induction false} RunKeepsSound(text: Library, options: SyncOptions, l: Loop, attempts: seq<Attempt>,
                                         populatedBefore: bool)
    requires LoopSound(text, l, Looping, populatedBefore)
    ensures var (end, progress) := RunLoop(text, options, l, attempts); LoopSound(text, end, progress, populatedBefore)
    decreases |attempts|
  {
    if attempts != [] {
      RoundKeepsSound(text, options, l, attempts[0], populatedBefore);
      var (next, progress) := Round(text, options, l, attempts[0]);
      if progress == Looping {
        RunKeepsSound(text, options, next, attempts[1..], populatedBefore);
      }
    }
  }

  function Beginning(snapshot: DataSnapshot): Loop { Loop(World(snapshot, Starting, false, []), 0, false, []) }

  /** For every run, and every point of it (a run is cut off by ending its input): requests follow the debt
      across reconnects and failed sends; no handled message leaves the client Ready in debt; it is
      initialized exactly when a full or unconflicted patch was applied, and then the store is populated. */
  lemma EveryRunIsSound(text: Library, options: SyncOptions, snapshot: DataSnapshot, attempts: seq<Attempt>)
    requires StoreInvariant(text, snapshot)
    ensures var (end, progress) := RunLoop(text, options, Beginning(snapshot), attempts);
            && RequestsFollowTheDebt(end.world.history)
            && ConflictsAreAsked(end.world.history)
            && NeverReadyInDebt(end.world.history)
            && (end.world.status == Ready ==> end.world.initialized && !Owed(end.world.history))
            && (end.world.initialized <==> SawGoodData(end.world.history))
            && (end.world.initialized ==> end.world.snapshot.populated)
            && (end.world.snapshot.populated <==> snapshot.populated || SawData(end.world.history))
            && (progress == Finished ==> end.world.status == Closed)
  {
    RunKeepsSound(text, options, Beginning(snapshot), attempts, snapshot.populated);
    var history := RunLoop(text, options, Beginning(snapshot), attempts).0.world.history;
    CleanMeans(history);
    TallyMeans(history);
  }

  /** A populated store need not count as initialized: a first patch that conflicts with itself publishes data,
      yet the client stays uninitialized until a full or unconflicted message comes. */
  lemma PublishedButNotInitialized(text: Library, options: SyncOptions, flag: FeatureFlag, other: FeatureFlag,
                                   a: Attempt)
    requires flag.key == other.key != "" && flag.updatedAt == other.updatedAt && flag != other
    requires !a.stopAtHead && a.connect == Connected && a.firstSend == Sent && options.maxMessageSize >= 1
    requires var patch := DataSyncEnvelope("data-sync", DataSet("patch", [flag, other], []));
             a.happenings == [Happening(Incoming(Text(1, Some(patch))), Sent)]
    ensures var (end, _) := RunLoop(text, options, Beginning(EMPTY_SNAPSHOT), [a]);
            end.world.snapshot.populated && end.world.snapshot.flags == map[flag.key := flag] && !end.world.initialized
  {
    StoreRuns.ConflictMayPublish(text, flag, other, DataSet("patch", [flag, other], []));
    var asked := Beginning(EMPTY_SNAPSHOT).world.Saw(Requested(0, 0, Sent));
    var step := React(text, options, asked, false, a.happenings[0]);
    assert Converse(text, options, asked, false, a.happenings) == step;
  }

  // ---------------------------------------------------------------------------------------------------
  // Histories only grow, so that nothing seen, and no initialization, is undone

  lemma {:induction false} ConverseExtends(text: Library, options: SyncOptions, w: World, awaiting: bool,
                                           happenings: seq<Happening>)
    ensures var step := Converse(text, options, w, awaiting, happenings);
            w.history <= step.world.history && (w.initialized ==> step.world.initialized)
    decreases |happenings|
  {
    if happenings != [] {
      var step := React(text, options, w, awaiting, happenings[0]);
      ReactExtends(text, options, w, awaiting, happenings[0]);
      if step.end.None? {
        ConverseExtends(text, options, step.world, step.awaiting, happenings[1..]);
      }
    }
  }

  lemma ReactExtends(text: Library, options: SyncOptions, w: World, awaiting: bool, h: Happening)
    ensures var step := React(text, options, w, awaiting, h);
            w.history <= step.world.history && (w.initialized ==> step.world.initialized)
  {
  }

  lemma RoundExtends(text: Library, options: SyncOptions, l: Loop, a: Attempt)
    ensures var (next, _) := Round(text, options, l, a);
            l.world.history <= next.world.history && (l.world.initialized ==> next.world.initialized)
  {
    if !a.stopAtHead && a.connect == Connected {
      SessionExtends(text, options, l.(world := MarkStale(l.world)), a);
    }
  }

  lemma SessionExtends(text: Library, options: SyncOptions, l: Loop, a: Attempt)
    ensures var (next, _) := Session(text, options, l, a);
            l.world.history <= next.world.history && (l.world.initialized ==> next.world.initialized)
  {
    if a.firstSend == Sent {
      var asked := l.world.Saw(Requested(RequestedVersion(l, l.world), l.world.snapshot.version, a.firstSend));
      var step := Converse(text, options, asked, l.forceFullSync, a.happenings);
      ConverseExtends(text, options, asked, l.forceFullSync, a.happenings);
      LeavingExtends(options, l, a, step);
      assert l.world.history <= asked.history <= step.world.history;
    }
  }

  lemma LeavingExtends(options: SyncOptions, l: Loop, a: Attempt, step: Step)
    ensures var (next, _) := AfterConnection(options, l, a, step);
            step.world.history == next.world.history && (step.world.initialized ==> next.world.initialized)
  {
  }

  lemma {:induction false} InitializationIsNeverUndone(text: Library, options: SyncOptions, l: Loop,
                                                       attempts: seq<Attempt>)
    ensures var (end, _) := RunLoop(text, options, l, attempts);
            l.world.history <= end.world.history && (l.world.initialized ==> end.world.initialized)
    decreases |attempts|
  {
    if attempts != [] {
      var (next, progress) := Round(text, options, l, attempts[0]);
      RoundExtends(text, options, l, attempts[0]);
      if progress == Looping {
        InitializationIsNeverUndone(text, options, next, attempts[1..]);
      }
    }
  }

  // ---------------------------------------------------------------------------------------------------
  // What ends a run

  /** No stop signal, and no close with the one code that is final. */
  predicate IsUnstopped(h: Happening) {
    h.send != Interrupted && h.cause != StopSeen && h.cause != Incoming(Close(Some(4003)))
  }

  ghost predicate NeverStopped(a: Attempt) {
    && !a.stopAtHead && a.connect != ConnectStopped && a.firstSend != Interrupted && !a.stopInSleep
    && forall i :: 0 <= i < |a.happenings| ==> IsUnstopped(a.happenings[i])
  }

  lemma {:induction false} ConversationGoesOn(text: Library, options: SyncOptions, w: World, awaiting: bool,
                                              happenings: seq<Happening>)
    requires forall i :: 0 <= i < |happenings| ==> IsUnstopped(happenings[i])
    requires w.status != Closed
    ensures var step := Converse(text, options, w, awaiting, happenings);
            step.end in {None, Some(Reconnect), Some(Resync)} && step.world.status != Closed
    decreases |happenings|
  {
    if happenings != [] {
      var step := React(text, options, w, awaiting, happenings[0]);
      ReactionGoesOn(text, options, w, awaiting, happenings[0]);
      if step.end.None? {
        ConversationGoesOn(text, options, step.world, step.awaiting, happenings[1..]);
      }
    }
  }

  lemma ReactionGoesOn(text: Library, options: SyncOptions, w: World, awaiting: bool, h: Happening)
    requires IsUnstopped(h) && w.status != Closed
    ensures var step := React(text, options, w, awaiting, h);
            step.end in {None, Some(Reconnect), Some(Resync)} && step.world.status != Closed
  {
  }

  /** Nothing but a stop signal or a close with code 4003 ends the loop: no failure to connect, send or receive,
      no oversized or malformed message, no other close code. */
  lemma {:induction false} FailuresNeverEndARun(text: Library, options: SyncOptions, l: Loop, attempts: seq<Attempt>)
    requires l.world.status != Closed
    requires forall i :: 0 <= i < |attempts| ==> NeverStopped(attempts[i])
    ensures var (end, progress) := RunLoop(text, options, l, attempts);
            progress != Finished && end.world.status != Closed
    decreases |attempts|
  {
    if attempts != [] {
      RoundGoesOn(text, options, l, attempts[0]);
      var (next, progress) := Round(text, options, l, attempts[0]);
      if progress == Looping {
        FailuresNeverEndARun(text, options, next, attempts[1..]);
      }
    }
  }

  lemma RoundGoesOn(text: Library, options: SyncOptions, l: Loop, a: Attempt)
    requires l.world.status != Closed && NeverStopped(a)
    ensures var (next, progress) := Round(text, options, l, a); progress != Finished && next.world.status != Closed
  {
    if a.connect == Connected && a.firstSend == Sent {
      var head := l.(world := MarkStale(l.world));
      var asked := head.world.Saw(Requested(RequestedVersion(head, head.world), head.world.snapshot.version,
                                            a.firstSend));
      ConversationGoesOn(text, options, asked, l.forceFullSync, a.happenings);
    }
  }

  // ---------------------------------------------------------------------------------------------------
  // Backoff

  /** How the waits of a run follow one another: each is jittered, and is numbered one more than the last, or
      zero exactly if a Ready session that outlived the keep-alive interval has just reset the counter. */
  ghost predicate WaitsFollow(options: SyncOptions, waits: seq<Wait>) {
    waits != [] ==>
      var last, before := waits[|waits| - 1], waits[..|waits| - 1];
      WaitsFollow(options, before) && IsJittered(options, last) && IsNumbered(options, last, NextAttempt(before))
  }

  lemma {:induction false} WaitsFollowAt(options: SyncOptions, waits: seq<Wait>, i: nat)
    requires WaitsFollow(options, waits) && i < |waits|
    ensures IsJittered(options, waits[i]) && IsNumbered(options, waits[i], NextAttempt(waits[..i]))
  {
    if i < |waits| - 1 {
      WaitsFollowAt(options, waits[..|waits| - 1], i);
      assert waits[..|waits| - 1][..i] == waits[..i];
    }
  }

  ghost predicate IsNumbered(options: SyncOptions, wait: Wait, next: nat) {
    wait.reset == WasHealthy(options, wait) && wait.attempt == if wait.reset then 0 else next
  }

  predicate WasHealthy(options: SyncOptions, wait: Wait) {
    wait.session.Some? && wait.session.value.0 == Ready && wait.session.value.1 >= options.keepAliveInterval
  }

  function NextAttempt(waits: seq<Wait>): nat {
    if waits == [] then 0 else Saturating(waits[|waits| - 1].attempt)
  }

  ghost predicate Paced(options: SyncOptions, l: Loop, progress: Progress) {
    WaitsFollow(options, l.waits) && (progress == Looping ==> l.retryAttempt == NextAttempt(l.waits))
  }

  function Saturating(attempt: nat): nat { if attempt < USIZE_MAX then attempt + 1 else USIZE_MAX }

  ghost predicate IsJittered(options: SyncOptions, wait: Wait) {
    options.reconnectDelays != [] ==>
      var base := options.reconnectDelays[wait.attempt % |options.reconnectDelays|];
      Floor(base) <= wait.delay && 100 * wait.delay <= 120 * base
  }

  lemma PauseIsPaced(options: SyncOptions, l: Loop, a: Attempt, reset: bool, session: Option<(SyncStatus, nat)>)
    requires WaitsFollow(options, l.waits)
    requires l.retryAttempt == if reset then 0 else NextAttempt(l.waits)
    requires reset == (session.Some? && session.value.0 == Ready && session.value.1 >= options.keepAliveInterval)
    ensures var (after, progress) := Pause(options, l, a, reset, session); Paced(options, after, progress)
  {
    var delay := ReconnectDelay(options.reconnectDelays, l.retryAttempt, a.jitter);
    var wait := Wait(l.retryAttempt, delay, reset, session);
    DelayIsInBounds(options, wait, a.jitter);
    WaitIsPaced(options, l.waits, wait);
  }

  lemma WaitIsPaced(options: SyncOptions, waits: seq<Wait>, wait: Wait)
    requires WaitsFollow(options, waits) && IsJittered(options, wait) && IsNumbered(options, wait, NextAttempt(waits))
    ensures WaitsFollow(options, waits + [wait]) && NextAttempt(waits + [wait]) == Saturating(wait.attempt)
  {
    assert (waits + [wait])[..|waits|] == waits;
  }

  lemma DelayIsInBounds(options: SyncOptions, wait: Wait, jitter: Jitter)
    requires wait.delay == ReconnectDelay(options.reconnectDelays, wait.attempt, jitter)
    ensures IsJittered(options, wait)
  {
    if options.reconnectDelays != [] {
      DelayIsJittered(options.reconnectDelays, wait.attempt, jitter);
    }
  }

  lemma RoundIsPaced(text: Library, options: SyncOptions, l: Loop, a: Attempt)
    requires Paced(options, l, Looping)
    ensures var (next, progress) := Round(text, options, l, a); Paced(options, next, progress)
  {
    var head := l.(world := MarkStale(l.world));
    PauseIsPaced(options, head, a, false, None);
    SessionIsPaced(text, options, head, a);
  }

  lemma SessionIsPaced(text: Library, options: SyncOptions, l: Loop, a: Attempt)
    requires Paced(options, l, Looping)
    ensures var (next, progress) := Session(text, options, l, a); Paced(options, next, progress)
  {
    var asked := l.world.Saw(Requested(RequestedVersion(l, l.world), l.world.snapshot.version, a.firstSend));
    PauseIsPaced(options, l.(world := asked), a, false, None);
    AfterConnectionIsPaced(options, l, a, Converse(text, options, asked, l.forceFullSync, a.happenings));
  }

  lemma AfterConnectionIsPaced(options: SyncOptions, l: Loop, a: Attempt, step: Step)
    requires Paced(options, l, Looping)
    ensures var (next, progress) := AfterConnection(options, l, a, step); Paced(options, next, progress)
  {
    var reset := step.world.status == Ready && a.lasted >= options.keepAliveInterval;
    var l' := l.(world := step.world, retryAttempt := if reset then 0 else l.retryAttempt);
    var session := Some((step.world.status, a.lasted));
    if step.end.Some? {
      PauseIsPaced(options, l'.(forceFullSync := step.end.value == Resync), a, reset, session);
    }
  }

  lemma {:induction false} EveryRunIsPaced(text: Library, options: SyncOptions, l: Loop, attempts: seq<Attempt>)
    requires Paced(options, l, Looping)
    ensures var (end, progress) := RunLoop(text, options, l, attempts); Paced(options, end, progress)
    decreases |attempts|
  {
    if attempts != [] {
      var (next, progress) := Round(text, options, l, attempts[0]);
      RoundIsPaced(text, options, l, attempts[0]);
      if progress == Looping {
        EveryRunIsPaced(text, options, next, attempts[1..]);
      }
    }
  }

  /** A cycle: as many consecutive waits as there are configured delays, with no reset among them and below the
      counter's saturation. */
  ghost predicate IsCycle(options: SyncOptions, waits: seq<Wait>, from: nat) {
    && from + |options.reconnectDelays| <= |waits|
    && (forall i :: from < i < from + |options.reconnectDelays| ==> !waits[i].reset)
    && (forall i :: from <= i < from + |options.reconnectDelays| ==> waits[i].attempt < USIZE_MAX)
  }

  /** The waits are numbered from zero, one by one, and start over exactly after a Ready session that outlived the
      keep-alive interval; each is within 20% of the configured delay of its number; every full cycle waits at
      least 80% of all configured delays together. */
  lemma BackoffMakesProgress(text: Library, options: SyncOptions, snapshot: DataSnapshot, attempts: seq<Attempt>)
    requires options.reconnectDelays != []
    ensures var waits := RunLoop(text, options, Beginning(snapshot), attempts).0.waits;
            && WaitsFollow(options, waits)
            && (forall i :: 0 <= i < |waits| ==>
                  IsJittered(options, waits[i]) && IsNumbered(options, waits[i], NextAttempt(waits[..i])))
            && (forall from: nat :: IsCycle(options, waits, from) ==>
                  Sum(Floors(options.reconnectDelays)) <= Sum(Delays(waits[from..from + |options.reconnectDelays|])))
  {
    EveryRunIsPaced(text, options, Beginning(snapshot), attempts);
    var waits := RunLoop(text, options, Beginning(snapshot), attempts).0.waits;
    forall i | 0 <= i < |waits|
      ensures IsJittered(options, waits[i]) && IsNumbered(options, waits[i], NextAttempt(waits[..i]))
    {
      WaitsFollowAt(options, waits, i);
    }
    forall from: nat | IsCycle(options, waits, from)
      ensures Sum(Floors(options.reconnectDelays)) <= Sum(Delays(waits[from..from + |options.reconnectDelays|]))
    {
      CycleWaits(options, waits, from);
    }
  }

  ghost function Delays(waits: seq<Wait>): (delays: seq<nat>)
    ensures |delays| == |waits|
  {
    seq(|waits|, i requires 0 <= i < |waits| => waits[i].delay)
  }

  lemma CycleWaits(options: SyncOptions, waits: seq<Wait>, from: nat)
    requires options.reconnectDelays != [] && WaitsFollow(options, waits) && IsCycle(options, waits, from)
    ensures Sum(Floors(options.reconnectDelays)) <= Sum(Delays(waits[from..from + |options.reconnectDelays|]))
  {
    var delays := options.reconnectDelays;
    var cycle := waits[from..from + |delays|];
    forall k | 0 <= k < |delays| ensures Floor(delays[(waits[from].attempt + k) % |delays|]) <= Delays(cycle)[k] {
      WaitInCycle(options, waits, from, k);
    }
    FullCycleWaits(delays, waits[from].attempt, Delays(cycle));
  }

  lemma WaitInCycle(options: SyncOptions, waits: seq<Wait>, from: nat, k: nat)
    requires WaitsFollow(options, waits) && IsCycle(options, waits, from) && k < |options.reconnectDelays|
    ensures var delays := options.reconnectDelays;
            Floor(delays[(waits[from].attempt + k) % |delays|]) <= waits[from + k].delay
  {
    Consecutive(options, waits, from, k);
    WaitsFollowAt(options, waits, from + k);
    assert IsJittered(options, waits[from + k]);
  }

  lemma {:induction false} Consecutive(options: SyncOptions, waits: seq<Wait>, from: nat, k: nat)
    requires WaitsFollow(options, waits) && IsCycle(options, waits, from) && k < |options.reconnectDelays|
    ensures waits[from + k].attempt == waits[from].attempt + k
  {
    if k > 0 {
      Consecutive(options, waits, from, k - 1);
      WaitsFollowAt(options, waits, from + k);
    }
  }
}
