/** What the synchronizer does with the messages it receives, and what ends its connections and its runs. */
module SyncData {
  import opened Model
  import opened Protocol
  import opened Status
  import opened Store
  import opened StoreRuns
  import opened SyncRuns
  import opened Wrappers

  // ---------------------------------------------------------------------------------------------------
  // The messages of a history

  /** What a message tells the store; anything but a full or a patch data-sync message tells it nothing. */
  ghost function WriteOf(message: Option<DataSyncEnvelope>): Option<Write> {
    if message.None? || message.value.messageType != "data-sync" then None
    else if message.value.data.eventType == "full" then Some(Write.Full(message.value.data))
    else if message.value.data.eventType == "patch" then Some(Write.Patch(message.value.data))
    else None
  }

  /** The result that is right for a message, given what the store held before it. */
  ghost predicate IsRight(before: DataSnapshot, message: Option<DataSyncEnvelope>, result: ApplyResult) {
    match WriteOf(message)
    case Some(Full(_)) => result == ApplyResult.Full
    case Some(Patch(data)) => result == if IsContested(before, data) then Conflict else ApplyResult.Patch
    case None => result == Ignored
  }

  ghost function WritesIn(history: seq<Observed>): seq<Write> {
    if history == [] then []
    else
      var before, last := WritesIn(history[..|history| - 1]), history[|history| - 1];
      if last.Applied? && WriteOf(last.message).Some? then before + [WriteOf(last.message).value] else before
  }

  ghost function MessagesIn(history: seq<Observed>): seq<Option<DataSyncEnvelope>> {
    if history == [] then []
    else
      var before, last := MessagesIn(history[..|history| - 1]), history[|history| - 1];
      if last.Applied? then before + [last.message] else before
  }

  /** A result is right for its message, and a request knows the version of the store. */
  ghost predicate IsRecordedRight(before: DataSnapshot, observed: Observed) {
    match observed
    case Applied(message, result, _) => IsRight(before, message, result)
    case Requested(_, version, _) => version == before.version
  }

  /** Every entry of the history is right, given what the messages before it had left. */
  ghost predicate ResultsAreRight(text: Library, start: DataSnapshot, history: seq<Observed>) {
    history != [] ==>
      var before, last := history[..|history| - 1], history[|history| - 1];
      && ResultsAreRight(text, start, before)
      && IsRecordedRight(Written(text, start, WritesIn(before)), last)
  }

  lemma {:induction false} ResultIsRightAt(text: Library, start: DataSnapshot, history: seq<Observed>, i: nat)
    requires ResultsAreRight(text, start, history) && i < |history|
    ensures IsRecordedRight(Written(text, start, WritesIn(history[..i])), history[i])
  {
    if i < |history| - 1 {
      ResultIsRightAt(text, start, history[..|history| - 1], i);
      assert history[..|history| - 1][..i] == history[..i];
    }
  }

  // ---------------------------------------------------------------------------------------------------
  // The store is what the messages made it

  ghost predicate Tracks(text: Library, start: DataSnapshot, w: World) {
    && StoreInvariant(text, w.snapshot)
    && w.snapshot == Written(text, start, WritesIn(w.history))
    && ResultsAreRight(text, start, w.history)
  }

  lemma SeeingTracks(text: Library, start: DataSnapshot, w: World, requested: Observed)
    requires Tracks(text, start, w) && requested.Requested? && requested.version == w.snapshot.version
    ensures Tracks(text, start, w.Saw(requested))
    ensures MessagesIn(w.Saw(requested).history) == MessagesIn(w.history)
  {
    assert (w.history + [requested])[..|w.history|] == w.history;
  }

  lemma MessageIsWritten(text: Library, w: World, envelope: Option<DataSyncEnvelope>)
    requires StoreInvariant(text, w.snapshot)
    ensures var (applied, result) := ApplyMessage(text, w, envelope);
            && applied.history == w.history
            && IsRight(w.snapshot, envelope, result)
            && applied.snapshot == match WriteOf(envelope)
                                   case Some(Full(data)) => Populated(text, data)
                                   case Some(Patch(data)) => Patched(text, w.snapshot, data)
                                   case None => w.snapshot
  {
    if envelope.Some? {
      VerdictMeaning(text, w.snapshot, envelope.value.data);
    }
  }

  lemma MessageTracks(text: Library, start: DataSnapshot, w: World, awaiting: bool,
                      envelope: Option<DataSyncEnvelope>, send: SocketSend)
    requires Tracks(text, start, w)
    ensures var (applied, result) := ApplyMessage(text, w, envelope);
            var step := HandleApplyResult(applied, envelope, result, awaiting, send);
            && Tracks(text, start, step.world)
            && MessagesIn(step.world.history) == MessagesIn(w.history) + [envelope]
  {
    var (applied, result) := ApplyMessage(text, w, envelope);
    MessageIsWritten(text, w, envelope);
    ApplyFollows(text, w, envelope);
    var settled := if awaiting && result != ApplyResult.Full then applied.Set(Stale) else applied;
    var seen := settled.Saw(Applied(envelope, result, settled.status));
    RecordingTracks(text, start, w, envelope, result, settled);
    if result == Conflict && !awaiting {
      SeeingTracks(text, start, seen, Requested(0, seen.snapshot.version, send));
    }
  }

  lemma RecordingTracks(text: Library, start: DataSnapshot, w: World, message: Option<DataSyncEnvelope>,
                        result: ApplyResult, settled: World)
    requires Tracks(text, start, w) && settled.history == w.history && StoreInvariant(text, settled.snapshot)
    requires IsRight(w.snapshot, message, result)
    requires settled.snapshot == match WriteOf(message)
                                 case Some(Full(data)) => Populated(text, data)
                                 case Some(Patch(data)) => Patched(text, w.snapshot, data)
                                 case None => w.snapshot
    ensures var seen := settled.Saw(Applied(message, result, settled.status));
            Tracks(text, start, seen) && MessagesIn(seen.history) == MessagesIn(w.history) + [message]
  {
    var seen := settled.Saw(Applied(message, result, settled.status));
    assert seen.history[..|seen.history| - 1] == w.history;
    var writes := WritesIn(w.history);
    if WriteOf(message).Some? {
      assert (writes + [WriteOf(message).value])[..|writes|] == writes;
    }
  }

  /** The message of a frame that is handled: text or binary, and not too large. */
  ghost function MessageOf(options: SyncOptions, h: Happening): Option<Option<DataSyncEnvelope>> {
    match h.cause
    case Incoming(Text(size, envelope)) => if size > options.maxMessageSize then None else Some(envelope)
    case Incoming(Binary(size, envelope)) => if size > options.maxMessageSize then None else Some(envelope)
    case _ => None
  }

  ghost function MessagesOf(options: SyncOptions, happenings: seq<Happening>): seq<Option<DataSyncEnvelope>> {
    if happenings == [] then []
    else
      var first := MessageOf(options, happenings[0]);
      (if first.Some? then [first.value] else []) + MessagesOf(options, happenings[1..])
  }

  lemma ReactTracks(text: Library, options: SyncOptions, start: DataSnapshot, w: World, awaiting: bool, h: Happening)
    requires Tracks(text, start, w)
    ensures var step := React(text, options, w, awaiting, h);
            && Tracks(text, start, step.world)
            && MessagesIn(step.world.history)
               == MessagesIn(w.history) + if MessageOf(options, h).Some? then [MessageOf(options, h).value] else []
  {
    assert MessagesIn(w.history) + [] == MessagesIn(w.history);
    match h.cause {
      case Incoming(Text(_, envelope)) => MessageTracks(text, start, w, awaiting, envelope, h.send);
      case Incoming(Binary(_, envelope)) => MessageTracks(text, start, w, awaiting, envelope, h.send);
      case _ =>
    }
  }

  /** How many of the happenings a connection gets to see: all, or all up to the one that ends it. */
  ghost function Reached(text: Library, options: SyncOptions, w: World, awaiting: bool, happenings: seq<Happening>)
  : (n: nat)
    ensures n <= |happenings|
    decreases |happenings|
  {
    if happenings == [] then 0
    else
      var step := React(text, options, w, awaiting, happenings[0]);
      1 + if step.end.Some? then 0 else Reached(text, options, step.world, step.awaiting, happenings[1..])
  }

  lemma {:induction false} ConverseTracks(text: Library, options: SyncOptions, start: DataSnapshot, w: World,
                                          awaiting: bool, happenings: seq<Happening>)
    requires Tracks(text, start, w)
    ensures var step, n := Converse(text, options, w, awaiting, happenings),
                           Reached(text, options, w, awaiting, happenings);
            && Tracks(text, start, step.world)
            && MessagesIn(step.world.history) == MessagesIn(w.history) + MessagesOf(options, happenings[..n])
            && (step.end.None? ==> n == |happenings|)
    decreases |happenings|
  {
    assert MessagesIn(w.history) + [] == MessagesIn(w.history);
    if happenings != [] {
      var step := React(text, options, w, awaiting, happenings[0]);
      var n := Reached(text, options, w, awaiting, happenings);
      ReactTracks(text, options, start, w, awaiting, happenings[0]);
      assert happenings[..n][1..] == happenings[1..][..n - 1];
      if step.end.None? {
        ConverseTracks(text, options, start, step.world, step.awaiting, happenings[1..]);
      }
      var first := MessageOf(options, happenings[0]);
      var head := if first.Some? then [first.value] else [];
      Associate(MessagesIn(w.history), head, MessagesOf(options, happenings[1..][..n - 1]));
    }
  }

  lemma Associate<A>(a: seq<A>, b: seq<A>, c: seq<A>)
    ensures a + b + c == a + (b + c)
  {
  }

  /** What the connections of a run get to see, one after the other. */
  ghost function Seen(text: Library, options: SyncOptions, l: Loop, attempts: seq<Attempt>): seq<Happening>
    decreases |attempts|
  {
    if attempts == [] then []
    else
      var (next, progress) := Round(text, options, l, attempts[0]);
      SeenIn(text, options, l, attempts[0])
      + if progress != Looping then [] else Seen(text, options, next, attempts[1..])
  }

  ghost function SeenIn(text: Library, options: SyncOptions, l: Loop, a: Attempt): seq<Happening> {
    if a.stopAtHead || a.connect != Connected || a.firstSend != Sent then []
    else
      var w := MarkStale(l.world);
      var asked := w.Saw(Requested(RequestedVersion(l, w), w.snapshot.version, a.firstSend));
      a.happenings[..Reached(text, options, asked, l.forceFullSync, a.happenings)]
  }

  ghost predicate SameData(w: World, w': World) { w.snapshot == w'.snapshot && w.history == w'.history }

  lemma SameDataTracks(text: Library, start: DataSnapshot, w: World, w': World)
    requires Tracks(text, start, w) && SameData(w, w')
    ensures Tracks(text, start, w') && MessagesIn(w'.history) == MessagesIn(w.history)
  {
  }

  lemma PauseKeepsData(options: SyncOptions, l: Loop, a: Attempt, reset: bool, session: Option<(SyncStatus, nat)>)
    ensures SameData(l.world, Pause(options, l, a, reset, session).0.world)
  {
  }

  lemma LeavingKeepsData(options: SyncOptions, l: Loop, a: Attempt, step: Step)
    ensures SameData(step.world, AfterConnection(options, l, a, step).0.world)
  {
  }

  lemma RoundTracks(text: Library, options: SyncOptions, start: DataSnapshot, l: Loop, a: Attempt)
    requires Tracks(text, start, l.world)
    ensures var (next, _) := Round(text, options, l, a);
            && Tracks(text, start, next.world)
            && MessagesIn(next.world.history)
               == MessagesIn(l.world.history) + MessagesOf(options, SeenIn(text, options, l, a))
  {
    var head := l.(world := MarkStale(l.world));
    SameDataTracks(text, start, l.world, head.world);
    if !a.stopAtHead && a.connect == Connected {
      SessionTracks(text, options, start, head, a);
    } else {
      PauseKeepsData(options, head, a, false, None);
      var next := Round(text, options, l, a).0;
      SameDataTracks(text, start, l.world, next.world);
      assert MessagesIn(l.world.history) + [] == MessagesIn(l.world.history);
    }
  }

  lemma SessionTracks(text: Library, options: SyncOptions, start: DataSnapshot, l: Loop, a: Attempt)
    requires Tracks(text, start, l.world)
    ensures var (next, _) := Session(text, options, l, a);
            var asked := l.world.Saw(Requested(RequestedVersion(l, l.world), l.world.snapshot.version, a.firstSend));
            var n := Reached(text, options, asked, l.forceFullSync, a.happenings);
            && Tracks(text, start, next.world)
            && MessagesIn(next.world.history)
               == MessagesIn(l.world.history)
                  + MessagesOf(options, if a.firstSend == Sent then a.happenings[..n] else [])
  {
    var requested := Requested(RequestedVersion(l, l.world), l.world.snapshot.version, a.firstSend);
    var asked := l.world.Saw(requested);
    SeeingTracks(text, start, l.world, requested);
    var next := Session(text, options, l, a).0;
    if a.firstSend == Sent {
      ConverseTracks(text, options, start, asked, l.forceFullSync, a.happenings);
      var step := Converse(text, options, asked, l.forceFullSync, a.happenings);
      LeavingKeepsData(options, l, a, step);
      SameDataTracks(text, start, step.world, next.world);
    } else {
      PauseKeepsData(options, l.(world := asked), a, false, None);
      SameDataTracks(text, start, asked, next.world);
      assert MessagesIn(l.world.history) + [] == MessagesIn(l.world.history);
    }
  }

  lemma {:induction false} MessagesAppend(options: SyncOptions, a: seq<Happening>, b: seq<Happening>)
    ensures MessagesOf(options, a + b) == MessagesOf(options, a) + MessagesOf(options, b)
  {
    if a == [] {
      assert a + b == b;
    } else {
      MessagesAppend(options, a[1..], b);
      assert (a + b)[1..] == a[1..] + b;
      var first := MessageOf(options, a[0]);
      var head := if first.Some? then [first.value] else [];
      Associate(head, MessagesOf(options, a[1..]), MessagesOf(options, b));
    }
  }

  lemma {:induction false} RunTracks(text: Library, options: SyncOptions, start: DataSnapshot, l: Loop,
                                     attempts: seq<Attempt>)
    requires Tracks(text, start, l.world)
    ensures var (end, _) := RunLoop(text, options, l, attempts);
            && Tracks(text, start, end.world)
            && MessagesIn(end.world.history)
               == MessagesIn(l.world.history) + MessagesOf(options, Seen(text, options, l, attempts))
    decreases |attempts|
  {
    assert MessagesIn(l.world.history) + [] == MessagesIn(l.world.history);
    if attempts != [] {
      var (next, progress) := Round(text, options, l, attempts[0]);
      var here := SeenIn(text, options, l, attempts[0]);
      RoundTracks(text, options, start, l, attempts[0]);
      if progress == Looping {
        RunTracks(text, options, start, next, attempts[1..]);
        var later := Seen(text, options, next, attempts[1..]);
        MessagesAppend(options, here, later);
        Associate(MessagesIn(l.world.history), MessagesOf(options, here), MessagesOf(options, later));
      } else {
        assert here + [] == here;
      }
    }
  }

  /** Over every run: the messages handled are those of the frames that its connections got to see, none skipped; the
      store holds exactly what the full and patch messages among them, in order, make of what it held at the start;
      and each has the result that is right for it: full for a full message, patch or conflict for a patch according
      to whether it is contested, and ignored for all else. And every request asks for everything while a full sync is
      owed, and otherwise for what is newer than the version that those messages had led to. */
  lemma EveryRunFollowsItsMessages(text: Library, options: SyncOptions, snapshot: DataSnapshot, attempts: seq<Attempt>)
    requires StoreInvariant(text, snapshot)
    ensures var (end, _) := RunLoop(text, options, Beginning(snapshot), attempts);
            var history := end.world.history;
            && MessagesIn(history) == MessagesOf(options, Seen(text, options, Beginning(snapshot), attempts))
            && end.world.snapshot == Written(text, snapshot, WritesIn(history))
            && (forall i :: 0 <= i < |history| && history[i].Applied? ==>
                  IsRight(Written(text, snapshot, WritesIn(history[..i])), history[i].message, history[i].result))
            && (forall i :: 0 <= i < |history| && history[i].Requested? ==>
                  history[i].timestamp == if Owed(history[..i]) then 0
                                          else NonNegative(Written(text, snapshot, WritesIn(history[..i])).version))
  {
    RunTracks(text, options, snapshot, Beginning(snapshot), attempts);
    var history := RunLoop(text, options, Beginning(snapshot), attempts).0.world.history;
    EveryRunIsSound(text, options, snapshot, attempts);
    forall i | 0 <= i < |history|
      ensures IsRecordedRight(Written(text, snapshot, WritesIn(history[..i])), history[i])
      ensures history[i].Requested? ==> IsDue(history[..i], history[i])
    {
      ResultIsRightAt(text, snapshot, history, i);
    }
  }

  // ---------------------------------------------------------------------------------------------------
  // What ends a connection

  /** A ping that is due, a ping to answer, or a contested patch that opens the debt. */
  ghost predicate NeedsSend(options: SyncOptions, w: World, awaiting: bool, h: Happening) {
    || h.cause == PingDue
    || h.cause == Incoming(Ping)
    || (!awaiting && var message := MessageOf(options, h);
        && message.Some?
        && WriteOf(message.value).Some?
        && WriteOf(message.value).value.Patch?
        && IsContested(w.snapshot, WriteOf(message.value).value.data))
  }

  /** The peer is gone, has closed with any other code than 4003, or has sent too large a frame. */
  ghost predicate IsBroken(options: SyncOptions, h: Happening) {
    match h.cause
    case Incoming(Close(code)) => code != Some(4003)
    case Incoming(ReceiveError) => true
    case Incoming(EndOfStream) => true
    case Incoming(Text(size, _)) => size > options.maxMessageSize
    case Incoming(Binary(size, _)) => size > options.maxMessageSize
    case _ => false
  }

  /** A stop ends a connection as stopped, a close with code 4003 for good, a broken connection or a failed send for
      a new one; and nothing else does. */
  lemma EndMeaning(text: Library, options: SyncOptions, w: World, awaiting: bool, h: Happening)
    requires StoreInvariant(text, w.snapshot)
    ensures var end, sends := React(text, options, w, awaiting, h).end, NeedsSend(options, w, awaiting, h);
            && (end == Some(Stopped) <==> h.cause == StopSeen || (sends && h.send == Interrupted))
            && (end == Some(Terminal(4003)) <==> h.cause == Incoming(Close(Some(4003))))
            && (end == Some(Reconnect) || end == Some(Resync) <==> IsBroken(options, h) || (sends && h.send == Failed))
            && (end.Some? && end.value.Terminal? ==> end.value.code == 4003)
  {
    match h.cause {
      case Incoming(Text(_, envelope)) => MessageEnds(text, w, awaiting, envelope, h.send);
      case Incoming(Binary(_, envelope)) => MessageEnds(text, w, awaiting, envelope, h.send);
      case _ =>
    }
  }

  lemma MessageEnds(text: Library, w: World, awaiting: bool, envelope: Option<DataSyncEnvelope>, send: SocketSend)
    requires StoreInvariant(text, w.snapshot)
    ensures var (applied, result) := ApplyMessage(text, w, envelope);
            var end := HandleApplyResult(applied, envelope, result, awaiting, send).end;
            var write := WriteOf(envelope);
            var sends := !awaiting && write.Some? && write.value.Patch? && IsContested(w.snapshot, write.value.data);
            end == if !sends || send == Sent then None else if send == Interrupted then Some(Stopped) else Some(Resync)
  {
    MessageIsWritten(text, w, envelope);
  }

  /** The end of a conversation is that of the last happening it got to see. */
  lemma {:induction false} ConversationEnds(text: Library, options: SyncOptions, w: World, awaiting: bool,
                                            happenings: seq<Happening>)
    ensures var step, n := Converse(text, options, w, awaiting, happenings),
                           Reached(text, options, w, awaiting, happenings);
            step.end.Some? ==>
              && n > 0
              && var before := Converse(text, options, w, awaiting, happenings[..n - 1]);
              && before.end.None?
              && step == React(text, options, before.world, before.awaiting, happenings[n - 1])
    decreases |happenings|
  {
    var step, n := Converse(text, options, w, awaiting, happenings), Reached(text, options, w, awaiting, happenings);
    if step.end.Some? {
      var first := React(text, options, w, awaiting, happenings[0]);
      if first.end.None? {
        ConversationEnds(text, options, first.world, first.awaiting, happenings[1..]);
        assert happenings[..n - 1][1..] == happenings[1..][..n - 2];
        assert happenings[..n - 1][0] == happenings[0];
      } else {
        assert happenings[..n - 1] == [];
      }
    }
  }

  // ---------------------------------------------------------------------------------------------------
  // What ends a round, and what one leaves behind

  ghost function Conversation(text: Library, options: SyncOptions, l: Loop, a: Attempt): Step {
    var w := MarkStale(l.world);
    var asked := w.Saw(Requested(RequestedVersion(l, w), w.snapshot.version, a.firstSend));
    Converse(text, options, asked, l.forceFullSync, a.happenings)
  }

  predicate Converses(a: Attempt) { !a.stopAtHead && a.connect == Connected && a.firstSend == Sent }

  /** No connection, no first request, or a connection that ended otherwise than for good. */
  ghost predicate GoesToPause(text: Library, options: SyncOptions, l: Loop, a: Attempt) {
    && !a.stopAtHead
    && (|| a.connect == ConnectFailed
        || (a.connect == Connected && a.firstSend == SocketSend.Failed)
        || (Converses(a) && Conversation(text, options, l, a).end in {Some(Reconnect), Some(Resync)}))
  }

  ghost predicate IsStopped(text: Library, options: SyncOptions, l: Loop, a: Attempt) {
    || a.stopAtHead
    || a.connect == ConnectStopped
    || (a.connect == Connected && a.firstSend == Interrupted)
    || (Converses(a)
        && var end := Conversation(text, options, l, a).end;
           end.Some? && (end.value.Stopped? || end.value.Terminal?))
    || (GoesToPause(text, options, l, a) && a.stopInSleep)
  }

  /** A round ends the run exactly if a stop is seen, at whatever point, or the server closed with the final code; then
      the client is closed. Otherwise it is in a connection, or it has waited exactly once more and an initialized
      client is stale. */
  lemma RoundMeaning(text: Library, options: SyncOptions, l: Loop, a: Attempt)
    ensures var (next, progress) := Round(text, options, l, a);
            && (progress == Finished <==> IsStopped(text, options, l, a))
            && (progress == InConnection <==> Converses(a) && Conversation(text, options, l, a).end.None?)
            && (progress == Finished ==> next.world.status == Closed)
            && (progress == Looping ==>
                |next.waits| == |l.waits| + 1 && (next.world.initialized ==> next.world.status == Stale))
  {
    if Converses(a) {
      var head := l.(world := MarkStale(l.world));
      LeavingMeaning(options, head, a, Conversation(text, options, l, a));
    }
  }

  lemma LeavingMeaning(options: SyncOptions, l: Loop, a: Attempt, step: Step)
    ensures var (next, progress) := AfterConnection(options, l, a, step);
            && (progress == InConnection <==> step.end.None?)
            && (progress == Finished
                <==> step.end.Some? && (step.end.value.Stopped? || step.end.value.Terminal? || a.stopInSleep))
            && (progress == Finished ==> next.world.status == Closed)
            && (progress == Looping ==>
                |next.waits| == |l.waits| + 1 && (next.world.initialized ==> next.world.status == Stale))
  {
  }

  /** So a stop at any round ends the run there, and every round that does not end it waits once. */
  lemma {:induction false} EveryReconnectWaits(text: Library, options: SyncOptions, l: Loop, attempts: seq<Attempt>)
    ensures var (end, progress) := RunLoop(text, options, l, attempts);
            && (progress == Looping ==> |end.waits| == |l.waits| + |attempts|)
            && (progress == Looping && attempts != [] && end.world.initialized ==> end.world.status == Stale)
            && (progress == Finished ==> end.world.status == Closed)
    decreases |attempts|
  {
    if attempts != [] {
      RoundMeaning(text, options, l, attempts[0]);
      var (next, progress) := Round(text, options, l, attempts[0]);
      if progress == Looping {
        EveryReconnectWaits(text, options, next, attempts[1..]);
      }
    }
  }
}
