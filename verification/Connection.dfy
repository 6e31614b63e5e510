/** The synchronizer's loops, after src/data_sync/connection.rs, refining the steps of Protocol.dfy. */
module Connection {
  import opened Wrappers
  import opened Model
  import opened Store
  import opened Status
  import opened Backoff
  import opened Protocol

  class Synchronizer {
    const text: Library
    const options: SyncOptions
    const store: SnapshotStore
    const status: StatusTracker
    var history: seq<Observed>

    ghost predicate Valid()
      reads this, store
    {
      store.text == text && store.Valid()
    }

    ghost function World(): World
      reads this, store, status
    {
      Protocol.World(store.snapshot, status.status, status.initialized, history)
    }

    constructor (options: SyncOptions, store: SnapshotStore, status: StatusTracker)
      requires store.Valid()
      ensures this.text == store.text && this.options == options && this.store == store && this.status == status
      ensures Valid() && history == []
    {
      this.text, this.options, this.store, this.status := store.text, options, store, status;
      history := [];
    }

    method ApplyMessage(envelope: Option<DataSyncEnvelope>) returns (result: ApplyResult)
      requires Valid()
      modifies store, status
      ensures Valid()
      ensures (World(), result) == Protocol.ApplyMessage(text, old(World()), envelope)
    {
      if envelope.None? {
        return Ignored;
      }
      if envelope.value.messageType != "data-sync" {
        return Ignored;
      }
      var data := envelope.value.data;
      if data.eventType == "full" {
        store.Populate(data);
        result := Full;
      } else if data.eventType == "patch" {
        var patched := store.Patch(data);
        result := if patched == VersionConflict then Conflict else Patch;
      } else {
        return Ignored;
      }
      if result == Conflict {
        status.Set(Stale);
        return result;
      }
      status.Set(Ready);
    }

    method SendDataSync(version: int, send: SocketSend)
      requires Valid()
      modifies this`history
      ensures Valid()
      ensures history == old(history) + [Requested(if version < 0 then 0 else version, store.snapshot.version, send)]
    {
      var timestamp := if version < 0 then 0 else version;
      history := history + [Requested(timestamp, store.snapshot.version, send)];
    }

    method HandleApplyResult(message: Option<DataSyncEnvelope>, result: ApplyResult, awaitingFullSync: bool,
                             send: SocketSend)
      returns (awaiting: bool, end: Option<ConnectionEnd>)
      requires Valid()
      modifies this`history, status
      ensures Valid()
      ensures Step(World(), awaiting, end)
           == Protocol.HandleApplyResult(old(World()), message, result, awaitingFullSync, send)
    {
      awaiting, end := awaitingFullSync, None;
      if awaitingFullSync && result != Full {
        status.Set(Stale);
      }
      history := history + [Applied(message, result, status.status)];
      if result == Full {
        awaiting := false;
      } else if result == Conflict && !awaitingFullSync {
        SendDataSync(0, send);
        match send
        case Sent => awaiting := true;
        case Interrupted => end := Some(Stopped);
        case Failed => end := Some(Resync);
      }
    }

    /** One round of the select. */
    method Select(h: Happening, awaitingFullSync: bool) returns (awaiting: bool, end: Option<ConnectionEnd>)
      requires Valid()
      modifies this`history, store, status
      ensures Valid()
      ensures Step(World(), awaiting, end) == React(text, options, old(World()), awaitingFullSync, h)
    {
      awaiting, end := awaitingFullSync, None;
      match h.cause
      case StopSeen => end := Some(Stopped);
      case PingDue => end := AfterSend(h.send, awaiting);
      case Incoming(Text(size, envelope)) => awaiting, end := Receive(size, envelope, awaiting, h.send);
      case Incoming(Binary(size, envelope)) => awaiting, end := Receive(size, envelope, awaiting, h.send);
      case Incoming(Ping) => end := AfterSend(h.send, awaiting);
      case Incoming(PongOrFrame) =>
      case Incoming(Close(frame)) =>
        var code := if frame.Some? then frame.value else 1006;
        end := if code == 4003 then Some(Terminal(code)) else Some(ReconnectEnd(awaiting));
      case Incoming(ReceiveError) => end := Some(ReconnectEnd(awaiting));
      case Incoming(EndOfStream) => end := Some(ReconnectEnd(awaiting));
    }

    static method AfterSend(send: SocketSend, awaiting: bool) returns (end: Option<ConnectionEnd>)
      ensures end == if send == Sent then None else if send == Interrupted then Some(Stopped)
              else Some(ReconnectEnd(awaiting))
    {
      match send
      case Sent => end := None;
      case Interrupted => end := Some(Stopped);
      case Failed => end := Some(ReconnectEnd(awaiting));
    }

    method Receive(size: nat, envelope: Option<DataSyncEnvelope>, awaitingFullSync: bool, send: SocketSend)
      returns (awaiting: bool, end: Option<ConnectionEnd>)
      requires Valid()
      modifies this`history, store, status
      ensures Valid()
      ensures Step(World(), awaiting, end)
              == Protocol.Receive(text, options, old(World()), awaitingFullSync, size, envelope, send)
    {
      if size > options.maxMessageSize {
        return awaitingFullSync, Some(ReconnectEnd(awaitingFullSync));
      }
      var result := ApplyMessage(envelope);
      awaiting, end := HandleApplyResult(envelope, result, awaitingFullSync, send);
    }

    method RunConnection(happenings: seq<Happening>, awaitingFullSync: bool)
      returns (awaiting: bool, end: Option<ConnectionEnd>)
      requires Valid()
      modifies this`history, store, status
      ensures Valid()
      ensures Step(World(), awaiting, end) == Converse(text, options, old(World()), awaitingFullSync, happenings)
    {
      awaiting, end := awaitingFullSync, None;
      for i := 0 to |happenings|
        invariant Valid() && end.None?
        invariant Converse(text, options, World(), awaiting, happenings[i..])
               == Converse(text, options, old(World()), awaitingFullSync, happenings)
      {
        awaiting, end := Select(happenings[i], awaiting);
        if end.Some? {
          return;
        }
        assert happenings[i..][1..] == happenings[i + 1..];
      }
    }

    method MarkStale()
      requires Valid()
      modifies status
      ensures Valid()
      ensures World() == Protocol.MarkStale(old(World()))
    {
      if status.initialized {
        status.Set(Stale);
      }
    }

    method RunSyncLoop(attempts: seq<Attempt>)
      returns (retryAttempt: nat, forceFullSync: bool, waits: seq<Wait>, progress: Progress)
      requires Valid()
      modifies this`history, store, status
      ensures Valid()
      ensures (Loop(World(), retryAttempt, forceFullSync, waits), progress)
           == RunLoop(text, options, Loop(old(World()), 0, false, []), attempts)
    {
      retryAttempt, forceFullSync, waits, progress := 0, false, [], Looping;
      for i := 0 to |attempts|
        invariant Valid() && progress == Looping
        invariant RunLoop(text, options, Loop(World(), retryAttempt, forceFullSync, waits), attempts[i..])
               == RunLoop(text, options, Loop(old(World()), 0, false, []), attempts)
      {
        retryAttempt, forceFullSync, waits, progress := RunRound(attempts[i], retryAttempt, forceFullSync, waits);
        if progress != Looping {
          return;
        }
        assert attempts[i..][1..] == attempts[i + 1..];
      }
    }

    /** The body of the outer loop. */
    method RunRound(a: Attempt, retryAttempt: nat, forceFullSync: bool, waits: seq<Wait>)
      returns (retry: nat, force: bool, waited: seq<Wait>, progress: Progress)
      requires Valid()
      modifies this`history, store, status
      ensures Valid()
      ensures (Loop(World(), retry, force, waited), progress)
           == Round(text, options, Loop(old(World()), retryAttempt, forceFullSync, waits), a)
    {
      retry, force, waited := retryAttempt, forceFullSync, waits;
      if a.stopAtHead {
        status.Set(Closed);
        return retry, force, waited, Finished;
      }
      MarkStale();
      match a.connect
      case ConnectStopped =>
        status.Set(Closed);
        progress := Finished;
      case ConnectFailed =>
        retry, waited, progress := Pause(a, retry, waited, false, None, force);
      case Connected =>
        retry, force, waited, progress := RunSession(a, retry, force, waited);
    }

    /** The arm for an established connection. */
    method RunSession(a: Attempt, retryAttempt: nat, forceFullSync: bool, waits: seq<Wait>)
      returns (retry: nat, force: bool, waited: seq<Wait>, progress: Progress)
      requires Valid()
      modifies this`history, store, status
      ensures Valid()
      ensures (Loop(World(), retry, force, waited), progress)
           == Session(text, options, Loop(old(World()), retryAttempt, forceFullSync, waits), a)
    {
      retry, force, waited := retryAttempt, forceFullSync, waits;
      var requestedVersion := if force then 0 else store.snapshot.version;
      SendDataSync(requestedVersion, a.firstSend);
      match a.firstSend
      case Interrupted =>
        status.Set(Closed);
        return retry, force, waited, Finished;
      case Failed =>
        retry, waited, progress := Pause(a, retry, waited, false, None, force);
      case Sent =>
        ghost var before := Loop(old(World()), retryAttempt, forceFullSync, waits);
        retry, force, waited, progress := RunOpenSession(a, retry, force, waited, before);
    }

    /** The part of that arm in which the first request has been sent. */
    method RunOpenSession(a: Attempt, retryAttempt: nat, forceFullSync: bool, waits: seq<Wait>, ghost l: Loop)
      returns (retry: nat, force: bool, waited: seq<Wait>, progress: Progress)
      requires Valid()
      requires l.retryAttempt == retryAttempt && l.forceFullSync == forceFullSync && l.waits == waits
      modifies this`history, store, status
      ensures Valid()
      ensures (Loop(World(), retry, force, waited), progress)
           == Protocol.AfterConnection(options, l, a,
                                       Converse(text, options, old(World()), forceFullSync, a.happenings))
    {
      ghost var awaiting;
      var end;
      awaiting, end := RunConnection(a.happenings, forceFullSync);
      if end.None? {
        return retryAttempt, forceFullSync, waits, InConnection;
      }
      retry, force, waited, progress := AfterConnection(end.value, a, retryAttempt, forceFullSync, waits, awaiting);
    }

    /** What follows a connection that has ended. */
    method AfterConnection(end: ConnectionEnd, a: Attempt, retryAttempt: nat, forceFullSync: bool, waits: seq<Wait>,
                           ghost awaiting: bool)
      returns (retry: nat, force: bool, waited: seq<Wait>, progress: Progress)
      requires Valid()
      modifies status
      ensures Valid()
      ensures (Loop(World(), retry, force, waited), progress)
           == Protocol.AfterConnection(options, Loop(old(World()), retryAttempt, forceFullSync, waits), a,
                                       Step(old(World()), awaiting, Some(end)))
    {
      retry, force, waited := retryAttempt, forceFullSync, waits;
      var session, reset := Some((status.status, a.lasted)), false;
      if status.status == Ready && a.lasted >= options.keepAliveInterval {
        retry, reset := 0, true;
      }
      match end {
        case Stopped => status.Set(Closed); return retry, force, waited, Finished;
        case Terminal(_) => status.Set(Closed); return retry, force, waited, Finished;
        case Reconnect => force := false;
        case Resync => force := true;
      }
      retry, waited, progress := Pause(a, retry, waited, reset, session, force);
    }

    /** The tail of the loop body: mark stale, choose the delay, advance the counter, sleep. */
    method Pause(a: Attempt, retryAttempt: nat, waits: seq<Wait>, reset: bool, session: Option<(SyncStatus, nat)>,
                 ghost force: bool)
      returns (retry: nat, waited: seq<Wait>, progress: Progress)
      requires Valid()
      modifies status
      ensures Valid()
      ensures (Loop(World(), retry, force, waited), progress)
           == Protocol.Pause(options, Loop(old(World()), retryAttempt, force, waits), a, reset, session)
    {
      MarkStale();
      var delay := ReconnectDelay(options.reconnectDelays, retryAttempt, a.jitter);
      waited := waits + [Wait(retryAttempt, delay, reset, session)];
      retry := if retryAttempt < USIZE_MAX then retryAttempt + 1 else USIZE_MAX;
      if a.stopInSleep {
        status.Set(Closed);
        return retry, waited, Finished;
      }
      progress := Looping;
    }
  }
}
