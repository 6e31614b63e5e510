/** What the synchronizer does, one input at a time: the specification that Connection.dfy's loops refine.
    After src/data_sync/connection.rs and `apply_message` of src/data_sync/protocol.rs. The socket, the stop
    signal, the clock and the jitter are inputs, chosen by an arbitrary environment. */
module Protocol {
  import opened Wrappers
  import opened Model
  import opened Store
  import opened Status
  import opened Backoff

  datatype ApplyResult = Full | Patch | Ignored | Conflict

  datatype SocketSend = Sent | Interrupted | Failed

  datatype ConnectionEnd = Stopped | Terminal(code: int) | Reconnect | Resync

  /** What an observer of the client's side can see; `message` is what a frame decodes to, if it decodes at all,
      `status` is the one left after handling it, and `version` is the store's version when the request was made. */
  datatype Observed =
    | Applied(message: Option<DataSyncEnvelope>, result: ApplyResult, status: SyncStatus)
    | Requested(timestamp: int, version: int, send: SocketSend)

  datatype World = World(snapshot: DataSnapshot, status: SyncStatus, initialized: bool, history: seq<Observed>) {
    function Set(status: SyncStatus): World {
      this.(status := status, initialized := initialized || status == Ready)
    }

    function Saw(observed: Observed): World { this.(history := history + [observed]) }
  }

  datatype SyncOptions = SyncOptions(reconnectDelays: seq<nat>, keepAliveInterval: nat, maxMessageSize: nat)

  datatype Frame =
    | Text(size: nat, envelope: Option<DataSyncEnvelope>)
    | Binary(size: nat, envelope: Option<DataSyncEnvelope>)
    | Ping
    | PongOrFrame
    | Close(code: Option<int>)
    | ReceiveError
    | EndOfStream

  datatype Cause = StopSeen | PingDue | Incoming(frame: Frame)

  /** One round of the connection's select, with the outcome of the send it may lead to. */
  datatype Happening = Happening(cause: Cause, send: SocketSend)

  datatype Connect = ConnectStopped | ConnectFailed | Connected

  /** One round of the outer loop. */
  datatype Attempt = Attempt(
    stopAtHead: bool,
    connect: Connect,
    firstSend: SocketSend,
    happenings: seq<Happening>,
    lasted: nat,
    jitter: Jitter,
    stopInSleep: bool)

  // ---------------------------------------------------------------------------------------------------
  // Inside a connection

  ghost function ApplyMessage(text: Library, w: World, envelope: Option<DataSyncEnvelope>): (World, ApplyResult) {
    if envelope.None? || envelope.value.messageType != "data-sync" then (w, Ignored)
    else
      var data := envelope.value.data;
      if data.eventType == "full" then (w.(snapshot := Populated(text, data)).Set(Ready), Full)
      else if data.eventType == "patch" then
        var patched := w.(snapshot := Patched(text, w.snapshot, data));
        if PatchVerdict(w.snapshot, data) == VersionConflict then (patched.Set(Stale), Conflict)
        else (patched.Set(Ready), Patch)
      else (w, Ignored)
  }

  datatype Step = Step(world: World, awaiting: bool, end: Option<ConnectionEnd>)

  function HandleApplyResult(w: World, message: Option<DataSyncEnvelope>, result: ApplyResult, awaiting: bool,
                             send: SocketSend): Step
  {
    var settled := if awaiting && result != Full then w.Set(Stale) else w;
    var seen := settled.Saw(Applied(message, result, settled.status));
    if result == Full then Step(seen, false, None)
    else if result == Conflict && !awaiting then
      var asked := seen.Saw(Requested(0, seen.snapshot.version, send));
      match send
      case Sent => Step(asked, true, None)
      case Interrupted => Step(asked, awaiting, Some(Stopped))
      case Failed => Step(asked, awaiting, Some(Resync))
    else Step(seen, awaiting, None)
  }

  function ReconnectEnd(awaiting: bool): ConnectionEnd { if awaiting then Resync else Reconnect }

  function AfterSend(w: World, awaiting: bool, send: SocketSend): Step {
    match send
    case Sent => Step(w, awaiting, None)
    case Interrupted => Step(w, awaiting, Some(Stopped))
    case Failed => Step(w, awaiting, Some(ReconnectEnd(awaiting)))
  }

  ghost function Receive(text: Library, options: SyncOptions, w: World, awaiting: bool,
                         size: nat, envelope: Option<DataSyncEnvelope>, send: SocketSend): Step
  {
    if size > options.maxMessageSize then Step(w, awaiting, Some(ReconnectEnd(awaiting)))
    else
      var (applied, result) := ApplyMessage(text, w, envelope);
      HandleApplyResult(applied, envelope, result, awaiting, send)
  }

  ghost function React(text: Library, options: SyncOptions, w: World, awaiting: bool, h: Happening): Step {
    match h.cause
    case StopSeen => Step(w, awaiting, Some(Stopped))
    case PingDue => AfterSend(w, awaiting, h.send)
    case Incoming(Text(size, envelope)) => Receive(text, options, w, awaiting, size, envelope, h.send)
    case Incoming(Binary(size, envelope)) => Receive(text, options, w, awaiting, size, envelope, h.send)
    case Incoming(Ping) => AfterSend(w, awaiting, h.send)
    case Incoming(PongOrFrame) => Step(w, awaiting, None)
    case Incoming(Close(code)) =>
      if code == Some(4003) then Step(w, awaiting, Some(Terminal(4003)))
      else Step(w, awaiting, Some(ReconnectEnd(awaiting)))
    case Incoming(ReceiveError) => Step(w, awaiting, Some(ReconnectEnd(awaiting)))
    case Incoming(EndOfStream) => Step(w, awaiting, Some(ReconnectEnd(awaiting)))
  }

  /** A connection's run over some first part of its inputs; no end means that it is still open. */
  ghost function Converse(text: Library, options: SyncOptions, w: World, awaiting: bool, happenings: seq<Happening>)
    : Step
    decreases |happenings|
  {
    if happenings == [] then Step(w, awaiting, None)
    else
      var step := React(text, options, w, awaiting, happenings[0]);
      if step.end.Some? then step else Converse(text, options, step.world, step.awaiting, happenings[1..])
  }

  // ---------------------------------------------------------------------------------------------------
  // The outer loop

  const USIZE_MAX: nat := 0x1_0000_0000_0000_0000 - 1

  /** A wait before reconnecting: the attempt number it used, whether the counter was reset just before, and
      the status and length of the session that had just ended, if there was one. */
  datatype Wait = Wait(attempt: nat, delay: nat, reset: bool, session: Option<(SyncStatus, nat)>)

  datatype Loop = Loop(world: World, retryAttempt: nat, forceFullSync: bool, waits: seq<Wait>)

  datatype Progress = Looping | InConnection | Finished

  function MarkStale(w: World): World { if w.initialized then w.Set(Stale) else w }

  function Finish(l: Loop, w: World): (Loop, Progress) { (l.(world := w.Set(Closed)), Finished) }

  function Pause(options: SyncOptions, l: Loop, a: Attempt, reset: bool, session: Option<(SyncStatus, nat)>)
    : (Loop, Progress)
  {
    var world := MarkStale(l.world);
    var wait := Wait(l.retryAttempt, ReconnectDelay(options.reconnectDelays, l.retryAttempt, a.jitter), reset, session);
    var retryAttempt := if l.retryAttempt < USIZE_MAX then l.retryAttempt + 1 else USIZE_MAX;
    var next := Loop(world, retryAttempt, l.forceFullSync, l.waits + [wait]);
    if a.stopInSleep then Finish(next, world) else (next, Looping)
  }

  function RequestedVersion(l: Loop, w: World): int {
    var version := if l.forceFullSync then 0 else w.snapshot.version;
    if version < 0 then 0 else version
  }

  ghost function Round(text: Library, options: SyncOptions, l: Loop, a: Attempt): (Loop, Progress) {
    if a.stopAtHead then Finish(l, l.world)
    else
      var head := l.(world := MarkStale(l.world));
      match a.connect
      case ConnectStopped => Finish(head, head.world)
      case ConnectFailed => Pause(options, head, a, false, None)
      case Connected => Session(text, options, head, a)
  }

  ghost function Session(text: Library, options: SyncOptions, l: Loop, a: Attempt): (Loop, Progress) {
    var asked := l.world.Saw(Requested(RequestedVersion(l, l.world), l.world.snapshot.version, a.firstSend));
    match a.firstSend
    case Interrupted => Finish(l, asked)
    case Failed => Pause(options, l.(world := asked), a, false, None)
    case Sent => AfterConnection(options, l, a, Converse(text, options, asked, l.forceFullSync, a.happenings))
  }

  function AfterConnection(options: SyncOptions, l: Loop, a: Attempt, step: Step): (Loop, Progress) {
    var reset := step.world.status == Ready && a.lasted >= options.keepAliveInterval;
    var session := Some((step.world.status, a.lasted));
    var l' := l.(world := step.world, retryAttempt := if reset then 0 else l.retryAttempt);
    match step.end
    case None => (l.(world := step.world), InConnection)
    case Some(Stopped) => Finish(l', step.world)
    case Some(Terminal(_)) => Finish(l', step.world)
    case Some(end) => Pause(options, l'.(forceFullSync := end == Resync), a, reset, session)
  }

  ghost function RunLoop(text: Library, options: SyncOptions, l: Loop, attempts: seq<Attempt>): (Loop, Progress)
    decreases |attempts|
  {
    if attempts == [] then (l, Looping)
    else
      var (next, progress) := Round(text, options, l, attempts[0]);
      if progress != Looping then (next, progress) else RunLoop(text, options, next, attempts[1..])
  }
}
