/** The playback state machine and the orchestrator behind its lock: commands and scheduler
    notifications, in any order, one at a time. */
module ReplayOrchestrator {
  import opened Prelude
  import FileReader
  import Scheduling = ReplayScheduler

  datatype PlaybackState = IDLE | READY | RUNNING | PAUSED | STOPPED | COMPLETED | ERROR

  datatype ReplayCommand =
    | LoadFile(filePath: string, fileType: string, targetStage: int)
    | Start(speed: real, loopEnabled: bool)
    | Pause
    | Resume
    | Seek(targetTimestampNs: nat)
    | Stop
    | UnloadFile
    | SetSpeed(speed: real)
    | SetLoop(enabled: bool)

  datatype OrchestratorError = InvalidTransition | SourceFailed

  // How the packet source answers, should the command ask it.
  datatype SourceReply = SourceReply(openReply: Result<FileReader.SourceMetadata, Unit>, seekOk: bool, closeOk: bool)

  datatype RecentPacket = RecentPacket(sequenceNumber: nat, timestampNs: nat, apid: Option<u16>)

  // What a scheduler, current or earlier, reports.
  datatype Notification = PacketPublished(packet: RecentPacket) | Eof | FatalError

  type Answer = Result<Option<FileReader.SourceMetadata>, OrchestratorError>

  // A scheduler that was started: its settings then, and what has been sent to it.
  datatype Channel = Channel(speed: real, looping: bool, sent: seq<Scheduling.Command>)

  // The orchestrator's fields; `scheduler` names the channel it holds, if any.
  datatype Orchestrator = Orchestrator(
    state: PlaybackState,
    speed: real, looping: bool, targetStage: int, filePath: string, fileType: string,
    metadata: Option<FileReader.SourceMetadata>,
    scheduler: Option<nat>, channels: seq<Channel>,
    packetsPublished: nat, currentTimestampNs: nat, recent: seq<RecentPacket>)

  const RECENT_LIMIT := 100

  const IDLE_ORCHESTRATOR := Orchestrator(IDLE, 1.0, false, 0, "", "", None, None, [], 0, 0, [])

  // `validate_transition`.
  function NextState(current: PlaybackState, command: ReplayCommand): Result<PlaybackState, OrchestratorError> {
    match (current, command)
    case (IDLE, LoadFile(_, _, _)) => Ok(READY)
    case (READY, Start(_, _)) => Ok(RUNNING)
    case (READY, UnloadFile) => Ok(IDLE)
    case (READY, Seek(_)) => Ok(READY)
    case (READY, SetSpeed(_)) => Ok(READY)
    case (READY, SetLoop(_)) => Ok(READY)
    case (RUNNING, Pause) => Ok(PAUSED)
    case (RUNNING, Stop) => Ok(STOPPED)
    case (RUNNING, SetSpeed(_)) => Ok(RUNNING)
    case (RUNNING, SetLoop(_)) => Ok(RUNNING)
    case (PAUSED, Resume) => Ok(RUNNING)
    case (PAUSED, Stop) => Ok(STOPPED)
    case (PAUSED, Seek(_)) => Ok(PAUSED)
    case (PAUSED, SetSpeed(_)) => Ok(PAUSED)
    case (PAUSED, SetLoop(_)) => Ok(PAUSED)
    case (STOPPED, Start(_, _)) => Ok(RUNNING)
    case (STOPPED, LoadFile(_, _, _)) => Ok(READY)
    case (STOPPED, UnloadFile) => Ok(IDLE)
    case (STOPPED, Seek(_)) => Ok(STOPPED)
    case (STOPPED, SetSpeed(_)) => Ok(STOPPED)
    case (COMPLETED, Start(_, _)) => Ok(RUNNING)
    case (COMPLETED, LoadFile(_, _, _)) => Ok(READY)
    case (COMPLETED, UnloadFile) => Ok(IDLE)
    case (ERROR, LoadFile(_, _, _)) => Ok(READY)
    case (ERROR, UnloadFile) => Ok(IDLE)
    case _ => Err(InvalidTransition)
  }

  // The table read by command: where each is accepted, and where it leads; settings keep the state.
  lemma TransitionsByCommand(current: PlaybackState, command: ReplayCommand)
    ensures NextState(current, command).Ok? <==>
      match command
      case LoadFile(_, _, _) => current in {IDLE, STOPPED, COMPLETED, ERROR}
      case Start(_, _) => current in {READY, STOPPED, COMPLETED}
      case Pause => current == RUNNING
      case Resume => current == PAUSED
      case Stop => current in {RUNNING, PAUSED}
      case UnloadFile => current in {READY, STOPPED, COMPLETED, ERROR}
      case Seek(_) => current in {READY, PAUSED, STOPPED}
      case SetSpeed(_) => current in {READY, RUNNING, PAUSED, STOPPED}
      case SetLoop(_) => current in {READY, RUNNING, PAUSED}
    ensures NextState(current, command).Ok? ==> NextState(current, command).value == Destination(current, command)
  {}

  function Destination(current: PlaybackState, command: ReplayCommand): PlaybackState {
    match command
    case LoadFile(_, _, _) => READY
    case Start(_, _) => RUNNING
    case Pause => PAUSED
    case Resume => RUNNING
    case Stop => STOPPED
    case UnloadFile => IDLE
    case _ => current
  }

  ghost predicate Wired(o: Orchestrator) { o.scheduler.Some? ==> o.scheduler.value < |o.channels| }

  // A command down the channel that is held, if one is.
  function Send(o: Orchestrator, command: Scheduling.Command): (p: Orchestrator)
    requires Wired(o)
    ensures Wired(p) && p == o.(channels := p.channels)
  {
    if o.scheduler.None? then o
    else
      var channel := o.channels[o.scheduler.value];
      o.(channels := o.channels[o.scheduler.value := channel.(sent := channel.sent + [command])])
  }

  function ActLoad(o: Orchestrator, path: string, kind: string, stage: int, reply: SourceReply)
    : (r: (Orchestrator, Answer))
    requires Wired(o)
    ensures Wired(r.0)
  {
    if reply.openReply.Err? then (o, Err(SourceFailed))
    else
      var metadata := reply.openReply.value;
      (o.(filePath := path, fileType := kind, targetStage := stage, metadata := Some(metadata),
          currentTimestampNs := metadata.startTimestampNs, packetsPublished := 0, recent := []),
       Ok(Some(metadata)))
  }

  function ActSeek(o: Orchestrator, timestamp: nat, reply: SourceReply): (r: (Orchestrator, Answer))
    requires Wired(o)
    ensures Wired(r.0)
  {
    if o.scheduler.Some? then (Send(o, Scheduling.Seek(timestamp)).(currentTimestampNs := timestamp), Ok(None))
    else if !reply.seekOk then (o, Err(SourceFailed))
    else (o.(currentTimestampNs := timestamp), Ok(None))
  }

  function ActStop(o: Orchestrator): (p: Orchestrator)
    requires Wired(o)
    ensures Wired(p)
  {
    var stopped := Send(o, Scheduling.Stop).(scheduler := None, packetsPublished := 0);
    if o.metadata.Some? then stopped.(currentTimestampNs := o.metadata.value.startTimestampNs) else stopped
  }

  function ActUnload(o: Orchestrator, reply: SourceReply): (r: (Orchestrator, Answer))
    requires Wired(o)
    ensures Wired(r.0)
  {
    var stopped := Send(o, Scheduling.Stop).(scheduler := None);
    if !reply.closeOk then (stopped, Err(SourceFailed))
    else
      (stopped.(metadata := None, filePath := "", fileType := "",
                packetsPublished := 0, currentTimestampNs := 0, recent := []),
       Ok(None))
  }

  // The action of an accepted command; a failing source ends it early.
  function Act(o: Orchestrator, command: ReplayCommand, reply: SourceReply): (r: (Orchestrator, Answer))
    requires Wired(o)
    ensures Wired(r.0)
  {
    match command
    case LoadFile(path, kind, stage) => ActLoad(o, path, kind, stage, reply)
    case Start(speed, loopEnabled) =>
      (o.(speed := speed, looping := loopEnabled,
          channels := o.channels + [Channel(speed, loopEnabled, [])], scheduler := Some(|o.channels|)),
       Ok(None))
    case Pause => (Send(o, Scheduling.Pause), Ok(None))
    case Resume => (Send(o, Scheduling.Resume), Ok(None))
    case Seek(timestamp) => ActSeek(o, timestamp, reply)
    case Stop => (ActStop(o), Ok(None))
    case UnloadFile => ActUnload(o, reply)
    case SetSpeed(speed) => (Send(o.(speed := speed), Scheduling.SetSpeed(speed)), Ok(None))
    case SetLoop(enabled) => (Send(o.(looping := enabled), Scheduling.SetLoop(enabled)), Ok(None))
  }

  // `execute_command`.
  function Execute(o: Orchestrator, command: ReplayCommand, reply: SourceReply): (r: (Orchestrator, Answer))
    requires Wired(o)
    ensures Wired(r.0)
  {
    var next := NextState(o.state, command);
    if next.Err? then (o, Err(next.error))
    else
      var (acted, answer) := Act(o, command, reply);
      if answer.Err? then (acted, answer) else (acted.(state := next.value), answer)
  }

  // The notification listener.
  function Notified(o: Orchestrator, notification: Notification): (p: Orchestrator)
    requires Wired(o)
    ensures Wired(p)
  {
    match notification
    case PacketPublished(packet) =>
      var recent := o.recent + [packet];
      o.(packetsPublished := packet.sequenceNumber, currentTimestampNs := packet.timestampNs,
         recent := if |recent| > RECENT_LIMIT then recent[1..] else recent)
    case Eof => o.(state := COMPLETED, scheduler := None)
    case FatalError => o.(state := ERROR, scheduler := None)
  }

  class StateMachine {
    var current: PlaybackState

    constructor ()
      ensures current == IDLE
    {
      current := IDLE;
    }

    method SetState(next: PlaybackState)
      modifies this
      ensures current == next
    {
      current := next;
    }
  }

  class ReplayOrchestrator {
    const stateMachine: StateMachine
    var speed: real
    var loopEnabled: bool
    var targetStage: int
    var fileType: string
    var filePath: string
    var sourceMetadata: Option<FileReader.SourceMetadata>
    var schedulerTx: Option<nat>
    var channels: seq<Channel>
    var packetsPublished: nat
    var currentTimestampNs: nat
    var recentPackets: seq<RecentPacket>

    ghost function State(): Orchestrator
      reads this, stateMachine
    {
      Orchestrator(
        stateMachine.current, speed, loopEnabled, targetStage, filePath, fileType, sourceMetadata,
        schedulerTx, channels, packetsPublished, currentTimestampNs, recentPackets)
    }

    constructor ()
      ensures State() == IDLE_ORCHESTRATOR && fresh(stateMachine)
    {
      stateMachine := new StateMachine();
      speed, loopEnabled, targetStage, fileType, filePath := 1.0, false, 0, "", "";
      sourceMetadata, schedulerTx, channels := None, None, [];
      packetsPublished, currentTimestampNs, recentPackets := 0, 0, [];
    }

    method SendToScheduler(command: Scheduling.Command)
      requires Wired(State())
      modifies this
      ensures State() == Send(old(State()), command)
    {
      if schedulerTx.Some? {
        var channel := channels[schedulerTx.value];
        channels := channels[schedulerTx.value := channel.(sent := channel.sent + [command])];
      }
    }

    method LoadSource(path: string, kind: string, stage: int, reply: SourceReply) returns (answer: Answer)
      requires Wired(State())
      modifies this
      ensures (State(), answer) == ActLoad(old(State()), path, kind, stage, reply)
    {
      if reply.openReply.Err? {
        return Err(SourceFailed);
      }
      var metadata := reply.openReply.value;
      filePath, fileType, targetStage := path, kind, stage;
      sourceMetadata := Some(metadata);
      currentTimestampNs := metadata.startTimestampNs;
      packetsPublished, recentPackets := 0, [];
      return Ok(Some(metadata));
    }

    method SeekSource(timestamp: nat, reply: SourceReply) returns (answer: Answer)
      requires Wired(State())
      modifies this
      ensures (State(), answer) == ActSeek(old(State()), timestamp, reply)
    {
      if schedulerTx.Some? {
        SendToScheduler(Scheduling.Seek(timestamp));
      } else if !reply.seekOk {
        return Err(SourceFailed);
      }
      currentTimestampNs := timestamp;
      return Ok(None);
    }

    method StopSession()
      requires Wired(State())
      modifies this
      ensures State() == ActStop(old(State()))
    {
      SendToScheduler(Scheduling.Stop);
      schedulerTx, packetsPublished := None, 0;
      if sourceMetadata.Some? {
        currentTimestampNs := sourceMetadata.value.startTimestampNs;
      }
    }

    method UnloadSource(reply: SourceReply) returns (answer: Answer)
      requires Wired(State())
      modifies this
      ensures (State(), answer) == ActUnload(old(State()), reply)
    {
      SendToScheduler(Scheduling.Stop);
      schedulerTx := None;
      if !reply.closeOk {
        return Err(SourceFailed);
      }
      sourceMetadata, filePath, fileType := None, "", "";
      packetsPublished, currentTimestampNs, recentPackets := 0, 0, [];
      return Ok(None);
    }

    method PerformAction(command: ReplayCommand, reply: SourceReply) returns (answer: Answer)
      requires Wired(State())
      modifies this
      ensures (State(), answer) == Act(old(State()), command, reply)
    {
      hide Send, ActLoad, ActSeek, ActStop, ActUnload;
      answer := Ok(None);
      match command {
        case LoadFile(path, kind, stage) =>
          answer := LoadSource(path, kind, stage, reply);
        case Start(newSpeed, looping) =>
          speed, loopEnabled := newSpeed, looping;
          channels, schedulerTx := channels + [Channel(newSpeed, looping, [])], Some(|channels|);
        case Pause =>
          SendToScheduler(Scheduling.Pause);
        case Resume =>
          SendToScheduler(Scheduling.Resume);
        case Seek(timestamp) =>
          answer := SeekSource(timestamp, reply);
        case Stop =>
          StopSession();
        case UnloadFile =>
          answer := UnloadSource(reply);
        case SetSpeed(newSpeed) =>
          speed := newSpeed;
          SendToScheduler(Scheduling.SetSpeed(newSpeed));
        case SetLoop(enabled) =>
          loopEnabled := enabled;
          SendToScheduler(Scheduling.SetLoop(enabled));
      }
    }

    method ExecuteCommand(command: ReplayCommand, reply: SourceReply) returns (answer: Answer)
      requires Wired(State())
      modifies this, stateMachine
      ensures (State(), answer) == Execute(old(State()), command, reply)
    {
      hide Act;
      var next := NextState(stateMachine.current, command);
      if next.Err? {
        return Err(next.error);
      }
      answer := PerformAction(command, reply);
      if answer.Ok? {
        stateMachine.SetState(next.value);
      }
    }

    method HandleNotification(notification: Notification)
      requires Wired(State())
      modifies this, stateMachine
      ensures State() == Notified(old(State()), notification)
    {
      match notification {
        case PacketPublished(packet) =>
          packetsPublished, currentTimestampNs := packet.sequenceNumber, packet.timestampNs;
          recentPackets := recentPackets + [packet];
          if |recentPackets| > RECENT_LIMIT {
            recentPackets := recentPackets[1..];
          }
        case Eof =>
          stateMachine.SetState(COMPLETED);
          schedulerTx := None;
        case FatalError =>
          stateMachine.SetState(ERROR);
          schedulerTx := None;
      }
    }
  }

  /* Runs */

  // What takes the lock next: a command, or a report of any scheduler ever started, named by its
  // channel, though the listener does not look at that.
  datatype Input = Do(command: ReplayCommand, reply: SourceReply) | Report(channel: nat, notification: Notification)

  function React(o: Orchestrator, input: Input): (p: Orchestrator)
    requires Wired(o)
    ensures Wired(p)
  {
    match input
    case Do(command, reply) => Execute(o, command, reply).0
    case Report(_, notification) => Notified(o, notification)
  }

  function After(inputs: seq<Input>): (o: Orchestrator)
    ensures Wired(o)
    decreases |inputs|
  {
    if inputs == [] then IDLE_ORCHESTRATOR else React(After(inputs[..|inputs| - 1]), inputs[|inputs| - 1])
  }

  /* The channel and the state agree */

  predicate Active(state: PlaybackState) { state == RUNNING || state == PAUSED }

  // Where a scheduler is that has obeyed these commands; Lost after one it should not have got.
  datatype Phase = Playing | Waiting | Done | Lost

  function Obeyed(phase: Phase, command: Scheduling.Command): Phase {
    match (phase, command)
    case (Playing, Pause) => Waiting
    case (Playing, Stop) => Done
    case (Playing, SetSpeed(_)) => Playing
    case (Playing, SetLoop(_)) => Playing
    case (Waiting, Resume) => Playing
    case (Waiting, Stop) => Done
    case (Waiting, Seek(_)) => Waiting
    case (Waiting, SetSpeed(_)) => Waiting
    case (Waiting, SetLoop(_)) => Waiting
    case _ => Lost
  }

  function PhaseOf(sent: seq<Scheduling.Command>): Phase
    decreases |sent|
  {
    if sent == [] then Playing else Obeyed(PhaseOf(sent[..|sent| - 1]), sent[|sent| - 1])
  }

  function SpeedOf(channel: Channel): real
    decreases |channel.sent|
  {
    if channel.sent == [] then channel.speed
    else
      var last := channel.sent[|channel.sent| - 1];
      if last.SetSpeed? then last.speed else SpeedOf(channel.(sent := channel.sent[..|channel.sent| - 1]))
  }

  function LoopingOf(channel: Channel): bool
    decreases |channel.sent|
  {
    if channel.sent == [] then channel.looping
    else
      var last := channel.sent[|channel.sent| - 1];
      if last.SetLoop? then last.enabled else LoopingOf(channel.(sent := channel.sent[..|channel.sent| - 1]))
  }

  // The scheduler behind the held channel is in step with the orchestrator.
  ghost predicate InStep(channel: Channel, state: PlaybackState, speed: real, looping: bool) {
    && PhaseOf(channel.sent) == (if state == PAUSED then Waiting else Playing)
    && SpeedOf(channel) == speed && LoopingOf(channel) == looping
  }

  ghost predicate Coherent(o: Orchestrator) {
    && (o.scheduler.Some? <==> Active(o.state))
    && (o.scheduler.Some? ==>
          o.scheduler.value == |o.channels| - 1 && InStep(o.channels[o.scheduler.value], o.state, o.speed, o.looping))
    && (forall i :: 0 <= i < |o.channels| ==> PhaseOf(o.channels[i].sent) != Lost)
  }

  lemma SentOne(channel: Channel, command: Scheduling.Command)
    ensures
      var longer := channel.(sent := channel.sent + [command]);
      && PhaseOf(longer.sent) == Obeyed(PhaseOf(channel.sent), command)
      && SpeedOf(longer) == (if command.SetSpeed? then command.speed else SpeedOf(channel))
      && LoopingOf(longer) == (if command.SetLoop? then command.enabled else LoopingOf(channel))
  {
    assert (channel.sent + [command])[..|channel.sent|] == channel.sent;
  }

  lemma CommandKeepsCoherent(o: Orchestrator, command: ReplayCommand, reply: SourceReply)
    requires Wired(o) && Coherent(o)
    ensures Coherent(Execute(o, command, reply).0)
  {
    hide PhaseOf, SpeedOf, LoopingOf;
    StartsPlaying(o.speed, o.looping);
    if command.Start? {
      StartsPlaying(command.speed, command.loopEnabled);
    }
    if o.scheduler.Some? {
      var channel := o.channels[o.scheduler.value];
      match command
      case Pause => SentOne(channel, Scheduling.Pause);
      case Resume => SentOne(channel, Scheduling.Resume);
      case Seek(timestamp) => SentOne(channel, Scheduling.Seek(timestamp));
      case Stop => SentOne(channel, Scheduling.Stop);
      case SetSpeed(speed) => SentOne(channel, Scheduling.SetSpeed(speed));
      case SetLoop(enabled) => SentOne(channel, Scheduling.SetLoop(enabled));
      case _ =>
    }
  }

  lemma StartsPlaying(speed: real, looping: bool)
    ensures
      var channel := Channel(speed, looping, []);
      PhaseOf(channel.sent) == Playing && SpeedOf(channel) == speed && LoopingOf(channel) == looping
  {}

  // Whatever commands come, failing ones among them, and whatever any scheduler reports and when: a
  // channel is held exactly while running or paused, it is the newest, its scheduler has been told
  // the state, speed and loop flag in force, and no scheduler is ever sent a command out of turn.
  lemma {:induction false} AlwaysCoherent(inputs: seq<Input>)
    ensures Coherent(After(inputs))
    decreases |inputs|
  {
    hide Execute, InStep, PhaseOf;
    if inputs != [] {
      var o, last := After(inputs[..|inputs| - 1]), inputs[|inputs| - 1];
      AlwaysCoherent(inputs[..|inputs| - 1]);
      if last.Do? {
        CommandKeepsCoherent(o, last.command, last.reply);
      }
    }
  }

  // An accepted start finds no channel held: no scheduler is cut off by it.
  lemma StartFindsNoChannel(inputs: seq<Input>, command: ReplayCommand)
    requires command.Start? && NextState(After(inputs).state, command).Ok?
    ensures After(inputs).scheduler.None?
  {
    hide After, InStep, PhaseOf;
    AlwaysCoherent(inputs);
  }

  // A command that fails leaves everything as it was.
  lemma FailureChangesNothing(inputs: seq<Input>, command: ReplayCommand, reply: SourceReply)
    requires Execute(After(inputs), command, reply).1.Err?
    ensures Execute(After(inputs), command, reply).0 == After(inputs)
  {
    hide After, InStep, PhaseOf;
    AlwaysCoherent(inputs);
  }

  lemma SendWrites(o: Orchestrator, command: Scheduling.Command, i: nat)
    requires Wired(o) && i < |o.channels|
    ensures
      var p := Send(o, command);
      && |p.channels| == |o.channels| && p.scheduler == o.scheduler
      && (o.scheduler != Some(i) ==> p.channels[i] == o.channels[i])
      && o.channels[i].sent <= p.channels[i].sent
  {}

  lemma ActKeepsOthers(o: Orchestrator, command: ReplayCommand, reply: SourceReply, i: nat)
    requires Wired(o) && i < |o.channels|
    ensures
      var p := Act(o, command, reply).0;
      && i < |p.channels|
      && (o.scheduler != Some(i) ==> p.channels[i] == o.channels[i] && p.scheduler != Some(i))
      && o.channels[i].sent <= p.channels[i].sent
  {
    hide Send;
    match command
    case Pause => SendWrites(o, Scheduling.Pause, i);
    case Resume => SendWrites(o, Scheduling.Resume, i);
    case Seek(timestamp) => SendWrites(o, Scheduling.Seek(timestamp), i);
    case Stop => SendWrites(o, Scheduling.Stop, i);
    case UnloadFile => SendWrites(o, Scheduling.Stop, i);
    case SetSpeed(speed) => SendWrites(o.(speed := speed), Scheduling.SetSpeed(speed), i);
    case SetLoop(enabled) => SendWrites(o.(looping := enabled), Scheduling.SetLoop(enabled), i);
    case _ =>
  }

  // A channel that is not held is never written to again, and never held again.
  lemma OnlyTheHeldChannelGrows(o: Orchestrator, input: Input, i: nat)
    requires Wired(o) && i < |o.channels|
    ensures
      var p := React(o, input);
      && i < |p.channels|
      && (o.scheduler != Some(i) ==> p.channels[i] == o.channels[i] && p.scheduler != Some(i))
      && o.channels[i].sent <= p.channels[i].sent
  {
    hide Act, NextState;
    if input.Do? {
      ActKeepsOthers(o, input.command, input.reply, i);
    }
  }

  /* Whose end it is */

  predicate ReportsEnd(input: Input) { input.Report? && !input.notification.PacketPublished? }

  // The held session is over: stopped, or taken to have ended.
  lemma SessionEndsIff(inputs: seq<Input>, input: Input)
    requires After(inputs).scheduler.Some?
    ensures React(After(inputs), input).scheduler != After(inputs).scheduler <==>
      ReportsEnd(input) || (input.Do? && input.command.Stop?)
  {
    hide After, InStep, PhaseOf;
    AlwaysCoherent(inputs);
  }

  // A session that is over was stopped, or its own scheduler reported the end.
  predicate OverByItself(o: Orchestrator, input: Input)
    requires Wired(o)
  {
    o.scheduler.Some? && input.Report? && React(o, input).scheduler != o.scheduler ==>
      o.scheduler == Some(input.channel)
  }

  predicate AllOverByThemselves(inputs: seq<Input>)
    decreases |inputs|
  {
    inputs != [] ==>
      var init := inputs[..|inputs| - 1];
      OverByItself(After(init), inputs[|inputs| - 1]) && AllOverByThemselves(init)
  }

  // While a session runs or pauses, only the scheduler started last reports an end.
  predicate OnlyNewestEnds(inputs: seq<Input>)
    decreases |inputs|
  {
    inputs != [] ==>
      var init, last := inputs[..|inputs| - 1], inputs[|inputs| - 1];
      && (Active(After(init).state) && ReportsEnd(last) ==> last.channel == |After(init).channels| - 1)
      && OnlyNewestEnds(init)
  }

  // Every session of a run ends by itself or is stopped, if and only if no earlier scheduler reports
  // its end into a later session.
  lemma {:induction false} AllOverByThemselvesIff(inputs: seq<Input>)
    ensures AllOverByThemselves(inputs) <==> OnlyNewestEnds(inputs)
    decreases |inputs|
  {
    hide React, After, InStep, PhaseOf;
    if inputs != [] {
      var init, last := inputs[..|inputs| - 1], inputs[|inputs| - 1];
      AllOverByThemselvesIff(init);
      AlwaysCoherent(init);
      if After(init).scheduler.Some? {
        SessionEndsIff(init, last);
      }
    }
  }

  // It can happen: after a stop and a new start, the end of the first session completes the second,
  // whose scheduler has been told nothing.
  lemma LateEndEndsTheNext(reply: SourceReply)
    requires reply.openReply.Ok?
    ensures
      var load, start, stop :=
        Do(LoadFile("a.bin", "binary", 1), reply), Do(Start(1.0, false), reply), Do(Stop, reply);
      var o := After([load, start, stop, start, Report(0, Eof)]);
      && o.state == COMPLETED && o.scheduler.None? && |o.channels| == 2 && o.channels[1].sent == []
  {
    hide React;
    var load, start, stop :=
      Do(LoadFile("a.bin", "binary", 1), reply), Do(Start(1.0, false), reply), Do(Stop, reply);
    AfterFour(load, start, stop, start);
    AfterOne([load, start, stop, start], Report(0, Eof));
    assert [load, start, stop, start] + [Report(0, Eof)] == [load, start, stop, start, Report(0, Eof)];
    Restarted(IDLE_ORCHESTRATOR, reply);
    EndReported(After([load, start, stop, start]));
  }

  lemma Restarted(o: Orchestrator, reply: SourceReply)
    requires Wired(o) && o.state == IDLE && o.channels == [] && reply.openReply.Ok?
    ensures
      var started := React(React(o, Do(LoadFile("a.bin", "binary", 1), reply)), Do(Start(1.0, false), reply));
      var again := React(React(started, Do(Stop, reply)), Do(Start(1.0, false), reply));
      |again.channels| == 2 && again.channels[1].sent == []
  {}

  lemma EndReported(o: Orchestrator)
    requires Wired(o)
    ensures
      var over := React(o, Report(0, Eof));
      over.state == COMPLETED && over.scheduler.None? && over.channels == o.channels
  {}

  /* The loaded file and the state */

  predicate Loaded(o: Orchestrator) { o.metadata.Some? <==> o.state != IDLE }

  // The end of a session that was stopped and unloaded before its report got the lock.
  predicate LateEnd(o: Orchestrator, input: Input) {
    o.state == IDLE && ReportsEnd(input)
  }

  lemma StaysLoadedIff(o: Orchestrator, input: Input)
    requires Wired(o) && Loaded(o)
    ensures Loaded(React(o, input)) <==> !LateEnd(o, input)
  {}

  // At the end of a run and at every earlier point of it.
  predicate AlwaysLoaded(inputs: seq<Input>)
    decreases |inputs|
  {
    Loaded(After(inputs)) && (inputs != [] ==> AlwaysLoaded(inputs[..|inputs| - 1]))
  }

  predicate NoLateEnd(inputs: seq<Input>)
    decreases |inputs|
  {
    inputs != [] ==>
      var init := inputs[..|inputs| - 1];
      !LateEnd(After(init), inputs[|inputs| - 1]) && NoLateEnd(init)
  }

  // All through a run, a file's metadata is there exactly in the states that speak of a loaded file,
  // if and only if no end of a session is reported while idle.
  lemma {:induction false} AlwaysLoadedIff(inputs: seq<Input>)
    ensures AlwaysLoaded(inputs) <==> NoLateEnd(inputs)
    decreases |inputs|
  {
    hide React, LateEnd;
    if inputs != [] {
      var init := inputs[..|inputs| - 1];
      AlwaysLoadedIff(init);
      if Loaded(After(init)) {
        StaysLoadedIff(After(init), inputs[|inputs| - 1]);
      }
    }
  }

  // It can happen: the end of a stopped session is reported after the file was unloaded; playback
  // then counts as completed, and even starts again, with no file.
  lemma LateEndRevives(metadata: FileReader.SourceMetadata)
    ensures
      var reply := SourceReply(Ok(metadata), true, true);
      var load, start, stop, unload :=
        Do(LoadFile("a.bin", "binary", 1), reply), Do(Start(1.0, false), reply), Do(Stop, reply), Do(UnloadFile, reply);
      var idle := After([load, start, stop, unload]);
      var revived := React(React(idle, Report(0, Eof)), start);
      && LateEnd(idle, Report(0, Eof)) && revived.state == RUNNING && revived.metadata.None?
  {
    hide React;
    var reply := SourceReply(Ok(metadata), true, true);
    var load, start, stop, unload :=
      Do(LoadFile("a.bin", "binary", 1), reply), Do(Start(1.0, false), reply), Do(Stop, reply), Do(UnloadFile, reply);
    AfterFour(load, start, stop, unload);
    StartedAndUnloaded(IDLE_ORCHESTRATOR, reply);
    Revived(After([load, start, stop, unload]), reply);
  }

  lemma StartedAndUnloaded(o: Orchestrator, reply: SourceReply)
    requires Wired(o) && o.state == IDLE && reply.openReply.Ok? && reply.closeOk
    ensures
      var loaded := React(o, Do(LoadFile("a.bin", "binary", 1), reply));
      var idle := React(React(React(loaded, Do(Start(1.0, false), reply)), Do(Stop, reply)), Do(UnloadFile, reply));
      idle.state == IDLE && idle.metadata.None?
  {}

  lemma Revived(o: Orchestrator, reply: SourceReply)
    requires Wired(o) && o.state == IDLE && o.metadata.None?
    ensures
      var revived := React(React(o, Report(0, Eof)), Do(Start(1.0, false), reply));
      revived.state == RUNNING && revived.metadata.None?
  {}

  lemma AfterFour(a: Input, b: Input, c: Input, d: Input)
    ensures After([a, b, c, d]) == React(React(React(React(IDLE_ORCHESTRATOR, a), b), c), d)
  {
    hide React;
    AfterOne([], a);
    AfterOne([a], b);
    AfterOne([a, b], c);
    AfterOne([a, b, c], d);
    assert [] + [a] == [a] && [a] + [b] == [a, b] && [a, b] + [c] == [a, b, c] && [a, b, c] + [d] == [a, b, c, d];
  }

  lemma AfterOne(inputs: seq<Input>, input: Input)
    ensures After(inputs + [input]) == React(After(inputs), input)
  {
    hide React;
    assert (inputs + [input])[..|inputs|] == inputs;
  }

  /* The recent packets */

  function LastOf<T>(log: seq<T>, limit: nat): (r: seq<T>)
    ensures |r| <= limit && |r| <= |log|
  {
    if |log| > limit then log[|log| - limit..] else log
  }

  // Every packet reported since the last load or unload that succeeded.
  function Reported(inputs: seq<Input>): seq<RecentPacket>
    decreases |inputs|
  {
    if inputs == [] then []
    else
      var init, last := inputs[..|inputs| - 1], inputs[|inputs| - 1];
      match last
      case Report(_, PacketPublished(packet)) => Reported(init) + [packet]
      case Report(_, _) => Reported(init)
      case Do(command, reply) =>
        if (command.LoadFile? || command.UnloadFile?) && Execute(After(init), command, reply).1.Ok? then []
        else Reported(init)
  }

  // The list shows the last hundred of them, in order.
  lemma {:induction false} RecentAreTheLast(inputs: seq<Input>)
    ensures After(inputs).recent == LastOf(Reported(inputs), RECENT_LIMIT)
    decreases |inputs|
  {
    hide Execute, LastOf;
    if inputs == [] {
      EmptyLog<RecentPacket>(RECENT_LIMIT);
    } else {
      var init, last := inputs[..|inputs| - 1], inputs[|inputs| - 1];
      RecentAreTheLast(init);
      EmptyLog<RecentPacket>(RECENT_LIMIT);
      match last
      case Do(command, reply) => CommandOnRecent(After(init), command, reply);
      case Report(_, PacketPublished(packet)) => LogOne(Reported(init), packet, RECENT_LIMIT);
      case Report(_, _) =>
    }
  }

  lemma CommandOnRecent(o: Orchestrator, command: ReplayCommand, reply: SourceReply)
    requires Wired(o)
    ensures
      var (p, answer) := Execute(o, command, reply);
      p.recent == if (command.LoadFile? || command.UnloadFile?) && answer.Ok? then [] else o.recent
  {}

  lemma EmptyLog<T>(limit: nat)
    ensures LastOf<T>([], limit) == []
  {}

  lemma LogOne<T>(log: seq<T>, x: T, limit: nat)
    requires limit > 0
    ensures
      var longer := LastOf(log, limit) + [x];
      LastOf(log + [x], limit) == if |longer| > limit then longer[1..] else longer
  {}
}
