/** What the orchestrator is after a run, told from the run alone: which commands went down which
    channel, and which input each of its fields was last set by. */
module OrchestratorHistory {
  import opened Prelude
  import FileReader
  import opened ReplayOrchestrator
  import Scheduling = ReplayScheduler

  /* Which commands take effect */

  // Accepted in this state, and not failed by the source; a seek asks the source only between sessions.
  predicate Succeeds(state: PlaybackState, command: ReplayCommand, reply: SourceReply) {
    NextState(state, command).Ok? &&
    match command
    case LoadFile(_, _, _) => reply.openReply.Ok?
    case UnloadFile => reply.closeOk
    case Seek(_) => state in {RUNNING, PAUSED} || reply.seekOk
    case _ => true
  }

  predicate Effective(state: PlaybackState, input: Input) {
    input.Do? && Succeeds(state, input.command, input.reply)
  }

  function StateAfter(inputs: seq<Input>): PlaybackState {
    if inputs == [] then IDLE
    else
      var before, last := StateAfter(inputs[..|inputs| - 1]), inputs[|inputs| - 1];
      match last
      case Report(_, PacketPublished(_)) => before
      case Report(_, Eof) => COMPLETED
      case Report(_, FatalError) => ERROR
      case Do(command, reply) => if Succeeds(before, command, reply) then NextState(before, command).value else before
  }

  /* What was sent */

  function Translated(command: ReplayCommand): seq<Scheduling.Command> {
    match command
    case Pause => [Scheduling.Pause]
    case Resume => [Scheduling.Resume]
    case Seek(timestamp) => [Scheduling.Seek(timestamp)]
    case Stop => [Scheduling.Stop]
    case SetSpeed(speed) => [Scheduling.SetSpeed(speed)]
    case SetLoop(enabled) => [Scheduling.SetLoop(enabled)]
    case _ => []
  }

  // Every start opens a channel; while that session runs or pauses, each effective command goes down it.
  function ChannelLog(inputs: seq<Input>): seq<Channel> {
    if inputs == [] then []
    else
      var init := inputs[..|inputs| - 1];
      Logged(ChannelLog(init), StateAfter(init), inputs[|inputs| - 1])
  }

  function Logged(log: seq<Channel>, state: PlaybackState, input: Input): seq<Channel> {
    if !Effective(state, input) then log
    else if input.command.Start? then log + [Channel(input.command.speed, input.command.loopEnabled, [])]
    else if log != [] && state in {RUNNING, PAUSED} then Extended(log, Translated(input.command))
    else log
  }

  function Extended(log: seq<Channel>, commands: seq<Scheduling.Command>): seq<Channel>
    requires log != []
  {
    var n := |log| - 1;
    log[..n] + [Channel(log[n].speed, log[n].looping, log[n].sent + commands)]
  }

  // The channels are those of the started sessions, and each has been sent, in order and with their
  // arguments, the commands that took effect while its session ran or was paused.
  lemma {:induction false} ChannelsAreLog(inputs: seq<Input>)
    ensures After(inputs).state == StateAfter(inputs) && After(inputs).channels == ChannelLog(inputs)
  {
    hide InStep, PhaseOf, React;
    if inputs != [] {
      var init, last := inputs[..|inputs| - 1], inputs[|inputs| - 1];
      ChannelsAreLog(init);
      AlwaysCoherent(init);
      ReactState(After(init), last);
      ReactChannels(After(init), last);
    }
  }

  lemma ReactState(o: Orchestrator, input: Input)
    requires Wired(o) && Coherent(o)
    ensures React(o, input).state ==
      match input
      case Report(_, PacketPublished(_)) => o.state
      case Report(_, Eof) => COMPLETED
      case Report(_, FatalError) => ERROR
      case Do(command, reply) =>
        if Succeeds(o.state, command, reply) then NextState(o.state, command).value else o.state
  {
    hide InStep, PhaseOf, Send;
  }

  lemma ReactChannels(o: Orchestrator, input: Input)
    requires Wired(o) && Coherent(o)
    ensures React(o, input).channels == Logged(o.channels, o.state, input)
  {
    hide InStep, PhaseOf, Send, Extended;
    if input.Do? && NextState(o.state, input.command).Ok? {
      match input.command
      case Pause => SendExtends(o, Scheduling.Pause);
      case Resume => SendExtends(o, Scheduling.Resume);
      case Seek(timestamp) => SendExtends(o, Scheduling.Seek(timestamp));
      case Stop => SendExtends(o, Scheduling.Stop);
      case UnloadFile => SendExtends(o, Scheduling.Stop);
      case SetSpeed(speed) => SendExtends(o.(speed := speed), Scheduling.SetSpeed(speed));
      case SetLoop(enabled) => SendExtends(o.(looping := enabled), Scheduling.SetLoop(enabled));
      case _ =>
    }
  }

  lemma SendExtends(o: Orchestrator, command: Scheduling.Command)
    requires Wired(o) && (o.scheduler.Some? ==> o.scheduler.value == |o.channels| - 1)
    ensures Send(o, command).channels == if o.scheduler.None? then o.channels else Extended(o.channels, [command])
  {}

  /* What the fields were last set by */

  // What the latest input that gives a value gave, in the state in which it came.
  function Latest<T>(inputs: seq<Input>, gives: (PlaybackState, Input) -> Option<T>, otherwise: T): T {
    if inputs == [] then otherwise
    else
      var init, last := inputs[..|inputs| - 1], inputs[|inputs| - 1];
      var given := gives(StateAfter(init), last);
      if given.Some? then given.value else Latest(init, gives, otherwise)
  }

  function SpeedGiven(state: PlaybackState, input: Input): Option<real> {
    if !Effective(state, input) then None
    else if input.command.Start? then Some(input.command.speed)
    else if input.command.SetSpeed? then Some(input.command.speed)
    else None
  }

  function LoopGiven(state: PlaybackState, input: Input): Option<bool> {
    if !Effective(state, input) then None
    else if input.command.Start? then Some(input.command.loopEnabled)
    else if input.command.SetLoop? then Some(input.command.enabled)
    else None
  }

  // The file in use: path, type, stage and what opening it reported.
  datatype Source = Source(path: string, kind: string, stage: int, metadata: FileReader.SourceMetadata)

  function SourceGiven(state: PlaybackState, input: Input): Option<Option<Source>> {
    if !Effective(state, input) then None
    else
      match input.command
      case LoadFile(path, kind, stage) => Some(Some(Source(path, kind, stage, input.reply.openReply.value)))
      case UnloadFile => Some(None)
      case _ => None
  }

  function StageGiven(state: PlaybackState, input: Input): Option<int> {
    if Effective(state, input) && input.command.LoadFile? then Some(input.command.targetStage) else None
  }

  // The sequence number last published, unless a load, a stop or an unload came after it.
  function CountGiven(state: PlaybackState, input: Input): Option<nat> {
    match input
    case Report(_, PacketPublished(packet)) => Some(packet.sequenceNumber)
    case Report(_, _) => None
    case Do(command, _) =>
      if Effective(state, input) && (command.LoadFile? || command.Stop? || command.UnloadFile?) then Some(0) else None
  }

  // The timestamp shown: that of the last packet published, the target of a seek, or the recorded start
  // of the file after a load or a stop.
  function TimestampShown(inputs: seq<Input>): nat {
    if inputs == [] then 0
    else
      var init, last := inputs[..|inputs| - 1], inputs[|inputs| - 1];
      match last
      case Report(_, PacketPublished(packet)) => packet.timestampNs
      case Report(_, _) => TimestampShown(init)
      case Do(command, reply) =>
        if !Effective(StateAfter(init), last) then TimestampShown(init)
        else
          match command
          case LoadFile(_, _, _) => reply.openReply.value.startTimestampNs
          case Seek(timestamp) => timestamp
          case Stop =>
            var source := Latest(init, SourceGiven, None);
            if source.Some? then source.value.metadata.startTimestampNs else TimestampShown(init)
          case UnloadFile => 0
          case _ => TimestampShown(init)
  }

  // Whatever came, in whatever order: what the status shows was last set by these inputs.
  lemma {:induction false} StatusIsLatest(inputs: seq<Input>)
    ensures
      var o, source := After(inputs), Latest(inputs, SourceGiven, None);
      && o.speed == Latest(inputs, SpeedGiven, 1.0) && o.looping == Latest(inputs, LoopGiven, false)
      && o.metadata == (if source.None? then None else Some(source.value.metadata))
      && o.filePath == (if source.None? then "" else source.value.path)
      && o.fileType == (if source.None? then "" else source.value.kind)
      && o.targetStage == Latest(inputs, StageGiven, 0)
      && o.packetsPublished == Latest(inputs, CountGiven, 0)
      && o.currentTimestampNs == TimestampShown(inputs)
  {
    hide InStep, PhaseOf, React, Coherent;
    if inputs != [] {
      var init, last := inputs[..|inputs| - 1], inputs[|inputs| - 1];
      StatusIsLatest(init);
      AlwaysCoherent(init);
      ChannelsAreLog(init);
      ReactSettings(After(init), last);
      ReactSource(After(init), last);
      ReactStatus(After(init), last);
    }
  }

  lemma ReactSettings(o: Orchestrator, input: Input)
    requires Wired(o) && Coherent(o)
    ensures
      var p, speed, looping := React(o, input), SpeedGiven(o.state, input), LoopGiven(o.state, input);
      && p.speed == (if speed.Some? then speed.value else o.speed)
      && p.looping == (if looping.Some? then looping.value else o.looping)
  {
    hide InStep, PhaseOf, Send;
  }

  lemma MovesKeepFile(o: Orchestrator, input: Input)
    requires Wired(o) && input.Do? && (input.command.Seek? || input.command.Stop?)
    ensures
      var p := React(o, input);
      && p.metadata == o.metadata && p.filePath == o.filePath && p.fileType == o.fileType
      && p.targetStage == o.targetStage
  {
    hide InStep, PhaseOf, Send;
  }

  lemma ReactSource(o: Orchestrator, input: Input)
    requires Wired(o) && Coherent(o)
    ensures
      var p, given, stage := React(o, input), SourceGiven(o.state, input), StageGiven(o.state, input);
      && p.targetStage == (if stage.Some? then stage.value else o.targetStage)
      && if given.None? then p.metadata == o.metadata && p.filePath == o.filePath && p.fileType == o.fileType
         else if given.value.None? then p.metadata == None && p.filePath == "" && p.fileType == ""
         else
           && p.metadata == Some(given.value.value.metadata)
           && p.filePath == given.value.value.path && p.fileType == given.value.value.kind
  {
    hide InStep, PhaseOf, Send, ActSeek, ActStop;
    if input.Do? && (input.command.Seek? || input.command.Stop?) {
      MovesKeepFile(o, input);
    }
  }

  lemma ReactStatus(o: Orchestrator, input: Input)
    requires Wired(o) && Coherent(o)
    ensures
      var p, count := React(o, input), CountGiven(o.state, input);
      && p.packetsPublished == (if count.Some? then count.value else o.packetsPublished)
      && p.currentTimestampNs ==
         match input
         case Report(_, PacketPublished(packet)) => packet.timestampNs
         case Report(_, _) => o.currentTimestampNs
         case Do(command, reply) =>
           if !Effective(o.state, input) then o.currentTimestampNs
           else
             match command
             case LoadFile(_, _, _) => reply.openReply.value.startTimestampNs
             case Seek(timestamp) => timestamp
             case Stop => if o.metadata.Some? then o.metadata.value.startTimestampNs else o.currentTimestampNs
             case UnloadFile => 0
             case _ => o.currentTimestampNs
  {
    hide InStep, PhaseOf, Send;
  }

  /* What a command answers */

  // A command that the state forbids is refused as such; one that the source fails says so; a load
  // answers with what opening the file reported, and nothing else answers anything.
  lemma AnswerIs(inputs: seq<Input>, command: ReplayCommand, reply: SourceReply)
    ensures Execute(After(inputs), command, reply).1 ==
      if NextState(StateAfter(inputs), command).Err? then Err(InvalidTransition)
      else if !Succeeds(StateAfter(inputs), command, reply) then Err(SourceFailed)
      else if command.LoadFile? then Ok(Some(reply.openReply.value))
      else Ok(None)
  {
    hide After, InStep, PhaseOf, Send;
    AlwaysCoherent(inputs);
    ChannelsAreLog(inputs);
  }
}
