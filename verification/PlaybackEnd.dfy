/** What is left to play when a recording has ended: the reader that all sessions share, between them. */
module PlaybackEnd {
  import opened Prelude
  import opened ReplayOrchestrator
  import opened FileReader
  import Scheduling = ReplayScheduler

  /* Where a session leaves the reader */

  // A session that reports the end has read everything, and is over.
  lemma {:induction false} EofLeavesEnd(
    session: Scheduling.Session, speed: real, looping: bool, start: nat, script: seq<Scheduling.Turn>)
    requires Scheduling.ValidSession(session)
    ensures
      var r := Scheduling.Exec(session, Scheduling.Begin(session, speed, looping, start), script);
      Scheduling.Eof in r.events ==> !r.state.running && r.state.position == |session.times|
    decreases |script|
  {
    hide Scheduling.Begin, Scheduling.Step;
    if script != [] {
      var init, turn := script[..|script| - 1], script[|script| - 1];
      EofLeavesEnd(session, speed, looping, start, init);
      var before := Scheduling.Exec(session, Scheduling.Begin(session, speed, looping, start), init);
      EofAtEnd(session, before.state, turn);
    }
  }

  lemma EofAtEnd(session: Scheduling.Session, s: Scheduling.Scheduler, turn: Scheduling.Turn)
    requires Scheduling.Consistent(session, s)
    ensures
      var r := Scheduling.Step(session, s, turn);
      && (Scheduling.Eof in r.events ==> !r.state.running && r.state.position == |session.times|)
      && (!s.running ==> r == Scheduling.Outcome(s, []))
  {
    if s.running && !s.paused {
      var t := Scheduling.Later(s, turn.overhead);
      if t.current.Some? {
        AwaitNoEof(session, t, turn);
      } else {
        var fetched := Scheduling.Fetch(session, t, turn.fault);
        if fetched.state.running && fetched.state.current.Some? {
          AwaitNoEof(session, fetched.state, turn);
        }
      }
    }
  }

  lemma AwaitNoEof(session: Scheduling.Session, s: Scheduling.Scheduler, turn: Scheduling.Turn)
    requires Scheduling.Consistent(session, s) && s.current.Some?
    ensures Scheduling.Eof !in Scheduling.Await(session, s, turn).events
  {}

  /* The reader between sessions */

  // The open file's timestamps, where the reader stands, and the entry it finds for a timestamp.
  datatype Reader = Reader(times: seq<nat>, position: nat, seek: nat -> nat)

  predicate Accepted(o: Orchestrator, input: Input) { input.Do? && NextState(o.state, input.command).Ok? }

  // What an input does to the reader while no session moves it; `loaded` is the reader of a file
  // that is opened. Stopping rewinds to the recorded start.
  function ReaderAfter(reader: Option<Reader>, o: Orchestrator, input: Input, loaded: Reader): Option<Reader> {
    if !Accepted(o, input) then reader
    else
      match input.command
      case LoadFile(_, _, _) => if input.reply.openReply.Ok? then Some(loaded) else reader
      case UnloadFile => if input.reply.closeOk then None else reader
      case Stop => if o.metadata.Some? then Sought(reader, o.metadata.value.startTimestampNs) else reader
      case Seek(timestamp) => if o.scheduler.None? then Sought(reader, timestamp) else reader
      case _ => reader
  }

  function Sought(reader: Option<Reader>, timestamp: nat): Option<Reader> {
    if reader.None? then None else Some(reader.value.(position := reader.value.seek(timestamp)))
  }

  // An index is never empty, and seeks go where its search allows.
  ghost predicate Indexed(reader: Reader) { reader.times != [] && Scheduling.SeeksOver(SessionOver(reader)) }

  function SessionOver(reader: Reader): Scheduling.Session {
    Scheduling.Session(reader.times, reader.position, reader.seek)
  }

  predicate NothingLeft(reader: Option<Reader>) { reader.Some? ==> reader.value.position == |reader.value.times| }

  // Whatever session is started here does nothing but report the end.
  ghost predicate PlaysNothing(reader: Reader)
    requires Indexed(reader) && reader.position <= |reader.times|
  {
    forall fault, speed, looping, start: nat, script ::
      Scheduling.Played(SessionOver(reader), reader.position, fault, speed, looping, start, script) == [Scheduling.Eof]
  }

  lemma PlaysNothingIff(reader: Reader)
    requires Indexed(reader) && reader.position <= |reader.times|
    ensures PlaysNothing(reader) <==> NothingLeft(Some(reader))
  {
    assert reader.position < |reader.times| ==>
      Scheduling.Played(SessionOver(reader), reader.position, Scheduling.BrokenRead, 1.0, false, 0, []) ==
      [Scheduling.FatalError];
  }

  /* Runs after an end */

  datatype Desk = Desk(orchestrator: Orchestrator, reader: Option<Reader>)

  function Onwards(desk: Desk, inputs: seq<Input>, loaded: Reader): (d: Desk)
    requires Wired(desk.orchestrator)
    ensures Wired(d.orchestrator)
    decreases |inputs|
  {
    if inputs == [] then desk else Next(Onwards(desk, inputs[..|inputs| - 1], loaded), inputs[|inputs| - 1], loaded)
  }

  function Next(desk: Desk, input: Input, loaded: Reader): (d: Desk)
    requires Wired(desk.orchestrator)
    ensures Wired(d.orchestrator)
  {
    Desk(React(desk.orchestrator, input), ReaderAfter(desk.reader, desk.orchestrator, input, loaded))
  }

  // No entry is nearer to the timestamp.
  predicate Nearest(times: seq<nat>, position: nat, timestamp: nat) {
    position < |times| && forall k :: 0 <= k < |times| ==>
      Distance(times[position], timestamp) <= Distance(times[k], timestamp)
  }

  // A seek without a session takes the reader to an entry nearest to its timestamp, and a stop to one nearest
  // to the start of the recording.
  lemma SeeksToNearest(desk: Desk, input: Input, loaded: Reader)
    requires Wired(desk.orchestrator) && Accepted(desk.orchestrator, input)
    requires desk.reader.Some? && Indexed(desk.reader.value) && NonDecreasing(desk.reader.value.times)
    ensures input.command.Seek? && desk.orchestrator.scheduler.None? ==>
      var reader := Next(desk, input, loaded).reader;
      reader.Some? && Nearest(desk.reader.value.times, reader.value.position, input.command.targetTimestampNs)
    ensures input.command.Stop? && desk.orchestrator.metadata.Some? ==>
      var reader, start := Next(desk, input, loaded).reader, desk.orchestrator.metadata.value.startTimestampNs;
      reader.Some? && Nearest(desk.reader.value.times, reader.value.position, start)
  {
    hide React;
    var times, seek := desk.reader.value.times, desk.reader.value.seek;
    if input.command.Seek? {
      NearestIsNearest(times, input.command.targetTimestampNs, seek(input.command.targetTimestampNs));
    }
    if input.command.Stop? && desk.orchestrator.metadata.Some? {
      var start := desk.orchestrator.metadata.value.startTimestampNs;
      NearestIsNearest(times, start, seek(start));
    }
  }

  // The inputs that make something playable again: a file is opened, or a session is stopped.
  predicate Rewinding(desk: Desk, input: Input) {
    Accepted(desk.orchestrator, input) &&
    ((input.command.LoadFile? && input.reply.openReply.Ok?) || (input.command.Stop? && desk.reader.Some?))
  }

  ghost predicate NeverAnythingLeft(desk: Desk, inputs: seq<Input>, loaded: Reader)
    requires Wired(desk.orchestrator)
    decreases |inputs|
  {
    NothingLeft(Onwards(desk, inputs, loaded).reader) &&
    (inputs != [] ==> NeverAnythingLeft(desk, inputs[..|inputs| - 1], loaded))
  }

  ghost predicate NoneRewinds(desk: Desk, inputs: seq<Input>, loaded: Reader)
    requires Wired(desk.orchestrator)
    decreases |inputs|
  {
    inputs != [] ==>
      var init := inputs[..|inputs| - 1];
      NoneRewinds(desk, init, loaded) && !Rewinding(Onwards(desk, init, loaded), inputs[|inputs| - 1])
  }

  // Between a completion and the next rewind: commands reach the source only through a session that is
  // over.
  ghost predicate Over(desk: Desk) {
    var o := desk.orchestrator;
    && Wired(o) && Coherent(o) && NothingLeft(desk.reader)
    && (desk.reader.Some? <==> o.metadata.Some?)
    && (desk.reader.Some? ==> Indexed(desk.reader.value) && o.state != READY && o.state != STOPPED)
  }

  lemma StaysOverIff(desk: Desk, input: Input, loaded: Reader)
    requires Over(desk) && Indexed(loaded) && loaded.position == 0
    ensures Rewinding(desk, input) <==> !NothingLeft(Next(desk, input, loaded).reader)
    ensures !Rewinding(desk, input) ==> Over(Next(desk, input, loaded))
  {
    hide Indexed, InStep, PhaseOf, React;
    var o := desk.orchestrator;
    ReactKeepsCoherent(o, input);
    ReactKeepsFile(o, input);
    LoadedIsLeft(loaded);
    if desk.reader.Some? && o.metadata.Some? {
      SoughtIsLeft(desk.reader.value, o.metadata.value.startTimestampNs);
    }
  }

  lemma ReactKeepsCoherent(o: Orchestrator, input: Input)
    requires Wired(o) && Coherent(o)
    ensures Coherent(React(o, input))
  {
    hide Execute, InStep, PhaseOf;
    if input.Do? {
      CommandKeepsCoherent(o, input.command, input.reply);
    }
  }

  // What an input does to the loaded file, and how a state is reached in which seeks go to the source.
  lemma ReactKeepsFile(o: Orchestrator, input: Input)
    requires Wired(o)
    ensures
      var p := React(o, input);
      if Accepted(o, input) && input.command.LoadFile? && input.reply.openReply.Ok? then p.metadata.Some?
      else
        && (p.state == READY || p.state == STOPPED ==>
              p.state == o.state || p.metadata.None? || (Accepted(o, input) && input.command.Stop?))
        && if Accepted(o, input) && input.command.UnloadFile? && input.reply.closeOk then p.metadata.None?
           else p.metadata == o.metadata
  {}

  lemma LoadedIsLeft(loaded: Reader)
    requires Indexed(loaded) && loaded.position == 0
    ensures !NothingLeft(Some(loaded))
  {}

  lemma SoughtIsLeft(reader: Reader, timestamp: nat)
    requires Indexed(reader)
    ensures !NothingLeft(Sought(Some(reader), timestamp)) && Indexed(Sought(Some(reader), timestamp).value)
  {
    assert MayFind(reader.times, timestamp, reader.seek(timestamp));
  }

  lemma {:induction false} OverUntilRewound(desk: Desk, inputs: seq<Input>, loaded: Reader)
    requires Over(desk) && Indexed(loaded) && loaded.position == 0
    ensures NeverAnythingLeft(desk, inputs, loaded) <==> NoneRewinds(desk, inputs, loaded)
    ensures NoneRewinds(desk, inputs, loaded) ==> Over(Onwards(desk, inputs, loaded))
    decreases |inputs|
  {
    hide Next, Indexed, Rewinding, Coherent;
    if inputs != [] {
      var init := inputs[..|inputs| - 1];
      OverUntilRewound(desk, init, loaded);
      if NoneRewinds(desk, init, loaded) {
        StaysOverIff(Onwards(desk, init, loaded), inputs[|inputs| - 1], loaded);
      }
    }
  }

  // The reader that an ended session leaves behind.
  function LeftBy(session: Scheduling.Session, s: Scheduling.Scheduler): Reader {
    Reader(session.times, s.position, session.seek)
  }

  // A session has reported its end and playback is completed: whatever comes then, and in whatever
  // order, there is never anything to play again, if and only if no file is opened and no session that
  // was started after the end is stopped before its own end is reported.
  lemma NothingPlaysUntilRewound(
    done: seq<Input>, session: Scheduling.Session, speed: real, looping: bool, start: nat, script: seq<Scheduling.Turn>,
    inputs: seq<Input>, loaded: Reader)
    requires Scheduling.ValidSession(session) && Scheduling.SeeksOver(session)
    requires Scheduling.Eof in Scheduling.Exec(session, Scheduling.Begin(session, speed, looping, start), script).events
    requires After(done).state == COMPLETED && After(done).metadata.Some?
    requires Indexed(loaded) && loaded.position == 0
    ensures
      var ended := Scheduling.Exec(session, Scheduling.Begin(session, speed, looping, start), script).state;
      var desk := Desk(After(done), Some(LeftBy(session, ended)));
      && Over(desk)
      && (NeverAnythingLeft(desk, inputs, loaded) <==> NoneRewinds(desk, inputs, loaded))
  {
    hide Coherent, After, Scheduling.Begin, Scheduling.Exec;
    EofLeavesEnd(session, speed, looping, start, script);
    AlwaysCoherent(done);
    var ended := Scheduling.Exec(session, Scheduling.Begin(session, speed, looping, start), script).state;
    OverUntilRewound(Desk(After(done), Some(LeftBy(session, ended))), inputs, loaded);
  }

  // In particular no start, pause, resume, seek or setting brings anything back: every session started
  // only reports the end.
  lemma {:induction false} PlaybackStaysOver(desk: Desk, inputs: seq<Input>, loaded: Reader)
    requires Over(desk) && Indexed(loaded) && loaded.position == 0
    requires forall k :: 0 <= k < |inputs| && inputs[k].Do? ==> !inputs[k].command.LoadFile? && !inputs[k].command.Stop?
    ensures
      var reader := Onwards(desk, inputs, loaded).reader;
      reader.Some? ==>
        reader.value.position <= |reader.value.times| && Indexed(reader.value) && PlaysNothing(reader.value)
  {
    hide Coherent, Indexed, PlaysNothing, Onwards;
    NoneAmong(desk, inputs, loaded);
    OverUntilRewound(desk, inputs, loaded);
    var reader := Onwards(desk, inputs, loaded).reader;
    if reader.Some? {
      PlaysNothingIff(reader.value);
    }
  }

  lemma {:induction false} NoneAmong(desk: Desk, inputs: seq<Input>, loaded: Reader)
    requires Wired(desk.orchestrator)
    requires forall k :: 0 <= k < |inputs| && inputs[k].Do? ==> !inputs[k].command.LoadFile? && !inputs[k].command.Stop?
    ensures NoneRewinds(desk, inputs, loaded)
    decreases |inputs|
  {
    hide Onwards;
    if inputs != [] {
      NoneAmong(desk, inputs[..|inputs| - 1], loaded);
    }
  }

  // It can happen: a stop right behind a start, before the end of the started session is reported,
  // rewinds the reader.
  lemma QuickStopRewinds(desk: Desk, reply: SourceReply, loaded: Reader)
    requires Over(desk) && desk.orchestrator.state == COMPLETED && desk.reader.Some?
    ensures
      var start, stop := Do(Start(1.0, false), reply), Do(Stop, reply);
      !NothingLeft(Next(Next(desk, start, loaded), stop, loaded).reader)
  {
    hide Coherent, Indexed;
    SoughtIsLeft(desk.reader.value, desk.orchestrator.metadata.value.startTimestampNs);
  }
}
