/** The playback loop (`ReplayScheduler::run`) of one session over one indexed file, as a step
    system. A script says how long the loop's own work takes and what each wait ends with. */
module ReplayScheduler {
  import opened Prelude
  import opened TimingEngine
  import FileReader

  datatype Command =
    | Pause
    | Resume
    | Seek(timestamp: nat)
    | SetSpeed(speed: real)
    | SetLoop(enabled: bool)
    | Stop

  // What a wait ends with; `after` counts from the start of the wait.
  datatype Wake =
    | SleepOver
    | Received(command: Command, after: nat)
    | ChannelClosed(after: nat)

  datatype ReadFault = NoFault | CorruptPacket | BrokenRead | BrokenRewind

  // One pass of the loop: the time spent before it waits, and how its reads, waits and publication go.
  datatype Turn = Turn(overhead: nat, fault: ReadFault, wake: Wake, publishOk: bool)

  // What the session does to the outside. `at` is measured on a clock that stands still while paused.
  datatype Event =
    | Published(index: nat, at: nat)
    | SeekTo(index: nat, timestamp: nat)
    | LoopTo(index: nat)
    | Eof
    | FatalError

  // The recorded timestamps of the file, the packet read first in this session, and the entry at
  // which the reader stands after seeking a timestamp.
  datatype Session = Session(times: seq<nat>, first: nat, seek: nat -> nat)

  // The reader's seeks, whatever its search answers among equal timestamps.
  ghost predicate SeeksOver(session: Session) {
    forall t: nat {:trigger session.seek(t)} :: FileReader.MayFind(session.times, t, session.seek(t))
  }

  datatype Scheduler = Scheduler(
    now: nat, idle: nat,  // the clock, and how much of it passed in pauses
    position: nat,  // the next entry the file reader returns
    clock: Clock,
    running: bool, paused: bool,
    current: Option<nat>, remaining: Option<nat>,
    speed: real, looping: bool)

  datatype Outcome = Outcome(state: Scheduler, events: seq<Event>)

  ghost predicate ValidSession(session: Session) {
    session.first < |session.times| && forall t: nat {:trigger session.seek(t)} :: session.seek(t) < |session.times|
  }

  // Rewinding to the timestamp of the first packet finds that packet.
  ghost predicate Rewinds(session: Session)
    requires ValidSession(session)
  {
    session.seek(session.times[session.first]) == session.first
  }

  ghost predicate Consistent(session: Session, s: Scheduler) {
    && ValidSession(session) && Ticking(s.clock) && s.clock.driftCorrection && s.clock.sessionStart.Some?
    && s.position <= |session.times| && s.idle <= s.now
    && (s.current.Some? ==> s.current.value < |session.times| && s.position == s.current.value + 1)
  }

  /* What a trace may look like */

  // The entry to be published next.
  function Upcoming(s: Scheduler): nat { if s.current.Some? then s.current.value else s.position }

  predicate Final(e: Event) { e.Eof? || e.FatalError? }

  // Packets go out in index order; a seek goes to the nearest entry; the start is looped to, and the
  // end reported, only after the last entry.
  ghost predicate Allowed(session: Session, next: nat, e: Event)
    requires ValidSession(session)
  {
    match e
    case Published(index, _) => index == next < |session.times|
    case SeekTo(index, timestamp) => index == session.seek(timestamp)
    case LoopTo(index) =>
      next == |session.times| && index == session.seek(session.times[session.first])
    case Eof => next == |session.times|
    case FatalError => true
  }

  function NextAfter(next: nat, e: Event): nat {
    match e
    case Published(index, _) => index + 1
    case SeekTo(index, _) => index
    case LoopTo(index) => index
    case Eof => next
    case FatalError => next
  }

  // A pass keeps the state consistent, causes at most one event, and that one is allowed.
  ghost predicate Follows(session: Session, s: Scheduler, r: Outcome)
    requires ValidSession(session)
  {
    && Consistent(session, r.state) && |r.events| <= 1
    && (r.events == [] ==> Upcoming(r.state) == Upcoming(s))
    && (r.events != [] ==>
          && Allowed(session, Upcoming(s), r.events[0])
          && if Final(r.events[0]) then !r.state.running
             else Upcoming(r.state) == NextAfter(Upcoming(s), r.events[0]))
  }

  /* Commands */

  function DoSeek(session: Session, s: Scheduler, timestamp: nat): (r: Outcome)
    requires Consistent(session, s)
    ensures Consistent(session, r.state)
  {
    var target := session.seek(timestamp);
    Outcome(
      s.(position := target, clock := Restarted(s.clock, timestamp, s.now), current := None, remaining := None),
      [SeekTo(target, timestamp)])
  }

  function PausedCommand(session: Session, s: Scheduler, command: Command): (r: Outcome)
    requires Consistent(session, s)
    ensures Consistent(session, r.state)
  {
    match command
    case Resume => Outcome(s.(paused := false, clock := Resumed(s.clock, s.now)), [])
    case Stop => Outcome(s.(running := false), [])
    case Seek(timestamp) => DoSeek(session, s, timestamp)
    case SetSpeed(speed) =>
      var clock := if s.current.Some? then SpeedSet(s.clock, speed, session.times[s.current.value], s.now) else s.clock;
      Outcome(s.(speed := speed, clock := clock), [])
    case SetLoop(enabled) => Outcome(s.(looping := enabled), [])
    case Pause => Outcome(s, [])
  }

  // A command that interrupts the sleep of `delay` after `elapsed`.
  function SleepingCommand(session: Session, s: Scheduler, command: Command, delay: nat, elapsed: nat): (r: Outcome)
    requires Consistent(session, s)
    ensures Consistent(session, r.state)
  {
    match command
    case Pause =>
      Outcome(s.(paused := true, clock := Paused(s.clock, s.now), remaining := Some(Minus(delay, elapsed))), [])
    case Resume => Outcome(s, [])
    case Stop => Outcome(s.(running := false), [])
    case Seek(timestamp) => DoSeek(session, s, timestamp)
    case SetSpeed(speed) =>
      if s.current.None? then Outcome(s.(speed := speed), [])
      else
        var timestamp := session.times[s.current.value];
        var clock := SpeedSet(s.clock, speed, timestamp, s.now);
        Outcome(
          s.(speed := speed, clock := Delayed(clock, timestamp, s.now),
             remaining := Some(Delay(clock, timestamp, s.now))), [])
    case SetLoop(enabled) => Outcome(s.(looping := enabled), [])
  }

  /* One pass of the loop */

  function Idled(s: Scheduler, d: nat): Scheduler { s.(now := s.now + d, idle := s.idle + d) }

  function PausedTurn(session: Session, s: Scheduler, turn: Turn): (r: Outcome)
    requires Consistent(session, s)
    ensures Consistent(session, r.state)
  {
    match turn.wake
    case SleepOver => Outcome(s, [])  // nothing arrives, the loop keeps waiting
    case Received(command, after) =>
      var waited := turn.overhead + after;
      PausedCommand(session, Idled(s, waited), command)
    case ChannelClosed(_) => Outcome(s.(running := false), [])
  }

  lemma PausedReceives(session: Session, s: Scheduler, turn: Turn)
    requires Consistent(session, s) && turn.wake.Received?
    ensures Consistent(session, Idled(s, turn.overhead + turn.wake.after))
    ensures PausedTurn(session, s, turn) ==
      PausedCommand(session, Idled(s, turn.overhead + turn.wake.after), turn.wake.command)
  {
    hide PausedCommand;
  }

  function Publish(session: Session, s: Scheduler, ok: bool): (r: Outcome)
    requires Consistent(session, s) && s.current.Some?
    ensures Consistent(session, r.state)
  {
    if ok then Outcome(s.(current := None), [Published(s.current.value, s.now - s.idle)])
    else Outcome(s.(current := None, running := false), [FatalError])
  }

  // The pass without a packet in hand; on success it holds one and goes on.
  function Fetch(session: Session, s: Scheduler, fault: ReadFault): (r: Outcome)
    requires Consistent(session, s) && s.current.None?
    ensures Consistent(session, r.state)
  {
    if s.position >= |session.times| then
      if s.looping && fault.BrokenRewind? then Outcome(s.(running := false), [FatalError])
      else if s.looping then
        var start := session.times[session.first];
        var target := session.seek(start);
        Outcome(s.(position := target, clock := Restarted(s.clock, start, s.now)), [LoopTo(target)])
      else Outcome(s.(running := false), [Eof])
    else if fault.CorruptPacket? then Outcome(s, [])
    else if fault.BrokenRead? then Outcome(s.(running := false), [FatalError])
    else Outcome(s.(current := Some(s.position), position := s.position + 1), [])
  }

  // The delay of the packet in hand: what a pause left over, or a new one.
  function PendingDelay(session: Session, s: Scheduler): nat
    requires Consistent(session, s) && s.current.Some?
  {
    if s.remaining.Some? then s.remaining.value else Delay(s.clock, session.times[s.current.value], s.now)
  }

  function TakeDelay(session: Session, s: Scheduler): (t: Scheduler)
    requires Consistent(session, s) && s.current.Some?
    ensures Consistent(session, t) && t.current == s.current
  {
    if s.remaining.Some? then s.(remaining := None)
    else s.(clock := Delayed(s.clock, session.times[s.current.value], s.now))
  }

  function Later(s: Scheduler, d: nat): Scheduler { s.(now := s.now + d) }

  // What a wait of `delay` for the packet in hand ends in.
  function Waited(session: Session, s: Scheduler, delay: nat, wake: Wake, ok: bool): (r: Outcome)
    requires Consistent(session, s) && s.current.Some?
    ensures Consistent(session, r.state)
  {
    if delay == 0 then Publish(session, s, ok)
    else
      match wake
      case Received(command, after) =>
        if after <= delay then SleepingCommand(session, Later(s, after), command, delay, after)
        else Publish(session, Later(s, delay), ok)
      case ChannelClosed(after) =>
        if after <= delay then Outcome(Later(s, after).(running := false), [])
        else Publish(session, Later(s, delay), ok)
      case SleepOver => Publish(session, Later(s, delay), ok)
  }

  // The pass with a packet in hand: wait for it, then publish it or obey a command.
  function Await(session: Session, s: Scheduler, turn: Turn): (r: Outcome)
    requires Consistent(session, s) && s.current.Some?
    ensures Consistent(session, r.state)
  {
    Waited(session, TakeDelay(session, s), PendingDelay(session, s), turn.wake, turn.publishOk)
  }

  function Proceed(session: Session, s: Scheduler, turn: Turn): (r: Outcome)
    requires Consistent(session, s)
    ensures Consistent(session, r.state)
  {
    if s.current.Some? then Await(session, s, turn)
    else
      var fetched := Fetch(session, s, turn.fault);
      if fetched.state.running && fetched.state.current.Some? then Await(session, fetched.state, turn)
      else fetched
  }

  function Step(session: Session, s: Scheduler, turn: Turn): (r: Outcome)
    requires Consistent(session, s)
    ensures Consistent(session, r.state)
  {
    if !s.running then Outcome(s, [])
    else if s.paused then PausedTurn(session, s, turn)
    else Proceed(session, Later(s, turn.overhead), turn)
  }

  // The state after the first packet has been read and the reader rewound to it.
  function Begin(session: Session, speed: real, looping: bool, now: nat): (s: Scheduler)
    requires ValidSession(session)
    ensures Consistent(session, s)
  {
    var start := session.times[session.first];
    var clock := Initialized(Clock(1.0, true, None, None, None, None, 0, 0, 0), start, speed, now);
    Scheduler(now, 0, session.seek(start), clock, true, false, None, None, speed, looping)
  }

  function Exec(session: Session, s: Scheduler, script: seq<Turn>): Outcome
    requires Consistent(session, s)
    ensures Consistent(session, Exec(session, s, script).state)
    decreases |script|
  {
    if script == [] then Outcome(s, [])
    else
      var before := Exec(session, s, script[..|script| - 1]);
      var step := Step(session, before.state, script[|script| - 1]);
      Outcome(step.state, before.events + step.events)
  }

  function AndThen(session: Session, before: Outcome, turn: Turn): Outcome
    requires Consistent(session, before.state)
  {
    var step := Step(session, before.state, turn);
    Outcome(step.state, before.events + step.events)
  }

  lemma ExecNext(session: Session, s: Scheduler, script: seq<Turn>, n: nat)
    requires Consistent(session, s) && n < |script|
    ensures Exec(session, s, script[..n + 1]) == AndThen(session, Exec(session, s, script[..n]), script[n])
  {
    assert script[..n + 1][..n] == script[..n];
  }

  /* The loop, as the code runs it */

  class ReplayScheduler {
    const session: Session
    const engine: TimingEngine
    var now: nat
    var idle: nat
    var readerPosition: nat
    var isRunning: bool
    var isPaused: bool
    var currentPacket: Option<nat>
    var pausedRemaining: Option<nat>
    var speed: real
    var loopEnabled: bool

    ghost function State(): Scheduler
      reads this, engine
    {
      Scheduler(
        now, idle, readerPosition, engine.State(), isRunning, isPaused,
        currentPacket, pausedRemaining, speed, loopEnabled)
    }

    ghost predicate Valid()
      reads this, engine
    {
      Consistent(session, State())
    }

    // The first packet has been read; the reader is rewound to its timestamp.
    constructor (session: Session, speed: real, looping: bool, start: nat)
      requires ValidSession(session)
      ensures this.session == session && fresh(engine)
      ensures Valid() && State() == Begin(session, speed, looping, start)
    {
      this.session := session;
      var clock := new TimingEngine(true);
      clock.Initialize(session.times[session.first], speed, start);
      engine := clock;
      now, idle := start, 0;
      readerPosition := session.seek(session.times[session.first]);
      isRunning, isPaused, currentPacket, pausedRemaining := true, false, None, None;
      this.speed, loopEnabled := speed, looping;
    }

    method SeekSource(timestamp: nat) returns (events: seq<Event>)
      requires Valid()
      modifies this, engine
      ensures Outcome(State(), events) == DoSeek(session, old(State()), timestamp)
    {
      readerPosition := session.seek(timestamp);
      engine.Reset(timestamp, now);
      currentPacket, pausedRemaining := None, None;
      events := [SeekTo(readerPosition, timestamp)];
    }

    method ObeyWhilePaused(command: Command) returns (events: seq<Event>)
      requires Valid()
      modifies this, engine
      ensures Outcome(State(), events) == PausedCommand(session, old(State()), command)
    {
      events := [];
      match command {
        case Resume =>
          isPaused := false;
          engine.Resume(now);
        case Stop =>
          isRunning := false;
        case Seek(timestamp) =>
          events := SeekSource(timestamp);
        case SetSpeed(newSpeed) =>
          speed := newSpeed;
          if currentPacket.Some? {
            engine.SetSpeed(newSpeed, session.times[currentPacket.value], now);
          }
        case SetLoop(enabled) =>
          loopEnabled := enabled;
        case Pause =>
      }
    }

    method ObeyWhileSleeping(command: Command, delay: nat, elapsed: nat) returns (events: seq<Event>)
      requires Valid()
      modifies this, engine
      ensures Outcome(State(), events) == SleepingCommand(session, old(State()), command, delay, elapsed)
    {
      events := [];
      match command {
        case Pause =>
          isPaused := true;
          engine.Pause(now);
          pausedRemaining := Some(Minus(delay, elapsed));
        case Resume =>
        case Stop =>
          isRunning := false;
        case Seek(timestamp) =>
          events := SeekSource(timestamp);
        case SetSpeed(newSpeed) =>
          speed := newSpeed;
          if currentPacket.Some? {
            var timestamp := session.times[currentPacket.value];
            engine.SetSpeed(newSpeed, timestamp, now);
            var newDelay := engine.ComputeDelay(timestamp, now);
            pausedRemaining := Some(newDelay);
          }
        case SetLoop(enabled) =>
          loopEnabled := enabled;
      }
    }

    method WaitWhilePaused(turn: Turn) returns (events: seq<Event>)
      requires Valid()
      modifies this, engine
      ensures Outcome(State(), events) == PausedTurn(session, old(State()), turn)
    {
      hide PausedCommand;
      events := [];
      match turn.wake {
        case SleepOver =>
        case Received(command, after) =>
          now := now + (turn.overhead + after);
          idle := idle + (turn.overhead + after);
          events := ObeyWhilePaused(command);
        case ChannelClosed(_) =>
          isRunning := false;
      }
    }

    method FetchPacket(fault: ReadFault) returns (events: seq<Event>)
      requires Valid() && currentPacket.None?
      modifies this, engine
      ensures Outcome(State(), events) == Fetch(session, old(State()), fault)
    {
      events := [];
      if readerPosition >= |session.times| {
        if loopEnabled && fault.BrokenRewind? {
          isRunning := false;
          events := [FatalError];
        } else if loopEnabled {
          readerPosition := session.seek(session.times[session.first]);
          engine.Reset(session.times[session.first], now);
          events := [LoopTo(readerPosition)];
        } else {
          isRunning := false;
          events := [Eof];
        }
      } else if fault.CorruptPacket? {
      } else if fault.BrokenRead? {
        isRunning := false;
        events := [FatalError];
      } else {
        currentPacket := Some(readerPosition);
        readerPosition := readerPosition + 1;
      }
    }

    method PublishCurrent(ok: bool) returns (events: seq<Event>)
      requires Valid() && currentPacket.Some?
      modifies this
      ensures Outcome(State(), events) == Publish(session, old(State()), ok)
    {
      var packet := currentPacket.value;
      currentPacket := None;
      if ok {
        events := [Published(packet, now - idle)];
      } else {
        isRunning := false;
        events := [FatalError];
      }
    }

    method TakeDelayOfCurrent() returns (delay: nat)
      requires Valid() && currentPacket.Some?
      modifies this, engine
      ensures State() == TakeDelay(session, old(State()))
      ensures delay == PendingDelay(session, old(State()))
    {
      if pausedRemaining.Some? {
        delay := pausedRemaining.value;
        pausedRemaining := None;
      } else {
        delay := engine.ComputeDelay(session.times[currentPacket.value], now);
      }
    }

    method AwaitCurrent(turn: Turn) returns (events: seq<Event>)
      requires Valid() && currentPacket.Some?
      modifies this, engine
      ensures Outcome(State(), events) == Await(session, old(State()), turn)
    {
      var delay := TakeDelayOfCurrent();
      events := SleepThenPublish(delay, turn.wake, turn.publishOk);
    }

    // The `select!` of the sleep and the command channel.
    method SleepThenPublish(delay: nat, wake: Wake, ok: bool) returns (events: seq<Event>)
      requires Valid() && currentPacket.Some?
      modifies this, engine
      ensures Outcome(State(), events) == Waited(session, old(State()), delay, wake, ok)
    {
      hide SleepingCommand, Publish;
      if delay == 0 {
        events := PublishCurrent(ok);
        return;
      }
      match wake {
        case Received(command, after) =>
          if after <= delay {
            now := now + after;
            events := ObeyWhileSleeping(command, delay, after);
            return;
          }
        case ChannelClosed(after) =>
          if after <= delay {
            now := now + after;
            isRunning := false;
            return [];
          }
        case SleepOver =>
      }
      now := now + delay;
      events := PublishCurrent(ok);
    }

    method FetchAndAwait(turn: Turn) returns (events: seq<Event>)
      requires Valid()
      modifies this, engine
      ensures Outcome(State(), events) == Proceed(session, old(State()), turn)
    {
      if currentPacket.None? {
        events := FetchPacket(turn.fault);
        if !isRunning || currentPacket.None? {
          return;
        }
      }
      events := AwaitCurrent(turn);
    }

    // One pass of the `while is_running` loop.
    method Pass(turn: Turn) returns (events: seq<Event>)
      requires Valid() && isRunning
      modifies this, engine
      ensures Outcome(State(), events) == Step(session, old(State()), turn)
    {
      hide PausedTurn, Proceed;
      if isPaused {
        events := WaitWhilePaused(turn);
      } else {
        now := now + turn.overhead;
        events := FetchAndAwait(turn);
      }
    }
  }

  lemma SeeksAreValid(session: Session)
    requires session.first < |session.times| && SeeksOver(session)
    ensures ValidSession(session)
  {
    forall t: nat {:trigger session.seek(t)}
      ensures session.seek(t) < |session.times|
    {
      assert FileReader.MayFind(session.times, t, session.seek(t));
    }
  }

  // What a session causes that finds the reader at this entry: its end at once if there is no packet
  // left, the end too if the first read or the rewind fails, else what its passes cause.
  ghost function Played(
    session: Session, position: nat, firstFault: ReadFault, speed: real, looping: bool, start: nat, script: seq<Turn>)
    : (trace: seq<Event>)
    requires SeeksOver(session) && session.first == position <= |session.times|
  {
    if position == |session.times| then [Eof]
    else if !firstFault.NoFault? then [FatalError]
    else
      SeeksAreValid(session);
      Exec(session, Begin(session, speed, looping, start), script).events
  }

  // `run`: the first read and the rewind, then passes until the session or the script ends.
  method Run(
    session: Session, position: nat, firstFault: ReadFault, speed: real, looping: bool, start: nat, script: seq<Turn>)
    returns (trace: seq<Event>)
    requires SeeksOver(session) && session.first == position <= |session.times|
    ensures trace == Played(session, position, firstFault, speed, looping, start, script)
  {
    hide SeeksOver, Step, Begin;
    if position == |session.times| {
      return [Eof];
    }
    if !firstFault.NoFault? {
      return [FatalError];
    }
    SeeksAreValid(session);
    var scheduler := new ReplayScheduler(session, speed, looping, start);
    ghost var begin := Begin(session, speed, looping, start);
    trace := [];
    var k := 0;
    while scheduler.isRunning && k < |script|
      invariant 0 <= k <= |script| && fresh(scheduler) && fresh(scheduler.engine) && scheduler.session == session
      invariant scheduler.Valid() && Exec(session, begin, script[..k]) == Outcome(scheduler.State(), trace)
    {
      assert script[..k + 1][..k] == script[..k];
      var events := scheduler.Pass(script[k]);
      trace := trace + events;
      k := k + 1;
    }
    StoppedStays(session, begin, script, k);
    assert script[..|script|] == script;
  }

  lemma {:induction false} StoppedStays(session: Session, s: Scheduler, script: seq<Turn>, k: nat)
    requires Consistent(session, s) && k <= |script|
    requires k < |script| ==> !Exec(session, s, script[..k]).state.running
    ensures Exec(session, s, script) == Exec(session, s, script[..k])
    decreases |script|
  {
    if k < |script| {
      var init := script[..|script| - 1];
      assert init[..k] == script[..k];
      StoppedStays(session, s, init, k);
    } else {
      assert script[..k] == script;
    }
  }

  /* The shape of traces */

  lemma PausedFollows(session: Session, s: Scheduler, turn: Turn)
    requires Consistent(session, s)
    ensures Follows(session, s, PausedTurn(session, s, turn))
  {}

  lemma SleepingFollows(session: Session, s: Scheduler, command: Command, delay: nat, elapsed: nat)
    requires Consistent(session, s)
    ensures Follows(session, s, SleepingCommand(session, s, command, delay, elapsed))
  {}

  lemma WaitedFollows(session: Session, s: Scheduler, delay: nat, wake: Wake, ok: bool)
    requires Consistent(session, s) && s.current.Some?
    ensures Follows(session, s, Waited(session, s, delay, wake, ok))
  {
    if delay > 0 && wake.Received? && wake.after <= delay {
      SleepingFollows(session, Later(s, wake.after), wake.command, delay, wake.after);
    }
  }

  lemma AwaitFollows(session: Session, s: Scheduler, turn: Turn)
    requires Consistent(session, s) && s.current.Some?
    ensures Follows(session, s, Await(session, s, turn))
  {
    WaitedFollows(session, TakeDelay(session, s), PendingDelay(session, s), turn.wake, turn.publishOk);
  }

  lemma FetchFollows(session: Session, s: Scheduler, fault: ReadFault)
    requires Consistent(session, s) && s.current.None?
    ensures Follows(session, s, Fetch(session, s, fault))
    ensures Fetch(session, s, fault).state.current.Some? ==> Fetch(session, s, fault).events == []
  {}

  lemma StepFollows(session: Session, s: Scheduler, turn: Turn)
    requires Consistent(session, s)
    ensures Follows(session, s, Step(session, s, turn))
    ensures !s.running ==> Step(session, s, turn).events == []
  {
    if s.running && s.paused {
      PausedFollows(session, s, turn);
    } else if s.running {
      ProceedFollows(session, Later(s, turn.overhead), turn);
    }
  }

  lemma ProceedFollows(session: Session, s: Scheduler, turn: Turn)
    requires Consistent(session, s)
    ensures Follows(session, s, Proceed(session, s, turn))
  {
    if s.current.Some? {
      AwaitFollows(session, s, turn);
    } else {
      FetchFollows(session, s, turn.fault);
      var fetched := Fetch(session, s, turn.fault);
      if fetched.state.running && fetched.state.current.Some? {
        AwaitFollows(session, fetched.state, turn);
      }
    }
  }

  // The entry that goes out after these events, if nothing else happens first.
  function ExpectedIndex(session: Session, trace: seq<Event>): nat {
    if trace == [] then session.first else NextAfter(0, trace[|trace| - 1])
  }

  ghost predicate WellShaped(session: Session, trace: seq<Event>)
    requires ValidSession(session)
  {
    forall b {:trigger trace[b]} :: 0 <= b < |trace| ==>
      Allowed(session, ExpectedIndex(session, trace[..b]), trace[b]) && (b + 1 < |trace| ==> !Final(trace[b]))
  }

  // The events so far are well-shaped, and the state knows which entry comes next.
  ghost predicate TraceSoFar(session: Session, r: Outcome)
    requires ValidSession(session)
  {
    && WellShaped(session, r.events)
    && (r.state.running ==> ExpectedIndex(session, r.events) == Upcoming(r.state))
    && (r.state.running ==> r.events == [] || !Final(r.events[|r.events| - 1]))
  }

  lemma ShapeSnoc(session: Session, trace: seq<Event>, e: Event)
    requires ValidSession(session) && WellShaped(session, trace) && Allowed(session, ExpectedIndex(session, trace), e)
    requires trace == [] || !Final(trace[|trace| - 1])
    ensures WellShaped(session, trace + [e])
  {
    var longer := trace + [e];
    forall b {:trigger longer[b]} | 0 <= b < |longer|
      ensures Allowed(session, ExpectedIndex(session, longer[..b]), longer[b])
      ensures b + 1 < |longer| ==> !Final(longer[b])
    {
      if b < |trace| {
        assert longer[..b] == trace[..b] && longer[b] == trace[b];
      } else {
        assert longer[..b] == trace;
      }
    }
  }

  lemma TraceStep(session: Session, before: Outcome, turn: Turn)
    requires Consistent(session, before.state) && TraceSoFar(session, before)
    ensures
      var step := Step(session, before.state, turn);
      TraceSoFar(session, Outcome(step.state, before.events + step.events))
  {
    var step := Step(session, before.state, turn);
    StepFollows(session, before.state, turn);
    if step.events == [] {
      assert before.events + step.events == before.events;
      StoppedForGood(session, before.state, turn);
    } else {
      assert step.events == [step.events[0]];
      ShapeSnoc(session, before.events, step.events[0]);
    }
  }

  lemma StoppedForGood(session: Session, s: Scheduler, turn: Turn)
    requires Consistent(session, s)
    ensures Step(session, s, turn).state.running ==> s.running
  {}

  lemma {:induction false} TraceShape(session: Session, speed: real, looping: bool, start: nat, script: seq<Turn>)
    requires ValidSession(session) && Rewinds(session)
    ensures TraceSoFar(session, Exec(session, Begin(session, speed, looping, start), script))
    decreases |script|
  {
    if script != [] {
      var init := script[..|script| - 1];
      TraceShape(session, speed, looping, start, init);
      TraceStep(session, Exec(session, Begin(session, speed, looping, start), init), script[|script| - 1]);
    }
  }
}
