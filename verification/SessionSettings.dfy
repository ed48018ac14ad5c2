/** Which settings are in force in a session, how long it runs, and how it ends. */
module SessionSettings {
  import opened Prelude
  import opened TimingEngine
  import opened ReplayScheduler
  import opened PauseTransparency
  import opened CommandWindow

  /* Settings in force */

  // The command that a pass obeys: any that arrives in a pause, or one that interrupts a wait.
  function Heard(session: Session, s: Scheduler, turn: Turn): Option<Command>
    requires Consistent(session, s)
  {
    if s.running && turn.wake.Received? && (s.paused || Obeys(session, s, turn, turn.wake.after)) then
      Some(turn.wake.command)
    else None
  }

  // The pass learns that nobody can command it any more.
  predicate HearsClosed(session: Session, s: Scheduler, turn: Turn)
    requires Consistent(session, s)
  {
    s.running && turn.wake.ChannelClosed? && (s.paused || Obeys(session, s, turn, turn.wake.after))
  }

  // What the last obeyed command that gives a value gave.
  function InForce<T>(session: Session, s: Scheduler, script: seq<Turn>, gives: Command -> Option<T>, otherwise: T): T
    requires Consistent(session, s)
    decreases |script|
  {
    if script == [] then otherwise
    else
      var init, turn := script[..|script| - 1], script[|script| - 1];
      var heard := Heard(session, Exec(session, s, init).state, turn);
      if heard.Some? && gives(heard.value).Some? then gives(heard.value).value
      else InForce(session, s, init, gives, otherwise)
  }

  function LoopGiven(command: Command): Option<bool> { if command.SetLoop? then Some(command.enabled) else None }

  function SpeedGiven(command: Command): Option<real> { if command.SetSpeed? then Some(command.speed) else None }

  function PauseGiven(command: Command): Option<bool> {
    if command.Pause? then Some(true) else if command.Resume? then Some(false) else None
  }

  // In every run the loop flag, the speed and the pause are as the last command obeyed left them.
  lemma {:induction false} SettingsInForce(session: Session, s: Scheduler, script: seq<Turn>)
    requires Consistent(session, s)
    ensures
      var t := Exec(session, s, script).state;
      && t.looping == InForce(session, s, script, LoopGiven, s.looping)
      && t.speed == InForce(session, s, script, SpeedGiven, s.speed)
      && t.paused == InForce(session, s, script, PauseGiven, s.paused)
    decreases |script|
  {
    hide Step, Obeys;
    if script != [] {
      var init, turn := script[..|script| - 1], script[|script| - 1];
      SettingsInForce(session, s, init);
      StepSets(session, Exec(session, s, init).state, turn);
    }
  }

  // t has the settings of s, changed as the command says, if there is one.
  predicate SetBy(s: Scheduler, t: Scheduler, heard: Option<Command>) {
    && t.looping == (if heard.Some? && LoopGiven(heard.value).Some? then LoopGiven(heard.value).value else s.looping)
    && t.speed == (if heard.Some? && SpeedGiven(heard.value).Some? then SpeedGiven(heard.value).value else s.speed)
    && t.paused == (if heard.Some? && PauseGiven(heard.value).Some? then PauseGiven(heard.value).value else s.paused)
  }

  lemma StepSets(session: Session, s: Scheduler, turn: Turn)
    requires Consistent(session, s)
    ensures SetBy(s, Step(session, s, turn).state, Heard(session, s, turn))
  {
    hide PausedCommand, Waited, PendingDelay, InHand, TakeDelay, Fetch;
    if s.running && s.paused {
      if turn.wake.Received? {
        PausedSets(session, Idled(s, turn.overhead + turn.wake.after), turn.wake.command);
      }
    } else if s.running {
      UnpausedStep(session, s, turn);
      InHandSets(session, s, turn);
      if Waits(session, s, turn) {
        TakenInHand(session, InHand(session, s, turn));
        WaitedSets(session, Waiting(session, s, turn), PendingDelay(session, InHand(session, s, turn)), turn);
      }
    }
  }

  lemma PausedSets(session: Session, s: Scheduler, command: Command)
    requires Consistent(session, s) && s.paused
    ensures SetBy(s, PausedCommand(session, s, command).state, Some(command))
  {}

  lemma InHandSets(session: Session, s: Scheduler, turn: Turn)
    requires Consistent(session, s)
    ensures SetBy(s, InHand(session, s, turn), None)
    ensures Later(s, turn.overhead).current.None? ==>
      SetBy(s, Fetch(session, Later(s, turn.overhead), turn.fault).state, None)
    ensures InHand(session, s, turn).current.Some? ==> SetBy(s, TakeDelay(session, InHand(session, s, turn)), None)
  {
    hide Restarted, Delayed;
  }

  lemma WaitedSets(session: Session, s: Scheduler, delay: nat, turn: Turn)
    requires Consistent(session, s) && s.current.Some? && !s.paused
    ensures
      var obeyed := turn.wake.Received? && 0 < delay && turn.wake.after <= delay;
      var after := Waited(session, s, delay, turn.wake, turn.publishOk).state;
      SetBy(s, after, if obeyed then Some(turn.wake.command) else None)
  {
    hide Delay, Delayed, SpeedSet, Restarted, Paused;
  }

  // An unpaused pass waits for its packet, or ends with its fetch.
  lemma UnpausedStep(session: Session, s: Scheduler, turn: Turn)
    requires Consistent(session, s) && s.running && !s.paused
    ensures Waits(session, s, turn) ==>
      Step(session, s, turn) ==
      Waited(session, Waiting(session, s, turn), PendingDelay(session, InHand(session, s, turn)), turn.wake,
             turn.publishOk)
    ensures !Waits(session, s, turn) ==>
      Later(s, turn.overhead).current.None? &&
      Step(session, s, turn) == Fetch(session, Later(s, turn.overhead), turn.fault)
  {
    hide Waited, TakeDelay, PendingDelay, Step, Fetch;
    if Waits(session, s, turn) {
      WaitsInHand(session, s, turn);
    } else {
      NothingInHand(session, s, turn);
    }
  }

  /* What a command does besides */

  // The clock counts anew from this moment and from this timestamp, at the speed it had.
  predicate CountsFrom(c: Clock, timestamp: nat, now: nat) {
    && c.sessionStart == Some(now) && c.totalPaused == 0
    && c.firstTimestamp == Some(timestamp) && c.lastTimestamp == Some(timestamp)
  }

  // An obeyed seek goes to the entry found for its own timestamp, gives up the packet in hand and what was
  // left of its wait, and has the clock count from there. Every other command causes no event and leaves
  // the place in the file and the packet in hand; a change of speed has the clock count from that packet.
  ghost predicate Does(session: Session, before: Scheduler, command: Command, r: Outcome)
    requires Consistent(session, before)
  {
    if command.Seek? then
      && r.events == [SeekTo(session.seek(command.timestamp), command.timestamp)]
      && r.state.position == session.seek(command.timestamp) && r.state.current.None? && r.state.remaining.None?
      && CountsFrom(r.state.clock, command.timestamp, r.state.now) && r.state.clock.speed == before.clock.speed
    else
      && r.events == [] && r.state.position == before.position && r.state.current == before.current
      && if command.SetSpeed? && before.current.Some? then
           && CountsFrom(r.state.clock, session.times[before.current.value], r.state.now)
           && r.state.clock.speed == if command.speed > 0.0 then command.speed else 1.0
         else
           && r.state.clock.firstTimestamp == before.clock.firstTimestamp
           && r.state.clock.speed == before.clock.speed
  }

  lemma HeardDoes(session: Session, s: Scheduler, turn: Turn)
    requires Consistent(session, s) && Heard(session, s, turn).Some?
    ensures
      var waited := turn.overhead + turn.wake.after;
      && Step(session, s, turn).state.now == s.now + waited
      && Step(session, s, turn).state.idle == s.idle + if s.paused then waited else 0
    ensures Does(session, if s.paused then s else InHand(session, s, turn), turn.wake.command, Step(session, s, turn))
    ensures turn.wake.command.Pause? && !s.paused ==>
      Step(session, s, turn).state.remaining
      == Some(PendingDelay(session, InHand(session, s, turn)) - turn.wake.after)
    ensures Step(session, s, turn).state.remaining.Some? && !s.paused ==>
      turn.wake.command.Pause? || turn.wake.command.SetSpeed?
  {
    hide PausedCommand, Does, PendingDelay, InHand, TakeDelay, SleepingCommand, Step;
    if s.paused {
      PausedReceives(session, s, turn);
      assert Step(session, s, turn) == PausedTurn(session, s, turn) by { PausedPass(session, s, turn); }
      PausedDoes(session, Idled(s, turn.overhead + turn.wake.after), turn.wake.command);
      DoesAlike(session, Idled(s, turn.overhead + turn.wake.after), s, turn.wake.command, Step(session, s, turn));
    } else {
      var t := InHand(session, s, turn);
      CommandMattersIff(session, s, turn);
      TakenInHand(session, t);
      TakenAlike(session, s, turn);
      var u := Later(Waiting(session, s, turn), turn.wake.after);
      SleepingDoes(session, u, turn.wake.command, PendingDelay(session, t), turn.wake.after);
      DoesAlike(session, u, t, turn.wake.command, Step(session, s, turn));
    }
  }

  lemma PausedPass(session: Session, s: Scheduler, turn: Turn)
    requires Consistent(session, s) && s.running && s.paused
    ensures Step(session, s, turn) == PausedTurn(session, s, turn)
  {}

  lemma TakenAlike(session: Session, s: Scheduler, turn: Turn)
    requires Consistent(session, s) && Waits(session, s, turn)
    ensures
      var t, u := InHand(session, s, turn), Waiting(session, s, turn);
      && u.now == t.now == s.now + turn.overhead && u.idle == s.idle
      && u.current == t.current && u.position == t.position
      && u.remaining == None
      && u.clock.speed == t.clock.speed && u.clock.firstTimestamp == t.clock.firstTimestamp
  {}

  // What a command does depends on no more than this.
  lemma DoesAlike(session: Session, s: Scheduler, t: Scheduler, command: Command, r: Outcome)
    requires Consistent(session, s) && Consistent(session, t) && Does(session, s, command, r)
    requires s.current == t.current && s.position == t.position
    requires s.clock.speed == t.clock.speed && s.clock.firstTimestamp == t.clock.firstTimestamp
    ensures Does(session, t, command, r)
  {}

  lemma PausedDoes(session: Session, s: Scheduler, command: Command)
    requires Consistent(session, s)
    ensures Does(session, s, command, PausedCommand(session, s, command))
    ensures PausedCommand(session, s, command).state.now == s.now
    ensures PausedCommand(session, s, command).state.idle == s.idle
  {}

  lemma SleepingDoes(session: Session, s: Scheduler, command: Command, delay: nat, elapsed: nat)
    requires Consistent(session, s) && s.current.Some? && s.remaining.None? && elapsed <= delay
    ensures
      var r := SleepingCommand(session, s, command, delay, elapsed);
      && Does(session, s, command, r) && r.state.now == s.now && r.state.idle == s.idle
      && (command.Pause? ==> r.state.remaining == Some(delay - elapsed))
      && (r.state.remaining.Some? ==> command.Pause? || command.SetSpeed?)
  {}

  // The commands that a run obeys, in order.
  function Hears(session: Session, s: Scheduler, script: seq<Turn>): seq<Command>
    requires Consistent(session, s)
    decreases |script|
  {
    if script == [] then []
    else
      var init, turn := script[..|script| - 1], script[|script| - 1];
      var heard := Heard(session, Exec(session, s, init).state, turn);
      Hears(session, s, init) + if heard.Some? then [heard.value] else []
  }

  function SeeksIn(events: seq<Event>): seq<Event> {
    if events == [] then []
    else
      var last := events[|events| - 1];
      SeeksIn(events[..|events| - 1]) + if last.SeekTo? then [last] else []
  }

  function SeeksOf(session: Session, commands: seq<Command>): seq<Event> {
    if commands == [] then []
    else
      var last := commands[|commands| - 1];
      SeeksOf(session, commands[..|commands| - 1]) +
      if last.Seek? then [SeekTo(session.seek(last.timestamp), last.timestamp)] else []
  }

  // A run seeks exactly as it is told: once for each seek obeyed, in order, to the timestamp given.
  lemma {:induction false} SeeksAsHeard(session: Session, s: Scheduler, script: seq<Turn>)
    requires Consistent(session, s)
    ensures SeeksIn(Exec(session, s, script).events) == SeeksOf(session, Hears(session, s, script))
    decreases |script|
  {
    hide Step, Heard, Does;
    if script != [] {
      var init, turn := script[..|script| - 1], script[|script| - 1];
      SeeksAsHeard(session, s, init);
      var before := Exec(session, s, init);
      var step, heard := Step(session, before.state, turn), Heard(session, before.state, turn);
      StepSeeks(session, before.state, turn);
      SeeksInSum(before.events, step.events);
      if heard.Some? {
        assert (Hears(session, s, init) + [heard.value])[..|Hears(session, s, init)|] == Hears(session, s, init);
      } else {
        assert Hears(session, s, init) + [] == Hears(session, s, init);
      }
    }
  }

  lemma SeeksInSum(a: seq<Event>, b: seq<Event>)
    requires |b| <= 1
    ensures SeeksIn(a + b) == SeeksIn(a) + if b != [] && b[0].SeekTo? then b else []
  {
    if b == [] {
      assert a + b == a;
    } else {
      assert (a + b)[..|a|] == a;
    }
  }

  lemma StepSeeks(session: Session, s: Scheduler, turn: Turn)
    requires Consistent(session, s)
    ensures
      var events, heard := Step(session, s, turn).events, Heard(session, s, turn);
      && |events| <= 1
      && if heard.Some? && heard.value.Seek? then
           events == [SeekTo(session.seek(heard.value.timestamp), heard.value.timestamp)]
         else events == [] || !events[0].SeekTo?
  {
    hide PausedCommand, Waited, PendingDelay, InHand, TakeDelay, Fetch;
    StepFollows(session, s, turn);
    if Heard(session, s, turn).Some? {
      HeardDoes(session, s, turn);
    } else if s.running && !s.paused {
      UnpausedStep(session, s, turn);
      if Waits(session, s, turn) {
        TakenInHand(session, InHand(session, s, turn));
        UnheardPublishes(session, Waiting(session, s, turn), PendingDelay(session, InHand(session, s, turn)), turn);
      } else {
        FetchSeeksNot(session, Later(s, turn.overhead), turn.fault);
      }
    }
  }

  lemma UnheardPublishes(session: Session, s: Scheduler, delay: nat, turn: Turn)
    requires Consistent(session, s) && s.current.Some?
    requires !(turn.wake.Received? && 0 < delay && turn.wake.after <= delay)
    ensures
      var events := Waited(session, s, delay, turn.wake, turn.publishOk).events;
      events == [] || !events[0].SeekTo?
  {}

  lemma FetchSeeksNot(session: Session, s: Scheduler, fault: ReadFault)
    requires Consistent(session, s) && s.current.None?
    ensures Fetch(session, s, fault).events == [] || !Fetch(session, s, fault).events[0].SeekTo?
  {}

  /* How long it runs */

  predicate Ends(events: seq<Event>) { events != [] && Final(events[|events| - 1]) }

  // This pass is the last: it is told to stop or finds its channel closed, or it reports an end.
  predicate Last(session: Session, s: Scheduler, turn: Turn)
    requires Consistent(session, s)
  {
    Heard(session, s, turn) == Some(Stop) || HearsClosed(session, s, turn) || Ends(Step(session, s, turn).events)
  }

  predicate NoneLast(session: Session, s: Scheduler, script: seq<Turn>)
    requires Consistent(session, s)
    decreases |script|
  {
    script == [] ||
      var init := script[..|script| - 1];
      NoneLast(session, s, init) && !Last(session, Exec(session, s, init).state, script[|script| - 1])
  }

  // A session runs on until it is told to stop, loses its channel, or reports an end.
  lemma {:induction false} RunsUntilLast(session: Session, s: Scheduler, script: seq<Turn>)
    requires Consistent(session, s) && s.running
    ensures Exec(session, s, script).state.running <==> NoneLast(session, s, script)
    decreases |script|
  {
    hide Step, Last;
    if script != [] {
      var init, turn := script[..|script| - 1], script[|script| - 1];
      RunsUntilLast(session, s, init);
      if Exec(session, s, init).state.running {
        StepEndsIff(session, Exec(session, s, init).state, turn);
      }
      StoppedForGood(session, Exec(session, s, init).state, turn);
    }
  }

  lemma StepEndsIff(session: Session, s: Scheduler, turn: Turn)
    requires Consistent(session, s) && s.running
    ensures Step(session, s, turn).state.running <==> !Last(session, s, turn)
  {
    hide PausedCommand, Waited, PendingDelay, InHand, TakeDelay, Fetch;
    if s.paused {
      if turn.wake.Received? {
        PausedStops(session, Idled(s, turn.overhead + turn.wake.after), turn.wake.command);
      }
    } else {
      UnpausedStep(session, s, turn);
      InHandRuns(session, s, turn);
      if Waits(session, s, turn) {
        TakenInHand(session, InHand(session, s, turn));
        WaitedStops(session, Waiting(session, s, turn), PendingDelay(session, InHand(session, s, turn)), turn);
      }
    }
  }

  lemma PausedStops(session: Session, s: Scheduler, command: Command)
    requires Consistent(session, s) && s.running
    ensures PausedCommand(session, s, command).state.running <==> !command.Stop?
    ensures !Ends(PausedCommand(session, s, command).events)
  {}

  lemma InHandRuns(session: Session, s: Scheduler, turn: Turn)
    requires Consistent(session, s) && s.running && !s.paused
    ensures InHand(session, s, turn).current.Some? ==>
      InHand(session, s, turn).running && TakeDelay(session, InHand(session, s, turn)).running
    ensures InHand(session, s, turn).current.None? ==>
      var fetched := Fetch(session, Later(s, turn.overhead), turn.fault);
      fetched.state.running <==> !Ends(fetched.events)
  {
    hide Restarted, Delayed;
  }

  lemma WaitedStops(session: Session, s: Scheduler, delay: nat, turn: Turn)
    requires Consistent(session, s) && s.current.Some? && s.running
    ensures
      var r := Waited(session, s, delay, turn.wake, turn.publishOk);
      var interrupted := 0 < delay && !turn.wake.SleepOver? && turn.wake.after <= delay;
      r.state.running <==>
        !(interrupted && (turn.wake.ChannelClosed? || turn.wake.command.Stop?)) && !Ends(r.events)
  {
    hide Delay, Delayed, SpeedSet, Restarted, Paused;
  }

  /* How it ends */

  // A pass with nothing in hand behind the last entry.
  predicate AtEnd(session: Session, s: Scheduler) {
    s.running && !s.paused && s.current.None? && s.position >= |session.times|
  }

  predicate Loops(events: seq<Event>) { events != [] && events[0].LoopTo? }

  // A pass reports the end exactly behind the last entry without the loop flag, and stops; it goes back
  // to the start exactly there with the flag, unless the reader fails.
  lemma EndsOrLoopsIff(session: Session, s: Scheduler, turn: Turn)
    requires Consistent(session, s)
    ensures
      var r := Step(session, s, turn);
      && (Eof in r.events <==> AtEnd(session, s) && !s.looping)
      && (Eof in r.events ==> r.events == [Eof] && !r.state.running)
      && (Loops(r.events) <==> AtEnd(session, s) && s.looping && !turn.fault.BrokenRewind?)
      && (Loops(r.events) ==>
            && r.events == [LoopTo(session.seek(session.times[session.first]))] && r.state.running
            && r.state.position == session.seek(session.times[session.first]))
      && (AtEnd(session, s) && s.looping && turn.fault.BrokenRewind? ==> r.events == [FatalError] && !r.state.running)
  {
    hide PausedCommand, Waited, PendingDelay, InHand, TakeDelay;
    if s.running && s.paused {
      if turn.wake.Received? {
        PausedNoEnd(session, Idled(s, turn.overhead + turn.wake.after), turn.wake.command);
      }
    } else if s.running {
      UnpausedStep(session, s, turn);
      InHandNotAtEnd(session, s, turn);
      if Waits(session, s, turn) {
        TakenInHand(session, InHand(session, s, turn));
        WaitedNoEnd(session, Waiting(session, s, turn), PendingDelay(session, InHand(session, s, turn)), turn);
      }
    }
  }

  lemma PausedNoEnd(session: Session, s: Scheduler, command: Command)
    requires Consistent(session, s)
    ensures Eof !in PausedCommand(session, s, command).events && !Loops(PausedCommand(session, s, command).events)
  {}

  lemma InHandNotAtEnd(session: Session, s: Scheduler, turn: Turn)
    requires Consistent(session, s) && s.running && !s.paused
    ensures Waits(session, s, turn) ==> !AtEnd(session, s)
    ensures !Waits(session, s, turn) && !AtEnd(session, s) ==>
      var events := Fetch(session, Later(s, turn.overhead), turn.fault).events;
      Eof !in events && !Loops(events)
  {}

  lemma WaitedNoEnd(session: Session, s: Scheduler, delay: nat, turn: Turn)
    requires Consistent(session, s) && s.current.Some?
    ensures
      var events := Waited(session, s, delay, turn.wake, turn.publishOk).events;
      Eof !in events && !Loops(events)
  {
    hide Delay, Delayed, SpeedSet, Restarted, Paused;
  }

  // In every run from the start of a session: a pass reports the end, or goes back to the start, exactly
  // when the session runs unpaused with its last packet out, and the loop flag then in force, that of the
  // last setting obeyed, says which.
  lemma SessionEndsOrLoopsIff(
    session: Session, speed: real, looping: bool, start: nat, script: seq<Turn>, turn: Turn)
    requires ValidSession(session) && Rewinds(session)
    ensures
      var begin := Begin(session, speed, looping, start);
      var r := Exec(session, begin, script);
      var events := Step(session, r.state, turn).events;
      var over := NoneLast(session, begin, script) && !InForce(session, begin, script, PauseGiven, false)
                  && ExpectedIndex(session, r.events) == |session.times|;
      var loop := InForce(session, begin, script, LoopGiven, looping);
      && (Eof in events <==> over && !loop)
      && (Loops(events) <==> over && loop && !turn.fault.BrokenRewind?)
  {
    hide Step, Exec, NoneLast, InForce, WellShaped;
    var begin := Begin(session, speed, looping, start);
    var s := Exec(session, begin, script).state;
    RunsUntilLast(session, begin, script);
    SettingsInForce(session, begin, script);
    TraceShape(session, speed, looping, start, script);
    EndsOrLoopsIff(session, s, turn);
    hide Begin;
    assert s.running ==> (AtEnd(session, s) <==> !s.paused && Upcoming(s) == |session.times|);
  }

  /* A whole session */

  // Nothing comes in between, and nothing fails.
  predicate Quiet(script: seq<Turn>) {
    forall k :: 0 <= k < |script| ==> script[k].fault.NoFault? && script[k].wake.SleepOver? && script[k].publishOk
  }

  // The session is at this entry, with nothing in hand.
  predicate Stands(session: Session, s: Scheduler, position: nat) {
    s.running && !s.paused && !s.looping && s.current.None? && s.remaining.None? && s.position == position
  }

  lemma QuietStep(session: Session, s: Scheduler, turn: Turn)
    requires Consistent(session, s) && Quiet([turn]) && Stands(session, s, s.position)
    ensures
      var r := Step(session, s, turn);
      if s.position == |session.times| then r.events == [Eof] && !r.state.running
      else
        && |r.events| == 1 && r.events[0].Published? && r.events[0].index == s.position
        && Stands(session, r.state, s.position + 1)
  {
    hide Delay, Delayed, Restarted;
    assert turn == [turn][0];
  }

  // Without commands, faults and loop flag a session publishes its packets from the first to the last
  // entry, each once, reports the end, and does nothing more.
  lemma {:induction false} PlaysThrough(session: Session, speed: real, start: nat, script: seq<Turn>)
    requires ValidSession(session) && Rewinds(session) && Quiet(script)
    ensures
      var r, m := Exec(session, Begin(session, speed, false, start), script), |session.times| - session.first;
      && |r.events| == (if |script| <= m then |script| else m + 1)
      && (forall k :: 0 <= k < |r.events| && k < m ==> r.events[k].Published? && r.events[k].index == session.first + k)
      && (|script| > m ==> r.events[m] == Eof && !r.state.running)
      && (|script| <= m ==> Stands(session, r.state, session.first + |script|))
    decreases |script|
  {
    hide Step;
    if script != [] {
      var init, turn := script[..|script| - 1], script[|script| - 1];
      PlaysThrough(session, speed, start, init);
      var before := Exec(session, Begin(session, speed, false, start), init);
      if before.state.running {
        QuietStep(session, before.state, turn);
      } else {
        StoppedDoesNothing(session, before.state, turn);
      }
    }
  }

  lemma StoppedDoesNothing(session: Session, s: Scheduler, turn: Turn)
    requires Consistent(session, s) && !s.running
    ensures Step(session, s, turn) == Outcome(s, [])
  {}
}
