/** When a pass of the playback loop looks at its command channel, and a session that never does. */
module CommandWindow {
  import opened Prelude
  import opened TimingEngine
  import opened ReplayScheduler
  import opened PauseTransparency

  // A pass obeys a command that comes `after` into its wait: it holds a packet that is not due yet,
  // and the command comes before it is.
  predicate Obeys(session: Session, s: Scheduler, turn: Turn, after: nat)
    requires Consistent(session, s)
  {
    Waits(session, s, turn) &&
    var delay := PendingDelay(session, InHand(session, s, turn));
    0 < delay && after <= delay
  }

  function Undisturbed(turn: Turn): Turn { turn.(wake := SleepOver) }

  // An unpaused pass that obeys a command does what the command says, and nothing else; one that
  // does not obey it goes on as if nothing had come. The two never look alike.
  lemma CommandMattersIff(session: Session, s: Scheduler, turn: Turn)
    requires Consistent(session, s) && s.running && !s.paused && turn.wake.Received?
    ensures Step(session, s, turn) != Step(session, s, Undisturbed(turn)) <==> Obeys(session, s, turn, turn.wake.after)
    ensures Obeys(session, s, turn, turn.wake.after) ==>
      Step(session, s, turn) == SleepingCommand(
        session, Later(Waiting(session, s, turn), turn.wake.after), turn.wake.command,
        PendingDelay(session, InHand(session, s, turn)), turn.wake.after)
  {
    hide SleepingCommand, Publish, TakeDelay, PendingDelay, Fetch, Step;
    var quiet := Undisturbed(turn);
    assert InHand(session, s, quiet) == InHand(session, s, turn);
    if Waits(session, s, turn) {
      WaitsInHand(session, s, turn);
      WaitsInHand(session, s, quiet);
      var u, delay := Waiting(session, s, turn), PendingDelay(session, InHand(session, s, turn));
      TakenInHand(session, InHand(session, s, turn));
      if 0 < delay && turn.wake.after <= delay {
        ObeyedOrPublished(session, u, turn, delay);
      }
    } else {
      NothingInHand(session, s, turn);
      NothingInHand(session, s, quiet);
    }
  }

  // A command leaves the packet in hand, or seeks; publishing does neither.
  lemma ObeyedOrPublished(session: Session, u: Scheduler, turn: Turn, delay: nat)
    requires Consistent(session, u) && u.current.Some? && turn.wake.Received? && turn.wake.after <= delay
    ensures SleepingCommand(session, Later(u, turn.wake.after), turn.wake.command, delay, turn.wake.after) !=
      Publish(session, Later(u, delay), turn.publishOk)
  {}

  lemma NothingInHand(session: Session, s: Scheduler, turn: Turn)
    requires Consistent(session, s) && s.running && !s.paused && !Waits(session, s, turn)
    ensures Step(session, s, turn) == Fetch(session, Later(s, turn.overhead), turn.fault)
  {
    hide Fetch;
  }

  /* A session that looks at no command */

  predicate AllEqual(times: seq<nat>) { forall i, j :: 0 <= i < j < |times| ==> times[i] == times[j] }

  predicate Faultless(script: seq<Turn>) {
    forall k :: 0 <= k < |script| ==> script[k].fault.NoFault? && script[k].publishOk
  }

  // Every packet is due as soon as it is read.
  ghost predicate Rushing(session: Session, s: Scheduler) {
    && Consistent(session, s) && AllEqual(session.times)
    && s.running && !s.paused && s.looping && s.current.None? && s.remaining.None?
    && s.clock.firstTimestamp == Some(session.times[session.first])
    && s.clock.lastTimestamp == Some(session.times[session.first])
  }

  lemma StepRushes(session: Session, s: Scheduler, turn: Turn)
    requires Rushing(session, s) && turn.fault.NoFault? && turn.publishOk
    ensures Rushing(session, Step(session, s, turn).state)
    ensures Step(session, s, turn) == Step(session, s, Undisturbed(turn))
  {
    var t := Later(s, turn.overhead);
    if s.position < |session.times| {
      NoDelay(session, t.(current := Some(s.position), position := s.position + 1));
    }
  }

  lemma NoDelay(session: Session, s: Scheduler)
    requires Rushing(session, s.(current := None)) && Consistent(session, s) && s.current.Some?
    ensures PendingDelay(session, s) == 0
    ensures Delayed(s.clock, session.times[s.current.value], s.now).lastTimestamp == s.clock.lastTimestamp
  {
    var timestamp := session.times[s.current.value];
    assert timestamp == session.times[session.first];
    ZeroScaled(s.clock.speed);
  }

  lemma ZeroScaled(speed: real)
    requires speed > 0.0
    ensures Scaled(0, speed) == 0
  {}

  function Ignored(script: seq<Turn>): (quiet: seq<Turn>)
    ensures |quiet| == |script| && forall k :: 0 <= k < |quiet| ==> quiet[k] == Undisturbed(script[k])
  {
    seq(|script|, k requires 0 <= k < |script| => Undisturbed(script[k]))
  }

  // A looping session over packets of one timestamp, one packet for example, cannot be stopped or
  // paused: whatever it is sent, and whenever, it plays on as if it had been sent nothing.
  lemma {:induction false} NeverStops(session: Session, speed: real, start: nat, script: seq<Turn>)
    requires ValidSession(session) && AllEqual(session.times) && Faultless(script)
    ensures
      var r := Exec(session, Begin(session, speed, true, start), script);
      && r.state.running && !r.state.paused && Rushing(session, r.state)
      && r == Exec(session, Begin(session, speed, true, start), Ignored(script))
    decreases |script|
  {
    hide Step, Rushing, Begin;
    var begin := Begin(session, speed, true, start);
    if script == [] {
      BeginRushes(session, speed, start);
    } else {
      var init := script[..|script| - 1];
      NeverStops(session, speed, start, init);
      assert Ignored(script)[..|script| - 1] == Ignored(init);
      StepRushes(session, Exec(session, begin, init).state, script[|script| - 1]);
      RushingPlays(session, Exec(session, begin, script).state);
    }
  }

  lemma BeginRushes(session: Session, speed: real, start: nat)
    requires ValidSession(session) && AllEqual(session.times)
    ensures
      var s := Begin(session, speed, true, start);
      Rushing(session, s) && s.running && !s.paused
  {}

  lemma RushingPlays(session: Session, s: Scheduler)
    requires Rushing(session, s)
    ensures s.running && !s.paused
  {}
}
