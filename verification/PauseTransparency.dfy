/** Pauses leave no trace: inserting pauses into the waits of any session changes none of its
    events, as measured on the clock that stands still while paused. */
module PauseTransparency {
  import opened Prelude
  import opened TimingEngine
  import opened ReplayScheduler

  /* Sessions that differ only in how long they have been paused */

  function SinceStart(s: Scheduler): int
    requires s.clock.sessionStart.Some?
  {
    s.now - s.clock.sessionStart.value - s.clock.totalPaused
  }

  predicate Timed(s: Scheduler) {
    && s.clock.sessionStart.Some? && s.clock.sessionStart.value <= s.now && s.idle <= s.now
    && (s.clock.pauseStart.Some? ==> s.clock.pauseStart.value <= s.now)
    && (s.clock.pauseStart.Some? <==> s.paused)
  }

  function WithoutTimes(c: Clock): Clock { c.(sessionStart := None, pauseStart := None, totalPaused := 0) }

  predicate SamePlayback(s: Scheduler, t: Scheduler) {
    && Timed(s) && Timed(t)
    && s.position == t.position && s.running == t.running && s.paused == t.paused
    && s.current == t.current && s.remaining == t.remaining && s.speed == t.speed && s.looping == t.looping
    && WithoutTimes(s.clock) == WithoutTimes(t.clock)
    && s.now - s.idle == t.now - t.idle
    && SinceStart(s) == SinceStart(t)
    && (s.paused ==> s.now - s.clock.pauseStart.value == t.now - t.clock.pauseStart.value)
  }

  lemma SameActive(s: Scheduler, t: Scheduler)
    requires SamePlayback(s, t)
    ensures Active(s.clock, s.now) == Active(t.clock, t.now)
  {}

  lemma SameDelay(session: Session, s: Scheduler, t: Scheduler)
    requires Consistent(session, s) && Consistent(session, t) && SamePlayback(s, t) && s.current.Some?
    ensures PendingDelay(session, s) == PendingDelay(session, t)
    ensures SamePlayback(TakeDelay(session, s), TakeDelay(session, t))
  {
    SameActive(s, t);
  }

  predicate SameOutcome(r: Outcome, q: Outcome) { r.events == q.events && SamePlayback(r.state, q.state) }

  lemma SameWhileSleeping(session: Session, s: Scheduler, t: Scheduler, command: Command,
                          delay: nat, elapsed: nat, delay': nat, elapsed': nat)
    requires Consistent(session, s) && Consistent(session, t) && SamePlayback(s, t) && !s.paused
    requires elapsed <= delay && elapsed' <= delay' && delay - elapsed == delay' - elapsed'
    ensures SameOutcome(SleepingCommand(session, s, command, delay, elapsed),
                        SleepingCommand(session, t, command, delay', elapsed'))
  {
    match command
    case SetSpeed(speed) => SameSpeedInWait(session, s, t, speed, delay, elapsed, delay', elapsed');
    case Seek(timestamp) => SameSeek(session, s, t, timestamp);
    case _ => SameOtherInWait(session, s, t, command, delay, elapsed, delay', elapsed');
  }

  lemma SameSpeedInWait(session: Session, s: Scheduler, t: Scheduler, speed: real,
                        delay: nat, elapsed: nat, delay': nat, elapsed': nat)
    requires Consistent(session, s) && Consistent(session, t) && SamePlayback(s, t) && !s.paused
    ensures SameOutcome(SleepingCommand(session, s, SetSpeed(speed), delay, elapsed),
                        SleepingCommand(session, t, SetSpeed(speed), delay', elapsed'))
  {
    if s.current.Some? {
      var timestamp := session.times[s.current.value];
      SameActive(s.(clock := SpeedSet(s.clock, speed, timestamp, s.now)),
                 t.(clock := SpeedSet(t.clock, speed, timestamp, t.now)));
    }
  }

  lemma SameSeek(session: Session, s: Scheduler, t: Scheduler, timestamp: nat)
    requires Consistent(session, s) && Consistent(session, t) && SamePlayback(s, t)
    ensures SameOutcome(DoSeek(session, s, timestamp), DoSeek(session, t, timestamp))
  {}

  lemma SameOtherInWait(session: Session, s: Scheduler, t: Scheduler, command: Command,
                        delay: nat, elapsed: nat, delay': nat, elapsed': nat)
    requires Consistent(session, s) && Consistent(session, t) && SamePlayback(s, t) && !s.paused
    requires elapsed <= delay && elapsed' <= delay' && delay - elapsed == delay' - elapsed'
    requires !command.SetSpeed? && !command.Seek?
    ensures SameOutcome(SleepingCommand(session, s, command, delay, elapsed),
                        SleepingCommand(session, t, command, delay', elapsed'))
  {}

  lemma SamePausedCommand(session: Session, s: Scheduler, t: Scheduler, command: Command)
    requires Consistent(session, s) && Consistent(session, t) && SamePlayback(s, t) && s.paused
    ensures SameOutcome(PausedCommand(session, s, command), PausedCommand(session, t, command))
  {
    match command
    case SetSpeed(speed) => SameSpeedInPause(session, s, t, speed);
    case Seek(timestamp) => SameSeek(session, s, t, timestamp);
    case _ => SameOtherInPause(session, s, t, command);
  }

  lemma SameSpeedInPause(session: Session, s: Scheduler, t: Scheduler, speed: real)
    requires Consistent(session, s) && Consistent(session, t) && SamePlayback(s, t) && s.paused
    ensures SameOutcome(PausedCommand(session, s, SetSpeed(speed)), PausedCommand(session, t, SetSpeed(speed)))
  {}

  lemma SameOtherInPause(session: Session, s: Scheduler, t: Scheduler, command: Command)
    requires Consistent(session, s) && Consistent(session, t) && SamePlayback(s, t) && s.paused
    requires !command.SetSpeed? && !command.Seek?
    ensures SameOutcome(PausedCommand(session, s, command), PausedCommand(session, t, command))
  {}

  lemma SameWhilePaused(session: Session, s: Scheduler, t: Scheduler, turn: Turn)
    requires Consistent(session, s) && Consistent(session, t) && SamePlayback(s, t) && s.paused
    ensures SameOutcome(PausedTurn(session, s, turn), PausedTurn(session, t, turn))
  {
    hide PausedCommand;
    match turn.wake
    case Received(command, after) =>
      var waited := turn.overhead + after;
      SameIdled(session, s, t, waited);
      SamePausedCommand(session, Idled(s, waited), Idled(t, waited), command);
      PausedReceives(session, s, turn);
      PausedReceives(session, t, turn);
    case _ =>
  }

  lemma SameIdled(session: Session, s: Scheduler, t: Scheduler, d: nat)
    requires Consistent(session, s) && Consistent(session, t) && SamePlayback(s, t) && s.paused
    ensures Consistent(session, Idled(s, d)) && Consistent(session, Idled(t, d))
    ensures SamePlayback(Idled(s, d), Idled(t, d)) && Idled(s, d).paused
  {}

  lemma SamePublish(session: Session, s: Scheduler, t: Scheduler, ok: bool)
    requires Consistent(session, s) && Consistent(session, t) && SamePlayback(s, t) && s.current.Some?
    ensures SameOutcome(Publish(session, s, ok), Publish(session, t, ok))
  {}

  lemma SameLater(s: Scheduler, t: Scheduler, d: nat)
    requires SamePlayback(s, t) && !s.paused
    ensures SamePlayback(Later(s, d), Later(t, d))
  {}

  lemma SameWaited(session: Session, s: Scheduler, t: Scheduler, delay: nat, wake: Wake, ok: bool)
    requires Consistent(session, s) && Consistent(session, t) && SamePlayback(s, t) && s.current.Some? && !s.paused
    ensures SameOutcome(Waited(session, s, delay, wake, ok), Waited(session, t, delay, wake, ok))
  {
    if delay == 0 {
      SamePublish(session, s, t, ok);
    } else {
      SameLater(s, t, delay);
      SamePublish(session, Later(s, delay), Later(t, delay), ok);
      match wake
      case Received(command, after) =>
        SameLater(s, t, after);
        if after <= delay {
          SameWhileSleeping(session, Later(s, after), Later(t, after), command, delay, after, delay, after);
        }
      case ChannelClosed(after) => SameLater(s, t, after);
      case SleepOver =>
    }
  }

  lemma SameAwait(session: Session, s: Scheduler, t: Scheduler, turn: Turn)
    requires Consistent(session, s) && Consistent(session, t) && SamePlayback(s, t) && s.current.Some? && !s.paused
    ensures SameOutcome(Await(session, s, turn), Await(session, t, turn))
  {
    SameDelay(session, s, t);
    SameWaited(
      session, TakeDelay(session, s), TakeDelay(session, t), PendingDelay(session, s), turn.wake, turn.publishOk);
  }

  lemma SameFetch(session: Session, s: Scheduler, t: Scheduler, fault: ReadFault)
    requires Consistent(session, s) && Consistent(session, t) && SamePlayback(s, t) && s.current.None? && !s.paused
    ensures SameOutcome(Fetch(session, s, fault), Fetch(session, t, fault))
    ensures !Fetch(session, s, fault).state.paused
  {}

  lemma SameProceed(session: Session, s: Scheduler, t: Scheduler, turn: Turn)
    requires Consistent(session, s) && Consistent(session, t) && SamePlayback(s, t) && !s.paused
    ensures SameOutcome(Proceed(session, s, turn), Proceed(session, t, turn))
  {
    if s.current.Some? {
      SameAwait(session, s, t, turn);
    } else {
      SameFetch(session, s, t, turn.fault);
      var fetched, fetched' := Fetch(session, s, turn.fault), Fetch(session, t, turn.fault);
      if fetched.state.running && fetched.state.current.Some? {
        SameAwait(session, fetched.state, fetched'.state, turn);
      }
    }
  }

  // A pass treats both alike.
  lemma SameStep(session: Session, s: Scheduler, t: Scheduler, turn: Turn)
    requires Consistent(session, s) && Consistent(session, t) && SamePlayback(s, t)
    ensures SameOutcome(Step(session, s, turn), Step(session, t, turn))
  {
    if s.running && s.paused {
      SameWhilePaused(session, s, t, turn);
    } else if s.running {
      SameLater(s, t, turn.overhead);
      SameProceed(session, Later(s, turn.overhead), Later(t, turn.overhead), turn);
    }
  }

  /* Pauses inserted into waits */

  // A pause that comes `after` into a wait and lasts `length`; the pass that goes back to the wait
  // then takes `overhead`.
  datatype Nap = Nap(after: nat, length: nat, overhead: nat)

  // A pass of the loop whose wait is interrupted by pauses one after the other; its own wake counts
  // from the end of the last one.
  datatype Item = Item(turn: Turn, naps: seq<Nap>)

  function Total(naps: seq<Nap>): nat { if naps == [] then 0 else naps[0].after + Total(naps[1..]) }

  // What the passes that go back to the wait take.
  function Lateness(naps: seq<Nap>): nat { if naps == [] then 0 else naps[0].overhead + Lateness(naps[1..]) }

  // The passes with the pauses in.
  function Expand(item: Item): seq<Turn>
    decreases |item.naps|
  {
    if item.naps == [] then [item.turn]
    else
      [item.turn.(wake := Received(Pause, item.naps[0].after)), ResumeTurn(item.naps[0])] + Expand(Rest(item))
  }

  function ResumeTurn(nap: Nap): Turn { Turn(0, NoFault, Received(Resume, nap.length), true) }

  function Rest(item: Item): Item
    requires item.naps != []
  {
    Item(item.turn.(overhead := item.naps[0].overhead), item.naps[1..])
  }

  function Postponed(wake: Wake, d: nat): Wake {
    match wake
    case SleepOver => SleepOver
    case Received(command, after) => Received(command, d + after)
    case ChannelClosed(after) => ChannelClosed(d + after)
  }

  // The one pass with the pauses taken out.
  function Erased(item: Item): Turn { item.turn.(wake := Postponed(item.turn.wake, Total(item.naps))) }

  // The state in which the pass waits, if it does.
  function InHand(session: Session, s: Scheduler, turn: Turn): (t: Scheduler)
    requires Consistent(session, s)
    ensures Consistent(session, t)
  {
    var t := Later(s, turn.overhead);
    if t.current.Some? then t else Fetch(session, t, turn.fault).state
  }

  predicate Waits(session: Session, s: Scheduler, turn: Turn)
    requires Consistent(session, s)
  {
    s.running && !s.paused && InHand(session, s, turn).current.Some?
  }

  predicate AtOnce(wake: Wake) { (wake.Received? || wake.ChannelClosed?) && wake.after == 0 }

  // The pauses come within a wait of this delay; one at its very end is the last, and nothing else
  // arrives together with it.
  predicate Within(naps: seq<Nap>, wake: Wake, delay: nat) {
    naps == [] ||
      (&& naps[0].after <= delay && delay > 0
       && if naps[0].after < delay then Within(naps[1..], wake, delay - naps[0].after)
          else |naps| == 1 && !AtOnce(wake))
  }

  // The pauses come while the pass waits for its packet.
  ghost predicate Lands(session: Session, s: Scheduler, item: Item)
    requires Consistent(session, s)
  {
    item.naps == [] ||
      (&& Waits(session, s, item.turn)
       && Within(item.naps, item.turn.wake, PendingDelay(session, InHand(session, s, item.turn))))
  }

  lemma WaitsInHand(session: Session, s: Scheduler, turn: Turn)
    requires Consistent(session, s) && Waits(session, s, turn)
    ensures
      var t := InHand(session, s, turn);
      Step(session, s, turn) ==
      Waited(session, TakeDelay(session, t), PendingDelay(session, t), turn.wake, turn.publishOk)
  {
    hide Waited, TakeDelay, PendingDelay;
  }

  lemma TakenInHand(session: Session, s: Scheduler)
    requires Consistent(session, s) && s.current.Some?
    ensures TakeDelay(session, s).current.Some?
  {}

  // A wait is as good as its parts.
  lemma WaitSplits(session: Session, s: Scheduler, delay: nat, a: nat, wake: Wake, ok: bool)
    requires Consistent(session, s) && s.current.Some? && a <= delay && delay > 0 && (a == delay ==> !AtOnce(wake))
    ensures Consistent(session, Later(s, a))
    ensures Waited(session, s, delay, Postponed(wake, a), ok) == Waited(session, Later(s, a), delay - a, wake, ok)
  {
    hide Publish, SleepingCommand;
    assert Later(Later(s, a), delay - a) == Later(s, delay);
    match wake
    case Received(command, after) =>
      assert Later(Later(s, a), after) == Later(s, a + after);
      if a + after <= delay {
        SameRemainder(session, Later(s, a + after), command, delay, a + after, delay - a, after);
      }
    case _ =>
  }

  // A command sees of the wait only what is left of it.
  lemma SameRemainder(
    session: Session, s: Scheduler, command: Command, delay: nat, elapsed: nat, delay': nat, elapsed': nat)
    requires Consistent(session, s) && elapsed <= delay && elapsed' <= delay' && delay - elapsed == delay' - elapsed'
    ensures SleepingCommand(session, s, command, delay, elapsed) ==
      SleepingCommand(session, s, command, delay', elapsed')
  {}

  // The pass, were its wait to begin `late` after its delay has been computed.
  function StepLate(session: Session, s: Scheduler, turn: Turn, late: nat): (r: Outcome)
    requires Consistent(session, s)
    ensures Consistent(session, r.state)
  {
    if Waits(session, s, turn) then
      var t := InHand(session, s, turn);
      Waited(session, Later(TakeDelay(session, t), late), PendingDelay(session, t), turn.wake, turn.publishOk)
    else Step(session, s, turn)
  }

  lemma NotLate(session: Session, s: Scheduler, turn: Turn)
    requires Consistent(session, s)
    ensures StepLate(session, s, turn, 0) == Step(session, s, turn)
  {
    hide Step, Waited, InHand, TakeDelay, PendingDelay;
    if Waits(session, s, turn) {
      WaitsInHand(session, s, turn);
    }
  }

  lemma SameInHand(session: Session, s: Scheduler, t: Scheduler, turn: Turn)
    requires Consistent(session, s) && Consistent(session, t) && SamePlayback(s, t)
    ensures Waits(session, s, turn) == Waits(session, t, turn)
    ensures Waits(session, s, turn) ==>
      SamePlayback(InHand(session, s, turn), InHand(session, t, turn)) && !InHand(session, s, turn).paused
  {
    hide Fetch;
    if !s.paused {
      var s', t' := Later(s, turn.overhead), Later(t, turn.overhead);
      SameLater(s, t, turn.overhead);
      if s'.current.None? {
        SameFetch(session, s', t', turn.fault);
      }
    }
  }

  lemma SameStepLate(session: Session, s: Scheduler, t: Scheduler, turn: Turn, late: nat)
    requires Consistent(session, s) && Consistent(session, t) && SamePlayback(s, t)
    ensures SameOutcome(StepLate(session, s, turn, late), StepLate(session, t, turn, late))
  {
    hide Step, Waited, PendingDelay, SamePlayback, InHand, Delayed;
    SameInHand(session, s, t, turn);
    if Waits(session, s, turn) {
      var s', t' := InHand(session, s, turn), InHand(session, t, turn);
      SameDelay(session, s', t');
      SameLater(TakeDelay(session, s'), TakeDelay(session, t'), late);
      SameWaited(session, Later(TakeDelay(session, s'), late), Later(TakeDelay(session, t'), late),
                 PendingDelay(session, s'), turn.wake, turn.publishOk);
    } else {
      SameStep(session, s, t, turn);
    }
  }

  // Where the wait starts, its packet in hand and its delay taken.
  function Waiting(session: Session, s: Scheduler, turn: Turn): (u: Scheduler)
    requires Consistent(session, s) && Waits(session, s, turn)
    ensures Consistent(session, u)
  {
    TakeDelay(session, InHand(session, s, turn))
  }

  lemma WaitingReady(session: Session, s: Scheduler, turn: Turn)
    requires Consistent(session, s) && Timed(s) && Waits(session, s, turn)
    ensures
      var u := Waiting(session, s, turn);
      Timed(u) && u.running && !u.paused && u.current.Some? && u.remaining.None?
  {
    var t := Later(s, turn.overhead);
    SameLater(s, s, turn.overhead);
    if t.current.None? {
      SameFetch(session, t, t, turn.fault);
    }
    SameDelay(session, InHand(session, s, turn), InHand(session, s, turn));
  }

  // A pause within a wait, and the resumption.
  lemma PauseThenResume(session: Session, u: Scheduler, delay: nat, nap: Nap)
    requires Consistent(session, u) && Timed(u) && !u.paused && u.running && u.current.Some? && nap.after <= delay
    ensures
      var p := SleepingCommand(session, Later(u, nap.after), Pause, delay, nap.after);
      var v := PausedCommand(session, Idled(p.state, nap.length), Resume);
      && p.events == [] && v.events == [] && p.state.running && p.state.paused
      && SamePlayback(v.state, Later(u, nap.after).(remaining := Some(delay - nap.after)))
  {}

  // The first two passes of an interrupted wait, and what they leave.
  lemma FirstNap(session: Session, s: Scheduler, turn: Turn, nap: Nap)
    requires Consistent(session, s) && Timed(s) && Waits(session, s, turn)
    requires PendingDelay(session, InHand(session, s, turn)) > 0
    requires nap.after <= PendingDelay(session, InHand(session, s, turn))
    ensures
      var p := Step(session, s, turn.(wake := Received(Pause, nap.after)));
      var v := Step(session, p.state, ResumeTurn(nap));
      var delay := PendingDelay(session, InHand(session, s, turn));
      && p.events == [] && v.events == []
      && SamePlayback(v.state, Later(Waiting(session, s, turn), nap.after).(remaining := Some(delay - nap.after)))
  {
    hide TakeDelay, PendingDelay, InHand;
    var u, delay := Waiting(session, s, turn), PendingDelay(session, InHand(session, s, turn));
    WaitingReady(session, s, turn);
    PauseThenResume(session, u, delay, nap);
    PauseStep(session, s, turn, nap.after);
    var p := SleepingCommand(session, Later(u, nap.after), Pause, delay, nap.after).state;
    ResumeStep(session, p, nap);
  }

  lemma PauseStep(session: Session, s: Scheduler, turn: Turn, after: nat)
    requires Consistent(session, s) && Waits(session, s, turn)
    requires PendingDelay(session, InHand(session, s, turn)) > 0
    requires after <= PendingDelay(session, InHand(session, s, turn))
    ensures Step(session, s, turn.(wake := Received(Pause, after))) ==
      SleepingCommand(session, Later(Waiting(session, s, turn), after), Pause,
                      PendingDelay(session, InHand(session, s, turn)), after)
  {
    hide Step, SleepingCommand, TakeDelay, PendingDelay;
    var pause := turn.(wake := Received(Pause, after));
    assert InHand(session, s, pause) == InHand(session, s, turn);
    WaitsInHand(session, s, pause);
  }

  lemma ResumeStep(session: Session, p: Scheduler, nap: Nap)
    requires Consistent(session, p) && p.running && p.paused
    ensures Step(session, p, ResumeTurn(nap)) == PausedCommand(session, Idled(p, nap.length), Resume)
  {
    hide PausedCommand, Proceed;
    PausedReceives(session, p, ResumeTurn(nap));
  }

  // The wait for what the first pause left over.
  function LeftOver(session: Session, s: Scheduler, item: Item): (w: Scheduler)
    requires Consistent(session, s) && item.naps != [] && Lands(session, s, item)
    ensures Consistent(session, w)
  {
    var after := item.naps[0].after;
    Later(Waiting(session, s, item.turn), after).(
      remaining := Some(PendingDelay(session, InHand(session, s, item.turn)) - after))
  }

  lemma RestOfWait(session: Session, s: Scheduler, item: Item, late: nat)
    requires Consistent(session, s) && Timed(s) && item.naps != [] && Lands(session, s, item)
    ensures
      var w := LeftOver(session, s, item);
      && Timed(w) && Lands(session, w, Rest(item))
      && StepLate(session, w, Erased(Rest(item)), late) ==
         StepLate(session, s, Erased(item), item.naps[0].overhead + late)
  {
    hide Step, Waited, Delay, Delayed, Fetch;
    var nap, turn, rest := item.naps[0], item.turn, Rest(item);
    var u, delay := Waiting(session, s, turn), PendingDelay(session, InHand(session, s, turn));
    WaitingReady(session, s, turn);
    var w := LeftOver(session, s, item);
    assert InHand(session, w, Erased(rest)) == Later(w, nap.overhead);
    assert InHand(session, s, Erased(item)) == InHand(session, s, turn);
    assert Later(TakeDelay(session, Later(w, nap.overhead)), late) == Later(Later(u, nap.overhead + late), nap.after);
    assert Erased(item).wake == Postponed(Erased(rest).wake, nap.after);
    WaitSplits(session, Later(u, nap.overhead + late), delay, nap.after, Erased(rest).wake, turn.publishOk);
  }

  lemma LandsAlike(session: Session, s: Scheduler, t: Scheduler, item: Item)
    requires Consistent(session, s) && Consistent(session, t) && SamePlayback(s, t) && Lands(session, s, item)
    ensures Lands(session, t, item)
  {
    hide InHand, PendingDelay, SamePlayback;
    if item.naps != [] {
      SameInHand(session, s, t, item.turn);
      SameDelay(session, InHand(session, s, item.turn), InHand(session, t, item.turn));
    }
  }

  /* Whole runs */

  lemma {:induction false} ExecConcat(session: Session, s: Scheduler, a: seq<Turn>, b: seq<Turn>)
    requires Consistent(session, s)
    ensures
      var before := Exec(session, s, a);
      var after := Exec(session, before.state, b);
      Exec(session, s, a + b) == Outcome(after.state, before.events + after.events)
    decreases |b|
  {
    hide Step;
    if b == [] {
      assert a + b == a;
    } else {
      var init := b[..|b| - 1];
      ExecConcat(session, s, a, init);
      assert (a + b)[..|a + b| - 1] == a + init;
    }
  }

  lemma ExecCons(session: Session, s: Scheduler, turn: Turn, rest: seq<Turn>)
    requires Consistent(session, s)
    ensures
      var p := Step(session, s, turn);
      var after := Exec(session, p.state, rest);
      Exec(session, s, [turn] + rest) == Outcome(after.state, p.events + after.events)
  {
    ExecConcat(session, s, [turn], rest);
    ExecOne(session, s, turn);
  }

  lemma ExecOne(session: Session, s: Scheduler, turn: Turn)
    requires Consistent(session, s)
    ensures Exec(session, s, [turn]) == Step(session, s, turn)
  {
    hide Step;
    assert [turn][..0] == [];
    assert Exec(session, s, [turn][..0]) == Outcome(s, []);
  }

  // One interrupted wait does what the wait without interruptions does, were that to begin later by
  // what the passes going back to it take.
  lemma {:induction false} NapsErased(session: Session, s: Scheduler, item: Item)
    requires Consistent(session, s) && Timed(s) && Lands(session, s, item)
    ensures SameOutcome(Exec(session, s, Expand(item)), StepLate(session, s, Erased(item), Lateness(item.naps)))
    decreases |item.naps|
  {
    hide Step, StepLate, SamePlayback, InHand, PendingDelay, Waiting, LeftOver, Waits;
    if item.naps == [] {
      ExecOne(session, s, item.turn);
      assert Erased(item) == item.turn;
      NotLate(session, s, item.turn);
      SameAsItself(s);
      SameStep(session, s, s, item.turn);
    } else {
      var rest, late := Rest(item), Lateness(Rest(item).naps);
      var pause, resume := Expand(item)[0], Expand(item)[1];
      var p := Step(session, s, pause).state;
      var v := Step(session, p, resume).state;
      var w := LeftOver(session, s, item);
      RestOfWait(session, s, item, late);
      FirstNapLeaves(session, s, item);
      LandsAlike(session, w, v, rest);
      NapsErased(session, v, rest);
      SameStepLate(session, v, w, Erased(rest), late);
      assert Expand(item) == [pause] + ([resume] + Expand(rest));
      ExecCons(session, s, pause, [resume] + Expand(rest));
      ExecCons(session, p, resume, Expand(rest));
      SameTransitive(Exec(session, v, Expand(rest)), StepLate(session, v, Erased(rest), late),
                     StepLate(session, w, Erased(rest), late));
    }
  }

  lemma FirstNapLeaves(session: Session, s: Scheduler, item: Item)
    requires Consistent(session, s) && Timed(s) && item.naps != [] && Lands(session, s, item)
    ensures
      var p := Step(session, s, Expand(item)[0]);
      var v := Step(session, p.state, Expand(item)[1]);
      && p.events == [] && v.events == [] && Timed(v.state)
      && SamePlayback(LeftOver(session, s, item), v.state) && SamePlayback(v.state, LeftOver(session, s, item))
  {
    hide Step, InHand, PendingDelay, Waiting, Waits;
    FirstNap(session, s, item.turn, item.naps[0]);
  }

  lemma SameAsItself(s: Scheduler)
    requires Timed(s)
    ensures SamePlayback(s, s)
  {}

  lemma SameTransitive(a: Outcome, b: Outcome, c: Outcome)
    requires SameOutcome(a, b) && SameOutcome(b, c)
    ensures SameOutcome(a, c)
  {}

  function Expanded(items: seq<Item>): seq<Turn>
    decreases |items|
  {
    if items == [] then [] else Expanded(items[..|items| - 1]) + Expand(items[|items| - 1])
  }

  function WithoutNaps(items: seq<Item>): (script: seq<Turn>)
    ensures |script| == |items|
    ensures forall k :: 0 <= k < |script| ==> script[k] == Erased(items[k])
  {
    seq(|items|, k requires 0 <= k < |items| => Erased(items[k]))
  }

  // Every pause of the run comes while a packet is being waited for.
  ghost predicate AllLand(session: Session, s: Scheduler, items: seq<Item>)
    requires Consistent(session, s)
    decreases |items|
  {
    items == [] ||
      (&& AllLand(session, s, items[..|items| - 1])
       && Lands(session, Exec(session, s, Expanded(items[..|items| - 1])).state, items[|items| - 1]))
  }

  // The run without its pauses, each of its waits beginning later by what going back to it took.
  function ExecLate(session: Session, s: Scheduler, items: seq<Item>): (r: Outcome)
    requires Consistent(session, s)
    ensures Consistent(session, r.state)
    decreases |items|
  {
    if items == [] then Outcome(s, [])
    else
      var before, last := ExecLate(session, s, items[..|items| - 1]), items[|items| - 1];
      var step := StepLate(session, before.state, Erased(last), Lateness(last.naps));
      Outcome(step.state, before.events + step.events)
  }

  // All that the pauses of a run do, in unpaused time, is to delay its waits by the overhead of going
  // back to them; commands in the run itself may be any.
  lemma {:induction false} PausesOnlyDelay(session: Session, s: Scheduler, items: seq<Item>)
    requires Consistent(session, s) && Timed(s) && AllLand(session, s, items)
    ensures SameOutcome(Exec(session, s, Expanded(items)), ExecLate(session, s, items))
    decreases |items|
  {
    hide Step, StepLate, SamePlayback, Lands, Expand, Erased;
    if items == [] {
      SameAsItself(s);
    } else {
      var init, last := items[..|items| - 1], items[|items| - 1];
      var late := Lateness(last.naps);
      PausesOnlyDelay(session, s, init);
      var x, y := Exec(session, s, Expanded(init)), ExecLate(session, s, init);
      SameTimed(x.state, y.state);
      NapsErased(session, x.state, last);
      SameStepLate(session, x.state, y.state, Erased(last), late);
      SameTransitive(Exec(session, x.state, Expand(last)), StepLate(session, x.state, Erased(last), late),
                     StepLate(session, y.state, Erased(last), late));
      ExecConcat(session, s, Expanded(init), Expand(last));
    }
  }

  predicate Prompt(items: seq<Item>) { forall k :: 0 <= k < |items| ==> Lateness(items[k].naps) == 0 }

  lemma {:induction false} PromptIsOnTime(session: Session, s: Scheduler, items: seq<Item>)
    requires Consistent(session, s) && Prompt(items)
    ensures ExecLate(session, s, items) == Exec(session, s, WithoutNaps(items))
    decreases |items|
  {
    hide Step, StepLate, Erased;
    if items != [] {
      var init, last := items[..|items| - 1], items[|items| - 1];
      PromptIsOnTime(session, s, init);
      assert WithoutNaps(items)[..|items| - 1] == WithoutNaps(init);
      NotLate(session, ExecLate(session, s, init).state, Erased(last));
    }
  }

  // Without that overhead they do nothing: packets, and every other event, come exactly as they would.
  lemma PausesLeaveNoTrace(session: Session, s: Scheduler, items: seq<Item>)
    requires Consistent(session, s) && Timed(s) && AllLand(session, s, items) && Prompt(items)
    ensures SameOutcome(Exec(session, s, Expanded(items)), Exec(session, s, WithoutNaps(items)))
  {
    hide AllLand, Exec, ExecLate, SamePlayback, WithoutNaps;
    PausesOnlyDelay(session, s, items);
    PromptIsOnTime(session, s, items);
  }

  lemma SameTimed(s: Scheduler, t: Scheduler)
    requires SamePlayback(s, t)
    ensures Timed(s) && Timed(t)
  {}

  // Sessions start that way.
  lemma SessionPausesOnlyDelay(session: Session, speed: real, looping: bool, start: nat, items: seq<Item>)
    requires ValidSession(session) && AllLand(session, Begin(session, speed, looping, start), items)
    ensures
      var begin := Begin(session, speed, looping, start);
      && Exec(session, begin, Expanded(items)).events == ExecLate(session, begin, items).events
      && (Prompt(items) ==>
            Exec(session, begin, Expanded(items)).events == Exec(session, begin, WithoutNaps(items)).events)
  {
    hide AllLand, Exec, ExecLate, Begin, SamePlayback, WithoutNaps;
    BeginTimed(session, speed, looping, start);
    PausesOnlyDelay(session, Begin(session, speed, looping, start), items);
    if Prompt(items) {
      PromptIsOnTime(session, Begin(session, speed, looping, start), items);
    }
  }

  lemma BeginTimed(session: Session, speed: real, looping: bool, start: nat)
    requires ValidSession(session)
    ensures Timed(Begin(session, speed, looping, start))
  {}
}
