/** What the playback loop and its clock achieve together: when packets go out, that drift does not
    accumulate, and that pauses leave no trace in unpaused time. */
module ReplayTiming {
  import opened Prelude
  import opened TimingEngine
  import opened ReplayScheduler
  import opened ClockHistory

  /* Drift */

  // A run without commands, pauses or faults: only the overhead of each pass is left open.
  function Undisturbed(overheads: seq<nat>): (script: seq<Turn>)
    ensures |script| == |overheads|
    ensures forall k :: 0 <= k < |script| ==> script[k] == Turn(overheads[k], NoFault, SleepOver, true)
  {
    seq(|overheads|, k requires 0 <= k < |overheads| => Turn(overheads[k], NoFault, SleepOver, true))
  }

  predicate Ascending(times: seq<nat>) { forall i, j :: 0 <= i <= j < |times| ==> times[i] <= times[j] }

  // The recorded offset of the k-th packet of the session, and its gap to the one before, at speed.
  function Offset(session: Session, speed: real, k: nat): nat
    requires ValidSession(session) && Ascending(session.times) && speed > 0.0 && session.first + k < |session.times|
  {
    Scaled(session.times[session.first + k] - session.times[session.first], speed)
  }

  function Gap(session: Session, speed: real, k: nat): nat
    requires ValidSession(session) && Ascending(session.times) && speed > 0.0 && session.first + k < |session.times|
  {
    if k == 0 then 0 else Scaled(session.times[session.first + k] - session.times[session.first + k - 1], speed)
  }

  // When the k-th packet goes out, counted from the start of the session.
  function SentAt(session: Session, speed: real, overheads: seq<nat>, k: nat): nat
    requires ValidSession(session) && Ascending(session.times) && speed > 0.0
    requires session.first + k < |session.times| && k < |overheads|
  {
    var ready := (if k == 0 then 0 else SentAt(session, speed, overheads, k - 1)) + overheads[k];
    Max(ready, Offset(session, speed, k) + Gap(session, speed, k))
  }

  function ClockAfter(session: Session, speed: real, start: nat, k: nat, drift: int): Clock
    requires ValidSession(session) && session.first + k <= |session.times|
  {
    var first := session.times[session.first];
    var last := if k == 0 then first else session.times[session.first + k - 1];
    Clock(speed, true, Some(start), Some(first), Some(last), None, 0, drift, k)
  }

  // After n undisturbed passes: n packets are out, each at its time.
  ghost predicate OnSchedule(
    session: Session, speed: real, looping: bool, start: nat, overheads: seq<nat>, n: nat, r: Outcome)
    requires ValidSession(session) && Ascending(session.times) && speed > 0.0
    requires session.first + n <= |session.times| && n <= |overheads|
  {
    && |r.events| == n
    && (forall k :: 0 <= k < n ==>
          r.events[k] == Published(session.first + k, start + SentAt(session, speed, overheads, k)))
    && r.state == Scheduler(
         start + (if n == 0 then 0 else SentAt(session, speed, overheads, n - 1)), 0, session.first + n,
         ClockAfter(session, speed, start, n, r.state.clock.driftTotal), true, false, None, None, speed, looping)
  }

  lemma {:induction false} SentOnSchedule(
    session: Session, speed: real, looping: bool, start: nat, overheads: seq<nat>, n: nat)
    requires ValidSession(session) && Rewinds(session) && Ascending(session.times) && speed > 0.0
    requires session.first + n <= |session.times| && n <= |overheads|
    ensures
      var r := Exec(session, Begin(session, speed, looping, start), Undisturbed(overheads)[..n]);
      OnSchedule(session, speed, looping, start, overheads, n, r)
  {
    hide OnSchedule, Step, Begin, SentAt, Ascending;
    if n == 0 {
      NothingSent(session, speed, looping, start, overheads);
    } else {
      SentOnSchedule(session, speed, looping, start, overheads, n - 1);
      var begin, script := Begin(session, speed, looping, start), Undisturbed(overheads);
      ExecNext(session, begin, script, n - 1);
      ScheduleStep(session, speed, looping, start, overheads, n - 1, Exec(session, begin, script[..n - 1]));
    }
  }

  lemma NothingSent(session: Session, speed: real, looping: bool, start: nat, overheads: seq<nat>)
    requires ValidSession(session) && Rewinds(session) && Ascending(session.times) && speed > 0.0
    ensures
      var r := Exec(session, Begin(session, speed, looping, start), Undisturbed(overheads)[..0]);
      OnSchedule(session, speed, looping, start, overheads, 0, r)
  {
    assert Undisturbed(overheads)[..0] == [];
  }

  lemma ScheduleStep(
    session: Session, speed: real, looping: bool, start: nat, overheads: seq<nat>, k: nat, before: Outcome)
    requires ValidSession(session) && Ascending(session.times) && speed > 0.0
    requires session.first + k < |session.times| && k < |overheads|
    requires OnSchedule(session, speed, looping, start, overheads, k, before)
    ensures Consistent(session, before.state)
    ensures OnSchedule(
              session, speed, looping, start, overheads, k + 1,
              AndThen(session, before, Turn(overheads[k], NoFault, SleepOver, true)))
  {
    hide Step, SentAt;
    NextOnSchedule(session, speed, before.state, start, k, overheads);
  }

  // One undisturbed pass.
  lemma NextOnSchedule(session: Session, speed: real, s: Scheduler, start: nat, k: nat, overheads: seq<nat>)
    requires ValidSession(session) && Ascending(session.times) && speed > 0.0
    requires k < |overheads| && session.first + k < |session.times|
    requires s.clock == ClockAfter(session, speed, start, k, s.clock.driftTotal) && s.idle == 0
    requires s.now == start + if k == 0 then 0 else SentAt(session, speed, overheads, k - 1)
    requires s.running && !s.paused && s.current.None? && s.remaining.None? && s.position == session.first + k
    ensures Consistent(session, s)
    ensures
      var r := Step(session, s, Turn(overheads[k], NoFault, SleepOver, true));
      var sent := start + SentAt(session, speed, overheads, k);
      && r.events == [Published(session.first + k, sent)]
      && r.state == s.(now := sent, position := session.first + k + 1,
                       clock := ClockAfter(session, speed, start, k + 1, r.state.clock.driftTotal))
  {
    hide Delay, Scaled, SentAt;
    DelayOnSchedule(session, speed, s.clock, start, k, overheads);
  }

  // The delay that brings the pass to its time.
  lemma DelayOnSchedule(session: Session, speed: real, c: Clock, start: nat, k: nat, overheads: seq<nat>)
    requires ValidSession(session) && Ascending(session.times) && speed > 0.0
    requires k < |overheads| && session.first + k < |session.times|
    requires c == ClockAfter(session, speed, start, k, c.driftTotal)
    ensures
      var ready := start + (if k == 0 then 0 else SentAt(session, speed, overheads, k - 1)) + overheads[k];
      ready + Delay(c, session.times[session.first + k], ready) == start + SentAt(session, speed, overheads, k)
  {
    var timestamp := session.times[session.first + k];
    var ready := start + (if k == 0 then 0 else SentAt(session, speed, overheads, k - 1)) + overheads[k];
    DelayReachesTarget(c, timestamp, ready);
    assert Active(c, ready) == ready - start;
    assert Expected(c, timestamp) == Offset(session, speed, k);
    if k == 0 {
      ScaledZero(speed);
    }
    assert BaseDelay(c, timestamp) == Gap(session, speed, k);
  }

  lemma ScaledZero(speed: real)
    requires speed > 0.0
    ensures Scaled(0, speed) == 0
  {}

  // Told from the events alone: each packet goes out when it is ready or, if that is later, at its
  // recorded offset from the first packet plus its gap to the one before, both at playback speed.
  lemma EventsInRecordedTime(
    session: Session, speed: real, looping: bool, start: nat, overheads: seq<nat>, n: nat, k: nat)
    returns (offset: nat, gap: nat)
    requires ValidSession(session) && Rewinds(session) && Ascending(session.times) && speed > 0.0
    requires k < n <= |overheads| && session.first + n <= |session.times|
    ensures
      var times, first := session.times, session.first;
      && Lasts(offset, times[first + k] - times[first], speed)
      && Lasts(gap, if k == 0 then 0 else times[first + k] - times[first + k - 1], speed)
    ensures
      var events := Exec(session, Begin(session, speed, looping, start), Undisturbed(overheads)[..n]).events;
      && |events| == n && (forall j :: 0 <= j < n ==> events[j].Published? && events[j].index == session.first + j)
      && events[k].at == Max((if k == 0 then start else events[k - 1].at) + overheads[k], start + offset + gap)
  {
    hide SentAt, Exec, Begin;
    SentOnSchedule(session, speed, looping, start, overheads, n);
    offset, gap := Offset(session, speed, k), Gap(session, speed, k);
    ScaledLasts(session.times[session.first + k] - session.times[session.first], speed);
    ScaledLasts(if k == 0 then 0 else session.times[session.first + k] - session.times[session.first + k - 1], speed);
    ScaledZero(speed);
    SentIs(session, speed, overheads, k);
  }

  lemma SentIs(session: Session, speed: real, overheads: seq<nat>, k: nat)
    requires ValidSession(session) && Ascending(session.times) && speed > 0.0
    requires session.first + k < |session.times| && k < |overheads|
    ensures SentAt(session, speed, overheads, k) ==
      Max((if k == 0 then 0 else SentAt(session, speed, overheads, k - 1)) + overheads[k],
          Offset(session, speed, k) + Gap(session, speed, k))
  {}

  // No packet goes out before its recorded time at playback speed.
  lemma NeverBeforeRecordedTime(
    session: Session, speed: real, looping: bool, start: nat, overheads: seq<nat>, n: nat, k: nat)
    requires ValidSession(session) && Rewinds(session) && Ascending(session.times) && speed > 0.0
    requires k < n <= |overheads| && session.first + n <= |session.times|
    ensures
      var events := Exec(session, Begin(session, speed, looping, start), Undisturbed(overheads)[..n]).events;
      && |events| == n && events[k].Published? && events[k].index == session.first + k && events[k].at >= start
      && (session.times[session.first + k] - session.times[session.first]) as real
           < (events[k].at - start + 1) as real * speed
  {
    hide Exec, Begin, Lasts;
    var offset, gap := EventsInRecordedTime(session, speed, looping, start, overheads, n, k);
    var events := Exec(session, Begin(session, speed, looping, start), Undisturbed(overheads)[..n]).events;
    LaterLasts(offset, events[k].at - start, session.times[session.first + k] - session.times[session.first], speed);
  }

  lemma LaterLasts(n: nat, m: nat, duration: nat, speed: real)
    requires Lasts(n, duration, speed) && n <= m && speed > 0.0
    ensures duration as real < (m + 1) as real * speed
  {
    ProductGrows((n + 1) as real, (m + 1) as real, speed);
  }

  // What a session causes that finds its first packet and is not disturbed; in particular no packet goes out
  // before its recorded time at playback speed, to the nanosecond.
  lemma PlayedInRecordedTime(
    session: Session, speed: real, looping: bool, start: nat, overheads: seq<nat>, n: nat, k: nat)
    requires ValidSession(session) && SeeksOver(session) && Rewinds(session)
    requires Ascending(session.times) && speed > 0.0
    requires k < n <= |overheads| && session.first + n <= |session.times|
    ensures
      var trace := Played(session, session.first, NoFault, speed, looping, start, Undisturbed(overheads)[..n]);
      && |trace| == n && trace[k].Published? && trace[k].index == session.first + k && trace[k].at >= start
      && (session.times[session.first + k] - session.times[session.first]) as real
           < (trace[k].at - start + 1) as real * speed
  {
    hide Exec, Begin, SeeksOver;
    NeverBeforeRecordedTime(session, speed, looping, start, overheads, n, k);
  }

  // No packet goes out before its recorded offset.
  lemma NeverEarly(session: Session, speed: real, overheads: seq<nat>, k: nat)
    requires ValidSession(session) && Ascending(session.times) && speed > 0.0
    requires session.first + k < |session.times| && k < |overheads|
    ensures SentAt(session, speed, overheads, k) >= Offset(session, speed, k)
  {}

  // If no pass takes longer than the gap it bridges, the lag never exceeds a bound on the first lag
  // and on the gaps, however long the run.
  lemma {:induction false} LagStaysBounded(session: Session, speed: real, overheads: seq<nat>, k: nat, bound: nat)
    requires ValidSession(session) && Ascending(session.times) && speed > 0.0
    requires session.first + k < |session.times| && k < |overheads|
    requires overheads[0] <= bound
    requires forall j :: 1 <= j <= k ==> overheads[j] <= Gap(session, speed, j) <= bound
    ensures SentAt(session, speed, overheads, k) - Offset(session, speed, k) <= bound
  {
    if k == 0 {
      ScaledZero(speed);
    } else {
      LagStaysBounded(session, speed, overheads, k - 1, bound);
      var times, f := session.times, session.first;
      ScaledAdds(times[f + k - 1] - times[f], times[f + k] - times[f + k - 1], speed);
      assert Offset(session, speed, k - 1) + Gap(session, speed, k) <= Offset(session, speed, k);
      assert overheads[k] <= Gap(session, speed, k) <= bound;
    }
  }

  // A speed change releases the packet being waited for: nothing is left of its delay.
  lemma SpeedChangeReleases(session: Session, s: Scheduler, speed: real, delay: nat, elapsed: nat)
    requires Consistent(session, s) && s.current.Some?
    ensures SleepingCommand(session, s, SetSpeed(speed), delay, elapsed).state.remaining == Some(0)
  {
    ScaledZero(Normal(speed));
  }

  // The packet is published by the next pass, as soon as that is ready and whatever it brings.
  lemma SpeedChangePublishesNext(
    session: Session, s: Scheduler, speed: real, delay: nat, elapsed: nat, turn: Turn)
    requires Consistent(session, s) && s.current.Some? && s.running && !s.paused && turn.publishOk
    ensures
      var changed := SleepingCommand(session, s, SetSpeed(speed), delay, elapsed).state;
      Step(session, changed, turn).events == [Published(s.current.value, s.now + turn.overhead - s.idle)]
  {
    hide Delay, Delayed, SpeedSet;
    SpeedChangeReleases(session, s, speed, delay, elapsed);
    var changed := SleepingCommand(session, s, SetSpeed(speed), delay, elapsed).state;
    assert changed.now == s.now && changed.idle == s.idle && changed.current == s.current;
  }

  // A command that changes neither state nor clock, a loop setting or a needless resume.
  predicate Idle(command: Command) { command.SetLoop? || command.Resume? }

  // It makes the next pass compute the delay anew, from a packet already counted as the last: the
  // packet goes out at its place on the clock, without its gap to the one before.
  lemma IdleCommandDropsGap(session: Session, s: Scheduler, command: Command, delay: nat, elapsed: nat)
    requires Consistent(session, s) && s.current.Some? && s.remaining.None? && Idle(command)
    requires s.clock.lastTimestamp == Some(session.times[s.current.value])
    ensures
      var r := SleepingCommand(session, s, command, delay, elapsed).state;
      PendingDelay(session, r) == Minus(Expected(s.clock, session.times[s.current.value]), Active(s.clock, s.now))
  {
    ScaledZero(s.clock.speed);
  }

  // The delay goes on as it was if and only if it was over, or its packet had no gap.
  lemma IdleCommandHarmlessIff(session: Session, s: Scheduler, turn: Turn)
    requires Consistent(session, s) && InTime(s) && !s.paused && s.current.Some? && s.remaining.None?
    requires turn.wake.Received? && Idle(turn.wake.command)
    requires 0 < PendingDelay(session, s) && turn.wake.after <= PendingDelay(session, s)
    ensures
      var delay, after := PendingDelay(session, s), turn.wake.after;
      var r := Await(session, s, turn).state;
      && r.current == s.current
      && (PendingDelay(session, r) == delay - after <==>
          after == delay || BaseDelay(s.clock, session.times[s.current.value]) == 0)
  {
    var timestamp := session.times[s.current.value];
    var delay, after := PendingDelay(session, s), turn.wake.after;
    var t := Later(TakeDelay(session, s), after);
    DelayReachesTarget(s.clock, timestamp, s.now);
    IdleCommandDropsGap(session, t, turn.wake.command, delay, after);
    assert Active(t.clock, t.now) == Active(s.clock, s.now) + after;
    assert Expected(t.clock, timestamp) == Expected(s.clock, timestamp);
  }

  /* Segments */

  // Time counts from this moment, and places on the clock from this timestamp.
  ghost predicate OpensSegment(c: Clock, timestamp: nat, now: nat)
    requires Ticking(c)
  {
    && (forall at: nat {:trigger Active(c, at)} :: at >= now ==> Active(c, at) == at - now)
    && (forall u: nat {:trigger Expected(c, u)} :: u >= timestamp ==> Expected(c, u) == Scaled(u - timestamp, c.speed))
    && c.lastTimestamp == Some(timestamp)
  }

  lemma RestartOpens(c: Clock, timestamp: nat, now: nat)
    requires Ticking(c) && c.sessionStart.Some?
    ensures OpensSegment(Restarted(c, timestamp, now), timestamp, now)
  {
    var r := Restarted(c, timestamp, now);
    forall at: nat {:trigger Active(r, at)} | at >= now
      ensures Active(r, at) == at - now
    {}
    forall u: nat {:trigger Expected(r, u)} | u >= timestamp
      ensures Expected(r, u) == Scaled(u - timestamp, c.speed)
    {}
  }

  // Seeks and loop restarts open a segment at the speed in force and leave no packet waiting.
  lemma SeekOpensSegment(session: Session, s: Scheduler, timestamp: nat)
    requires Consistent(session, s)
    ensures
      var r := DoSeek(session, s, timestamp).state;
      && OpensSegment(r.clock, timestamp, s.now) && r.clock.speed == s.clock.speed
      && r.current.None? && r.remaining.None? && r.position == session.seek(timestamp)
  {
    hide OpensSegment;
    RestartOpens(s.clock, timestamp, s.now);
  }

  lemma LoopOpensSegment(session: Session, s: Scheduler, fault: ReadFault)
    requires Consistent(session, s) && s.current.None? && s.position == |session.times|
    requires s.looping && !fault.BrokenRewind?
    ensures
      var r := Fetch(session, s, fault).state;
      var start := session.times[session.first];
      && OpensSegment(r.clock, start, s.now) && r.clock.speed == s.clock.speed
      && r.running == s.running && r.current.None? && r.position == session.seek(start)
  {
    hide OpensSegment;
    RestartOpens(s.clock, session.times[session.first], s.now);
  }

  // A speed change during a pause reaches the clock exactly if a packet is in hand, so not after a
  // seek in the same pause: playback then goes on at the old speed.
  lemma PausedSpeedTakesIff(session: Session, s: Scheduler, speed: real)
    requires Consistent(session, s)
    ensures
      var after := PausedCommand(session, s, SetSpeed(speed)).state;
      && after.speed == speed
      && (after.clock.speed == Normal(speed) <==> s.current.Some? || s.clock.speed == Normal(speed))
  {}

  lemma SeekDropsPausedSpeed(session: Session, s: Scheduler, timestamp: nat, speed: real)
    requires Consistent(session, s) && s.clock.speed != Normal(speed)
    ensures
      var sought := PausedCommand(session, s, Seek(timestamp)).state;
      PausedCommand(session, sought, SetSpeed(speed)).state.clock.speed != Normal(speed)
  {
    PausedSpeedTakesIff(session, PausedCommand(session, s, Seek(timestamp)).state, speed);
  }

  // A speed change that may reach the clock: in a wait, or in a pause with a packet in hand.
  predicate MayReachClock(s: Scheduler, turn: Turn) {
    turn.wake.Received? && turn.wake.command.SetSpeed? && (!s.paused || s.current.Some?)
  }

  lemma StepKeepsSpeed(session: Session, s: Scheduler, turn: Turn)
    requires Consistent(session, s) && !MayReachClock(s, turn)
    ensures Step(session, s, turn).state.clock.speed == s.clock.speed
  {
    hide PausedTurn, Fetch, Await;
    if s.running && s.paused {
      PauseKeepsSpeed(session, s, turn);
    } else if s.running {
      var t := Later(s, turn.overhead);
      if t.current.None? {
        FetchKeepsSpeed(session, t, turn.fault);
      }
      var u := if t.current.Some? then t else Fetch(session, t, turn.fault).state;
      if u.current.Some? {
        AwaitKeepsSpeed(session, u, turn);
      }
    }
  }

  lemma PauseKeepsSpeed(session: Session, s: Scheduler, turn: Turn)
    requires Consistent(session, s) && s.paused && !MayReachClock(s, turn)
    ensures PausedTurn(session, s, turn).state.clock.speed == s.clock.speed
  {}

  lemma FetchKeepsSpeed(session: Session, s: Scheduler, fault: ReadFault)
    requires Consistent(session, s) && s.current.None?
    ensures Fetch(session, s, fault).state.clock.speed == s.clock.speed
  {}

  lemma AwaitKeepsSpeed(session: Session, s: Scheduler, turn: Turn)
    requires Consistent(session, s) && s.current.Some? && !(turn.wake.Received? && turn.wake.command.SetSpeed?)
    ensures Await(session, s, turn).state.clock.speed == s.clock.speed
  {
    hide Waited, PendingDelay;
    WaitKeepsSpeed(session, TakeDelay(session, s), PendingDelay(session, s), turn.wake, turn.publishOk);
  }

  lemma WaitKeepsSpeed(session: Session, s: Scheduler, delay: nat, wake: Wake, ok: bool)
    requires Consistent(session, s) && s.current.Some? && !(wake.Received? && wake.command.SetSpeed?)
    ensures Waited(session, s, delay, wake, ok).state.clock.speed == s.clock.speed
  {}

  ghost predicate NoneReachesClock(session: Session, s: Scheduler, script: seq<Turn>)
    requires Consistent(session, s)
  {
    forall n {:trigger script[n]} :: 0 <= n < |script| ==>
      !MayReachClock(Exec(session, s, script[..n]).state, script[n])
  }

  // The speed of the clock persists until the next speed change with a packet in hand, whatever other
  // speeds are set meanwhile.
  lemma {:induction false} ClockSpeedPersists(session: Session, s: Scheduler, script: seq<Turn>)
    requires Consistent(session, s) && NoneReachesClock(session, s, script)
    ensures Exec(session, s, script).state.clock.speed == s.clock.speed
    decreases |script|
  {
    hide Step, MayReachClock;
    if script != [] {
      var init := script[..|script| - 1];
      forall n {:trigger init[n]} | 0 <= n < |init|
        ensures !MayReachClock(Exec(session, s, init[..n]).state, init[n])
      {
        assert init[..n] == script[..n] && script[n] == init[n];
      }
      ClockSpeedPersists(session, s, init);
      StepKeepsSpeed(session, Exec(session, s, init).state, script[|script| - 1]);
    }
  }

  /* Any run */

  // The active clock has not been put ahead of its start.
  predicate InTime(s: Scheduler) {
    && s.clock.sessionStart.Some? && s.clock.lastTimestamp.Some?
    && (s.clock.pauseStart.Some? <==> s.paused)
    && (s.paused ==> s.clock.pauseStart.value <= s.now)
    && s.clock.sessionStart.value + s.clock.totalPaused <= if s.paused then s.clock.pauseStart.value else s.now
  }

  // The time the active clock shows, standing still in a pause.
  function Shown(s: Scheduler): nat {
    Active(s.clock, if s.clock.pauseStart.Some? then s.clock.pauseStart.value else s.now)
  }

  // A delay left over by a pause or a speed change still reaches the place of its packet.
  predicate LeftoverReaches(session: Session, s: Scheduler)
    requires Consistent(session, s)
  {
    s.remaining.Some? ==>
      s.current.Some? && Shown(s) + s.remaining.value >= Expected(s.clock, session.times[s.current.value])
  }

  ghost predicate Kept(session: Session, s: Scheduler) {
    Consistent(session, s) && InTime(s) && LeftoverReaches(session, s)
  }

  // No packet of this outcome is published before its place on the clock.
  ghost predicate NoneEarly(session: Session, r: Outcome)
    requires Consistent(session, r.state)
  {
    forall b :: 0 <= b < |r.events| && r.events[b].Published? ==>
      r.events[b].index < |session.times| &&
      Expected(r.state.clock, session.times[r.events[b].index]) <= Active(r.state.clock, r.state.now)
  }

  // A pass in a pause does not restart the clock: no seek, and no speed change with a packet in hand.
  predicate LeavesPausesAlone(s: Scheduler, turn: Turn) {
    s.paused && turn.wake.Received? ==>
      !turn.wake.command.Seek? && !(turn.wake.command.SetSpeed? && s.current.Some?)
  }

  lemma SleepingKeeps(session: Session, s: Scheduler, command: Command, delay: nat, elapsed: nat)
    requires Consistent(session, s) && InTime(s) && !s.paused && s.current.Some? && s.remaining.None?
    requires Active(s.clock, s.now) + Minus(delay, elapsed) >= Expected(s.clock, session.times[s.current.value])
    ensures
      var r := SleepingCommand(session, s, command, delay, elapsed);
      Kept(session, r.state) && NoneEarly(session, r)
  {
    match command
    case SetSpeed(speed) => ScaledZero(Normal(speed));
    case _ =>
  }

  lemma PublishKeeps(session: Session, s: Scheduler, ok: bool)
    requires Consistent(session, s) && InTime(s) && s.current.Some? && s.remaining.None?
    requires Active(s.clock, s.now) >= Expected(s.clock, session.times[s.current.value])
    ensures
      var r := Publish(session, s, ok);
      Kept(session, r.state) && NoneEarly(session, r)
  {}

  lemma LaterActive(s: Scheduler, d: nat)
    requires InTime(s) && !s.paused
    ensures InTime(Later(s, d)) && Active(s.clock, s.now + d) == Active(s.clock, s.now) + d
  {}

  lemma WaitedKeeps(session: Session, s: Scheduler, delay: nat, wake: Wake, ok: bool)
    requires Consistent(session, s) && InTime(s) && !s.paused && s.current.Some? && s.remaining.None?
    requires Active(s.clock, s.now) + delay >= Expected(s.clock, session.times[s.current.value])
    ensures
      var r := Waited(session, s, delay, wake, ok);
      Kept(session, r.state) && NoneEarly(session, r)
  {
    hide SleepingCommand, Publish, Active, Expected, Kept, NoneEarly;
    if delay == 0 {
      PublishKeeps(session, s, ok);
    } else {
      LaterActive(s, delay);
      PublishKeeps(session, Later(s, delay), ok);
      match wake
      case Received(command, after) =>
        if after <= delay {
          LaterActive(s, after);
          SleepingKeeps(session, Later(s, after), command, delay, after);
        }
      case ChannelClosed(after) =>
        if after <= delay {
          ClosingKeeps(session, s, after);
        }
      case SleepOver =>
    }
  }

  lemma ClosingKeeps(session: Session, s: Scheduler, after: nat)
    requires Consistent(session, s) && InTime(s) && !s.paused && s.remaining.None?
    ensures
      var r := Outcome(Later(s, after).(running := false), []);
      Kept(session, r.state) && NoneEarly(session, r)
  {}

  // The delay taken, new or left over, reaches the packet's place.
  lemma TakenReaches(session: Session, s: Scheduler)
    requires Kept(session, s) && !s.paused && s.current.Some?
    ensures
      var t := TakeDelay(session, s);
      && InTime(t) && !t.paused && t.remaining.None? && t.now == s.now
      && Active(t.clock, t.now) + PendingDelay(session, s) >= Expected(t.clock, session.times[s.current.value])
  {
    if s.remaining.None? {
      DelayReachesTarget(s.clock, session.times[s.current.value], s.now);
    }
  }

  lemma AwaitKeeps(session: Session, s: Scheduler, turn: Turn)
    requires Kept(session, s) && !s.paused && s.current.Some?
    ensures Kept(session, Await(session, s, turn).state) && NoneEarly(session, Await(session, s, turn))
  {
    hide Waited, PendingDelay, TakeDelay, Active, Expected, InTime;
    TakenReaches(session, s);
    WaitedKeeps(session, TakeDelay(session, s), PendingDelay(session, s), turn.wake, turn.publishOk);
  }

  lemma FetchKeeps(session: Session, s: Scheduler, fault: ReadFault)
    requires Kept(session, s) && s.current.None? && !s.paused
    ensures
      var r := Fetch(session, s, fault);
      Kept(session, r.state) && NoneEarly(session, r) && !r.state.paused
  {}

  lemma PausedKeeps(session: Session, s: Scheduler, turn: Turn)
    requires Kept(session, s) && s.paused && LeavesPausesAlone(s, turn)
    ensures
      var r := PausedTurn(session, s, turn);
      Kept(session, r.state) && NoneEarly(session, r)
  {
    hide PausedCommand;
    if turn.wake.Received? {
      IdledKeeps(session, s, turn.overhead + turn.wake.after);
      PausedCommandKeeps(session, Idled(s, turn.overhead + turn.wake.after), turn.wake.command);
    }
  }

  lemma IdledKeeps(session: Session, s: Scheduler, d: nat)
    requires Kept(session, s) && s.paused
    ensures Kept(session, Idled(s, d))
  {}

  lemma PausedCommandKeeps(session: Session, s: Scheduler, command: Command)
    requires Kept(session, s) && s.paused && !command.Seek? && !(command.SetSpeed? && s.current.Some?)
    ensures
      var r := PausedCommand(session, s, command);
      Kept(session, r.state) && NoneEarly(session, r)
  {}

  lemma OverheadKeeps(session: Session, s: Scheduler, d: nat)
    requires Kept(session, s) && !s.paused
    ensures Kept(session, Later(s, d))
  {}

  lemma StepKeeps(session: Session, s: Scheduler, turn: Turn)
    requires Kept(session, s) && LeavesPausesAlone(s, turn)
    ensures Kept(session, Step(session, s, turn).state) && NoneEarly(session, Step(session, s, turn))
  {
    hide PausedTurn, Fetch, Await, InTime, LeftoverReaches;
    if s.running && s.paused {
      PausedKeeps(session, s, turn);
    } else if s.running {
      var t := Later(s, turn.overhead);
      OverheadKeeps(session, s, turn.overhead);
      if t.current.Some? {
        AwaitKeeps(session, t, turn);
      } else {
        FetchKeeps(session, t, turn.fault);
        var fetched := Fetch(session, t, turn.fault);
        if fetched.state.running && fetched.state.current.Some? {
          AwaitKeeps(session, fetched.state, turn);
        }
      }
    }
  }

  ghost predicate AllLeavePausesAlone(session: Session, s: Scheduler, script: seq<Turn>)
    requires Consistent(session, s)
  {
    forall n {:trigger script[n]} :: 0 <= n < |script| ==>
      LeavesPausesAlone(Exec(session, s, script[..n]).state, script[n])
  }

  lemma {:induction false} RunKeeps(session: Session, s: Scheduler, script: seq<Turn>)
    requires Kept(session, s) && AllLeavePausesAlone(session, s, script)
    ensures Kept(session, Exec(session, s, script).state)
    decreases |script|
  {
    hide Step, InTime, LeftoverReaches, LeavesPausesAlone;
    if script != [] {
      var init := script[..|script| - 1];
      forall n {:trigger init[n]} | 0 <= n < |init|
        ensures LeavesPausesAlone(Exec(session, s, init[..n]).state, init[n])
      {
        assert init[..n] == script[..n] && script[n] == init[n];
      }
      RunKeeps(session, s, init);
      StepKeeps(session, Exec(session, s, init).state, script[|script| - 1]);
    }
  }

  // Whatever the next pass brings, after any run that leaves its pauses alone: no packet goes out
  // before its place on the clock, a left-over delay or not.
  lemma AnyRunNeverEarly(session: Session, s: Scheduler, script: seq<Turn>, turn: Turn)
    requires Kept(session, s) && AllLeavePausesAlone(session, s, script)
    requires LeavesPausesAlone(Exec(session, s, script).state, turn)
    ensures NoneEarly(session, Step(session, Exec(session, s, script).state, turn))
  {
    hide NoneEarly, InTime, LeftoverReaches, LeavesPausesAlone, Exec, Step;
    RunKeeps(session, s, script);
    StepKeeps(session, Exec(session, s, script).state, turn);
  }

  // When a packet goes out whose wait is not interrupted any more: when its left-over delay is over,
  // or at the later of now and its place on the clock plus its base delay.
  ghost predicate SendsOnTarget(session: Session, s: Scheduler, turn: Turn)
    requires Consistent(session, s)
  {
    s.running && !s.paused && Upcoming(s) < |session.times| ==>
      SentBy(session, s, turn.overhead, Step(session, s, turn))
  }

  ghost predicate SentBy(session: Session, s: Scheduler, overhead: nat, r: Outcome)
    requires Consistent(session, s) && Upcoming(s) < |session.times|
  {
    var timestamp := session.times[Upcoming(s)];
    var ready := Active(s.clock, s.now + overhead);
    && s.clock.lastTimestamp.Some?
    && r.events == [Published(Upcoming(s), Minus(r.state.now, s.idle))]
    && Active(r.state.clock, r.state.now) ==
         if s.remaining.Some? then ready + s.remaining.value
         else Max(ready, Expected(s.clock, timestamp) + BaseDelay(s.clock, timestamp))
  }

  lemma SentOnTarget(session: Session, s: Scheduler, turn: Turn)
    requires Consistent(session, s) && InTime(s) && !s.paused && s.current.Some?
    requires turn.wake.SleepOver? && turn.publishOk
    ensures SentBy(session, s, 0, Await(session, s, turn))
  {
    DelayReachesTarget(s.clock, session.times[s.current.value], s.now);
  }

  lemma StepSendsOnTarget(session: Session, s: Scheduler, turn: Turn)
    requires Kept(session, s)
    requires turn.fault.NoFault? && turn.wake.SleepOver? && turn.publishOk
    ensures SendsOnTarget(session, s, turn)
  {
    hide Await, Active, Expected, BaseDelay;
    if s.running && !s.paused && Upcoming(s) < |session.times| {
      var t := Later(s, turn.overhead);
      var u := if t.current.Some? then t else Fetch(session, t, turn.fault).state;
      SentOnTarget(session, u, turn);
    }
  }

  // At any point of any run that leaves its pauses alone, the next packet goes out on target.
  lemma AnyRunSendsOnTarget(session: Session, s: Scheduler, script: seq<Turn>, turn: Turn)
    requires Kept(session, s) && AllLeavePausesAlone(session, s, script)
    requires turn.fault.NoFault? && turn.wake.SleepOver? && turn.publishOk
    ensures SendsOnTarget(session, Exec(session, s, script).state, turn)
  {
    hide SendsOnTarget, InTime, LeftoverReaches, Exec;
    RunKeeps(session, s, script);
    StepSendsOnTarget(session, Exec(session, s, script).state, turn);
  }

  // Sessions start that way, so all of this holds of every session from its first pass on.
  lemma SessionSendsOnTarget(
    session: Session, speed: real, looping: bool, start: nat, script: seq<Turn>, turn: Turn)
    requires ValidSession(session)
    requires AllLeavePausesAlone(session, Begin(session, speed, looping, start), script)
    requires LeavesPausesAlone(Exec(session, Begin(session, speed, looping, start), script).state, turn)
    ensures NoneEarly(session, Step(session, Exec(session, Begin(session, speed, looping, start), script).state, turn))
    ensures turn.fault.NoFault? && turn.wake.SleepOver? && turn.publishOk ==>
      SendsOnTarget(session, Exec(session, Begin(session, speed, looping, start), script).state, turn)
  {
    hide SendsOnTarget, NoneEarly, InTime, LeftoverReaches, LeavesPausesAlone, Exec, Step, Begin;
    var begin := Begin(session, speed, looping, start);
    BeginKept(session, speed, looping, start);
    AnyRunNeverEarly(session, begin, script, turn);
    if turn.fault.NoFault? && turn.wake.SleepOver? && turn.publishOk {
      AnyRunSendsOnTarget(session, begin, script, turn);
    }
  }

  lemma BeginKept(session: Session, speed: real, looping: bool, start: nat)
    requires ValidSession(session)
    ensures Kept(session, Begin(session, speed, looping, start))
  {}
}
