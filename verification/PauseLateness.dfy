/** How late pauses make packets: what going back to a wait takes, and no more than all of that. */
module PauseLateness {
  import opened Prelude
  import opened TimingEngine
  import opened ReplayScheduler
  import opened PauseTransparency

  /* One wait */

  function Shifted(e: Event, d: nat): Event { if e.Published? then e.(at := e.at + d) else e }

  function ShiftedBy(events: seq<Event>, d: nat): (r: seq<Event>)
    ensures |r| == |events| && forall i :: 0 <= i < |r| ==> r[i] == Shifted(events[i], d)
  {
    seq(|events|, i requires 0 <= i < |events| => Shifted(events[i], d))
  }

  // A wait that begins later ends later by as much.
  lemma WaitedLater(session: Session, s: Scheduler, delay: nat, wake: Wake, ok: bool, d: nat)
    requires Consistent(session, s) && s.current.Some?
    ensures Consistent(session, Later(s, d))
    ensures Waited(session, Later(s, d), delay, wake, ok).events ==
      ShiftedBy(Waited(session, s, delay, wake, ok).events, d)
  {}

  // Pauses within a wait put its packet off by what going back to the wait takes, whatever that is,
  // and leave every other event alone.
  lemma NapsShift(session: Session, s: Scheduler, item: Item)
    requires Consistent(session, s) && Timed(s) && Lands(session, s, item)
    ensures Exec(session, s, Expand(item)).events ==
      ShiftedBy(Step(session, s, Erased(item)).events, Lateness(item.naps))
  {
    hide Step, Waited, InHand, TakeDelay, PendingDelay, Expand;
    var turn, late := Erased(item), Lateness(item.naps);
    NapsErased(session, s, item);
    SameWaits(session, s, item);
    if Waits(session, s, turn) {
      var t := InHand(session, s, turn);
      WaitsInHand(session, s, turn);
      TakenInHand(session, t);
      WaitedLater(session, TakeDelay(session, t), PendingDelay(session, t), turn.wake, turn.publishOk, late);
    }
  }

  // Without a wait there are no pauses in it.
  lemma SameWaits(session: Session, s: Scheduler, item: Item)
    requires Consistent(session, s) && Lands(session, s, item)
    ensures !Waits(session, s, Erased(item)) ==>
      var events := Step(session, s, Erased(item)).events;
      Lateness(item.naps) == 0 && ShiftedBy(events, 0) == events
  {
    hide Step, Fetch;
    assert InHand(session, s, Erased(item)) == InHand(session, s, item.turn);
  }

  /* Whole runs without other commands */

  function Lasting(c: Clock): Clock { WithoutTimes(c).(driftTotal := 0) }

  // s is where t is, but up to `lag` later; its segment of the clock is no further behind than that.
  predicate Behind(s: Scheduler, t: Scheduler, lag: nat) {
    && Timed(s) && Timed(t) && !s.paused && !t.paused && s.remaining.None? && t.remaining.None?
    && s.position == t.position && s.running == t.running && s.current == t.current
    && s.speed == t.speed && s.looping == t.looping && Lasting(s.clock) == Lasting(t.clock)
    && 0 <= SinceStart(s) - SinceStart(t) <= (s.now - s.idle) - (t.now - t.idle) <= lag
  }

  predicate LateBy(e: Event, f: Event, lag: nat) {
    if f.Published? then e.Published? && e.index == f.index && f.at <= e.at <= f.at + lag else e == f
  }

  predicate EventsLateBy(events: seq<Event>, events': seq<Event>, lag: nat) {
    |events| == |events'| && forall i :: 0 <= i < |events| ==> LateBy(events[i], events'[i], lag)
  }

  predicate OutcomeBehind(r: Outcome, q: Outcome, lag: nat) {
    Behind(r.state, q.state, lag) && EventsLateBy(r.events, q.events, lag)
  }

  lemma LaterBehind(s: Scheduler, t: Scheduler, lag: nat, d: nat, late: nat)
    requires Behind(s, t, lag)
    ensures Behind(Later(s, d + late), Later(t, d), lag + late)
  {}

  lemma FetchBehind(session: Session, s: Scheduler, t: Scheduler, lag: nat, fault: ReadFault)
    requires Consistent(session, s) && Consistent(session, t) && Behind(s, t, lag) && s.current.None?
    ensures OutcomeBehind(Fetch(session, s, fault), Fetch(session, t, fault), lag)
    ensures Fetch(session, s, fault).state.current.Some? ==> Fetch(session, s, fault).events == []
  {}

  // A later packet waits less, by at most as much as it is late.
  lemma DelayBehind(session: Session, s: Scheduler, t: Scheduler, lag: nat)
    requires Consistent(session, s) && Consistent(session, t) && Behind(s, t, lag) && s.current.Some?
    ensures
      var delay, delay' := PendingDelay(session, s), PendingDelay(session, t);
      Behind(Later(TakeDelay(session, s), delay), Later(TakeDelay(session, t), delay'), lag)
  {
    var timestamp := session.times[s.current.value];
    if s.clock.lastTimestamp.Some? {
      DelayReachesTarget(s.clock, timestamp, s.now);
      DelayReachesTarget(t.clock, timestamp, t.now);
      hide Delay;
      assert Expected(s.clock, timestamp) == Expected(t.clock, timestamp);
      assert BaseDelay(s.clock, timestamp) == BaseDelay(t.clock, timestamp);
      hide BaseDelay, Expected;
      assert 0 <= Active(s.clock, s.now) - Active(t.clock, t.now) <= SinceStart(s) - SinceStart(t);
    }
  }

  lemma PublishBehind(session: Session, s: Scheduler, t: Scheduler, lag: nat, ok: bool)
    requires Consistent(session, s) && Consistent(session, t) && Behind(s, t, lag) && s.current.Some?
    ensures OutcomeBehind(Publish(session, s, ok), Publish(session, t, ok), lag)
  {}

  // What a pass does when nothing interrupts it.
  lemma UninterruptedStep(session: Session, s: Scheduler, turn: Turn, late: nat)
    requires Consistent(session, s) && s.running && !s.paused && turn.wake.SleepOver?
    ensures
      var t := InHand(session, s, turn);
      if t.current.Some? then
        var u := Later(TakeDelay(session, t), PendingDelay(session, t));
        && Consistent(session, Later(u, late))
        && StepLate(session, s, turn, late) == Publish(session, Later(u, late), turn.publishOk)
      else StepLate(session, s, turn, late) == Fetch(session, Later(s, turn.overhead), turn.fault)
  {
    hide Fetch, TakeDelay, PendingDelay, Publish;
    var t := InHand(session, s, turn);
    if t.current.Some? {
      TakenInHand(session, t);
      var u := TakeDelay(session, t);
      assert Later(Later(u, late), PendingDelay(session, t)) == Later(Later(u, PendingDelay(session, t)), late);
    }
  }

  lemma InHandBehind(session: Session, s: Scheduler, t: Scheduler, lag: nat, turn: Turn)
    requires Consistent(session, s) && Consistent(session, t) && Behind(s, t, lag)
    ensures InHand(session, s, turn).current == InHand(session, t, turn).current
    ensures InHand(session, s, turn).current.Some? ==> Behind(InHand(session, s, turn), InHand(session, t, turn), lag)
    ensures InHand(session, s, turn).current.None? ==>
      var r := Fetch(session, Later(s, turn.overhead), turn.fault);
      var q := Fetch(session, Later(t, turn.overhead), turn.fault);
      OutcomeBehind(r, q, lag)
  {
    hide Fetch;
    LaterBehind(s, t, lag, turn.overhead, 0);
    if s.current.None? {
      FetchBehind(session, Later(s, turn.overhead), Later(t, turn.overhead), lag, turn.fault);
    }
  }

  // A pass whose wait begins `late` adds at most that.
  lemma StepBehind(session: Session, s: Scheduler, t: Scheduler, lag: nat, turn: Turn, late: nat)
    requires Consistent(session, s) && Consistent(session, t) && Behind(s, t, lag) && turn.wake.SleepOver?
    ensures OutcomeBehind(StepLate(session, s, turn, late), Step(session, t, turn), lag + late)
  {
    hide Fetch, TakeDelay, PendingDelay, Publish, InHand, Behind, EventsLateBy;
    BehindAlike(s, t, lag);
    if !s.running {
      NothingLate(session, s, t, lag, turn, late);
    } else {
      NotLate(session, t, turn);
      UninterruptedStep(session, s, turn, late);
      UninterruptedStep(session, t, turn, 0);
      InHandBehind(session, s, t, lag, turn);
      var s', t' := InHand(session, s, turn), InHand(session, t, turn);
      if s'.current.Some? {
        var u := Later(TakeDelay(session, s'), PendingDelay(session, s'));
        var v := Later(TakeDelay(session, t'), PendingDelay(session, t'));
        DelayBehind(session, s', t', lag);
        LaterBehind(u, v, lag, 0, late);
        TakenInHand(session, s');
        PublishBehind(session, Later(u, late), Later(v, 0), lag + late, turn.publishOk);
      } else {
        MoreBehind(StepLate(session, s, turn, late), Step(session, t, turn), lag, lag + late);
      }
    }
  }

  lemma BehindAlike(s: Scheduler, t: Scheduler, lag: nat)
    requires Behind(s, t, lag)
    ensures s.running == t.running && !s.paused && !t.paused
  {}

  lemma NothingLate(session: Session, s: Scheduler, t: Scheduler, lag: nat, turn: Turn, late: nat)
    requires Consistent(session, s) && Consistent(session, t) && Behind(s, t, lag) && !s.running
    ensures OutcomeBehind(StepLate(session, s, turn, late), Step(session, t, turn), lag + late)
  {}

  lemma MoreBehind(r: Outcome, q: Outcome, lag: nat, more: nat)
    requires OutcomeBehind(r, q, lag) && lag <= more
    ensures OutcomeBehind(r, q, more)
  {}

  function TotalLateness(items: seq<Item>): nat
    decreases |items|
  {
    if items == [] then 0 else TotalLateness(items[..|items| - 1]) + Lateness(items[|items| - 1].naps)
  }

  // The run has no commands but its pauses.
  predicate OnlyPauses(items: seq<Item>) { forall k :: 0 <= k < |items| ==> items[k].turn.wake.SleepOver? }

  lemma {:induction false} RunBehind(session: Session, s: Scheduler, items: seq<Item>)
    requires Consistent(session, s) && Timed(s) && !s.paused && s.remaining.None? && OnlyPauses(items)
    ensures OutcomeBehind(ExecLate(session, s, items), Exec(session, s, WithoutNaps(items)), TotalLateness(items))
    decreases |items|
  {
    hide Step, StepLate, Behind;
    if items == [] {
      NoneBehind(s);
    } else {
      var init, last := items[..|items| - 1], items[|items| - 1];
      RunBehind(session, s, init);
      assert WithoutNaps(items)[..|items| - 1] == WithoutNaps(init);
      var r, q := ExecLate(session, s, init), Exec(session, s, WithoutNaps(init));
      var lag, late := TotalLateness(init), Lateness(last.naps);
      StepBehind(session, r.state, q.state, lag, Erased(last), late);
      MoreBehind(r, q, lag, lag + late);
    }
  }

  lemma NoneBehind(s: Scheduler)
    requires Timed(s) && !s.paused && s.remaining.None?
    ensures Behind(s, s, 0)
  {}

  // However often and however long a run is paused: every packet of it goes out, in unpaused time, no
  // earlier than without the pauses, and later by at most what going back to all the waits took; the
  // same packets go out in the same order.
  lemma PausesDelayAtMost(session: Session, s: Scheduler, items: seq<Item>)
    requires Consistent(session, s) && Timed(s) && !s.paused && s.remaining.None?
    requires AllLand(session, s, items) && OnlyPauses(items)
    ensures EventsLateBy(
              Exec(session, s, Expanded(items)).events,
              Exec(session, s, WithoutNaps(items)).events, TotalLateness(items))
  {
    hide AllLand, Exec, ExecLate, SamePlayback, WithoutNaps, Behind;
    PausesOnlyDelay(session, s, items);
    RunBehind(session, s, items);
  }

  // Sessions start that way.
  lemma SessionPausesDelayAtMost(session: Session, speed: real, looping: bool, start: nat, items: seq<Item>)
    requires ValidSession(session) && OnlyPauses(items)
    requires AllLand(session, Begin(session, speed, looping, start), items)
    ensures
      var begin := Begin(session, speed, looping, start);
      EventsLateBy(
        Exec(session, begin, Expanded(items)).events,
        Exec(session, begin, WithoutNaps(items)).events, TotalLateness(items))
  {
    hide AllLand, Exec, WithoutNaps, EventsLateBy;
    BeginTimed(session, speed, looping, start);
    PausesDelayAtMost(session, Begin(session, speed, looping, start), items);
  }
}
