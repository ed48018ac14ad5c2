/** What a well-shaped trace of a playback session looks like: contiguous ascending runs of entries,
    each started by the session, a seek or a loop restart, and the end reported only at the end. */
module ReplayTrace {
  import opened ReplayScheduler
  import FileReader

  // The entry with which the run at position b of the trace goes on.
  function RunsOn(session: Session, trace: seq<Event>, b: nat): nat
    requires b <= |trace|
  {
    if b == 0 then session.first
    else
      match trace[b - 1]
      case Published(index, _) => index + 1
      case SeekTo(index, _) => index
      case LoopTo(index) => index
      case Eof => 0
      case FatalError => 0
  }

  lemma RunsOnIsExpected(session: Session, trace: seq<Event>, b: nat)
    requires ValidSession(session) && WellShaped(session, trace) && b < |trace|
    ensures ExpectedIndex(session, trace[..b]) == RunsOn(session, trace, b)
  {
    if b > 0 {
      assert trace[..b][b - 1] == trace[b - 1];
      assert !Final(trace[b - 1]);
    }
  }

  // A packet goes on where the event before it left off; the end is reported, and the start looped
  // to, right after the last entry; a loop goes back to the first packet of the session.
  lemma EventFollows(session: Session, trace: seq<Event>, b: nat)
    requires ValidSession(session) && Rewinds(session) && WellShaped(session, trace) && b < |trace|
    ensures
      match trace[b]
      case Published(index, _) => index == RunsOn(session, trace, b) < |session.times|
      case SeekTo(index, timestamp) => index == session.seek(timestamp)
      case LoopTo(index) =>
        index == session.first && b > 0 && trace[b - 1].Published? && trace[b - 1].index == |session.times| - 1
      case Eof => b == |trace| - 1 && b > 0 && trace[b - 1].Published? && trace[b - 1].index == |session.times| - 1
      case FatalError => b == |trace| - 1
  {
    RunsOnIsExpected(session, trace, b);
    if b > 0 {
      assert !Final(trace[b - 1]);
      if trace[b - 1].SeekTo? || trace[b - 1].LoopTo? {
        RunsOnIsExpected(session, trace, b - 1);
        assert Allowed(session, ExpectedIndex(session, trace[..b - 1]), trace[b - 1]);
      }
    }
  }

  // Between seeks and loop restarts nothing is skipped and nothing repeated.
  lemma {:induction false} RunIsContiguous(session: Session, trace: seq<Event>, a: nat, b: nat)
    requires ValidSession(session) && Rewinds(session) && WellShaped(session, trace)
    requires a <= b < |trace| && forall k :: a <= k <= b ==> trace[k].Published?
    ensures trace[b].index == trace[a].index + (b - a)
    decreases b - a
  {
    if a < b {
      RunIsContiguous(session, trace, a, b - 1);
      EventFollows(session, trace, b);
    }
  }

  // No other entry has the timestamp of the first packet.
  predicate Alone(times: seq<nat>, first: nat)
    requires first < |times|
  {
    forall k :: 0 <= k < |times| && k != first ==> times[k] != times[first]
  }

  lemma RewindsOver(session: Session)
    requires session.first < |session.times| && SeeksOver(session)
    requires FileReader.NonDecreasing(session.times) && Alone(session.times, session.first)
    ensures ValidSession(session) && Rewinds(session)
  {
    var start := session.times[session.first];
    SeeksAreValid(session);
    assert FileReader.MayFind(session.times, start, session.seek(start));
    FileReader.NearestOfPresent(session.times, session.first, session.seek(start));
  }

  // The seeks of a reader whose search answers this for one timestamp, and the first match for others.
  function SeekAnswering(times: seq<nat>, target: nat, s: FileReader.Search): nat -> nat
    requires FileReader.MayAnswer(times, target, s)
  {
    t => FileReader.NearestIndex(times, t, if t == target then s else FileReader.FirstAnswer(times, t))
  }

  lemma AnsweringIsAllowed(times: seq<nat>, first: nat, target: nat, s: FileReader.Search)
    requires FileReader.MayAnswer(times, target, s)
    ensures SeeksOver(Session(times, first, SeekAnswering(times, target, s)))
    ensures SeekAnswering(times, target, s)(target) == FileReader.NearestIndex(times, target, s)
  {
    var seek := SeekAnswering(times, target, s);
    forall t: nat
      ensures FileReader.MayFind(times, t, seek(t))
    {
      assert seek(t) == FileReader.NearestIndex(times, t, if t == target then s else FileReader.FirstAnswer(times, t));
    }
  }

  ghost predicate AlwaysRewinds(times: seq<nat>, first: nat)
    requires first < |times|
  {
    forall seek: nat -> nat :: SeeksOver(Session(times, first, seek)) ==> seek(times[first]) == first
  }

  // Every search that the library allows finds the first packet again if and only if the timestamps
  // do not decrease and no other entry, earlier or later, has the timestamp of the first packet.
  lemma RewindsIff(times: seq<nat>, first: nat)
    requires first < |times|
    ensures AlwaysRewinds(times, first) <==> FileReader.NonDecreasing(times) && Alone(times, first)
  {
    if FileReader.NonDecreasing(times) && Alone(times, first) {
      forall seek: nat -> nat | SeeksOver(Session(times, first, seek))
        ensures seek(times[first]) == first
      {
        RewindsOver(Session(times, first, seek));
      }
    } else if !Alone(times, first) {
      var k :| 0 <= k < |times| && k != first && times[k] == times[first];
      MisrewindsTo(times, first, FileReader.Found(k));
    } else {
      // Of an unsorted sequence nothing is promised.
      MisrewindsTo(times, first, FileReader.Missing(if first == 0 then |times| else 0));
    }
  }

  lemma MisrewindsTo(times: seq<nat>, first: nat, s: FileReader.Search)
    requires first < |times| && FileReader.MayAnswer(times, times[first], s)
    requires FileReader.NearestIndex(times, times[first], s) != first
    ensures !AlwaysRewinds(times, first)
  {
    AnsweringIsAllowed(times, first, times[first], s);
  }

  // Two entries with one timestamp, the second found: the session starts there, and the first packet,
  // though read, is skipped.
  lemma EqualTimestampsSkip(speed: real, looping: bool, start: nat)
    ensures
      var session := Session([7, 7], 0, SeekAnswering([7, 7], 7, FileReader.Found(1)));
      SeeksOver(session) && ValidSession(session) && Upcoming(Begin(session, speed, looping, start)) == 1
  {
    var session := Session([7, 7], 0, SeekAnswering([7, 7], 7, FileReader.Found(1)));
    AnsweringIsAllowed([7, 7], 0, 7, FileReader.Found(1));
    SeeksAreValid(session);
  }

  // Every trace of every session, whatever commands, faults and delays come.
  lemma SessionTrace(session: Session, speed: real, looping: bool, start: nat, script: seq<Turn>, b: nat)
    requires ValidSession(session) && SeeksOver(session)
    requires FileReader.NonDecreasing(session.times) && Alone(session.times, session.first)
    requires b < |Exec(session, Begin(session, speed, looping, start), script).events|
    ensures
      var trace, last := Exec(session, Begin(session, speed, looping, start), script).events, |session.times| - 1;
      match trace[b]
      case Published(index, _) => index == RunsOn(session, trace, b) <= last
      case SeekTo(index, timestamp) => FileReader.MayFind(session.times, timestamp, index)
      case LoopTo(index) => index == session.first && b > 0 && trace[b - 1].Published? && trace[b - 1].index == last
      case Eof => b == |trace| - 1 && b > 0 && trace[b - 1].Published? && trace[b - 1].index == last
      case FatalError => b == |trace| - 1
  {
    hide Exec, Begin;
    RewindsOver(session);
    TraceShape(session, speed, looping, start, script);
    EventFollows(session, Exec(session, Begin(session, speed, looping, start), script).events, b);
  }
}
