/** The playback clock told from its calls: what was opened when, what was asked and for how long it was
    paused decide every delay, at the speed in force. */
module ClockHistory {
  import opened Prelude
  import opened TimingEngine

  // n is the whole number of nanoseconds that this recorded stretch lasts at this speed.
  predicate Lasts(n: nat, duration: nat, speed: real) {
    n as real * speed <= duration as real < (n + 1) as real * speed
  }

  lemma ProductGrows(a: real, b: real, speed: real)
    requires a <= b && speed > 0.0
    ensures a * speed <= b * speed
  {}

  lemma FactorsLess(a: real, b: real, speed: real)
    requires a * speed < b * speed && speed > 0.0
    ensures a < b
  {
    if a >= b {
      ProductGrows(b, a, speed);
    }
  }

  lemma LastsOverlap(n: nat, m: nat, duration: nat, speed: real)
    requires Lasts(n, duration, speed) && Lasts(m, duration, speed)
    ensures n as real * speed < (m + 1) as real * speed
  {}

  lemma LastsAtMost(n: nat, m: nat, duration: nat, speed: real)
    requires speed > 0.0 && Lasts(n, duration, speed) && Lasts(m, duration, speed)
    ensures n <= m
  {
    hide Lasts;
    LastsOverlap(n, m, duration, speed);
    FactorsLess(n as real, (m + 1) as real, speed);
  }

  lemma LastsOnce(n: nat, m: nat, duration: nat, speed: real)
    requires speed > 0.0 && Lasts(n, duration, speed) && Lasts(m, duration, speed)
    ensures n == m
  {
    hide Lasts;
    LastsAtMost(n, m, duration, speed);
    LastsAtMost(m, n, duration, speed);
  }

  lemma StrictlyLess(a: real, b: real, speed: real)
    requires a < b && speed > 0.0
    ensures a * speed < b * speed
  {}

  lemma QuotientTimes(x: real, y: real)
    requires y > 0.0
    ensures x / y * y == x
  {}

  lemma ProductsAround(a: real, q: real, b: real, product: real, speed: real)
    requires a <= q < b && q * speed == product && speed > 0.0
    ensures a * speed <= product < b * speed
  {
    ProductGrows(a, q, speed);
    StrictlyLess(q, b, speed);
  }

  lemma FloorBounds(q: real)
    ensures q.Floor as real <= q < (q.Floor + 1) as real
  {}

  lemma ScaledIsFloor(duration: nat, speed: real)
    requires speed > 0.0
    ensures Scaled(duration, speed) == (duration as real / speed).Floor
  {}

  lemma ScaledLasts(duration: nat, speed: real)
    requires speed > 0.0
    ensures Lasts(Scaled(duration, speed), duration, speed)
  {
    ScaledIsFloor(duration, speed);
    hide Scaled;
    var n, q := Scaled(duration, speed), duration as real / speed;
    QuotientTimes(duration as real, speed);
    FloorBounds(q);
    ProductsAround(n as real, q, (n + 1) as real, duration as real, speed);
  }

  /* The calls of a segment */

  datatype Opening =
    | Initializing(first: nat, speed: real, at: nat)
    | Resetting(first: nat, at: nat)
    | ChangingSpeed(first: nat, speed: real, at: nat)

  datatype Call = PauseFrom(at: nat, until: nat) | Ask(timestamp: nat, at: nat)

  function Open(c: Clock, o: Opening): Clock {
    match o
    case Initializing(first, speed, at) => Initialized(c, first, speed, at)
    case Resetting(first, at) => Restarted(c, first, at)
    case ChangingSpeed(first, speed, at) => SpeedSet(c, speed, first, at)
  }

  // A speed that is not positive stands for real time; a reset leaves the speed.
  function SpeedIn(c: Clock, o: Opening): real {
    if o.Resetting? then c.speed else if o.speed > 0.0 then o.speed else 1.0
  }

  function After(c: Clock, calls: seq<Call>): Clock
    requires Ticking(c)
    ensures Ticking(After(c, calls)) && After(c, calls).speed == c.speed
  {
    if calls == [] then c
    else
      var before := After(c, calls[..|calls| - 1]);
      match calls[|calls| - 1]
      case PauseFrom(at, until) => Resumed(Paused(before, at), until)
      case Ask(timestamp, at) => Delayed(before, timestamp, at)
  }

  // How long the segment has been paused, and which timestamp was asked for last.
  function PausedFor(calls: seq<Call>): nat {
    if calls == [] then 0
    else
      var last := calls[|calls| - 1];
      PausedFor(calls[..|calls| - 1]) + if last.PauseFrom? && last.at < last.until then last.until - last.at else 0
  }

  function LastAsked(first: nat, calls: seq<Call>): nat {
    if calls == [] then first
    else if calls[|calls| - 1].Ask? then calls[|calls| - 1].timestamp
    else LastAsked(first, calls[..|calls| - 1])
  }

  function Asked(calls: seq<Call>): nat {
    if calls == [] then 0 else Asked(calls[..|calls| - 1]) + if calls[|calls| - 1].Ask? then 1 else 0
  }

  // The recorded stretch from the opening to a packet, nothing for packets before it.
  function FromOpening(o: Opening, timestamp: nat): nat { if timestamp >= o.first then timestamp - o.first else 0 }

  // Unpaused time since the opening.
  function Elapsed(o: Opening, calls: seq<Call>, now: nat): nat {
    if now > o.at + PausedFor(calls) then now - o.at - PausedFor(calls) else 0
  }

  // The segment of a clock as its opening and its calls make it.
  predicate InSegment(c: Clock, o: Opening, calls: seq<Call>, t: Clock) {
    && t.speed == SpeedIn(c, o) && t.driftCorrection == c.driftCorrection
    && t.sessionStart == Some(o.at) && t.firstTimestamp == Some(o.first)
    && t.lastTimestamp == Some(LastAsked(o.first, calls))
    && t.pauseStart == None && t.totalPaused == PausedFor(calls)
  }

  // The clock can open a segment this way, outside a pause.
  predicate CanOpen(c: Clock, o: Opening) {
    Ticking(c) && (o.Initializing? || (c.sessionStart.Some? && c.pauseStart.None?))
  }

  lemma OpenTicks(c: Clock, o: Opening)
    requires Ticking(c)
    ensures Ticking(Open(c, o))
  {}

  lemma {:induction false} CallsInSegment(c: Clock, o: Opening, calls: seq<Call>)
    requires CanOpen(c, o)
    ensures Ticking(Open(c, o)) && InSegment(c, o, calls, After(Open(c, o), calls))
  {
    OpenTicks(c, o);
    if calls != [] {
      CallsInSegment(c, o, calls[..|calls| - 1]);
    }
  }

  // Every delay is decided by the opening and the calls since: with drift correction it ends where the
  // packet's place and its gap to the one asked before lie after the opening, in unpaused time, or at
  // once if that is over; without it it is the gap. A packet before the one asked before has a gap of a
  // millisecond, and one before the opening the place of the opening.
  lemma DelayIs(c: Clock, o: Opening, calls: seq<Call>, timestamp: nat, now: nat) returns (place: nat, gap: nat)
    requires CanOpen(c, o)
    ensures Ticking(Open(c, o))
    ensures Lasts(place, FromOpening(o, timestamp), SpeedIn(c, o))
    ensures
      var last := LastAsked(o.first, calls);
      Lasts(gap, if timestamp >= last then timestamp - last else 1_000_000, SpeedIn(c, o))
    ensures
      var delay := Delay(After(Open(c, o), calls), timestamp, now);
      if c.driftCorrection then Elapsed(o, calls, now) + delay == Max(Elapsed(o, calls, now), place + gap)
      else delay == gap
  {
    CallsInSegment(c, o, calls);
    var t := After(Open(c, o), calls);
    place, gap := Expected(t, timestamp), BaseDelay(t, timestamp);
    var last := LastAsked(o.first, calls);
    ScaledLasts(FromOpening(o, timestamp), t.speed);
    ScaledLasts(if timestamp >= last then timestamp - last else 1_000_000, t.speed);
    ScaledNothing(t.speed);
    hide Scaled, Lasts;
    if c.driftCorrection {
      DelayReachesTarget(t, timestamp, now);
    }
  }

  lemma ScaledNothing(speed: real)
    requires speed > 0.0
    ensures Scaled(0, speed) == 0
  {}

  /* Statistics */

  // How far behind its place each packet was asked for, summed over the segment; the places are as in
  // `DelayIs`.
  ghost predicate DriftsBy(c: Clock, o: Opening, calls: seq<Call>, drift: int)
    decreases |calls|
  {
    if calls == [] then drift == 0
    else
      var init, last := calls[..|calls| - 1], calls[|calls| - 1];
      match last
      case PauseFrom(_, _) => DriftsBy(c, o, init, drift)
      case Ask(timestamp, at) => exists place: nat ::
        && Lasts(place, FromOpening(o, timestamp), SpeedIn(c, o))
        && DriftsBy(c, o, init, drift - (Elapsed(o, init, at) - place))
  }

  // The drift statistics count the packets asked for with drift correction on, and sum how late they
  // were; initialising starts them anew, resets and changes of speed do not.
  lemma {:induction false} StatisticsAre(c: Clock, o: Opening, calls: seq<Call>)
    requires CanOpen(c, o)
    ensures Ticking(Open(c, o))
    ensures
      var t, total, count := After(Open(c, o), calls), if o.Initializing? then 0 else c.driftTotal,
                             if o.Initializing? then 0 else c.driftCount;
      if c.driftCorrection then t.driftCount == count + Asked(calls) && DriftsBy(c, o, calls, t.driftTotal - total)
      else t.driftCount == count && t.driftTotal == total
  {
    OpenTicks(c, o);
    if calls != [] {
      var init, last := calls[..|calls| - 1], calls[|calls| - 1];
      StatisticsAre(c, o, init);
      CallsInSegment(c, o, init);
      if last.Ask? {
        PlaceLasts(c, o, init, last.timestamp);
      }
    }
  }

  lemma PlaceLasts(c: Clock, o: Opening, calls: seq<Call>, timestamp: nat)
    requires CanOpen(c, o) && Ticking(Open(c, o)) && InSegment(c, o, calls, After(Open(c, o), calls))
    ensures Lasts(
              Expected(After(Open(c, o), calls), timestamp), FromOpening(o, timestamp), SpeedIn(c, o))
  {
    var t := After(Open(c, o), calls);
    ScaledLasts(FromOpening(o, timestamp), t.speed);
    ScaledNothing(t.speed);
  }

  /* Before anything is opened */

  // A clock that was never opened asks for no delay the first time, whatever it is paused or reset, and
  // then for the gaps alone: without a start there is no drift, and changes of speed take effect.
  lemma UnopenedClock(c: Clock, timestamp: nat, at: nat, next: nat, now: nat, speed: real) returns (gap: nat)
    requires Ticking(c) && c.sessionStart.None? && c.firstTimestamp.None? && c.lastTimestamp.None? && c.totalPaused == 0
    requires timestamp <= next && speed > 0.0
    ensures Restarted(c, timestamp, at) == c && Paused(c, at) == c
    ensures Delay(c, timestamp, at) == 0 && Delayed(c, timestamp, at) == c.(lastTimestamp := Some(timestamp))
    ensures
      var asked := SpeedSet(Delayed(c, timestamp, at), speed, timestamp, at);
      Ticking(asked) && Lasts(gap, next - timestamp, speed) && Delay(asked, next, now) == gap
  {
    var asked := SpeedSet(Delayed(c, timestamp, at), speed, timestamp, at);
    ScaledLasts(next - timestamp, speed);
    ScaledNothing(speed);
    gap := Scaled(next - timestamp, speed);
  }
}
