/** The sequence continuity tracker: per APID the next expected 14-bit count, and what it makes of
    streams of packets. */
module Continuity {
  import opened Prelude

  const SEQ_MAX: nat := 0x3FFF
  const SEQ_RANGE: nat := 0x4000

  datatype SequenceAnalysis = SequenceAnalysis(expected: nat, isDuplicate: bool, isGap: bool)

  type Tracker = map<u16, nat>

  function Successor(count: nat): nat { (count + 1) % SEQ_RANGE }

  // `check` on what is expected of the packet's APID.
  function Analysis(expected: Option<nat>, received: u16): SequenceAnalysis {
    match expected
    case None => SequenceAnalysis(received, false, false)
    case Some(e) =>
      var isDuplicate := received == (e + SEQ_MAX) % SEQ_RANGE || (e == 0 && received == SEQ_MAX);
      SequenceAnalysis(e, isDuplicate, received != e && !isDuplicate)
  }

  function ExpectedNext(expected: Option<nat>, received: u16): nat {
    if expected.Some? && Analysis(expected, received).isDuplicate then expected.value else Successor(received)
  }

  function Lookup(state: Tracker, apid: u16): Option<nat> { if apid in state then Some(state[apid]) else None }

  function Checked(state: Tracker, apid: u16, received: u16): Tracker {
    state[apid := ExpectedNext(Lookup(state, apid), received)]
  }

  class ContinuityEngine {
    var state: Tracker

    constructor ()
      ensures state == map[]
    {
      state := map[];
    }

    method Check(apid: u16, received: u16) returns (analysis: SequenceAnalysis)
      modifies this
      ensures analysis == Analysis(Lookup(old(state), apid), received)
      ensures state == Checked(old(state), apid, received)
    {
      if apid !in state {
        state := state[apid := (received + 1) % SEQ_RANGE];
        return SequenceAnalysis(received, false, false);
      }
      var expected := state[apid];
      var isDuplicate := received == (expected + SEQ_MAX) % SEQ_RANGE || (expected == 0 && received == SEQ_MAX);
      var isGap := received != expected;
      if !isDuplicate {
        state := state[apid := (received + 1) % SEQ_RANGE];
      }
      return SequenceAnalysis(expected, isDuplicate, isGap && !isDuplicate);
    }

    method ResetApid(apid: u16)
      modifies this
      ensures state == old(state) - {apid}
    {
      state := state - {apid};
    }

    method ResetAll()
      modifies this
      ensures state == map[]
    {
      state := map[];
    }
  }

  // What is done with the tracker over time, and what it answers.
  datatype Input = Packet(apid: u16, count: u16) | Forget(apid: u16) | ForgetAll

  datatype Report = Report(apid: u16, analysis: SequenceAnalysis)

  datatype Outcome = Outcome(state: Tracker, reports: seq<Report>)

  function Tracked(inputs: seq<Input>): Outcome {
    if inputs == [] then Outcome(map[], [])
    else
      var before := Tracked(inputs[..|inputs| - 1]);
      match inputs[|inputs| - 1]
      case Packet(apid, count) =>
        Outcome(Checked(before.state, apid, count),
                before.reports + [Report(apid, Analysis(Lookup(before.state, apid), count))])
      case Forget(apid) => before.(state := before.state - {apid})
      case ForgetAll => before.(state := map[])
  }

  /* APIDs do not disturb each other */

  // The reports on one APID.
  function Concerning(reports: seq<Report>, apid: u16): seq<SequenceAnalysis> {
    if reports == [] then []
    else
      var init, last := Concerning(reports[..|reports| - 1], apid), reports[|reports| - 1];
      if last.apid == apid then init + [last.analysis] else init
  }

  // The inputs that concern it.
  function Only(inputs: seq<Input>, apid: u16): seq<Input> {
    if inputs == [] then []
    else
      var init, last := Only(inputs[..|inputs| - 1], apid), inputs[|inputs| - 1];
      if last.ForgetAll? || last.apid == apid then init + [last] else init
  }

  lemma ConcerningSnoc(reports: seq<Report>, last: Report, apid: u16)
    ensures Concerning(reports + [last], apid) ==
      if last.apid == apid then Concerning(reports, apid) + [last.analysis] else Concerning(reports, apid)
  {
    assert (reports + [last])[..|reports|] == reports;
  }

  lemma TrackedSnoc(inputs: seq<Input>, last: Input)
    ensures
      var before := Tracked(inputs);
      Tracked(inputs + [last]) ==
        match last
        case Packet(apid, count) =>
          Outcome(Checked(before.state, apid, count),
                  before.reports + [Report(apid, Analysis(Lookup(before.state, apid), count))])
        case Forget(apid) => before.(state := before.state - {apid})
        case ForgetAll => before.(state := map[])
  {
    assert (inputs + [last])[..|inputs|] == inputs;
  }

  // What is said of an APID depends on its own packets and resets only.
  lemma {:induction false} ApidsAreIndependent(inputs: seq<Input>, apid: u16)
    ensures Concerning(Tracked(inputs).reports, apid) == Concerning(Tracked(Only(inputs, apid)).reports, apid)
    ensures Lookup(Tracked(inputs).state, apid) == Lookup(Tracked(Only(inputs, apid)).state, apid)
  {
    hide Analysis, ExpectedNext, Concerning;
    if inputs != [] {
      var init, last := inputs[..|inputs| - 1], inputs[|inputs| - 1];
      ApidsAreIndependent(init, apid);
      TrackedSnoc(Only(init, apid), last);
      if last.Packet? {
        var all, own := Tracked(init), Tracked(Only(init, apid));
        ConcerningSnoc(all.reports, Report(last.apid, Analysis(Lookup(all.state, last.apid), last.count)), apid);
        ConcerningSnoc(own.reports, Report(last.apid, Analysis(Lookup(own.state, last.apid), last.count)), apid);
      }
    }
  }

  /* Losses and repeats */

  // How the next packet of a stream differs from the last: so many packets between them were lost, or
  // it is the last one again.
  datatype Next = After(lost: nat) | Again

  // The packets counted, without wrapping.
  function Counted(first: nat, nexts: seq<Next>): nat {
    if nexts == [] then first
    else
      var before := Counted(first, nexts[..|nexts| - 1]);
      match nexts[|nexts| - 1]
      case After(lost) => before + lost + 1
      case Again => before
  }

  function Arriving(apid: u16, first: nat, nexts: seq<Next>): (inputs: seq<Input>)
    ensures |inputs| == |nexts| + 1
  {
    var packet := Packet(apid, Counted(first, nexts) % SEQ_RANGE);
    if nexts == [] then [packet] else Arriving(apid, first, nexts[..|nexts| - 1]) + [packet]
  }

  // The verdict that a disturbance gets.
  predicate LooksLost(next: Next) { next.After? && next.lost % SEQ_RANGE != 0 && next.lost % SEQ_RANGE != SEQ_MAX }

  predicate LooksRepeated(next: Next) { next.Again? || next.lost % SEQ_RANGE == SEQ_MAX }

  lemma SameCount(counted: nat, more: nat)
    ensures (counted + more) % SEQ_RANGE == counted % SEQ_RANGE <==> more % SEQ_RANGE == 0
  {}

  lemma Previous(counted: nat, received: u16)
    requires received < SEQ_RANGE
    ensures Analysis(Some(Successor(counted)), received).isDuplicate <==> received == counted % SEQ_RANGE
  {}

  lemma OneShort(lost: nat)
    ensures (lost + 1) % SEQ_RANGE == 0 <==> lost % SEQ_RANGE == SEQ_MAX
  {}

  lemma Verdict(counted: nat, next: Next)
    ensures
      var now := match next case After(lost) => counted + lost + 1 case Again => counted;
      var analysis := Analysis(Some(Successor(counted)), now % SEQ_RANGE);
      && analysis.isGap == LooksLost(next) && analysis.isDuplicate == LooksRepeated(next)
      && ExpectedNext(Some(Successor(counted)), now % SEQ_RANGE) == Successor(now)
  {
    var now := match next case After(lost) => counted + lost + 1 case Again => counted;
    Previous(counted, now % SEQ_RANGE);
    NextCount(counted, now);
    match next
    case After(lost) =>
      SameCount(counted, lost + 1);
      SameCount(counted + 1, lost);
      OneShort(lost);
    case Again =>
  }

  // A packet taken for a repeat has the count the tracker already holds.
  lemma NextCount(counted: nat, now: nat)
    ensures now % SEQ_RANGE == counted % SEQ_RANGE ==> Successor(counted) == Successor(now)
    ensures Successor(now % SEQ_RANGE) == Successor(now)
  {}

  function Occurrences<T>(s: seq<T>, p: T -> bool): nat {
    if s == [] then 0 else Occurrences(s[..|s| - 1], p) + if p(s[|s| - 1]) then 1 else 0
  }

  lemma OccurrencesSnoc<T>(s: seq<T>, x: T, p: T -> bool)
    ensures Occurrences(s + [x], p) == Occurrences(s, p) + if p(x) then 1 else 0
  {
    assert (s + [x])[..|s|] == s;
  }

  function Verdicts(apid: u16, first: nat, nexts: seq<Next>): seq<SequenceAnalysis> {
    Concerning(Tracked(Arriving(apid, first, nexts)).reports, apid)
  }

  predicate IsGap(a: SequenceAnalysis) { a.isGap }

  predicate IsDuplicate(a: SequenceAnalysis) { a.isDuplicate }

  predicate IsLoss(next: Next) { next.After? && next.lost > 0 }

  predicate IsRepeat(next: Next) { next.Again? }

  lemma {:induction false} FlagsOfStream(apid: u16, first: nat, nexts: seq<Next>)
    ensures Lookup(Tracked(Arriving(apid, first, nexts)).state, apid) == Some(Successor(Counted(first, nexts)))
    ensures |Verdicts(apid, first, nexts)| == |nexts| + 1
    ensures Occurrences(Verdicts(apid, first, nexts), IsGap) == Occurrences(nexts, LooksLost)
    ensures Occurrences(Verdicts(apid, first, nexts), IsDuplicate) == Occurrences(nexts, LooksRepeated)
  {
    hide Analysis, ExpectedNext, Successor, Concerning, Occurrences, LooksLost, LooksRepeated;
    if nexts == [] {
      FirstPacket(apid, first % SEQ_RANGE);
      NoOccurrences(LooksLost);
      NoOccurrences(LooksRepeated);
      NextCount(first, first);
    } else {
      var init, next := nexts[..|nexts| - 1], nexts[|nexts| - 1];
      FlagsOfStream(apid, first, init);
      var before := Tracked(Arriving(apid, first, init));
      var count := Counted(first, nexts) % SEQ_RANGE;
      TrackedSnoc(Arriving(apid, first, init), Packet(apid, count));
      Verdict(Counted(first, init), next);
      var analysis := Analysis(Lookup(before.state, apid), count);
      ConcerningSnoc(before.reports, Report(apid, analysis), apid);
      OccurrencesSnoc(Verdicts(apid, first, init), analysis, IsGap);
      OccurrencesSnoc(Verdicts(apid, first, init), analysis, IsDuplicate);
      assert nexts == init + [next];
      OccurrencesSnoc(init, next, LooksLost);
      OccurrencesSnoc(init, next, LooksRepeated);
    }
  }

  // Each verdict of a stream: the first packet is taken as it comes, and every other is told apart by how many
  // packets are missing before it, modulo 2^14.
  ghost predicate VerdictsTell(verdicts: seq<SequenceAnalysis>, first: nat, nexts: seq<Next>) {
    && |verdicts| == |nexts| + 1
    && verdicts[0] == SequenceAnalysis(first % 16384, false, false)
    && forall k :: 0 <= k < |nexts| ==>
      && verdicts[k + 1].expected == (Counted(first, nexts[..k]) + 1) % 16384
      && (verdicts[k + 1].isDuplicate <==> nexts[k].Again? || nexts[k].lost % 16384 == 16383)
      && (verdicts[k + 1].isGap <==> nexts[k].After? && 1 <= nexts[k].lost % 16384 <= 16382)
  }

  lemma {:induction false} VerdictsOfStream(apid: u16, first: nat, nexts: seq<Next>)
    ensures VerdictsTell(Verdicts(apid, first, nexts), first, nexts)
  {
    hide Analysis, ExpectedNext, Concerning, Occurrences, Tracked, Counted;
    FlagsOfStream(apid, first, nexts);
    if nexts == [] {
      FirstVerdict(apid, first);
    } else {
      var init, next := nexts[..|nexts| - 1], nexts[|nexts| - 1];
      VerdictsOfStream(apid, first, init);
      FlagsOfStream(apid, first, init);
      LastVerdict(apid, first, nexts);
      forall k | 0 <= k < |init|
        ensures nexts[k] == init[k] && nexts[..k] == init[..k]
      {}
    }
  }

  lemma FirstVerdict(apid: u16, first: nat)
    ensures VerdictsTell(Verdicts(apid, first, []), first, [])
  {
    FirstPacket(apid, first % SEQ_RANGE);
  }

  lemma LastVerdict(apid: u16, first: nat, nexts: seq<Next>)
    requires nexts != []
    ensures
      var init, next := nexts[..|nexts| - 1], nexts[|nexts| - 1];
      var analysis := Analysis(Some(Successor(Counted(first, init))), Counted(first, nexts) % SEQ_RANGE);
      && Verdicts(apid, first, nexts) == Verdicts(apid, first, init) + [analysis]
      && analysis.expected == (Counted(first, init) + 1) % SEQ_RANGE
      && analysis.isGap == LooksLost(next) && analysis.isDuplicate == LooksRepeated(next)
  {
    hide Concerning, Tracked, LooksLost, LooksRepeated;
    var init, next := nexts[..|nexts| - 1], nexts[|nexts| - 1];
    var before, count := Tracked(Arriving(apid, first, init)), Counted(first, nexts) % SEQ_RANGE;
    FlagsOfStream(apid, first, init);
    TrackedSnoc(Arriving(apid, first, init), Packet(apid, count));
    ConcerningSnoc(before.reports, Report(apid, Analysis(Lookup(before.state, apid), count)), apid);
    Verdict(Counted(first, init), next);
  }

  // After a reset of the APID, or of all, what is said of it is what a new tracker would say.
  lemma {:induction false} ResetStartsAfresh(earlier: seq<Input>, reset: Input, since: seq<Input>, apid: u16)
    requires reset == Forget(apid) || reset == ForgetAll
    ensures
      var all, anew := Tracked(earlier + [reset] + since), Tracked(since);
      && Concerning(all.reports, apid) == Concerning(Tracked(earlier).reports, apid) + Concerning(anew.reports, apid)
      && Lookup(all.state, apid) == Lookup(anew.state, apid)
  {
    hide Analysis, ExpectedNext, Concerning, Tracked;
    if since == [] {
      TrackedSnoc(earlier, reset);
      assert earlier + [reset] + [] == earlier + [reset];
      TrackedEmpty(apid);
    } else {
      var init, last := since[..|since| - 1], since[|since| - 1];
      ResetStartsAfresh(earlier, reset, init, apid);
      assert earlier + [reset] + since == (earlier + [reset] + init) + [last];
      TrackedSnoc(earlier + [reset] + init, last);
      TrackedSnoc(init, last);
      assert init + [last] == since;
      if last.Packet? {
        var all, own := Tracked(earlier + [reset] + init), Tracked(init);
        ConcerningSnoc(all.reports, Report(last.apid, Analysis(Lookup(all.state, last.apid), last.count)), apid);
        ConcerningSnoc(own.reports, Report(last.apid, Analysis(Lookup(own.state, last.apid), last.count)), apid);
      }
    }
  }

  lemma TrackedEmpty(apid: u16)
    ensures Concerning(Tracked([]).reports, apid) == [] && Tracked([]).state == map[]
  {}

  lemma NoOccurrences<T>(p: T -> bool)
    ensures Occurrences([], p) == 0
  {}

  lemma FirstPacket(apid: u16, count: u16)
    ensures
      var analysis := Analysis(None, count);
      && Tracked([Packet(apid, count)]) == Outcome(map[apid := Successor(count)], [Report(apid, analysis)])
      && Concerning([Report(apid, analysis)], apid) == [analysis]
      && Occurrences([analysis], IsGap) == 0 && Occurrences([analysis], IsDuplicate) == 0
  {
    TrackedSnoc([], Packet(apid, count));
    assert [] + [Packet(apid, count)] == [Packet(apid, count)];
    ConcerningSnoc([], Report(apid, Analysis(None, count)), apid);
    assert [] + [Report(apid, Analysis(None, count))] == [Report(apid, Analysis(None, count))];
    OccurrencesSnoc([], Analysis(None, count), IsGap);
    OccurrencesSnoc([], Analysis(None, count), IsDuplicate);
    assert [] + [Analysis(None, count)] == [Analysis(None, count)];
  }

  lemma {:induction false} Pointwise<T>(s: seq<T>, p: T -> bool, q: T -> bool)
    requires forall i :: 0 <= i < |s| ==> p(s[i]) ==> q(s[i])
    ensures Occurrences(s, p) <= Occurrences(s, q)
    ensures Occurrences(s, p) == Occurrences(s, q) <==> forall i :: 0 <= i < |s| ==> p(s[i]) == q(s[i])
  {
    if s != [] {
      var init := s[..|s| - 1];
      Pointwise(init, p, q);
      assert forall i :: 0 <= i < |init| ==> init[i] == s[i];
    }
  }

  // A loss run that the 14-bit count tells from a clean packet and from a repeat.
  predicate Visible(next: Next) { IsLoss(next) ==> 1 <= next.lost % SEQ_RANGE < SEQ_MAX }

  // In any interleaving with other APIDs, the gap flags of a stream number its loss runs and the
  // duplicate flags its repeats, if and only if no loss run is a multiple of 2^14 or one short of it.
  lemma FlagsCountDisturbances(inputs: seq<Input>, apid: u16, first: nat, nexts: seq<Next>)
    requires Only(inputs, apid) == Arriving(apid, first, nexts)
    ensures
      var verdicts := Concerning(Tracked(inputs).reports, apid);
      && |verdicts| == |nexts| + 1
      && ((Occurrences(verdicts, IsGap) == Occurrences(nexts, IsLoss)
           && Occurrences(verdicts, IsDuplicate) == Occurrences(nexts, IsRepeat))
          <==> forall k :: 0 <= k < |nexts| ==> Visible(nexts[k]))
  {
    hide Occurrences, Tracked, Concerning, Arriving, Only;
    ApidsAreIndependent(inputs, apid);
    FlagsOfStream(apid, first, nexts);
    Pointwise(nexts, LooksLost, IsLoss);
    Pointwise(nexts, IsRepeat, LooksRepeated);
    forall k | 0 <= k < |nexts|
      ensures Visible(nexts[k]) <==>
        (LooksLost(nexts[k]) == IsLoss(nexts[k]) && IsRepeat(nexts[k]) == LooksRepeated(nexts[k]))
    {
      VisibleIff(nexts[k]);
    }
  }

  lemma VisibleIff(next: Next)
    ensures Visible(next) <==> (LooksLost(next) == IsLoss(next) && IsRepeat(next) == LooksRepeated(next))
  {}
}
