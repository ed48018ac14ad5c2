/** Identification of a packet's mission and satellite by the most specific matching rule. */
module RuleLookup {
  import opened Prelude
  import opened StableSort

  datatype Rule = Rule(sourceId: string, apids: Option<seq<nat>>, vcids: Option<seq<nat>>)

  datatype Satellite = Satellite(id: nat, name: string, noradId: nat, rules: seq<Rule>)

  datatype Mission = Mission(id: nat, name: string, code: string, satellites: seq<Satellite>)

  datatype Packet = Packet(sourceId: string, apid: nat, vcid: Option<nat>)

  datatype MatchResult = MatchResult(
    missionId: nat, missionName: string, missionCode: string,
    satelliteId: nat, satelliteName: string, noradId: nat,
    specificityScore: nat)

  datatype DomainError = UnidentifiedPacket | AmbiguousMatch

  // `Rule::matches`.
  predicate Matches(rule: Rule, packet: Packet) {
    && rule.sourceId == packet.sourceId
    && (rule.apids.Some? ==> packet.apid in rule.apids.value)
    && (rule.vcids.Some? ==> packet.vcid.Some? && packet.vcid.value in rule.vcids.value)
  }

  function Score(rule: Rule): (score: nat)
    ensures 1 <= score <= 3
  {
    1 + (if rule.apids.Some? then 1 else 0) + (if rule.vcids.Some? then 1 else 0)
  }

  function Candidate(mission: Mission, satellite: Satellite, rule: Rule): MatchResult {
    MatchResult(
      mission.id, mission.name, mission.code, satellite.id, satellite.name, satellite.noradId, Score(rule))
  }

  /* The candidates, in registry order */

  function OfRules(mission: Mission, satellite: Satellite, rules: seq<Rule>, packet: Packet): seq<MatchResult> {
    if rules == [] then []
    else
      var init, last := OfRules(mission, satellite, rules[..|rules| - 1], packet), rules[|rules| - 1];
      if Matches(last, packet) then init + [Candidate(mission, satellite, last)] else init
  }

  function OfSatellites(mission: Mission, satellites: seq<Satellite>, packet: Packet): seq<MatchResult> {
    if satellites == [] then []
    else
      var last := satellites[|satellites| - 1];
      OfSatellites(mission, satellites[..|satellites| - 1], packet) + OfRules(mission, last, last.rules, packet)
  }

  function Candidates(missions: seq<Mission>, packet: Packet): seq<MatchResult> {
    if missions == [] then []
    else
      var last := missions[|missions| - 1];
      Candidates(missions[..|missions| - 1], packet) + OfSatellites(last, last.satellites, packet)
  }

  function Descending(c: MatchResult): real { -(c.specificityScore as real) }

  predicate SameSatellite(a: MatchResult, b: MatchResult) {
    a.missionId == b.missionId && a.satelliteId == b.satelliteId
  }

  // What `resolve` makes of the sorted candidates.
  function Chosen(sorted: seq<MatchResult>): Result<MatchResult, DomainError> {
    if sorted == [] then Err(UnidentifiedPacket)
    else if |sorted| > 1 && sorted[0].specificityScore == sorted[1].specificityScore
            && !SameSatellite(sorted[0], sorted[1])
    then Err(AmbiguousMatch)
    else Ok(sorted[0])
  }

  function Resolved(missions: seq<Mission>, packet: Packet): Result<MatchResult, DomainError> {
    Chosen(Sort(Candidates(missions, packet), Descending))
  }

  // `resolve`: the nested loops, the sort in place and the check of the first two.
  method Resolve(missions: seq<Mission>, packet: Packet) returns (r: Result<MatchResult, DomainError>)
    ensures r == Resolved(missions, packet)
  {
    var candidates: seq<MatchResult> := [];
    for m := 0 to |missions|
      invariant candidates == Candidates(missions[..m], packet)
    {
      assert missions[..m + 1][..m] == missions[..m];
      var mission := missions[m];
      ghost var before := candidates;
      for s := 0 to |mission.satellites|
        invariant candidates == before + OfSatellites(mission, mission.satellites[..s], packet)
      {
        assert mission.satellites[..s + 1][..s] == mission.satellites[..s];
        var satellite := mission.satellites[s];
        candidates := PushMatches(mission, satellite, packet, candidates);
      }
      assert mission.satellites[..|mission.satellites|] == mission.satellites;
    }
    assert missions[..|missions|] == missions;
    if candidates == [] {
      return Err(UnidentifiedPacket);
    }
    candidates := Sort(candidates, Descending);
    if |candidates| > 1 {
      var best, next := candidates[0], candidates[1];
      if best.specificityScore == next.specificityScore {
        if best.missionId != next.missionId || best.satelliteId != next.satelliteId {
          return Err(AmbiguousMatch);
        }
      }
    }
    return Ok(candidates[0]);
  }

  // The innermost loop.
  method PushMatches(mission: Mission, satellite: Satellite, packet: Packet, before: seq<MatchResult>)
    returns (candidates: seq<MatchResult>)
    ensures candidates == before + OfRules(mission, satellite, satellite.rules, packet)
  {
    candidates := before;
    var rules := satellite.rules;
    for k := 0 to |rules|
      invariant candidates == before + OfRules(mission, satellite, rules[..k], packet)
    {
      assert rules[..k + 1][..k] == rules[..k];
      var rule := rules[k];
      if Matches(rule, packet) {
        var score := 1;
        if rule.apids.Some? {
          score := score + 1;
        }
        if rule.vcids.Some? {
          score := score + 1;
        }
        candidates := candidates + [MatchResult(
          mission.id, mission.name, mission.code, satellite.id, satellite.name, satellite.noradId, score)];
      }
    }
    assert rules[..|rules|] == rules;
  }

  /* What is resolved */

  // The candidate of a rule of the registry that matches.
  ghost predicate Offered(missions: seq<Mission>, packet: Packet, c: MatchResult) {
    exists m, s, k ::
      && 0 <= m < |missions| && 0 <= s < |missions[m].satellites| && 0 <= k < |missions[m].satellites[s].rules|
      && Matches(missions[m].satellites[s].rules[k], packet)
      && c == Candidate(missions[m], missions[m].satellites[s], missions[m].satellites[s].rules[k])
  }

  lemma {:induction false} RulesOffered(
    mission: Mission, satellite: Satellite, rules: seq<Rule>, packet: Packet, c: MatchResult)
    ensures c in OfRules(mission, satellite, rules, packet) <==>
      exists k :: 0 <= k < |rules| && Matches(rules[k], packet) && c == Candidate(mission, satellite, rules[k])
  {
    if rules != [] {
      var init, n := rules[..|rules| - 1], |rules| - 1;
      RulesOffered(mission, satellite, init, packet, c);
      assert forall k :: 0 <= k < n ==> init[k] == rules[k];
    }
  }

  lemma {:induction false} SatellitesOffered(
    mission: Mission, satellites: seq<Satellite>, packet: Packet, c: MatchResult)
    ensures c in OfSatellites(mission, satellites, packet) <==>
      exists s, k :: 0 <= s < |satellites| && 0 <= k < |satellites[s].rules| && Matches(satellites[s].rules[k], packet)
        && c == Candidate(mission, satellites[s], satellites[s].rules[k])
  {
    hide Matches, Candidate;
    if satellites != [] {
      var init, last := satellites[..|satellites| - 1], satellites[|satellites| - 1];
      SatellitesOffered(mission, init, packet, c);
      RulesOffered(mission, last, last.rules, packet, c);
      assert forall s :: 0 <= s < |init| ==> init[s] == satellites[s];
    }
  }

  lemma {:induction false} CandidatesOffered(missions: seq<Mission>, packet: Packet, c: MatchResult)
    ensures c in Candidates(missions, packet) <==> Offered(missions, packet, c)
  {
    hide Matches, Candidate;
    if missions != [] {
      var init, last := missions[..|missions| - 1], missions[|missions| - 1];
      CandidatesOffered(init, packet, c);
      SatellitesOffered(last, last.satellites, packet, c);
      assert forall m :: 0 <= m < |init| ==> init[m] == missions[m];
    }
  }

  function BestScore(candidates: seq<MatchResult>): (best: nat)
    ensures forall i :: 0 <= i < |candidates| ==> candidates[i].specificityScore <= best
  {
    if candidates == [] then 0
    else
      var best, last := BestScore(candidates[..|candidates| - 1]), candidates[|candidates| - 1].specificityScore;
      if last > best then last else best
  }

  lemma {:induction false} BestAttained(candidates: seq<MatchResult>) returns (c: MatchResult)
    requires candidates != []
    ensures c in candidates && c.specificityScore == BestScore(candidates)
  {
    var n := |candidates| - 1;
    if n > 0 && candidates[n].specificityScore <= BestScore(candidates[..n]) {
      c := BestAttained(candidates[..n]);
    } else {
      c := candidates[n];
    }
  }

  function Scoring(candidates: seq<MatchResult>, score: nat): seq<MatchResult> {
    Having(candidates, Descending, -(score as real))
  }

  // The candidates that score best, in registry order.
  function Tops(candidates: seq<MatchResult>): seq<MatchResult> { Scoring(candidates, BestScore(candidates)) }

  lemma TopsIn(candidates: seq<MatchResult>, c: MatchResult)
    ensures c in Tops(candidates) <==> c in candidates && c.specificityScore == BestScore(candidates)
  {
    HavingIn(candidates, Descending, -(BestScore(candidates) as real));
  }

  lemma SortedStart(candidates: seq<MatchResult>)
    requires candidates != []
    ensures
      var sorted, tops := Sort(candidates, Descending), Tops(candidates);
      && tops != [] && sorted[0] == tops[0]
      && (|tops| > 1 <==> |sorted| > 1 && sorted[0].specificityScore == sorted[1].specificityScore)
      && (|tops| > 1 ==> sorted[1] == tops[1])
  {
    hide Sort, Having;
    var sorted, best := Sort(candidates, Descending), BestScore(candidates);
    SortOrders(candidates, Descending);
    SortIsStable(candidates, Descending, -(best as real));
    BestComesFirst(candidates, sorted);
    assert Descending(sorted[0]) == -(best as real);
    LeastFirst(sorted, Descending, 0);
    if |sorted| > 1 {
      LeastFirst(sorted, Descending, 1);
    }
  }

  lemma BestComesFirst(candidates: seq<MatchResult>, sorted: seq<MatchResult>)
    requires candidates != [] && Ordered(sorted, Descending) && multiset(sorted) == multiset(candidates)
    ensures sorted != [] && sorted[0].specificityScore == BestScore(candidates)
  {
    var c := BestAttained(candidates);
    assert c in multiset(candidates);
    assert c in multiset(sorted);
    var i :| 0 <= i < |sorted| && sorted[i] == c;
    assert Descending(sorted[0]) <= Descending(sorted[i]);
    assert sorted[0] in multiset(sorted);
    assert sorted[0] in multiset(candidates);
  }

  // The outcome in terms of the best candidates in registry order: only the first two are compared.
  lemma ResolvedByTops(missions: seq<Mission>, packet: Packet)
    ensures
      var tops := Tops(Candidates(missions, packet));
      && (tops == [] <==> Candidates(missions, packet) == [])
      && Resolved(missions, packet) ==
           if tops == [] then Err(UnidentifiedPacket)
           else if |tops| > 1 && !SameSatellite(tops[0], tops[1]) then Err(AmbiguousMatch)
           else Ok(tops[0])
  {
    var candidates := Candidates(missions, packet);
    hide Candidates, Tops, SameSatellite;
    if candidates != [] {
      SortedStart(candidates);
    } else {
      assert Sort(candidates, Descending) == [];
      if Tops(candidates) != [] {
        TopsIn(candidates, Tops(candidates)[0]);
      }
    }
  }

  // Unidentified means that no rule matches.
  lemma UnidentifiedIff(missions: seq<Mission>, packet: Packet)
    ensures Resolved(missions, packet) == Err(UnidentifiedPacket) <==> forall c :: !Offered(missions, packet, c)
  {
    hide Candidates, Offered, Resolved;
    var candidates := Candidates(missions, packet);
    ResolvedByTops(missions, packet);
    forall c
      ensures Offered(missions, packet, c) <==> c in candidates
    {
      CandidatesOffered(missions, packet, c);
    }
    if candidates != [] {
      SortedStart(candidates);
      assert candidates[0] in candidates;
    }
  }

  ghost predicate Top(missions: seq<Mission>, packet: Packet, c: MatchResult) {
    && Offered(missions, packet, c)
    && forall d :: Offered(missions, packet, d) ==> d.specificityScore <= c.specificityScore
  }

  lemma TopIff(missions: seq<Mission>, packet: Packet, c: MatchResult)
    ensures Top(missions, packet, c) <==> c in Tops(Candidates(missions, packet))
  {
    hide Candidates, Offered, Tops;
    var candidates := Candidates(missions, packet);
    forall d
      ensures Offered(missions, packet, d) <==> d in candidates
    {
      CandidatesOffered(missions, packet, d);
    }
    TopsIn(candidates, c);
    var best := BestScore(candidates);
    if candidates != [] {
      var b := BestAttained(candidates);
      assert Offered(missions, packet, b);
    }
  }

  lemma {:induction false} FirstHaving(candidates: seq<MatchResult>, key: real) returns (i: nat)
    requires Having(candidates, Descending, key) != []
    ensures i < |candidates| && candidates[i] == Having(candidates, Descending, key)[0]
    ensures forall j :: 0 <= j < i ==> Descending(candidates[j]) != key
  {
    var init := candidates[..|candidates| - 1];
    if Having(init, Descending, key) != [] {
      i := FirstHaving(init, key);
      assert forall j :: 0 <= j <= i ==> candidates[j] == init[j];
    } else {
      i := |init|;
      forall j | 0 <= j < i
        ensures Descending(candidates[j]) != key
      {
        HavingIn(init, Descending, key);
        assert candidates[j] == init[j] && init[j] in init;
      }
    }
  }

  // The first of the best-scoring candidates has only lower scores before it.
  lemma FirstTop(candidates: seq<MatchResult>) returns (i: nat)
    requires Tops(candidates) != []
    ensures i < |candidates| && candidates[i] == Tops(candidates)[0]
    ensures forall j :: 0 <= j < i ==> candidates[j].specificityScore < candidates[i].specificityScore
  {
    hide BestScore, Having;
    var best := BestScore(candidates);
    i := FirstHaving(candidates, -(best as real));
    TopsIn(candidates, candidates[i]);
    forall j | 0 <= j < i
      ensures candidates[j].specificityScore < best
    {
      assert candidates[j] in candidates;
    }
  }

  // A success is the first of the best-scoring matches in registry order.
  lemma SuccessIsFirstBest(missions: seq<Mission>, packet: Packet, c: MatchResult)
    requires Resolved(missions, packet) == Ok(c)
    ensures Top(missions, packet, c)
    ensures exists i ::
      && 0 <= i < |Candidates(missions, packet)| && Candidates(missions, packet)[i] == c
      && forall j :: 0 <= j < i ==> Candidates(missions, packet)[j].specificityScore < c.specificityScore
  {
    hide Candidates, Resolved, Top, Tops;
    ResolvedByTops(missions, packet);
    TopIff(missions, packet, c);
    var i := FirstTop(Candidates(missions, packet));
  }

  /* Ambiguity */

  ghost predicate Tied(missions: seq<Mission>, packet: Packet) {
    exists a, b :: Top(missions, packet, a) && Top(missions, packet, b) && !SameSatellite(a, b)
  }

  // Ambiguity is reported exactly when two satellites tie, if and only if the first two of the best
  // matches belong to two satellites or all of them belong to one.
  lemma AmbiguityRightIff(missions: seq<Mission>, packet: Packet)
    ensures
      var tops := Tops(Candidates(missions, packet));
      (Resolved(missions, packet) == Err(AmbiguousMatch) <==> Tied(missions, packet)) <==>
      (|tops| > 1 ==>
         !SameSatellite(tops[0], tops[1]) || forall i :: 0 <= i < |tops| ==> SameSatellite(tops[0], tops[i]))
  {
    hide Candidates, Resolved, Top, Tops;
    var tops := Tops(Candidates(missions, packet));
    ResolvedByTops(missions, packet);
    forall c
      ensures Top(missions, packet, c) <==> c in tops
    {
      TopIff(missions, packet, c);
    }
    if tops != [] {
      TopsIn(Candidates(missions, packet), tops[0]);
    }
    if |tops| > 1 {
      assert Top(missions, packet, tops[0]) && Top(missions, packet, tops[1]);
    }
    if forall i :: 0 <= i < |tops| ==> SameSatellite(tops[0], tops[i]) {
      forall a, b | a in tops && b in tops
        ensures SameSatellite(a, b)
      {
        var i :| 0 <= i < |tops| && tops[i] == a;
        var j :| 0 <= j < |tops| && tops[j] == b;
        assert SameSatellite(tops[0], tops[i]) && SameSatellite(tops[0], tops[j]);
      }
    }
    if i :| 0 <= i < |tops| && !SameSatellite(tops[0], tops[i]) {
      assert Top(missions, packet, tops[0]) && Top(missions, packet, tops[i]);
    }
  }

  // No two satellites of the registry share both identifiers.
  ghost predicate DistinctSatellites(missions: seq<Mission>) {
    forall m, s, m', s' ::
      && 0 <= m < |missions| && 0 <= s < |missions[m].satellites|
      && 0 <= m' < |missions| && 0 <= s' < |missions[m'].satellites|
      && missions[m].id == missions[m'].id && missions[m].satellites[s].id == missions[m'].satellites[s'].id
      ==> m == m' && s == s'
  }

  // At most one rule matches with this score.
  ghost predicate OneMatch(rules: seq<Rule>, packet: Packet, score: nat) {
    forall k, k' ::
      && 0 <= k < |rules| && 0 <= k' < |rules| && Matches(rules[k], packet) && Matches(rules[k'], packet)
      && Score(rules[k]) == score && Score(rules[k']) == score
      ==> k == k'
  }

  ghost predicate OneMatchEach(missions: seq<Mission>, packet: Packet, score: nat) {
    forall m, s :: 0 <= m < |missions| && 0 <= s < |missions[m].satellites| ==>
      OneMatch(missions[m].satellites[s].rules, packet, score)
  }

  ghost predicate AllDifferent(candidates: seq<MatchResult>) {
    forall i, j :: 0 <= i < j < |candidates| ==> !SameSatellite(candidates[i], candidates[j])
  }

  lemma {:induction false} NoneOfRules(
    mission: Mission, satellite: Satellite, rules: seq<Rule>, packet: Packet, score: nat)
    requires forall k :: 0 <= k < |rules| && Matches(rules[k], packet) ==> Score(rules[k]) != score
    ensures Scoring(OfRules(mission, satellite, rules, packet), score) == []
  {
    if rules != [] {
      var init, last := rules[..|rules| - 1], rules[|rules| - 1];
      NoneOfRules(mission, satellite, init, packet, score);
      HavingSnoc(
        OfRules(mission, satellite, init, packet), Candidate(mission, satellite, last), Descending, -(score as real));
    }
  }

  lemma {:induction false} OneOfRules(
    mission: Mission, satellite: Satellite, rules: seq<Rule>, packet: Packet, score: nat)
    requires OneMatch(rules, packet, score)
    ensures
      var found := Scoring(OfRules(mission, satellite, rules, packet), score);
      && |found| <= 1
      && (forall c :: c in found ==> c.missionId == mission.id && c.satelliteId == satellite.id)
  {
    if rules != [] {
      var init, last, n := rules[..|rules| - 1], rules[|rules| - 1], |rules| - 1;
      assert forall k :: 0 <= k < n ==> init[k] == rules[k];
      OneOfRules(mission, satellite, init, packet, score);
      if Matches(last, packet) {
        if Score(last) == score {
          NoneOfRules(mission, satellite, init, packet, score);
        }
        HavingSnoc(
          OfRules(mission, satellite, init, packet), Candidate(mission, satellite, last), Descending, -(score as real));
      }
    }
  }

  lemma DifferentConcat(a: seq<MatchResult>, b: seq<MatchResult>)
    requires AllDifferent(a) && AllDifferent(b)
    requires forall c, d :: c in a && d in b ==> !SameSatellite(c, d)
    ensures AllDifferent(a + b)
  {}

  lemma {:induction false} DifferentSatellites(mission: Mission, satellites: seq<Satellite>, packet: Packet, score: nat)
    requires forall s, s' :: 0 <= s < s' < |satellites| ==> satellites[s].id != satellites[s'].id
    requires forall s :: 0 <= s < |satellites| ==> OneMatch(satellites[s].rules, packet, score)
    ensures
      var found := Scoring(OfSatellites(mission, satellites, packet), score);
      && AllDifferent(found)
      && (forall c :: c in found ==>
            c.missionId == mission.id && exists s :: 0 <= s < |satellites| && satellites[s].id == c.satelliteId)
  {
    if satellites != [] {
      var init, last := satellites[..|satellites| - 1], satellites[|satellites| - 1];
      assert forall s :: 0 <= s < |init| ==> init[s] == satellites[s];
      DifferentSatellites(mission, init, packet, score);
      OneOfRules(mission, last, last.rules, packet, score);
      var a, b := OfSatellites(mission, init, packet), OfRules(mission, last, last.rules, packet);
      HavingConcat(a, b, Descending, -(score as real));
      hide OneMatch, OfRules, OfSatellites, Having;
      DifferentConcat(Scoring(a, score), Scoring(b, score));
    }
  }

  // Within a mission satellites differ by their identifier.
  lemma MissionSatellites(missions: seq<Mission>, m: nat)
    requires DistinctSatellites(missions) && m < |missions|
    ensures forall s, s' :: 0 <= s < s' < |missions[m].satellites| ==>
      missions[m].satellites[s].id != missions[m].satellites[s'].id
  {}

  ghost predicate FromMissions(missions: seq<Mission>, c: MatchResult) {
    exists m, s ::
      && 0 <= m < |missions| && 0 <= s < |missions[m].satellites|
      && missions[m].id == c.missionId && missions[m].satellites[s].id == c.satelliteId
  }

  lemma {:induction false} TopsDiffer(missions: seq<Mission>, packet: Packet, score: nat)
    requires DistinctSatellites(missions) && OneMatchEach(missions, packet, score)
    ensures
      var found := Scoring(Candidates(missions, packet), score);
      AllDifferent(found) && forall c :: c in found ==> FromMissions(missions, c)
  {
    if missions != [] {
      var n := |missions| - 1;
      var init, last := missions[..n], missions[n];
      assert forall m :: 0 <= m < n ==> init[m] == missions[m];
      TopsDiffer(init, packet, score);
      MissionSatellites(missions, n);
      DifferentSatellites(last, last.satellites, packet, score);
      var a, b := Candidates(init, packet), OfSatellites(last, last.satellites, packet);
      HavingConcat(a, b, Descending, -(score as real));
      FoundApart(missions, Scoring(a, score), Scoring(b, score));
    }
  }

  lemma FoundApart(missions: seq<Mission>, a: seq<MatchResult>, b: seq<MatchResult>)
    requires missions != [] && DistinctSatellites(missions) && AllDifferent(a) && AllDifferent(b)
    requires forall c :: c in a ==> FromMissions(missions[..|missions| - 1], c)
    requires
      var last := missions[|missions| - 1];
      forall c :: c in b ==>
        c.missionId == last.id && exists s :: 0 <= s < |last.satellites| && last.satellites[s].id == c.satelliteId
    ensures AllDifferent(a + b) && forall c :: c in a + b ==> FromMissions(missions, c)
  {
    var n := |missions| - 1;
    var init := missions[..n];
    forall c, d | c in a && d in b
      ensures !SameSatellite(c, d)
    {
      var m, s :| 0 <= m < n && 0 <= s < |init[m].satellites|
                  && init[m].id == c.missionId && init[m].satellites[s].id == c.satelliteId;
      var s' :| 0 <= s' < |missions[n].satellites| && missions[n].satellites[s'].id == d.satelliteId;
      assert init[m] == missions[m];
    }
    DifferentConcat(a, b);
    forall c | c in a
      ensures FromMissions(missions, c)
    {
      var m, s :| 0 <= m < n && 0 <= s < |init[m].satellites|
                  && init[m].id == c.missionId && init[m].satellites[s].id == c.satelliteId;
      assert init[m] == missions[m];
    }
  }

  // In a registry of distinct satellites, none with two best matches for the packet, ambiguity is
  // reported exactly when two satellites tie.
  lemma AmbiguousIffTied(missions: seq<Mission>, packet: Packet)
    requires DistinctSatellites(missions)
    requires OneMatchEach(missions, packet, BestScore(Candidates(missions, packet)))
    ensures Resolved(missions, packet) == Err(AmbiguousMatch) <==> Tied(missions, packet)
  {
    var candidates := Candidates(missions, packet);
    hide Candidates, Resolved, Tied, Having, OneMatchEach, DistinctSatellites;
    TopsDiffer(missions, packet, BestScore(candidates));
    AmbiguityRightIff(missions, packet);
  }

  // Where one satellite has two best matches before another has one, the tie goes unnoticed.
  lemma TieUnnoticed()
    ensures
      var rule := Rule("rss-replay", None, None);
      var missions := [Mission(1, "", "", [Satellite(101, "", 0, [rule, rule]), Satellite(102, "", 0, [rule])])];
      var packet := Packet("rss-replay", 42, None);
      Tied(missions, packet) && Resolved(missions, packet).Ok?
  {
    var rule := Rule("rss-replay", None, None);
    var packet := Packet("rss-replay", 42, None);
    var a, b := Satellite(101, "", 0, [rule, rule]), Satellite(102, "", 0, [rule]);
    var mission := Mission(1, "", "", [a, b]);
    var x, y := Candidate(mission, a, rule), Candidate(mission, b, rule);
    CandidatesOfTwo(mission, a, b, rule, packet);
    var missions := [mission];
    hide Candidates;
    assert Candidates(missions, packet) == [x, x, y];
    TopsOfThree(x, y);
    TopIff(missions, packet, x);
    TopIff(missions, packet, y);
    ResolvedByTops(missions, packet);
    assert Top(missions, packet, x) && Top(missions, packet, y) && !SameSatellite(x, y);
  }

  lemma CandidatesOfTwo(mission: Mission, a: Satellite, b: Satellite, rule: Rule, packet: Packet)
    requires mission.satellites == [a, b] && a.rules == [rule, rule] && b.rules == [rule] && Matches(rule, packet)
    ensures
      var x, y := Candidate(mission, a, rule), Candidate(mission, b, rule);
      Candidates([mission], packet) == [x, x, y]
  {
    assert [rule, rule][..1] == [rule] && [rule][..0] == [];
    assert OfRules(mission, a, [rule], packet) == [Candidate(mission, a, rule)];
    assert OfRules(mission, b, [rule], packet) == [Candidate(mission, b, rule)];
    assert [a, b][..1] == [a] && [a][..0] == [] && [mission][..0] == [];
    assert OfSatellites(mission, [a], packet) == OfRules(mission, a, [rule, rule], packet);
  }

  lemma TopsOfThree(x: MatchResult, y: MatchResult)
    requires x.specificityScore == y.specificityScore
    ensures Tops([x, x, y]) == [x, x, y]
  {
    var c := [x, x, y];
    var best := BestAttained(c);
    AllHaving(c, Descending, -(BestScore(c) as real));
  }
}
