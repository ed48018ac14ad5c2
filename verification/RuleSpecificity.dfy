/** Identification in terms of what the rules list: which packets a rule is about, and that the rule
    that lists most decides. */
module RuleSpecificity {
  import opened Prelude
  import opened RuleLookup
  import opened StableSort

  // What a rule with lists stands for: one source, at most one APID and at most one VCID.
  datatype Pattern = Pattern(sourceId: string, apid: Option<nat>, vcid: Option<nat>)

  predicate Meets(p: Pattern, packet: Packet) {
    p.sourceId == packet.sourceId && p.apid in {None, Some(packet.apid)} && p.vcid in {None, packet.vcid}
  }

  // The choices a list leaves; no list leaves it open.
  predicate Chooses(list: Option<seq<nat>>, choice: Option<nat>) {
    match list
    case None => choice.None?
    case Some(values) => exists i :: 0 <= i < |values| && choice == Some(values[i])
  }

  predicate StandsFor(rule: Rule, p: Pattern) {
    rule.sourceId == p.sourceId && Chooses(rule.apids, p.apid) && Chooses(rule.vcids, p.vcid)
  }

  ghost predicate IsAbout(rule: Rule, packet: Packet) { exists p :: StandsFor(rule, p) && Meets(p, packet) }

  lemma MatchesIff(rule: Rule, packet: Packet)
    ensures Matches(rule, packet) <==> IsAbout(rule, packet)
  {
    var p := Pattern(
      rule.sourceId, if rule.apids.None? then None else Some(packet.apid),
      if rule.vcids.None? then None else packet.vcid);
    if Matches(rule, packet) {
      assert StandsFor(rule, p) && Meets(p, packet);
    }
    if q :| StandsFor(rule, q) && Meets(q, packet) {
      assert rule.apids.Some? ==> q.apid == Some(packet.apid);
      assert rule.vcids.Some? ==> q.vcid == packet.vcid;
    }
  }

  /* Which rule lists more */

  predicate Both(rule: Rule) { rule.apids.Some? && rule.vcids.Some? }

  predicate Neither(rule: Rule) { rule.apids.None? && rule.vcids.None? }

  predicate ListsMore(a: Rule, b: Rule) { (Both(a) && !Both(b)) || (!Neither(a) && Neither(b)) }

  lemma ScoreMeans(a: Rule, b: Rule)
    ensures Score(a) == if Neither(a) then 1 else if Both(a) then 3 else 2
    ensures Score(a) > Score(b) <==> ListsMore(a, b)
  {}

  predicate InRegistry(missions: seq<Mission>, m: nat, s: nat, k: nat) {
    m < |missions| && s < |missions[m].satellites| && k < |missions[m].satellites[s].rules|
  }

  function RuleAt(missions: seq<Mission>, m: nat, s: nat, k: nat): Rule
    requires InRegistry(missions, m, s, k)
  {
    missions[m].satellites[s].rules[k]
  }

  // The rule at this place is about the packet.
  ghost predicate Fires(missions: seq<Mission>, packet: Packet, m: nat, s: nat, k: nat) {
    InRegistry(missions, m, s, k) && IsAbout(RuleAt(missions, m, s, k), packet)
  }

  // The result names this mission and this satellite, all of it.
  predicate Names(c: MatchResult, mission: Mission, satellite: Satellite) {
    && c.missionId == mission.id && c.missionName == mission.name && c.missionCode == mission.code
    && c.satelliteId == satellite.id && c.satelliteName == satellite.name && c.noradId == satellite.noradId
  }

  lemma OfferedIff(missions: seq<Mission>, packet: Packet, c: MatchResult)
    ensures Offered(missions, packet, c) <==> exists m: nat, s: nat, k: nat ::
      && Fires(missions, packet, m, s, k) && Names(c, missions[m], missions[m].satellites[s])
      && c.specificityScore == Score(RuleAt(missions, m, s, k))
  {
    hide Matches, IsAbout, Score;
    if Offered(missions, packet, c) {
      var m, s, k :| 0 <= m < |missions| && 0 <= s < |missions[m].satellites|
                     && 0 <= k < |missions[m].satellites[s].rules|
                     && Matches(missions[m].satellites[s].rules[k], packet)
                     && c == Candidate(missions[m], missions[m].satellites[s], missions[m].satellites[s].rules[k]);
      MatchesIff(RuleAt(missions, m, s, k), packet);
      assert Fires(missions, packet, m, s, k);
    }
    if m: nat, s: nat, k: nat :| Fires(missions, packet, m, s, k) && Names(c, missions[m], missions[m].satellites[s])
                                 && c.specificityScore == Score(RuleAt(missions, m, s, k)) {
      MatchesIff(RuleAt(missions, m, s, k), packet);
      assert c == Candidate(missions[m], missions[m].satellites[s], missions[m].satellites[s].rules[k]);
    }
  }

  lemma FiringIsOffered(missions: seq<Mission>, packet: Packet, m: nat, s: nat, k: nat) returns (c: MatchResult)
    requires Fires(missions, packet, m, s, k)
    ensures Offered(missions, packet, c) && Names(c, missions[m], missions[m].satellites[s])
    ensures c.specificityScore == Score(RuleAt(missions, m, s, k))
  {
    hide IsAbout, Score, Offered;
    c := Candidate(missions[m], missions[m].satellites[s], RuleAt(missions, m, s, k));
    OfferedIff(missions, packet, c);
  }

  /* The outcome */

  // Nothing is identified exactly if no rule is about the packet.
  lemma UnidentifiedIffNoneFires(missions: seq<Mission>, packet: Packet)
    ensures Resolved(missions, packet) == Err(UnidentifiedPacket) <==>
      forall m: nat, s: nat, k: nat :: !Fires(missions, packet, m, s, k)
  {
    hide Resolved, Offered, Fires;
    UnidentifiedIff(missions, packet);
    if m: nat, s: nat, k: nat :| Fires(missions, packet, m, s, k) {
      var c := FiringIsOffered(missions, packet, m, s, k);
    }
    if c :| Offered(missions, packet, c) {
      OfferedIff(missions, packet, c);
    }
  }

  /* Registry order */

  datatype Place = Place(m: nat, s: nat, k: nat)

  predicate Before(p: Place, q: Place) { p.m < q.m || (p.m == q.m && (p.s < q.s || (p.s == q.s && p.k < q.k))) }

  predicate Increasing(places: seq<Place>) { forall i, j :: 0 <= i < j < |places| ==> Before(places[i], places[j]) }

  // Where the rules that are about the packet stand, in the order of the three loops.
  function RulePlaces(m: nat, s: nat, rules: seq<Rule>, packet: Packet): seq<Place> {
    if rules == [] then []
    else
      var init, k := RulePlaces(m, s, rules[..|rules| - 1], packet), |rules| - 1;
      if Matches(rules[k], packet) then init + [Place(m, s, k)] else init
  }

  function SatellitePlaces(m: nat, satellites: seq<Satellite>, packet: Packet): seq<Place> {
    if satellites == [] then []
    else
      var s := |satellites| - 1;
      SatellitePlaces(m, satellites[..s], packet) + RulePlaces(m, s, satellites[s].rules, packet)
  }

  function Places(missions: seq<Mission>, packet: Packet): seq<Place> {
    if missions == [] then []
    else
      var m := |missions| - 1;
      Places(missions[..m], packet) + SatellitePlaces(m, missions[m].satellites, packet)
  }

  ghost predicate Listed(missions: seq<Mission>, packet: Packet, p: Place, c: MatchResult) {
    InRegistry(missions, p.m, p.s, p.k) &&
    c == Candidate(missions[p.m], missions[p.m].satellites[p.s], RuleAt(missions, p.m, p.s, p.k))
  }

  lemma {:induction false} RulePlacesOrdered(
    mission: Mission, m: nat, satellite: Satellite, s: nat, rules: seq<Rule>, packet: Packet)
    ensures
      var places, found := RulePlaces(m, s, rules, packet), OfRules(mission, satellite, rules, packet);
      && Increasing(places) && |places| == |found|
      && (forall i :: 0 <= i < |places| ==>
            && places[i].m == m && places[i].s == s && places[i].k < |rules| && Matches(rules[places[i].k], packet)
            && found[i] == Candidate(mission, satellite, rules[places[i].k]))
      && (forall k: nat :: k < |rules| && Matches(rules[k], packet) ==> Place(m, s, k) in places)
  {
    hide Matches, Candidate;
    if rules != [] {
      var n := |rules| - 1;
      RulePlacesOrdered(mission, m, satellite, s, rules[..n], packet);
      assert forall k :: 0 <= k < n ==> rules[..n][k] == rules[k];
    }
  }

  lemma IncreasingConcat(a: seq<Place>, b: seq<Place>)
    requires Increasing(a) && Increasing(b) && forall p, q :: p in a && q in b ==> Before(p, q)
    ensures Increasing(a + b)
  {
    hide Before;
  }

  lemma {:induction false} SatellitePlacesOrdered(mission: Mission, m: nat, satellites: seq<Satellite>, packet: Packet)
    ensures
      var places, found := SatellitePlaces(m, satellites, packet), OfSatellites(mission, satellites, packet);
      && Increasing(places) && |places| == |found|
      && (forall i :: 0 <= i < |places| ==>
            var p := places[i];
            && p.m == m && p.s < |satellites| && p.k < |satellites[p.s].rules|
            && Matches(satellites[p.s].rules[p.k], packet)
            && found[i] == Candidate(mission, satellites[p.s], satellites[p.s].rules[p.k]))
      && (forall s: nat, k: nat ::
            s < |satellites| && k < |satellites[s].rules| && Matches(satellites[s].rules[k], packet) ==>
            Place(m, s, k) in places)
  {
    hide Matches, Candidate, RulePlaces, OfRules;
    if satellites != [] {
      var n := |satellites| - 1;
      SatellitePlacesOrdered(mission, m, satellites[..n], packet);
      RulePlacesOrdered(mission, m, satellites[n], n, satellites[n].rules, packet);
      assert forall s :: 0 <= s < n ==> satellites[..n][s] == satellites[s];
      IncreasingConcat(SatellitePlaces(m, satellites[..n], packet), RulePlaces(m, n, satellites[n].rules, packet));
    }
  }

  // The candidates are listed in registry order, each once.
  lemma {:induction false} PlacesOrdered(missions: seq<Mission>, packet: Packet)
    ensures
      var places, found := Places(missions, packet), Candidates(missions, packet);
      && Increasing(places) && |places| == |found|
      && (forall i :: 0 <= i < |places| ==>
            Listed(missions, packet, places[i], found[i])
            && Matches(RuleAt(missions, places[i].m, places[i].s, places[i].k), packet))
      && (forall m: nat, s: nat, k: nat ::
            InRegistry(missions, m, s, k) && Matches(RuleAt(missions, m, s, k), packet) ==>
            Place(m, s, k) in places)
  {
    hide Matches, Candidate, SatellitePlaces, OfSatellites;
    if missions != [] {
      var n := |missions| - 1;
      PlacesOrdered(missions[..n], packet);
      SatellitePlacesOrdered(missions[n], n, missions[n].satellites, packet);
      assert forall m :: 0 <= m < n ==> missions[..n][m] == missions[m];
      IncreasingConcat(Places(missions[..n], packet), SatellitePlaces(n, missions[n].satellites, packet));
    }
  }

  /* Which rule decides */

  // A success names the satellite of a rule that is about the packet; no such rule lists more, and
  // those before it in the registry list less. The score says whether the rule has neither list, one
  // or both.
  lemma SuccessIsMostSpecific(missions: seq<Mission>, packet: Packet, c: MatchResult) returns (p: Place)
    requires Resolved(missions, packet) == Ok(c)
    ensures Fires(missions, packet, p.m, p.s, p.k) && Names(c, missions[p.m], missions[p.m].satellites[p.s])
    ensures
      var rule := RuleAt(missions, p.m, p.s, p.k);
      && c.specificityScore == (if Neither(rule) then 1 else if Both(rule) then 3 else 2)
      && (forall q: Place :: Fires(missions, packet, q.m, q.s, q.k) ==>
            !ListsMore(RuleAt(missions, q.m, q.s, q.k), rule)
            && (Before(q, p) ==> ListsMore(rule, RuleAt(missions, q.m, q.s, q.k))))
  {
    hide Resolved, Offered, Score, IsAbout, Matches, ListsMore, Neither, Both, Candidates, Places, Before;
    SuccessIsFirstBest(missions, packet, c);
    var candidates, places := Candidates(missions, packet), Places(missions, packet);
    PlacesOrdered(missions, packet);
    var i :| 0 <= i < |candidates| && candidates[i] == c
             && forall j :: 0 <= j < i ==> candidates[j].specificityScore < c.specificityScore;
    p := places[i];
    PlacedFires(missions, packet, p, i);
    ScoreMeans(RuleAt(missions, p.m, p.s, p.k), RuleAt(missions, p.m, p.s, p.k));
    forall q: Place | Fires(missions, packet, q.m, q.s, q.k)
      ensures !ListsMore(RuleAt(missions, q.m, q.s, q.k), RuleAt(missions, p.m, p.s, p.k))
      ensures Before(q, p) ==> ListsMore(RuleAt(missions, p.m, p.s, p.k), RuleAt(missions, q.m, q.s, q.k))
    {
      var j := PlaceOf(missions, packet, q);
      var d := FiringIsOffered(missions, packet, q.m, q.s, q.k);
      ScoreMeans(RuleAt(missions, q.m, q.s, q.k), RuleAt(missions, p.m, p.s, p.k));
      ScoreMeans(RuleAt(missions, p.m, p.s, p.k), RuleAt(missions, q.m, q.s, q.k));
      if Before(q, p) {
        EarlierIndex(places, j, i);
      }
    }
  }

  lemma EarlierIndex(places: seq<Place>, j: nat, i: nat)
    requires Increasing(places) && i < |places| && j < |places| && Before(places[j], places[i])
    ensures j < i
  {}

  lemma PlacedFires(missions: seq<Mission>, packet: Packet, p: Place, i: nat)
    requires i < |Places(missions, packet)| && Places(missions, packet)[i] == p
    ensures Fires(missions, packet, p.m, p.s, p.k)
    ensures i < |Candidates(missions, packet)| && Listed(missions, packet, p, Candidates(missions, packet)[i])
  {
    hide Matches, IsAbout, Places, Candidates;
    PlacesOrdered(missions, packet);
    MatchesIff(RuleAt(missions, p.m, p.s, p.k), packet);
  }

  lemma PlaceOf(missions: seq<Mission>, packet: Packet, p: Place) returns (i: nat)
    requires Fires(missions, packet, p.m, p.s, p.k)
    ensures i < |Places(missions, packet)| && Places(missions, packet)[i] == p
    ensures i < |Candidates(missions, packet)| && Listed(missions, packet, p, Candidates(missions, packet)[i])
  {
    hide Matches, IsAbout, Places, Candidates;
    MatchesIff(RuleAt(missions, p.m, p.s, p.k), packet);
    PlacesOrdered(missions, packet);
    assert Place(p.m, p.s, p.k) == p;
    i :| 0 <= i < |Places(missions, packet)| && Places(missions, packet)[i] == p;
  }

  // One matching rule lists more than every other: its satellite is the answer, without ambiguity.
  lemma MostSpecificWins(missions: seq<Mission>, packet: Packet, p: Place)
    requires Fires(missions, packet, p.m, p.s, p.k)
    requires forall q: Place :: Fires(missions, packet, q.m, q.s, q.k) && q != p ==>
      ListsMore(RuleAt(missions, p.m, p.s, p.k), RuleAt(missions, q.m, q.s, q.k))
    ensures Resolved(missions, packet).Ok?
    ensures Names(Resolved(missions, packet).value, missions[p.m], missions[p.m].satellites[p.s])
  {
    hide Resolved, Offered, Score, IsAbout, Matches, ListsMore, Candidates, Tops;
    var c := FiringIsOffered(missions, packet, p.m, p.s, p.k);
    forall d | Offered(missions, packet, d)
      ensures d == c || d.specificityScore < c.specificityScore
    {
      OfferedIff(missions, packet, d);
      var m: nat, s: nat, k: nat :| Fires(missions, packet, m, s, k) && Names(d, missions[m], missions[m].satellites[s])
                                    && d.specificityScore == Score(RuleAt(missions, m, s, k));
      if Place(m, s, k) != p {
        var q := Place(m, s, k);
        assert ListsMore(RuleAt(missions, p.m, p.s, p.k), RuleAt(missions, q.m, q.s, q.k));
        ScoreMeans(RuleAt(missions, p.m, p.s, p.k), RuleAt(missions, m, s, k));
      }
    }
    ResolvedByTops(missions, packet);
    OnlyTop(missions, packet, c);
  }

  lemma OnlyTop(missions: seq<Mission>, packet: Packet, c: MatchResult)
    requires Offered(missions, packet, c)
    requires forall d :: Offered(missions, packet, d) ==> d == c || d.specificityScore < c.specificityScore
    ensures
      var tops := Tops(Candidates(missions, packet));
      tops != [] && forall i :: 0 <= i < |tops| ==> tops[i] == c
  {
    hide Offered, Candidates, Tops;
    TopIff(missions, packet, c);
    var tops := Tops(Candidates(missions, packet));
    forall i | 0 <= i < |tops|
      ensures tops[i] == c
    {
      TopIff(missions, packet, tops[i]);
    }
  }

  /* Ambiguity, in registry order */

  // A rule about the packet such that no rule about it lists more.
  ghost predicate Best(missions: seq<Mission>, packet: Packet, p: Place) {
    Fires(missions, packet, p.m, p.s, p.k) && forall q: Place :: Fires(missions, packet, q.m, q.s, q.k) ==>
      !ListsMore(RuleAt(missions, q.m, q.s, q.k), RuleAt(missions, p.m, p.s, p.k))
  }

  // p is the first of these rules in the registry, and q the next.
  ghost predicate FirstTwo(missions: seq<Mission>, packet: Packet, p: Place, q: Place) {
    && Best(missions, packet, p) && Best(missions, packet, q) && Before(p, q)
    && forall r: Place :: Best(missions, packet, r) && Before(r, q) ==> r == p
  }

  predicate OneSatellite(missions: seq<Mission>, p: Place, q: Place)
    requires InRegistry(missions, p.m, p.s, p.k) && InRegistry(missions, q.m, q.s, q.k)
  {
    && missions[p.m].id == missions[q.m].id
    && missions[p.m].satellites[p.s].id == missions[q.m].satellites[q.s].id
  }

  lemma ListedAlike(missions: seq<Mission>, packet: Packet, p: Place, c: MatchResult, q: Place, d: MatchResult)
    requires Listed(missions, packet, p, c) && Listed(missions, packet, q, d)
    ensures SameSatellite(c, d) <==> OneSatellite(missions, p, q)
  {}

  ghost predicate AreBest(missions: seq<Mission>, packet: Packet, kept: seq<Place>) {
    Increasing(kept) && forall p :: p in kept <==> Best(missions, packet, p)
  }

  lemma FirstTwoOf(missions: seq<Mission>, packet: Packet, kept: seq<Place>)
    requires AreBest(missions, packet, kept) && |kept| > 1
    ensures FirstTwo(missions, packet, kept[0], kept[1])
  {
    hide Best;
    forall r: Place | Best(missions, packet, r) && Before(r, kept[1])
      ensures r == kept[0]
    {
      var i :| 0 <= i < |kept| && kept[i] == r;
    }
  }

  lemma TwoKept(missions: seq<Mission>, packet: Packet, kept: seq<Place>, p: Place, q: Place)
    requires AreBest(missions, packet, kept) && FirstTwo(missions, packet, p, q)
    ensures |kept| > 1 && kept[0] == p && kept[1] == q
  {
    hide Best;
    var i :| 0 <= i < |kept| && kept[i] == p;
    var j :| 0 <= j < |kept| && kept[j] == q;
    forall x | 0 <= x < j
      ensures kept[x] == p
    {
      assert kept[x] in kept;
    }
  }

  // The best candidates come from the best places, in order.

  lemma BestIff(missions: seq<Mission>, packet: Packet, p: Place)
    ensures Best(missions, packet, p) <==> exists i ::
      && 0 <= i < |Places(missions, packet)| == |Candidates(missions, packet)| && Places(missions, packet)[i] == p
      && Descending(Candidates(missions, packet)[i]) == -(BestScore(Candidates(missions, packet)) as real)
  {
    hide Candidates, Places, IsAbout, ListsMore, BestScore, Score, Before;
    var candidates, places := Candidates(missions, packet), Places(missions, packet);
    PlacesOrdered(missions, packet);
    if Best(missions, packet, p) {
      var i := PlaceOf(missions, packet, p);
      var c := BestAttained(candidates);
      var j :| 0 <= j < |candidates| && candidates[j] == c;
      PlacedFires(missions, packet, places[j], j);
      ScoreMeans(RuleAt(missions, places[j].m, places[j].s, places[j].k), RuleAt(missions, p.m, p.s, p.k));
    }
    if i :| 0 <= i < |places| && places[i] == p && Descending(candidates[i]) == -(BestScore(candidates) as real) {
      PlacedFires(missions, packet, p, i);
      forall q: Place | Fires(missions, packet, q.m, q.s, q.k)
        ensures !ListsMore(RuleAt(missions, q.m, q.s, q.k), RuleAt(missions, p.m, p.s, p.k))
      {
        var j := PlaceOf(missions, packet, q);
        ScoreMeans(RuleAt(missions, q.m, q.s, q.k), RuleAt(missions, p.m, p.s, p.k));
      }
    }
  }

  // The candidate with this score that stands where the place does.
  predicate KeptAs(found: seq<MatchResult>, places: seq<Place>, key: real, p: Place, c: MatchResult)
    requires |found| == |places|
  {
    exists j :: 0 <= j < |places| && places[j] == p && found[j] == c && Descending(c) == key
  }

  lemma KeptLonger(found: seq<MatchResult>, places: seq<Place>, key: real, p: Place, c: MatchResult)
    requires |found| == |places| > 0 && Increasing(places)
    requires KeptAs(found[..|found| - 1], places[..|places| - 1], key, p, c)
    ensures KeptAs(found, places, key, p, c) && Before(p, places[|places| - 1])
  {
    hide Before;
    var n := |found| - 1;
    var j :| 0 <= j < n && places[..n][j] == p && found[..n][j] == c && Descending(c) == key;
    assert places[j] == p && found[j] == c;
  }

  lemma KeptLast(found: seq<MatchResult>, places: seq<Place>, key: real)
    requires |found| == |places| > 0 && Descending(found[|found| - 1]) == key
    ensures KeptAs(found, places, key, places[|places| - 1], found[|found| - 1])
  {}

  lemma {:induction false} HavingPlaces(found: seq<MatchResult>, places: seq<Place>, key: real)
    returns (kept: seq<Place>)
    requires |found| == |places| && Increasing(places)
    ensures Increasing(kept) && |kept| == |Having(found, Descending, key)|
    ensures forall i :: 0 <= i < |kept| ==> KeptAs(found, places, key, kept[i], Having(found, Descending, key)[i])
    ensures forall j :: 0 <= j < |places| && Descending(found[j]) == key ==> places[j] in kept
  {
    hide Before, KeptAs;
    kept := [];
    if found != [] {
      var n := |found| - 1;
      var before := HavingPlaces(found[..n], places[..n], key);
      forall i | 0 <= i < |before|
        ensures KeptAs(found, places, key, before[i], Having(found[..n], Descending, key)[i])
        ensures Before(before[i], places[n])
      {
        KeptLonger(found, places, key, before[i], Having(found[..n], Descending, key)[i]);
      }
      kept := before;
      if Descending(found[n]) == key {
        assert KeptAs(found, places, key, places[n], found[n]) by { KeptLast(found, places, key); }
        kept := before + [places[n]];
      }
      forall j | 0 <= j < |places| && Descending(found[j]) == key
        ensures places[j] in kept
      {
        if j < n {
          assert places[..n][j] in before;
        }
      }
    }
  }

  lemma KeptIsListed(missions: seq<Mission>, packet: Packet, key: real, p: Place, c: MatchResult)
    requires |Candidates(missions, packet)| == |Places(missions, packet)|
    requires KeptAs(Candidates(missions, packet), Places(missions, packet), key, p, c)
    ensures Listed(missions, packet, p, c)
    ensures exists i ::
      && 0 <= i < |Places(missions, packet)| && Places(missions, packet)[i] == p
      && Descending(Candidates(missions, packet)[i]) == key
  {
    hide Candidates, Places, Candidate, IsAbout, InRegistry;
    PlacesOrdered(missions, packet);
  }

  lemma BestPlaces(missions: seq<Mission>, packet: Packet) returns (kept: seq<Place>)
    ensures AreBest(missions, packet, kept) && |kept| == |Tops(Candidates(missions, packet))|
    ensures forall i :: 0 <= i < |kept| ==> Listed(missions, packet, kept[i], Tops(Candidates(missions, packet))[i])
  {
    hide Candidates, Places, Having, BestScore, KeptAs, Listed, Best, Before;
    var candidates, places := Candidates(missions, packet), Places(missions, packet);
    var key := -(BestScore(candidates) as real);
    PlacesOrdered(missions, packet);
    kept := HavingPlaces(candidates, places, key);
    forall i | 0 <= i < |kept|
      ensures Listed(missions, packet, kept[i], Tops(candidates)[i]) && Best(missions, packet, kept[i])
    {
      KeptIsListed(missions, packet, key, kept[i], Tops(candidates)[i]);
      BestIff(missions, packet, kept[i]);
    }
    forall p: Place | Best(missions, packet, p)
      ensures p in kept
    {
      BestIff(missions, packet, p);
    }
  }

  // Ambiguity is reported exactly if the first two of the most specific rules about the packet belong
  // to satellites that differ in an identifier.
  lemma AmbiguousIffFirstTwoDiffer(missions: seq<Mission>, packet: Packet)
    ensures Resolved(missions, packet) == Err(AmbiguousMatch) <==>
      exists p, q :: FirstTwo(missions, packet, p, q) && !OneSatellite(missions, p, q)
  {
    hide Resolved, Candidates, Places, Tops, Best, Before, Candidate, IsAbout;
    var tops := Tops(Candidates(missions, packet));
    var kept := BestPlaces(missions, packet);
    ResolvedByTops(missions, packet);
    if |tops| > 1 {
      assert Listed(missions, packet, kept[0], tops[0]) && Listed(missions, packet, kept[1], tops[1]);
      ListedAlike(missions, packet, kept[0], tops[0], kept[1], tops[1]);
      FirstTwoOf(missions, packet, kept);
    }
    if p, q :| FirstTwo(missions, packet, p, q) && !OneSatellite(missions, p, q) {
      TwoKept(missions, packet, kept, p, q);
    }
  }
}
