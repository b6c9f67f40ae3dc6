/**
 * The running standings of a round, as the entry pages compute them on the
 * client: every player of the round starts at 0, then the points of every
 * result of every non-overtime race are added to its player's total. The
 * standings display, the summary page and the overtime page each run this
 * same computation; it is modelled once here.
 */
module Standings {
  import opened Common
  import opened Seqs
  import opened OrderedMap
  import opened Points

  predicate IsRegular(race: Race)
  {
    !race.isOvertime
  }

  /** `races.filter((r) => !r.isOvertime)` */
  function RegularRaces(races: seq<Race>): seq<Race>
  {
    Filter(races, IsRegular)
  }

  /** The results of the non-overtime races, race after race. */
  function RegularResults(races: seq<Race>): seq<RaceResult>
    decreases |races|
  {
    if races == [] then []
    else
      var last := races[|races| - 1];
      RegularResults(races[..|races| - 1]) + (if last.isOvertime then [] else last.results)
  }

  /** The totals map after `playerTotals.set(player.id, 0)` for every player. */
  function Seed(players: seq<Player>): (r: seq<Entry>)
    ensures DistinctKeys(r)
    decreases |players|
  {
    if players == [] then []
    else
      var init := Seed(players[..|players| - 1]);
      SetDistinct(init, players[|players| - 1].id, 0);
      Set(init, players[|players| - 1].id, 0)
  }

  /** Every player starts at 0. */
  lemma {:induction false} SeedIsZero(players: seq<Player>, k: PlayerId)
    ensures GetOr0(Seed(players), k) == 0
    decreases |players|
  {
    if players != [] {
      SeedIsZero(players[..|players| - 1], k);
    }
  }

  /** The seed holds one key per player id. */
  lemma {:induction false} SeedKeys(players: seq<Player>)
    ensures forall k :: k in Keys(Seed(players)) <==> k in Ids(players)
    decreases |players|
  {
    if players != [] {
      var init := players[..|players| - 1];
      var id := players[|players| - 1].id;
      assert Seed(players) == Set(Seed(init), id, 0);
      SeedKeys(init);
      SetKeysMembers(Seed(init), id, 0);
      IdsSnoc(players);
    }
  }

  /** With no repeated id, the seed's keys are the roster's ids in roster order. */
  lemma {:induction false} SeedKeysInOrder(players: seq<Player>)
    requires Distinct(Ids(players))
    ensures Keys(Seed(players)) == Ids(players)
    decreases |players|
  {
    if players != [] {
      var init := players[..|players| - 1];
      var id := players[|players| - 1].id;
      IdsSnoc(players);
      assert Ids(players)[..|players| - 1] == Ids(init);
      DistinctSnoc(Ids(players));
      SeedKeysInOrder(init);
      SetKeys(Seed(init), id, 0);
      IdsSnoc(players);
    }
  }

  /** The standings of a round: each player's points over the non-overtime races. */
  function StandingTotals(players: seq<Player>, races: seq<Race>): seq<Entry>
  {
    Accumulate(Seed(players), RegularResults(races))
  }

  /** Every player's total is the sum of that player's points in the non-overtime races,
      and the map never holds a key twice. */
  lemma StandingTotalsAreSums(players: seq<Player>, races: seq<Race>)
    ensures DistinctKeys(StandingTotals(players, races))
    ensures forall k :: GetOr0(StandingTotals(players, races), k) == SumFor(RegularResults(races), k)
  {
    AccumulateDistinct(Seed(players), RegularResults(races));
    forall k ensures GetOr0(StandingTotals(players, races), k) == SumFor(RegularResults(races), k) {
      AccumulateGet(Seed(players), RegularResults(races), k);
      SeedIsZero(players, k);
    }
  }

  /** The ids of the results of the non-overtime races. */
  ghost predicate ResultsWithin(players: seq<Player>, races: seq<Race>)
  {
    forall i :: 0 <= i < |RegularResults(races)| ==> RegularResults(races)[i].playerId in Ids(players)
  }

  /** When every result belongs to a player of the round, the standings hold exactly the
      roster's ids, in roster order when the roster has no repeated id. */
  lemma StandingKeys(players: seq<Player>, races: seq<Race>)
    requires ResultsWithin(players, races)
    ensures forall k :: k in Keys(StandingTotals(players, races)) <==> k in Ids(players)
    ensures Distinct(Ids(players)) ==> Keys(StandingTotals(players, races)) == Ids(players)
  {
    SeedKeys(players);
    if Distinct(Ids(players)) {
      SeedKeysInOrder(players);
    }
    AccumulateSameKeys(Seed(players), RegularResults(races));
  }

  /** An overtime race never changes the standings. */
  lemma OvertimeAddsNothing(players: seq<Player>, races: seq<Race>, overtime: Race)
    requires overtime.isOvertime
    ensures StandingTotals(players, races + [overtime]) == StandingTotals(players, races)
  {
    assert (races + [overtime])[..|races|] == races;
    assert RegularResults(races + [overtime]) == RegularResults(races) + [];
    assert RegularResults(races) + [] == RegularResults(races);
  }

  lemma {:induction false} RegularResultsOfRegularRaces(races: seq<Race>)
    ensures RegularResults(RegularRaces(races)) == RegularResults(races)
    decreases |races|
  {
    if races != [] {
      var init := races[..|races| - 1];
      var last := races[|races| - 1];
      RegularResultsOfRegularRaces(init);
      if IsRegular(last) {
        var f := RegularRaces(init) + [last];
        assert f[..|f| - 1] == RegularRaces(init);
      }
    }
  }

  /** Looping over the pre-filtered regular races, as the summary and overtime pages do,
      gives the same standings as skipping overtime races inside the loop. */
  lemma RegularRacesSameStandings(players: seq<Player>, races: seq<Race>)
    ensures StandingTotals(players, RegularRaces(races)) == StandingTotals(players, races)
  {
    RegularResultsOfRegularRaces(races);
  }

  lemma {:induction false} AccumulateConcat(m: seq<Entry>, a: seq<RaceResult>, b: seq<RaceResult>)
    ensures Accumulate(m, a + b) == Accumulate(Accumulate(m, a), b)
    decreases |b|
  {
    if b == [] {
      assert a + b == a;
    } else {
      var b' := b[..|b| - 1];
      AccumulateConcat(m, a, b');
      assert (a + b)[..|a + b| - 1] == a + b';
    }
  }

  lemma RegularResultsSnoc(races: seq<Race>, j: int)
    requires 0 <= j < |races|
    ensures RegularResults(races[..j + 1]) ==
      RegularResults(races[..j]) + (if races[j].isOvertime then [] else races[j].results)
  {
    assert races[..j + 1][..j] == races[..j];
  }

  /** The inner loop of the standings: add the points of each result of one race. */
  method AddRaceResults(totals: seq<Entry>, results: seq<RaceResult>) returns (next: seq<Entry>)
    ensures next == Accumulate(totals, results)
  {
    next := totals;
    for k := 0 to |results|
      invariant next == Accumulate(totals, results[..k])
    {
      var result := results[k];
      var current := GetOr0(next, result.playerId);
      var updated := current + PointsOrZero(result.pointsAwarded);
      AccumulatePrefixStep(totals, results, k);
      assert updated == Bumped(next, result);
      next := Set(next, result.playerId, updated);
    }
    assert results[..|results|] == results;
  }

  /** The standings loop: seed every player with 0, then add the points of each result of
      each race that is not an overtime race. */
  method PlayerTotals(players: seq<Player>, races: seq<Race>) returns (totals: seq<Entry>)
    ensures totals == StandingTotals(players, races)
    ensures DistinctKeys(totals)
    ensures forall k :: GetOr0(totals, k) == SumFor(RegularResults(races), k)
  {
    totals := [];
    for i := 0 to |players|
      invariant totals == Seed(players[..i])
    {
      assert players[..i + 1][..i] == players[..i];
      totals := Set(totals, players[i].id, 0);
    }
    assert players[..|players|] == players;
    ghost var seed := Seed(players);
    for j := 0 to |races|
      invariant totals == Accumulate(seed, RegularResults(races[..j]))
    {
      var race := races[j];
      ghost var done := RegularResults(races[..j]);
      RegularResultsSnoc(races, j);
      if !race.isOvertime {
        totals := AddRaceResults(totals, race.results);
        AccumulateConcat(seed, done, race.results);
      } else {
        assert done + [] == done;
      }
    }
    assert races[..|races|] == races;
    StandingTotalsAreSums(players, races);
  }

  /** The standings loop of the summary and overtime pages, which first filter out the
      overtime races and then run the loop over what is left. */
  method PrefilteredTotals(players: seq<Player>, races: seq<Race>) returns (totals: seq<Entry>)
    ensures totals == StandingTotals(players, races)
    ensures DistinctKeys(totals)
    ensures forall k :: GetOr0(totals, k) == SumFor(RegularResults(races), k)
  {
    totals := PlayerTotals(players, RegularRaces(races));
    RegularRacesSameStandings(players, races);
    RegularResultsOfRegularRaces(races);
  }

  /** `Math.max(...playerTotals.values())`: the largest total, or None (minus infinity)
      for an empty map. */
  function TopValue(m: seq<Entry>): (r: Option<int>)
    ensures r.None? <==> m == []
    ensures r.Some? ==> forall i :: 0 <= i < |m| ==> m[i].value <= r.value
    ensures r.Some? ==> exists i :: 0 <= i < |m| && m[i].value == r.value
    decreases |m|
  {
    if m == [] then None
    else
      var top := TopValue(m[..|m| - 1]);
      assert forall i :: 0 <= i < |m| - 1 ==> m[..|m| - 1][i] == m[i];
      if top.None? || m[|m| - 1].value > top.value then Some(m[|m| - 1].value) else top
  }

  /** getWinners starts its running maximum at -1, `Math.max` at minus infinity: they
      agree on every non-empty map whose totals are at least -1. */
  lemma TopScoreIsTopValue(m: seq<Entry>)
    requires m != []
    requires forall i :: 0 <= i < |m| ==> m[i].value >= -1
    ensures TopScore(m) == TopValue(m).value
  {
    var w :| 0 <= w < |m| && m[w].value == TopValue(m).value;
    assert m[w].value <= TopScore(m);
    if TopScore(m) != -1 {
      var v :| 0 <= v < |m| && m[v].value == TopScore(m);
    }
  }

  /** Entry `i` holds a total no other entry exceeds. */
  predicate IsTop(totals: seq<Entry>, i: int)
    requires 0 <= i < |totals|
  {
    forall j :: 0 <= j < |totals| ==> totals[j].value <= totals[i].value
  }

  /** The ids whose total equals `Math.max` of all totals, in map order. */
  function Leaders(totals: seq<Entry>): (r: seq<PlayerId>)
    ensures forall k :: k in r <==> (exists i :: 0 <= i < |totals| && totals[i].key == k && IsTop(totals, i))
    ensures totals != [] <==> r != []
    ensures DistinctKeys(totals) ==> Distinct(r)
  {
    match TopValue(totals)
    case None => []
    case Some(v) =>
      var w :| 0 <= w < |totals| && totals[w].value == v;
      assert totals[w].key in LeadersAt(totals, v);
      LeadersAt(totals, v)
  }

  /** More than one leader exactly when two entries share the largest total. */
  lemma LeadersMoreThanOne(totals: seq<Entry>)
    ensures |Leaders(totals)| > 1 <==>
              (exists i, j :: 0 <= i < j < |totals| && IsTop(totals, i) && IsTop(totals, j))
  {
    if totals != [] {
      var v := TopValue(totals).value;
      LeadersAtMoreThanOne(totals, v);
      var w :| 0 <= w < |totals| && totals[w].value == v;
      assert forall i :: 0 <= i < |totals| ==> (IsTop(totals, i) <==> totals[i].value == v);
    }
  }
}
