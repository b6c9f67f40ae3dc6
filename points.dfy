/**
 * The scoring library, lib/points.ts: the fixed points table, per-player point
 * totals, the winners (every player holding the top total) and tie detection.
 */
module Points {
  import opened Common
  import opened Seqs
  import opened OrderedMap

  datatype PointsError =
    | InvalidPlayerCount(playerCount: int)
    | InvalidPosition(position: int, playerCount: int)

  /** POINTS_TABLE: the points for 1st, 2nd, ... place, keyed by the number of players. */
  function PointsTable(playerCount: int): (r: Option<seq<int>>)
    ensures r.Some? <==> 2 <= playerCount <= 4
    ensures r.Some? ==> |r.value| == playerCount
  {
    if playerCount == 4 then Some([5, 3, 2, 1])
    else if playerCount == 3 then Some([4, 2, 1])
    else if playerCount == 2 then Some([2, 1])
    else None
  }

  /** getPointsForPosition: throws for an unsupported player count, then for an out-of-range position. */
  function GetPointsForPosition(position: int, playerCount: int): (r: Result<int, PointsError>)
    ensures !(2 <= playerCount <= 4) ==> r == Err(InvalidPlayerCount(playerCount))
    ensures 2 <= playerCount <= 4 && (position < 1 || position > playerCount) ==>
              r == Err(InvalidPosition(position, playerCount))
    ensures r.Ok? <==> 2 <= playerCount <= 4 && 1 <= position <= playerCount
    ensures r.Ok? ==> 1 <= r.value <= 5
  {
    match PointsTable(playerCount)
    case None => Err(InvalidPlayerCount(playerCount))
    case Some(table) =>
      if position < 1 || position > playerCount then Err(InvalidPosition(position, playerCount))
      else Ok(table[position - 1])
  }

  /** The table entries, position by position. */
  lemma PointsCurves()
    ensures GetPointsForPosition(1, 4) == Ok(5) && GetPointsForPosition(2, 4) == Ok(3)
    ensures GetPointsForPosition(3, 4) == Ok(2) && GetPointsForPosition(4, 4) == Ok(1)
    ensures GetPointsForPosition(1, 3) == Ok(4) && GetPointsForPosition(2, 3) == Ok(2)
    ensures GetPointsForPosition(3, 3) == Ok(1)
    ensures GetPointsForPosition(1, 2) == Ok(2) && GetPointsForPosition(2, 2) == Ok(1)
  {
  }

  /** For a fixed number of players, a better finish always earns strictly more, and last place earns 1. */
  lemma PointsStrictlyDecrease(playerCount: int, better: int, worse: int)
    requires 2 <= playerCount <= 4
    requires 1 <= better < worse <= playerCount
    ensures GetPointsForPosition(better, playerCount).value > GetPointsForPosition(worse, playerCount).value
    ensures GetPointsForPosition(playerCount, playerCount) == Ok(1)
  {
  }

  // ---------------------------------------------------------------------------
  // calculateTotalPoints

  /** `totals.set(id, (totals.get(id) ?? 0) + (pointsAwarded ?? 0))`: one step of the aggregation loop. */
  function AddResult(totals: seq<Entry>, r: RaceResult): seq<Entry>
  {
    Set(totals, r.playerId, Bumped(totals, r))
  }

  /** The new total of the player of `r`. */
  function Bumped(totals: seq<Entry>, r: RaceResult): int
  {
    GetOr0(totals, r.playerId) + PointsOrZero(r.pointsAwarded)
  }

  lemma AddResultDistinct(totals: seq<Entry>, r: RaceResult)
    requires DistinctKeys(totals)
    ensures DistinctKeys(AddResult(totals, r))
  {
    SetDistinct(totals, r.playerId, Bumped(totals, r));
  }

  lemma AddResultConserves(totals: seq<Entry>, r: RaceResult)
    requires DistinctKeys(totals)
    ensures SumValues(AddResult(totals, r)) == SumValues(totals) + PointsOrZero(r.pointsAwarded)
  {
    SumValuesSet(totals, r.playerId, Bumped(totals, r));
  }

  /** The totals after running the aggregation loop over `results`, starting from `totals`. */
  function Accumulate(totals: seq<Entry>, results: seq<RaceResult>): seq<Entry>
    decreases |results|
  {
    if results == [] then totals
    else AddResult(Accumulate(totals, results[..|results| - 1]), results[|results| - 1])
  }

  /** The points of one player over a list of results, null counted as 0. */
  function SumFor(results: seq<RaceResult>, id: PlayerId): int
    decreases |results|
  {
    if results == [] then 0
    else
      var last := results[|results| - 1];
      SumFor(results[..|results| - 1], id) + (if last.playerId == id then PointsOrZero(last.pointsAwarded) else 0)
  }

  /** The points of all results, null counted as 0. */
  function TotalAwarded(results: seq<RaceResult>): int
    decreases |results|
  {
    if results == [] then 0
    else TotalAwarded(results[..|results| - 1]) + PointsOrZero(results[|results| - 1].pointsAwarded)
  }

  function ResultIds(results: seq<RaceResult>): seq<PlayerId>
  {
    seq(|results|, i requires 0 <= i < |results| => results[i].playerId)
  }

  lemma AccumulateStep(totals: seq<Entry>, results: seq<RaceResult>, r: RaceResult)
    ensures Accumulate(totals, results + [r]) == AddResult(Accumulate(totals, results), r)
  {
    assert (results + [r])[..|results|] == results;
  }

  /** One more turn of the aggregation loop over a prefix of the results. */
  lemma AccumulatePrefixStep(totals: seq<Entry>, results: seq<RaceResult>, i: int)
    requires 0 <= i < |results|
    ensures Accumulate(totals, results[..i + 1]) == AddResult(Accumulate(totals, results[..i]), results[i])
  {
    assert results[..i + 1] == results[..i] + [results[i]];
    AccumulateStep(totals, results[..i], results[i]);
  }

  /** Each player's total grows by exactly that player's points. */
  lemma {:induction false} AccumulateGet(totals: seq<Entry>, results: seq<RaceResult>, id: PlayerId)
    ensures GetOr0(Accumulate(totals, results), id) == GetOr0(totals, id) + SumFor(results, id)
    decreases |results|
  {
    if results != [] {
      AccumulateGet(totals, results[..|results| - 1], id);
    }
  }

  /** One step adds the result's player as a key and no other key. */
  lemma AddResultKeys(totals: seq<Entry>, r: RaceResult)
    ensures forall k :: k in Keys(AddResult(totals, r)) <==> k in Keys(totals) || k == r.playerId
  {
    SetKeysMembers(totals, r.playerId, Bumped(totals, r));
  }

  lemma ResultIdsSnoc(results: seq<RaceResult>)
    requires results != []
    ensures ResultIds(results) == ResultIds(results[..|results| - 1]) + [results[|results| - 1].playerId]
  {
  }

  /** Exactly the ids met in `results` are added as keys. */
  lemma {:induction false} AccumulateKeys(totals: seq<Entry>, results: seq<RaceResult>)
    ensures forall k :: k in Keys(Accumulate(totals, results)) <==> k in Keys(totals) || k in ResultIds(results)
    decreases |results|
  {
    if results != [] {
      var init := results[..|results| - 1];
      var last := results[|results| - 1];
      AccumulateKeys(totals, init);
      AddResultKeys(Accumulate(totals, init), last);
      ResultIdsSnoc(results);
    }
  }

  /** Keys already present keep their place: the old key order is a prefix of the new one. */
  lemma {:induction false} AccumulateKeepsOrder(totals: seq<Entry>, results: seq<RaceResult>)
    ensures Keys(totals) <= Keys(Accumulate(totals, results))
    decreases |results|
  {
    if results != [] {
      var init := results[..|results| - 1];
      var last := results[|results| - 1];
      AccumulateKeepsOrder(totals, init);
      SetKeys(Accumulate(totals, init), last.playerId, Bumped(Accumulate(totals, init), last));
    }
  }

  /** No key is ever entered twice. */
  lemma {:induction false} AccumulateDistinct(totals: seq<Entry>, results: seq<RaceResult>)
    requires DistinctKeys(totals)
    ensures DistinctKeys(Accumulate(totals, results))
    decreases |results|
  {
    if results != [] {
      var init := results[..|results| - 1];
      var last := results[|results| - 1];
      AccumulateDistinct(totals, init);
      AddResultDistinct(Accumulate(totals, init), last);
    }
  }

  /** When every result belongs to a key already present, no key is added and the order is unchanged. */
  lemma {:induction false} AccumulateSameKeys(totals: seq<Entry>, results: seq<RaceResult>)
    requires forall i :: 0 <= i < |results| ==> results[i].playerId in Keys(totals)
    ensures Keys(Accumulate(totals, results)) == Keys(totals)
    decreases |results|
  {
    if results != [] {
      var init := results[..|results| - 1];
      var last := results[|results| - 1];
      AccumulateSameKeys(totals, init);
      SetKeys(Accumulate(totals, init), last.playerId, Bumped(Accumulate(totals, init), last));
    }
  }

  /** Conservation: the totals together hold exactly the points of all results. */
  lemma {:induction false} AccumulateConserves(totals: seq<Entry>, results: seq<RaceResult>)
    requires DistinctKeys(totals)
    ensures SumValues(Accumulate(totals, results)) == SumValues(totals) + TotalAwarded(results)
    decreases |results|
  {
    if results != [] {
      var init := results[..|results| - 1];
      var last := results[|results| - 1];
      AccumulateConserves(totals, init);
      AccumulateDistinct(totals, init);
      AddResultConserves(Accumulate(totals, init), last);
    }
  }

  lemma TotalsFacts(results: seq<RaceResult>)
    ensures DistinctKeys(Accumulate([], results))
    ensures forall k :: k in Keys(Accumulate([], results)) <==> k in ResultIds(results)
    ensures forall k :: GetOr0(Accumulate([], results), k) == SumFor(results, k)
    ensures SumValues(Accumulate([], results)) == TotalAwarded(results)
  {
    AccumulateKeys([], results);
    AccumulateDistinct([], results);
    AccumulateConserves([], results);
    forall k ensures GetOr0(Accumulate([], results), k) == SumFor(results, k) {
      AccumulateGet([], results, k);
    }
  }

  /** calculateTotalPoints: one entry per player met in `results`, in order of first
      appearance, holding the sum of that player's points. */
  method CalculateTotalPoints(results: seq<RaceResult>) returns (totals: seq<Entry>)
    ensures totals == Accumulate([], results)
    ensures DistinctKeys(totals)
    ensures forall k :: k in Keys(totals) <==> k in ResultIds(results)
    ensures forall k :: GetOr0(totals, k) == SumFor(results, k)
    ensures SumValues(totals) == TotalAwarded(results)
  {
    totals := [];
    var i := 0;
    while i < |results|
      invariant 0 <= i <= |results|
      invariant totals == Accumulate([], results[..i])
    {
      var result := results[i];
      var current := GetOr0(totals, result.playerId);
      var updated := current + PointsOrZero(result.pointsAwarded);
      AccumulatePrefixStep([], results, i);
      assert updated == Bumped(totals, result);
      totals := Set(totals, result.playerId, updated);
      i := i + 1;
    }
    assert results[..i] == results;
    TotalsFacts(results);
  }

  // ---------------------------------------------------------------------------
  // getWinners and hasTie

  /** The value `maxPoints` ends with in getWinners: the largest total, or the initial -1
      when no total exceeds it. */
  function TopScore(m: seq<Entry>): (r: int)
    ensures r >= -1
    ensures forall i :: 0 <= i < |m| ==> m[i].value <= r
    ensures r == -1 || exists i :: 0 <= i < |m| && m[i].value == r
    decreases |m|
  {
    if m == [] then -1
    else
      var top := TopScore(m[..|m| - 1]);
      assert forall i :: 0 <= i < |m| - 1 ==> m[..|m| - 1][i] == m[i];
      if m[|m| - 1].value > top then m[|m| - 1].value else top
  }

  /** The keys, in map order, of the entries whose value is `v`. */
  function LeadersAt(m: seq<Entry>, v: int): (r: seq<PlayerId>)
    ensures forall k :: k in r <==> exists i :: 0 <= i < |m| && m[i].key == k && m[i].value == v
    ensures IsSubseq(r, Keys(m))
    ensures DistinctKeys(m) ==> Distinct(r)
    decreases |m|
  {
    if m == [] then []
    else
      var init := m[..|m| - 1];
      var last := m[|m| - 1];
      var rest := LeadersAt(init, v);
      assert Keys(m)[..|m| - 1] == Keys(init);
      assert forall i :: 0 <= i < |m| - 1 ==> init[i] == m[i];
      if last.value == v then
        assert DistinctKeys(m) ==> last.key !in rest;
        rest + [last.key]
      else rest
  }

  /** No entry holds a value above the top score. */
  lemma LeadersAboveTop(m: seq<Entry>, v: int)
    requires v > TopScore(m)
    ensures LeadersAt(m, v) == []
  {
  }

  /** More than one leader exactly when two entries share the value. */
  lemma {:induction false} LeadersAtMoreThanOne(m: seq<Entry>, v: int)
    ensures |LeadersAt(m, v)| > 1 <==> exists i, j :: 0 <= i < j < |m| && m[i].value == v && m[j].value == v
    decreases |m|
  {
    if m != [] {
      var init := m[..|m| - 1];
      LeadersAtMoreThanOne(init, v);
      assert forall i :: 0 <= i < |m| - 1 ==> init[i] == m[i];
      if m[|m| - 1].value == v && |LeadersAt(init, v)| == 1 {
        assert LeadersAt(init, v)[0] in LeadersAt(init, v);
      }
      if exists i, j :: 0 <= i < j < |m| && m[i].value == v && m[j].value == v {
        var i, j :| 0 <= i < j < |m| && m[i].value == v && m[j].value == v;
        if j == |m| - 1 {
          assert init[i].key in LeadersAt(init, v);
        }
      }
    }
  }

  /** What getWinners returns. */
  function Winners(totals: seq<Entry>): seq<PlayerId>
  {
    LeadersAt(totals, TopScore(totals))
  }

  /** getWinners: one pass over the map keeping the best total so far and the ids holding it. */
  method GetWinners(totals: seq<Entry>) returns (winners: seq<PlayerId>)
    ensures winners == Winners(totals)
    ensures forall k :: k in winners <==>
              exists i :: 0 <= i < |totals| && totals[i].key == k && totals[i].value == TopScore(totals)
  {
    var maxPoints := -1;
    winners := [];
    var i := 0;
    while i < |totals|
      invariant 0 <= i <= |totals|
      invariant maxPoints == TopScore(totals[..i])
      invariant winners == LeadersAt(totals[..i], maxPoints)
    {
      var entry := totals[i];
      assert totals[..i + 1][..i] == totals[..i];
      if entry.value > maxPoints {
        LeadersAboveTop(totals[..i], entry.value);
        maxPoints := entry.value;
        winners := [entry.key];
      } else if entry.value == maxPoints {
        winners := winners + [entry.key];
      }
      i := i + 1;
    }
    assert totals[..i] == totals;
  }

  /** For non-negative totals the winners are exactly the keys holding the largest total;
      a non-empty map always has one. */
  lemma WinnersAreTopScorers(totals: seq<Entry>)
    requires forall i :: 0 <= i < |totals| ==> totals[i].value >= 0
    ensures |totals| > 0 <==> |Winners(totals)| > 0
    ensures forall k :: k in Winners(totals) <==>
              exists i :: 0 <= i < |totals| && totals[i].key == k &&
                forall j :: 0 <= j < |totals| ==> totals[j].value <= totals[i].value
  {
    var top := TopScore(totals);
    if |totals| > 0 {
      assert totals[0].value <= top;
      var w :| 0 <= w < |totals| && totals[w].value == top;
      assert totals[w].key in Winners(totals);
    }
    forall k | (exists i :: 0 <= i < |totals| && totals[i].key == k &&
                  forall j :: 0 <= j < |totals| ==> totals[j].value <= totals[i].value)
      ensures k in Winners(totals)
    {
      var i :| 0 <= i < |totals| && totals[i].key == k &&
               forall j :: 0 <= j < |totals| ==> totals[j].value <= totals[i].value;
      var w :| 0 <= w < |totals| && totals[w].value == top;
      assert totals[i].value == top;
    }
  }

  /** hasTie: more than one winner, i.e. two entries share the top total. */
  function HasTie(totals: seq<Entry>): (r: bool)
    ensures r <==> exists i, j :: 0 <= i < j < |totals| &&
                     totals[i].value == TopScore(totals) && totals[j].value == TopScore(totals)
  {
    LeadersAtMoreThanOne(totals, TopScore(totals));
    |Winners(totals)| > 1
  }
}
