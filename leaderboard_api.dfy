/**
 * The leaderboard endpoint (app/api/leaderboard/route.ts): one row of integer
 * statistics per player, counted over completed rounds only, race statistics
 * leaving overtime races out.
 */
module LeaderboardApi {
  import opened Common
  import opened Seqs

  /** A round the player took part in, as the query selects it. */
  datatype RoundRef = RoundRef(roundId: string, status: RoundStatus, winnerPlayerId: Option<PlayerId>)

  /** One of the player's race results, with the race's overtime flag and its round's status. */
  datatype ResultRecord = ResultRecord(
    finishPosition: int, pointsAwarded: Option<int>, isOvertime: bool, roundStatus: RoundStatus)

  /** A player with the rounds it joined and the results it scored. */
  datatype PlayerRecord = PlayerRecord(
    id: PlayerId, name: string, avatarUrl: Option<string>, rounds: seq<RoundRef>, results: seq<ResultRecord>)

  /** The integer fields of a leaderboard row. */
  datatype PlayerStats = PlayerStats(
    id: PlayerId, name: string, avatarUrl: Option<string>,
    wins: int, roundsPlayed: int, totalPoints: int, racesRaced: int,
    firstPlaceRaces: int, secondPlaceRaces: int, thirdPlaceRaces: int, podiumFinishes: int)

  function IsCompleted(): RoundRef -> bool
  {
    (rp: RoundRef) => rp.status == Completed
  }

  function WonBy(id: PlayerId): RoundRef -> bool
  {
    (rp: RoundRef) => rp.winnerPlayerId == Some(id)
  }

  /** A result that counts: its round is completed and its race is not an overtime race. */
  function Counted(): ResultRecord -> bool
  {
    (rr: ResultRecord) => rr.roundStatus == Completed && !rr.isOvertime
  }

  function FinishedAt(position: int): ResultRecord -> bool
  {
    (rr: ResultRecord) => rr.finishPosition == position
  }

  /** `reduce((sum, rr) => sum + (rr.pointsAwarded ?? 0), 0)` */
  function PointsSum(results: seq<ResultRecord>): int
    decreases |results|
  {
    if results == [] then 0
    else PointsSum(results[..|results| - 1]) + PointsOrZero(results[|results| - 1].pointsAwarded)
  }

  /** Results carrying table points: none, or between 1 and 5. */
  ghost predicate TablePoints(results: seq<ResultRecord>)
  {
    forall i :: 0 <= i < |results| ==>
      results[i].pointsAwarded.None? || 1 <= results[i].pointsAwarded.value <= 5
  }

  /** Table points sum to at least 0 and at most 5 per result. */
  lemma {:induction false} PointsSumBounds(results: seq<ResultRecord>)
    requires TablePoints(results)
    ensures 0 <= PointsSum(results) <= 5 * |results|
    decreases |results|
  {
    if results != [] {
      PointsSumBounds(results[..|results| - 1]);
    }
  }

  /** A result finishes in at most one of the first three places. */
  lemma {:induction false} PodiumAtMostRaces(results: seq<ResultRecord>)
    ensures |Filter(results, FinishedAt(1))| + |Filter(results, FinishedAt(2))| +
            |Filter(results, FinishedAt(3))| <= |results|
    decreases |results|
  {
    if results != [] {
      PodiumAtMostRaces(results[..|results| - 1]);
    }
  }

  /** The `players.map` body: the statistics of one player. */
  function Stats(player: PlayerRecord): (s: PlayerStats)
    ensures s.id == player.id && s.name == player.name && s.avatarUrl == player.avatarUrl
    ensures 0 <= s.wins <= s.roundsPlayed <= |player.rounds|
    ensures s.podiumFinishes == s.firstPlaceRaces + s.secondPlaceRaces + s.thirdPlaceRaces
    ensures 0 <= s.podiumFinishes <= s.racesRaced <= |player.results|
    ensures TablePoints(player.results) ==> 0 <= s.totalPoints <= 5 * s.racesRaced
  {
    var completedRounds := Filter(player.rounds, IsCompleted());
    var wins := Filter(completedRounds, WonBy(player.id));
    var counted := Filter(player.results, Counted());
    var first := Filter(counted, FinishedAt(1));
    var second := Filter(counted, FinishedAt(2));
    var third := Filter(counted, FinishedAt(3));
    PodiumAtMostRaces(counted);
    assert TablePoints(player.results) ==> 0 <= PointsSum(counted) <= 5 * |counted| by {
      if TablePoints(player.results) {
        forall i | 0 <= i < |counted| ensures counted[i].pointsAwarded.None? || 1 <= counted[i].pointsAwarded.value <= 5 {
          assert counted[i] in player.results;
        }
        PointsSumBounds(counted);
      }
    }
    PlayerStats(
      player.id, player.name, player.avatarUrl,
      |wins|, |completedRounds|, PointsSum(counted), |counted|,
      |first|, |second|, |third|, |first| + |second| + |third|)
  }

  /** A round that is not completed leaves every statistic as it is. */
  lemma UncountedRoundChangesNothing(player: PlayerRecord, rp: RoundRef)
    requires rp.status != Completed
    ensures Stats(player.(rounds := player.rounds + [rp])) == Stats(player)
  {
    FilterSnoc(player.rounds, rp, IsCompleted());
  }

  /** A result of an overtime race, or of a round that is not completed, leaves every
      statistic as it is. */
  lemma UncountedResultChangesNothing(player: PlayerRecord, rr: ResultRecord)
    requires rr.isOvertime || rr.roundStatus != Completed
    ensures Stats(player.(results := player.results + [rr])) == Stats(player)
  {
    FilterSnoc(player.results, rr, Counted());
  }

  /** Both kinds together: an uncounted round and an uncounted result appended at once. */
  lemma UncountedChangesNothing(player: PlayerRecord, rp: RoundRef, rr: ResultRecord)
    requires rp.status != Completed
    requires rr.isOvertime || rr.roundStatus != Completed
    ensures Stats(player.(rounds := player.rounds + [rp], results := player.results + [rr])) == Stats(player)
  {
    UncountedRoundChangesNothing(player, rp);
    UncountedResultChangesNothing(player.(rounds := player.rounds + [rp]), rr);
  }

  /** A player with no rounds and no results has every statistic at zero. */
  lemma NoRecordsNoStats(player: PlayerRecord)
    requires player.rounds == [] && player.results == []
    ensures var s := Stats(player);
      s.wins == 0 && s.roundsPlayed == 0 && s.totalPoints == 0 && s.racesRaced == 0 &&
      s.firstPlaceRaces == 0 && s.secondPlaceRaces == 0 && s.thirdPlaceRaces == 0 && s.podiumFinishes == 0
  {
  }

  /** A completed round adds one round played, and one win exactly when the player won it;
      none of the race statistics changes. */
  lemma CompletedRoundCounts(player: PlayerRecord, rp: RoundRef)
    requires rp.status == Completed
    ensures var before := Stats(player);
      var after := Stats(player.(rounds := player.rounds + [rp]));
      after.roundsPlayed == before.roundsPlayed + 1 &&
      after.wins == before.wins + (if rp.winnerPlayerId == Some(player.id) then 1 else 0) &&
      after.totalPoints == before.totalPoints && after.racesRaced == before.racesRaced &&
      after.firstPlaceRaces == before.firstPlaceRaces &&
      after.secondPlaceRaces == before.secondPlaceRaces &&
      after.thirdPlaceRaces == before.thirdPlaceRaces &&
      after.podiumFinishes == before.podiumFinishes
  {
    var rounds := player.rounds + [rp];
    assert rounds[..|player.rounds|] == player.rounds;
    var completed := Filter(player.rounds, IsCompleted());
    assert Filter(rounds, IsCompleted()) == completed + [rp];
    assert (completed + [rp])[..|completed|] == completed;
  }

  /** A counted result adds one race, its points, and one to the count of its place. */
  lemma CountedResultCounts(player: PlayerRecord, rr: ResultRecord)
    requires rr.roundStatus == Completed && !rr.isOvertime
    ensures var before := Stats(player);
      var after := Stats(player.(results := player.results + [rr]));
      after.racesRaced == before.racesRaced + 1 &&
      after.totalPoints == before.totalPoints + PointsOrZero(rr.pointsAwarded) &&
      after.firstPlaceRaces == before.firstPlaceRaces + (if rr.finishPosition == 1 then 1 else 0) &&
      after.secondPlaceRaces == before.secondPlaceRaces + (if rr.finishPosition == 2 then 1 else 0) &&
      after.thirdPlaceRaces == before.thirdPlaceRaces + (if rr.finishPosition == 3 then 1 else 0) &&
      after.podiumFinishes == before.podiumFinishes + (if 1 <= rr.finishPosition <= 3 then 1 else 0) &&
      after.roundsPlayed == before.roundsPlayed && after.wins == before.wins
  {
    var results := player.results + [rr];
    assert results[..|player.results|] == player.results;
    var counted := Filter(player.results, Counted());
    assert Filter(results, Counted()) == counted + [rr];
    assert (counted + [rr])[..|counted|] == counted;
  }

  /** The response: one row per player, in the order the players were fetched. */
  function Leaderboard(players: seq<PlayerRecord>): (r: seq<PlayerStats>)
    ensures |r| == |players|
    ensures forall i :: 0 <= i < |players| ==> r[i] == Stats(players[i]) && r[i].id == players[i].id
  {
    seq(|players|, i requires 0 <= i < |players| => Stats(players[i]))
  }
}
