/**
 * The leaderboard page (app/leaderboard/page.tsx): the rows sorted by the
 * chosen statistic, and the column-header clicks that choose the statistic
 * and the direction.
 */
module LeaderboardPage {
  import opened Sorting
  import opened LeaderboardApi

  /** The integer-valued sort keys. */
  datatype SortKey = Wins | RoundsPlayed | TotalPoints | FirstPlaceRaces | PodiumFinishes

  /** `row[sortKey]` */
  function KeyOf(key: SortKey): PlayerStats -> int
  {
    (s: PlayerStats) =>
      match key
      case Wins => s.wins
      case RoundsPlayed => s.roundsPlayed
      case TotalPoints => s.totalPoints
      case FirstPlaceRaces => s.firstPlaceRaces
      case PodiumFinishes => s.podiumFinishes
  }

  /** sortedPlayers: a sorted copy of the rows, ascending or descending by the chosen key. */
  function SortedPlayers(players: seq<PlayerStats>, key: SortKey, ascending: bool): (r: seq<PlayerStats>)
    ensures multiset(r) == multiset(players)
    ensures ascending ==> forall i, j :: 0 <= i < j < |r| ==> KeyOf(key)(r[i]) <= KeyOf(key)(r[j])
    ensures !ascending ==> forall i, j :: 0 <= i < j < |r| ==> KeyOf(key)(r[i]) >= KeyOf(key)(r[j])
  {
    SortBy(players, KeyOf(key), ascending)
  }

  /** In the default order the first row has the most wins. */
  lemma FirstRowHasMostWins(players: seq<PlayerStats>, p: PlayerStats)
    requires p in players
    ensures var r := SortedPlayers(players, Wins, false);
      r != [] && r[0].wins >= p.wins
  {
    var r := SortedPlayers(players, Wins, false);
    assert p in multiset(r);
    var k :| 0 <= k < |r| && r[k] == p;
    if k > 0 {
      assert KeyOf(Wins)(r[0]) >= KeyOf(Wins)(r[k]);
    }
  }

  /** The sort state: the chosen key and whether the order is ascending. */
  datatype SortState = SortState(key: SortKey, ascending: bool)

  const INITIAL_SORT: SortState := SortState(Wins, false)

  /** handleSort: the current key flips the direction; another key is chosen descending. */
  function AfterSort(s: SortState, key: SortKey): (r: SortState)
    ensures r.key == key
    ensures key == s.key ==> r.ascending == !s.ascending
    ensures key != s.key ==> !r.ascending
  {
    if key == s.key then SortState(key, !s.ascending) else SortState(key, false)
  }

  /** Clicking a header twice restores the state when it was the current key, and leaves
      that key ascending when it was not. */
  lemma SortTwice(s: SortState, key: SortKey)
    ensures AfterSort(AfterSort(s, key), key) == if key == s.key then s else SortState(key, true)
  {
  }

  /** The small-screen `<select>` choosing `key`: the key changes, the direction stays. */
  function AfterSelect(s: SortState, key: SortKey): (r: SortState)
    ensures r.key == key && r.ascending == s.ascending
  {
    SortState(key, s.ascending)
  }

  /** The two controls agree on a new key only when the order was descending: a header
      click always starts descending, the select keeps an ascending order. */
  lemma SelectDiffersFromHeader(s: SortState, key: SortKey)
    requires key != s.key
    ensures AfterSelect(s, key) == AfterSort(s, key) <==> !s.ascending
  {
  }

  /** The page's sort state. */
  class SortControl {
    var sortKey: SortKey
    var sortAsc: bool

    constructor()
      ensures SortState(sortKey, sortAsc) == INITIAL_SORT
    {
      sortKey := Wins;
      sortAsc := false;
    }

    method HandleSort(key: SortKey)
      modifies this
      ensures SortState(sortKey, sortAsc) == AfterSort(old(SortState(sortKey, sortAsc)), key)
    {
      if key == sortKey {
        sortAsc := !sortAsc;
      } else {
        sortKey := key;
        sortAsc := false;
      }
    }

    /** The small-screen `<select>`: it sets the key and keeps the direction, so an
        ascending order carries over to the newly chosen key. */
    method SelectKey(key: SortKey)
      modifies this
      ensures SortState(sortKey, sortAsc) == AfterSelect(old(SortState(sortKey, sortAsc)), key)
    {
      sortKey := key;
    }

    function Sorted(players: seq<PlayerStats>): seq<PlayerStats>
      reads this
    {
      SortedPlayers(players, sortKey, sortAsc)
    }
  }
}
