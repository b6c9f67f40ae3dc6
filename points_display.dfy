/**
 * The standings display (components/enter/PointsDisplay.tsx): the round's
 * players ordered by total, the leading players, whether the lead is shared,
 * and which rows get the leader, "Tied!" and winner decorations.
 */
module PointsDisplay {
  import opened Common
  import opened Seqs
  import opened Sorting
  import opened OrderedMap
  import opened Standings

  /** `playerTotals.get(p.id) ?? 0`, the sort key. */
  function ByTotal(totals: seq<Entry>): Player -> int
  {
    (p: Player) => GetOr0(totals, p.id)
  }

  /** `[...players].sort((a, b) => bPoints - aPoints)`: highest total first. */
  function SortedPlayers(players: seq<Player>, totals: seq<Entry>): (r: seq<Player>)
    ensures multiset(r) == multiset(players)
    ensures forall i, j :: 0 <= i < j < |r| ==> GetOr0(totals, r[i].id) >= GetOr0(totals, r[j].id)
  {
    var r := SortDesc(players, ByTotal(totals));
    assert forall i, j :: 0 <= i < j < |r| ==> ByTotal(totals)(r[i]) >= ByTotal(totals)(r[j]);
    r
  }

  /** `playerTotals.get(p.id) === maxPoints`; an absent key (undefined) never equals a
      number, and nothing equals the maximum of an empty map (minus infinity). */
  function AtMax(totals: seq<Entry>): Player -> bool
  {
    (p: Player) => TopValue(totals).Some? && Get(totals, p.id) == TopValue(totals)
  }

  /** The sorted players whose total is the largest total. */
  function LeadingPlayers(players: seq<Player>, totals: seq<Entry>): (r: seq<Player>)
    ensures forall p :: p in r <==>
              p in players && TopValue(totals).Some? && Get(totals, p.id) == TopValue(totals)
  {
    var sorted := SortedPlayers(players, totals);
    assert forall p :: p in sorted <==> p in players by {
      forall p ensures p in sorted <==> p in players {
        assert p in sorted <==> p in multiset(sorted);
      }
    }
    Filter(sorted, AtMax(totals))
  }

  /** `leadingPlayers.length > 1 && maxPoints > 0` */
  function IsTied(players: seq<Player>, totals: seq<Entry>): bool
  {
    |LeadingPlayers(players, totals)| > 1 && TopValue(totals).Some? && TopValue(totals).value > 0
  }

  /** The display reports a tie exactly when two roster rows hold the largest total and
      that total is positive. */
  lemma IsTiedMeansSharedPositiveMax(players: seq<Player>, totals: seq<Entry>)
    ensures IsTied(players, totals) <==>
              TopValue(totals).Some? && TopValue(totals).value > 0 &&
              exists i, j :: 0 <= i < j < |players| && AtMax(totals)(players[i]) && AtMax(totals)(players[j])
  {
    var sorted := SortedPlayers(players, totals);
    FilterCountPerm(sorted, players, AtMax(totals));
    FilterMoreThanOne(players, AtMax(totals));
  }

  /** `points === maxPoints && maxPoints > 0` for one row. */
  function IsLeading(totals: seq<Entry>, p: Player): bool
  {
    TopValue(totals).Some? && GetOr0(totals, p.id) == TopValue(totals).value && TopValue(totals).value > 0
  }

  /** The winner decoration: `highlightWinner && isLeading && !isTied`. */
  function Highlighted(highlightWinner: bool, players: seq<Player>, totals: seq<Entry>, p: Player): bool
  {
    highlightWinner && IsLeading(totals, p) && !IsTied(players, totals)
  }

  /** The "Tied!" badge: `isTied && isLeading`. */
  function TiedBadge(players: seq<Player>, totals: seq<Entry>, p: Player): bool
  {
    IsTied(players, totals) && IsLeading(totals, p)
  }

  /** Once the top total is positive, a row is marked leading exactly when its player is
      one of the leading players. */
  lemma LeadingRowsAreLeadingPlayers(players: seq<Player>, totals: seq<Entry>, p: Player)
    requires p in players
    requires TopValue(totals).Some? && TopValue(totals).value > 0
    ensures IsLeading(totals, p) <==> p in LeadingPlayers(players, totals)
  {
  }

  /** At most one player gets the winner decoration. */
  lemma AtMostOneHighlighted(highlightWinner: bool, players: seq<Player>, totals: seq<Entry>, p: Player, q: Player)
    requires p in players && q in players
    requires Highlighted(highlightWinner, players, totals, p) && Highlighted(highlightWinner, players, totals, q)
    ensures p == q
  {
    var leading := LeadingPlayers(players, totals);
    LeadingRowsAreLeadingPlayers(players, totals, p);
    LeadingRowsAreLeadingPlayers(players, totals, q);
    assert p in leading && q in leading;
    assert |leading| == 1;
    assert leading == [leading[0]];
  }
}
