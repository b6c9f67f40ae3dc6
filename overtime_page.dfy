/**
 * The overtime page (app/enter/overtime/page.tsx): the players tied for the
 * lead, the tracks still available, when the overtime race may be saved, and
 * what saving does with the server's answer.
 */
module OvertimePage {
  import opened Common
  import opened Seqs
  import opened OrderedMap
  import opened Points
  import opened Standings
  import opened PositionEntry
  import opened TrackSelector

  // The page's standings loop (filter out overtime races, seed every player with 0, add
  // the points of each result) is Standings.PrefilteredTotals, shared with the other page.

  /** tiedPlayerIds: the ids whose total equals `Math.max` of all totals. */
  function TiedPlayerIds(totals: seq<Entry>): seq<PlayerId>
  {
    Leaders(totals)
  }

  function InIds(ids: seq<PlayerId>): Player -> bool
  {
    (p: Player) => p.id in ids
  }

  /** `allPlayers.filter((p) => tiedPlayerIds.includes(p.id))`: the roster players holding
      the largest total, in roster order. */
  function TiedPlayers(players: seq<Player>, totals: seq<Entry>): (r: seq<Player>)
    ensures forall p :: p in r <==>
              (p in players && exists i :: 0 <= i < |totals| && totals[i].key == p.id && IsTop(totals, i))
    ensures IsSubseq(r, players)
  {
    FilterIsSubseq(players, InIds(TiedPlayerIds(totals)));
    Filter(players, InIds(TiedPlayerIds(totals)))
  }

  /** `round.races.map((r) => r.trackId)`: every race of the round, overtime included. */
  function UsedTrackIds(races: seq<Race>): (r: seq<TrackId>)
    ensures forall t :: t in r <==> exists i :: 0 <= i < |races| && races[i].trackId == t
  {
    var r := seq(|races|, i requires 0 <= i < |races| => races[i].trackId);
    assert forall i :: 0 <= i < |races| ==> r[i] == races[i].trackId;
    r
  }

  /** The overtime race only replays a track the round has not used. */
  lemma OfferedTracksAreUnused(tracks: seq<Track>, search: string, races: seq<Race>, t: Track)
    requires t in FilteredTracks(tracks, search, UsedTrackIds(races))
    ensures forall i :: 0 <= i < |races| ==> races[i].trackId != t.id
  {
  }

  /** The race is only offered when at least two players are tied
      (`tiedPlayers.length < 2` shows "No tie detected"). */
  function OvertimeNeeded(tied: seq<Player>): bool
  {
    |tied| >= 2
  }

  /** canSave: a track is selected (non-empty id) and every tied player has a position. */
  function CanSave(selectedTrackId: Option<TrackId>, positions: seq<Placement>, tied: seq<Player>): bool
  {
    Truthy(selectedTrackId) && |positions| == |tied|
  }

  /** handleSaveOvertime: nothing unless the race can be saved and there is a round id;
      otherwise post the track and the positions, go to the confirmation page on
      success and show the error (or a fallback) otherwise. */
  function HandleSaveOvertime(canSave: bool, roundId: Option<string>, reply: ApiReply): (a: PageAction)
    ensures a == Stay <==> !canSave || !Truthy(roundId)
    ensures a.GoTo? <==> canSave && Truthy(roundId) && reply.Success?
    ensures a.GoTo? ==> a.path == "/enter/complete?roundId=" + roundId.value
    ensures canSave && Truthy(roundId) && reply.Failure? ==> a.ShowError? && a.message != ""
  {
    if !canSave || !Truthy(roundId) then Stay
    else
      match reply
      case Success(_) => GoTo("/enter/complete?roundId=" + roundId.value)
      case Failure(error) => ShowError(ErrorOr(error, "Failed to save overtime"))
      case Thrown(message) => ShowError(message)
  }

  /** What a save posts, when saving is allowed on a board of the tied players that the
      user filled through its buttons: every tied player with a position, and every
      position 1..n taken. */
  lemma SavedOvertimeCoversTiedPlayers(selectedTrackId: Option<TrackId>, board: seq<Entry>, tied: seq<Player>)
    requires DistinctKeys(board) && Exclusive(board) && OnBoard(board, tied)
    requires Distinct(Ids(tied))
    requires CanSave(selectedTrackId, Emitted(board), tied)
    ensures forall i :: 0 <= i < |tied| ==> exists pl :: pl in Emitted(board) && pl.playerId == tied[i].id
    ensures forall x :: x in PositionRange(|tied|) ==> exists pl :: pl in Emitted(board) && pl.finishPosition == x
  {
    FullBoardPlacesEveryone(board, tied);
    forall i | 0 <= i < |tied| ensures exists pl :: pl in Emitted(board) && pl.playerId == tied[i].id {
      var id := tied[i].id;
      assert Get(board, id).Some?;
      assert Placement(id, Get(board, id).value) in Emitted(board);
    }
    forall x | x in PositionRange(|tied|) ensures exists pl :: pl in Emitted(board) && pl.finishPosition == x {
      var t :| 0 <= t < |board| && Values(board)[t] == x;
      assert Get(board, board[t].key) == Some(x);
      assert Placement(board[t].key, x) in Emitted(board);
    }
  }
}
