/**
 * Shared vocabulary of the stat tracker: players, races and their results,
 * round status, and the Option/Result wrappers used for nullable fields and
 * for request handlers that answer with an error.
 */
module Common {

  datatype Option<+T> = None | Some(value: T)

  datatype Result<+T, +E> = Ok(value: T) | Err(error: E)

  type PlayerId = string
  type TrackId = string

  datatype Player = Player(id: PlayerId, name: string)

  datatype Track = Track(id: TrackId, name: string)

  /** One row of a race: who finished where, and the points stored for it
      (always null for an overtime race). */
  datatype RaceResult = RaceResult(playerId: PlayerId, finishPosition: int, pointsAwarded: Option<int>)

  datatype Race = Race(raceIndex: int, isOvertime: bool, trackId: TrackId, results: seq<RaceResult>)

  datatype RoundStatus = Draft | Completed | Hidden

  /** One finish entered on a position board: `{ playerId, finishPosition }`. */
  datatype Placement = Placement(playerId: PlayerId, finishPosition: int)

  /** What a page's request to the API came back with: a successful JSON body, an
      error status with the body's optional `error` field, or an exception thrown
      before any body was read. */
  datatype ApiReply = Success(isTied: bool) | Failure(error: Option<string>) | Thrown(message: string)

  /** What a page does after a user action: nothing, a client-side navigation, or an
      error banner. */
  datatype PageAction = Stay | GoTo(path: string) | ShowError(message: string)

  /** A search parameter or state value used as a condition: null and "" are falsy. */
  predicate Truthy(s: Option<string>)
  {
    s.Some? && s.value != ""
  }

  /** `data.error || fallback` */
  function ErrorOr(error: Option<string>, fallback: string): string
  {
    if Truthy(error) then error.value else fallback
  }

  /** `pointsAwarded ?? 0` */
  function PointsOrZero(p: Option<int>): int
  {
    match p
    case Some(v) => v
    case None => 0
  }

  /** The ids of a list of players, in order. */
  function Ids(players: seq<Player>): seq<PlayerId>
  {
    seq(|players|, i requires 0 <= i < |players| => players[i].id)
  }

  lemma IdsSnoc(players: seq<Player>)
    requires players != []
    ensures Ids(players) == Ids(players[..|players| - 1]) + [players[|players| - 1].id]
  {
  }

  predicate Distinct<T(==)>(s: seq<T>)
  {
    forall i, j :: 0 <= i < j < |s| ==> s[i] != s[j]
  }
}
