/**
 * Round creation (app/api/rounds/route.ts): the request's player ids are
 * checked for their count, for repeats and for existence, in that order, and
 * only then is a draft round holding exactly those players stored.
 */
module RoundsApi {
  import opened Common
  import opened Seqs

  datatype RoundError = WrongPlayerCount | DuplicatePlayers | PlayersNotFound

  /** The error text of each refusal. */
  function Message(e: RoundError): string
  {
    match e
    case WrongPlayerCount => "Must have 2-4 players"
    case DuplicatePlayers => "Duplicate players not allowed"
    case PlayersNotFound => "One or more players not found"
  }

  /** `new Set(playerIds).size` */
  function SetSize(ids: seq<PlayerId>): nat
  {
    |set x | x in ids|
  }

  /** The number of rows `findMany({ where: { id: { in: playerIds } } })` returns: the
      stored players whose id is listed (player ids are unique in the store). */
  function FoundCount(ids: seq<PlayerId>, known: set<PlayerId>): nat
  {
    |set x | x in ids && x in known|
  }

  /** With no repeated id, every listed player is found exactly when as many rows come
      back as ids were sent. */
  lemma FoundAllIff(ids: seq<PlayerId>, known: set<PlayerId>)
    requires Distinct(ids)
    ensures FoundCount(ids, known) == |ids| <==> forall i :: 0 <= i < |ids| ==> ids[i] in known
  {
    var listed := set x | x in ids;
    var found := set x | x in ids && x in known;
    SetOfSeqCard(ids);
    if FoundCount(ids, known) == |ids| {
      assert found <= listed;
      SubsetSameCard(found, listed);
      forall i | 0 <= i < |ids| ensures ids[i] in known {
        assert ids[i] in listed;
      }
    }
    if forall i :: 0 <= i < |ids| ==> ids[i] in known {
      forall x | x in listed ensures x in found {
        var i :| 0 <= i < |ids| && ids[i] == x;
      }
      assert found == listed;
    }
  }

  /** The validation chain: the first failing check decides the error; None when the
      round may be created. A missing `playerIds` is None. */
  function Validate(playerIds: Option<seq<PlayerId>>, known: set<PlayerId>): (r: Option<RoundError>)
    ensures r == Some(WrongPlayerCount) <==> playerIds.None? || !(2 <= |playerIds.value| <= 4)
    ensures r == Some(DuplicatePlayers) <==>
              playerIds.Some? && 2 <= |playerIds.value| <= 4 && !Distinct(playerIds.value)
    ensures r == Some(PlayersNotFound) <==>
              playerIds.Some? && 2 <= |playerIds.value| <= 4 && Distinct(playerIds.value) &&
              exists i :: 0 <= i < |playerIds.value| && playerIds.value[i] !in known
    ensures r.None? <==>
              playerIds.Some? && 2 <= |playerIds.value| <= 4 && Distinct(playerIds.value) &&
              forall i :: 0 <= i < |playerIds.value| ==> playerIds.value[i] in known
  {
    if playerIds.None? || |playerIds.value| < 2 || |playerIds.value| > 4 then Some(WrongPlayerCount)
    else
      var ids := playerIds.value;
      DistinctIffSetCard(ids);
      if SetSize(ids) != |ids| then Some(DuplicatePlayers)
      else
        FoundAllIff(ids, known);
        if FoundCount(ids, known) != |ids| then Some(PlayersNotFound)
        else None
  }

  /** A stored round and its players, in the order they were listed. */
  datatype RoundRecord = RoundRecord(id: string, status: RoundStatus, playerIds: seq<PlayerId>)

  /** The part of the database the endpoint touches. */
  class RoundStore {
    var players: set<PlayerId>
    var rounds: seq<RoundRecord>

    constructor(players: set<PlayerId>, rounds: seq<RoundRecord>)
      ensures this.players == players && this.rounds == rounds
    {
      this.players := players;
      this.rounds := rounds;
    }

    /** POST /api/rounds. `newId` is the id the database gives the new round. On success
        exactly one draft round holding the listed players is added; on a refusal the
        store is left as it was. */
    method CreateRound(playerIds: Option<seq<PlayerId>>, newId: string) returns (reply: Result<string, RoundError>)
      modifies this
      ensures reply.Err? <==> Validate(playerIds, old(players)).Some?
      ensures reply.Err? ==> reply.error == Validate(playerIds, old(players)).value && rounds == old(rounds)
      ensures reply.Ok? ==> reply.value == newId && rounds == old(rounds) + [RoundRecord(newId, Draft, playerIds.value)]
      ensures players == old(players)
    {
      match Validate(playerIds, players)
      case Some(e) =>
        reply := Err(e);
      case None =>
        rounds := rounds + [RoundRecord(newId, Draft, playerIds.value)];
        reply := Ok(newId);
    }
  }
}
