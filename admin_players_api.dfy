/**
 * Admin player creation (POST in app/api/admin/players/route.ts): an
 * unauthorized request is refused first; then the name must be a string with
 * something besides whitespace; the trimmed name must not belong to a stored
 * player; only then is a player stored, with the trimmed name and the avatar
 * URL or null.
 */
module AdminPlayersApi {
  import opened Common

  /** The whitespace `String.prototype.trim` removes, restricted to ASCII. */
  predicate IsSpace(c: char)
  {
    c == ' ' || c == '\t' || c == '\n' || c == '\r' || c == '\U{B}' || c == '\U{C}'
  }

  /** The number of leading whitespace characters. */
  function StartOf(s: string): (k: nat)
    ensures k <= |s|
    ensures forall i :: 0 <= i < k ==> IsSpace(s[i])
    ensures k < |s| ==> !IsSpace(s[k])
    decreases |s|
  {
    if s != [] && IsSpace(s[0]) then
      var k := StartOf(s[1..]);
      assert forall i :: 1 <= i < k + 1 ==> s[i] == s[1..][i - 1];
      k + 1
    else 0
  }

  /** The length left once trailing whitespace is dropped. */
  function EndOf(s: string): (k: nat)
    ensures k <= |s|
    ensures forall i :: k <= i < |s| ==> IsSpace(s[i])
    ensures k > 0 ==> !IsSpace(s[k - 1])
    decreases |s|
  {
    if s != [] && IsSpace(s[|s| - 1]) then EndOf(s[..|s| - 1]) else |s|
  }

  /** `s.trim()`: the text between the leading and the trailing whitespace. */
  function Trim(s: string): string
  {
    var front := s[StartOf(s)..];
    front[..EndOf(front)]
  }

  /** The trimmed text starts after the leading whitespace and only whitespace follows it. */
  lemma TrimTail(s: string)
    ensures StartOf(s) + |Trim(s)| <= |s|
    ensures forall i :: StartOf(s) + |Trim(s)| <= i < |s| ==> IsSpace(s[i])
  {
    var a := StartOf(s);
    var front := s[a..];
    forall i | a + EndOf(front) <= i < |s| ensures IsSpace(s[i]) {
      assert s[i] == front[i - a];
    }
  }

  /** The trimmed text neither starts nor ends with whitespace. */
  lemma TrimEnds(s: string)
    ensures Trim(s) != [] ==> !IsSpace(Trim(s)[0]) && !IsSpace(Trim(s)[|Trim(s)| - 1])
  {
    var front := s[StartOf(s)..];
    if EndOf(front) > 0 {
      assert Trim(s)[0] == front[0];
    }
  }

  /** The trimmed text is the slice of `s` right after the leading whitespace, with only
      whitespace before and after it, and it neither starts nor ends with whitespace. */
  lemma TrimShape(s: string)
    ensures StartOf(s) + |Trim(s)| <= |s|
    ensures Trim(s) == s[StartOf(s)..StartOf(s) + |Trim(s)|]
    ensures forall i :: 0 <= i < StartOf(s) ==> IsSpace(s[i])
    ensures forall i :: StartOf(s) + |Trim(s)| <= i < |s| ==> IsSpace(s[i])
    ensures Trim(s) != [] ==> !IsSpace(Trim(s)[0]) && !IsSpace(Trim(s)[|Trim(s)| - 1])
  {
    TrimTail(s);
    TrimEnds(s);
  }

  /** The name is empty after trimming exactly when it is all whitespace. */
  lemma TrimEmptyIffAllSpace(s: string)
    ensures Trim(s) == [] <==> forall i :: 0 <= i < |s| ==> IsSpace(s[i])
  {
    TrimShape(s);
    if Trim(s) != [] {
      assert !IsSpace(s[StartOf(s)]);
    }
  }

  /** Trimming a trimmed name changes nothing. */
  lemma TrimIdempotent(s: string)
    ensures Trim(Trim(s)) == Trim(s)
  {
    var t := Trim(s);
    TrimShape(s);
    if t != [] {
      assert StartOf(t) == 0;
      assert EndOf(t) == |t|;
      assert t[0..] == t;
    }
  }

  datatype AdminError = Unauthorized | NameRequired | NameTaken

  function Message(e: AdminError): string
  {
    match e
    case Unauthorized => "Unauthorized"
    case NameRequired => "Name is required"
    case NameTaken => "A player with this name already exists"
  }

  /** The checks before the write: authorization, then a non-blank string name, then a
      trimmed name no stored player has. `name` is None when the field is missing or is not
      a string. On success the result is the name to store. */
  function CheckCreate(authorized: bool, name: Option<string>, takenNames: set<string>): (r: Result<string, AdminError>)
    ensures r == Err(Unauthorized) <==> !authorized
    ensures r == Err(NameRequired) <==>
              authorized && (name.None? || forall i :: 0 <= i < |name.value| ==> IsSpace(name.value[i]))
    ensures r == Err(NameTaken) <==> authorized && name.Some? && Trim(name.value) != [] && Trim(name.value) in takenNames
    ensures r.Ok? ==> name.Some? && r.value == Trim(name.value) && r.value != [] && r.value !in takenNames
  {
    if !authorized || name.None? then
      if !authorized then Err(Unauthorized) else Err(NameRequired)
    else
      var trimmed := Trim(name.value);
      TrimEmptyIffAllSpace(name.value);
      if name.value == "" || trimmed == [] then Err(NameRequired)
      else if trimmed in takenNames then Err(NameTaken)
      else Ok(trimmed)
  }

  /** `avatarUrl || null`: an empty or missing URL is stored as null. */
  function StoredAvatar(avatarUrl: Option<string>): (r: Option<string>)
    ensures r.Some? <==> avatarUrl.Some? && avatarUrl.value != ""
    ensures r.Some? ==> r == avatarUrl
  {
    if avatarUrl.Some? && avatarUrl.value != "" then avatarUrl else None
  }

  datatype StoredPlayer = StoredPlayer(id: PlayerId, name: string, avatarUrl: Option<string>)

  function Names(players: seq<StoredPlayer>): set<string>
  {
    set p | p in players :: p.name
  }

  /** The stored players; names are unique in the store. */
  class PlayerStore {
    var players: seq<StoredPlayer>

    ghost predicate Valid()
      reads this
    {
      forall i, j :: 0 <= i < j < |players| ==> players[i].name != players[j].name
    }

    constructor(players: seq<StoredPlayer>)
      requires forall i, j :: 0 <= i < j < |players| ==> players[i].name != players[j].name
      ensures Valid() && this.players == players
    {
      this.players := players;
    }

    /** POST /api/admin/players. `newId` is the id the database gives the new player. */
    method CreatePlayer(authorized: bool, name: Option<string>, avatarUrl: Option<string>, newId: PlayerId)
      returns (reply: Result<StoredPlayer, AdminError>)
      requires Valid()
      modifies this
      ensures Valid()
      ensures reply.Err? ==> CheckCreate(authorized, name, Names(old(players))) == Err(reply.error) && players == old(players)
      ensures reply.Ok? ==> CheckCreate(authorized, name, Names(old(players))).Ok?
      ensures reply.Ok? ==> reply.value == StoredPlayer(newId, Trim(name.value), StoredAvatar(avatarUrl))
      ensures reply.Ok? ==> players == old(players) + [reply.value]
    {
      match CheckCreate(authorized, name, Names(players))
      case Err(e) =>
        reply := Err(e);
      case Ok(trimmed) =>
        var player := StoredPlayer(newId, trimmed, StoredAvatar(avatarUrl));
        forall i | 0 <= i < |players| ensures players[i].name != trimmed {
          assert players[i].name in Names(players);
        }
        players := players + [player];
        reply := Ok(player);
    }
  }
}
