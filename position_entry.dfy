/**
 * The finish-position board (components/enter/PositionEntry.tsx): a record
 * from player id to finish position, edited one click at a time. Clicking a
 * position gives it to the player and takes it away from whoever held it;
 * clicking a player's own position again clears it.
 *
 * The record is an insertion-ordered map (see OrderedMap): player ids are
 * never integer-like strings, so a plain object keeps its keys in insertion
 * order.
 */
module PositionEntry {
  import opened Common
  import opened Seqs
  import opened OrderedMap

  /** The entries the clearing loop leaves alone: all but another player's hold on `position`. */
  function Keeps(playerId: PlayerId, position: int): Entry -> bool
  {
    (e: Entry) => !(e.value == position && e.key != playerId)
  }

  /** The record after assignPosition(playerId, position). */
  function Assigned(m: seq<Entry>, playerId: PlayerId, position: int): seq<Entry>
  {
    var cleared := Filter(m, Keeps(playerId, position));
    if Get(cleared, playerId) == Some(position) then Remove(cleared, playerId)
    else Set(cleared, playerId, position)
  }

  lemma {:induction false} FilterDistinctKeys(m: seq<Entry>, p: Entry -> bool)
    requires DistinctKeys(m)
    ensures DistinctKeys(Filter(m, p))
    decreases |m|
  {
    if m != [] {
      var init := m[..|m| - 1];
      var last := m[|m| - 1];
      FilterDistinctKeys(init, p);
      if p(last) {
        var f := Filter(init, p);
        DistinctKeysSplit(m, |m| - 1);
        KeysMembers(init, last.key);
        KeysMembers(f, last.key);
        assert last.key !in Keys(f);
        forall i, j | 0 <= i < j < |f + [last]| ensures (f + [last])[i].key != (f + [last])[j].key {
          if j == |f| {
            assert (f + [last])[i] in f;
          } else {
            assert (f + [last])[i] == f[i] && (f + [last])[j] == f[j];
          }
        }
      }
    }
  }

  /** The clearing loop frees `position` from every other player and touches nothing else. */
  lemma ClearedGet(m: seq<Entry>, playerId: PlayerId, position: int, q: PlayerId)
    requires DistinctKeys(m)
    ensures DistinctKeys(Filter(m, Keeps(playerId, position)))
    ensures Get(Filter(m, Keeps(playerId, position)), q) ==
              if q != playerId && Get(m, q) == Some(position) then None else Get(m, q)
  {
    var c := Filter(m, Keeps(playerId, position));
    FilterDistinctKeys(m, Keeps(playerId, position));
    KeysMembers(c, q);
    if Get(m, q).Some? {
      assert Entry(q, Get(m, q).value) in m;
    }
  }

  /** What a click does: the clicked player ends up holding the position unless they
      already held it (then they hold nothing), every other holder of the position loses
      it, and every other player keeps what they had. */
  lemma AssignedGet(m: seq<Entry>, playerId: PlayerId, position: int, q: PlayerId)
    requires DistinctKeys(m)
    ensures DistinctKeys(Assigned(m, playerId, position))
    ensures q == playerId ==>
              Get(Assigned(m, playerId, position), q) == if Get(m, q) == Some(position) then None else Some(position)
    ensures q != playerId ==>
              Get(Assigned(m, playerId, position), q) == if Get(m, q) == Some(position) then None else Get(m, q)
  {
    var c := Filter(m, Keeps(playerId, position));
    ClearedGet(m, playerId, position, q);
    ClearedGet(m, playerId, position, playerId);
    if Get(c, playerId) != Some(position) {
      SetDistinct(c, playerId, position);
    }
  }

  /** No two players hold the same position. */
  ghost predicate Exclusive(m: seq<Entry>)
  {
    forall a, b :: a != b && Get(m, a).Some? ==> Get(m, a) != Get(m, b)
  }

  /** A click keeps positions exclusive. */
  lemma AssignedKeepsExclusive(m: seq<Entry>, playerId: PlayerId, position: int)
    requires DistinctKeys(m) && Exclusive(m)
    ensures Exclusive(Assigned(m, playerId, position))
  {
    var r := Assigned(m, playerId, position);
    forall a, b | a != b && Get(r, a).Some? ensures Get(r, a) != Get(r, b) {
      AssignedGet(m, playerId, position, a);
      AssignedGet(m, playerId, position, b);
    }
  }

  /** Ids of the board's players, positions offered as buttons 1..n. */
  ghost predicate OnBoard(m: seq<Entry>, players: seq<Player>)
  {
    forall k :: Get(m, k).Some? ==> k in Ids(players) && 1 <= Get(m, k).value <= |players|
  }

  /** Clicking one of the board's buttons keeps the record on the board. */
  lemma AssignedStaysOnBoard(m: seq<Entry>, players: seq<Player>, playerId: PlayerId, position: int)
    requires DistinctKeys(m) && OnBoard(m, players)
    requires playerId in Ids(players) && 1 <= position <= |players|
    ensures OnBoard(Assigned(m, playerId, position), players)
  {
    forall k | Get(Assigned(m, playerId, position), k).Some?
      ensures k in Ids(players) && 1 <= Get(Assigned(m, playerId, position), k).value <= |players|
    {
      AssignedGet(m, playerId, position, k);
    }
  }

  /** A click on an enabled button (nobody else holds the position) evicts nobody. */
  lemma EnabledClickEvictsNobody(m: seq<Entry>, playerId: PlayerId, position: int)
    requires forall i :: 0 <= i < |m| ==> !(m[i].value == position && m[i].key != playerId)
    ensures Filter(m, Keeps(playerId, position)) == m
  {
    FilterAll(m, Keeps(playerId, position));
  }

  /** One turn of the clearing loop over a snapshot of the entries. */
  lemma ClearStep(entries: seq<Entry>, i: int, playerId: PlayerId, position: int)
    requires DistinctKeys(entries) && 0 <= i < |entries|
    ensures var keep := Keeps(playerId, position);
            var e := entries[i];
            var before := Filter(entries[..i], keep) + entries[i..];
            Filter(entries[..i + 1], keep) + entries[i + 1..] ==
              if e.value == position && e.key != playerId then Remove(before, e.key) else before
  {
    var keep := Keeps(playerId, position);
    var e := entries[i];
    assert entries[..i + 1] == entries[..i] + [e];
    assert entries[i..] == [e] + entries[i + 1..];
    var done := Filter(entries[..i], keep);
    assert done + entries[i..] == done + [e] + entries[i + 1..];
    FilterConcat(entries[..i], [e], keep);
    FilterSingleton(e, keep);
    if e.value == position && e.key != playerId {
      DistinctKeysSplit(entries, i);
      KeysMembers(done, e.key);
      KeysMembers(entries[..i], e.key);
      RemoveMiddle(done, e, entries[i + 1..]);
    }
  }

  predicate Positive(e: Entry)
  {
    e.value > 0
  }

  /** `.map(([playerId, finishPosition]) => ({ playerId, finishPosition }))` */
  function Placements(m: seq<Entry>): (r: seq<Placement>)
    ensures |r| == |m|
    ensures forall i :: 0 <= i < |m| ==> r[i] == Placement(m[i].key, m[i].value)
  {
    seq(|m|, i requires 0 <= i < |m| => Placement(m[i].key, m[i].value))
  }

  /** The results handed to the page: the entries with a positive position, in record order. */
  function Emitted(m: seq<Entry>): (r: seq<Placement>)
    ensures DistinctKeys(m) ==> forall pl :: pl in r <==>
              pl.finishPosition > 0 && Get(m, pl.playerId) == Some(pl.finishPosition)
    ensures |r| <= |m|
  {
    var f := Filter(m, Positive);
    assert forall pl :: pl in Placements(f) <==> Entry(pl.playerId, pl.finishPosition) in f by {
      forall pl ensures pl in Placements(f) <==> Entry(pl.playerId, pl.finishPosition) in f {
        if Entry(pl.playerId, pl.finishPosition) in f {
          var t :| 0 <= t < |f| && f[t] == Entry(pl.playerId, pl.finishPosition);
          assert Placements(f)[t] == pl;
        }
      }
    }
    Placements(f)
  }

  function Values(m: seq<Entry>): seq<int>
  {
    seq(|m|, i requires 0 <= i < |m| => m[i].value)
  }

  /** The positions offered on a board of n players: 1..n. */
  function PositionRange(n: int): (r: set<int>)
    ensures forall x :: x in r <==> 1 <= x <= n
    ensures n >= 0 ==> |r| == n
    decreases n
  {
    if n <= 0 then {} else PositionRange(n - 1) + {n}
  }

  /** Pigeonhole: when the board's results are as many as its players, every player has a
      position and every position 1..n is taken. */
  lemma FullBoardPlacesEveryone(m: seq<Entry>, players: seq<Player>)
    requires DistinctKeys(m) && Exclusive(m) && OnBoard(m, players)
    requires Distinct(Ids(players))
    requires |Emitted(m)| == |players|
    ensures forall i :: 0 <= i < |players| ==> players[i].id in Keys(m)
    ensures forall x :: x in PositionRange(|players|) ==> x in Values(m)
  {
    var n := |players|;
    assert forall i :: 0 <= i < |m| ==> Get(m, m[i].key) == Some(m[i].value);
    FilterAll(m, Positive);
    assert |m| == n;
    AllPlayersPlaced(m, players);
    AllPositionsTaken(m, players);
  }

  lemma AllPlayersPlaced(m: seq<Entry>, players: seq<Player>)
    requires DistinctKeys(m) && OnBoard(m, players)
    requires Distinct(Ids(players)) && |m| == |players|
    ensures forall i :: 0 <= i < |players| ==> players[i].id in Keys(m)
  {
    var keys := set k | k in Keys(m);
    var ids := set k | k in Ids(players);
    assert Distinct(Keys(m));
    SetOfSeqCard(Keys(m));
    SetOfSeqCard(Ids(players));
    forall k | k in keys ensures k in ids {
      var t :| 0 <= t < |m| && Keys(m)[t] == k;
      assert Get(m, m[t].key).Some?;
    }
    SubsetSameCard(keys, ids);
    forall i | 0 <= i < |players| ensures players[i].id in Keys(m) {
      assert Ids(players)[i] in ids;
    }
  }

  lemma AllPositionsTaken(m: seq<Entry>, players: seq<Player>)
    requires DistinctKeys(m) && Exclusive(m) && OnBoard(m, players)
    requires |m| == |players|
    ensures forall x :: x in PositionRange(|players|) ==> x in Values(m)
  {
    var values := set v | v in Values(m);
    var range := PositionRange(|players|);
    assert Distinct(Values(m)) by {
      forall i, j | 0 <= i < j < |m| ensures Values(m)[i] != Values(m)[j] {
        assert Get(m, m[i].key) == Some(m[i].value) && Get(m, m[j].key) == Some(m[j].value);
      }
    }
    SetOfSeqCard(Values(m));
    forall v | v in values ensures v in range {
      var t :| 0 <= t < |m| && Values(m)[t] == v;
      assert Get(m, m[t].key) == Some(v);
    }
    SubsetSameCard(values, range);
  }

  /** What a click keeps: distinct keys, exclusive positions, and (for a button of the
      board) positions on the board. */
  lemma AssignedKeeps(m: seq<Entry>, players: seq<Player>, playerId: PlayerId, position: int)
    requires DistinctKeys(m)
    ensures DistinctKeys(Assigned(m, playerId, position))
    ensures Exclusive(m) ==> Exclusive(Assigned(m, playerId, position))
    ensures OnBoard(m, players) && playerId in Ids(players) && 1 <= position <= |players| ==>
              OnBoard(Assigned(m, playerId, position), players)
  {
    AssignedGet(m, playerId, position, playerId);
    if Exclusive(m) {
      AssignedKeepsExclusive(m, playerId, position);
    }
    if OnBoard(m, players) && playerId in Ids(players) && 1 <= position <= |players| {
      AssignedStaysOnBoard(m, players, playerId, position);
    }
  }

  /** The clearing loop of assignPosition: over a snapshot of the entries, delete every
      other player holding `position`. */
  method ClearPosition(entries: seq<Entry>, playerId: PlayerId, position: int) returns (next: seq<Entry>)
    requires DistinctKeys(entries)
    ensures next == Filter(entries, Keeps(playerId, position))
  {
    next := entries;
    ghost var keep := Keeps(playerId, position);
    for i := 0 to |entries|
      invariant next == Filter(entries[..i], keep) + entries[i..]
    {
      var e := entries[i];
      ClearStep(entries, i, playerId, position);
      if e.value == position && e.key != playerId {
        next := Remove(next, e.key);
      }
    }
    assert entries[..|entries|] == entries;
  }

  class PositionBoard {
    const players: seq<Player>
    var positions: seq<Entry>

    ghost predicate Valid()
      reads this
    {
      DistinctKeys(positions)
    }

    /** `useState(initialPositions)` */
    constructor(players: seq<Player>, initial: seq<Entry>)
      requires DistinctKeys(initial)
      ensures Valid()
      ensures this.players == players && positions == initial
    {
      this.players := players;
      positions := initial;
    }

    /** assignPosition: copy the record, delete every other player holding `position`
        (iterating over a snapshot of the entries), then toggle the clicked player. */
    method AssignPosition(playerId: PlayerId, position: int)
      requires Valid()
      modifies this
      ensures Valid()
      ensures positions == Assigned(old(positions), playerId, position)
      ensures old(Exclusive(positions)) ==> Exclusive(positions)
      ensures old(OnBoard(positions, players)) && playerId in Ids(players) && 1 <= position <= |players| ==>
                OnBoard(positions, players)
    {
      var entries := positions;
      var next := ClearPosition(entries, playerId, position);
      if Get(next, playerId) == Some(position) {
        next := Remove(next, playerId);
      } else {
        next := Set(next, playerId, position);
      }
      AssignedKeeps(entries, players, playerId, position);
      positions := next;
    }

    /** The results effect: the placements with a positive position, in record order. */
    function Results(): (r: seq<Placement>)
      reads this
      requires Valid()
      ensures forall pl :: pl in r <==> pl.finishPosition > 0 && Get(positions, pl.playerId) == Some(pl.finishPosition)
    {
      Emitted(positions)
    }

    /** `players.every((p) => positions[p.id] > 0)` */
    function AllAssigned(): (r: bool)
      reads this
      ensures r <==> forall i :: 0 <= i < |players| ==>
                       Get(positions, players[i].id).Some? && Get(positions, players[i].id).value > 0
    {
      forall i | 0 <= i < |players| :: match Get(positions, players[i].id)
        case Some(v) => v > 0
        case None => false
    }

    /** A position button is disabled when the position is used by someone else:
        `!isSelected && Object.values(positions).includes(position)`. */
    function IsUsed(playerId: PlayerId, position: int): (r: bool)
      reads this
      requires Valid()
      ensures r ==> exists i :: 0 <= i < |positions| && positions[i].value == position && positions[i].key != playerId
      ensures Exclusive(positions) ==>
                (r <==> exists i :: 0 <= i < |positions| && positions[i].value == position && positions[i].key != playerId)
    {
      var selected := Get(positions, playerId) == Some(position);
      var used := exists i :: 0 <= i < |positions| && positions[i].value == position;
      assert forall i :: 0 <= i < |positions| ==> Get(positions, positions[i].key) == Some(positions[i].value);
      !selected && used
    }
  }
}
