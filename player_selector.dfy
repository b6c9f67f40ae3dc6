/**
 * The racer picker (components/enter/PlayerSelector.tsx): a set of selected
 * player ids, toggled one click at a time, never grown past the cap. A
 * JavaScript `Set` iterates in insertion order, so the selection is a
 * sequence without repeats; `Array.from` hands that sequence to the caller.
 */
module PlayerSelector {
  import opened Common
  import opened Seqs

  /** The props' defaults. */
  const DEFAULT_MIN_PLAYERS: int := 2
  const DEFAULT_MAX_PLAYERS: int := 4

  /** `set.delete(x)`: every other element, in its order. */
  function Without(s: seq<PlayerId>, x: PlayerId): (r: seq<PlayerId>)
    ensures forall y :: y in r <==> y in s && y != x
    ensures Distinct(s) ==> Distinct(r)
    ensures Distinct(s) && x in s ==> |r| == |s| - 1
    ensures x !in s ==> r == s
    decreases |s|
  {
    if s == [] then []
    else
      var init := Without(s[..|s| - 1], x);
      var last := s[|s| - 1];
      assert s == s[..|s| - 1] + [last];
      if last == x then
        assert Distinct(s) ==> x !in s[..|s| - 1];
        init
      else
        assert Distinct(s) ==> last !in init && Distinct(s[..|s| - 1]) by {
          if Distinct(s) {
            DistinctSnoc(s);
          }
        }
        init + [last]
  }

  /** `set.delete(x)` keeps the remaining ids in their insertion order: the result is the
      selection with every occurrence of `x` filtered out. */
  lemma {:induction false} WithoutKeepsOrder(s: seq<PlayerId>, x: PlayerId)
    ensures Without(s, x) == Filter(s, Other(x))
    ensures IsSubseq(Without(s, x), s)
    decreases |s|
  {
    if s != [] {
      WithoutKeepsOrder(s[..|s| - 1], x);
    }
    FilterIsSubseq(s, Other(x));
  }

  function Other(x: PlayerId): PlayerId -> bool
  {
    (y: PlayerId) => y != x
  }

  /** The selection after togglePlayer(id): a selected id is deleted; an unselected one
      is added at the end only while the selection is below the cap. */
  function Toggled(selected: seq<PlayerId>, id: PlayerId, maxPlayers: int): (r: seq<PlayerId>)
    ensures id in selected ==> id !in r && forall y :: y != id ==> (y in r <==> y in selected)
    ensures id in selected ==> r == Filter(selected, Other(id))
    ensures id !in selected && |selected| < maxPlayers ==> r == selected + [id]
    ensures id !in selected && |selected| >= maxPlayers ==> r == selected
    ensures Distinct(selected) ==> Distinct(r)
  {
    WithoutKeepsOrder(selected, id);
    if id in selected then Without(selected, id)
    else if |selected| < maxPlayers then selected + [id]
    else selected
  }

  /** A selection at or below the cap stays at or below it. */
  lemma ToggleRespectsCap(selected: seq<PlayerId>, id: PlayerId, maxPlayers: int)
    requires Distinct(selected) && |selected| <= maxPlayers
    ensures |Toggled(selected, id, maxPlayers)| <= maxPlayers
  {
  }

  /** `isValid`: the selection size lies between the bounds. */
  function IsValid(size: int, minPlayers: int, maxPlayers: int): bool
  {
    minPlayers <= size <= maxPlayers
  }

  /** Selecting another player never makes a valid selection invalid: below the cap it
      grows by one, at the cap it is unchanged. */
  lemma SelectingKeepsValid(selected: seq<PlayerId>, id: PlayerId, minPlayers: int, maxPlayers: int)
    requires IsValid(|selected|, minPlayers, maxPlayers) && id !in selected
    ensures IsValid(|Toggled(selected, id, maxPlayers)|, minPlayers, maxPlayers)
  {
  }

  /** Deselecting a player of a repeat-free selection shrinks it by exactly one, which can
      take it below the minimum. */
  lemma DeselectingShrinks(selected: seq<PlayerId>, id: PlayerId, maxPlayers: int)
    requires Distinct(selected) && id in selected
    ensures |Toggled(selected, id, maxPlayers)| == |selected| - 1
  {
  }

  /** `isDisabled`: an unselected card once the selection is full. */
  function IsDisabled(selected: seq<PlayerId>, id: PlayerId, maxPlayers: int): bool
  {
    id !in selected && |selected| >= maxPlayers
  }

  /** A disabled card is exactly one whose click would change nothing without being
      a deletion. */
  lemma DisabledMeansToggleIgnored(selected: seq<PlayerId>, id: PlayerId, maxPlayers: int)
    ensures IsDisabled(selected, id, maxPlayers) <==>
              id !in selected && Toggled(selected, id, maxPlayers) == selected
  {
    if id !in selected && Toggled(selected, id, maxPlayers) == selected {
      assert |selected + [id]| != |selected|;
    }
  }

  /** Adding a player and clicking it again gives back the former selection. */
  lemma {:induction false} ToggleTwice(selected: seq<PlayerId>, id: PlayerId, maxPlayers: int)
    requires id !in selected && |selected| < maxPlayers
    ensures Toggled(Toggled(selected, id, maxPlayers), id, maxPlayers) == selected
  {
    var added := selected + [id];
    assert added[..|added| - 1] == selected;
  }

  /** The picker's state: its bounds and the selected ids. */
  class Selector {
    const minPlayers: int
    const maxPlayers: int
    var selected: seq<PlayerId>

    ghost predicate Valid()
      reads this
    {
      Distinct(selected)
    }

    /** `new Set(initialSelected)` (the ids once each, in order of first occurrence) with
        the bounds the props give, or the defaults. */
    constructor(initialSelected: seq<PlayerId>, minProp: Option<int>, maxProp: Option<int>)
      ensures Valid()
      ensures forall y :: y in selected <==> y in initialSelected
      ensures IsSubseq(selected, initialSelected)
      ensures minPlayers == (if minProp.Some? then minProp.value else DEFAULT_MIN_PLAYERS)
      ensures maxPlayers == (if maxProp.Some? then maxProp.value else DEFAULT_MAX_PLAYERS)
    {
      minPlayers := if minProp.Some? then minProp.value else DEFAULT_MIN_PLAYERS;
      maxPlayers := if maxProp.Some? then maxProp.value else DEFAULT_MAX_PLAYERS;
      selected := Dedup(initialSelected);
      DedupIsSubseq(initialSelected);
    }

    /** togglePlayer: copy the set, delete or (below the cap) add the id, store the copy
        and hand its elements to the caller. */
    method TogglePlayer(playerId: PlayerId) returns (emitted: seq<PlayerId>)
      requires Valid()
      modifies this
      ensures Valid()
      ensures selected == Toggled(old(selected), playerId, maxPlayers)
      ensures old(|selected|) <= maxPlayers ==> |selected| <= maxPlayers
      ensures emitted == selected
    {
      var newSelected := selected;
      if playerId in newSelected {
        newSelected := Without(newSelected, playerId);
      } else if |newSelected| < maxPlayers {
        newSelected := newSelected + [playerId];
      }
      selected := newSelected;
      emitted := newSelected;
    }

    /** `isValid` for the current selection. */
    function SelectionIsValid(): bool
      reads this
    {
      IsValid(|selected|, minPlayers, maxPlayers)
    }
  }
}
