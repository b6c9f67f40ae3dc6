/**
 * The course picker (components/enter/TrackSelector.tsx): the tracks whose
 * name contains the search text, ignoring case, and that are not excluded
 * (the overtime page excludes the tracks the round already used).
 */
module TrackSelector {
  import opened Common
  import opened Seqs

  /** `toLowerCase` on one character, for the ASCII letters. */
  function ToLower(c: char): char
  {
    if 'A' <= c <= 'Z' then (c as int - 'A' as int + 'a' as int) as char else c
  }

  function Lower(s: string): (r: string)
    ensures |r| == |s|
    ensures forall i :: 0 <= i < |s| ==> r[i] == ToLower(s[i])
  {
    seq(|s|, i requires 0 <= i < |s| => ToLower(s[i]))
  }

  /** Lower-casing twice is lower-casing once. */
  lemma LowerIdempotent(s: string)
    ensures Lower(Lower(s)) == Lower(s)
  {
  }

  /** `needle` occurs in `hay` starting at offset `i`. */
  predicate OccursAt(hay: string, needle: string, i: int)
  {
    0 <= i <= |hay| - |needle| && hay[i..i + |needle|] == needle
  }

  lemma OccursShift(hay: string, needle: string, i: int)
    requires hay != [] && i >= 1
    ensures OccursAt(hay, needle, i) <==> OccursAt(hay[1..], needle, i - 1)
  {
    if 0 <= i - 1 <= |hay| - 1 - |needle| {
      var shifted := hay[1..][i - 1..i - 1 + |needle|];
      var here := hay[i..i + |needle|];
      forall j | 0 <= j < |needle| ensures shifted[j] == here[j] {
        assert shifted[j] == hay[i + j];
      }
      assert shifted == here;
    }
  }

  /** `hay.includes(needle)`: the needle occurs at some offset of the haystack. */
  function Contains(hay: string, needle: string): (r: bool)
    ensures r <==> exists i :: OccursAt(hay, needle, i)
    decreases |hay|
  {
    if |needle| > |hay| then false
    else if hay[..|needle|] == needle then
      assert OccursAt(hay, needle, 0);
      true
    else
      var rest := Contains(hay[1..], needle);
      assert rest <==> exists i :: OccursAt(hay, needle, i) by {
        forall i ensures OccursAt(hay, needle, i) <==> i >= 1 && OccursAt(hay[1..], needle, i - 1) {
          if i >= 1 {
            OccursShift(hay, needle, i);
          }
        }
        if rest {
          var j :| OccursAt(hay[1..], needle, j);
          assert OccursAt(hay, needle, j + 1);
        }
      }
      rest
  }

  /** The track filter: `name.toLowerCase().includes(searchLower) && !excludeTrackIds.includes(id)`. */
  function Shown(searchLower: string, exclude: seq<TrackId>): Track -> bool
  {
    (t: Track) => Contains(Lower(t.name), searchLower) && t.id !in exclude
  }

  /** filteredTracks: the tracks matching the search, not excluded, in their listed order. */
  function FilteredTracks(tracks: seq<Track>, search: string, exclude: seq<TrackId>): (r: seq<Track>)
    ensures forall t :: t in r <==> t in tracks && Contains(Lower(t.name), Lower(search)) && t.id !in exclude
    ensures IsSubseq(r, tracks)
  {
    FilterIsSubseq(tracks, Shown(Lower(search), exclude));
    Filter(tracks, Shown(Lower(search), exclude))
  }

  /** `!excludeTrackIds.includes(track.id)` */
  function NotExcluded(exclude: seq<TrackId>): Track -> bool
  {
    (t: Track) => t.id !in exclude
  }

  /** An empty search matches every name: the listed tracks are exactly the tracks that
      are not excluded, in their order, and every track when nothing is excluded. */
  lemma EmptySearchShowsAll(tracks: seq<Track>, exclude: seq<TrackId>)
    ensures FilteredTracks(tracks, "", exclude) == Filter(tracks, NotExcluded(exclude))
    ensures exclude == [] ==> FilteredTracks(tracks, "", exclude) == tracks
  {
    forall i | 0 <= i < |tracks|
      ensures Shown(Lower(""), exclude)(tracks[i]) == NotExcluded(exclude)(tracks[i])
    {
      assert OccursAt(Lower(tracks[i].name), Lower(""), 0);
    }
    FilterAgree(tracks, Shown(Lower(""), exclude), NotExcluded(exclude));
    if exclude == [] {
      FilterAll(tracks, NotExcluded(exclude));
    }
  }

  /** The search ignores case: searching for a text and for its lower-case form list the
      same tracks. */
  lemma SearchIgnoresCase(tracks: seq<Track>, search: string, exclude: seq<TrackId>)
    ensures FilteredTracks(tracks, search, exclude) == FilteredTracks(tracks, Lower(search), exclude)
  {
    LowerIdempotent(search);
  }
}
