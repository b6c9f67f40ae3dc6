/**
 * The round summary page (app/enter/summary/page.tsx): whether all four
 * regular races are in, whether the standings are tied, and what pressing
 * "complete" does with the server's answer.
 */
module SummaryPage {
  import opened Common
  import opened Seqs
  import opened OrderedMap
  import opened Points
  import opened Standings

  /** Rounds have four regular races. */
  const RACES_PER_ROUND: int := 4

  /** `regularRaces.length >= 4` */
  function HasAllRaces(races: seq<Race>): bool
  {
    |RegularRaces(races)| >= RACES_PER_ROUND
  }

  // The page's standings loop (filter out overtime races, seed every player with 0, add
  // the points of each result) is Standings.PrefilteredTotals, shared with the other page.

  /** `leaders.length > 1`, the leaders being the entries equal to `Math.max` of all totals. */
  function IsTied(totals: seq<Entry>): (r: bool)
    ensures r <==> exists i, j :: 0 <= i < j < |totals| && IsTop(totals, i) && IsTop(totals, j)
  {
    LeadersMoreThanOne(totals);
    |Leaders(totals)| > 1
  }

  /** The "Tie Detected!" notice: `isTied && hasAllRaces`. */
  function ShowsTieNotice(races: seq<Race>, totals: seq<Entry>): bool
  {
    IsTied(totals) && HasAllRaces(races)
  }

  /** The complete button's `disabled`: `!hasAllRaces || completing`. */
  function CompleteDisabled(races: seq<Race>, completing: bool): bool
  {
    !HasAllRaces(races) || completing
  }

  /** Only regular races bring a round closer to completion: an overtime race leaves the
      count and the button as they were, a regular race adds one to the count. */
  lemma NextRaceCounts(races: seq<Race>, race: Race, completing: bool)
    ensures race.isOvertime ==> HasAllRaces(races + [race]) == HasAllRaces(races)
    ensures !race.isOvertime ==> |RegularRaces(races + [race])| == |RegularRaces(races)| + 1
    ensures race.isOvertime ==> CompleteDisabled(races + [race], completing) == CompleteDisabled(races, completing)
  {
    FilterSnoc(races, race, IsRegular);
  }

  /** With the button enabled the round has four regular races, and no number of overtime
      races alone can enable it. */
  lemma EnabledMeansFourRegularRaces(races: seq<Race>, completing: bool)
    ensures !CompleteDisabled(races, completing) ==> !completing && |RegularRaces(races)| >= RACES_PER_ROUND
    ensures (forall i :: 0 <= i < |races| ==> races[i].isOvertime) ==> CompleteDisabled(races, completing)
  {
    var regular := RegularRaces(races);
    assert regular == [] || regular[0] in regular;
  }

  /** The standings display is asked to highlight a winner exactly when there is no tie. */
  function HighlightWinner(totals: seq<Entry>): bool
  {
    !IsTied(totals)
  }

  /** The complete button's label: "Processing..." while completing, otherwise
      "Continue to Overtime" on a tie and "Complete Round" without one. */
  function CompleteLabel(completing: bool, totals: seq<Entry>): (r: string)
    ensures r == "Continue to Overtime" <==> !completing && IsTied(totals)
    ensures r == "Complete Round" <==> !completing && !IsTied(totals)
    ensures r == "Processing..." <==> completing
  {
    if completing then "Processing..."
    else if IsTied(totals) then "Continue to Overtime"
    else "Complete Round"
  }

  /** handleComplete: nothing without a round id; otherwise post the completion and go to
      overtime when the server reports a tie, to the confirmation page when it does not,
      and show the server's error (or a fallback) when it refuses. */
  function HandleComplete(roundId: Option<string>, reply: ApiReply): (a: PageAction)
    ensures a == Stay <==> !Truthy(roundId)
    ensures a.GoTo? <==> Truthy(roundId) && reply.Success?
    ensures a.GoTo? ==> a.path == (if reply.isTied then "/enter/overtime?roundId=" else "/enter/complete?roundId=") + roundId.value
    ensures Truthy(roundId) && reply.Failure? ==> a.ShowError? && a.message != ""
  {
    if !Truthy(roundId) then Stay
    else
      match reply
      case Success(isTied) =>
        if isTied then GoTo("/enter/overtime?roundId=" + roundId.value)
        else GoTo("/enter/complete?roundId=" + roundId.value)
      case Failure(error) => ShowError(ErrorOr(error, "Failed to complete round"))
      case Thrown(message) => ShowError(message)
  }

  /** The page's tie and getWinners agree whenever every total is at least -1 (totals of
      table points are never negative). */
  lemma SummaryTieIsHasTie(totals: seq<Entry>)
    requires forall i :: 0 <= i < |totals| ==> totals[i].value >= -1
    ensures IsTied(totals) == HasTie(totals)
  {
    if totals != [] {
      TopScoreIsTopValue(totals);
      var v := TopValue(totals).value;
      var w :| 0 <= w < |totals| && totals[w].value == v;
      assert forall i :: 0 <= i < |totals| ==> (IsTop(totals, i) <==> totals[i].value == v);
    }
  }
}
