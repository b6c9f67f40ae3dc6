/**
 * How the entry pages agree and disagree about the same standings. The
 * standings display (PointsDisplay.tsx) calls a round tied only when the shared
 * lead is positive; the summary page calls it tied whenever two players share
 * the largest total; the overtime page offers its race to the players holding
 * that total.
 */
module RoundFlow {
  import opened Common
  import opened Seqs
  import opened OrderedMap
  import opened Points
  import opened Standings
  import PointsDisplay
  import SummaryPage
  import OvertimePage

  /** With a roster of distinct ids whose results all belong to it, the standings have one
      entry per roster player, in roster order. */
  lemma StandingsAligned(players: seq<Player>, races: seq<Race>)
    requires Distinct(Ids(players)) && ResultsWithin(players, races)
    ensures |StandingTotals(players, races)| == |players|
    ensures forall i :: 0 <= i < |players| ==> StandingTotals(players, races)[i].key == players[i].id
    ensures DistinctKeys(StandingTotals(players, races))
  {
    var totals := StandingTotals(players, races);
    StandingKeys(players, races);
    StandingTotalsAreSums(players, races);
    assert |Keys(totals)| == |Ids(players)|;
    forall i | 0 <= i < |players| ensures totals[i].key == players[i].id {
      assert Keys(totals)[i] == Ids(players)[i];
    }
  }

  /** The standings are keyed by the roster, entry `i` holding player `i`. */
  ghost predicate KeyedByRoster(players: seq<Player>, totals: seq<Entry>)
  {
    |totals| == |players| && DistinctKeys(totals) &&
    forall i :: 0 <= i < |players| ==> totals[i].key == players[i].id
  }

  /** On standings keyed by the roster, a player is at the display's maximum exactly when
      that player's entry holds the largest total. */
  lemma AtMaxIsTop(players: seq<Player>, totals: seq<Entry>, i: int)
    requires KeyedByRoster(players, totals) && 0 <= i < |players|
    ensures PointsDisplay.AtMax(totals)(players[i]) <==> IsTop(totals, i)
  {
    var top := TopValue(totals);
    assert Get(totals, players[i].id) == Some(totals[i].value);
    assert PointsDisplay.AtMax(totals)(players[i]) <==> totals[i].value == top.value;
    if IsTop(totals, i) {
      var w :| 0 <= w < |totals| && totals[w].value == top.value;
      assert totals[w].value <= totals[i].value;
    }
  }

  lemma DisplayTieOnRoster(players: seq<Player>, totals: seq<Entry>)
    requires KeyedByRoster(players, totals)
    ensures PointsDisplay.IsTied(players, totals) <==>
              SummaryPage.IsTied(totals) && TopValue(totals).Some? && TopValue(totals).value > 0
  {
    PointsDisplay.IsTiedMeansSharedPositiveMax(players, totals);
    forall i | 0 <= i < |players| ensures PointsDisplay.AtMax(totals)(players[i]) <==> IsTop(totals, i) {
      AtMaxIsTop(players, totals, i);
    }
  }

  /** The display's tie is the summary's tie with a positive lead. */
  lemma TieRulesDiffer(players: seq<Player>, races: seq<Race>)
    requires Distinct(Ids(players)) && ResultsWithin(players, races)
    ensures var totals := StandingTotals(players, races);
      PointsDisplay.IsTied(players, totals) <==>
        SummaryPage.IsTied(totals) && TopValue(totals).Some? && TopValue(totals).value > 0
  {
    StandingsAligned(players, races);
    DisplayTieOnRoster(players, StandingTotals(players, races));
  }

  /** Before any points are in, two or more players share a total of zero: the summary
      page's own tie rule holds (its button reads "Continue to Overtime" and it withholds
      the winner highlight) while the display shows no tie. Which page comes next is
      decided by the server's reply, not by this rule. */
  lemma ScorelessRoundDiffers(players: seq<Player>, races: seq<Race>)
    requires Distinct(Ids(players)) && |players| >= 2
    requires RegularResults(races) == []
    ensures SummaryPage.IsTied(StandingTotals(players, races))
    ensures !PointsDisplay.IsTied(players, StandingTotals(players, races))
    ensures SummaryPage.CompleteLabel(false, StandingTotals(players, races)) == "Continue to Overtime"
    ensures !SummaryPage.HighlightWinner(StandingTotals(players, races))
  {
    var totals := StandingTotals(players, races);
    StandingsAligned(players, races);
    StandingTotalsAreSums(players, races);
    forall i | 0 <= i < |totals| ensures totals[i].value == 0 {
      assert Get(totals, totals[i].key) == Some(totals[i].value);
      assert GetOr0(totals, totals[i].key) == SumFor([], totals[i].key);
    }
    assert IsTop(totals, 0) && IsTop(totals, 1);
    TieRulesDiffer(players, races);
  }

  /** The overtime page offers its race exactly when the summary page reports a tie. */
  lemma OvertimeOfferedIffSummaryTie(players: seq<Player>, races: seq<Race>)
    requires Distinct(Ids(players)) && ResultsWithin(players, races)
    ensures var totals := StandingTotals(players, races);
      OvertimePage.OvertimeNeeded(OvertimePage.TiedPlayers(players, totals)) <==> SummaryPage.IsTied(totals)
  {
    var totals := StandingTotals(players, races);
    var inTied := OvertimePage.InIds(OvertimePage.TiedPlayerIds(totals));
    StandingsAligned(players, races);
    forall i | 0 <= i < |players| ensures inTied(players[i]) <==> IsTop(totals, i) {
      if inTied(players[i]) {
        var t :| 0 <= t < |totals| && totals[t].key == players[i].id && IsTop(totals, t);
        assert t == i;
      }
    }
    FilterMoreThanOne(players, inTied);
  }

  /** When the summary shows its "Tie Detected!" notice, all regular races are in and the
      overtime page has at least two tied players to race. */
  lemma TieNoticeOffersOvertime(players: seq<Player>, races: seq<Race>)
    requires Distinct(Ids(players)) && ResultsWithin(players, races)
    ensures var totals := StandingTotals(players, races);
      SummaryPage.ShowsTieNotice(races, totals) ==>
        SummaryPage.HasAllRaces(races) && OvertimePage.OvertimeNeeded(OvertimePage.TiedPlayers(players, totals))
  {
    OvertimeOfferedIffSummaryTie(players, races);
  }
}
