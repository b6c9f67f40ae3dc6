# Mario Kart stat tracker: scoring, standings and tie logic

This project is a Dafny model of the part of the Mario Kart stat tracker that
computes things. The rest of the application is React rendering, `fetch`
calls and database queries. A round has 2 to 4 players and four regular
races. Each race awards points by finish position from a fixed table:
5/3/2/1 for four players, 4/2/1 for three and 2/1 for two. A tie for the
lead is settled by one overtime race.

The model covers:

- **Scoring library** (`lib/points.ts`, module `Points`): the points table,
  per-player totals, the winners and tie detection.
- **Standings computation** (module `Standings`): the standings display, the
  summary page and the overtime page all repeat the same loop. It is modelled
  once and shared.
- **Entry-flow pages:** the standings display (`PointsDisplay`), the
  summary page (`SummaryPage`) and the overtime page (`OvertimePage`). Each has
  its own tie rule and its own page transitions.
  - Module `RoundFlow` proves how the tie rules relate.
  - The standings display calls a round tied only when the shared lead is
    positive.
  - The summary page calls it tied whenever two players share the largest
    total.
  - So before anyone has scored, the summary page's own rule finds a tie: its
    button reads "Continue to Overtime" and it withholds the winner highlight.
    The display shows no tie. Where the round goes next is decided by the
    server's reply to the completion request, not by either page's rule.
- **Editing widgets:**
  - the finish-position board (`PositionEntry`, a class whose record is
    updated click by click);
  - the racer picker (`PlayerSelector`, a class holding the selected set);
  - the course filter (`TrackSelector`).
- **Leaderboard:** the integer statistics of the leaderboard endpoint
  (`LeaderboardApi`), and the page's sorting and sort-header state machine
  (`LeaderboardPage`).
- **Validating endpoints:** round creation (`RoundsApi`) and admin player
  creation (`AdminPlayersApi`), each against an abstract store that the
  endpoint's method updates.

**Map representation.** JavaScript `Map`s, plain records and `Set`s iterate in
insertion order. They are modelled as sequences of entries (module
`OrderedMap`) or of ids, with no repeated key. This is why `getWinners` and
the leader lists come out in the source's own order.

**Loops.** Loops in the source are methods with loop invariants, proved
equal to a specification function. The properties are then proved about that
function.

**Inputs standing in for the outside world.** Database contents, server
replies and generated ids are parameters:

- the player and round stores;
- an `ApiReply` for what `fetch` returned or threw;
- the `newId` the database would assign;
- an `authorized` flag for the admin-code check.

## Model

| member | source | states |
|---|---|---|
| Points.PointsTable | lib/points.ts:2-6 | A table exists exactly for 2, 3 or 4 players and has one entry per finish position |
| Points.GetPointsForPosition | lib/points.ts:14-23 | An unsupported player count is an error, checked first; then a position outside 1..count is an error; a value is returned exactly for a supported count and an in-range position, and it lies in 1..5 |
| Points.PointsCurves | lib/points.ts:2-6 | Every table entry: 5/3/2/1 for four players, 4/2/1 for three, 2/1 for two |
| Points.PointsStrictlyDecrease | lib/points.ts:3-5 | For a fixed player count a better finish earns strictly more, and last place earns 1 |
| Points.AddResultConserves | lib/points.ts:36-37 | One step of the totals loop raises the sum of all totals by the result's points, null counted as 0 |
| Points.AccumulateGet | lib/points.ts:35-38 | After the loop, each player's total is its starting value plus that player's points, null counted as 0 |
| Points.AccumulateKeys | lib/points.ts:35-38 | The loop adds as keys exactly the player ids met in the results |
| Points.AccumulateKeepsOrder | lib/points.ts:35-38 | Keys already present keep their place; new keys are only appended |
| Points.AccumulateDistinct | lib/points.ts:35-38 | The loop never enters a key twice |
| Points.AccumulateSameKeys | lib/points.ts:35-38 | When every result's player is already a key, the key list is unchanged |
| Points.AccumulateConserves | lib/points.ts:35-38 | Conservation: the sum of the totals grows by exactly the sum of the results' points |
| Points.TotalsFacts | lib/points.ts:33-40 | From an empty map: keys are exactly the ids in the results, without repeats; each value is the player's sum; the values add up to all points awarded |
| Points.CalculateTotalPoints | lib/points.ts:30-41 | The loop computes the totals map, with the key set, per-player sums and conservation above |
| Points.TopScore | lib/points.ts:50-60 | The final `maxPoints` is at least -1 and at least every total; it is -1 or some entry's total |
| Points.LeadersAt | lib/points.ts:53-59 | The keys of the entries holding a given value, in map order; no repeats when the map has none |
| Points.LeadersAtMoreThanOne | lib/points.ts:53-59 | More than one such key exactly when two entries hold the value |
| Points.GetWinners | lib/points.ts:49-63 | The loop returns, in map order, exactly the ids whose total equals the final `maxPoints` |
| Points.WinnersAreTopScorers | lib/points.ts:49-63 | For non-negative totals the winners are exactly the ids holding the largest total; there are winners exactly when the map is non-empty |
| Points.HasTie | lib/points.ts:70-72 | True exactly when two entries share the top total, i.e. getWinners returns more than one id |
| OrderedMap.Set | lib/points.ts:37 | `Map.set` overwrites an existing key or adds a new one; only that key's value changes |
| OrderedMap.SetKeys | lib/points.ts:37 | An existing key keeps its place; a new key goes last |
| OrderedMap.Remove | components/enter/PositionEntry.tsx:35 | `delete` drops the key, keeps every other key's value and order, and changes nothing when the key is absent |
| Standings.Seed | components/enter/PointsDisplay.tsx:17-21 | The seeded map never holds a key twice |
| Standings.SeedIsZero | components/enter/PointsDisplay.tsx:19-21 | Every player starts at 0 |
| Standings.SeedKeys | components/enter/PointsDisplay.tsx:19-21 | The seed holds a key for every roster player and no other |
| Standings.SeedKeysInOrder | components/enter/PointsDisplay.tsx:19-21 | With no repeated id, the seed's keys are the roster ids in roster order |
| Standings.StandingTotalsAreSums | components/enter/PointsDisplay.tsx:23-30 | Each standing is the sum of the player's points in non-overtime races, null counted as 0; no repeated key |
| Standings.StandingKeys | components/enter/PointsDisplay.tsx:17-30 | When every result belongs to a roster player, the standings have exactly the roster's ids as keys, in roster order when the ids are distinct |
| Standings.OvertimeAddsNothing | components/enter/PointsDisplay.tsx:23-24 | An overtime race never changes the standings |
| Standings.RegularResultsOfRegularRaces | app/enter/summary/page.tsx:96-109 | Pre-filtering out overtime races leaves the same results to sum |
| Standings.RegularRacesSameStandings | app/enter/summary/page.tsx:96-109 | The summary and overtime pages' loop over filtered races gives the same standings as the display's skip-in-loop |
| Standings.AddRaceResults | components/enter/PointsDisplay.tsx:25-28 | The inner loop adds one race's results, as the totals specification says |
| Standings.PlayerTotals | components/enter/PointsDisplay.tsx:17-30 | The seed-then-accumulate loops compute the standings; each total is the player's regular-race sum |
| Standings.TopValue | components/enter/PointsDisplay.tsx:40 | `Math.max` of the totals: none for an empty map, otherwise a total that no total exceeds |
| Standings.TopScoreIsTopValue | lib/points.ts:50-60 | getWinners' running maximum (starting at -1) and `Math.max` agree on any non-empty map of totals ≥ -1 |
| Standings.Leaders | app/enter/summary/page.tsx:111-114 | The leaders are exactly the ids whose entry holds the largest total; there are leaders exactly when the map is non-empty; no repeats |
| Standings.LeadersMoreThanOne | app/enter/summary/page.tsx:111-115 | More than one leader exactly when two entries hold the largest total |
| PointsDisplay.SortedPlayers | components/enter/PointsDisplay.tsx:33-37 | A permutation of the roster with totals non-increasing; the roster itself is left as it is |
| PointsDisplay.LeadingPlayers | components/enter/PointsDisplay.tsx:40-43 | Exactly the roster players whose total equals `maxPoints` |
| PointsDisplay.IsTiedMeansSharedPositiveMax | components/enter/PointsDisplay.tsx:44 | `isTied` exactly when the top total is positive and two roster players hold it |
| PointsDisplay.LeadingRowsAreLeadingPlayers | components/enter/PointsDisplay.tsx:78 | With a positive top total, a row is marked leading exactly when its player is a leading player |
| PointsDisplay.AtMostOneHighlighted | components/enter/PointsDisplay.tsx:115-122 | The winner decoration (`highlightWinner && isLeading && !isTied`) falls on at most one player |
| Standings.PrefilteredTotals | app/enter/summary/page.tsx:96-109 | The loop the summary page (and, identically, the overtime page at app/enter/overtime/page.tsx:55-67) runs over the pre-filtered regular races computes the standings: zero-seeded, regular races only |
| SummaryPage.IsTied | app/enter/summary/page.tsx:111-115 | Tied exactly when two entries hold the largest total, with no positivity guard |
| SummaryPage.NextRaceCounts | app/enter/summary/page.tsx:96-97 | An overtime race changes neither `hasAllRaces` nor the button; a regular race adds one to the count |
| SummaryPage.EnabledMeansFourRegularRaces | app/enter/summary/page.tsx:162 | An enabled complete button means four regular races and not completing; overtime races alone never enable it |
| SummaryPage.CompleteLabel | app/enter/summary/page.tsx:171-176 | "Processing..." exactly while completing; otherwise "Continue to Overtime" exactly on the page's tie and "Complete Round" exactly without one |
| SummaryPage.HandleComplete | app/enter/summary/page.tsx:41-71 | Without a round id nothing happens. A success reply goes to overtime when it reports a tie and to the confirmation page otherwise. A refusal shows a non-empty error |
| SummaryPage.SummaryTieIsHasTie | app/enter/summary/page.tsx:111-115 | The page's tie and `hasTie` agree on totals ≥ -1 |
| OvertimePage.TiedPlayers | app/enter/overtime/page.tsx:69-74 | The roster players holding the largest total, in roster order (a subsequence of the roster) |
| OvertimePage.UsedTrackIds | app/enter/overtime/page.tsx:77 | The track of every race of the round, overtime included |
| OvertimePage.OfferedTracksAreUnused | app/enter/overtime/page.tsx:185-189 | A track offered for overtime was not raced in this round |
| OvertimePage.HandleSaveOvertime | app/enter/overtime/page.tsx:81-109 | Nothing happens unless saving is allowed and there is a round id. Success goes to the confirmation page. A refusal shows a non-empty error |
| OvertimePage.SavedOvertimeCoversTiedPlayers | app/enter/overtime/page.tsx:79 | When `canSave` holds for a board of the tied players, the posted results give every tied player a place and take every place 1..n |
| RoundFlow.StandingsAligned | components/enter/PointsDisplay.tsx:17-30 | With a distinct roster owning every result, standings entry i is roster player i |
| RoundFlow.AtMaxIsTop | components/enter/PointsDisplay.tsx:41-43 | On such standings, a player is at the display's maximum exactly when its entry holds the largest total |
| RoundFlow.DisplayTieOnRoster | components/enter/PointsDisplay.tsx:40-44 | The display's tie is the summary's tie plus a positive top total |
| RoundFlow.TieRulesDiffer | app/enter/summary/page.tsx:111-115 | On any round's standings: display tie ⇔ summary tie and top total > 0 |
| RoundFlow.ScorelessRoundDiffers | components/enter/PointsDisplay.tsx:44 | With two or more players and no regular-race results, the summary's rule finds a tie (its button reads "Continue to Overtime", no winner highlight) and the display's does not |
| RoundFlow.OvertimeOfferedIffSummaryTie | app/enter/overtime/page.tsx:133 | The overtime page offers its race (≥ 2 tied players) exactly when the summary page reports a tie |
| RoundFlow.TieNoticeOffersOvertime | app/enter/summary/page.tsx:135 | When the tie notice shows, all races are in and the overtime page has a race to offer |
| PositionEntry.ClearedGet | components/enter/PositionEntry.tsx:33-37 | The clearing loop frees the position from every other player and leaves every other lookup unchanged |
| PositionEntry.AssignedGet | components/enter/PositionEntry.tsx:28-49 | After a click the clicked player holds the position unless it already did (then it holds nothing). Every other holder of the position loses it. Everyone else keeps their entry |
| PositionEntry.AssignedKeepsExclusive | components/enter/PositionEntry.tsx:28-49 | If no position was held twice before a click, none is after |
| PositionEntry.AssignedStaysOnBoard | components/enter/PositionEntry.tsx:97-107 | Clicking one of the board's buttons keeps every entry a board player with a position in 1..n |
| PositionEntry.EnabledClickEvictsNobody | components/enter/PositionEntry.tsx:99-108 | A click on a position nobody else holds removes no one |
| PositionEntry.AssignedKeeps | components/enter/PositionEntry.tsx:28-49 | A click keeps keys distinct, positions exclusive and (for a board button) entries on the board |
| PositionEntry.ClearPosition | components/enter/PositionEntry.tsx:33-37 | The deleting loop over a snapshot of the entries leaves exactly the entries that do not hold the position for another player |
| PositionEntry.Emitted | components/enter/PositionEntry.tsx:22-24 | The reported results are exactly the (player, position) pairs of the record with position > 0 |
| PositionEntry.PositionRange | components/enter/PositionEntry.tsx:97 | The buttons 1..n, n of them |
| PositionEntry.FullBoardPlacesEveryone | components/enter/PositionEntry.tsx:22-25 | With exclusive positions on the board, as many results as players means every player is placed and every position 1..n is taken |
| PositionEntry.PositionBoard.constructor | components/enter/PositionEntry.tsx:18 | The board starts with the given players and initial record |
| PositionEntry.PositionBoard.AssignPosition | components/enter/PositionEntry.tsx:28-49 | The record becomes the clicked one; exclusivity and board membership are preserved |
| PositionEntry.PositionBoard.Results | components/enter/PositionEntry.tsx:20-26 | The effect's results: the record's entries with a positive position |
| PositionEntry.PositionBoard.AllAssigned | components/enter/PositionEntry.tsx:61 | True exactly when every listed player has a position > 0 |
| PositionEntry.PositionBoard.IsUsed | components/enter/PositionEntry.tsx:99-102 | A disabled button's position is held by another player; with exclusive positions, disabled exactly when another player holds it |
| PlayerSelector.Without | components/enter/PlayerSelector.tsx:43 | `Set.delete` removes exactly that id, keeps no repeats, and shrinks the selection by one when the id was in it |
| PlayerSelector.WithoutKeepsOrder | components/enter/PlayerSelector.tsx:43 | The remaining ids keep their insertion order: the result is the selection with that id filtered out, a subsequence of it |
| PlayerSelector.Toggled | components/enter/PlayerSelector.tsx:40-47 | A selected id is removed, the others keeping their order. An unselected id is appended only while below the cap. Otherwise nothing changes. No repeats |
| PlayerSelector.ToggleRespectsCap | components/enter/PlayerSelector.tsx:44 | A selection at or below the cap stays at or below it |
| PlayerSelector.SelectingKeepsValid | components/enter/PlayerSelector.tsx:77 | Selecting another player never makes a valid selection invalid |
| PlayerSelector.DeselectingShrinks | components/enter/PlayerSelector.tsx:42-43 | Deselecting shrinks the selection by exactly one |
| PlayerSelector.DisabledMeansToggleIgnored | components/enter/PlayerSelector.tsx:107 | A card is disabled exactly when it is unselected and a click on it would change nothing |
| PlayerSelector.ToggleTwice | components/enter/PlayerSelector.tsx:40-47 | Adding a player and clicking it again restores the selection |
| PlayerSelector.Selector.constructor | components/enter/PlayerSelector.tsx:15-20 | The selection holds the initial ids once each, in order of first occurrence; the bounds are the props or the defaults 2 and 4 |
| PlayerSelector.Selector.TogglePlayer | components/enter/PlayerSelector.tsx:40-49 | The selection becomes the toggled one, the cap is kept, and the callback receives exactly the new selection |
| TrackSelector.Lower | components/enter/TrackSelector.tsx:39 | Lower-casing keeps the length and maps each character |
| TrackSelector.LowerIdempotent | components/enter/TrackSelector.tsx:39-42 | Lower-casing twice is lower-casing once |
| TrackSelector.Contains | components/enter/TrackSelector.tsx:42 | `includes` holds exactly when the needle occurs at some offset |
| TrackSelector.FilteredTracks | components/enter/TrackSelector.tsx:38-45 | A track is shown exactly when its lower-cased name contains the lower-cased search and its id is not excluded; shown tracks keep their order |
| TrackSelector.EmptySearchShowsAll | components/enter/TrackSelector.tsx:38-45 | An empty search shows exactly the tracks that are not excluded, in order; every track when nothing is excluded |
| TrackSelector.SearchIgnoresCase | components/enter/TrackSelector.tsx:39-42 | A search and its lower-case form show the same tracks |
| LeaderboardApi.PointsSumBounds | app/api/leaderboard/route.ts:59-62 | Table points (null or 1..5) sum to between 0 and 5 per result |
| LeaderboardApi.PodiumAtMostRaces | app/api/leaderboard/route.ts:68-77 | First, second and third places together number at most the results |
| LeaderboardApi.Stats | app/api/leaderboard/route.ts:41-94 | Identity fields are copied. wins ≤ roundsPlayed ≤ rounds joined. podium = 1st + 2nd + 3rd ≤ racesRaced ≤ results. Table points keep totalPoints within 0..5·racesRaced |
| LeaderboardApi.UncountedRoundChangesNothing | app/api/leaderboard/route.ts:43-50 | A round that is not completed, added on its own, changes no statistic |
| LeaderboardApi.UncountedResultChangesNothing | app/api/leaderboard/route.ts:53-56 | A result of an overtime race or of a round that is not completed, added on its own, changes no statistic |
| LeaderboardApi.UncountedChangesNothing | app/api/leaderboard/route.ts:43-57 | Such a round and such a result added together change no statistic |
| LeaderboardApi.NoRecordsNoStats | app/api/leaderboard/route.ts:41-94 | A player with no rounds and no results has every statistic at zero |
| LeaderboardApi.CompletedRoundCounts | app/api/leaderboard/route.ts:43-50 | A completed round adds one round played, and one win exactly when the player won it; totalPoints, racesRaced, the first-, second- and third-place counts and podiums are all unchanged |
| LeaderboardApi.CountedResultCounts | app/api/leaderboard/route.ts:55-77 | A counted result adds one race, its points (null as 0), one to its first-, second- or third-place count and to podiums when in the top three; round statistics are unchanged |
| LeaderboardApi.Leaderboard | app/api/leaderboard/route.ts:41-94 | One row per player, in the order the players were fetched |
| LeaderboardPage.SortedPlayers | app/leaderboard/page.tsx:57-66 | A permutation of the rows, non-decreasing by the key when ascending and non-increasing otherwise |
| LeaderboardPage.FirstRowHasMostWins | app/leaderboard/page.tsx:57-66 | In the default order the first row has at least as many wins as any row |
| LeaderboardPage.AfterSort | app/leaderboard/page.tsx:68-75 | The clicked key becomes the key; the current key flips the direction, another key starts descending |
| LeaderboardPage.SortTwice | app/leaderboard/page.tsx:68-75 | Two clicks on the current key restore the state; two clicks on another key leave it ascending |
| LeaderboardPage.SortControl.constructor | app/leaderboard/page.tsx:38-39 | The initial state is wins, descending |
| LeaderboardPage.SortControl.HandleSort | app/leaderboard/page.tsx:68-75 | The state becomes the one `AfterSort` gives |
| LeaderboardPage.AfterSelect | app/leaderboard/page.tsx:127-129 | The small-screen select sets the key and keeps the direction |
| LeaderboardPage.SelectDiffersFromHeader | app/leaderboard/page.tsx:127-129 | For a new key, the select and a header click give the same state exactly when the order was descending |
| LeaderboardPage.SortControl.SelectKey | app/leaderboard/page.tsx:127-129 | The state becomes the one `AfterSelect` gives |
| RoundsApi.FoundAllIff | app/api/rounds/route.ts:26-30 | With distinct ids, as many found rows as ids exactly when every id is a stored player |
| RoundsApi.Validate | app/api/rounds/route.ts:10-35 | In order: a missing list or a count outside 2..4 is a count error; then a repeat is a duplicate error; then an unknown id is a not-found error. The list passes exactly when all three checks do |
| RoundsApi.RoundStore.CreateRound | app/api/rounds/route.ts:10-45 | A refusal carries the first failing check and leaves the store unchanged. Success appends exactly one DRAFT round holding the listed players in order and returns its id |
| AdminPlayersApi.TrimShape | app/api/admin/players/route.ts:46 | The trimmed name is the slice of the input starting right after the leading whitespace; only whitespace precedes and follows it in the input, and it neither starts nor ends with whitespace |
| AdminPlayersApi.TrimEmptyIffAllSpace | app/api/admin/players/route.ts:25 | The name trims to nothing exactly when it is all whitespace |
| AdminPlayersApi.TrimIdempotent | app/api/admin/players/route.ts:34 | Trimming a trimmed name changes nothing |
| AdminPlayersApi.CheckCreate | app/api/admin/players/route.ts:20-42 | In order: an unauthorized request is refused; then a missing, non-string or blank name is refused; then a trimmed name already stored is refused. Otherwise the name to store is the non-empty trimmed name |
| AdminPlayersApi.StoredAvatar | app/api/admin/players/route.ts:47 | A missing or empty avatar URL is stored as null; any other is kept |
| AdminPlayersApi.PlayerStore.CreatePlayer | app/api/admin/players/route.ts:20-52 | A refusal carries the check's error and leaves the store unchanged. Success appends exactly one player, with the trimmed name and the stored avatar, and keeps names unique |

## Left out

- HTTP and React plumbing is not modelled: `fetch`, `NextResponse`, status codes, JSX and styling, `useState`/`useEffect`/`useMemo`, loading and error screens. Page transitions are values (`PageAction`); a server reply or a thrown error is an input (`ApiReply`).
- The database is not modelled. Prisma queries become sets and sequences held by the store classes. Ids the database generates are parameters.
- Admin authentication (lib/admin.ts compares a header to an environment variable) is the boolean input `authorized`.
- The server handlers that save a race, complete a round and record the overtime race are not part of this model. Only the gating visible in the pages and in lib/points.ts is modelled.
- The floating-point statistics `winPercentage` and `avgPointsPerRace`, and their rounding, are left out. So is sorting the leaderboard by them. The sort keys are the integer statistics only.
- `Math.max` over an empty roster (minus infinity) is modelled as `None`, and then no player counts as leading. The model does not require a non-empty roster.
- TrackSelector.Lower: `toLowerCase` is modelled for ASCII letters only; Unicode case mapping is left out.
- AdminPlayersApi.Trim: `trim` removes ASCII whitespace only; the Unicode space characters and line terminators beyond ASCII are left out.
- RoundsApi.Validate: `playerIds` is a list of ids or absent (`None`). A JSON value of another type that has a `length` (such as a short string) is not modelled.
- AdminPlayersApi.CheckCreate: a `name` that is not a string is an absent name (`None`); the model does not distinguish the JSON types.
- AdminPlayersApi.StoredAvatar: only a string or absent `avatarUrl` is modelled; other truthy JSON values are not.
- PositionEntry.PositionBoard.IsUsed: the "disabled exactly when another player holds the position" direction is proved only when positions are exclusive. That is what the button's own logic gives, and AssignPosition preserves it.
- Sorting.SortDesc: the model is a stable sort, as `Array.prototype.sort` is, but stability itself is not stated as a contract. Only the permutation and the order are.
- The `completing` and `saving` flags are inputs; their resetting in `finally` is not modelled.
- Plain object records with integer-like keys iterate in numeric key order. Player ids are never integer-like, so records are modelled in insertion order.
- The admin GET handler, the other API routes, the seed data and the presentation-only pages are outside this model.
