# Speedway match protocol — a Dafny model of the heat rules

The system is a web application for keeping the protocol of a Swedish
speedway match (Elitserien, 15 heats, two teams of seven riders). A FastAPI
backend stores each match and its fifteen heats and scores them. A React
front end edits line-ups and results and recomputes what it shows. This
project models the rules both halves apply, and proves properties of them.

Backend rules:

- the heat table (lineup slots and helmet colours per gate, nomination heats 14 and 15);
- the default match rules (tactical reserve window, ride ceilings);
- how a new match gets its heats;
- the tactical rider change, which is gate assignment inside heats 5..13;
- scoring a heat (3-2-1-0, team deltas, the bonus point);
- confirming a match against the official result, and resolving a discrepancy.

Front-end rules:

- when a heat form or a saved heat is complete;
- the totals and bonus points the front end recomputes;
- the tactical-reserve test and the one-change-per-heat guard;
- the heat dialog: exclusive positions, rider swaps, the save button and the payload;
- the earlier front end: lane choice, ride counts, the rider change checks and position toggling;
- the nomination dialog for heats 14 and 15: rider scores, ride counts, the top three, option disabling and submission;
- the page row and paging state of lists.

Structure:

- Each source module is one Dafny module:
  - `Domain` holds the shared entities;
  - `StableSort` is the stable sort both halves rely on;
  - `EliteSchedule`, `MetaRules`, `Fixture`, `BackendScoring`, `BackendMatch` and `MatchRecords` model the backend;
  - `UseHeats`, `MatchProtocol`, `HeatDialog`, `AppBackup`, `Nomination` and `Pagination` model the front end.
- Code that computes a value is a function, with lemmas about it.
- Code that loops is a method, proved against such a function.
- The stored match document, which the handlers update in place, is the class `MatchRecords.MatchRecord`.
- The paging hook's state is the class `Pagination.Pager`.

Where the front end holds several copies of one rule, the rule is modelled once:

- `pages/MatchProtocolPage.jsx` holds copies of `isHeatSavedComplete`, `computeHeatBonuses` and `computeTotalsFromHeats`;
- `utils/frontend_update_snippets.js` holds another `computeHeatBonuses`;
- `appBackup.js` holds `setPositionExclusive` and `computeHeatBonuses`.

Where front end and backend disagree, both rules are modelled and a lemma states the disagreement:

- helmet colours;
- the bonus rule for unknown riders;
- ride counting;
- the match-complete test.

## Model

| member | source | states |
|---|---|---|
| Domain.GateKeyRoundTrip | backend/server_async.py:503-506 | Gate keys "1".."4" and gates correspond one to one; no other key names a gate |
| Domain.TeamMapUpToSound | backend/server_async.py:556-558 | The rider-to-team map holds exactly the riders of the heat's gates, each with the team of one of its gates |
| Domain.LastGateWins | backend/server_async.py:556-558 | A rider at several gates gets the team of the last gate read |
| Domain.FirstGateTeamFrom | frontend/src/hooks/useHeats.js:52-55 | The front end's `find` returns the team of the first gate from n on that holds the rider, and None when no such gate exists |
| Domain.FirstIndexWith | frontend/src/components/HeatDialog.jsx:121 | The index found has the id and no earlier element has it; None means no element has the id |
| Domain.FindFirst | frontend/src/appBackup.js:480-482 | The rider found has the id and sits at a position before which no element has the id; None means no element has the id |
| Domain.ConsistentLookupsAgree | frontend/src/hooks/useHeats.js:52-55 | Where no rider stands at two gates under different teams, the backend's map and the front end's search give every rider the same team |
| StableSort.InsertKeepsSorted | backend/server_async.py:583 | Inserting an index keeps the index order sorted by key |
| StableSort.InsertKeepsDistinct | backend/server_async.py:583 | Inserting a new index keeps the indices distinct |
| StableSort.InsertKeepsStable | backend/server_async.py:583 | Inserting keeps indices with equal keys in their original order |
| StableSort.SortFromOrdered | backend/server_async.py:583 | The sort lists each index from..n-1 once, by key, with ties in original order |
| StableSort.SortIdx | backend/server_async.py:583 | `sorted` (a stable sort): a permutation of the indices, sorted by key and stable |
| StableSort.Pick | frontend/src/hooks/useHeats.js:66-68 | Picking by an index order keeps the length, and place p holds element idx[p] |
| EliteSchedule.ParseColour | backend/helpers/schedule_elit.py:26-38 | Only the four keys B, R, G and V of the colour tables are colours |
| EliteSchedule.CellText | backend/helpers/schedule_elit.py:3-24 | A written cell is two characters (colour and digit) or three (colour, slash, colour) |
| EliteSchedule.CellTextRoundTrip | backend/helpers/schedule_elit.py:3-24 | Writing a well-formed cell and reading it back gives the cell |
| EliteSchedule.TableShape | backend/helpers/schedule_elit.py:3-24 | Fifteen rows for heats 1..15, each naming four gates |
| EliteSchedule.TableWellFormed | backend/helpers/schedule_elit.py:3-24 | Heats 1..13 name a lineup slot 1..7 at every gate, heats 14 and 15 name colour pairs, and every token parses |
| EliteSchedule.SlotAt | backend/helpers/schedule_elit.py:5-20 | The slot at a gate of a concrete heat is a well-formed colour and lineup number |
| EliteSchedule.SidesHoldGatePairs | backend/helpers/schedule_elit.py:5-20 | In every concrete heat one team holds gates 1 and 3 and the other gates 2 and 4 |
| EliteSchedule.PairColoursDiffer | backend/helpers/schedule_elit.py:5-20 | The two riders of a team in a heat wear different colours |
| EliteSchedule.EachColourOncePerHeat | backend/helpers/schedule_elit.py:5-20 | Different gates of a concrete heat wear different colours |
| EliteSchedule.FourGatesFourColours | backend/helpers/schedule_elit.py:26-31 | Two colours per team with different colours within a team give four different colours |
| EliteSchedule.NoSlotTwicePerHeat | backend/helpers/schedule_elit.py:5-20 | No concrete heat names one team's lineup slot at two gates |
| EliteSchedule.ScheduledRideCounts | backend/helpers/schedule_elit.py:5-20 | Slots 1..5 ride four of heats 1..13 and slots 6 and 7 ride three, for both teams |
| EliteSchedule.HomeSlotRides | backend/helpers/schedule_elit.py:5-20 | The home team's ride count per lineup slot |
| EliteSchedule.AwaySlotRides | backend/helpers/schedule_elit.py:5-20 | The away team's ride count per lineup slot |
| EliteSchedule.NoRidesOutsideLineup | backend/helpers/schedule_elit.py:5-20 | No heat names a slot outside 1..7 |
| EliteSchedule.NomineePairsCrossTeams | backend/helpers/schedule_elit.py:22-23 | Heats 14 and 15 pair a home colour with an away colour, the same pair on gates 1-2 and on gates 3-4 |
| EliteSchedule.TwoColoursPerSide | backend/helpers/schedule_elit.py:26-31 | Exactly two colours belong to each team |
| MetaRules.DefaultTacticalWindow | backend/services/meta_rules.py:3-10 | Defaults: switched on, heats 5..13, deficit 6, one tactical ride per heat; the window ends before heats 14 and 15 |
| MetaRules.DefaultReserveCeilingBelowSchedule | backend/services/meta_rules.py:11-16 | The reserve ceiling of 2 is below the 3 rides the heat table gives slots 6 and 7; main slots (4 rides) fit the ceiling of 5 |
| MetaRules.ReplacementCeilingsRaiseLimits | backend/services/meta_rules.py:11-20 | The rider-replacement ceilings are above both ordinary ceilings; heat 14 is free and heat 15 takes two of the top three |
| Fixture.TeamColors | backend/server_async.py:106-115 | A team gets two different colours |
| Fixture.TeamColoursDisjoint | backend/server_async.py:106-115 | The four team colours differ pairwise |
| Fixture.ColourIndex | backend/server_async.py:516-517 | A gate takes one of its team's two colours |
| Fixture.BackendHelmetsDistinct | backend/server_async.py:134-161 | The four gates of a backend-built heat wear four different colours |
| Fixture.HeatProgramWellFormed | backend/server_async.py:190-206 | The program has 15 rows for heats 1..15, with a roster index below six at every gate |
| Fixture.UpToSix | backend/server_async.py:181-183 | At most six main riders are read, a prefix of the stored order; exactly six when there are six or more |
| Fixture.DigitsRoundTrip | backend/server_async.py:136-160 | The heat and gate numbers written in placeholder ids read back as the same numbers |
| Fixture.GenerateDefaultHeats | backend/server_async.py:118-170 | The loop builds the placeholder heats, or the not-found error when a team is missing |
| Fixture.BuildProgramHeat | backend/server_async.py:213-242 | The gate loop builds the program heat of one row |
| Fixture.BuildFixture | backend/server_async.py:211-244 | The row loop builds the heats of the whole program |
| Fixture.GenerateMatchHeats | backend/server_async.py:173-244 | Generating a match's heats gives the program heats with six riders per team, and the placeholder heats otherwise |
| Fixture.MatchHeatsShape | backend/server_async.py:173-244 | A new match fails only when a team lacks six riders and a team is missing; otherwise it has heats 1..15 in order, four gates each, no results, upcoming, only heat 15 tactical, home on gates 1 and 3 in its colours |
| Fixture.PlaceholderIdsDistinct | backend/server_async.py:133-161 | Placeholder heats never put one id at two gates |
| Fixture.DistinctRowNoRepeat | backend/server_async.py:221-242 | With unique rider ids, a row with distinct indices per team puts four different riders on the gates |
| Fixture.Heat2RepeatsAwayRider | backend/server_async.py:192 | As written, heat 2 is the only row giving a team one index twice, so one away rider starts from gates 2 and 4 |
| Fixture.CorrectedProgramRowsDistinct | backend/server_async.py:190-206 | The corrected program is well formed and every row has distinct indices per team |
| Fixture.CorrectedProgramNoRepeats | backend/server_async.py:190-206 | In the corrected program no heat names one rider at two gates |
| Fixture.TableSidesNotTiedToGates | backend/helpers/schedule_elit.py:6 | The heat table puts an away colour on gate 1 in heat 2, where the backend always puts home |
| BackendScoring.PointsFor | backend/server_async.py:551-567 | 3, 2, 1 or 0 points for a completed ride in places 1..4, and nothing for any other line |
| BackendScoring.ScoredLines | backend/server_async.py:560-574 | One line per submitted line, in order, with its id, position and status, bonus 0 and 0..3 points |
| BackendScoring.TeamDeltasSplitKnownPoints | backend/server_async.py:575-580 | The two deltas split the points of the gate riders' lines, ignore the lines of other riders, and each lies between 0 and three points per line |
| BackendScoring.FullHeatSumsToSix | backend/server_async.py:551-580 | A heat of four completed gate riders in places 1..4 hands out six points between the teams |
| BackendScoring.Positions | backend/server_async.py:583 | The sort keys are the lines' positions |
| BackendScoring.BonusTarget | backend/server_async.py:584-594 | Only a heat with exactly four lines has a bonus line, and it is a valid line index |
| BackendScoring.WithBonus | backend/server_async.py:595-597 | The chosen line gets bonus 1, every other line 0, and nothing else changes |
| BackendScoring.ScoreHeatLines | backend/server_async.py:551-597 | Lines stay in order with their points; every bonus is 0 or 1, at most one is 1, and none without exactly four lines |
| BackendScoring.BonusRule | backend/server_async.py:583-594 | In position order the second line gets the bonus exactly when the first two share a team; otherwise the third does exactly when the second and third share one; the first and fourth never do |
| BackendScoring.DeltasIgnoreBonus | backend/server_async.py:575-580 | The team deltas are sums of base points and do not depend on bonus points |
| BackendScoring.OrderedPlacesSortInPlace | backend/server_async.py:583 | Four lines already in places 1..4 keep their order when sorted |
| BackendScoring.FiveOneHeat | backend/server_async.py:588-591 | A 5-1 heat gives home five, away one, and the bonus to the home rider in second place |
| BackendScoring.ScoreSubmission | backend/server_async.py:551-597 | The line-by-line loop computes the scored lines and the deltas |
| BackendMatch.FirstHeatIndexFrom | backend/server_async.py:491-497 | The search returns the first heat with the number, or None when there is none |
| BackendMatch.FirstHeatIndex | backend/server_async.py:543-549 | The first heat numbered n, or None when no heat has that number |
| BackendMatch.LocateHeat | backend/server_async.py:491-497 | The loop finds the first heat with the number |
| BackendMatch.FirstHeatIndexNumbersOnly | backend/server_async.py:491-497 | The search depends only on the heat numbers |
| BackendMatch.AssignGatesFailsIff | backend/server_async.py:503-517 | Assignments fail exactly when one names an unknown rider (not found) or a rider of the wrong team (bad request) |
| BackendMatch.AssignGatesResult | backend/server_async.py:503-523 | On success a gate not named keeps its rider, and a named gate holds the rider of the last assignment naming it |
| BackendMatch.AssignedGatesOnTeam | backend/server_async.py:506-523 | Every named gate gets a rider of its own team, with the gate's colour |
| BackendMatch.AssignGatesKeepsSides | backend/server_async.py:503-523 | Assignments keep every gate rider on its gate's team and colour |
| BackendMatch.RidersUpdateWindow | backend/server_async.py:491-527 | A rider update succeeds only for an existing heat in 5..13 and changes only that heat's riders; it reads no deficit, cap or ride count |
| BackendMatch.ApplyResultCompletesHeat | backend/server_async.py:599-603 | Every accepted submission completes its heat, even an empty one, and leaves the other heats alone |
| BackendMatch.ResubmissionDoubleCounts | backend/server_async.py:602-603 | Submitting the same result twice adds the deltas twice |
| BackendMatch.StoredTotalIsDelta | backend/server_async.py:575-580 | A scored heat's stored lines add up to its delta |
| BackendMatch.MatchTotalUpdate | backend/server_async.py:599 | Replacing one heat changes the recomputed total by the difference of that heat's totals |
| BackendMatch.RecomputedResubmissionIdempotent | backend/server_async.py:599-603 | With recomputed totals a second identical submission changes nothing, and a first one moves the totals by the heat's deltas minus what its earlier lines counted |
| BackendMatch.CountCompletedHeats | backend/server_async.py:630-632 | The count is at most the number of heats |
| BackendMatch.ScoreDiscrepancies | backend/server_async.py:658-675 | There are no discrepancies exactly when both totals equal the official scores; each listed one differs; at most two |
| BackendMatch.ConfirmMeaning | backend/server_async.py:620-681 | Confirmation succeeds exactly with at least 15 completed heats; the copy is disputed exactly when a non-empty official result differs |
| BackendMatch.ConfirmIgnoresResultCounts | backend/server_async.py:630-632 | Fifteen heats completed by empty submissions confirm |
| BackendMatch.ConfirmCheckedMeaning | backend/server_async.py:630-632 | The checked confirmation accepts exactly matches with every heat completed with at least four lines |
| BackendMatch.ListedValidatedIff | backend/server_async.py:704-738 | A listed copy is validated exactly when an official match with both scores agrees with both totals |
| BackendMatch.AcceptedStaysValidated | backend/server_async.py:754-772 | Accepting the official result makes the next listing validated with no discrepancies |
| BackendMatch.KeptResultListedDisputed | backend/server_async.py:754-772 | Keeping the user's result is listed disputed again while the official match disagrees |
| MatchRecords.MatchRecord.constructor | backend/server_async.py:416-429 | A new match stores the teams and heats, is upcoming and has no points |
| MatchRecords.MatchRecord.UpdateHeatRiders | backend/server_async.py:462-527 | The stored heats change only on an accepted body, and then only the located heat |
| MatchRecords.MatchRecord.UpdateHeatResult | backend/server_async.py:530-617 | The heat is stored scored and completed, and its deltas are added to the stored totals |
| MatchRecords.MatchRecord.ConfirmMatch | backend/server_async.py:620-681 | With fifteen completed heats the match is confirmed, and the user's copy is compared with the official result |
| MatchRecords.CreateMatch | backend/server_async.py:397-431 | A duplicate is refused; otherwise the new match has the generated heats, is upcoming, has no points and is valid |
| UseHeats.IsHeatCompleteFromForm | frontend/src/hooks/useHeats.js:5-21 | The loop accepts exactly a form where every gate rider is excluded or completed at 1..4, with no position used twice |
| UseHeats.AllExcludedComplete | frontend/src/hooks/useHeats.js:5-21 | A heat whose riders are all excluded is complete |
| UseHeats.MissingEntryIncomplete | frontend/src/hooks/useHeats.js:9-12 | A gate rider without a form entry makes the form incomplete |
| UseHeats.FirstResultForMeaning | frontend/src/hooks/useHeats.js:29 | The search finds nothing exactly when no line is the rider's, and otherwise the earliest one |
| UseHeats.IsHeatSavedComplete | frontend/src/hooks/useHeats.js:23-43 | The loop accepts exactly a heat with lines where every gate rider's line is excluded or completed at 1..4, with different positions |
| UseHeats.SavedNeedsEveryRider | frontend/src/hooks/useHeats.js:23-43 | A heat without lines, or with a gate rider without a line, is not complete |
| UseHeats.ComputeTotalsFromHeats | frontend/src/hooks/useHeats.js:45-61 | The nested loops compute each side's total of points over every heat |
| UseHeats.LinesTotalAgrees | frontend/src/hooks/useHeats.js:45-61 | Where gates agree on teams, a heat's front-end total equals the backend's stored-line total |
| UseHeats.FrontTotalsAgreeWithBackend | frontend/src/hooks/useHeats.js:45-61 | Where every heat's gates agree on teams, the front-end totals are the backend's recomputed totals |
| UseHeats.FrontTotalAppend | frontend/src/hooks/useHeats.js:48-59 | Totals add up over consecutive runs of heats |
| UseHeats.WithoutBonus | frontend/src/hooks/useHeats.js:51 | Every bonus becomes 0 and every other field of every line is kept |
| UseHeats.TotalsIgnoreBonus | frontend/src/hooks/useHeats.js:51 | Bonus points never enter the totals |
| UseHeats.Finished | frontend/src/hooks/useHeats.js:66-67 | The finishers are completed lines of the heat |
| UseHeats.FinishedHasAllCompleted | frontend/src/hooks/useHeats.js:66-67 | Every completed line is among the finishers |
| UseHeats.FinishedKeepsAllCompleted | frontend/src/hooks/useHeats.js:66-67 | A heat of completed lines keeps all of them as finishers |
| UseHeats.ByPosition | frontend/src/hooks/useHeats.js:68 | Sorting keeps the number of lines |
| UseHeats.ByPositionMeaning | frontend/src/hooks/useHeats.js:68 | The sorted lines rise by position and hold exactly the lines of the input |
| UseHeats.HeatBonusesMeaning | frontend/src/hooks/useHeats.js:63-81 | With fewer than three finishers there is no bonus; otherwise the second gets one exactly when on the first's team, and the third exactly when on the second's |
| UseHeats.ComputeHeatBonuses | frontend/src/utils/frontend_update_snippets.js:2-23 | The snippet's loop gives the same bonus map as the hook |
| UseHeats.AtMostOneBonus | frontend/src/hooks/useHeats.js:74-79 | With gate riders on their own gates and three different finishers, at most one bonus is given |
| UseHeats.UnknownFinishersBothRewarded | frontend/src/hooks/useHeats.js:74-79 | Three finishers at no gate all compare equal, so two bonuses are given |
| UseHeats.BonusRulesAgreeOnFullHeats | frontend/src/hooks/useHeats.js:63-81 | On a full heat the front end's bonus goes to exactly the line the backend gave the bonus |
| UseHeats.StoredFinishersInOrder | frontend/src/hooks/useHeats.js:66-68 | In a full completed heat the front end's finishers are the backend's sorted lines |
| UseHeats.HelmetRulesDisagree | frontend/src/hooks/useHeats.js:83-89 | The front end and the backend give the same helmet only to home gate 1 and away gates 2 and 3, because their blues are different shades; on each side's own gates they disagree at home gate 3 and away gate 4 |
| MatchProtocol.CompleteMatchesConfirm | frontend/src/pages/MatchProtocolPage.jsx:59-64 | The page's complete test is the intended readiness, and every match it accepts the backend confirms, but not the other way round |
| MatchProtocol.TacticalRulesOf | frontend/src/pages/MatchProtocolPage.jsx:91-97 | Each of the four settings keeps a given value, and a missing one takes the backend's default |
| MatchProtocol.CanUseTacticalMeaning | frontend/src/pages/MatchProtocolPage.jsx:284-300 | A side may use a tactical reserve exactly inside the switched-on window when it trails strictly by at least the minimum; a tie never qualifies |
| MatchProtocol.DeficitCountsLaterHeats | frontend/src/pages/MatchProtocolPage.jsx:284-300 | The deficit counts every heat, later heats included |
| MatchProtocol.ChangedUpTo | frontend/src/pages/MatchProtocolPage.jsx:753-766 | At most n of gates 1..n are counted as changed |
| MatchProtocol.HeatSwapGuard | frontend/src/pages/MatchProtocolPage.jsx:753-766 | The loop accepts exactly when at most one gate changed |
| MatchProtocol.ChangedAtMostOne | frontend/src/pages/MatchProtocolPage.jsx:753-766 | The count is at most one exactly when no two gates both changed, and zero exactly when none did |
| MatchProtocol.OpenOnlyAfterPrevious | frontend/src/pages/MatchProtocolPage.jsx:600-605 | A heat after the first opens only when the previous heat exists and is saved complete |
| HeatDialog.SetPositionExclusive | frontend/src/components/HeatDialog.jsx:84-100 | The loop over the form computes exclusive picking |
| HeatDialog.ExclusiveOutcome | frontend/src/components/HeatDialog.jsx:84-100 | A new position is held by the rider alone, and statuses and other positions are kept; re-picking the rider's own position clears it |
| HeatDialog.PersistedForm | frontend/src/components/HeatDialog.jsx:61-81 | The opened form has an entry for exactly the gate riders' ids |
| HeatDialog.PersistedGate | frontend/src/components/HeatDialog.jsx:61-81 | A gate rider's opened entry is its stored line's status and position |
| HeatDialog.PersistedFormComplete | frontend/src/components/HeatDialog.jsx:61-81 | A saved heat opens as a complete form exactly when it is saved complete |
| HeatDialog.SetDraftRiderMeaning | frontend/src/components/HeatDialog.jsx:110-155 | A swap changes only the gate's rider id and name, and moves the form entry; a rejected swap changes nothing |
| HeatDialog.GuardKeepsOneChange | frontend/src/components/HeatDialog.jsx:110-155 | With the guard on, a draft with at most one changed gate keeps at most one |
| HeatDialog.FormFollowsDraft | frontend/src/components/HeatDialog.jsx:134-151 | The form keeps holding exactly the draft's rider ids after a swap |
| HeatDialog.RidersChanged | frontend/src/components/HeatDialog.jsx:162-170 | The loop reports a change exactly when some live gate holds another rider |
| HeatDialog.ChangedIsCounted | frontend/src/components/HeatDialog.jsx:162-170 | A changed draft is exactly one the swap guard counts a change in |
| HeatDialog.ResultsUnchanged | frontend/src/components/HeatDialog.jsx:172-200 | The loop reports no change exactly when every rider of either form reads the same entry |
| HeatDialog.SaveNeedsAnEdit | frontend/src/components/HeatDialog.jsx:400 | Saving needs a complete form and a real edit; an untouched dialog cannot save |
| HeatDialog.HandleSave | frontend/src/components/HeatDialog.jsx:204-222 | The payload holds the draft rider of exactly the changed gates, and every form entry with its position read as a number |
| HeatDialog.CanPickIsPageRule | frontend/src/components/HeatDialog.jsx:257-262 | With the page's window, a gate's rider list opens exactly when the page's tactical rule allows the side |
| AppBackup.GatesOf | frontend/src/appBackup.js:262-269 | Only gates that hold a rider are listed |
| AppBackup.GatesOfSorted | frontend/src/appBackup.js:262-269 | The listed gates rise strictly |
| AppBackup.GatesOfComplete | frontend/src/appBackup.js:262-269 | Every gate of the side up to n is listed |
| AppBackup.LaneChoiceApplies | frontend/src/appBackup.js:271-274 | A lane choice applies exactly to a heat of two riders per side |
| AppBackup.LaneChoiceHelmets | frontend/src/appBackup.js:277-302 | After a lane choice every gate is ridden, in the front end's colour for its new gate and side |
| AppBackup.LaneChoiceMeaning | frontend/src/appBackup.js:251-317 | The choosing side rides the chosen pair and the other side the remaining pair, each keeping its gate order |
| AppBackup.LaneChoiceSides | frontend/src/appBackup.js:259-260 | A lane choice keeps home on gates 1 and 3 only when home takes 1 and 3 or away takes 2 and 4; otherwise every rider moves to the other side's gates |
| AppBackup.ApplyLaneChoiceToHeat | frontend/src/appBackup.js:251-317 | A missing heat or a heat not of two per side gives None; otherwise every heat with the number takes the lane choice's line-up of the first such heat, and the other heats are kept |
| AppBackup.LaneChoiceOnMatch | frontend/src/appBackup.js:304-309 | After a lane choice every heat with the number has all four gates ridden in the front end's colours, the choosing side on the chosen pair and the other side on the rest |
| AppBackup.BackupRulesMeaning | frontend/src/appBackup.js:338-346 | Both rules need a strict deficit; the eight-point gate choice implies the six-point tactical test; unused, the earlier test is the page's rule |
| AppBackup.AllowTacticalIsPageRule | frontend/src/appBackup.js:2116-2122 | With nothing picked yet, the earlier rider-list test is the page's tactical rule under the default settings |
| AppBackup.RidesCount | frontend/src/appBackup.js:349-357 | A rider rides at most once per heat in the count |
| AppBackup.GetRidesCount | frontend/src/appBackup.js:349-357 | The loop counts the heats holding the rider at some gate |
| AppBackup.RidesCountOneHeat | frontend/src/appBackup.js:349-357 | Changing one heat changes the count by at most one |
| AppBackup.RideLimitFor | frontend/src/appBackup.js:484-489 | Five heats for a reserve by role or shirt 6 or 7, six for anyone else |
| AppBackup.ApplyChange | frontend/src/appBackup.js:514-543 | Heats with other numbers are kept; in the heat with the number, the gate gets the new rider and name with the same team and helmet, the heat is marked tactical, and its number, status, other gates and results are kept |
| AppBackup.ChangeRiderKeepsLimit | frontend/src/appBackup.js:459-550 | A change goes ahead only on an existing, unlocked gate, with no other pick in the heat, for a rider below the ride limit of the first rider with that id in the gate team's roster (five for a reserve, six otherwise); on a match of fifteen numbered heats the rider then stays within that limit |
| AppBackup.PosTextInjective | frontend/src/appBackup.js:743-744 | Different positions print differently |
| AppBackup.TogglePosition | frontend/src/appBackup.js:741-768 | Toggling a position by comparing texts is exactly exclusive picking |
| AppBackup.CanConfirmMatchAgrees | frontend/src/appBackup.js:901-904 | With fifteen heats the earlier test agrees with the backend's; a sixteenth completed heat would confirm at the backend but not here |
| Nomination.LinesScoreAppend | frontend/src/components/NominationDialog.jsx:23-33 | Scores add up over consecutive runs of lines |
| Nomination.NoLinesNoScore | frontend/src/components/NominationDialog.jsx:23-33 | A rider without a line scores nothing |
| Nomination.ScoresByRider | frontend/src/components/NominationDialog.jsx:23-33 | The loop gives every rider with a line its points plus bonus points over every heat |
| Nomination.GateEntries | frontend/src/components/NominationDialog.jsx:35-46 | The gate count is at most n |
| Nomination.HeatCountsNow | frontend/src/components/NominationDialog.jsx:35-46 | The loop counts each rider's gate entries over every heat |
| Nomination.GateEntriesBounds | frontend/src/components/NominationDialog.jsx:35-46 | A heat counts the rider at least once exactly when some gate holds the rider, and at most once when only one gate does |
| Nomination.ScheduledCountVsRides | frontend/src/components/NominationDialog.jsx:35-46 | The count is at least the earlier front end's heat count, and equal when no heat holds the rider twice |
| Nomination.DoubleEntryCountsTwice | frontend/src/components/NominationDialog.jsx:35-46 | A rider on two gates of a heat counts twice here, once in the earlier count |
| Nomination.LimitForAgainstOtherCeilings | frontend/src/components/NominationDialog.jsx:48 | The dialog's ceilings (5 and 6) are above the backend's defaults, and exceed the earlier front end's for a main rider wearing 6 or 7 |
| Nomination.Mains | frontend/src/components/NominationDialog.jsx:52 | The main riders are exactly the non-reserves, in roster order |
| Nomination.ScoreOrder | frontend/src/components/NominationDialog.jsx:53-55 | The score order lists every rider's place exactly once |
| Nomination.ByScore | frontend/src/components/NominationDialog.jsx:53-55 | Place p of the sorted list holds the rider the score order names |
| Nomination.ByScoreFalls | frontend/src/components/NominationDialog.jsx:53-55 | Scores never rise along the sorted list |
| Nomination.ByScoreStable | frontend/src/components/NominationDialog.jsx:53-55 | Riders with equal scores keep roster order |
| Nomination.Top3MainsOnly | frontend/src/components/NominationDialog.jsx:51-59 | Only main riders are in the top three |
| Nomination.Top3AllWhenFew | frontend/src/components/NominationDialog.jsx:51-59 | With three or fewer main riders all of them are in |
| Nomination.Top3ByThreshold | frontend/src/components/NominationDialog.jsx:51-59 | With more than three, a main rider is in exactly when scoring at least the third score, ties included |
| Nomination.Top3ThreeReachThird | frontend/src/components/NominationDialog.jsx:51-59 | Three different main riders reach the third score |
| Nomination.Top3AtMostTwoAbove | frontend/src/components/NominationDialog.jsx:51-59 | No three different main riders score above the third score |
| Nomination.Top3HasTopScorer | frontend/src/components/NominationDialog.jsx:51-59 | A highest-scoring main rider is always in |
| Nomination.Top3AtLeastThree | frontend/src/components/NominationDialog.jsx:51-59 | With more than three main riders of different ids the top three hold at least three ids |
| Nomination.Choose | frontend/src/components/NominationDialog.jsx:137-144 | Choosing sets one slot to the stored value and keeps the other slot, the other side and the other heat |
| Nomination.Slots | frontend/src/components/NominationDialog.jsx:62-74 | There are eight counted slots |
| Nomination.SlotCount | frontend/src/components/NominationDialog.jsx:62-74 | A rider is counted at most once per slot |
| Nomination.Increments | frontend/src/components/NominationDialog.jsx:62-74 | The loop counts exactly the slots holding each rider, and never the empty choice |
| Nomination.ChooseSlots | frontend/src/components/NominationDialog.jsx:137-144 | Choosing changes exactly one of the eight slots |
| Nomination.SlotCountUpdate | frontend/src/components/NominationDialog.jsx:62-74 | Replacing one slot moves the count by what left and what arrived |
| Nomination.ChooseCounts | frontend/src/components/NominationDialog.jsx:137-144 | Choosing adds one pick of the rider unless the slot held it, and takes one from the rider held before |
| Nomination.BothHeatsCountTwice | frontend/src/components/NominationDialog.jsx:62-74 | A rider picked for both heats counts twice |
| Nomination.FindEither | frontend/src/components/NominationDialog.jsx:78-80 | A rider found has the id and is on one of the rosters; when the home roster has the id its first such rider wins, otherwise the away roster's first; None exactly when neither roster has the id |
| Nomination.WouldExceedMeaning | frontend/src/components/NominationDialog.jsx:76-86 | The empty and unknown ids are never flagged, nobody at five or fewer, and every known rider above six |
| Nomination.EnabledChoice | frontend/src/components/NominationDialog.jsx:147-154 | An enabled choice never puts one rider in both slots of a side, and in heat 15 picks a main rider of the side |
| Nomination.PickPastLimit | frontend/src/components/NominationDialog.jsx:76-86 | As written, a rider exactly at the ceiling stays enabled and is over the ceiling once picked |
| Nomination.PickPastLimitExample | frontend/src/components/NominationDialog.jsx:147-154 | A main rider on six scheduled gates with no picks is offered for heat 14 and would then be at seven |
| Nomination.ScheduledOncePerHeat | frontend/src/components/NominationDialog.jsx:35-46 | A rider on one gate of every heat is counted once per heat |
| Nomination.NoPicksCountNothing | frontend/src/components/NominationDialog.jsx:62-74 | A fresh dialog counts no picks |
| Nomination.ExceedAfterPickMeaning | frontend/src/components/NominationDialog.jsx:76-86 | The corrected test offers a new pick only below the ceiling, and judges re-choosing as before |
| Nomination.CorrectedChoiceKeepsNoneOver | frontend/src/components/NominationDialog.jsx:147-154 | With the corrected rule, clearing or choosing an enabled rider keeps everyone within the ceiling |
| Nomination.SubmitBodyMeaning | frontend/src/components/NominationDialog.jsx:176-196 | Submission is possible exactly when the body carries a heat; each heat it carries is the dialog's complete picks; a fresh dialog cannot submit |
| Pagination.GetPagesSmall | frontend/src/components/PaginationBar.jsx:11-16 | Up to five pages are all listed, in order |
| Pagination.GetPagesLarge | frontend/src/components/PaginationBar.jsx:11-16 | More pages give six or seven entries from page one to the last page |
| Pagination.GetPagesHasCurrent | frontend/src/components/PaginationBar.jsx:11-16 | The current page is always listed |
| Pagination.GetPagesIncreasing | frontend/src/components/PaginationBar.jsx:11-16 | Page numbers rise strictly along the row |
| Pagination.GetPagesEllipses | frontend/src/components/PaginationBar.jsx:11-16 | An ellipsis sits between two page numbers and stands for at least one page |
| Pagination.GetPagesInRange | frontend/src/components/PaginationBar.jsx:11-16 | Only pages 1..total are listed |
| Pagination.BarRequestsExistingPages | frontend/src/components/PaginationBar.jsx:19-55 | Enabled arrows and listed pages ask for existing pages; the arrows are disabled exactly at the ends; a shown bar has an enabled arrow |
| Pagination.PageCountOf | frontend/src/hooks/usePagination.js:8 | At least one page, and the fewest pages that hold the list |
| Pagination.PageSlice | frontend/src/hooks/usePagination.js:10-15 | A page holds at most the page size, and is the list's slice at the page's offset |
| Pagination.PagesUpToPrefix | frontend/src/hooks/usePagination.js:10-15 | The first n pages are the first n times the page size items |
| Pagination.PagesCoverList | frontend/src/hooks/usePagination.js:8-15 | Reading every page in turn gives back the whole list |
| Pagination.Clamp | frontend/src/hooks/usePagination.js:22 | The clamped page lies in 1..count and equals the request when it does |
| Pagination.Pager.constructor | frontend/src/hooks/usePagination.js:4-6 | A new pager starts on page one |
| Pagination.Pager.PageCount | frontend/src/hooks/usePagination.js:8 | There is at least one page |
| Pagination.Pager.Current | frontend/src/hooks/usePagination.js:9 | The shown page lies in 1..page count, and is the stored page when in range |
| Pagination.Pager.PageItems | frontend/src/hooks/usePagination.js:10-15 | The shown items are the current page's slice, at most a page |
| Pagination.Pager.SetSafePage | frontend/src/hooks/usePagination.js:22 | The page becomes the clamped request and is the page shown |
| Pagination.Pager.Update | frontend/src/hooks/usePagination.js:18-20 | New items or size reset the page to one when the length or size changed, and keep it otherwise |
| Pagination.OffsetInsideList | frontend/src/hooks/usePagination.js:10 | The offset of the shown page lies inside the list |

## Left out

- AppBackup.ApplyChange: a heat with the number that lacks the gate is left unchanged. appBackup.js:519-535 would add a gate entry holding only the rider id and name, and would mark the heat tactical. A gate entry without a team cannot be represented, and the case needs two heats with the same number.
- A request for a match id that does not exist (the 404 of server_async.py:627-628, the two 404s of server_async.py:749-753 and those of the other handlers) is not modelled: every handler, resolving a dispute included, is given the stored match and user copy.
- I/O: MongoDB access, HTTP routing, JWT authentication and password hashing are out of scope. Database lookups become parameters: rider documents as a map, team documents as options, the duplicate-match query as a flag. The scraped official result is an `Option` parameter. This follows the scraper's documented contract. The scraper in server_async.py:909-917 is a stub that always returns no result, so as written confirm_match never produces a disputed copy; the model also covers the cases a real scraper would produce.
- Results in an order other than submission order: the model does not track the order of fields in the response payloads.
- HeatDialog.HandleSave: the payload's results are a map keyed by rider id, so the order of `Object.keys(heatResults)` is not kept. The backend's stable sort breaks ties between equal positions by that order. Two riders sent with position 0 (blank positions read as `parseInt(..) || 0`) tie, so which of them a bonus could go to depends on an order this model does not carry.
- Statuses other than completed and excluded are collapsed into one other status.
- Form positions are held as numbers or blank. The `typeof position === "number"` filter is modelled by treating every stored position as a number.
- Hex colours are an enumeration with one value per hex code written: `#2563EB` (Blue) and `#1D4ED8` (DarkBlue) are distinct, and so are `#EAB308` (Yellow) and `#FACC15` (Gold). Any other colour string cannot be represented.
- `results` that is not an array: the model always holds a sequence, so the `Array.isArray` guards have no counterpart.
- Rider replacement: the ceilings are modelled, but the replacement itself is not part of this model.
- The earlier front end's lane choice: the snapshot and restore effect after the choice (appBackup.js 320-335) is UI state and is not modelled.
- The earlier front end's locked reserve slots: the meta data naming them is a parameter.
- How nominations are stored after the dialog submits is not part of this model, because no handler for them exists in the backend source.
- UI rendering, toasts, loading states and navigation are not modelled.
- Pagination.Pager: `asArray` (turning a non-array into an empty list) is not part of this model. A page size below one is excluded by the constructor's precondition. The state is the one after React's effects have run.
- Fixture.GenerateMatchHeats: `create_match` uses the program as written. The corrected program is proved separately and is not substituted into the handler.
- BackendMatch and MatchRecords.MatchRecord.UpdateHeatResult: these follow the handler as written, adding deltas. The recomputed update is proved beside them.
- Nomination.HeatCountsNow: it counts the program's own entries in heats 14 and 15 like any other gate, as the dialog does.

## Findings

| source | as written | input that shows it | evidently intended | confidence | as-written member | corrected member |
|---|---|---|---|---|---|---|
| backend/server_async.py:192 | heat 2 of the program gives away index 2 to both away gates | any match whose teams both have six main riders: the away rider at index 2 starts from gates 2 and 4 of heat 2 | two different away riders in heat 2 | high, not executed | Fixture.Heat2RepeatsAwayRider | Fixture.CorrectedProgramNoRepeats |
| backend/server_async.py:602-603 | the heat's deltas are added to the stored totals on every submission | submitting the same 5-1 result for one heat twice adds ten points to home instead of five | totals recomputed from the stored heats | medium, not executed | BackendMatch.ResubmissionDoubleCounts | BackendMatch.RecomputedResubmissionIdempotent |
| backend/server_async.py:630-632 | confirmation counts heats with status completed only | fifteen heats each completed by an empty results list confirm | every heat completed with at least four result lines, as the match page requires | medium, not executed | BackendMatch.ConfirmIgnoresResultCounts | BackendMatch.ConfirmCheckedMeaning |
| frontend/src/components/NominationDialog.jsx:76-86 | the ceiling test compares the current count, before the pick, with the ceiling | a main rider on six scheduled gates with no picks: the heat-14 option is enabled and the pick makes seven | disable the option when the pick itself would pass the ceiling | medium, not executed | Nomination.PickPastLimit | Nomination.CorrectedChoiceKeepsNoneOver |
