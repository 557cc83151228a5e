# Bradley-Terry college-football rankings, modelled in Dafny

This project models the rating engine of the `bradley_terry_rankings` cloud
function. The engine takes a list of games, each with a home team id, an away
team id and a `home_won` flag, and produces a ranked table of teams. The
stages are:

1. Index the teams in order of first appearance.
2. Turn each game into a (winner, loser) comparison.
3. Drop teams with fewer than four games.
4. Keep the largest connected component of the comparison graph.
5. Renumber its teams `0 .. k-1` in ascending order of their former index.
6. Add one offsetting comparison for every team with only wins or only
   losses.
7. Fit log-strengths with the sparse solver, falling back to the dense
   solver on its win matrix.
8. Exponentiate the log-strengths.
9. Compute each team's probability of beating an average-strength team.
10. Sort descending by that probability and assign ranks `1 .. k`.
11. Build the response: the first 25 rows and three totals.

The project also models `parse_rankings_data`, which flattens the ESPN
rankings document into one table of rows for each of the "AP" and "Coaches"
polls.

Modules, one per file:

- `wrappers.dfy`: `Option` and `Result`.
- `seqs.dfy`: `unique()` as `Dedup`, plus small facts about sequences, sets
  and maps.
- `indexing.dfy`: team indexing and the comparison list (steps 2 and 3 of
  the source).
- `activity.dfy`: game counts, the eligible teams and the filter (step 4).
- `connectivity.dfy`: the comparison graph, its connected components and the
  largest one (steps 5 and 6). Reachability is defined by paths, and a
  component is computed as a closure.
- `remap.dfy`: the contiguous renumbering (step 7).
- `regularize.dfy`: the win and loss counts and the offsetting comparisons
  (step 8).
- `win_matrix.dfy`: the dense solver's win matrix (part of step 9).
- `projection.dfy`: the mean strength, the probability against the average
  team, the sort and the ranks (steps 10 to 13).
- `pipeline.dfy`: the stages put together into `BradleyTerryRankings`.
- `parse_rankings.dfy`: `parse_rankings_data`.

How the source's operations are represented:

- The loops of the source are methods with loop invariants. Each is proved
  equal to a specification function, and the lemmas state what that
  function means. There is one exception: the `add_edge` loop that builds
  the graph (main.py 95-96). It only fixes the order in which nodes are
  inserted, so it is the recursive function `Connectivity.NodeSequence`.
- The two `choix` solvers and `np.exp` are parameters of the pipeline:
  - A solver returns `None` where it would raise.
  - `OnePerTeam` states the solvers' one promise that the model relies on:
    one log-strength per team.
  - `exp` is any function into the positive reals.
- `strptime`/`strftime` in the parser is a parameter `reformat`, which
  returns `None` where `strptime` would raise.
- An exception that escapes is a `Failure` value: `PipelineError` in the
  pipeline, `ParseError` in the parser.

## Model

| member | source | states |
|---|---|---|
| Seqs.Dedup | functions/bt_modeling/main.py:51 | `unique()` keeps exactly the values of its input, and no more of them than the input has |
| Seqs.DedupIsDistinct | functions/bt_modeling/main.py:51 | `unique()` has no repeated id |
| Seqs.DedupFirstAppearanceOrder | functions/bt_modeling/main.py:51 | `unique()` lists ids in order of their first appearance in the input |
| Seqs.FirstIndex | functions/bt_modeling/main.py:52 | the index of a value is the position of its first occurrence: it holds the value, and no earlier position does |
| Indexing.AllTeams | functions/bt_modeling/main.py:51 | definition of `all_teams` as `Dedup` of the home-then-away ids; its properties are `Seqs.DedupIsDistinct` and `Seqs.DedupFirstAppearanceOrder` |
| Indexing.TeamToIdx | functions/bt_modeling/main.py:52 | definition of `team_to_idx`: each team maps to its position; `Indexing.IndexMapsAreInverse` proves it a bijection onto `0 .. n_teams-1` |
| Indexing.IdxToTeam | functions/bt_modeling/main.py:53 | definition of `idx_to_team`: each position maps to its team; `Indexing.IndexMapsAreInverse` proves it the inverse of `team_to_idx` |
| Indexing.AllIds | functions/bt_modeling/main.py:51 | the concatenation of the home column and the away column: all home ids in game order, then all away ids |
| Indexing.EveryGameTeamIndexed | functions/bt_modeling/main.py:51-63 | both teams of every game have an index, so the lookups at 62-63 never fail |
| Indexing.IndexMapsAreInverse | functions/bt_modeling/main.py:52-54 | `team_to_idx` and `idx_to_team` are inverse bijections between the teams and `0 .. n_teams-1` |
| Indexing.IndicesFollowFirstAppearance | functions/bt_modeling/main.py:51-52 | a team that first appears earlier gets a smaller index |
| Indexing.Outcome | functions/bt_modeling/main.py:62-68 | a game's comparison joins its two teams; the home team is the winner exactly when `home_won == 1` (or the game is a self-match) |
| Indexing.BuildComparisons | functions/bt_modeling/main.py:59-68 | one comparison per game, in game order, each the outcome of its game |
| Activity.TeamsAreEndpoints | functions/bt_modeling/main.py:75-78 | the keys of `team_game_count` are exactly the teams that appear in some comparison |
| Activity.GameCountPositive | functions/bt_modeling/main.py:75-78 | a team has a positive count exactly when it appears in a comparison |
| Activity.CountGames | functions/bt_modeling/main.py:75-78 | the counting loop yields, for each team that appears, its number of appearances as winner plus as loser |
| Activity.GameCounts | functions/bt_modeling/main.py:75-78 | definition of `team_game_count` after its loop, which `Activity.CountGames` is proved to compute; its keys are characterised by `Activity.GameCountPositive` |
| Activity.Eligible | functions/bt_modeling/main.py:81 | definition of `eligible_teams`, characterised by `Activity.EligibleIffEnoughGames` |
| Activity.EligibleIffEnoughGames | functions/bt_modeling/main.py:80-81 | a team is eligible exactly when it played at least `min_games` (4) games |
| Activity.Restrict | functions/bt_modeling/main.py:86-89 | the filter keeps exactly the comparisons whose two teams are both kept |
| Activity.RestrictIsSubseq | functions/bt_modeling/main.py:86-89 | the filter keeps the order of the comparisons |
| Activity.RestrictCount | functions/bt_modeling/main.py:86-89 | a kept comparison keeps all its repetitions, and a dropped one keeps none |
| Connectivity.ReachableSymmetric | functions/bt_modeling/main.py:94-96 | the graph is undirected: reachability is symmetric |
| Connectivity.ReachableTrans | functions/bt_modeling/main.py:94-96 | reachability is transitive |
| Connectivity.Neighbours | functions/bt_modeling/main.py:94-96 | every node adjacent to the set is in the result, and the result contains only nodes of the graph |
| Connectivity.Closure | functions/bt_modeling/main.py:102 | the closure contains its seed, stays within the graph's nodes and is closed under adjacency |
| Connectivity.Component | functions/bt_modeling/main.py:94-102 | definition of a node's connected component as the closure of `{v}`; it contains the node and stays within the graph, and `Connectivity.ComponentIsReachableSet` proves it is exactly the set reachable from the node |
| Connectivity.ComponentIsReachableSet | functions/bt_modeling/main.py:102 | a team is in a node's component exactly when it is reachable from that node |
| Connectivity.SameComponent | functions/bt_modeling/main.py:102 | any member of a component has that same component |
| Connectivity.ComponentClosed | functions/bt_modeling/main.py:112-115 | a comparison has its winner in a component exactly when it has its loser there |
| Connectivity.NodeSequence | functions/bt_modeling/main.py:94-96 | the graph's nodes in insertion order: exactly the teams of the comparisons |
| Connectivity.NodeOrder | functions/bt_modeling/main.py:94-96 | definition of the node order of `G`: each team once, in the order `add_edge` first inserts it; it holds exactly the teams of the comparisons |
| Connectivity.ComponentsFrom | functions/bt_modeling/main.py:102 | definition of the walk of `nx.connected_components`, yielding at most one set per node; `Connectivity.YieldedAreComponents` and `Connectivity.YieldedCoverNodes` state what it yields |
| Connectivity.YieldedAreComponents | functions/bt_modeling/main.py:102 | each listed component is the connected component of a node that was not seen before the walk and lies in none of the earlier listed components |
| Connectivity.YieldedCoverNodes | functions/bt_modeling/main.py:102 | every node lies in some listed component |
| Connectivity.Components | functions/bt_modeling/main.py:102 | definition of `list(nx.connected_components(G))`: a walk over the nodes in insertion order; `Connectivity.YieldedAreComponents` and `Connectivity.YieldedCoverNodes` state what it yields |
| Connectivity.LargestComponent | functions/bt_modeling/main.py:107 | definition of `largest_cc` (`None` where `max` raises); `Connectivity.LargestComponentExists` and `Connectivity.LargestComponentIsMaximal` state its meaning |
| Connectivity.FirstLargest | functions/bt_modeling/main.py:107 | `max(..., key=len)` picks a component of greatest size, the first such |
| Connectivity.LargestComponentExists | functions/bt_modeling/main.py:102-107 | a largest component exists exactly when the filtered comparisons are non-empty; otherwise `max` of no components raises |
| Connectivity.LargestComponentIsMaximal | functions/bt_modeling/main.py:107 | the chosen set is the component of one of the graph's nodes, and no node's component is larger |
| Connectivity.RestrictToComponent | functions/bt_modeling/main.py:112-115 | a comparison touching the component has both ends in it, and the kept comparisons involve exactly the component's teams |
| Connectivity.FinalTeamsAreLargestComponent | functions/bt_modeling/main.py:107-115 | the teams of `final_comparisons` are exactly the largest component |
| Remap.Least | functions/bt_modeling/main.py:120 | the least element of a non-empty set |
| Remap.SortedTeams | functions/bt_modeling/main.py:120 | `sorted(list(largest_cc))` holds exactly the component's teams, each once |
| Remap.SortedTeamsIncreasing | functions/bt_modeling/main.py:120 | `connected_teams` is strictly increasing |
| Remap.NewTeamToIdx | functions/bt_modeling/main.py:121 | definition of `new_team_to_idx`: each old index maps to its position in `connected_teams`, characterised by `Remap.NewIndexIsOrderPreservingBijection` |
| Remap.NewIndexIsOrderPreservingBijection | functions/bt_modeling/main.py:121 | `new_team_to_idx` maps the connected teams one-to-one onto `0 .. k-1`, maps the team at position i to i, and preserves order |
| Remap.IdxToTeamConnected | functions/bt_modeling/main.py:122 | `idx_to_team_connected` is defined on exactly `0 .. k-1` |
| Remap.ConnectedTeamAgrees | functions/bt_modeling/main.py:120-122 | going from a former index to its new index and then through `idx_to_team_connected` gives back the team of the former index |
| Remap.RemapComparisons | functions/bt_modeling/main.py:124 | one remapped comparison per final comparison, with both ends renumbered |
| Remap.RemappedTeams | functions/bt_modeling/main.py:124 | renumbering maps the teams of the final comparisons onto the teams of the remapped ones: each team's new index occurs, and each index that occurs is the new index of some team |
| Remap.RemappedCoversRange | functions/bt_modeling/main.py:124-130 | the remapped comparisons involve exactly the indices `0 .. k-1`, so line 130's maximum is `k-1` |
| Regularize.WinCounts | functions/bt_modeling/main.py:136-140 | definition of `team_wins` as its loop leaves it, which `Regularize.CountResults` is proved to compute; `Regularize.CountKeys` characterises its keys |
| Regularize.LossCounts | functions/bt_modeling/main.py:136-140 | definition of `team_losses` as its loop leaves it, which `Regularize.CountResults` is proved to compute; `Regularize.CountKeys` characterises its keys |
| Regularize.CountKeys | functions/bt_modeling/main.py:136-140 | a team is a key of `team_wins` (`team_losses`) exactly when it won (lost) a comparison |
| Regularize.CountResults | functions/bt_modeling/main.py:136-140 | the counting loop yields the win count and the loss count of every team that appears |
| Regularize.TeamsIn | functions/bt_modeling/main.py:142-144 | the teams below k counted on one side and not on the other |
| Regularize.TeamsInIncreasing | functions/bt_modeling/main.py:142-144 | the selected teams come in ascending order |
| Regularize.OnlyWinning | functions/bt_modeling/main.py:142-143 | `teams_only_winning` holds exactly the teams below k with at least one win and no loss |
| Regularize.OnlyLosing | functions/bt_modeling/main.py:142-144 | `teams_only_losing` holds exactly the teams below k with at least one loss and no win |
| Regularize.LossOffsets | functions/bt_modeling/main.py:157-161 | definition of the appended losses, which `Regularize.AppendLosses` is proved to compute; `Regularize.LossOffsetsOnePerTeam` states its contents |
| Regularize.WinOffsets | functions/bt_modeling/main.py:163-167 | definition of the appended wins, which `Regularize.AppendWins` is proved to compute; `Regularize.WinOffsetsOnePerTeam` states its contents |
| Regularize.Beaten | functions/bt_modeling/main.py:158 | a team's opponents as winner: one per win, each a comparison of the input |
| Regularize.Beaters | functions/bt_modeling/main.py:164 | a team's opponents as loser: one per loss, each a comparison of the input |
| Regularize.FirstBeaten | functions/bt_modeling/main.py:158-160 | `opponents[0]` is the loser of the team's first win |
| Regularize.FirstBeater | functions/bt_modeling/main.py:164-166 | `opponents[0]` is the winner of the team's first loss |
| Regularize.AppendLosses | functions/bt_modeling/main.py:157-161 | the loop appends the offsetting losses to what was already there |
| Regularize.AppendWins | functions/bt_modeling/main.py:163-167 | the loop appends the offsetting wins to what was already there |
| Regularize.Regularize | functions/bt_modeling/main.py:155-167 | the result is the remapped comparisons, then the offsetting losses, then the offsetting wins |
| Regularize.LossOffsetsOnePerTeam | functions/bt_modeling/main.py:157-161 | exactly one loss is added per undefeated team: against the team it first beat |
| Regularize.WinOffsetsOnePerTeam | functions/bt_modeling/main.py:163-167 | exactly one win is added per winless team: against the team that first beat it |
| Regularize.RegularizedLength | functions/bt_modeling/main.py:155-167 | `if opponents:` never skips: one comparison is added per listed team |
| Regularize.RegularizedRecordsAreMixed | functions/bt_modeling/main.py:134-167 | after regularization every team of the component has at least one win and at least one loss |
| Regularize.RegularizedWithinRange | functions/bt_modeling/main.py:155-167 | every regularized comparison stays within `0 .. k-1` |
| WinMatrix.BuildWinMatrix | functions/bt_modeling/main.py:188-190 | cell (w, l) of the fresh k×k matrix counts the comparisons where w beat l |
| WinMatrix.MatrixTotal | functions/bt_modeling/main.py:188-193 | the matrix's cells add up to the number of comparisons |
| Projection.SumPositive | functions/bt_modeling/main.py:203 | a sum of positive strengths is positive |
| Projection.Mean | functions/bt_modeling/main.py:203 | the mean of positive strengths is positive |
| Projection.ProbVsAvg | functions/bt_modeling/main.py:211 | a win probability lies strictly between 0 and 1 |
| Projection.ProbVsAvgMonotone | functions/bt_modeling/main.py:211 | a stronger team has a strictly higher probability against the average team, and the converse |
| Projection.AverageTeamIsEven | functions/bt_modeling/main.py:211 | a team of average strength has probability one half |
| Projection.Records | functions/bt_modeling/main.py:208-216 | definition of `win_probs` as a value, which `Projection.WinProbabilities` is proved to compute; `Projection.RecordsTeamsDistinct` and `Projection.RecordRanked` state its meaning |
| Projection.WinProbabilities | functions/bt_modeling/main.py:203-216 | one row per team in index order, with its id through `idx_to_team_connected`, its strength and `strength / (strength + mean)`; the result is the `Records` value |
| Projection.Insert | functions/bt_modeling/main.py:231 | insertion keeps the rows sorted descending and adds exactly one row |
| Projection.SortByProbDesc | functions/bt_modeling/main.py:231 | the sort is descending in probability and a permutation of the rows |
| Projection.AssignRanks | functions/bt_modeling/main.py:232 | one ranked row per sorted row |
| Projection.Rank | functions/bt_modeling/main.py:231-232 | definition of the sort followed by the rank column, characterised by `Projection.RankingIsOrdered` and `Projection.RankIsRankedTable` |
| Projection.PermutationKeepsTeamsDistinct | functions/bt_modeling/main.py:231 | the sort cannot make a team appear twice: a rearrangement of records with distinct teams has distinct teams |
| Projection.RecordsTeamsDistinct | functions/bt_modeling/main.py:208-216 | `win_probs` built for distinct ids names each team once |
| Projection.RecordRanked | functions/bt_modeling/main.py:208-232 | every record of `win_probs` keeps a row in the sorted table under its team id |
| Projection.RankingIsOrdered | functions/bt_modeling/main.py:231-232 | the ranks are 1 .. n in row order; the ranked rows are a permutation of the input rows; a better rank never has a lower probability |
| Projection.TopRankIsStrongest | functions/bt_modeling/main.py:198-232 | no team is stronger than the team ranked first |
| Projection.RankedRowOrigin | functions/bt_modeling/main.py:231 | every ranked row carries the id, strength and probability of one input row |
| Projection.RankIsRankedTable | functions/bt_modeling/main.py:198-232 | the ranked table has ranks 1 .. n, probabilities in (0, 1) that never increase down the table, and positive strengths bounded by the first row's |
| Pipeline.ComparisonsOf | functions/bt_modeling/main.py:59-68 | one comparison per game |
| Pipeline.CountMatrix | functions/bt_modeling/main.py:188-190 | the win matrix the dense solver receives has one row per team |
| Pipeline.FitLogStrengths | functions/bt_modeling/main.py:175-195 | the sparse solver's answer when it succeeds, else the dense solver's on the win matrix (`Pipeline.Fitted`); it fails exactly when both fail; on success there is one value per team |
| Pipeline.FilteredOf | functions/bt_modeling/main.py:59-89 | definition of `filtered_comparisons` from the games; `Activity.Restrict`, `Activity.EligibleIffEnoughGames` and `Pipeline.ComponentTeamsAreEligible` state its meaning |
| Pipeline.ComponentOf | functions/bt_modeling/main.py:107 | definition of `largest_cc` for the games; `Connectivity.LargestComponentExists` and `Pipeline.ComponentTeamsAreEligible` state its meaning |
| Pipeline.ConnectedTeams | functions/bt_modeling/main.py:120 | definition of `connected_teams`, which `Pipeline.RenumberComponent` is proved to compute; `Remap.SortedTeams` and `Remap.SortedTeamsIncreasing` state its meaning |
| Pipeline.RegularizedComparisons | functions/bt_modeling/main.py:112-167 | definition of `regularized_comparisons` from the filtered comparisons, which `Pipeline.RenumberComponent` is proved to compute; `Pipeline.RegularizedComponentIsMixed`, `Regularize.RegularizedRecordsAreMixed` and `Regularize.RegularizedWithinRange` state its meaning |
| Pipeline.RegularizedComponentIsMixed | functions/bt_modeling/main.py:110-167 | every team of the largest component, under its new index, has at least one win and one loss in `regularized_comparisons` |
| Pipeline.Fitted | functions/bt_modeling/main.py:175-195 | the log-strengths the fit settles on: the sparse solver's answer, or the dense solver's when the sparse one raises; one value per team when there is one |
| Pipeline.Strengths | functions/bt_modeling/main.py:198 | `np.exp(log_params)`: one strength per log-strength, all positive |
| Pipeline.ConnectedIdsDistinct | functions/bt_modeling/main.py:120-122 | distinct new indices name distinct external teams in `idx_to_team_connected` |
| Pipeline.ConnectedTeamRow | functions/bt_modeling/main.py:208-232 | a connected team keeps a row under its external id after the sort |
| Pipeline.ComponentTeamRanked | functions/bt_modeling/main.py:120-232 | every team of the largest component has a row under its id from `idx_to_team` |
| Pipeline.ComponentTeamsRankedOnce | functions/bt_modeling/main.py:120-232 | the table lists every team of the largest component exactly once |
| Pipeline.ComparisonIndicesInRange | functions/bt_modeling/main.py:51-68 | every comparison's indices are below `n_teams` |
| Pipeline.ComponentTeamsAreEligible | functions/bt_modeling/main.py:75-89 | every team left after the filter played at least four games and has an index |
| Pipeline.ComponentTeamsIndexed | functions/bt_modeling/main.py:112-122 | every team of the largest component has an entry in `idx_to_team` |
| Pipeline.ConnectedTeamIsEligible | functions/bt_modeling/main.py:120-122 | each connected team is in the largest component and played at least four games |
| Pipeline.FilterComparisons | functions/bt_modeling/main.py:49-89 | the comparisons between eligible teams, and the index-to-team map |
| Pipeline.RenumberComponent | functions/bt_modeling/main.py:110-167 | the sorted connected teams (as many as the component has, at least one), their id map and the regularized comparisons, all indices below k |
| Pipeline.RowsAtNewIndicesFromComponent | functions/bt_modeling/main.py:120-122 | every team id in the table is the id of an indexed team in the largest component with at least four games |
| Pipeline.RankTeams | functions/bt_modeling/main.py:198-232 | a ranked table whose rows, without ranks, rearrange the `win_probs` records: each new index once, with its id, `exp` of its log-strength and its probability against the mean |
| Pipeline.RankComponent | functions/bt_modeling/main.py:110-232 | no table exactly when both solvers fail; otherwise a ranked table with one row per component team, rearranging the records built from `exp` of the fitted log-strengths (`TableOfFit`) |
| Pipeline.BradleyTerryRankings | functions/bt_modeling/main.py:49-281 | raises for insufficient data exactly when no comparison between eligible teams remains, and fails in the solver exactly when both solvers fail; otherwise reports a ranked table listing every team of the largest component exactly once, each eligible, with `exp` of its fitted log-strength and its probability against the mean, plus the first 25 rows and the three totals |
| ParseRankings.Get | functions/parse_rankings.py:25-35 | definition of `dict.get(key, default)`, used for every defaulted column; `ParseRankings.RankRow` states the resulting values |
| ParseRankings.LatestSeason | functions/parse_rankings.py:6 | definition of `data.get("latestSeason", {})`; `ParseRankings.MissingSeasonOrWeekIsNA` and `ParseRankings.RankRow` state its use |
| ParseRankings.LatestWeek | functions/parse_rankings.py:7 | definition of `data.get("latestWeek", {})`; `ParseRankings.MissingSeasonOrWeekIsNA` and `ParseRankings.RankRow` state its use |
| ParseRankings.Lower | functions/parse_rankings.py:17 | definition of `str.lower()` on ASCII letters |
| ParseRankings.NameMatches | functions/parse_rankings.py:17 | the matching condition `name.lower() in r["name"].lower()`, used by `ParseRankings.FirstMatchIsFound`, `ParseRankings.FoundIsFirstMatch` and `ParseRankings.NotFoundIffNoMatch` |
| ParseRankings.PollRows | functions/parse_rankings.py:17-42 | definition of one poll's outcome, characterised by `ParseRankings.EveryPollRead`, `ParseRankings.PollPresentIffNamed` and `ParseRankings.PollTable` |
| ParseRankings.ParsedPolls | functions/parse_rankings.py:16-42 | definition of `poll_dfs` after the loop over a prefix of the polls, characterised by `ParseRankings.EveryPollRead`, `ParseRankings.KeysArePollKeys` and `ParseRankings.FailureStopsPolls` |
| ParseRankings.Parsed | functions/parse_rankings.py:4-44 | definition of the function's result, which `ParseRankings.ParseRankingsData` is proved to compute; `ParseRankings.ResultKeys`, `ParseRankings.PollPresentIffNamed`, `ParseRankings.PollTable` and `ParseRankings.MissingRankingsRaises` state its meaning |
| ParseRankings.FindPoll | functions/parse_rankings.py:17 | a found poll is the fields of an entry whose name contains the label, ignoring case |
| ParseRankings.FirstMatchIsFound | functions/parse_rankings.py:17 | the first matching entry, with only readable non-matching names before it, is the one found |
| ParseRankings.FoundIsFirstMatch | functions/parse_rankings.py:17 | the poll found is the first matching entry |
| ParseRankings.NotFoundIffNoMatch | functions/parse_rankings.py:17-19 | `None` exactly when every entry has a readable name and none matches |
| ParseRankings.RankRow | functions/parse_rankings.py:24-36 | which inputs raise, in key order; each column's value with its default ("N/A", None, "" or 0); the team name falls back displayName → location → name |
| ParseRankings.RankRows | functions/parse_rankings.py:23-36 | one row per rank entry |
| ParseRankings.RowPerRank | functions/parse_rankings.py:23-36 | the loop succeeds exactly when every entry's row does, and row j is the row of entry j |
| ParseRankings.SamePollOnEveryRow | functions/parse_rankings.py:25-28 | every row carries the same season, week, poll name and date |
| ParseRankings.FailureStopsRows | functions/parse_rankings.py:23-36 | an exception in a row ends the loop with that exception |
| ParseRankings.FlattenRanks | functions/parse_rankings.py:20-36 | the loop yields the rows of the rank entries, or the first exception |
| ParseRankings.ParsePoll | functions/parse_rankings.py:17-42 | one poll's lookup, date conversion and rows, or "not found", or the exception raised |
| ParseRankings.FailureStopsPolls | functions/parse_rankings.py:16-42 | an exception for one poll ends the function with that exception |
| ParseRankings.ParseRankingsData | functions/parse_rankings.py:4-44 | the loop over the polls yields the parsed polls, or the first exception |
| ParseRankings.EveryPollRead | functions/parse_rankings.py:16-42 | on success every poll was read without error, and its key is present exactly when it was found, holding its rows |
| ParseRankings.FreshKeyAbsent | functions/parse_rankings.py:39 | only the polls' own keys are stored |
| ParseRankings.KeysArePollKeys | functions/parse_rankings.py:39 | every stored key is one of the polls' keys |
| ParseRankings.ResultKeys | functions/parse_rankings.py:9-44 | the result's keys are only "AP" and "Coaches" |
| ParseRankings.PollPresentIffNamed | functions/parse_rankings.py:16-42 | on success a poll's key is present exactly when some ranking's name contains its label, ignoring case |
| ParseRankings.PollTable | functions/parse_rankings.py:17-39 | a present poll's table comes from the first matching ranking: one row per rank entry, each that entry's row, all with that poll's short name and converted date |
| ParseRankings.MissingSeasonOrWeekIsNA | functions/parse_rankings.py:6-26 | without `latestSeason` (`latestWeek`) every row's season year (week number) is "N/A" |
| ParseRankings.MissingRankingsRaises | functions/parse_rankings.py:17 | a document without `rankings` raises `KeyError('rankings')` |

## Left out

- Reading the games from MotherDuck, the secret-store token, and writing the
  two tables (main.py 24-47 and 236-261) are not modelled. The same goes for
  the progress `print`s, `md.close()`, and the `updated_at` timestamp taken
  from the clock.
- `choix.ilsr_pairwise`, `choix.ilsr_pairwise_dense` and `np.exp` are
  foreign numerical code. They are parameters. The model assumes only that a
  successful solver returns one value per team, and that `exp` is positive.
- Floating point: strengths and probabilities are exact reals. Rounding,
  overflow to infinity and NaN are not modelled.
- The HTTP shaping of an error (`str(e)`, traceback, status 500) is not
  modelled. The two exceptions the core can raise are named
  `InsufficientData` and `SolverFailure`.
- networkx is not modelled. It is replaced by reachability over paths and a
  closure computation. Components are listed in node-insertion order, which
  is the order `connected_components` yields for a `Graph` built by
  `add_edge`.
- `set(range(k))` is taken to iterate in ascending order, as CPython does
  for small integers.
- Projection.SortByProbDesc: the model proves descending order and a
  permutation. It does not fix how `sort_values` orders rows with equal
  probability, because pandas' default quicksort is not stable.
- The assertion-style check at main.py 130 is not a separate step.
  RemappedCoversRange shows it cannot raise once a component exists.
- `int(team_id)` and `float(...)` at main.py 213-214 are identities here,
  because team ids are modelled as integers.
- The code does not reject a self-match (home id equal to away id). It yields
  one comparison of the team against itself, counted twice for that team,
  and the model does the same.
- `bradley_terry_rankings` has no margin-of-victory weighting and no
  configuration flags: `min_games` is the literal 4 and `alpha` is 0.01, and
  the model uses the same constants.
- ParseRankings.Lower: `str.lower()` is modelled for the ASCII letters only.
  No Unicode case mapping is modelled.
- ParseRankings.PollRows: a `rankings` or `ranks` value that is a dict or a
  string would be iterated by Python. The model treats it as an error
  (`NotAList`).
- JSON numbers are integers in the model, and the DataFrame built from the
  rows is their sequence; pandas column typing is not modelled.
- `strptime`/`strftime` are the `reformat` parameter. The date format itself
  is not modelled.
