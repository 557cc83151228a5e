/** Steps 2 and 3 of `bradley_terry_rankings`: dense team indices and the list
    of directed (winner, loser) comparisons, one per game. */
module Indexing {
  import opened Seqs

  /** External team identifier (`home_team_id` / `away_team_id`). */
  type TeamId = int

  /** One row of `ncaa.bt.pairwise_comparisons`. */
  datatype Game = Game(home: TeamId, away: TeamId, homeWon: int)

  /** A directed comparison between dense indices: `winner` beat `loser`. */
  datatype Comparison = Comparison(winner: nat, loser: nat)

  /** `pd.concat([df['home_team_id'], df['away_team_id']])`: every home id, in
      game order, followed by every away id. */
  function AllIds(games: seq<Game>): (ids: seq<TeamId>)
    ensures |ids| == 2 * |games|
    ensures forall i :: 0 <= i < |games| ==> ids[i] == games[i].home && ids[|games| + i] == games[i].away
  {
    seq(|games|, i requires 0 <= i < |games| => games[i].home)
      + seq(|games|, i requires 0 <= i < |games| => games[i].away)
  }

  /** `all_teams`: the distinct team ids in first-appearance order. */
  function AllTeams(games: seq<Game>): seq<TeamId> {
    Dedup(AllIds(games))
  }

  /** `team_to_idx`: each team id maps to its position in `teams`. */
  function TeamToIdx(teams: seq<TeamId>): map<TeamId, nat> {
    map t | t in teams :: FirstIndex(teams, t)
  }

  /** `idx_to_team`: each index maps back to the team at that position. */
  function IdxToTeam(teams: seq<TeamId>): map<nat, TeamId> {
    map i | 0 <= i < |teams| :: teams[i]
  }

  /** Every team id of every game receives an index. */
  lemma EveryGameTeamIndexed(games: seq<Game>)
    ensures forall g :: g in games ==> g.home in TeamToIdx(AllTeams(games)) && g.away in TeamToIdx(AllTeams(games))
  {
    var ids := AllIds(games);
    forall g | g in games ensures g.home in ids && g.away in ids {
      var i :| 0 <= i < |games| && games[i] == g;
      assert ids[i] == g.home && ids[|games| + i] == g.away;
    }
  }

  /** `team_to_idx` and `idx_to_team` are mutually inverse bijections between
      the distinct team ids and `0..n_teams-1`. */
  lemma IndexMapsAreInverse(teams: seq<TeamId>)
    requires Distinct(teams)
    ensures forall t :: t in TeamToIdx(teams) ==>
              TeamToIdx(teams)[t] < |teams| && IdxToTeam(teams)[TeamToIdx(teams)[t]] == t
    ensures forall i :: i in IdxToTeam(teams) <==> 0 <= i < |teams|
    ensures forall i :: 0 <= i < |teams| ==>
              IdxToTeam(teams)[i] in TeamToIdx(teams) && TeamToIdx(teams)[IdxToTeam(teams)[i]] == i
  {
    var toIdx, toTeam := TeamToIdx(teams), IdxToTeam(teams);
    forall i | 0 <= i < |teams| ensures toTeam[i] in toIdx && toIdx[toTeam[i]] == i {
      var f := FirstIndex(teams, teams[i]);
      assert f == i;
    }
  }

  /** Numbering follows first appearance: a lower index belongs to a team
      that shows up earlier in the home-then-away id list. */
  lemma IndicesFollowFirstAppearance(games: seq<Game>, t1: TeamId, t2: TeamId)
    requires t1 in TeamToIdx(AllTeams(games)) && t2 in TeamToIdx(AllTeams(games))
    ensures TeamToIdx(AllTeams(games))[t1] < TeamToIdx(AllTeams(games))[t2]
            <==> FirstIndex(AllIds(games), t1) < FirstIndex(AllIds(games), t2)
  {
    var teams := AllTeams(games);
    var i, j := FirstIndex(teams, t1), FirstIndex(teams, t2);
    assert teams[i] == t1 && teams[j] == t2;
    if i < j {
      DedupFirstAppearanceOrder(AllIds(games), i, j);
    } else if j < i {
      DedupFirstAppearanceOrder(AllIds(games), j, i);
    }
  }

  /** The comparison a single game yields: `(home, away)` when `home_won == 1`,
      and `(away, home)` for any other value. It involves exactly the game's
      two teams, and the home team wins precisely when `home_won == 1` (or the
      game is a self-match). */
  function Outcome(g: Game, toIdx: map<TeamId, nat>): (c: Comparison)
    requires g.home in toIdx && g.away in toIdx
    ensures {c.winner, c.loser} == {toIdx[g.home], toIdx[g.away]}
    ensures c.winner == toIdx[g.home] <==> g.homeWon == 1 || toIdx[g.home] == toIdx[g.away]
    ensures c.loser == toIdx[g.away] <==> g.homeWon == 1 || toIdx[g.home] == toIdx[g.away]
  {
    if g.homeWon == 1 then Comparison(toIdx[g.home], toIdx[g.away])
    else Comparison(toIdx[g.away], toIdx[g.home])
  }

  /** The loop at the start of the pipeline: one comparison appended per
      game, in game order. */
  method BuildComparisons(games: seq<Game>, toIdx: map<TeamId, nat>) returns (comparisons: seq<Comparison>)
    requires forall g :: g in games ==> g.home in toIdx && g.away in toIdx
    ensures |comparisons| == |games|
    ensures forall i :: 0 <= i < |games| ==> comparisons[i] == Outcome(games[i], toIdx)
  {
    comparisons := [];
    for i := 0 to |games|
      invariant |comparisons| == i
      invariant forall j :: 0 <= j < i ==> comparisons[j] == Outcome(games[j], toIdx)
    {
      var row := games[i];
      var homeIdx := toIdx[row.home];
      var awayIdx := toIdx[row.away];
      if row.homeWon == 1 {
        comparisons := comparisons + [Comparison(homeIdx, awayIdx)];
      } else {
        comparisons := comparisons + [Comparison(awayIdx, homeIdx)];
      }
    }
  }
}
