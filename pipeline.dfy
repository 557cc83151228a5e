/** `bradley_terry_rankings` without its database and secret-store I/O: the
    pipeline from a list of games to the ranked table, with the foreign
    solvers and `np.exp` passed in as functions. */
module Pipeline {
  import opened Wrappers
  import opened Seqs
  import opened Indexing
  import opened Activity
  import opened Connectivity
  import opened Remap
  import opened Regularize
  import opened WinMatrix
  import opened Projection

  /** The `alpha` both solvers are called with. */
  const Alpha: real := 0.01

  /** Rows returned in the response (`head(25)`). */
  const TopCount: nat := 25

  /** A strictly positive real, what `np.exp` returns. */
  type Positive = r: real | r > 0.0 witness 1.0

  /** `choix.ilsr_pairwise(n_items, comparisons, alpha)`: log-strengths, or
      `None` where it raises. */
  type SparseSolver = (nat, seq<Comparison>, real) -> Option<seq<real>>

  /** `choix.ilsr_pairwise_dense(win_matrix, alpha)`: log-strengths, or `None`
      where it raises. */
  type DenseSolver = (seq<seq<nat>>, real) -> Option<seq<real>>

  /** What the solvers promise when they succeed: one value per team. */
  ghost predicate OnePerTeam(sparse: SparseSolver, dense: DenseSolver) {
    && (forall n, cs, a :: sparse(n, cs, a).Some? ==> |sparse(n, cs, a).value| == n)
    && (forall m, a :: dense(m, a).Some? ==> |dense(m, a).value| == |m|)
  }

  /** Why no rankings were produced: no comparison between eligible teams
      (Python's `max` of no components raises), or both solvers raised. */
  datatype PipelineError = InsufficientData | SolverFailure

  /** The successful response: the full ranked table, its first 25 rows and
      the three totals. */
  datatype Report = Report(
    rankings: seq<RankingRow>,
    top25: seq<RankingRow>,
    totalTeams: nat,
    connectedTeams: nat,
    totalGames: nat)

  /** `comparisons`: one comparison per game under `team_to_idx`. */
  function ComparisonsOf(games: seq<Game>): (cs: seq<Comparison>)
    ensures |cs| == |games|
  {
    EveryGameTeamIndexed(games);
    seq(|games|, i requires 0 <= i < |games| => Outcome(games[i], TeamToIdx(AllTeams(games))))
  }

  /** `filtered_comparisons`: the comparisons between eligible teams. */
  function FilteredOf(games: seq<Game>): seq<Comparison> {
    var cs := ComparisonsOf(games);
    Restrict(cs, Eligible(GameCounts(cs)))
  }

  /** The `k` by `k` matrix of win counts the dense solver receives. */
  function CountMatrix(cs: seq<Comparison>, k: nat): (m: seq<seq<nat>>)
    ensures |m| == k
  {
    seq(k, w requires 0 <= w < k => seq(k, l requires 0 <= l < k => Count(cs, Comparison(w, l))))
  }

  /** The log-strengths step 9 settles on: the sparse solver's answer, or,
      when it raises, the dense solver's on the win matrix; `None` when both
      raise. */
  function Fitted(k: nat, rs: seq<Comparison>, sparse: SparseSolver, dense: DenseSolver): (r: Option<seq<real>>)
    requires OnePerTeam(sparse, dense)
    ensures r.Some? ==> |r.value| == k
  {
    if sparse(k, rs, Alpha).Some? then sparse(k, rs, Alpha) else dense(CountMatrix(rs, k), Alpha)
  }

  /** `np.exp(log_params)`: one strength per log-strength, all positive. */
  function Strengths(logParams: seq<real>, exp: real -> Positive): (s: seq<real>)
    ensures |s| == |logParams| && forall i :: 0 <= i < |s| ==> s[i] > 0.0
  {
    seq(|logParams|, i requires 0 <= i < |logParams| => exp(logParams[i]) as real)
  }

  /** The solver call with its fallback: try the sparse solver; when it
      raises, build the win matrix and use the dense solver instead. */
  method FitLogStrengths(k: nat, regularized: seq<Comparison>, sparse: SparseSolver, dense: DenseSolver)
    returns (logParams: Option<seq<real>>)
    requires forall c :: c in regularized ==> c.winner < k && c.loser < k
    requires OnePerTeam(sparse, dense)
    ensures logParams.Some? ==> |logParams.value| == k
    ensures sparse(k, regularized, Alpha).Some? ==> logParams == sparse(k, regularized, Alpha)
    ensures sparse(k, regularized, Alpha).None? ==> logParams == dense(CountMatrix(regularized, k), Alpha)
    ensures logParams.None? <==>
              sparse(k, regularized, Alpha).None? && dense(CountMatrix(regularized, k), Alpha).None?
    ensures logParams == Fitted(k, regularized, sparse, dense)
  {
    logParams := sparse(k, regularized, Alpha);
    if logParams.None? {
      var winMatrix := BuildWinMatrix(regularized, k);
      var counts := seq(k, w requires 0 <= w < k reads winMatrix =>
        seq(k, l requires 0 <= l < k reads winMatrix => winMatrix[w, l]));
      forall w | 0 <= w < k ensures counts[w] == CountMatrix(regularized, k)[w] {
        assert forall l | 0 <= l < k :: counts[w][l] == Count(regularized, Comparison(w, l));
      }
      assert counts == CountMatrix(regularized, k);
      logParams := dense(counts, Alpha);
    }
  }

  /** Every index a comparison names is below `n_teams`. */
  lemma ComparisonIndicesInRange(games: seq<Game>)
    ensures forall c :: c in ComparisonsOf(games) ==> c.winner < |AllTeams(games)| && c.loser < |AllTeams(games)|
  {
    var teams := AllTeams(games);
    var toIdx := TeamToIdx(teams);
    var cs := ComparisonsOf(games);
    EveryGameTeamIndexed(games);
    DedupIsDistinct(AllIds(games));
    IndexMapsAreInverse(teams);
    forall c | c in cs ensures c.winner < |teams| && c.loser < |teams| {
      var i :| 0 <= i < |cs| && cs[i] == c;
      var g := games[i];
      assert c == Outcome(g, toIdx);
      assert toIdx[g.home] < |teams| && toIdx[g.away] < |teams|;
      assert c.winner in {toIdx[g.home], toIdx[g.away]};
      assert c.loser in {toIdx[g.home], toIdx[g.away]};
    }
  }

  /** A team of the largest component is an eligible team: it played at
      least `MinGames` games. */
  lemma ComponentTeamsAreEligible(games: seq<Game>, t: nat)
    requires t in Teams(FilteredOf(games))
    ensures GameCount(ComparisonsOf(games), t) >= MinGames
    ensures t < |AllTeams(games)|
  {
    var cs := ComparisonsOf(games);
    var filtered := FilteredOf(games);
    TeamsAreEndpoints(filtered, t);
    var c :| c in filtered && (c.winner == t || c.loser == t);
    EligibleIffEnoughGames(cs, t);
    ComparisonIndicesInRange(games);
  }

  /** `largest_cc`, when there is one. */
  function ComponentOf(games: seq<Game>): Option<set<nat>> {
    LargestComponent(FilteredOf(games))
  }

  /** `connected_teams`: the old indices of the largest component of the
      filtered comparisons, in increasing order. */
  function ConnectedTeams(filtered: seq<Comparison>): seq<nat>
    requires LargestComponent(filtered).Some?
  {
    SortedTeams(LargestComponent(filtered).value)
  }

  /** `regularized_comparisons`: the comparisons of the component, with new
      indices, and the offsetting results appended. */
  function RegularizedComparisons(filtered: seq<Comparison>): seq<Comparison>
    requires LargestComponent(filtered).Some?
  {
    var fin := Restrict(filtered, LargestComponent(filtered).value);
    var connected := ConnectedTeams(filtered);
    FinalTeamsAreLargestComponent(filtered);
    SortedTeamsIncreasing(LargestComponent(filtered).value);
    RemappedCoversRange(connected, fin);
    var rs := RemapComparisons(fin, NewTeamToIdx(connected));
    rs + LossOffsets(rs, OnlyWinning(rs, |connected|)) + WinOffsets(rs, OnlyLosing(rs, |connected|))
  }

  /** After regularisation every team of the component, under its new index,
      has at least one win and at least one loss. */
  lemma RegularizedComponentIsMixed(filtered: seq<Comparison>)
    requires LargestComponent(filtered).Some?
    ensures forall t: nat :: t < |ConnectedTeams(filtered)| ==>
              Wins(RegularizedComparisons(filtered), t) > 0 && Losses(RegularizedComparisons(filtered), t) > 0
  {
    var fin := Restrict(filtered, LargestComponent(filtered).value);
    var connected := ConnectedTeams(filtered);
    FinalTeamsAreLargestComponent(filtered);
    SortedTeamsIncreasing(LargestComponent(filtered).value);
    RemappedCoversRange(connected, fin);
    var rs := RemapComparisons(fin, NewTeamToIdx(connected));
    MixedAfterOffsets(RegularizedComparisons(filtered), rs, |connected|);
  }

  /** `RegularizedRecordsAreMixed` for a sequence known to be `rs` with its
      offsets appended. */
  lemma MixedAfterOffsets(regularized: seq<Comparison>, rs: seq<Comparison>, k: nat)
    requires forall t: nat :: t in Teams(rs) <==> t < k
    requires regularized == rs + LossOffsets(rs, OnlyWinning(rs, k)) + WinOffsets(rs, OnlyLosing(rs, k))
    ensures forall t: nat :: t < k ==> Wins(regularized, t) > 0 && Losses(regularized, t) > 0
  {
    RegularizedRecordsAreMixed(rs, k);
  }

  /** Every team of the largest component has an entry in `idx_to_team`. */
  lemma ComponentTeamsIndexed(games: seq<Game>)
    requires ComponentOf(games).Some?
    ensures forall t :: t in ComponentOf(games).value ==> t in IdxToTeam(AllTeams(games))
  {
    FinalTeamsAreLargestComponent(FilteredOf(games));
    DedupIsDistinct(AllIds(games));
    IndexMapsAreInverse(AllTeams(games));
    forall t | t in ComponentOf(games).value ensures t < |AllTeams(games)| {
      ComponentTeamsAreEligible(games, t);
    }
  }

  /** The team at a new index is a team of the largest component that
      played at least `MinGames` games, and its original index is the one
      the new index replaced. */
  lemma ConnectedTeamIsEligible(games: seq<Game>, j: nat)
    requires ComponentOf(games).Some? && j < |ConnectedTeams(FilteredOf(games))|
    ensures var former := ConnectedTeams(FilteredOf(games))[j];
            && former in ComponentOf(games).value
            && former in IdxToTeam(AllTeams(games))
            && IdxToTeam(AllTeams(games))[former] in TeamToIdx(AllTeams(games))
            && TeamToIdx(AllTeams(games))[IdxToTeam(AllTeams(games))[former]] == former
            && GameCount(ComparisonsOf(games), former) >= MinGames
  {
    var connected := ConnectedTeams(FilteredOf(games));
    assert connected[j] in connected;
    FinalTeamsAreLargestComponent(FilteredOf(games));
    DedupIsDistinct(AllIds(games));
    IndexMapsAreInverse(AllTeams(games));
    ComponentTeamsAreEligible(games, connected[j]);
  }

  /** Steps 2 to 4: index the teams, one comparison per game, and keep the
      comparisons between teams with at least `MinGames` games. */
  method FilterComparisons(games: seq<Game>) returns (filtered: seq<Comparison>, idxToTeam: map<nat, TeamId>)
    ensures filtered == FilteredOf(games)
    ensures idxToTeam == IdxToTeam(AllTeams(games))
  {
    var teams := AllTeams(games);
    var teamToIdx := TeamToIdx(teams);
    idxToTeam := IdxToTeam(teams);
    EveryGameTeamIndexed(games);
    var comparisons := BuildComparisons(games, teamToIdx);
    assert comparisons == ComparisonsOf(games);
    var teamGameCount := CountGames(comparisons);
    var eligibleTeams := Eligible(teamGameCount);
    filtered := Restrict(comparisons, eligibleTeams);
  }

  /** Steps 6 to 8: keep the comparisons of the largest component, renumber
      its teams from zero in increasing order of old index, and offset
      perfect records. */
  method RenumberComponent(filtered: seq<Comparison>, idxToTeam: map<nat, TeamId>)
    returns (connected: seq<nat>, idxToTeamConnected: map<nat, TeamId>, regularized: seq<Comparison>)
    requires LargestComponent(filtered).Some?
    requires forall t :: t in LargestComponent(filtered).value ==> t in idxToTeam
    ensures connected == ConnectedTeams(filtered) && regularized == RegularizedComparisons(filtered)
    ensures |connected| == |LargestComponent(filtered).value| > 0
    ensures forall t :: t in connected ==> t in idxToTeam
    ensures idxToTeamConnected == IdxToTeamConnected(connected, idxToTeam)
    ensures forall c :: c in regularized ==> c.winner < |connected| && c.loser < |connected|
  {
    var largestCc := LargestComponent(filtered).value;
    var finalComparisons := Restrict(filtered, largestCc);
    connected := SortedTeams(largestCc);
    var k := |connected|;
    assert k > 0 && forall t :: t in Teams(finalComparisons) <==> t in connected by {
      FinalTeamsAreLargestComponent(filtered);
    }
    var newTeamToIdx := NewTeamToIdx(connected);
    idxToTeamConnected := IdxToTeamConnected(connected, idxToTeam);
    SortedTeamsIncreasing(largestCc);
    RemappedCoversRange(connected, finalComparisons);
    var remapped := RemapComparisons(finalComparisons, newTeamToIdx);
    forall c | c in remapped ensures c.winner < k && c.loser < k {
      TeamsAreEndpoints(remapped, c.winner);
      TeamsAreEndpoints(remapped, c.loser);
    }
    regularized := Regularize.Regularize(remapped, k);
    RegularizedWithinRange(remapped, k);
  }

  /** Every row names a team of the largest component that played at least
      `MinGames` games. */
  ghost predicate RowsFromComponent(games: seq<Game>, rows: seq<RankingRow>)
    requires ComponentOf(games).Some?
  {
    forall i :: 0 <= i < |rows| ==>
      var t := rows[i].teamId;
      && t in TeamToIdx(AllTeams(games))
      && TeamToIdx(AllTeams(games))[t] in ComponentOf(games).value
      && GameCount(ComparisonsOf(games), TeamToIdx(AllTeams(games))[t]) >= MinGames
  }

  /** Rows whose teams sit at new indices of the largest component come from
      that component. */
  lemma RowsAtNewIndicesFromComponent(games: seq<Game>, idxToTeamConnected: map<nat, TeamId>, rows: seq<RankingRow>)
    requires ComponentOf(games).Some?
    requires forall t :: t in ConnectedTeams(FilteredOf(games)) ==> t in IdxToTeam(AllTeams(games))
    requires idxToTeamConnected == IdxToTeamConnected(ConnectedTeams(FilteredOf(games)), IdxToTeam(AllTeams(games)))
    requires forall i :: 0 <= i < |rows| ==> rows[i].teamId in idxToTeamConnected.Values
    ensures RowsFromComponent(games, rows)
  {
    forall i | 0 <= i < |rows|
      ensures var t := rows[i].teamId;
              && t in TeamToIdx(AllTeams(games))
              && TeamToIdx(AllTeams(games))[t] in ComponentOf(games).value
              && GameCount(ComparisonsOf(games), TeamToIdx(AllTeams(games))[t]) >= MinGames
    {
      var j := KeyOf(idxToTeamConnected, rows[i].teamId);
      ConnectedTeamIsEligible(games, j);
    }
  }

  /** Each team of the largest component has exactly one row: no two rows
      name the same team, and every component team's id is named. */
  ghost predicate EveryComponentTeamOnce(games: seq<Game>, rows: seq<RankingRow>)
    requires ComponentOf(games).Some?
  {
    && (forall i, j :: 0 <= i < j < |rows| ==> rows[i].teamId != rows[j].teamId)
    && forall t :: t in ComponentOf(games).value ==>
         && t in IdxToTeam(AllTeams(games))
         && exists i :: 0 <= i < |rows| && rows[i].teamId == IdxToTeam(AllTeams(games))[t]
  }

  /** The table is `win_probs` for the fitted log-strengths, rearranged:
      without their ranks, the rows are the records of the connected teams,
      each with `exp` of its fitted log-strength and its probability against
      the mean, every record as often as in `win_probs`. */
  ghost predicate TableOfFit(filtered: seq<Comparison>, idxToTeam: map<nat, TeamId>, rows: seq<RankingRow>,
                             sparse: SparseSolver, dense: DenseSolver, exp: real -> Positive)
    requires OnePerTeam(sparse, dense)
    requires LargestComponent(filtered).Some?
  {
    var k, rs := |LargestComponent(filtered).value|, RegularizedComparisons(filtered);
    && Fitted(k, rs, sparse, dense).Some?
    && RearrangesRecords(rows, Strengths(Fitted(k, rs, sparse, dense).value, exp), ConnectedTeams(filtered), idxToTeam)
  }

  /** Without their ranks, `rows` rearrange the records of the connected
      teams: one per team, with its strength and its probability against the
      mean, each as often as in `win_probs`. */
  ghost predicate RearrangesRecords(rows: seq<RankingRow>, strengths: seq<real>, connected: seq<nat>, idxToTeam: map<nat, TeamId>) {
    && |strengths| == |connected|
    && (forall j :: 0 <= j < |strengths| ==> strengths[j] > 0.0)
    && (forall t :: t in connected ==> t in idxToTeam)
    && multiset(Unranked(rows)) == multiset(Records(strengths, IdxToTeamConnected(connected, idxToTeam)))
  }

  /** Distinct component indices name distinct external teams: the
      connected teams are increasing and `all_teams` has no repeats. */
  lemma ConnectedIdsDistinct(connected: seq<nat>, teams: seq<TeamId>)
    requires StrictlyIncreasing(connected) && Distinct(teams)
    requires forall t :: t in connected ==> t in IdxToTeam(teams)
    ensures forall p, q :: 0 <= p < q < |connected| ==>
              IdxToTeamConnected(connected, IdxToTeam(teams))[p] != IdxToTeamConnected(connected, IdxToTeam(teams))[q]
  {
    forall p, q | 0 <= p < q < |connected|
      ensures IdxToTeamConnected(connected, IdxToTeam(teams))[p] != IdxToTeamConnected(connected, IdxToTeam(teams))[q]
    {
      ConnectedIdPair(connected, teams, p, q);
    }
  }

  lemma ConnectedIdPair(connected: seq<nat>, teams: seq<TeamId>, p: nat, q: nat)
    requires StrictlyIncreasing(connected) && Distinct(teams)
    requires forall t :: t in connected ==> t in IdxToTeam(teams)
    requires p < q < |connected|
    ensures IdxToTeamConnected(connected, IdxToTeam(teams))[p] != IdxToTeamConnected(connected, IdxToTeam(teams))[q]
  {
    var a, b := connected[p], connected[q];
    assert a in IdxToTeam(teams) && b in IdxToTeam(teams);
    assert a < b < |teams|;
    assert IdxToTeamConnected(connected, IdxToTeam(teams))[p] == teams[a];
    assert IdxToTeamConnected(connected, IdxToTeam(teams))[q] == teams[b];
  }

  /** The row a rearrangement of the connected teams' records gives to a team
      of the largest component. */
  lemma ComponentTeamRanked(games: seq<Game>, rows: seq<RankingRow>, strengths: seq<real>, t: nat)
    returns (i: nat)
    requires ComponentOf(games).Some? && t in ComponentOf(games).value
    requires RearrangesRecords(rows, strengths, ConnectedTeams(FilteredOf(games)), IdxToTeam(AllTeams(games)))
    ensures t in IdxToTeam(AllTeams(games)) && i < |rows| && rows[i].teamId == IdxToTeam(AllTeams(games))[t]
  {
    var connected := ConnectedTeams(FilteredOf(games));
    assert t in connected;
    i := ConnectedTeamRow(rows, strengths, connected, IdxToTeam(AllTeams(games)), t);
  }

  /** In a rearrangement of the records of the connected teams, a connected
      team has a row under its external id. */
  lemma ConnectedTeamRow(rows: seq<RankingRow>, strengths: seq<real>, connected: seq<nat>,
                         idxToTeam: map<nat, TeamId>, t: nat) returns (i: nat)
    requires t in connected && RearrangesRecords(rows, strengths, connected, idxToTeam)
    ensures i < |rows| && rows[i].teamId == idxToTeam[t]
  {
    var p := FirstIndex(connected, t);
    i := RecordRanked(rows, strengths, IdxToTeamConnected(connected, idxToTeam), p);
  }

  /** A rearrangement of the records of the connected teams lists every team
      of the largest component exactly once. */
  lemma ComponentTeamsRankedOnce(games: seq<Game>, rows: seq<RankingRow>, strengths: seq<real>)
    requires ComponentOf(games).Some?
    requires RearrangesRecords(rows, strengths, ConnectedTeams(FilteredOf(games)), IdxToTeam(AllTeams(games)))
    ensures EveryComponentTeamOnce(games, rows)
  {
    var connected := ConnectedTeams(FilteredOf(games));
    var ids := IdxToTeamConnected(connected, IdxToTeam(AllTeams(games)));
    var records := Records(strengths, ids);
    SortedTeamsIncreasing(ComponentOf(games).value);
    DedupIsDistinct(AllIds(games));
    ConnectedIdsDistinct(connected, AllTeams(games));
    RecordsTeamsDistinct(strengths, ids);
    PermutationKeepsTeamsDistinct(Unranked(rows), records);
    forall i, j | 0 <= i < j < |rows| ensures rows[i].teamId != rows[j].teamId {
      assert Unranked(rows)[i].teamId == rows[i].teamId && Unranked(rows)[j].teamId == rows[j].teamId;
    }
    forall t | t in ComponentOf(games).value
      ensures t in IdxToTeam(AllTeams(games))
              && exists i :: 0 <= i < |rows| && rows[i].teamId == IdxToTeam(AllTeams(games))[t]
    {
      var i := ComponentTeamRanked(games, rows, strengths, t);
    }
  }

  /** Steps 10 to 13 for a successful fit: strengths, probabilities against
      the average team and ranks, one row per new index. */
  method RankTeams(idxToTeamConnected: map<nat, TeamId>, logParams: seq<real>, exp: real -> Positive)
    returns (rankings: seq<RankingRow>)
    requires |logParams| > 0
    requires forall i :: 0 <= i < |logParams| ==> i in idxToTeamConnected
    ensures |rankings| == |logParams| && RankedTable(rankings)
    ensures forall i :: 0 <= i < |rankings| ==> rankings[i].teamId in idxToTeamConnected.Values
    ensures multiset(Unranked(rankings)) == multiset(Records(Strengths(logParams, exp), idxToTeamConnected))
  {
    var k := |logParams|;
    var strengths := Strengths(logParams, exp);
    var winProbs := WinProbabilities(strengths, idxToTeamConnected);
    rankings := Rank(winProbs);
    RankIsRankedTable(winProbs, Mean(strengths));
    RankingIsOrdered(winProbs);
    forall i | 0 <= i < k ensures rankings[i].teamId in idxToTeamConnected.Values {
      var j := RankedRowOrigin(winProbs, i);
    }
  }

  /** Steps 6 to 13 once a largest component exists: `None` exactly when
      both solvers raise, otherwise one row per team of the component,
      ranked by probability against the average team. */
  method RankComponent(filtered: seq<Comparison>, idxToTeam: map<nat, TeamId>,
                       sparse: SparseSolver, dense: DenseSolver, exp: real -> Positive)
    returns (rankings: Option<seq<RankingRow>>)
    requires OnePerTeam(sparse, dense)
    requires LargestComponent(filtered).Some?
    requires forall t :: t in LargestComponent(filtered).value ==> t in idxToTeam
    ensures rankings.None? <==>
              var k, rs := |LargestComponent(filtered).value|, RegularizedComparisons(filtered);
              sparse(k, rs, Alpha).None? && dense(CountMatrix(rs, k), Alpha).None?
    ensures rankings.Some? ==>
              && |rankings.value| == |LargestComponent(filtered).value|
              && RankedTable(rankings.value)
              && forall t :: t in ConnectedTeams(filtered) ==> t in idxToTeam
    ensures rankings.Some? ==>
              forall i :: 0 <= i < |rankings.value| ==>
                rankings.value[i].teamId in IdxToTeamConnected(ConnectedTeams(filtered), idxToTeam).Values
    ensures rankings.Some? ==> TableOfFit(filtered, idxToTeam, rankings.value, sparse, dense, exp)
  {
    var connected, idxToTeamConnected, regularized := RenumberComponent(filtered, idxToTeam);
    var k := |connected|;

    // Step 9: fit the log-strengths.
    var logParams := FitLogStrengths(k, regularized, sparse, dense);
    if logParams.None? {
      return None;
    }

    // Steps 10 to 13.
    var rows := RankTeams(idxToTeamConnected, logParams.value, exp);
    return Some(rows);
  }

  /** The whole function body between reading the games and writing the
      tables: it fails with `InsufficientData` exactly when no comparison
      between eligible teams is left, with `SolverFailure` exactly when both
      solvers raise, and otherwise returns one row per team of the largest
      component, ranked by probability against the average team. */
  method BradleyTerryRankings(games: seq<Game>, sparse: SparseSolver, dense: DenseSolver, exp: real -> Positive)
    returns (result: Result<Report, PipelineError>)
    requires OnePerTeam(sparse, dense)
    ensures result == Failure(InsufficientData) <==> FilteredOf(games) == []
    ensures result == Failure(SolverFailure) <==>
              && ComponentOf(games).Some?
              && var k, rs := |ComponentOf(games).value|, RegularizedComparisons(FilteredOf(games));
                 sparse(k, rs, Alpha).None? && dense(CountMatrix(rs, k), Alpha).None?
    ensures result.Success? ==>
              && ComponentOf(games).Some?
              && result.value.connectedTeams == |ComponentOf(games).value| == |result.value.rankings|
              && result.value.totalTeams == |AllTeams(games)|
              && result.value.totalGames == |games|
              && result.value.top25 == result.value.rankings[..if |result.value.rankings| < TopCount then |result.value.rankings| else TopCount]
    ensures result.Success? ==>
              && RankedTable(result.value.rankings)
              && RowsFromComponent(games, result.value.rankings)
              && EveryComponentTeamOnce(games, result.value.rankings)
              && TableOfFit(FilteredOf(games), IdxToTeam(AllTeams(games)), result.value.rankings, sparse, dense, exp)
  {
    var filtered, idxToTeam := FilterComparisons(games);

    // Step 5: the largest connected component; `max` of no components raises.
    var largest := LargestComponent(filtered);
    assert largest.Some? <==> filtered != [] by {
      LargestComponentExists(filtered);
    }
    if largest.None? {
      return Failure(InsufficientData);
    }
    ComponentTeamsIndexed(games);
    var rankings := RankComponent(filtered, idxToTeam, sparse, dense, exp);
    if rankings.None? {
      return Failure(SolverFailure);
    }
    RowsAtNewIndicesFromComponent(games, IdxToTeamConnected(ConnectedTeams(filtered), idxToTeam), rankings.value);
    ComponentTeamsRankedOnce(games, rankings.value,
      Strengths(Fitted(|largest.value|, RegularizedComparisons(filtered), sparse, dense).value, exp));

    // Step 15: the response.
    var k := |rankings.value|;
    var top := rankings.value[..if k < TopCount then k else TopCount];
    return Success(Report(rankings.value, top, |AllTeams(games)|, k, |games|));
  }
}
