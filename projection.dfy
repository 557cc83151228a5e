/** Steps 10 to 13 of `bradley_terry_rankings`: the probability of beating an
    average team, the descending sort and the ranks `1..N`. */
module Projection {
  import opened Seqs
  import opened Indexing

  /** Sum of a sequence of reals. */
  function Sum(s: seq<real>): real {
    if |s| == 0 then 0.0 else Sum(s[..|s| - 1]) + s[|s| - 1]
  }

  /** A non-empty sum of positive strengths is positive. */
  lemma {:induction false} SumPositive(s: seq<real>)
    requires |s| > 0
    ensures (forall i :: 0 <= i < |s| ==> s[i] > 0.0) ==> Sum(s) > 0.0
  {
    if |s| > 1 {
      SumPositive(s[..|s| - 1]);
    }
  }

  /** `np.mean(strengths)`; positive when every strength is. */
  function Mean(s: seq<real>): (m: real)
    requires |s| > 0
    ensures (forall i :: 0 <= i < |s| ==> s[i] > 0.0) ==> m > 0.0
  {
    SumPositive(s);
    Sum(s) / (|s| as real)
  }

  /** `prob_vs_avg = strength / (strength + avg_strength)`: the model's
      probability of beating a team of average strength, strictly between
      0 and 1 for positive strengths. */
  function ProbVsAvg(strength: real, avg: real): (p: real)
    requires strength > 0.0 && avg > 0.0
    ensures 0.0 < p < 1.0
  {
    strength / (strength + avg)
  }

  /** The probability is strictly increasing in the strength, so it orders
      teams exactly as their strengths do. */
  lemma ProbVsAvgMonotone(s1: real, s2: real, avg: real)
    requires s1 > 0.0 && s2 > 0.0 && avg > 0.0
    ensures s1 < s2 <==> ProbVsAvg(s1, avg) < ProbVsAvg(s2, avg)
  {
    var p1, p2 := ProbVsAvg(s1, avg), ProbVsAvg(s2, avg);
    var d1, d2 := s1 + avg, s2 + avg;
    assert p1 * d1 == s1 && p2 * d2 == s2;
    assert (p2 - p1) * (d1 * d2) == s2 * d1 - s1 * d2;
    assert s2 * d1 - s1 * d2 == avg * (s2 - s1);
    assert (p2 - p1) * (d1 * d2) == (s2 - s1) * avg;
    SignOfProduct(s1 + avg, s2 + avg);
    SignOfProduct(p2 - p1, d1 * d2);
    SignOfProduct(s2 - s1, avg);
  }

  lemma SignOfProduct(x: real, d: real)
    requires d > 0.0
    ensures x * d > 0.0 <==> x > 0.0
    ensures x * d == 0.0 <==> x == 0.0
  {
  }

  /** A team exactly as strong as the average wins against it half the time. */
  lemma AverageTeamIsEven(avg: real)
    requires avg > 0.0
    ensures ProbVsAvg(avg, avg) == 0.5
  {
  }

  /** One record of `win_probs`. */
  datatype WinProb = WinProb(teamId: TeamId, strength: real, probVsAvg: real)

  /** One row of the final table (the timestamp column is not modelled). */
  datatype RankingRow = RankingRow(teamId: TeamId, rank: nat, strength: real, probVsAvg: real)

  /** Steps 10 and 11: the average strength, then one record per team,
      appended in index order. */
  method WinProbabilities(strengths: seq<real>, idxToTeamConnected: map<nat, TeamId>) returns (winProbs: seq<WinProb>)
    requires |strengths| > 0 && forall i :: 0 <= i < |strengths| ==> strengths[i] > 0.0
    requires forall i :: 0 <= i < |strengths| ==> i in idxToTeamConnected
    ensures |winProbs| == |strengths|
    ensures forall i :: 0 <= i < |strengths| ==>
              && winProbs[i].teamId == idxToTeamConnected[i]
              && winProbs[i].strength == strengths[i]
              && winProbs[i].probVsAvg == ProbVsAvg(strengths[i], Mean(strengths))
    ensures winProbs == Records(strengths, idxToTeamConnected)
  {
    var avgStrength := Mean(strengths);
    winProbs := [];
    for newIdx := 0 to |strengths|
      invariant |winProbs| == newIdx
      invariant forall i :: 0 <= i < newIdx ==>
                  && winProbs[i].teamId == idxToTeamConnected[i]
                  && winProbs[i].strength == strengths[i]
                  && winProbs[i].probVsAvg == ProbVsAvg(strengths[i], avgStrength)
    {
      var strength := strengths[newIdx];
      var teamId := idxToTeamConnected[newIdx];
      var probVsAvg := strength / (strength + avgStrength);
      winProbs := winProbs + [WinProb(teamId, strength, probVsAvg)];
    }
  }

  /** `win_probs` as a value: record `i` names team `ids[i]`, with strength
      `strengths[i]` and its probability against the mean strength. */
  function Records(strengths: seq<real>, ids: map<nat, TeamId>): seq<WinProb>
    requires forall i :: 0 <= i < |strengths| ==> strengths[i] > 0.0 && i in ids
  {
    if |strengths| == 0 then []
    else
      seq(|strengths|, i requires 0 <= i < |strengths| =>
        WinProb(ids[i], strengths[i], ProbVsAvg(strengths[i], Mean(strengths))))
  }

  /** The records a table was ranked from: each row without its rank. */
  function Unranked(rows: seq<RankingRow>): seq<WinProb> {
    seq(|rows|, i requires 0 <= i < |rows| => WinProb(rows[i].teamId, rows[i].strength, rows[i].probVsAvg))
  }

  /** No team has two records. */
  predicate TeamsDistinct(records: seq<WinProb>) {
    forall i, j :: 0 <= i < j < |records| ==> records[i].teamId != records[j].teamId
  }

  /** In records of distinct teams, no record occurs twice. */
  lemma {:induction false} DistinctTeamsOccurOnce(records: seq<WinProb>, x: WinProb)
    requires TeamsDistinct(records)
    ensures multiset(records)[x] <= 1
  {
    if |records| > 0 {
      var last := records[|records| - 1];
      var p := records[..|records| - 1];
      assert records == p + [last];
      assert TeamsDistinct(p) by {
        forall i, j | 0 <= i < j < |p| ensures p[i].teamId != p[j].teamId {
          assert p[i] == records[i] && p[j] == records[j];
        }
      }
      DistinctTeamsOccurOnce(p, x);
      assert last !in p by {
        forall k | 0 <= k < |p| ensures p[k] != last {
          assert p[k] == records[k];
        }
      }
    }
  }

  /** Two equal positions make their record occur at least twice. */
  lemma EqualPositionsCountTwice(s: seq<WinProb>, i: nat, j: nat)
    requires i < j < |s|
    ensures s[i] == s[j] ==> multiset(s)[s[i]] >= 2
  {
    assert s == s[..j] + s[j..];
    assert s[i] == s[..j][i] && s[j] == s[j..][0];
  }

  /** A rearrangement of records of distinct teams has distinct teams too. */
  lemma PermutationKeepsTeamsDistinct(rows: seq<WinProb>, records: seq<WinProb>)
    requires multiset(rows) == multiset(records) && TeamsDistinct(records)
    ensures TeamsDistinct(rows)
  {
    forall i, j | 0 <= i < j < |rows| ensures rows[i].teamId != rows[j].teamId {
      assert rows[i] in multiset(records) && rows[j] in multiset(records);
      var p :| 0 <= p < |records| && records[p] == rows[i];
      var q :| 0 <= q < |records| && records[q] == rows[j];
      EqualPositionsCountTwice(rows, i, j);
      DistinctTeamsOccurOnce(records, rows[i]);
      assert p != q;
    }
  }

  /** Records built for distinct ids name distinct teams. */
  lemma RecordsTeamsDistinct(strengths: seq<real>, ids: map<nat, TeamId>)
    requires forall i :: 0 <= i < |strengths| ==> strengths[i] > 0.0 && i in ids
    requires forall p, q :: 0 <= p < q < |strengths| ==> ids[p] != ids[q]
    ensures TeamsDistinct(Records(strengths, ids))
  {
  }

  /** In a rearrangement of the records, the team at position `p` of `ids`
      has a row. */
  lemma RecordRanked(rows: seq<RankingRow>, strengths: seq<real>, ids: map<nat, TeamId>, p: nat) returns (i: nat)
    requires forall i :: 0 <= i < |strengths| ==> strengths[i] > 0.0 && i in ids
    requires multiset(Unranked(rows)) == multiset(Records(strengths, ids))
    requires p < |strengths|
    ensures i < |rows| && rows[i].teamId == ids[p]
  {
    var records := Records(strengths, ids);
    assert records[p] in multiset(Unranked(rows));
    i := FirstIndex(Unranked(rows), records[p]);
  }

  /** Non-increasing in `probVsAvg`. */
  predicate SortedDescending(rows: seq<WinProb>) {
    forall i, j :: 0 <= i < j < |rows| ==> rows[i].probVsAvg >= rows[j].probVsAvg
  }

  /** Inserts `x` into a descending list before the first row it is at least
      as likely as. */
  function Insert(x: WinProb, sorted: seq<WinProb>): (r: seq<WinProb>)
    requires SortedDescending(sorted)
    ensures SortedDescending(r)
    ensures multiset(r) == multiset(sorted) + multiset{x}
    ensures forall i :: 0 <= i < |r| ==> r[i] == x || r[i] in sorted
  {
    if |sorted| == 0 then [x]
    else if x.probVsAvg >= sorted[0].probVsAvg then [x] + sorted
    else
      var rest := Insert(x, sorted[1..]);
      assert sorted == [sorted[0]] + sorted[1..];
      [sorted[0]] + rest
  }

  /** `win_probs_df.sort_values('prob_vs_avg', ascending=False)`: a
      rearrangement of the records in non-increasing probability. */
  function SortByProbDesc(rows: seq<WinProb>): (r: seq<WinProb>)
    ensures SortedDescending(r)
    ensures multiset(r) == multiset(rows)
  {
    if |rows| == 0 then []
    else
      assert rows == [rows[0]] + rows[1..];
      Insert(rows[0], SortByProbDesc(rows[1..]))
  }

  /** `win_probs_df['rank'] = range(1, len(win_probs_df) + 1)`. */
  function AssignRanks(sorted: seq<WinProb>): (rows: seq<RankingRow>)
    ensures |rows| == |sorted|
  {
    seq(|sorted|, i requires 0 <= i < |sorted| =>
      RankingRow(sorted[i].teamId, i + 1, sorted[i].strength, sorted[i].probVsAvg))
  }

  /** Step 13: sort, then rank. */
  function Rank(winProbs: seq<WinProb>): seq<RankingRow> {
    AssignRanks(SortByProbDesc(winProbs))
  }

  /** The ranks are exactly `1..N` in row order, each row keeps one of the
      records, every record appears as often as before, and a better rank
      never has a lower probability. */
  lemma RankingIsOrdered(winProbs: seq<WinProb>)
    ensures |Rank(winProbs)| == |winProbs|
    ensures forall i :: 0 <= i < |winProbs| ==> Rank(winProbs)[i].rank == i + 1
    ensures multiset(Unranked(Rank(winProbs))) == multiset(winProbs)
    ensures forall i, j :: 0 <= i < |winProbs| && 0 <= j < |winProbs| && Rank(winProbs)[i].rank < Rank(winProbs)[j].rank
              ==> Rank(winProbs)[i].probVsAvg >= Rank(winProbs)[j].probVsAvg
  {
    var sorted := SortByProbDesc(winProbs);
    var rows := Rank(winProbs);
    assert |sorted| == |winProbs| by {
      assert |multiset(sorted)| == |multiset(winProbs)|;
    }
    assert Unranked(rows) == sorted;
  }

  /** When every record's probability is computed from its strength against
      one common average, the team ranked first has the greatest strength. */
  lemma TopRankIsStrongest(winProbs: seq<WinProb>, avg: real)
    requires avg > 0.0 && |winProbs| > 0
    requires forall i :: 0 <= i < |winProbs| ==>
               winProbs[i].strength > 0.0 && winProbs[i].probVsAvg == ProbVsAvg(winProbs[i].strength, avg)
    ensures forall i :: 0 <= i < |winProbs| ==> Rank(winProbs)[i].strength <= Rank(winProbs)[0].strength
  {
    var sorted := SortByProbDesc(winProbs);
    assert |sorted| == |winProbs| by {
      assert |multiset(sorted)| == |multiset(winProbs)|;
    }
    forall i | 0 <= i < |sorted| ensures sorted[i].strength > 0.0 && sorted[i].probVsAvg == ProbVsAvg(sorted[i].strength, avg) {
      assert sorted[i] in multiset(winProbs);
    }
    forall i | 0 <= i < |sorted| ensures sorted[i].strength <= sorted[0].strength {
      ProbVsAvgMonotone(sorted[0].strength, sorted[i].strength, avg);
    }
  }

  /** Each ranked row is one of the records it was ranked from. */
  lemma RankedRowOrigin(winProbs: seq<WinProb>, i: nat) returns (j: nat)
    requires i < |Rank(winProbs)|
    ensures j < |winProbs|
    ensures winProbs[j] == WinProb(Rank(winProbs)[i].teamId, Rank(winProbs)[i].strength, Rank(winProbs)[i].probVsAvg)
  {
    var sorted := SortByProbDesc(winProbs);
    assert sorted[i] in multiset(sorted);
    j :| 0 <= j < |winProbs| && winProbs[j] == sorted[i];
  }

  /** The rankings table as written: ranks 1, 2, ... in row order,
      probabilities against the average team strictly between 0 and 1 and
      non-increasing down the table, positive strengths, none above the top
      row's. */
  predicate RankedTable(rows: seq<RankingRow>) {
    && (forall i :: 0 <= i < |rows| ==>
          && rows[i].rank == i + 1
          && 0.0 < rows[i].probVsAvg < 1.0
          && rows[i].strength > 0.0
          && rows[i].strength <= rows[0].strength)
    && (forall i, j :: 0 <= i < j < |rows| ==> rows[i].probVsAvg >= rows[j].probVsAvg)
  }

  /** Ranking records whose probabilities all come from one average gives a
      ranked table: the ranks, the order, the bounds and the strongest team
      on top. */
  lemma RankIsRankedTable(winProbs: seq<WinProb>, avg: real)
    requires avg > 0.0 && |winProbs| > 0
    requires forall i :: 0 <= i < |winProbs| ==>
               winProbs[i].strength > 0.0 && winProbs[i].probVsAvg == ProbVsAvg(winProbs[i].strength, avg)
    ensures |Rank(winProbs)| == |winProbs| && RankedTable(Rank(winProbs))
  {
    var rows := Rank(winProbs);
    RankingIsOrdered(winProbs);
    TopRankIsStrongest(winProbs, avg);
    forall i | 0 <= i < |rows| ensures 0.0 < rows[i].probVsAvg < 1.0 && rows[i].strength > 0.0 {
      var j := RankedRowOrigin(winProbs, i);
    }
  }
}
