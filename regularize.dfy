/** Step 8 of `bradley_terry_rankings`: one synthetic counter-result for every
    team of the component that only wins or only loses. */
module Regularize {
  import opened Seqs
  import opened Indexing
  import opened Activity

  lemma {:induction false} WinsLossesAppend(a: seq<Comparison>, b: seq<Comparison>, t: nat)
    ensures Wins(a + b, t) == Wins(a, t) + Wins(b, t)
    ensures Losses(a + b, t) == Losses(a, t) + Losses(b, t)
    decreases |b|
  {
    if |b| > 0 {
      assert (a + b)[..|a + b| - 1] == a + b[..|b| - 1];
      WinsLossesAppend(a, b[..|b| - 1], t);
    } else {
      assert a + b == a;
    }
  }

  lemma {:induction false} MemberCounts(s: seq<Comparison>, c: Comparison)
    requires c in s
    ensures Wins(s, c.winner) > 0 && Losses(s, c.loser) > 0
  {
    if s[|s| - 1] != c {
      assert c in s[..|s| - 1];
      MemberCounts(s[..|s| - 1], c);
    }
  }

  /** `team_wins` as its loop leaves it: the teams with a win, each with its
      number of wins. */
  function WinCounts(rs: seq<Comparison>): map<nat, nat> {
    map t | t in Teams(rs) && Wins(rs, t) > 0 :: Wins(rs, t)
  }

  /** `team_losses` as its loop leaves it. */
  function LossCounts(rs: seq<Comparison>): map<nat, nat> {
    map t | t in Teams(rs) && Losses(rs, t) > 0 :: Losses(rs, t)
  }

  /** A team is a key of `team_wins` exactly when it won a comparison. */
  lemma CountKeys(rs: seq<Comparison>, t: nat)
    ensures t in WinCounts(rs) <==> Wins(rs, t) > 0
    ensures t in LossCounts(rs) <==> Losses(rs, t) > 0
  {
    GameCountPositive(rs, t);
  }

  /** The loop that fills `team_wins` and `team_losses`. */
  method CountResults(rs: seq<Comparison>) returns (teamWins: map<nat, nat>, teamLosses: map<nat, nat>)
    ensures teamWins == WinCounts(rs) && teamLosses == LossCounts(rs)
  {
    teamWins, teamLosses := map[], map[];
    for i := 0 to |rs|
      invariant forall t :: t in teamWins <==> Wins(rs[..i], t) > 0
      invariant forall t :: t in teamWins ==> teamWins[t] == Wins(rs[..i], t)
      invariant forall t :: t in teamLosses <==> Losses(rs[..i], t) > 0
      invariant forall t :: t in teamLosses ==> teamLosses[t] == Losses(rs[..i], t)
    {
      assert rs[..i + 1][..i] == rs[..i] && rs[..i + 1][i] == rs[i];
      var winner, loser := rs[i].winner, rs[i].loser;
      teamWins := teamWins[winner := (if winner in teamWins then teamWins[winner] else 0) + 1];
      teamLosses := teamLosses[loser := (if loser in teamLosses then teamLosses[loser] else 0) + 1];
    }
    assert rs[..|rs|] == rs;
    forall t ensures t in teamWins <==> t in WinCounts(rs) {
      CountKeys(rs, t);
    }
    forall t ensures t in teamLosses <==> t in LossCounts(rs) {
      CountKeys(rs, t);
    }
  }

  /** `[t for t in set(range(k)) if t in yes and t not in no]`, in ascending
      order (the order in which a set of small integers is iterated). */
  function TeamsIn(k: nat, yes: map<nat, nat>, no: map<nat, nat>): (r: seq<nat>)
    ensures forall t :: t in r <==> t < k && t in yes && t !in no
  {
    if k == 0 then []
    else TeamsIn(k - 1, yes, no) + (if k - 1 in yes && k - 1 !in no then [k - 1] else [])
  }

  /** The teams come out in ascending order. */
  lemma {:induction false} TeamsInIncreasing(k: nat, yes: map<nat, nat>, no: map<nat, nat>)
    ensures StrictlyIncreasing(TeamsIn(k, yes, no))
  {
    if k > 0 && k - 1 in yes && k - 1 !in no {
      var p := TeamsIn(k - 1, yes, no);
      TeamsInIncreasing(k - 1, yes, no);
      var r := p + [k - 1];
      forall i, j | 0 <= i < j < |r| ensures r[i] < r[j] {
        assert r[i] == p[i] && p[i] in p;
        if j < |p| {
          assert r[j] == p[j];
        }
      }
    } else if k > 0 {
      TeamsInIncreasing(k - 1, yes, no);
    }
  }

  /** `teams_only_winning`: the teams below `k` with a win and no loss. */
  function OnlyWinning(rs: seq<Comparison>, k: nat): (r: seq<nat>)
    ensures forall t: nat :: t in r <==> t < k && Wins(rs, t) > 0 && Losses(rs, t) == 0
  {
    assert forall t: nat :: (t in WinCounts(rs) <==> Wins(rs, t) > 0) && (t in LossCounts(rs) <==> Losses(rs, t) > 0) by {
      forall t: nat ensures (t in WinCounts(rs) <==> Wins(rs, t) > 0) && (t in LossCounts(rs) <==> Losses(rs, t) > 0) {
        CountKeys(rs, t);
      }
    }
    TeamsIn(k, WinCounts(rs), LossCounts(rs))
  }

  /** `teams_only_losing`: the teams below `k` with a loss and no win. */
  function OnlyLosing(rs: seq<Comparison>, k: nat): (r: seq<nat>)
    ensures forall t: nat :: t in r <==> t < k && Losses(rs, t) > 0 && Wins(rs, t) == 0
  {
    assert forall t: nat :: (t in WinCounts(rs) <==> Wins(rs, t) > 0) && (t in LossCounts(rs) <==> Losses(rs, t) > 0) by {
      forall t: nat ensures (t in WinCounts(rs) <==> Wins(rs, t) > 0) && (t in LossCounts(rs) <==> Losses(rs, t) > 0) {
        CountKeys(rs, t);
      }
    }
    TeamsIn(k, LossCounts(rs), WinCounts(rs))
  }

  /** `[l for w, l in rs if w == team]`: the teams `team` beat, in order. */
  function Beaten(rs: seq<Comparison>, team: nat): (r: seq<nat>)
    ensures |r| == Wins(rs, team)
    ensures forall x :: x in r ==> Comparison(team, x) in rs
  {
    if |rs| == 0 then []
    else
      var p := rs[..|rs| - 1];
      assert forall c :: c in p ==> c in rs;
      Beaten(p, team) + (if rs[|rs| - 1].winner == team then [rs[|rs| - 1].loser] else [])
  }

  /** `[w for w, l in rs if l == team]`: the teams that beat `team`, in order. */
  function Beaters(rs: seq<Comparison>, team: nat): (r: seq<nat>)
    ensures |r| == Losses(rs, team)
    ensures forall x :: x in r ==> Comparison(x, team) in rs
  {
    if |rs| == 0 then []
    else
      var p := rs[..|rs| - 1];
      assert forall c :: c in p ==> c in rs;
      Beaters(p, team) + (if rs[|rs| - 1].loser == team then [rs[|rs| - 1].winner] else [])
  }

  /** The first element of `Beaten` is the loser of the first comparison
      `team` won. */
  lemma {:induction false} FirstBeaten(rs: seq<Comparison>, team: nat) returns (i: nat)
    requires |Beaten(rs, team)| > 0
    ensures i < |rs| && rs[i] == Comparison(team, Beaten(rs, team)[0])
    ensures forall j :: 0 <= j < i ==> rs[j].winner != team
  {
    var p := rs[..|rs| - 1];
    if |Beaten(p, team)| > 0 {
      i := FirstBeaten(p, team);
      assert rs[i] == p[i];
      assert forall j :: 0 <= j < i ==> rs[j] == p[j];
    } else {
      i := |rs| - 1;
      assert forall j :: 0 <= j < i ==> rs[j] == p[j];
      forall j | 0 <= j < i ensures rs[j].winner != team {
        if rs[j].winner == team {
          MemberCounts(p, p[j]);
        }
      }
    }
  }

  /** The first element of `Beaters` is the winner of the first comparison
      `team` lost. */
  lemma {:induction false} FirstBeater(rs: seq<Comparison>, team: nat) returns (i: nat)
    requires |Beaters(rs, team)| > 0
    ensures i < |rs| && rs[i] == Comparison(Beaters(rs, team)[0], team)
    ensures forall j :: 0 <= j < i ==> rs[j].loser != team
  {
    var p := rs[..|rs| - 1];
    if |Beaters(p, team)| > 0 {
      i := FirstBeater(p, team);
      assert rs[i] == p[i];
      assert forall j :: 0 <= j < i ==> rs[j] == p[j];
    } else {
      i := |rs| - 1;
      assert forall j :: 0 <= j < i ==> rs[j] == p[j];
      forall j | 0 <= j < i ensures rs[j].loser != team {
        if rs[j].loser == team {
          MemberCounts(p, p[j]);
        }
      }
    }
  }

  /** The pairs appended for the only-winning teams `ts`: each loses once to
      the first team it beat. */
  function LossOffsets(rs: seq<Comparison>, ts: seq<nat>): seq<Comparison> {
    if |ts| == 0 then []
    else
      var team := ts[|ts| - 1];
      var opponents := Beaten(rs, team);
      LossOffsets(rs, ts[..|ts| - 1]) + (if |opponents| > 0 then [Comparison(opponents[0], team)] else [])
  }

  /** The pairs appended for the only-losing teams `ts`: each beats once the
      first team that beat it. */
  function WinOffsets(rs: seq<Comparison>, ts: seq<nat>): seq<Comparison> {
    if |ts| == 0 then []
    else
      var team := ts[|ts| - 1];
      var opponents := Beaters(rs, team);
      WinOffsets(rs, ts[..|ts| - 1]) + (if |opponents| > 0 then [Comparison(team, opponents[0])] else [])
  }

  /** The first appending loop: each team of `teamsOnlyWinning` that beat
      someone loses once to the first team it beat. */
  method AppendLosses(rs: seq<Comparison>, teamsOnlyWinning: seq<nat>, acc: seq<Comparison>)
    returns (regularized: seq<Comparison>)
    ensures regularized == acc + LossOffsets(rs, teamsOnlyWinning)
  {
    regularized := acc;
    for i := 0 to |teamsOnlyWinning|
      invariant regularized == acc + LossOffsets(rs, teamsOnlyWinning[..i])
    {
      assert teamsOnlyWinning[..i + 1][..i] == teamsOnlyWinning[..i];
      var team := teamsOnlyWinning[i];
      var opponents := Beaten(rs, team);
      if |opponents| > 0 {
        regularized := regularized + [Comparison(opponents[0], team)];
      }
    }
    assert teamsOnlyWinning[..|teamsOnlyWinning|] == teamsOnlyWinning;
  }

  /** The second appending loop: each team of `teamsOnlyLosing` that lost to
      someone beats once the first team that beat it. */
  method AppendWins(rs: seq<Comparison>, teamsOnlyLosing: seq<nat>, acc: seq<Comparison>)
    returns (regularized: seq<Comparison>)
    ensures regularized == acc + WinOffsets(rs, teamsOnlyLosing)
  {
    regularized := acc;
    for i := 0 to |teamsOnlyLosing|
      invariant regularized == acc + WinOffsets(rs, teamsOnlyLosing[..i])
    {
      assert teamsOnlyLosing[..i + 1][..i] == teamsOnlyLosing[..i];
      var team := teamsOnlyLosing[i];
      var opponents := Beaters(rs, team);
      if |opponents| > 0 {
        regularized := regularized + [Comparison(team, opponents[0])];
      }
    }
    assert teamsOnlyLosing[..|teamsOnlyLosing|] == teamsOnlyLosing;
  }

  /** The regularisation pass: count wins and losses, list the teams that
      only win and only lose, copy the remapped comparisons and append the
      offsetting results, only-winning teams first. */
  method Regularize(rs: seq<Comparison>, k: nat) returns (regularized: seq<Comparison>)
    ensures regularized == rs + LossOffsets(rs, OnlyWinning(rs, k)) + WinOffsets(rs, OnlyLosing(rs, k))
  {
    var teamWins, teamLosses := CountResults(rs);
    var teamsOnlyWinning := TeamsIn(k, teamWins, teamLosses);
    var teamsOnlyLosing := TeamsIn(k, teamLosses, teamWins);
    regularized := AppendLosses(rs, teamsOnlyWinning, rs);
    regularized := AppendWins(rs, teamsOnlyLosing, regularized);
  }

  /** When every team of `ts` won something, exactly one pair is appended per
      team, in order: the team loses to the first team it beat. */
  lemma {:induction false} LossOffsetsOnePerTeam(rs: seq<Comparison>, ts: seq<nat>)
    requires forall t :: t in ts ==> Wins(rs, t) > 0
    ensures |LossOffsets(rs, ts)| == |ts|
    ensures forall i :: 0 <= i < |ts| ==> LossOffsets(rs, ts)[i] == Comparison(Beaten(rs, ts[i])[0], ts[i])
  {
    if |ts| > 0 {
      var p := ts[..|ts| - 1];
      assert forall t :: t in p ==> t in ts;
      LossOffsetsOnePerTeam(rs, p);
    }
  }

  /** When every team of `ts` lost something, exactly one pair is appended per
      team, in order: the team beats the first team that beat it. */
  lemma {:induction false} WinOffsetsOnePerTeam(rs: seq<Comparison>, ts: seq<nat>)
    requires forall t :: t in ts ==> Losses(rs, t) > 0
    ensures |WinOffsets(rs, ts)| == |ts|
    ensures forall i :: 0 <= i < |ts| ==> WinOffsets(rs, ts)[i] == Comparison(ts[i], Beaters(rs, ts[i])[0])
  {
    if |ts| > 0 {
      var p := ts[..|ts| - 1];
      assert forall t :: t in p ==> t in ts;
      WinOffsetsOnePerTeam(rs, p);
    }
  }

  /** The regularised list extends the remapped one by exactly one pair per
      only-winning team and one per only-losing team. */
  lemma RegularizedLength(rs: seq<Comparison>, k: nat)
    ensures |LossOffsets(rs, OnlyWinning(rs, k))| == |OnlyWinning(rs, k)|
    ensures |WinOffsets(rs, OnlyLosing(rs, k))| == |OnlyLosing(rs, k)|
  {
    forall t | t in OnlyWinning(rs, k) ensures Wins(rs, t) > 0 {
      CountKeys(rs, t);
    }
    forall t | t in OnlyLosing(rs, k) ensures Losses(rs, t) > 0 {
      CountKeys(rs, t);
    }
    LossOffsetsOnePerTeam(rs, OnlyWinning(rs, k));
    WinOffsetsOnePerTeam(rs, OnlyLosing(rs, k));
  }

  /** After regularisation every team `0..k-1` of the component has at least
      one win and at least one loss. */
  lemma RegularizedRecordsAreMixed(rs: seq<Comparison>, k: nat)
    requires forall t: nat :: t in Teams(rs) <==> t < k
    ensures var regularized := rs + LossOffsets(rs, OnlyWinning(rs, k)) + WinOffsets(rs, OnlyLosing(rs, k));
            forall t: nat :: t < k ==> Wins(regularized, t) > 0 && Losses(regularized, t) > 0
  {
    var losses := LossOffsets(rs, OnlyWinning(rs, k));
    var wins := WinOffsets(rs, OnlyLosing(rs, k));
    var regularized := rs + losses + wins;
    RegularizedLength(rs, k);
    forall t: nat | t < k ensures Wins(regularized, t) > 0 && Losses(regularized, t) > 0 {
      WinsLossesAppend(rs + losses, wins, t);
      WinsLossesAppend(rs, losses, t);
      GameCountPositive(rs, t);
      CountKeys(rs, t);
      if Losses(rs, t) == 0 {
        var ts := OnlyWinning(rs, k);
        var i :| 0 <= i < |ts| && ts[i] == t;
        forall u | u in ts ensures Wins(rs, u) > 0 {
          CountKeys(rs, u);
        }
        LossOffsetsOnePerTeam(rs, ts);
        MemberCounts(losses, losses[i]);
      }
      if Wins(rs, t) == 0 {
        var ts := OnlyLosing(rs, k);
        var i :| 0 <= i < |ts| && ts[i] == t;
        forall u | u in ts ensures Losses(rs, u) > 0 {
          CountKeys(rs, u);
        }
        WinOffsetsOnePerTeam(rs, ts);
        MemberCounts(wins, wins[i]);
      }
    }
  }

  /** Regularisation only pairs teams of `0..k-1`, so every index of the
      regularised list stays below `k`. */
  lemma RegularizedWithinRange(rs: seq<Comparison>, k: nat)
    requires forall c :: c in rs ==> c.winner < k && c.loser < k
    ensures forall c :: c in rs + LossOffsets(rs, OnlyWinning(rs, k)) + WinOffsets(rs, OnlyLosing(rs, k))
              ==> c.winner < k && c.loser < k
  {
    LossOffsetsWithin(rs, OnlyWinning(rs, k), k);
    WinOffsetsWithin(rs, OnlyLosing(rs, k), k);
  }

  lemma {:induction false} LossOffsetsWithin(rs: seq<Comparison>, ts: seq<nat>, k: nat)
    requires forall c :: c in rs ==> c.winner < k && c.loser < k
    requires forall t :: t in ts ==> t < k
    ensures forall c :: c in LossOffsets(rs, ts) ==> c.winner < k && c.loser < k
  {
    if |ts| > 0 {
      var p := ts[..|ts| - 1];
      assert forall t :: t in p ==> t in ts;
      LossOffsetsWithin(rs, p, k);
      var opponents := Beaten(rs, ts[|ts| - 1]);
      if |opponents| > 0 {
        assert Comparison(ts[|ts| - 1], opponents[0]) in rs;
      }
    }
  }

  lemma {:induction false} WinOffsetsWithin(rs: seq<Comparison>, ts: seq<nat>, k: nat)
    requires forall c :: c in rs ==> c.winner < k && c.loser < k
    requires forall t :: t in ts ==> t < k
    ensures forall c :: c in WinOffsets(rs, ts) ==> c.winner < k && c.loser < k
  {
    if |ts| > 0 {
      var p := ts[..|ts| - 1];
      assert forall t :: t in p ==> t in ts;
      WinOffsetsWithin(rs, p, k);
      var opponents := Beaters(rs, ts[|ts| - 1]);
      if |opponents| > 0 {
        assert Comparison(opponents[0], ts[|ts| - 1]) in rs;
      }
    }
  }
}
