/** Step 4 of `bradley_terry_rankings`: per-team game counts, the set of
    teams with at least `min_games` games, and the restriction of the
    comparison list to a set of teams. */
module Activity {
  import opened Seqs
  import opened Indexing

  /** `min_games`. */
  const MinGames: nat := 4

  /** Number of comparisons `t` won. */
  function Wins(cs: seq<Comparison>, t: nat): nat {
    if |cs| == 0 then 0 else Wins(cs[..|cs| - 1], t) + (if cs[|cs| - 1].winner == t then 1 else 0)
  }

  /** Number of comparisons `t` lost. */
  function Losses(cs: seq<Comparison>, t: nat): nat {
    if |cs| == 0 then 0 else Losses(cs[..|cs| - 1], t) + (if cs[|cs| - 1].loser == t then 1 else 0)
  }

  /** Games played by `t`: one per comparison as winner plus one per comparison
      as loser (a self-match counts twice, as the source's counter does). */
  function GameCount(cs: seq<Comparison>, t: nat): nat {
    Wins(cs, t) + Losses(cs, t)
  }

  /** Every index that occurs in some comparison, as winner or as loser. */
  function Teams(cs: seq<Comparison>): set<nat> {
    if |cs| == 0 then {} else Teams(cs[..|cs| - 1]) + {cs[|cs| - 1].winner, cs[|cs| - 1].loser}
  }

  /** `t` occurs in the comparisons exactly when some comparison names it. */
  lemma {:induction false} TeamsAreEndpoints(cs: seq<Comparison>, t: nat)
    ensures t in Teams(cs) <==> exists c :: c in cs && (c.winner == t || c.loser == t)
  {
    if |cs| > 0 {
      var p := cs[..|cs| - 1];
      TeamsAreEndpoints(p, t);
      assert forall c :: c in cs <==> c in p || c == cs[|cs| - 1];
    }
  }

  /** A team has a positive game count exactly when it occurs in a comparison. */
  lemma {:induction false} GameCountPositive(cs: seq<Comparison>, t: nat)
    ensures GameCount(cs, t) > 0 <==> t in Teams(cs)
  {
    if |cs| > 0 {
      GameCountPositive(cs[..|cs| - 1], t);
    }
  }

  /** `team_game_count` as the loop leaves it: the occurring teams, each with
      its game count. */
  function GameCounts(cs: seq<Comparison>): map<nat, nat> {
    map t | t in Teams(cs) :: GameCount(cs, t)
  }

  /** One more comparison: its two teams occur, and each gains one game. */
  lemma CountStep(cs: seq<Comparison>, i: nat)
    requires i < |cs|
    ensures Teams(cs[..i + 1]) == Teams(cs[..i]) + {cs[i].winner, cs[i].loser}
    ensures forall t :: GameCount(cs[..i + 1], t) ==
              GameCount(cs[..i], t) + (if cs[i].winner == t then 1 else 0) + (if cs[i].loser == t then 1 else 0)
  {
    assert cs[..i + 1][..i] == cs[..i] && cs[..i + 1][i] == cs[i];
  }

  /** The counting loop: every winner and every loser gets one more game. */
  method CountGames(cs: seq<Comparison>) returns (teamGameCount: map<nat, nat>)
    ensures teamGameCount == GameCounts(cs)
  {
    teamGameCount := map[];
    for i := 0 to |cs|
      invariant forall t :: t in teamGameCount <==> t in Teams(cs[..i])
      invariant forall t :: t in teamGameCount ==> teamGameCount[t] == GameCount(cs[..i], t)
    {
      CountStep(cs, i);
      var winner, loser := cs[i].winner, cs[i].loser;
      forall t | t !in teamGameCount ensures GameCount(cs[..i], t) == 0 {
        GameCountPositive(cs[..i], t);
      }
      teamGameCount := teamGameCount[winner := (if winner in teamGameCount then teamGameCount[winner] else 0) + 1];
      teamGameCount := teamGameCount[loser := (if loser in teamGameCount then teamGameCount[loser] else 0) + 1];
    }
    assert cs[..|cs|] == cs;
  }

  /** `eligible_teams`: the counted teams with at least `MinGames` games. */
  function Eligible(teamGameCount: map<nat, nat>): set<nat> {
    set t | t in teamGameCount && teamGameCount[t] >= MinGames
  }

  /** A team is eligible exactly when it played at least `MinGames` games. */
  lemma EligibleIffEnoughGames(cs: seq<Comparison>, t: nat)
    ensures t in Eligible(GameCounts(cs)) <==> GameCount(cs, t) >= MinGames
  {
    GameCountPositive(cs, t);
  }

  /** Keeps, in order, the comparisons whose two teams both lie in `keep`
      (the comprehensions that build `filtered_comparisons` and
      `final_comparisons`). */
  function Restrict(cs: seq<Comparison>, keep: set<nat>): (r: seq<Comparison>)
    ensures forall c :: c in r <==> c in cs && c.winner in keep && c.loser in keep
    ensures |r| <= |cs|
  {
    if |cs| == 0 then []
    else
      var p := cs[..|cs| - 1];
      var c := cs[|cs| - 1];
      assert forall x :: x in cs <==> x in p || x == c;
      Restrict(p, keep) + (if c.winner in keep && c.loser in keep then [c] else [])
  }

  /** The restriction is an order-preserving subsequence of the input. */
  lemma {:induction false} RestrictIsSubseq(cs: seq<Comparison>, keep: set<nat>)
    ensures IsSubseq(Restrict(cs, keep), cs)
  {
    if |cs| > 0 {
      var p := cs[..|cs| - 1];
      RestrictIsSubseq(p, keep);
      var r := Restrict(cs, keep);
      if r != [] {
        var c := cs[|cs| - 1];
        if c.winner in keep && c.loser in keep {
          assert r[..|r| - 1] == Restrict(p, keep);
        } else {
          assert r == Restrict(p, keep);
        }
      }
    }
  }

  /** The restriction keeps every occurrence of a kept comparison and drops
      every occurrence of any other. */
  lemma {:induction false} RestrictCount(cs: seq<Comparison>, keep: set<nat>, c: Comparison)
    ensures Count(Restrict(cs, keep), c) == if c.winner in keep && c.loser in keep then Count(cs, c) else 0
  {
    if |cs| > 0 {
      var p := cs[..|cs| - 1];
      RestrictCount(p, keep, c);
      var r := Restrict(cs, keep);
      var rp := Restrict(p, keep);
      var last := cs[|cs| - 1];
      assert Count(cs, c) == Count(p, c) + (if last == c then 1 else 0);
      if last.winner in keep && last.loser in keep {
        assert r == rp + [last];
        assert r[..|r| - 1] == rp;
        assert Count(r, c) == Count(rp, c) + (if last == c then 1 else 0);
      } else {
        assert r == rp;
      }
    }
  }
}
