/** Step 7 of `bradley_terry_rankings`: the component's teams, sorted, are
    renumbered `0..k-1` and the final comparisons are rewritten with the new
    indices. */
module Remap {
  import opened Seqs
  import opened Indexing
  import opened Activity

  /** A non-empty set of indices has a least element. */
  lemma {:induction false} MinimumOf(s: set<nat>) returns (m: nat)
    requires s != {}
    ensures m in s && forall x :: x in s ==> m <= x
    decreases s
  {
    var y :| y in s;
    if s == {y} {
      m := y;
    } else {
      var rest := s - {y};
      var m' := MinimumOf(rest);
      m := if m' < y then m' else y;
      forall x | x in s ensures m <= x {
        if x != y {
          assert x in rest;
        }
      }
    }
  }

  /** Hence a least element exists. */
  lemma MinimumExists(s: set<nat>)
    requires s != {}
    ensures exists m :: m in s && forall x :: x in s ==> m <= x
  {
    var m := MinimumOf(s);
  }

  /** The least element of a non-empty set of indices. */
  function Least(s: set<nat>): (m: nat)
    requires s != {}
    ensures m in s && forall x :: x in s ==> m <= x
  {
    MinimumExists(s);
    var m :| m in s && forall x :: x in s ==> m <= x;
    m
  }

  /** `connected_teams = sorted(list(largest_cc))`. */
  function SortedTeams(s: set<nat>): (r: seq<nat>)
    ensures forall x :: x in r <==> x in s
    ensures |r| == |s|
    decreases s
  {
    if s == {} then []
    else
      var m := Least(s);
      var rest := SortedTeams(s - {m});
      assert forall x :: x in rest ==> m < x;
      [m] + rest
  }

  /** `sorted` returns the component's indices in strictly increasing order. */
  lemma {:induction false} SortedTeamsIncreasing(s: set<nat>)
    ensures StrictlyIncreasing(SortedTeams(s))
    decreases s
  {
    if s != {} {
      var m := Least(s);
      SortedTeamsIncreasing(s - {m});
    }
  }

  /** `new_team_to_idx`: each old index maps to its position in `connected`. */
  function NewTeamToIdx(connected: seq<nat>): map<nat, nat> {
    map t | t in connected :: FirstIndex(connected, t)
  }

  /** Over a strictly increasing list, `new_team_to_idx` is an
      order-preserving bijection from its elements onto `0..k-1` that sends
      position `i` to `i`. */
  lemma NewIndexIsOrderPreservingBijection(connected: seq<nat>)
    requires StrictlyIncreasing(connected)
    ensures forall t :: t in NewTeamToIdx(connected) <==> t in connected
    ensures forall t :: t in connected ==> NewTeamToIdx(connected)[t] < |connected|
    ensures forall i :: 0 <= i < |connected| ==> NewTeamToIdx(connected)[connected[i]] == i
    ensures forall a, b :: a in connected && b in connected ==>
              (a < b <==> NewTeamToIdx(connected)[a] < NewTeamToIdx(connected)[b])
  {
    var newIdx := NewTeamToIdx(connected);
    forall i | 0 <= i < |connected| ensures newIdx[connected[i]] == i {
      var f := FirstIndex(connected, connected[i]);
      assert f == i;
    }
    forall a, b | a in connected && b in connected ensures a < b <==> newIdx[a] < newIdx[b] {
      var i, j := newIdx[a], newIdx[b];
      assert connected[i] == a && connected[j] == b;
    }
  }

  /** `idx_to_team_connected`: new index to external team id, through
      `connected_teams` and `idx_to_team`. */
  function IdxToTeamConnected(connected: seq<nat>, idxToTeam: map<nat, TeamId>): (m: map<nat, TeamId>)
    requires forall t :: t in connected ==> t in idxToTeam
    ensures forall i :: i in m <==> 0 <= i < |connected|
  {
    map i | 0 <= i < |connected| :: idxToTeam[connected[i]]
  }

  /** A remapped index names the same external team as the old index did. */
  lemma ConnectedTeamAgrees(s: set<nat>, idxToTeam: map<nat, TeamId>, former: nat)
    requires forall t :: t in s ==> t in idxToTeam
    requires former in s
    ensures var connected := SortedTeams(s);
            NewTeamToIdx(connected)[former] in IdxToTeamConnected(connected, idxToTeam)
            && IdxToTeamConnected(connected, idxToTeam)[NewTeamToIdx(connected)[former]] == idxToTeam[former]
  {
    SortedTeamsIncreasing(s);
    NewIndexIsOrderPreservingBijection(SortedTeams(s));
  }

  /** `remapped_comparisons`: every comparison rewritten with new indices. */
  function RemapComparisons(fin: seq<Comparison>, newIdx: map<nat, nat>): (r: seq<Comparison>)
    requires forall c :: c in fin ==> c.winner in newIdx && c.loser in newIdx
    ensures |r| == |fin|
    ensures forall i :: 0 <= i < |fin| ==> r[i].winner == newIdx[fin[i].winner] && r[i].loser == newIdx[fin[i].loser]
  {
    if |fin| == 0 then []
    else
      var p := fin[..|fin| - 1];
      var c := fin[|fin| - 1];
      assert forall x :: x in p ==> x in fin;
      RemapComparisons(p, newIdx) + [Comparison(newIdx[c.winner], newIdx[c.loser])]
  }

  /** Renumbering maps the teams of the final comparisons onto the teams of
      the remapped ones: every team's new index occurs, and every index that
      occurs is the new index of some team. */
  lemma {:induction false} RemappedTeams(fin: seq<Comparison>, newIdx: map<nat, nat>)
    requires forall c :: c in fin ==> c.winner in newIdx && c.loser in newIdx
    ensures forall t :: t in Teams(fin) ==> t in newIdx && newIdx[t] in Teams(RemapComparisons(fin, newIdx))
    ensures forall i :: i in Teams(RemapComparisons(fin, newIdx)) ==>
              exists t :: t in Teams(fin) && t in newIdx && newIdx[t] == i
  {
    if |fin| > 0 {
      var p := fin[..|fin| - 1];
      assert forall x :: x in p ==> x in fin;
      RemappedTeams(p, newIdx);
      assert RemapComparisons(fin, newIdx)[..|fin| - 1] == RemapComparisons(p, newIdx);
      var c := fin[|fin| - 1];
      assert c.winner in Teams(fin) && c.loser in Teams(fin);
    }
  }

  /** When the final comparisons name exactly the teams of a strictly
      increasing list, every remapped index is below `k` and every index
      below `k` occurs. */
  lemma RemappedCoversRange(connected: seq<nat>, fin: seq<Comparison>)
    requires StrictlyIncreasing(connected)
    requires forall t :: t in Teams(fin) <==> t in connected
    ensures forall c :: c in fin ==> c.winner in NewTeamToIdx(connected) && c.loser in NewTeamToIdx(connected)
    ensures forall i: nat :: i in Teams(RemapComparisons(fin, NewTeamToIdx(connected))) <==> i < |connected|
  {
    var newIdx := NewTeamToIdx(connected);
    NewIndexIsOrderPreservingBijection(connected);
    forall c | c in fin ensures c.winner in newIdx && c.loser in newIdx {
      TeamsAreEndpoints(fin, c.winner);
      TeamsAreEndpoints(fin, c.loser);
    }
    RemappedTeams(fin, newIdx);
    var rs := RemapComparisons(fin, newIdx);
    forall i | 0 <= i < |connected| ensures i in Teams(rs) {
      assert connected[i] in Teams(fin) && newIdx[connected[i]] == i;
    }
    forall i | i in Teams(rs) ensures i < |connected| {
      var t :| t in Teams(fin) && t in newIdx && newIdx[t] == i;
    }
  }
}
