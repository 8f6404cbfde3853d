/** The backward induction: average, regroup by the earlier players'
    positions, keep the best continuations of the player who moves last
    among those not yet optimized, and repeat down to the first player. */
module Solver {
  import opened Common
  import opened Voronoi
  import opened Response
  import opened Averaging
  import opened Regrouping

  // ---------------------------------------------------------------------
  // optimize_groups

  /** A group ready to be optimized for player: non-empty, its three lists
      of one length, and every average vector long enough to hold player. */
  predicate Filled(b: Block, player: nat) {
    && |b.paths| == |b.payoffs| == |b.averages| > 0
    && forall j :: 0 <= j < |b.averages| ==> player < |b.averages[j]|
  }

  /** The average payoff of player for every member of the group. */
  function Scores(b: Block, player: nat): (s: seq<real>)
    requires forall j :: 0 <= j < |b.averages| ==> player < |b.averages[j]|
    ensures |s| == |b.averages|
    ensures forall j :: 0 <= j < |s| ==> s[j] == b.averages[j][player]
  {
    seq(|b.averages|, j requires 0 <= j < |b.averages| => b.averages[j][player])
  }

  /** The members whose average for player is within r of the group's best,
      in order; never none, since the best member itself qualifies. */
  function Kept(b: Block, player: nat, r: real): (idx: seq<nat>)
    requires Filled(b, player) && r >= 0.0
    ensures Ascending(idx, |b.averages|) && |idx| > 0
    ensures forall j :: 0 <= j < |b.averages| ==>
      (j in idx <==> Close(b.averages[j][player], Max(Scores(b, player)), r))
  {
    NearMax(Scores(b, player), r)
  }

  /** One group of optimize_groups: the kept members' paths and payoffs,
      in their order in the group; the averages are dropped. */
  function OptimizeGroup(b: Block, player: nat, r: real): (g: Group)
    requires Filled(b, player) && r >= 0.0
    ensures |g.paths| == |g.payoffs| == |Kept(b, player, r)| > 0
    ensures forall t :: 0 <= t < |g.paths| ==>
      && g.paths[t] == b.paths[Kept(b, player, r)[t]]
      && g.payoffs[t] == b.payoffs[Kept(b, player, r)[t]]
  {
    var idx := Kept(b, player, r);
    Group(Pick(b.paths, idx), Pick(b.payoffs, idx))
  }

  /** optimize_groups for player: every group optimized on its own. */
  function Optimized(space: seq<Block>, player: nat, r: real): (gs: seq<Group>)
    requires r >= 0.0 && forall i :: 0 <= i < |space| ==> Filled(space[i], player)
    ensures |gs| == |space|
    ensures forall i :: 0 <= i < |space| ==> gs[i] == OptimizeGroup(space[i], player, r)
  {
    seq(|space|, i requires 0 <= i < |space| => OptimizeGroup(space[i], player, r))
  }

  /** A member survives optimization exactly when its average for player is
      within r of the best; the surviving members keep their order, and the
      best member survives. */
  lemma OptimizeGroupKeeps(b: Block, player: nat, r: real, j: nat)
    requires Filled(b, player) && r >= 0.0 && j < |b.paths|
    ensures (exists t :: 0 <= t < |Kept(b, player, r)| && Kept(b, player, r)[t] == j)
        <==> Close(b.averages[j][player], Max(Scores(b, player)), r)
    ensures b.averages[j][player] == Max(Scores(b, player)) ==>
      exists t :: 0 <= t < |OptimizeGroup(b, player, r).paths| &&
        OptimizeGroup(b, player, r).paths[t] == b.paths[j]
  {
    var idx := Kept(b, player, r);
    if j in idx {
      var t :| 0 <= t < |idx| && idx[t] == j;
      assert OptimizeGroup(b, player, r).paths[t] == b.paths[j];
    }
  }

  /** A group whose members all carry the same average loses no member. */
  lemma OptimizeUniformGroup(b: Block, player: nat, r: real)
    requires Filled(b, player) && r >= 0.0
    requires forall j :: 0 <= j < |b.averages| ==> b.averages[j] == b.averages[0]
    ensures OptimizeGroup(b, player, r) == Group(b.paths, b.payoffs)
  {
    var s := Scores(b, player);
    assert Max(s) == s[0];
    WithinAll(s, Max(s), r);
    var g := OptimizeGroup(b, player, r);
    assert g.paths == b.paths && g.payoffs == b.payoffs;
  }

  /** The body of optimize_groups for one group: the column of averages for
      player, its maximum, and the members within r of it. */
  method OptimizeOne(group: Block, player: nat, r: real) returns (filtered: Group)
    requires Filled(group, player) && r >= 0.0
    ensures filtered == OptimizeGroup(group, player, r)
  {
    var scores := Scores(group, player);
    var maxPay := Max(scores);
    var kept := Within(scores, maxPay, r);
    assert kept == Kept(group, player, r);
    filtered := Group(Pick(group.paths, kept), Pick(group.payoffs, kept));
  }

  /** optimize_groups: every group optimized for the player k - 2. */
  method OptimizeGroups(space: seq<Block>, k: nat, r: real) returns (optimized: seq<Group>)
    requires k >= 2 && r >= 0.0
    requires forall i :: 0 <= i < |space| ==> Filled(space[i], k - 2)
    ensures optimized == Optimized(space, k - 2, r)
  {
    var letter := k - 2;
    optimized := [];
    for i := 0 to |space|
      invariant optimized == Optimized(space, letter, r)[..i]
    {
      var filtered := OptimizeOne(space[i], letter, r);
      PrefixSnoc(Optimized(space, letter, r), i);
      optimized := optimized + [filtered];
    }
  }

  // ---------------------------------------------------------------------
  // Shapes and provenance

  /** Every group non-empty with as many payoff vectors as paths, and every
      path and payoff vector of length n. */
  predicate Uniform(space: seq<Group>, n: nat) {
    forall i :: 0 <= i < |space| ==>
      && |space[i].paths| == |space[i].payoffs| > 0
      && forall j :: 0 <= j < |space[i].paths| ==> |space[i].paths[j]| == n && |space[i].payoffs[j]| == n
  }

  /** x with payoffs w is a member of some group of space. */
  predicate Inside(x: Path, w: Payoffs, space: seq<Group>) {
    exists i, j :: 0 <= i < |space| && 0 <= j < |space[i].paths| && j < |space[i].payoffs| &&
      space[i].paths[j] == x && space[i].payoffs[j] == w
  }

  /** Every member of every group of a is a member of some group of b. */
  predicate Subspace(a: seq<Group>, b: seq<Group>) {
    forall i, j :: 0 <= i < |a| && 0 <= j < |a[i].paths| && j < |a[i].payoffs| ==>
      Inside(a[i].paths[j], a[i].payoffs[j], b)
  }

  /** payoff_average_calculator applied to every group. */
  function WithAverages(space: seq<Group>): (bs: seq<Block>)
    requires forall i :: 0 <= i < |space| ==> |space[i].payoffs| > 0
    ensures |bs| == |space|
    ensures forall i :: 0 <= i < |space| ==> bs[i] == WithAverage(space[i])
  {
    seq(|space|, i requires 0 <= i < |space| => WithAverage(space[i]))
  }

  lemma {:induction false} FlattenMember(bs: seq<Block>, t: Entry)
    requires t in Flatten(bs)
    ensures exists i, j :: 0 <= i < |bs| && 0 <= j < |Zip(bs[i])| && Zip(bs[i])[j] == t
    decreases |bs|
  {
    var m := |bs| - 1;
    if t in Flatten(bs[..m]) {
      FlattenMember(bs[..m], t);
      var i, j :| 0 <= i < m && 0 <= j < |Zip(bs[..m][i])| && Zip(bs[..m][i])[j] == t;
      assert bs[..m][i] == bs[i];
    } else {
      var z := Zip(bs[m]);
      assert t in z;
      var j :| 0 <= j < |z| && z[j] == t;
    }
  }

  lemma FlattenNonEmpty(bs: seq<Block>)
    requires bs != [] && |Zip(bs[|bs| - 1])| > 0
    ensures Flatten(bs) != []
  {
  }

  /** Every pooled triple is a member of the space with its group's mean,
      a vector of length n. */
  lemma PoolFrom(space: seq<Group>, n: nat, t: Entry)
    requires Uniform(space, n) && t in Flatten(WithAverages(space))
    ensures Inside(t.path, t.payoff, space) && |t.average| == n
  {
    var bs := WithAverages(space);
    FlattenMember(bs, t);
    var i, j :| 0 <= i < |bs| && 0 <= j < |Zip(bs[i])| && Zip(bs[i])[j] == t;
    WidthUniform(space[i].payoffs, n);
  }

  /** Every member of a regrouped group is a pooled triple, and every
      regrouped group is non-empty with its three lists of one length. */
  lemma RegroupedFrom(bs: seq<Block>, k: nat, i: nat)
    requires k >= 2 && i < |Regrouped(bs, k)|
    ensures var b := Regrouped(bs, k)[i];
      && |b.paths| == |b.payoffs| == |b.averages| > 0
      && forall j :: 0 <= j < |b.paths| ==> Entry(b.paths[j], b.payoffs[j], b.averages[j]) in Flatten(bs)
  {
    RegroupedGroups(bs, k);
    RegroupedPartition(bs, k);
    var R := Runs(SortByKey(Flatten(bs), k - 2), k - 2);
    var b := Regrouped(bs, k)[i];
    forall j | 0 <= j < |b.paths| ensures Entry(b.paths[j], b.payoffs[j], b.averages[j]) in Flatten(bs) {
      assert Entry(b.paths[j], b.payoffs[j], b.averages[j]) == R[i][j];
      ConcatMember(R, R[i][j]);
      assert R[i][j] in multiset(Concat(R));
    }
  }

  /** The pool is empty exactly when there are no groups. */
  lemma RegroupedEmpty(space: seq<Group>, n: nat, k: nat)
    requires Uniform(space, n) && k >= 2
    ensures |Regrouped(WithAverages(space), k)| > 0 <==> |space| > 0
  {
    var bs := WithAverages(space);
    var s := SortByKey(Flatten(bs), k - 2);
    RegroupedGroups(bs, k);
    RegroupedPartition(bs, k);
    if |space| > 0 {
      FlattenNonEmpty(bs);
      assert |multiset(s)| == |multiset(Flatten(bs))|;
      assert s != [];
      assert Runs(s, k - 2) != [] by {
        RunsConcat(s, k - 2);
      }
    } else {
      assert Flatten(bs) == [];
      assert |multiset(s)| == 0;
    }
  }

  /** A member of a group of a uniform space has length n. */
  lemma InsideUniform(x: Path, w: Payoffs, space: seq<Group>, n: nat)
    requires Uniform(space, n) && Inside(x, w, space)
    ensures |x| == n && |w| == n
  {
  }

  /** After averaging and regrouping every group can be optimized for the
      player k - 2, and each of its members is a member of the space. */
  lemma RegroupedFilled(space: seq<Group>, n: nat, k: nat)
    requires Uniform(space, n) && 2 <= k <= n
    ensures var rg := Regrouped(WithAverages(space), k);
      && (forall i :: 0 <= i < |rg| ==> Filled(rg[i], k - 2))
      && (forall i, j :: 0 <= i < |rg| && 0 <= j < |rg[i].paths| && j < |rg[i].payoffs| ==>
            Inside(rg[i].paths[j], rg[i].payoffs[j], space))
  {
    var bs := WithAverages(space);
    var rg := Regrouped(bs, k);
    forall i | 0 <= i < |rg|
      ensures Filled(rg[i], k - 2)
      ensures forall j :: 0 <= j < |rg[i].paths| && j < |rg[i].payoffs| ==>
            Inside(rg[i].paths[j], rg[i].payoffs[j], space)
    {
      RegroupedFrom(bs, k, i);
      var b := rg[i];
      forall j | 0 <= j < |b.paths|
        ensures Inside(b.paths[j], b.payoffs[j], space) && k - 2 < |b.averages[j]|
      {
        PoolFrom(space, n, Entry(b.paths[j], b.payoffs[j], b.averages[j]));
      }
    }
  }

  /** One round of recursive_solver: average every group, regroup by the
      first k - 2 players, and optimize the player k - 2. */
  function Next(space: seq<Group>, n: nat, k: nat, r: real): seq<Group>
    requires Uniform(space, n) && 2 <= k <= n && r >= 0.0
  {
    RegroupedFilled(space, n, k);
    Optimized(Regrouped(WithAverages(space), k), k - 2, r)
  }

  /** One round of the solver keeps the space uniform, draws every member
      from the space, and leaves some group exactly when there was one. */
  lemma Round(space: seq<Group>, n: nat, k: nat, r: real)
    requires Uniform(space, n) && 2 <= k <= n && r >= 0.0
    ensures Uniform(Next(space, n, k, r), n)
    ensures Subspace(Next(space, n, k, r), space)
    ensures |Next(space, n, k, r)| > 0 <==> |space| > 0
  {
    RegroupedFilled(space, n, k);
    RegroupedEmpty(space, n, k);
    var rg := Regrouped(WithAverages(space), k);
    var opt := Next(space, n, k, r);
    assert opt == Optimized(rg, k - 2, r);
    forall i, t | 0 <= i < |opt| && 0 <= t < |opt[i].paths| && t < |opt[i].payoffs|
      ensures Inside(opt[i].paths[t], opt[i].payoffs[t], space)
    {
      var j := Kept(rg[i], k - 2, r)[t];
      assert opt[i].paths[t] == rg[i].paths[j] && opt[i].payoffs[t] == rg[i].payoffs[j];
    }
    forall i, t | 0 <= i < |opt| && 0 <= t < |opt[i].paths|
      ensures |opt[i].paths[t]| == n && |opt[i].payoffs[t]| == n
    {
      InsideUniform(opt[i].paths[t], opt[i].payoffs[t], space, n);
    }
  }

  /** recursive_solver(path_space, k): rounds for k, k - 1, ..., 2, and the
      survivors of the last round averaged. The length n of the paths is
      carried for the preconditions. The solver ends with one group, the
      optimal paths, exactly when it starts with some group; every result
      block carries its own mean; and every optimal path, with its payoffs,
      is one of the continuations the solver started from. */
  function Solved(space: seq<Group>, n: nat, k: nat, r: real): (out: seq<Block>)
    requires Uniform(space, n) && 2 <= k <= n && r >= 0.0
    ensures |out| == if |space| > 0 then 1 else 0
    ensures forall i :: 0 <= i < |out| ==> Averaged(out[i])
    ensures Drawn(out, space)
    decreases k
  {
    var optimized := Next(space, n, k, r);
    Round(space, n, k, r);
    if k == 2 then
      RegroupedSingle(WithAverages(space));
      assert |optimized| == |Regrouped(WithAverages(space), 2)|;
      AveragesDrawn(optimized);
      DrawnTransitive(WithAverages(optimized), optimized, space);
      WithAverages(optimized)
    else
      var out := Solved(optimized, n, k - 1, r);
      DrawnTransitive(out, optimized, space);
      out
  }

  /** Non-empty, three lists of one length, and the group's mean attached to
      every member. */
  predicate Averaged(b: Block) {
    && |b.paths| == |b.payoffs| == |b.averages| > 0
    && forall j :: 0 <= j < |b.averages| ==> b.averages[j] == Mean(b.payoffs)
  }

  /** Every member of every block of bs is a member of the space. */
  predicate Drawn(bs: seq<Block>, space: seq<Group>) {
    forall i, j :: 0 <= i < |bs| && 0 <= j < |bs[i].paths| && j < |bs[i].payoffs| ==>
      Inside(bs[i].paths[j], bs[i].payoffs[j], space)
  }

  /** Membership in a space carries over to any space it is drawn from. */
  lemma SubspaceTransitive(a: seq<Group>, b: seq<Group>, c: seq<Group>)
    requires Subspace(a, b) && Subspace(b, c)
    ensures Subspace(a, c)
  {
    forall i, j | 0 <= i < |a| && 0 <= j < |a[i].paths| && j < |a[i].payoffs|
      ensures Inside(a[i].paths[j], a[i].payoffs[j], c)
    {
      var i', j' :| 0 <= i' < |b| && 0 <= j' < |b[i'].paths| && j' < |b[i'].payoffs| &&
        b[i'].paths[j'] == a[i].paths[j] && b[i'].payoffs[j'] == a[i].payoffs[j];
    }
  }

  /** The averaged groups hold the members of the groups. */
  lemma AveragesDrawn(space: seq<Group>)
    requires forall i :: 0 <= i < |space| ==> |space[i].payoffs| > 0
    ensures Drawn(WithAverages(space), space)
  {
    var bs := WithAverages(space);
    forall i, j | 0 <= i < |bs| && 0 <= j < |bs[i].paths| && j < |bs[i].payoffs|
      ensures Inside(bs[i].paths[j], bs[i].payoffs[j], space)
    {
      assert bs[i].paths[j] == space[i].paths[j] && bs[i].payoffs[j] == space[i].payoffs[j];
    }
  }

  lemma DrawnTransitive(bs: seq<Block>, a: seq<Group>, b: seq<Group>)
    requires Drawn(bs, a) && Subspace(a, b)
    ensures Drawn(bs, b)
  {
    forall i, j | 0 <= i < |bs| && 0 <= j < |bs[i].paths| && j < |bs[i].payoffs|
      ensures Inside(bs[i].paths[j], bs[i].payoffs[j], b)
    {
      var i', j' :| 0 <= i' < |a| && 0 <= j' < |a[i'].paths| && j' < |a[i'].payoffs| &&
        a[i'].paths[j'] == bs[i].paths[j] && a[i'].payoffs[j'] == bs[i].payoffs[j];
    }
  }

  /** When every starting payoff vector sums to 1, so does every average
      the solver reports. */
  lemma SolvedSumsToOne(space: seq<Group>, n: nat, k: nat, r: real)
    requires Uniform(space, n) && 2 <= k <= n && r >= 0.0
    requires forall i, j :: 0 <= i < |space| && 0 <= j < |space[i].payoffs| ==> Sum(space[i].payoffs[j]) == 1.0
    ensures var out := Solved(space, n, k, r);
      forall i, j :: 0 <= i < |out| && 0 <= j < |out[i].averages| ==> Sum(out[i].averages[j]) == 1.0
  {
    var out := Solved(space, n, k, r);
    forall i, j | 0 <= i < |out| && 0 <= j < |out[i].averages| ensures Sum(out[i].averages[j]) == 1.0 {
      var b := out[i];
      forall t | 0 <= t < |b.payoffs| ensures |b.payoffs[t]| == n && Sum(b.payoffs[t]) == 1.0 {
        InsideUniform(b.paths[t], b.payoffs[t], space, n);
      }
      MeanSumsToOne(b.payoffs, n);
    }
  }

  /** Averaging a group whose members already carry its mean changes
      nothing. */
  lemma AverageOfAveraged(b: Block)
    requires Averaged(b)
    ensures WithAverages([Group(b.paths, b.payoffs)]) == [b]
  {
    var g := Group(b.paths, b.payoffs);
    assert WithAverage(g).averages == b.averages;
  }

  /** A round at k = 2 on one group whose members all carry the group's
      mean keeps the group whole: regrouping by the empty key gives it
      back, and its members share one average, so every member is kept. */
  lemma NextAveragedGroup(b: Block, n: nat, r: real)
    requires Averaged(b) && 2 <= n && r >= 0.0
    requires Uniform([Group(b.paths, b.payoffs)], n)
    ensures Next([Group(b.paths, b.payoffs)], n, 2, r) == [Group(b.paths, b.payoffs)]
  {
    AverageOfAveraged(b);
    RegroupSingleGroup(b);
    WidthUniform(b.payoffs, n);
    OptimizeUniformGroup(b, 0, r);
  }

  /** The solver at k = 2 on one group whose members all carry the
      group's mean returns that group. */
  lemma SolvedAveragedGroup(b: Block, n: nat, r: real)
    requires Averaged(b) && 2 <= n && r >= 0.0
    requires Uniform([Group(b.paths, b.payoffs)], n)
    ensures Solved([Group(b.paths, b.payoffs)], n, 2, r) == [b]
  {
    NextAveragedGroup(b, n, r);
    AverageOfAveraged(b);
  }

  /** The group of optimal paths the solver reports, without its
      averages, is a uniform space of one group. */
  lemma SolvedUniform(space: seq<Group>, n: nat, k: nat, r: real)
    requires Uniform(space, n) && 2 <= k <= n && r >= 0.0 && |space| > 0
    ensures var b := Solved(space, n, k, r)[0];
      Averaged(b) && Uniform([Group(b.paths, b.payoffs)], n)
  {
    var b := Solved(space, n, k, r)[0];
    forall j | 0 <= j < |b.paths| ensures |b.paths[j]| == n && |b.payoffs[j]| == n {
      InsideUniform(b.paths[j], b.payoffs[j], space, n);
    }
  }

  /** Run again at k = 2 on the group of optimal paths it reports, the
      solver reports the same result. */
  lemma SolvedIdempotent(space: seq<Group>, n: nat, k: nat, r: real)
    requires Uniform(space, n) && 2 <= k <= n && r >= 0.0 && |space| > 0
    ensures var out := Solved(space, n, k, r);
      && Uniform([Group(out[0].paths, out[0].payoffs)], n)
      && Solved([Group(out[0].paths, out[0].payoffs)], n, 2, r) == out
  {
    var out := Solved(space, n, k, r);
    SolvedUniform(space, n, k, r);
    SolvedAveragedGroup(out[0], n, r);
  }

  /** The last round of recursive_solver: the survivors averaged. */
  method LastRound(space: seq<Group>, ghost n: nat, k: nat, r: real, optimized: seq<Group>) returns (out: seq<Block>)
    requires Uniform(space, n) && k == 2 <= n && r >= 0.0
    requires optimized == Next(space, n, k, r)
    ensures out == Solved(space, n, k, r)
  {
    out := WithAverages(optimized);
  }

  /** An earlier round of Solved: the solver for k - 1 on the survivors. */
  lemma SolvedStep(space: seq<Group>, n: nat, k: nat, r: real, optimized: seq<Group>, out: seq<Block>)
    requires Uniform(space, n) && 2 < k <= n && r >= 0.0
    requires optimized == Next(space, n, k, r) && Uniform(optimized, n)
    requires out == Solved(optimized, n, k - 1, r)
    ensures out == Solved(space, n, k, r)
  {
  }

  /** One round of recursive_solver: payoff_average_calculator on every
      group, regroup, optimize_groups. */
  method SolveRound(space: seq<Group>, ghost n: nat, k: nat, r: real) returns (optimized: seq<Group>)
    requires Uniform(space, n) && 2 <= k <= n && r >= 0.0
    ensures optimized == Next(space, n, k, r) && Uniform(optimized, n)
  {
    var withAverage := WithAverages(space);
    var regrouped := Regroup(withAverage, k);
    RegroupedFilled(space, n, k);
    optimized := OptimizeGroups(regrouped, k, r);
    Round(space, n, k, r);
  }

  /** recursive_solver. */
  method RecursiveSolver(space: seq<Group>, ghost n: nat, k: nat, r: real) returns (out: seq<Block>)
    requires Uniform(space, n) && 2 <= k <= n && r >= 0.0
    ensures out == Solved(space, n, k, r)
    decreases k, 1
  {
    var optimized := SolveRound(space, n, k, r);
    if k == 2 {
      out := LastRound(space, n, k, r, optimized);
    } else {
      out := EarlierRound(space, n, k, r, optimized);
    }
  }

  /** A round with moves left to undo: the solver for k - 1 on the
      survivors. */
  method EarlierRound(space: seq<Group>, ghost n: nat, k: nat, r: real, optimized: seq<Group>) returns (out: seq<Block>)
    requires Uniform(space, n) && 2 < k <= n && r >= 0.0
    requires optimized == Next(space, n, k, r) && Uniform(optimized, n)
    ensures out == Solved(space, n, k, r)
    decreases k, 0
  {
    out := RecursiveSolver(optimized, n, k - 1, r);
    SolvedStep(space, n, k, r, optimized, out);
  }
}
