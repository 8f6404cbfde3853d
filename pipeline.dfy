/** backwards_solver: enumerate the seeds, keep those with an admissible
    first position, extend each with the best responses of the last
    player, and solve backwards down to the first player. */
module Pipeline {
  import opened Common
  import opened Voronoi
  import opened Seeds
  import opened Response
  import opened Averaging
  import opened Solver

  datatype Option<T> = None | Some(value: T)

  /** What backwards_solver reports: the optimal paths, their average
      payoff vector, and the first player's optimal positions. */
  datatype Outcome = Outcome(paths: seq<Path>, average: Payoffs, choices: set<real>)

  /** The first player's position passes the filter: exactly 0 for the
      first question, at most 1/2 otherwise. */
  predicate Admissible(p: Path, question1: bool) {
    |p| > 0 && if question1 then p[0] == 0.0 else p[0] <= 1.0 / 2.0
  }

  /** The seeds that pass the filter, in their order. */
  function SeedFilter(seeds: seq<Path>, question1: bool): (fs: seq<Path>)
    ensures forall p :: p in fs <==> p in seeds && Admissible(p, question1)
    decreases |seeds|
  {
    if seeds == [] then []
    else
      var front := SeedFilter(seeds[..|seeds| - 1], question1);
      var last := seeds[|seeds| - 1];
      assert forall p :: p in seeds <==> p in seeds[..|seeds| - 1] || p == last;
      front + (if Admissible(last, question1) then [last] else [])
  }

  /** The best responses of the last player to every seed. */
  function Starts(seeds: seq<Path>, e: real, r: real): (space: seq<Group>)
    requires r >= 0.0
    requires forall i :: 0 <= i < |seeds| ==> |seeds[i]| >= 1
    ensures |space| == |seeds|
    ensures forall i :: 0 <= i < |seeds| ==> space[i] == BestResponses(seeds[i], e, r)
  {
    seq(|seeds|, i requires 0 <= i < |seeds| => BestResponses(seeds[i], e, r))
  }

  /** The player whose optimal positions are reported: the second player
      for the first question, the first player otherwise. */
  function Chooser(question1: bool): nat {
    if question1 then 1 else 0
  }

  /** The reported player's positions among the optimal paths. */
  function Choices(paths: seq<Path>, question1: bool): set<real> {
    set p | p in paths && Chooser(question1) < |p| :: p[Chooser(question1)]
  }

  /** A seed that survives the filter: distinct grid values, one for each
      of the first N - 1 players, with an admissible first position. */
  predicate Seed(p: Path, M: nat, N: nat, question1: bool)
    requires M >= 1
  {
    && |p| == N - 1 && Distinct(p) && (forall i :: 0 <= i < |p| ==> p[i] in Grid(M))
    && Admissible(p, question1)
  }

  /** The seeds that survive the filter, in the order of enumeration. */
  function Admitted(M: nat, N: nat, question1: bool): (seeds: seq<Path>)
    requires M >= 1 && N >= 1
    ensures forall p :: p in seeds <==> Seed(p, M, N, question1)
    ensures forall i :: 0 <= i < |seeds| ==> |seeds[i]| == N - 1
  {
    var seeds := SeedFilter(Arrangements(Grid(M), N - 1), question1);
    FilteredSeeds(M, N, question1);
    assert forall i :: 0 <= i < |seeds| ==> |seeds[i]| == N - 1 by {
      forall i | 0 <= i < |seeds| ensures |seeds[i]| == N - 1 {
        assert seeds[i] in seeds;
        assert Seed(seeds[i], M, N, question1);
      }
    }
    seeds
  }

  /** The filtered enumeration holds exactly the seeds. */
  lemma FilteredSeeds(M: nat, N: nat, question1: bool)
    requires M >= 1 && N >= 1
    ensures forall p :: p in SeedFilter(Arrangements(Grid(M), N - 1), question1) <==> Seed(p, M, N, question1)
  {
    GridIncreasing(M);
    forall p ensures p in SeedFilter(Arrangements(Grid(M), N - 1), question1) <==> Seed(p, M, N, question1) {
      if p in Arrangements(Grid(M), N - 1) {
        ArrangementsSound(Grid(M), N - 1, p);
      }
      if Seed(p, M, N, question1) {
        ArrangementsComplete(Grid(M), N - 1, p);
      }
    }
  }

  /** The continuations of the admitted seeds are uniform of length N, and
      their payoffs are the payoffs of their paths, summing to 1. */
  lemma StartsUniform(seeds: seq<Path>, N: nat, e: real, r: real)
    requires N >= 2 && r >= 0.0
    requires forall i :: 0 <= i < |seeds| ==> |seeds[i]| == N - 1
    ensures Uniform(Starts(seeds, e, r), N)
    ensures forall i, j :: 0 <= i < |seeds| && 0 <= j < |Starts(seeds, e, r)[i].payoffs| ==>
      Sum(Starts(seeds, e, r)[i].payoffs[j]) == 1.0
  {
    var space := Starts(seeds, e, r);
    forall i | 0 <= i < |seeds|
      ensures |space[i].paths| == |space[i].payoffs| > 0
      ensures forall j :: 0 <= j < |space[i].paths| ==> |space[i].paths[j]| == N && |space[i].payoffs[j]| == N
      ensures forall j :: 0 <= j < |space[i].payoffs| ==> Sum(space[i].payoffs[j]) == 1.0
    {
      BestResponsesNonEmpty(seeds[i], e, r);
      forall j | 0 <= j < |space[i].payoffs|
        ensures |space[i].paths[j]| == N && |space[i].payoffs[j]| == N
        ensures Sum(space[i].payoffs[j]) == 1.0
      {
        StartPayoff(seeds[i], e, r, j);
      }
    }
  }

  /** Continuation j of a seed p has length |p| + 1, its payoff vector is
      that path's Voronoi payoff, and it sums to 1. */
  lemma StartPayoff(p: Path, e: real, r: real, j: nat)
    requires |p| >= 1 && r >= 0.0 && j < |BestResponses(p, e, r).paths|
    ensures var g := BestResponses(p, e, r);
      && |g.paths[j]| == |p| + 1 && g.payoffs[j] == Payoff(g.paths[j])
      && |g.payoffs[j]| == |p| + 1 && Sum(g.payoffs[j]) == 1.0
  {
    var g := BestResponses(p, e, r);
    var q := g.paths[j];
    assert g.payoffs[j] == Payoff(q);
    PayoffSumsToOne(q);
  }

  /** The groups the solver starts from: the best responses of the last
      player to every admitted seed. */
  function Space(M: nat, N: nat, question1: bool, e: real, r: real): (space: seq<Group>)
    requires M >= 1 && N >= 2 && r >= 0.0
    ensures Uniform(space, N) && |space| == |Admitted(M, N, question1)|
  {
    var seeds := Admitted(M, N, question1);
    StartsUniform(seeds, N, e, r);
    Starts(seeds, e, r)
  }

  /** The solver's result for all N players. */
  function Optimal(M: nat, N: nat, question1: bool, e: real, r: real): (out: seq<Block>)
    requires M >= 1 && N >= 2 && r >= 0.0
    ensures forall i :: 0 <= i < |out| ==> Averaged(out[i])
  {
    var space := Space(M, N, question1, e, r);
    Solved(space, N, N, r)
  }

  /** backwards_solver, without its output: the optimal paths of the whole
      game, their average payoff and the first player's choices; None where
      the source fails to index an empty result. */
  function Backwards(M: nat, N: nat, question1: bool, e: real, r: real): Option<Outcome>
    requires M >= 1 && N >= 2 && r >= 0.0
  {
    var optimal := Optimal(M, N, question1, e, r);
    if |optimal| == 0 then None
    else Some(Outcome(optimal[0].paths, optimal[0].averages[0], Choices(optimal[0].paths, question1)))
  }

  /** The comprehension of backwards_solver that extends every seed by the
      best responses of the last player. */
  method StartGroups(seeds: seq<Path>, e: real, r: real) returns (space: seq<Group>)
    requires r >= 0.0
    requires forall i :: 0 <= i < |seeds| ==> |seeds[i]| >= 1
    ensures space == Starts(seeds, e, r)
  {
    space := [];
    for i := 0 to |seeds|
      invariant space == Starts(seeds[..i], e, r)
    {
      var g := OptimalPathCalculator(seeds[i], e, r);
      StartsSnoc(seeds, i, e, r);
      space := space + [g];
    }
    TakeAll(seeds);
  }

  /** backwards_solver: the seeds, the filter on the first position, the
      best responses to each seed, and the solver for all N players. */
  method BackwardsSolver(M: nat, N: nat, question1: bool, e: real, r: real) returns (result: Option<Outcome>)
    requires M >= 1 && N >= 2 && r >= 0.0
    ensures result == Backwards(M, N, question1, e, r)
  {
    var pathSpace := PlayGenerator(M, N);
    var seeds := SeedFilter(pathSpace, question1);
    assert seeds == Admitted(M, N, question1);
    var space := StartGroups(seeds, e, r);
    assert space == Space(M, N, question1, e, r);
    var optimalPaths := RecursiveSolver(space, N, N, r);
    assert optimalPaths == Optimal(M, N, question1, e, r);
    if |optimalPaths| == 0 {
      result := None;
    } else {
      var pathGroup := optimalPaths[0].paths;
      var averagePayoff := optimalPaths[0].averages[0];
      result := Some(Outcome(pathGroup, averagePayoff, Choices(pathGroup, question1)));
    }
  }

  // ---------------------------------------------------------------------
  // Properties

  /** A sequence that agrees with b and then holds x is b + [x]. */
  lemma SeqSnoc<T>(a: seq<T>, b: seq<T>, x: T)
    requires |a| == |b| + 1 && a[|b|] == x
    requires forall j :: 0 <= j < |b| ==> a[j] == b[j]
    ensures a == b + [x]
  {
  }

  lemma StartsSnoc(seeds: seq<Path>, i: nat, e: real, r: real)
    requires i < |seeds| && r >= 0.0 && forall j :: 0 <= j < |seeds| ==> |seeds[j]| >= 1
    ensures Starts(seeds[..i + 1], e, r) == Starts(seeds[..i], e, r) + [BestResponses(seeds[i], e, r)]
  {
    var a, b := Starts(seeds[..i + 1], e, r), Starts(seeds[..i], e, r);
    assert forall j :: 0 <= j < i ==> seeds[..i + 1][j] == seeds[..i][j];
    assert seeds[..i + 1][i] == seeds[i];
    SeqSnoc(a, b, BestResponses(seeds[i], e, r));
  }

  lemma ArrangementsTooMany(vals: seq<real>, m: nat)
    requires m > |vals|
    ensures Arrangements(vals, m) == []
  {
    ArrangementsCount(vals, m);
    FallingTooMany(|vals|, m);
  }

  /** The seed 0, 1/M, ..., (N - 2)/M of distinct grid values. */
  function Staircase(M: nat, N: nat): (w: Path)
    requires M >= 1 && N >= 1
    ensures |w| == N - 1 && forall i :: 0 <= i < N - 1 ==> w[i] == i as real / M as real
  {
    seq(N - 1, i requires 0 <= i < N - 1 => i as real / M as real)
  }

  lemma StaircaseAdmitted(M: nat, N: nat, question1: bool)
    requires M >= 1 && 2 <= N <= M + 2
    ensures Staircase(M, N) in Admitted(M, N, question1)
  {
    var w := Staircase(M, N);
    GridIncreasing(M);
    forall i | 0 <= i < N - 1 ensures w[i] == Grid(M)[i] && w[i] in Grid(M) {
    }
    forall i, j | 0 <= i < j < N - 1 ensures w[i] != w[j] {
      assert w[i] == Grid(M)[i] && w[j] == Grid(M)[j];
    }
    assert w[0] == 0.0;
  }

  /** Some seed survives the filter exactly when N - 1 players can take
      distinct positions among the M + 1 grid points; then the staircase
      seed survives in either question. */
  lemma AdmittedEmpty(M: nat, N: nat, question1: bool)
    requires M >= 1 && N >= 2
    ensures |Admitted(M, N, question1)| == 0 <==> N - 1 > M + 1
  {
    if N - 1 > M + 1 {
      ArrangementsTooMany(Grid(M), N - 1);
    } else {
      StaircaseAdmitted(M, N, question1);
    }
  }

  /** The solver reports one group when some seed survives, none otherwise. */
  lemma OptimalCount(M: nat, N: nat, question1: bool, e: real, r: real)
    requires M >= 1 && N >= 2 && r >= 0.0
    ensures |Optimal(M, N, question1, e, r)| == if |Admitted(M, N, question1)| > 0 then 1 else 0
  {
  }

  /** The source fails to report (it indexes an empty result) exactly when
      N - 1 players cannot take distinct positions on the M + 1 grid
      points. */
  lemma BackwardsNone(M: nat, N: nat, question1: bool, e: real, r: real)
    requires M >= 1 && N >= 2 && r >= 0.0
    ensures Backwards(M, N, question1, e, r).None? <==> N - 1 > M + 1
  {
    AdmittedEmpty(M, N, question1);
    OptimalCount(M, N, question1, e, r);
  }

  /** Equal payoff lists, entry by entry. */
  lemma PayoffsOfEntries(ps: seq<Path>, ws: seq<Payoffs>)
    requires |ps| == |ws|
    requires forall j :: 0 <= j < |ps| ==> |ps[j]| != 1 && ws[j] == Payoff(ps[j])
    ensures ws == PayoffsOf(ps)
  {
  }

  /** A member of the starting continuations: some admitted seed extended
      by one position, with the Voronoi payoff of that path. */
  lemma StartMember(M: nat, N: nat, question1: bool, e: real, r: real, x: Path, w: Payoffs)
    requires M >= 1 && N >= 2 && r >= 0.0
    requires Inside(x, w, Space(M, N, question1, e, r))
    ensures |x| == N && x[..N - 1] in Admitted(M, N, question1) && w == Payoff(x)
  {
    var seeds := Admitted(M, N, question1);
    var space := Starts(seeds, e, r);
    assert space == Space(M, N, question1, e, r);
    var i, j :| 0 <= i < |space| && 0 <= j < |space[i].paths| && j < |space[i].payoffs| &&
      space[i].paths[j] == x && space[i].payoffs[j] == w;
    assert seeds[i] in seeds;
    StartPayoff(seeds[i], e, r, j);
    assert x == seeds[i] + [Positions(seeds[i], e, r)[j]];
    assert x[..N - 1] == seeds[i];
  }

  /** Member j of an optimal group: an admitted seed extended by one
      position, with the Voronoi payoff of that path. */
  lemma OptimalMember(M: nat, N: nat, question1: bool, e: real, r: real, i: nat, j: nat)
    requires M >= 1 && N >= 2 && r >= 0.0
    requires i < |Optimal(M, N, question1, e, r)| && j < |Optimal(M, N, question1, e, r)[i].paths|
    ensures var b := Optimal(M, N, question1, e, r)[i];
      && |b.paths[j]| == N && b.paths[j][..N - 1] in Admitted(M, N, question1)
      && b.payoffs[j] == Payoff(b.paths[j])
  {
    var space := Space(M, N, question1, e, r);
    var b := Optimal(M, N, question1, e, r)[i];
    assert Inside(b.paths[j], b.payoffs[j], space);
    StartMember(M, N, question1, e, r, b.paths[j], b.payoffs[j]);
  }

  /** A block of paths for N players, each member carrying the Voronoi
      payoffs of its own path. */
  predicate Scored(b: Block, N: nat) {
    && N >= 2 && |b.payoffs| == |b.paths|
    && (forall j :: 0 <= j < |b.paths| ==> |b.paths[j]| == N && |b.payoffs[j]| == N)
    && b.payoffs == PayoffsOf(b.paths)
  }

  lemma BlockPayoffs(b: Block, N: nat)
    requires N >= 2 && |b.paths| == |b.payoffs|
    requires forall j :: 0 <= j < |b.paths| ==> |b.paths[j]| == N && b.payoffs[j] == Payoff(b.paths[j])
    ensures Scored(b, N)
  {
    PayoffsOfEntries(b.paths, b.payoffs);
  }

  /** The payoffs of an optimal group are the Voronoi payoffs of its paths. */
  lemma OptimalPayoffs(M: nat, N: nat, question1: bool, e: real, r: real, i: nat)
    requires M >= 1 && N >= 2 && r >= 0.0
    requires i < |Optimal(M, N, question1, e, r)|
    ensures Scored(Optimal(M, N, question1, e, r)[i], N)
  {
    var b := Optimal(M, N, question1, e, r)[i];
    forall j | 0 <= j < |b.paths|
      ensures |b.paths[j]| == N && b.payoffs[j] == Payoff(b.paths[j])
    {
      OptimalMember(M, N, question1, e, r, i, j);
    }
    BlockPayoffs(b, N);
  }

  /** Every average the solver reports sums to 1. */
  lemma OptimalSums(M: nat, N: nat, question1: bool, e: real, r: real)
    requires M >= 1 && N >= 2 && r >= 0.0
    ensures var out := Optimal(M, N, question1, e, r);
      forall i, j :: 0 <= i < |out| && 0 <= j < |out[i].averages| ==> Sum(out[i].averages[j]) == 1.0
  {
    var seeds := Admitted(M, N, question1);
    StartsUniform(seeds, N, e, r);
    assert Space(M, N, question1, e, r) == Starts(seeds, e, r);
    SolvedSumsToOne(Space(M, N, question1, e, r), N, N, r);
    assert Optimal(M, N, question1, e, r) == Solved(Space(M, N, question1, e, r), N, N, r);
  }

  /** The paths of a report: at least one, and every one an admitted seed
      extended by a position for the last player, hence passing the filter. */
  lemma BackwardsPaths(M: nat, N: nat, question1: bool, e: real, r: real)
    requires M >= 1 && N >= 2 && r >= 0.0
    requires Backwards(M, N, question1, e, r).Some?
    ensures var o := Backwards(M, N, question1, e, r).value;
      && |o.paths| > 0
      && forall j :: 0 <= j < |o.paths| ==>
           |o.paths[j]| == N && o.paths[j][..N - 1] in Admitted(M, N, question1) && Admissible(o.paths[j], question1)
  {
    var b := Optimal(M, N, question1, e, r)[0];
    forall j | 0 <= j < |b.paths|
      ensures |b.paths[j]| == N && b.paths[j][..N - 1] in Admitted(M, N, question1)
      ensures Admissible(b.paths[j], question1)
    {
      OptimalMember(M, N, question1, e, r, 0, j);
      assert b.paths[j][0] == b.paths[j][..N - 1][0];
    }
  }

  /** The average of a report: a vector of N payoffs summing to 1, and the
      mean of the Voronoi payoffs of the reported paths. */
  lemma BackwardsAverage(M: nat, N: nat, question1: bool, e: real, r: real)
    requires M >= 1 && N >= 2 && r >= 0.0
    requires Backwards(M, N, question1, e, r).Some?
    ensures var o := Backwards(M, N, question1, e, r).value;
      && (forall j :: 0 <= j < |o.paths| ==> |o.paths[j]| == N)
      && |o.average| == N && Sum(o.average) == 1.0
      && o.average == Mean(PayoffsOf(o.paths))
  {
    var b := Optimal(M, N, question1, e, r)[0];
    OptimalSums(M, N, question1, e, r);
    OptimalPayoffs(M, N, question1, e, r, 0);
    WidthUniform(b.payoffs, N);
  }

  /** The choices reported from some paths of N players, each an admitted
      seed extended by one position. */
  lemma ChoicesOf(paths: seq<Path>, M: nat, N: nat, question1: bool)
    requires M >= 1 && N >= 2 && |paths| > 0
    requires forall j :: 0 <= j < |paths| ==>
      |paths[j]| == N && paths[j][..N - 1] in Admitted(M, N, question1) && Admissible(paths[j], question1)
    ensures Choices(paths, question1) != {}
    ensures forall c :: c in Choices(paths, question1) <==>
      exists j :: 0 <= j < |paths| && paths[j][Chooser(question1)] == c
    ensures !question1 ==> forall c :: c in Choices(paths, question1) ==> c <= 1.0 / 2.0
    ensures question1 && N >= 3 ==> forall c :: c in Choices(paths, question1) ==> c in Grid(M) && c != 0.0
  {
    var w := Chooser(question1);
    var cs := Choices(paths, question1);
    assert paths[0] in paths;
    assert paths[0][w] in cs;
    forall c | c in cs
      ensures exists j :: 0 <= j < |paths| && paths[j][w] == c
      ensures !question1 ==> c <= 1.0 / 2.0
      ensures question1 && N >= 3 ==> c in Grid(M) && c != 0.0
    {
      var p :| p in paths && w < |p| && p[w] == c;
      var j :| 0 <= j < |paths| && paths[j] == p;
      if question1 && N >= 3 {
        var s := p[..N - 1];
        assert Seed(s, M, N, question1);
        assert s[0] == p[0] && s[1] == p[1];
      }
    }
    forall c | exists j :: 0 <= j < |paths| && paths[j][w] == c
      ensures c in cs
    {
      var j :| 0 <= j < |paths| && paths[j][w] == c;
      assert paths[j] in paths;
    }
  }

  /** The reported choices: some, each the reported player's position in
      a reported path; the first player's at most 1/2 in the second
      question; the second player's a grid value other than 0 in the first
      question, when that player is not the last. */
  lemma BackwardsChoices(M: nat, N: nat, question1: bool, e: real, r: real)
    requires M >= 1 && N >= 2 && r >= 0.0
    requires Backwards(M, N, question1, e, r).Some?
    ensures var o := Backwards(M, N, question1, e, r).value;
      && (forall j :: 0 <= j < |o.paths| ==> |o.paths[j]| == N)
      && o.choices != {}
      && (forall c :: c in o.choices <==>
            exists j :: 0 <= j < |o.paths| && o.paths[j][Chooser(question1)] == c)
      && (!question1 ==> forall c :: c in o.choices ==> c <= 1.0 / 2.0)
      && (question1 && N >= 3 ==> forall c :: c in o.choices ==> c in Grid(M) && c != 0.0)
  {
    var o := Backwards(M, N, question1, e, r).value;
    BackwardsPaths(M, N, question1, e, r);
    ChoicesOf(o.paths, M, N, question1);
  }
}
