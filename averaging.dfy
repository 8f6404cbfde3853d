/** The averaging step of the backward induction: every member of a group
    of tied continuations is credited with the group's mean payoff vector. */
module Averaging {
  import opened Common
  import opened Voronoi
  import opened Response

  /** A group with the average payoff attached to each member (the source's
      path_group, payoff_group and payoff_average). */
  datatype Block = Block(paths: seq<Path>, payoffs: seq<Payoffs>, averages: seq<Payoffs>)

  /** Entry i of a payoff vector, 0 past its end (a key a Counter lacks
      counts as 0). */
  function Get(a: Payoffs, i: nat): real {
    if i < |a| then a[i] else 0.0
  }

  function Longer(a: nat, b: nat): nat {
    if a >= b then a else b
  }

  /** Element-wise sum, the shorter vector padded with zeros. */
  function Add(a: Payoffs, b: Payoffs): (c: Payoffs)
    ensures |c| == Longer(|a|, |b|)
    ensures forall i :: 0 <= i < |c| ==> c[i] == Get(a, i) + Get(b, i)
  {
    seq(Longer(|a|, |b|), i requires 0 <= i => Get(a, i) + Get(b, i))
  }

  /** The length of the longest vector. */
  function Width(ps: seq<Payoffs>): nat
    decreases |ps|
  {
    if ps == [] then 0 else Longer(Width(ps[..|ps| - 1]), |ps[|ps| - 1]|)
  }

  /** The source's reduce(add, ...): a left fold of Add over the group. */
  function Total(ps: seq<Payoffs>): (t: Payoffs)
    requires |ps| > 0
    ensures |t| == Width(ps)
    decreases |ps|
  {
    if |ps| == 1 then ps[0] else Add(Total(ps[..|ps| - 1]), ps[|ps| - 1])
  }

  /** Entry i of every vector of the group. */
  function Column(ps: seq<Payoffs>, i: nat): (c: seq<real>)
    ensures |c| == |ps| && forall j :: 0 <= j < |ps| ==> c[j] == Get(ps[j], i)
  {
    seq(|ps|, j requires 0 <= j < |ps| => Get(ps[j], i))
  }

  /** The mean payoff vector of a non-empty group. */
  function Mean(ps: seq<Payoffs>): (m: Payoffs)
    requires |ps| > 0
    ensures |m| == Width(ps)
  {
    var t := Total(ps);
    seq(|t|, i requires 0 <= i < |t| => t[i] / (|ps| as real))
  }

  /** payoff_average_calculator: the group unchanged, with the same mean
      vector attached once per member. */
  function WithAverage(g: Group): (b: Block)
    requires |g.payoffs| > 0
    ensures b.paths == g.paths && b.payoffs == g.payoffs
    ensures |b.averages| == |g.payoffs|
    ensures forall j :: 0 <= j < |b.averages| ==> b.averages[j] == Mean(g.payoffs)
  {
    Block(g.paths, g.payoffs, seq(|g.payoffs|, _ => Mean(g.payoffs)))
  }

  // ---------------------------------------------------------------------
  // Properties

  lemma {:induction false} ColumnSnoc(ps: seq<Payoffs>, i: nat)
    requires |ps| > 0
    ensures Column(ps, i) == Column(ps[..|ps| - 1], i) + [Get(ps[|ps| - 1], i)]
  {
  }

  /** The fold computes, entry by entry, the sum of the column. */
  lemma {:induction false} TotalIsColumnSum(ps: seq<Payoffs>, i: nat)
    requires |ps| > 0
    ensures Get(Total(ps), i) == Sum(Column(ps, i))
    decreases |ps|
  {
    var n := |ps|;
    if n == 1 {
      assert Column(ps, i) == [Get(ps[0], i)];
      assert Sum(Column(ps, i)) == Sum([]) + Get(ps[0], i);
    } else {
      TotalIsColumnSum(ps[..n - 1], i);
      ColumnSnoc(ps, i);
      var a, b := Total(ps[..n - 1]), ps[n - 1];
      if i >= |Add(a, b)| {
        assert Get(a, i) == 0.0 && Get(b, i) == 0.0;
      }
    }
  }

  /** The mean is the column sum divided by the group size. */
  lemma MeanAt(ps: seq<Payoffs>, i: nat)
    requires |ps| > 0 && i < Width(ps)
    ensures Mean(ps)[i] == Sum(Column(ps, i)) / (|ps| as real)
  {
    TotalIsColumnSum(ps, i);
  }

  /** Vectors of one length n give a mean vector of length n. */
  lemma {:induction false} WidthUniform(ps: seq<Payoffs>, n: nat)
    requires |ps| > 0 && forall j :: 0 <= j < |ps| ==> |ps[j]| == n
    ensures Width(ps) == n
    decreases |ps|
  {
    if |ps| > 1 {
      WidthUniform(ps[..|ps| - 1], n);
    } else {
      assert ps[..0] == [];
    }
  }

  /** The sum of all the vectors' totals, one column at a time. */
  function SumOfSums(ps: seq<Payoffs>): real
    decreases |ps|
  {
    if ps == [] then 0.0 else SumOfSums(ps[..|ps| - 1]) + Sum(ps[|ps| - 1])
  }

  lemma {:induction false} SumAdd(a: Payoffs, b: Payoffs)
    requires |a| == |b|
    ensures Sum(Add(a, b)) == Sum(a) + Sum(b)
    decreases |a|
  {
    if |a| > 0 {
      var n := |a| - 1;
      SumAdd(a[..n], b[..n]);
      assert Add(a, b)[..n] == Add(a[..n], b[..n]);
    } else {
      assert Add(a, b) == [];
    }
  }

  /** The total of the fold is the sum of the members' totals. */
  lemma {:induction false} SumTotal(ps: seq<Payoffs>, n: nat)
    requires |ps| > 0 && forall j :: 0 <= j < |ps| ==> |ps[j]| == n
    ensures Sum(Total(ps)) == SumOfSums(ps)
    decreases |ps|
  {
    if |ps| == 1 {
      assert ps[..0] == [];
    } else {
      var m := |ps| - 1;
      SumTotal(ps[..m], n);
      WidthUniform(ps[..m], n);
      SumAdd(Total(ps[..m]), ps[m]);
    }
  }

  lemma {:induction false} SumOfOnes(ps: seq<Payoffs>)
    requires forall j :: 0 <= j < |ps| ==> Sum(ps[j]) == 1.0
    ensures SumOfSums(ps) == |ps| as real
    decreases |ps|
  {
    if ps != [] {
      SumOfOnes(ps[..|ps| - 1]);
    }
  }

  lemma {:induction false} SumScale(t: seq<real>, d: real)
    requires d > 0.0
    ensures Sum(seq(|t|, i requires 0 <= i < |t| => t[i] / d)) == Sum(t) / d
    decreases |t|
  {
    if t != [] {
      var n := |t| - 1;
      SumScale(t[..n], d);
      assert seq(|t|, i requires 0 <= i < |t| => t[i] / d)[..n]
          == seq(n, i requires 0 <= i < n => t[..n][i] / d);
    }
  }

  lemma ScaleBack(d: real, x: real)
    requires d > 0.0
    ensures (d * x) / d == x
  {
  }

  /** When every member's payoffs sum to 1, and all have the same number of
      players, so does the mean. */
  lemma MeanSumsToOne(ps: seq<Payoffs>, n: nat)
    requires |ps| > 0
    requires forall j :: 0 <= j < |ps| ==> |ps[j]| == n && Sum(ps[j]) == 1.0
    ensures Sum(Mean(ps)) == 1.0
  {
    var d := |ps| as real;
    var t := Total(ps);
    SumTotal(ps, n);
    SumOfOnes(ps);
    SumScale(t, d);
    assert Mean(ps) == seq(|t|, i requires 0 <= i < |t| => t[i] / d);
    assert Sum(t) == d;
    ScaleBack(d, 1.0);
  }

  lemma {:induction false} SumConstant(s: seq<real>, x: real)
    requires forall j :: 0 <= j < |s| ==> s[j] == x
    ensures Sum(s) == (|s| as real) * x
    decreases |s|
  {
    if s != [] {
      SumConstant(s[..|s| - 1], x);
    }
  }

  /** Averaging a group whose members all have the same payoffs returns
      those payoffs. */
  lemma MeanOfCopies(ps: seq<Payoffs>, v: Payoffs)
    requires |ps| > 0 && forall j :: 0 <= j < |ps| ==> ps[j] == v
    ensures Mean(ps) == v
  {
    WidthUniform(ps, |v|);
    forall i | 0 <= i < |v| ensures Mean(ps)[i] == v[i] {
      MeanAt(ps, i);
      SumConstant(Column(ps, i), v[i]);
      ScaleBack(|ps| as real, v[i]);
    }
  }

  // ---------------------------------------------------------------------
  // Counter addition

  /** A payoff vector as the Counter the source builds from it. */
  function CounterOf(a: Payoffs): map<nat, real> {
    map i: nat | i < |a| :: a[i]
  }

  /** Counter addition: a key present in either operand is kept with the
      summed count, but only when that sum is positive. */
  function CounterAdd(x: map<nat, real>, y: map<nat, real>): (z: map<nat, real>)
  {
    map k | k in x.Keys + y.Keys && CountOf(x, k) + CountOf(y, k) > 0.0 :: CountOf(x, k) + CountOf(y, k)
  }

  function CountOf(x: map<nat, real>, k: nat): real {
    if k in x then x[k] else 0.0
  }

  /** The source's dict(reduce(add, map(Counter, payoff_group))). */
  function CounterTotal(ps: seq<Payoffs>): map<nat, real>
    requires |ps| > 0
    decreases |ps|
  {
    if |ps| == 1 then CounterOf(ps[0])
    else CounterAdd(CounterTotal(ps[..|ps| - 1]), CounterOf(ps[|ps| - 1]))
  }

  predicate Positive(ps: seq<Payoffs>) {
    forall j, i :: 0 <= j < |ps| && 0 <= i < |ps[j]| ==> ps[j][i] > 0.0
  }

  /** Adding two Counters built from vectors of positive entries drops
      nothing. */
  lemma CounterAddOf(a: Payoffs, b: Payoffs)
    requires forall i :: 0 <= i < |a| ==> a[i] > 0.0
    requires forall i :: 0 <= i < |b| ==> b[i] > 0.0
    ensures CounterAdd(CounterOf(a), CounterOf(b)) == CounterOf(Add(a, b))
  {
    var x, y, c := CounterOf(a), CounterOf(b), Add(a, b);
    var z := CounterAdd(x, y);
    forall k: nat ensures k in z <==> k < |c| {
      if k < |c| {
        assert k < |a| || k < |b|;
        assert CountOf(x, k) == Get(a, k) && CountOf(y, k) == Get(b, k);
      }
    }
    forall k: nat | k < |c| ensures z[k] == c[k] {
      assert CountOf(x, k) == Get(a, k) && CountOf(y, k) == Get(b, k);
    }
    assert z.Keys == CounterOf(c).Keys;
  }

  /** With positive payoffs the Counter fold keeps every key and agrees with
      Total; a non-positive running sum is what makes it drop a key. */
  lemma {:induction false} CounterTotalAgrees(ps: seq<Payoffs>)
    requires |ps| > 0 && Positive(ps)
    ensures CounterTotal(ps) == CounterOf(Total(ps))
    ensures forall i :: 0 <= i < |Total(ps)| ==> Total(ps)[i] > 0.0
    decreases |ps|
  {
    var n := |ps|;
    if n > 1 {
      var front := ps[..n - 1];
      assert Positive(front) by {
        assert forall j :: 0 <= j < n - 1 ==> front[j] == ps[j];
      }
      CounterTotalAgrees(front);
      var t0, last := Total(front), ps[n - 1];
      assert forall i :: 0 <= i < |last| ==> last[i] > 0.0;
      CounterAddOf(t0, last);
      var t := Add(t0, last);
      forall i | 0 <= i < |t| ensures t[i] > 0.0 {
        assert i < |t0| || i < |last|;
      }
    }
  }
}
