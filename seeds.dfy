/** The enumeration seed: every ordering of distinct grid values for the
    first N - 1 players. */
module Seeds {
  import opened Common
  import opened Voronoi

  /** The grid {0, 1/M, 2/M, ..., 1}. */
  function Grid(M: nat): (g: seq<real>)
    requires M >= 1
    ensures |g| == M + 1
    ensures forall x :: 0 <= x <= M ==> g[x] == x as real / M as real
  {
    seq(M + 1, x requires 0 <= x <= M => x as real / M as real)
  }

  /** The grid values are strictly increasing, hence distinct, and lie in [0, 1]. */
  lemma GridIncreasing(M: nat)
    requires M >= 1
    ensures forall x, y :: 0 <= x < y <= M ==> Grid(M)[x] < Grid(M)[y]
    ensures Distinct(Grid(M))
    ensures forall x :: 0 <= x <= M ==> 0.0 <= Grid(M)[x] <= 1.0
  {
    var g := Grid(M);
    var m := M as real;
    forall x, y | 0 <= x < y <= M ensures g[x] < g[y] {
      assert g[y] - g[x] == (y - x) as real / m;
    }
    forall x | 0 <= x <= M ensures 0.0 <= g[x] <= 1.0 {
      assert g[x] * m == x as real;
    }
  }

  /** s without its i-th entry. */
  function Remove(s: seq<real>, i: nat): (r: seq<real>)
    requires i < |s|
    ensures |r| == |s| - 1
  {
    s[..i] + s[i + 1..]
  }

  lemma RemoveMember(s: seq<real>, i: nat, y: real)
    requires i < |s| && Distinct(s)
    ensures y in Remove(s, i) <==> y in s && y != s[i]
  {
    var r := Remove(s, i);
    if y in r {
      var j :| 0 <= j < |r| && r[j] == y;
      if j < i { assert y == s[j]; } else { assert y == s[j + 1]; }
    }
    if y in s && y != s[i] {
      var j :| 0 <= j < |s| && s[j] == y;
      if j < i { assert r[j] == y; } else { assert r[j - 1] == y; }
    }
  }

  lemma RemoveDistinct(s: seq<real>, i: nat)
    requires i < |s| && Distinct(s)
    ensures Distinct(Remove(s, i))
  {
    var r := Remove(s, i);
    forall a, b | 0 <= a < b < |r| ensures r[a] != r[b] {
      var a' := if a < i then a else a + 1;
      var b' := if b < i then b else b + 1;
      assert r[a] == s[a'] && r[b] == s[b'];
    }
  }

  function Prepend(x: real, ps: seq<Path>): (r: seq<Path>)
    ensures |r| == |ps|
  {
    seq(|ps|, j requires 0 <= j < |ps| => [x] + ps[j])
  }

  /** The itertools.permutations(vals, m) enumeration: the first entry is
      taken from vals in index order, the rest are the arrangements of the
      remaining values. */
  function Arrangements(vals: seq<real>, m: nat): seq<Path>
    decreases m, 2
  {
    if m == 0 then [[]] else Concat(Branches(vals, m))
  }

  function Branches(vals: seq<real>, m: nat): (bs: seq<seq<Path>>)
    requires m >= 1
    ensures |bs| == |vals|
    decreases m, 1
  {
    seq(|vals|, i requires 0 <= i < |vals| => Branch(vals, m, i))
  }

  /** The arrangements that start with vals[i]. */
  function Branch(vals: seq<real>, m: nat, i: nat): seq<Path>
    requires m >= 1 && i < |vals|
    decreases m, 0
  {
    Prepend(vals[i], Arrangements(Remove(vals, i), m - 1))
  }

  /** Every arrangement has m pairwise-distinct values drawn from vals. */
  lemma {:induction false} ArrangementsSound(vals: seq<real>, m: nat, x: Path)
    requires Distinct(vals) && x in Arrangements(vals, m)
    ensures |x| == m && Distinct(x) && forall j :: 0 <= j < |x| ==> x[j] in vals
    decreases m
  {
    if m > 0 {
      var ss := Branches(vals, m);
      ConcatMember(ss, x);
      var i :| 0 <= i < |ss| && x in ss[i];
      assert ss[i] == Branch(vals, m, i);
      var rest := Arrangements(Remove(vals, i), m - 1);
      var j :| 0 <= j < |rest| && x == [vals[i]] + rest[j];
      RemoveDistinct(vals, i);
      ArrangementsSound(Remove(vals, i), m - 1, rest[j]);
      forall k | 0 <= k < |rest[j]| ensures rest[j][k] in vals && rest[j][k] != vals[i] {
        RemoveMember(vals, i, rest[j][k]);
      }
      forall a, b | 0 <= a < b < |x| ensures x[a] != x[b] {
        if a > 0 { assert x[a] == rest[j][a - 1]; }
        assert x[b] == rest[j][b - 1];
      }
      forall k | 0 <= k < |x| ensures x[k] in vals {
        if k > 0 { assert x[k] == rest[j][k - 1]; }
      }
    }
  }

  /** Every sequence of m pairwise-distinct values of vals is enumerated. */
  lemma {:induction false} ArrangementsComplete(vals: seq<real>, m: nat, x: Path)
    requires Distinct(vals)
    requires |x| == m && Distinct(x) && forall j :: 0 <= j < |x| ==> x[j] in vals
    ensures x in Arrangements(vals, m)
    decreases m
  {
    if m == 0 {
      assert x == [];
    } else {
      var ss := Branches(vals, m);
      assert x[0] in vals;
      var i :| 0 <= i < |vals| && vals[i] == x[0];
      var q := x[1..];
      forall k | 0 <= k < |q| ensures q[k] in Remove(vals, i) {
        assert q[k] == x[k + 1] && x[k + 1] != x[0];
        RemoveMember(vals, i, q[k]);
      }
      forall a, b | 0 <= a < b < |q| ensures q[a] != q[b] {
        assert q[a] == x[a + 1] && q[b] == x[b + 1];
      }
      RemoveDistinct(vals, i);
      ArrangementsComplete(Remove(vals, i), m - 1, q);
      var rest := Arrangements(Remove(vals, i), m - 1);
      var j :| 0 <= j < |rest| && rest[j] == q;
      assert ss[i] == Branch(vals, m, i);
      assert ss[i][j] == x;
      ConcatMember(ss, x);
    }
  }

  /** The falling factorial n (n-1) ... (n-m+1). */
  function Falling(n: nat, m: nat): nat
    decreases m
  {
    if m == 0 then 1 else if n == 0 then 0 else n * Falling(n - 1, m - 1)
  }

  function Fact(n: nat): nat
  {
    if n == 0 then 1 else n * Fact(n - 1)
  }

  lemma {:induction false} FallingFact(n: nat, m: nat)
    requires m <= n
    ensures Falling(n, m) * Fact(n - m) == Fact(n)
    decreases m
  {
    if m > 0 {
      var a, b := Falling(n - 1, m - 1), Fact(n - m);
      assert (n - 1) - (m - 1) == n - m;
      FallingFact(n - 1, m - 1);
      assert a * b == Fact(n - 1);
      assert Falling(n, m) == n * a;
      assert (n * a) * b == n * (a * b);
      assert Fact(n) == n * Fact(n - 1);
    }
  }

  lemma {:induction false} FallingTooMany(n: nat, m: nat)
    requires m > n
    ensures Falling(n, m) == 0
    decreases m
  {
    if n > 0 {
      FallingTooMany(n - 1, m - 1);
    }
  }

  /** There are n (n-1) ... (n-m+1) arrangements of m out of n values. */
  lemma {:induction false} ArrangementsCount(vals: seq<real>, m: nat)
    ensures |Arrangements(vals, m)| == Falling(|vals|, m)
    decreases m
  {
    if m > 0 {
      var ss := Branches(vals, m);
      if |vals| == 0 {
        assert ss == [];
      } else {
        forall i | 0 <= i < |vals| ensures |ss[i]| == Falling(|vals| - 1, m - 1) {
          assert ss[i] == Branch(vals, m, i);
          ArrangementsCount(Remove(vals, i), m - 1);
        }
        ConcatLength(ss, Falling(|vals| - 1, m - 1));
      }
    }
  }

  /** The arrangements are exactly the sequences of m pairwise-distinct
      values of vals. */
  lemma ArrangementsExact(vals: seq<real>, m: nat)
    requires Distinct(vals)
    ensures forall p :: p in Arrangements(vals, m) <==>
      |p| == m && Distinct(p) && forall i :: 0 <= i < |p| ==> p[i] in vals
  {
    forall p ensures p in Arrangements(vals, m) <==>
      |p| == m && Distinct(p) && forall i :: 0 <= i < |p| ==> p[i] in vals
    {
      if p in Arrangements(vals, m) {
        ArrangementsSound(vals, m, p);
      }
      if |p| == m && Distinct(p) && forall i :: 0 <= i < |p| ==> p[i] in vals {
        ArrangementsComplete(vals, m, p);
      }
    }
  }

  /** There are (M+1)! / (M+1-m)! arrangements of m grid values, and none
      when m exceeds the M + 1 grid values. */
  lemma GridArrangementsCount(M: nat, m: nat)
    requires M >= 1
    ensures m <= M + 1 ==> |Arrangements(Grid(M), m)| * Fact(M + 1 - m) == Fact(M + 1)
    ensures m > M + 1 ==> Arrangements(Grid(M), m) == []
  {
    ArrangementsCount(Grid(M), m);
    if m <= M + 1 {
      FallingFact(M + 1, m);
    } else {
      FallingTooMany(M + 1, m);
    }
  }

  /** play_generator: the orderings of N - 1 distinct grid values, each
      turned into an assignment of the first N - 1 players. */
  method PlayGenerator(M: nat, N: nat) returns (output: seq<Path>)
    requires M >= 1 && N >= 1
    ensures output == Arrangements(Grid(M), N - 1)
    ensures forall p :: p in output <==>
      |p| == N - 1 && Distinct(p) && forall i :: 0 <= i < |p| ==> p[i] in Grid(M)
    ensures N - 1 <= M + 1 ==> |output| * Fact(M + 2 - N) == Fact(M + 1)
    ensures N - 1 > M + 1 ==> output == []
  {
    var discretized := Grid(M);
    GridIncreasing(M);
    var perms := Arrangements(discretized, N - 1);
    output := [];
    for idx := 0 to |perms|
      invariant output == perms[..idx]
    {
      var perm := perms[idx];
      ArrangementsSound(discretized, N - 1, perm);
      var processedPerm := seq(N - 1, i requires 0 <= i < N - 1 => perm[i]);
      assert processedPerm == perm;
      PrefixSnoc(perms, idx);
      output := output + [processedPerm];
    }
    assert perms[..|perms|] == perms;
    ArrangementsExact(discretized, N - 1);
    GridArrangementsCount(M, N - 1);
  }
}
