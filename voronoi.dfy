/** The payoff evaluator: each player's payoff is the length of the part
    of [0, 1] closer to its position than to any other player's. */
module Voronoi {
  import opened Common

  /** An assignment: the position of player i (in move order) at index i. */
  type Path = seq<real>

  /** A payoff vector: the payoff of player i at index i. */
  type Payoffs = seq<real>

  predicate InRange(ks: seq<nat>, n: nat) {
    forall k :: 0 <= k < |ks| ==> ks[k] < n
  }

  /** The keys ks list players in order of non-decreasing position. */
  predicate SortedBy(p: Path, ks: seq<nat>)
    requires InRange(ks, |p|)
  {
    forall a, b :: 0 <= a < b < |ks| ==> p[ks[a]] <= p[ks[b]]
  }

  /** Places key i in front of the first key whose position is larger, so
      that keys of equal position keep their order (a stable insertion). */
  function InsertKey(p: Path, ks: seq<nat>, i: nat): (r: seq<nat>)
    requires i < |p| && InRange(ks, |p|)
    ensures |r| == |ks| + 1 && InRange(r, |p|)
    ensures forall x :: x in r <==> x == i || x in ks
    decreases |ks|
  {
    if ks == [] then [i]
    else if p[i] < p[ks[0]] then [i] + ks
    else
      var rest := InsertKey(p, ks[1..], i);
      assert forall b :: 0 <= b < |rest| ==> rest[b] == i || rest[b] in ks[1..];
      [ks[0]] + rest
  }

  /** A key no higher than every key of a sorted list can go in front. */
  lemma ConsSorted(p: Path, x: nat, rest: seq<nat>)
    requires x < |p| && InRange(rest, |p|) && SortedBy(p, rest)
    requires forall b :: 0 <= b < |rest| ==> p[x] <= p[rest[b]]
    ensures InRange([x] + rest, |p|) && SortedBy(p, [x] + rest)
  {
    var r := [x] + rest;
    forall a, b | 0 <= a < b < |r| ensures p[r[a]] <= p[r[b]] {
      assert r[b] == rest[b - 1];
      if a > 0 {
        assert r[a] == rest[a - 1];
      }
    }
  }

  /** Inserting into keys sorted by position keeps them sorted. */
  lemma {:induction false} InsertKeySorted(p: Path, ks: seq<nat>, i: nat)
    requires i < |p| && InRange(ks, |p|) && SortedBy(p, ks)
    ensures SortedBy(p, InsertKey(p, ks, i))
    decreases |ks|
  {
    if ks == [] {
    } else if p[i] < p[ks[0]] {
      ConsSorted(p, i, ks);
    } else {
      var tail := ks[1..];
      assert SortedBy(p, tail) by {
        assert forall a :: 0 <= a < |tail| ==> tail[a] == ks[a + 1];
      }
      InsertKeySorted(p, tail, i);
      var rest := InsertKey(p, tail, i);
      forall b | 0 <= b < |rest| ensures p[ks[0]] <= p[rest[b]] {
        if rest[b] != i {
          assert rest[b] in tail;
          var a :| 0 <= a < |tail| && tail[a] == rest[b];
          assert ks[a + 1] == rest[b];
        }
      }
      ConsSorted(p, ks[0], rest);
    }
  }

  /** Inserting a new key into distinct keys keeps them distinct. */
  lemma {:induction false} InsertKeyDistinct(p: Path, ks: seq<nat>, i: nat)
    requires i < |p| && InRange(ks, |p|) && Distinct(ks) && i !in ks
    ensures Distinct(InsertKey(p, ks, i))
    decreases |ks|
  {
    if ks != [] && p[i] >= p[ks[0]] {
      var tail := ks[1..];
      assert Distinct(tail) by {
        assert forall a :: 0 <= a < |tail| ==> tail[a] == ks[a + 1];
      }
      InsertKeyDistinct(p, tail, i);
      var rest := InsertKey(p, tail, i);
      assert ks[0] !in tail;
      assert ks[0] !in rest;
      assert InsertKey(p, ks, i) == [ks[0]] + rest;
    }
  }

  /** Keys of equal position appear in increasing order (the sort is stable). */
  predicate StableBy(p: Path, ks: seq<nat>)
    requires InRange(ks, |p|)
  {
    forall a, b :: 0 <= a < b < |ks| && p[ks[a]] == p[ks[b]] ==> ks[a] < ks[b]
  }

  /** A key below every key of equal position can go in front of stable keys. */
  lemma StableCons(p: Path, x: nat, rest: seq<nat>)
    requires x < |p| && InRange(rest, |p|) && StableBy(p, rest)
    requires forall b :: 0 <= b < |rest| && p[x] == p[rest[b]] ==> x < rest[b]
    ensures InRange([x] + rest, |p|) && StableBy(p, [x] + rest)
  {
    var r := [x] + rest;
    forall a, b | 0 <= a < b < |r| && p[r[a]] == p[r[b]] ensures r[a] < r[b] {
      assert r[b] == rest[b - 1];
      if a > 0 {
        assert r[a] == rest[a - 1];
      }
    }
  }

  /** Inserting a key larger than all the others keeps sorted keys stable. */
  lemma {:induction false} InsertKeyStable(p: Path, ks: seq<nat>, i: nat)
    requires i < |p| && InRange(ks, |p|) && SortedBy(p, ks) && StableBy(p, ks)
    requires forall b :: 0 <= b < |ks| ==> ks[b] < i
    ensures StableBy(p, InsertKey(p, ks, i))
    decreases |ks|
  {
    if ks == [] {
    } else if p[i] < p[ks[0]] {
      assert forall b :: 0 <= b < |ks| ==> p[i] < p[ks[b]];
      StableCons(p, i, ks);
    } else {
      var tail := ks[1..];
      assert forall a :: 0 <= a < |tail| ==> tail[a] == ks[a + 1];
      InsertKeyStable(p, tail, i);
      var rest := InsertKey(p, tail, i);
      forall b | 0 <= b < |rest| && p[ks[0]] == p[rest[b]] ensures ks[0] < rest[b] {
        if rest[b] != i {
          assert rest[b] in tail;
          var c :| 0 <= c < |tail| && tail[c] == rest[b];
          assert ks[c + 1] == rest[b];
        }
      }
      StableCons(p, ks[0], rest);
    }
  }

  /** The keys 0 .. n-1 sorted by position (the source's sorted(path, key=path.get)). */
  function SortKeys(p: Path, n: nat): (ks: seq<nat>)
    requires n <= |p|
    ensures |ks| == n && InRange(ks, |p|) && SortedBy(p, ks) && Distinct(ks)
    ensures forall x: nat :: x in ks <==> x < n
    ensures StableBy(p, ks)
    decreases n
  {
    if n == 0 then []
    else
      var prev := SortKeys(p, n - 1);
      SortStep(p, prev, n - 1);
      InsertKey(p, prev, n - 1)
  }

  /** Inserting key i into the sorted keys 0 .. i-1 gives the sorted keys 0 .. i. */
  lemma SortStep(p: Path, prev: seq<nat>, i: nat)
    requires i < |p| && |prev| == i && InRange(prev, |p|)
    requires SortedBy(p, prev) && Distinct(prev) && StableBy(p, prev)
    requires forall x: nat :: x in prev <==> x < i
    ensures var ks := InsertKey(p, prev, i);
      && |ks| == i + 1 && InRange(ks, |p|) && SortedBy(p, ks) && Distinct(ks)
      && (forall x: nat :: x in ks <==> x < i + 1) && StableBy(p, ks)
  {
    InsertKeySorted(p, prev, i);
    InsertKeyDistinct(p, prev, i);
    assert forall b :: 0 <= b < |prev| ==> prev[b] in prev;
    InsertKeyStable(p, prev, i);
  }

  /** sorted(path, key=path.get): every player once, by non-decreasing
      position, players at the same position in move order. */
  function SortedKeys(p: Path): (ks: seq<nat>)
    ensures |ks| == |p| && InRange(ks, |p|) && SortedBy(p, ks) && Distinct(ks)
    ensures forall x: nat :: x in ks <==> x < |p|
    ensures StableBy(p, ks)
  {
    SortKeys(p, |p|)
  }

  /** The positions in ascending order. */
  function SortedValues(p: Path): (v: seq<real>)
    ensures |v| == |p|
    ensures forall k :: 0 <= k < |v| ==> v[k] == p[SortedKeys(p)[k]]
    ensures forall a, b :: 0 <= a < b < |v| ==> v[a] <= v[b]
  {
    var ks := SortedKeys(p);
    seq(|p|, k requires 0 <= k < |p| => p[ks[k]])
  }

  /** Lower end of the k-th cell in sorted order (lowbo in the source). */
  function LowBound(v: seq<real>, k: nat): real
    requires |v| >= 2 && k < |v|
  {
    if k == 0 then 0.0 else (v[k - 1] + v[k]) / 2.0
  }

  /** Upper end of the k-th cell in sorted order (upbo in the source). */
  function UpBound(v: seq<real>, k: nat): real
    requires |v| >= 2 && k < |v|
  {
    if k == |v| - 1 then 1.0 else (v[k] + v[k + 1]) / 2.0
  }

  /** The cell lengths of sorted positions v, in sorted order. */
  function Cells(v: seq<real>): (c: seq<real>)
    requires |v| != 1
    ensures |c| == |v|
  {
    if |v| == 0 then []
    else seq(|v|, k requires 0 <= k < |v| => UpBound(v, k) - LowBound(v, k))
  }

  /** The sequence base with entry ks[k] replaced by c[k], for each k in turn. */
  function Scatter(ks: seq<nat>, c: seq<real>, base: seq<real>): (r: seq<real>)
    requires |ks| == |c| && InRange(ks, |base|)
    ensures |r| == |base|
    decreases |ks|
  {
    if ks == [] then base
    else Scatter(ks[..|ks| - 1], c[..|c| - 1], base)[ks[|ks| - 1] := c[|c| - 1]]
  }

  function Zeros(n: nat): (z: seq<real>)
    ensures |z| == n && forall i :: 0 <= i < n ==> z[i] == 0.0
  {
    seq(n, _ => 0.0)
  }

  /** The payoff vector of a path: the player with the k-th smallest
      position receives the k-th cell. */
  function Payoff(p: Path): (r: Payoffs)
    requires |p| != 1
    ensures |r| == |p|
  {
    Scatter(SortedKeys(p), Cells(SortedValues(p)), Zeros(|p|))
  }

  /** One pass of the source's loop: the bounds of the k-th cell from the
      neighbours in sorted order, 0 and 1 at the two ends. */
  method CellWidth(p: Path, sortedKeys: seq<nat>, k: nat) returns (width: real)
    requires |p| >= 2 && k < |p| && sortedKeys == SortedKeys(p)
    ensures width == Cells(SortedValues(p))[k]
  {
    var n := |sortedKeys|;
    var lowbo, upbo;
    if k == 0 {
      lowbo := 0.0;
      upbo := (p[sortedKeys[k]] + p[sortedKeys[k + 1]]) / 2.0;
    } else if k == n - 1 {
      lowbo := (p[sortedKeys[k - 1]] + p[sortedKeys[k]]) / 2.0;
      upbo := 1.0;
    } else {
      lowbo := (p[sortedKeys[k - 1]] + p[sortedKeys[k]]) / 2.0;
      upbo := (p[sortedKeys[k]] + p[sortedKeys[k + 1]]) / 2.0;
    }
    CellAt(p, k);
    width := upbo - lowbo;
  }

  /** The payoffs recorded after the first k passes of the source's loop:
      cell j under key j of the sorted keys, for each j < k, 0 elsewhere. */
  function Recorded(p: Path, k: nat): (r: Payoffs)
    requires |p| != 1 && k <= |p|
    ensures |r| == |p|
  {
    Scatter(SortedKeys(p)[..k], Cells(SortedValues(p))[..k], Zeros(|p|))
  }

  /** Nothing is recorded before the loop, and everything after it. */
  lemma RecordedEnds(p: Path)
    requires |p| != 1
    ensures Recorded(p, 0) == Zeros(|p|)
    ensures Recorded(p, |p|) == Payoff(p)
  {
    var ks, c := SortedKeys(p), Cells(SortedValues(p));
    assert ks[..0] == [] && c[..0] == [];
    assert ks[..|ks|] == ks && c[..|c|] == c;
  }

  /** One pass of the loop body: cell k goes under key sorted_keys[k]. */
  method RecordCell(p: Path, sortedKeys: seq<nat>, output: Payoffs, k: nat)
    returns (next: Payoffs)
    requires |p| >= 2 && k < |p| && sortedKeys == SortedKeys(p)
    requires output == Recorded(p, k)
    ensures next == Recorded(p, k + 1)
  {
    ghost var c := Cells(SortedValues(p));
    var width := CellWidth(p, sortedKeys, k);
    ScatterSnoc(sortedKeys, c, Zeros(|p|), k);
    next := output[sortedKeys[k] := width];
  }

  /** The source's loop: walk the players in sorted order and record each
      one's cell. */
  method PayoffCalculator(p: Path) returns (output: Payoffs)
    requires |p| != 1
    ensures output == Payoff(p)
  {
    var sortedKeys := SortedKeys(p);
    var n := |p|;
    output := Zeros(n);
    RecordedEnds(p);
    var k := 0;
    while k < n
      invariant 0 <= k <= n
      invariant output == Recorded(p, k)
    {
      output := RecordCell(p, sortedKeys, output, k);
      k := k + 1;
    }
  }

  /** The k-th cell, written with the positions of the sorted keys. */
  lemma CellAt(p: Path, k: nat)
    requires |p| >= 2 && k < |p|
    ensures var ks, c := SortedKeys(p), Cells(SortedValues(p));
      c[k] == (if k == |p| - 1 then 1.0 else (p[ks[k]] + p[ks[k + 1]]) / 2.0)
            - (if k == 0 then 0.0 else (p[ks[k - 1]] + p[ks[k]]) / 2.0)
  {
  }

  lemma ScatterSnoc(ks: seq<nat>, c: seq<real>, base: seq<real>, k: nat)
    requires |ks| == |c| && InRange(ks, |base|) && k < |ks|
    ensures Scatter(ks[..k + 1], c[..k + 1], base)
            == Scatter(ks[..k], c[..k], base)[ks[k] := c[k]]
  {
    assert ks[..k + 1][..k] == ks[..k];
    assert c[..k + 1][..k] == c[..k];
  }

  // ---------------------------------------------------------------------
  // Properties of Scatter

  lemma {:induction false} ScatterAt(ks: seq<nat>, c: seq<real>, base: seq<real>, k: nat)
    requires |ks| == |c| && InRange(ks, |base|) && Distinct(ks) && k < |ks|
    ensures Scatter(ks, c, base)[ks[k]] == c[k]
    decreases |ks|
  {
    if k < |ks| - 1 {
      ScatterAt(ks[..|ks| - 1], c[..|c| - 1], base, k);
    }
  }

  lemma {:induction false} ScatterUntouched(ks: seq<nat>, c: seq<real>, base: seq<real>, j: nat)
    requires |ks| == |c| && InRange(ks, |base|) && j < |base| && j !in ks
    ensures Scatter(ks, c, base)[j] == base[j]
    decreases |ks|
  {
    if ks != [] {
      assert ks[|ks| - 1] in ks;
      ScatterUntouched(ks[..|ks| - 1], c[..|c| - 1], base, j);
    }
  }

  lemma {:induction false} SumZeros(n: nat)
    ensures Sum(Zeros(n)) == 0.0
  {
    if n > 0 {
      assert Zeros(n)[..n - 1] == Zeros(n - 1);
      SumZeros(n - 1);
    }
  }

  lemma {:induction false} SumUpdate(s: seq<real>, j: nat, x: real)
    requires j < |s|
    ensures Sum(s[j := x]) == Sum(s) - s[j] + x
    decreases |s|
  {
    var n := |s|;
    assert s[j := x][..n - 1] == if j == n - 1 then s[..n - 1] else s[..n - 1][j := x];
    if j < n - 1 {
      SumUpdate(s[..n - 1], j, x);
    }
  }

  /** Scattering distinct keys over zeros keeps the total. */
  lemma {:induction false} ScatterSum(ks: seq<nat>, c: seq<real>, n: nat)
    requires |ks| == |c| && InRange(ks, n) && Distinct(ks)
    ensures Sum(Scatter(ks, c, Zeros(n))) == Sum(c)
    decreases |ks|
  {
    if ks == [] {
      SumZeros(n);
    } else {
      var m := |ks| - 1;
      var ks', c' := ks[..m], c[..m];
      assert Distinct(ks');
      ScatterSum(ks', c', n);
      assert ks[m] !in ks';
      ScatterUntouched(ks', c', Zeros(n), ks[m]);
      var s' := Scatter(ks', c', Zeros(n));
      assert s'[ks[m]] == 0.0;
      SumUpdate(s', ks[m], c[m]);
      assert Scatter(ks, c, Zeros(n)) == s'[ks[m] := c[m]];
      assert Sum(c) == Sum(c') + c[m];
    }
  }

  // ---------------------------------------------------------------------
  // Cells telescope

  lemma {:induction false} CellsPrefixSum(v: seq<real>, m: nat)
    requires |v| >= 2 && 1 <= m <= |v| - 1
    ensures Sum(Cells(v)[..m]) == (v[m - 1] + v[m]) / 2.0
    decreases m
  {
    var c := Cells(v);
    assert c[..m][..m - 1] == c[..m - 1];
    if m == 1 {
      assert c[..0] == [];
    } else {
      CellsPrefixSum(v, m - 1);
    }
  }

  /** The cells of any two or more sorted positions cover [0, 1]. */
  lemma CellsSum(v: seq<real>)
    requires |v| >= 2
    ensures Sum(Cells(v)) == 1.0
  {
    var n := |v|;
    CellsPrefixSum(v, n - 1);
    assert Cells(v)[..n] == Cells(v);
    assert Cells(v)[..n][..n - 1] == Cells(v)[..n - 1];
  }

  // ---------------------------------------------------------------------
  // The promised properties of Payoff

  /** The payoffs of two or more players sum to 1. */
  lemma PayoffSumsToOne(p: Path)
    requires |p| >= 2
    ensures Sum(Payoff(p)) == 1.0
  {
    ScatterSum(SortedKeys(p), Cells(SortedValues(p)), |p|);
    CellsSum(SortedValues(p));
  }

  /** Player ks[k] (the k-th lowest) receives the k-th cell. */
  lemma PayoffOfRank(p: Path, k: nat)
    requires |p| >= 2 && k < |p|
    ensures Payoff(p)[SortedKeys(p)[k]]
            == UpBound(SortedValues(p), k) - LowBound(SortedValues(p), k)
  {
    ScatterAt(SortedKeys(p), Cells(SortedValues(p)), Zeros(|p|), k);
  }

  /** Where player i sits in the sorted order. */
  lemma RankOf(p: Path, i: nat) returns (k: nat)
    requires i < |p|
    ensures k < |p| && SortedKeys(p)[k] == i && SortedValues(p)[k] == p[i]
  {
    var ks := SortedKeys(p);
    assert i in ks;
    k :| 0 <= k < |ks| && ks[k] == i;
  }

  lemma SortedLe(p: Path, a: nat, b: nat)
    requires a <= b < |p|
    ensures SortedValues(p)[a] <= SortedValues(p)[b]
  {
  }

  /** Strictly increasing. */
  predicate Increasing(v: seq<real>) {
    forall a, b :: 0 <= a < b < |v| ==> v[a] < v[b]
  }

  /** With distinct positions the sorted values are strictly increasing. */
  lemma DistinctIncreasing(p: Path)
    requires Distinct(p)
    ensures Increasing(SortedValues(p))
  {
    var ks := SortedKeys(p);
    var v := SortedValues(p);
    forall a, b | 0 <= a < b < |v| ensures v[a] < v[b] {
      assert ks[a] != ks[b];
      assert p[ks[a]] != p[ks[b]];
    }
  }

  /** Bounds on one cell of sorted positions that lie in [0, 1]. */
  lemma CellBounds(v: seq<real>, k: nat)
    requires |v| >= 2 && k < |v|
    requires forall a, b :: 0 <= a < b < |v| ==> v[a] <= v[b]
    requires 0.0 <= v[0] && v[|v| - 1] <= 1.0
    ensures UpBound(v, k) - LowBound(v, k) >= 0.0
    ensures Increasing(v) ==> UpBound(v, k) - LowBound(v, k) > 0.0
  {
  }

  /** With positions in [0, 1], no payoff is negative; with distinct
      positions in [0, 1], every payoff is positive. */
  lemma PayoffNonNegative(p: Path)
    requires |p| >= 2
    requires forall i :: 0 <= i < |p| ==> 0.0 <= p[i] <= 1.0
    ensures forall i :: 0 <= i < |p| ==> Payoff(p)[i] >= 0.0
    ensures Distinct(p) ==> forall i :: 0 <= i < |p| ==> Payoff(p)[i] > 0.0
  {
    var v := SortedValues(p);
    var ks := SortedKeys(p);
    assert 0.0 <= p[ks[0]] && p[ks[|p| - 1]] <= 1.0;
    assert 0.0 <= v[0] && v[|p| - 1] <= 1.0;
    if Distinct(p) {
      DistinctIncreasing(p);
    }
    forall i | 0 <= i < |p|
      ensures Payoff(p)[i] >= 0.0
      ensures Distinct(p) ==> Payoff(p)[i] > 0.0
    {
      PayoffOfPlayer(p, i);
    }
  }

  lemma PayoffOfPlayer(p: Path, i: nat)
    requires |p| >= 2 && i < |p|
    requires 0.0 <= SortedValues(p)[0] && SortedValues(p)[|p| - 1] <= 1.0
    ensures Payoff(p)[i] >= 0.0
    ensures Increasing(SortedValues(p)) ==> Payoff(p)[i] > 0.0
  {
    var v := SortedValues(p);
    var k := RankOf(p, i);
    CellBounds(v, k);
    PayoffOfRank(p, k);
  }

  /** In sorted values, an entry above all the others is the last, and the
      one just below it is the largest of the others. */
  lemma TopOfSorted(v: seq<real>, k: nat, l: nat)
    requires |v| >= 2 && k < |v| && l < |v| && v[l] < v[k]
    requires forall a, b :: 0 <= a < b < |v| ==> v[a] <= v[b]
    requires forall a :: 0 <= a < |v| && a != k ==> v[a] <= v[l]
    ensures k == |v| - 1 && v[|v| - 2] == v[l]
  {
    var n := |v|;
    assert v[k] <= v[n - 1];
    assert l <= n - 2 && v[n - 2] <= v[l];
  }

  /** In sorted values, an entry below all the others is the first, and the
      one just above it is the smallest of the others. */
  lemma BottomOfSorted(v: seq<real>, k: nat, h: nat)
    requires |v| >= 2 && k < |v| && h < |v| && v[k] < v[h]
    requires forall a, b :: 0 <= a < b < |v| ==> v[a] <= v[b]
    requires forall a :: 0 <= a < |v| && a != k ==> v[h] <= v[a]
    ensures k == 0 && v[1] == v[h]
  {
    assert v[0] <= v[k];
    assert 1 <= h && v[h] <= v[1];
  }

  /** The lowest player owns [0, midpoint to its upper neighbour]. */
  lemma PayoffLowest(p: Path, i: nat, hi: nat)
    requires |p| >= 2 && i < |p| && hi < |p|
    requires p[i] < p[hi]
    requires forall j :: 0 <= j < |p| && j != i ==> p[hi] <= p[j]
    ensures Payoff(p)[i] == (p[i] + p[hi]) / 2.0
  {
    var v := SortedValues(p);
    var ks := SortedKeys(p);
    var k := RankOf(p, i);
    var h := RankOf(p, hi);
    forall a | 0 <= a < |p| && a != k ensures v[h] <= v[a] {
      assert ks[a] != i;
    }
    BottomOfSorted(v, k, h);
    PayoffOfRank(p, k);
  }

  /** The highest player owns [midpoint to its lower neighbour, 1]. */
  lemma PayoffHighest(p: Path, i: nat, lo: nat)
    requires |p| >= 2 && i < |p| && lo < |p|
    requires p[lo] < p[i]
    requires forall j :: 0 <= j < |p| && j != i ==> p[j] <= p[lo]
    ensures Payoff(p)[i] == 1.0 - (p[lo] + p[i]) / 2.0
  {
    var v := SortedValues(p);
    var ks := SortedKeys(p);
    var k := RankOf(p, i);
    var l := RankOf(p, lo);
    forall a | 0 <= a < |p| && a != k ensures v[a] <= v[l] {
      assert ks[a] != i;
    }
    TopOfSorted(v, k, l);
    assert LowBound(v, k) == (p[lo] + p[i]) / 2.0;
    PayoffOfRank(p, k);
  }

  /** In sorted values, an entry strictly between v[l] and v[h] with no other
      entry strictly between them has those two as its neighbours. */
  lemma InteriorOfSorted(v: seq<real>, k: nat, l: nat, h: nat)
    requires |v| >= 3 && k < |v| && l < |v| && h < |v| && v[l] < v[k] < v[h]
    requires forall a, b :: 0 <= a < b < |v| ==> v[a] <= v[b]
    requires forall a :: 0 <= a < |v| && a != k ==> v[a] <= v[l] || v[h] <= v[a]
    ensures 0 < k < |v| - 1 && v[k - 1] == v[l] && v[k + 1] == v[h]
  {
    assert l < k < h;
    assert v[k - 1] <= v[k] && v[k] <= v[k + 1];
    assert v[l] <= v[k - 1] && v[k + 1] <= v[h];
  }

  /** An interior player owns the span between the midpoints to its two
      neighbours. */
  lemma PayoffInterior(p: Path, i: nat, lo: nat, hi: nat)
    requires |p| >= 3 && i < |p| && lo < |p| && hi < |p|
    requires p[lo] < p[i] < p[hi]
    requires forall j :: 0 <= j < |p| && j != i ==> p[j] <= p[lo] || p[hi] <= p[j]
    ensures Payoff(p)[i] == (p[i] + p[hi]) / 2.0 - (p[lo] + p[i]) / 2.0
  {
    var v := SortedValues(p);
    var ks := SortedKeys(p);
    var k := RankOf(p, i);
    var l := RankOf(p, lo);
    var h := RankOf(p, hi);
    forall a | 0 <= a < |p| && a != k ensures v[a] <= v[l] || v[h] <= v[a] {
      assert ks[a] != i;
    }
    InteriorOfSorted(v, k, l, h);
    PayoffOfRank(p, k);
  }
}
