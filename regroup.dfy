/** Regrouping: all (path, payoff, average) triples of all groups are
    pooled, stably sorted by the positions of the first players, and cut
    into runs that agree on those positions. */
module Regrouping {
  import opened Common
  import opened Voronoi
  import opened Averaging

  /** One (path, payoff, average) triple. */
  datatype Entry = Entry(path: Path, payoff: Payoffs, average: Payoffs)

  function Min3(a: nat, b: nat, c: nat): nat {
    if a <= b && a <= c then a else if b <= c then b else c
  }

  /** zip of the three lists of a group: as many triples as the shortest. */
  function Zip(b: Block): (ts: seq<Entry>)
    ensures |ts| == Min3(|b.paths|, |b.payoffs|, |b.averages|)
    ensures forall j :: 0 <= j < |ts| ==> ts[j] == Entry(b.paths[j], b.payoffs[j], b.averages[j])
  {
    seq(Min3(|b.paths|, |b.payoffs|, |b.averages|),
        j requires 0 <= j < Min3(|b.paths|, |b.payoffs|, |b.averages|) =>
          Entry(b.paths[j], b.payoffs[j], b.averages[j]))
  }

  /** The triples of every group, group after group. */
  function Flatten(space: seq<Block>): seq<Entry>
    decreases |space|
  {
    if space == [] then [] else Flatten(space[..|space| - 1]) + Zip(space[|space| - 1])
  }

  /** The three lists of a run of triples. */
  function Unzip(ts: seq<Entry>): (b: Block)
    ensures |b.paths| == |b.payoffs| == |b.averages| == |ts|
    ensures forall j :: 0 <= j < |ts| ==>
      b.paths[j] == ts[j].path && b.payoffs[j] == ts[j].payoff && b.averages[j] == ts[j].average
  {
    Block(seq(|ts|, j requires 0 <= j < |ts| => ts[j].path),
          seq(|ts|, j requires 0 <= j < |ts| => ts[j].payoff),
          seq(|ts|, j requires 0 <= j < |ts| => ts[j].average))
  }

  lemma UnzipSnoc(ts: seq<Entry>, t: Entry)
    ensures Unzip(ts + [t]) == Block(Unzip(ts).paths + [t.path], Unzip(ts).payoffs + [t.payoff],
                                     Unzip(ts).averages + [t.average])
  {
  }

  /** Zipping the unzipped lists gives back the triples. */
  lemma ZipUnzip(ts: seq<Entry>)
    ensures Zip(Unzip(ts)) == ts
  {
  }

  // ---------------------------------------------------------------------
  // Python's ordering of lists

  /** Python's < on lists of numbers: the first difference decides, and a
      proper prefix comes first. */
  predicate LexLess(a: seq<real>, b: seq<real>)
    decreases |a|
  {
    if a == [] then b != []
    else if b == [] then false
    else if a[0] != b[0] then a[0] < b[0]
    else LexLess(a[1..], b[1..])
  }

  lemma {:induction false} LexIrreflexive(a: seq<real>)
    ensures !LexLess(a, a)
    decreases |a|
  {
    if a != [] {
      LexIrreflexive(a[1..]);
    }
  }

  lemma {:induction false} LexTransitive(a: seq<real>, b: seq<real>, c: seq<real>)
    requires LexLess(a, b) && LexLess(b, c)
    ensures LexLess(a, c)
    decreases |a|
  {
    if a != [] && a[0] == b[0] && b[0] == c[0] {
      LexTransitive(a[1..], b[1..], c[1..]);
    }
  }

  /** Any two lists are equal or ordered one way or the other. */
  lemma {:induction false} LexTotal(a: seq<real>, b: seq<real>)
    ensures a == b || LexLess(a, b) || LexLess(b, a)
    decreases |a|
  {
    if a != [] && b != [] && a[0] == b[0] {
      LexTotal(a[1..], b[1..]);
      if a[1..] == b[1..] {
        assert a == [a[0]] + a[1..] && b == [b[0]] + b[1..];
      }
    }
  }

  lemma LexAsymmetric(a: seq<real>, b: seq<real>)
    requires LexLess(a, b)
    ensures !LexLess(b, a)
  {
    if LexLess(b, a) {
      LexTransitive(a, b, a);
      LexIrreflexive(a);
    }
  }

  /** Not above and not below: equal. */
  lemma LexLeTransitive(a: seq<real>, b: seq<real>, c: seq<real>)
    requires !LexLess(b, a) && !LexLess(c, b)
    ensures !LexLess(c, a)
  {
    LexTotal(a, b);
    LexTotal(b, c);
    if LexLess(a, b) && LexLess(b, c) {
      LexTransitive(a, b, c);
      LexAsymmetric(a, c);
    }
    if a == b && LexLess(b, c) {
      LexAsymmetric(a, c);
    }
    if LexLess(a, b) && b == c {
      LexAsymmetric(a, c);
    }
  }

  // ---------------------------------------------------------------------
  // Stable sort and groupby by the positions of the first n players

  /** The positions of the first n players of an entry's path (the whole
      path when it is shorter; the source requires it not to be). */
  function Key(t: Entry, n: nat): seq<real> {
    if n <= |t.path| then t.path[..n] else t.path
  }

  predicate Sorted(s: seq<Entry>, n: nat) {
    forall i, j :: 0 <= i < j < |s| ==> !LexLess(Key(s[j], n), Key(s[i], n))
  }

  /** Places x after every entry whose key is not larger (a stable insertion). */
  function Insert(x: Entry, s: seq<Entry>, n: nat): (r: seq<Entry>)
    ensures multiset(r) == multiset(s) + multiset{x}
    decreases |s|
  {
    if s == [] then [x]
    else if LexLess(Key(x, n), Key(s[0], n)) then [x] + s
    else
      var rest := Insert(x, s[1..], n);
      assert s == [s[0]] + s[1..];
      [s[0]] + rest
  }

  /** The source's sorted(trip, key=...): insertion of each entry in turn. */
  function SortByKey(s: seq<Entry>, n: nat): (r: seq<Entry>)
    ensures multiset(r) == multiset(s)
    decreases |s|
  {
    if s == [] then []
    else
      assert s == s[..|s| - 1] + [s[|s| - 1]];
      Insert(s[|s| - 1], SortByKey(s[..|s| - 1], n), n)
  }

  /** a < b and b <= c give c not below a. */
  lemma LexLessLe(a: seq<real>, b: seq<real>, c: seq<real>)
    requires LexLess(a, b) && !LexLess(c, b)
    ensures !LexLess(c, a)
  {
    LexTotal(b, c);
    LexAsymmetric(a, b);
    if LexLess(b, c) {
      LexTransitive(a, b, c);
      LexAsymmetric(a, c);
    }
  }

  lemma SortedCons(x: Entry, s: seq<Entry>, n: nat)
    requires Sorted(s, n)
    requires forall t :: t in s ==> !LexLess(Key(t, n), Key(x, n))
    ensures Sorted([x] + s, n)
  {
    var r := [x] + s;
    forall i, j | 0 <= i < j < |r| ensures !LexLess(Key(r[j], n), Key(r[i], n)) {
      assert r[j] == s[j - 1];
      if i > 0 {
        assert r[i] == s[i - 1];
      }
    }
  }

  lemma SortedTail(s: seq<Entry>, n: nat)
    requires Sorted(s, n) && s != []
    ensures Sorted(s[1..], n)
    ensures forall t :: t in s ==> !LexLess(Key(t, n), Key(s[0], n))
  {
    assert forall i :: 0 <= i < |s| - 1 ==> s[1..][i] == s[i + 1];
    forall t | t in s ensures !LexLess(Key(t, n), Key(s[0], n)) {
      var i :| 0 <= i < |s| && s[i] == t;
      if i == 0 {
        LexIrreflexive(Key(t, n));
      }
    }
  }

  lemma InsertMember(x: Entry, s: seq<Entry>, n: nat, t: Entry)
    requires t in Insert(x, s, n)
    ensures t == x || t in s
  {
    assert t in multiset(Insert(x, s, n));
  }

  lemma {:induction false} InsertSorted(x: Entry, s: seq<Entry>, n: nat)
    requires Sorted(s, n)
    ensures Sorted(Insert(x, s, n), n)
    decreases |s|
  {
    if s == [] {
    } else if LexLess(Key(x, n), Key(s[0], n)) {
      SortedTail(s, n);
      forall t | t in s ensures !LexLess(Key(t, n), Key(x, n)) {
        LexLessLe(Key(x, n), Key(s[0], n), Key(t, n));
      }
      SortedCons(x, s, n);
    } else {
      SortedTail(s, n);
      var tail := s[1..];
      InsertSorted(x, tail, n);
      var rest := Insert(x, tail, n);
      forall t | t in rest ensures !LexLess(Key(t, n), Key(s[0], n)) {
        InsertMember(x, tail, n, t);
      }
      SortedCons(s[0], rest, n);
    }
  }

  lemma {:induction false} SortSorted(s: seq<Entry>, n: nat)
    ensures Sorted(SortByKey(s, n), n)
    decreases |s|
  {
    if s != [] {
      SortSorted(s[..|s| - 1], n);
      InsertSorted(s[|s| - 1], SortByKey(s[..|s| - 1], n), n);
    }
  }

  /** The entries of s whose key is K, in their order in s. */
  function Select(s: seq<Entry>, n: nat, K: seq<real>): seq<Entry>
    decreases |s|
  {
    if s == [] then []
    else Select(s[..|s| - 1], n, K) + (if Key(s[|s| - 1], n) == K then [s[|s| - 1]] else [])
  }

  lemma {:induction false} SelectAppend(a: seq<Entry>, b: seq<Entry>, n: nat, K: seq<real>)
    ensures Select(a + b, n, K) == Select(a, n, K) + Select(b, n, K)
    decreases |b|
  {
    if b == [] {
      assert a + b == a;
    } else {
      var m := |b| - 1;
      assert (a + b)[..|a + b| - 1] == a + b[..m];
      SelectAppend(a, b[..m], n, K);
    }
  }

  lemma {:induction false} SelectNone(s: seq<Entry>, n: nat, K: seq<real>)
    requires forall t :: t in s ==> Key(t, n) != K
    ensures Select(s, n, K) == []
    decreases |s|
  {
    if s != [] {
      SelectNone(s[..|s| - 1], n, K);
    }
  }

  lemma {:induction false} SelectAll(s: seq<Entry>, n: nat, K: seq<real>)
    requires forall i :: 0 <= i < |s| ==> Key(s[i], n) == K
    ensures Select(s, n, K) == s
    decreases |s|
  {
    if s != [] {
      var front := s[..|s| - 1];
      SelectAll(front, n, K);
      assert s == front + [s[|s| - 1]];
    }
  }

  function Only(x: Entry, n: nat, K: seq<real>): seq<Entry> {
    if Key(x, n) == K then [x] else []
  }

  lemma SelectOne(x: Entry, n: nat, K: seq<real>)
    ensures Select([x], n, K) == Only(x, n, K)
  {
    assert [x][..0] == [];
  }

  /** Inserting into a sorted sequence puts x after every entry of equal
      key: among the entries of any key the new one comes last. */
  lemma {:induction false} InsertSelect(x: Entry, s: seq<Entry>, n: nat, K: seq<real>)
    requires Sorted(s, n)
    ensures Select(Insert(x, s, n), n, K) == Select(s, n, K) + Only(x, n, K)
    decreases |s|
  {
    if s == [] {
      SelectOne(x, n, K);
      assert Insert(x, s, n) == [x];
    } else if LexLess(Key(x, n), Key(s[0], n)) {
      InsertSelectFront(x, s, n, K);
    } else {
      SortedTail(s, n);
      var tail := s[1..];
      InsertSelect(x, tail, n, K);
      InsertSelectBehind(x, s, n, K);
    }
  }

  /** x goes in front: every entry of s has a larger key. */
  lemma InsertSelectFront(x: Entry, s: seq<Entry>, n: nat, K: seq<real>)
    requires Sorted(s, n) && s != [] && LexLess(Key(x, n), Key(s[0], n))
    ensures Select(Insert(x, s, n), n, K) == Select(s, n, K) + Only(x, n, K)
  {
    SelectOne(x, n, K);
    assert Insert(x, s, n) == [x] + s;
    SelectAppend([x], s, n, K);
    if Key(x, n) == K {
      SortedTail(s, n);
      forall t | t in s ensures Key(t, n) != K {
        LexLessLe(Key(x, n), Key(s[0], n), Key(t, n));
        LexIrreflexive(K);
      }
      SelectNone(s, n, K);
    }
  }

  lemma ConcatAssoc<T>(a: seq<T>, b: seq<T>, c: seq<T>)
    ensures a + (b + c) == (a + b) + c
  {
  }

  /** x goes behind s[0]: the step of the induction. */
  lemma InsertSelectBehind(x: Entry, s: seq<Entry>, n: nat, K: seq<real>)
    requires s != [] && !LexLess(Key(x, n), Key(s[0], n))
    requires Select(Insert(x, s[1..], n), n, K) == Select(s[1..], n, K) + Only(x, n, K)
    ensures Select(Insert(x, s, n), n, K) == Select(s, n, K) + Only(x, n, K)
  {
    var tail, rest := s[1..], Insert(x, s[1..], n);
    var head := Select([s[0]], n, K);
    assert Insert(x, s, n) == [s[0]] + rest;
    assert s == [s[0]] + tail;
    SelectAppend([s[0]], rest, n, K);
    SelectAppend([s[0]], tail, n, K);
    ConcatAssoc(head, Select(tail, n, K), Only(x, n, K));
    calc {
      Select(Insert(x, s, n), n, K);
      head + Select(rest, n, K);
      head + (Select(tail, n, K) + Only(x, n, K));
      (head + Select(tail, n, K)) + Only(x, n, K);
      Select(s, n, K) + Only(x, n, K);
    }
  }

  /** The sort is stable: for every key, the entries with that key appear
      in the sorted sequence in their original order. */
  lemma {:induction false} SortStable(s: seq<Entry>, n: nat, K: seq<real>)
    ensures Select(SortByKey(s, n), n, K) == Select(s, n, K)
    decreases |s|
  {
    if s != [] {
      var m := |s| - 1;
      SortStable(s[..m], n, K);
      SortSorted(s[..m], n);
      InsertSelect(s[m], SortByKey(s[..m], n), n, K);
      SelectOne(s[m], n, K);
    }
  }

  /** groupby: the maximal runs of consecutive entries with equal keys. */
  function Runs(s: seq<Entry>, n: nat): (R: seq<seq<Entry>>)
    ensures forall i :: 0 <= i < |R| ==> |R[i]| > 0
    decreases |s|
  {
    if s == [] then []
    else
      var R := Runs(s[..|s| - 1], n);
      var x := s[|s| - 1];
      if R != [] && Key(R[|R| - 1][0], n) == Key(x, n) then R[..|R| - 1] + [R[|R| - 1] + [x]]
      else R + [[x]]
  }

  /** One step of groupby: the last entry joins the last run when it has
      the same key, and starts a new run otherwise. */
  lemma RunsStep(s: seq<Entry>, n: nat)
    requires s != []
    ensures var R0, x, R := Runs(s[..|s| - 1], n), s[|s| - 1], Runs(s, n);
      if R0 != [] && Key(R0[|R0| - 1][0], n) == Key(x, n) then
        && |R| == |R0|
        && (forall i :: 0 <= i < |R0| - 1 ==> R[i] == R0[i])
        && R[|R0| - 1] == R0[|R0| - 1] + [x]
        && (forall i :: 0 <= i < |R0| ==> R[i][0] == R0[i][0])
      else
        R == R0 + [[x]]
  {
  }

  /** The runs cover the sequence in order. */
  lemma {:induction false} RunsConcat(s: seq<Entry>, n: nat)
    ensures Concat(Runs(s, n)) == s
    decreases |s|
  {
    if s != [] {
      var front, x := s[..|s| - 1], s[|s| - 1];
      RunsConcat(front, n);
      RunsStep(s, n);
      var R0, R := Runs(front, n), Runs(s, n);
      assert s == front + [x];
      if R0 != [] && Key(R0[|R0| - 1][0], n) == Key(x, n) {
        var m := |R0| - 1;
        assert R[..m] == R0[..m];
        assert Concat(R0) == Concat(R0[..m]) + R0[m];
        assert Concat(R) == Concat(R[..m]) + R[m];
      } else {
        assert R[..|R0|] == R0;
      }
    }
  }

  /** All members of a run share the key of its first member. */
  lemma {:induction false} RunsConstant(s: seq<Entry>, n: nat)
    ensures var R := Runs(s, n);
      forall i, t :: 0 <= i < |R| && t in R[i] ==> Key(t, n) == Key(R[i][0], n)
    decreases |s|
  {
    if s != [] {
      var front, x := s[..|s| - 1], s[|s| - 1];
      RunsConstant(front, n);
      RunsStep(s, n);
      var R0, R := Runs(front, n), Runs(s, n);
      if R0 != [] && Key(R0[|R0| - 1][0], n) == Key(x, n) {
        var m := |R0| - 1;
        assert forall t :: t in R[m] ==> t in R0[m] || t == x;
      } else {
        assert forall i :: 0 <= i < |R0| ==> R[i] == R0[i];
      }
    }
  }

  /** Neighbouring runs have different keys: the runs are maximal. */
  lemma {:induction false} RunsMaximal(s: seq<Entry>, n: nat)
    ensures var R := Runs(s, n);
      forall i :: 0 <= i < |R| - 1 ==> Key(R[i][0], n) != Key(R[i + 1][0], n)
    decreases |s|
  {
    if s != [] {
      var front, x := s[..|s| - 1], s[|s| - 1];
      RunsMaximal(front, n);
      RunsStep(s, n);
      var R0, R := Runs(front, n), Runs(s, n);
      if !(R0 != [] && Key(R0[|R0| - 1][0], n) == Key(x, n)) {
        assert forall i :: 0 <= i < |R0| ==> R[i] == R0[i];
      }
    }
  }

  /** With L = 0 every key is empty, so there is exactly one run when there
      is anything at all. */
  lemma RunsOfEqualKeys(s: seq<Entry>)
    ensures |Runs(s, 0)| == if s == [] then 0 else 1
  {
    var R := Runs(s, 0);
    RunsMaximal(s, 0);
    RunsConcat(s, 0);
    assert forall i :: 0 <= i < |R| ==> Key(R[i][0], 0) == [];
    if R == [] {
      assert Concat(R) == [];
    }
  }

  lemma RunMember(s: seq<Entry>, n: nat, i: nat, t: Entry)
    requires i < |Runs(s, n)| && t in Runs(s, n)[i]
    ensures t in s
  {
    RunsConcat(s, n);
    ConcatMember(Runs(s, n), t);
  }

  /** In a sorted sequence each run's key is smaller than the key of every
      later run. */
  lemma {:induction false} RunsAscending(s: seq<Entry>, n: nat)
    requires Sorted(s, n)
    ensures var R := Runs(s, n);
      forall i, j :: 0 <= i < j < |R| ==> LexLess(Key(R[i][0], n), Key(R[j][0], n))
    decreases |s|
  {
    if s != [] {
      var m := |s| - 1;
      var front, x := s[..m], s[m];
      assert Sorted(front, n);
      RunsAscending(front, n);
      var R0 := Runs(front, n);
      var R := Runs(s, n);
      RunsStep(s, n);
      if R0 != [] && Key(R0[|R0| - 1][0], n) == Key(x, n) {
      } else if R0 != [] {
        var last := R0[|R0| - 1][0];
        RunMember(front, n, |R0| - 1, last);
        var k :| 0 <= k < m && front[k] == last;
        assert s[k] == last;
        LexTotal(Key(last, n), Key(x, n));
        assert LexLess(Key(last, n), Key(x, n));
        forall i | 0 <= i < |R0| ensures LexLess(Key(R0[i][0], n), Key(x, n)) {
          if i < |R0| - 1 {
            LexTransitive(Key(R0[i][0], n), Key(last, n), Key(x, n));
          }
        }
      }
    }
  }

  /** Picking the entries of key K from the concatenated runs leaves either
      a whole run or nothing. */
  lemma {:induction false} SelectRuns(R: seq<seq<Entry>>, n: nat, i: nat)
    requires i < |R|
    requires forall j :: 0 <= j < |R| ==> |R[j]| > 0
    requires forall j, t :: 0 <= j < |R| && t in R[j] ==> Key(t, n) == Key(R[j][0], n)
    requires forall j, j' :: 0 <= j < j' < |R| ==> LexLess(Key(R[j][0], n), Key(R[j'][0], n))
    ensures Select(Concat(R), n, Key(R[i][0], n)) == R[i]
    decreases |R|
  {
    var K := Key(R[i][0], n);
    var m := |R| - 1;
    var front := R[..m];
    assert Concat(R) == Concat(front) + R[m];
    SelectAppend(Concat(front), R[m], n, K);
    if i == m {
      forall t | t in Concat(front) ensures Key(t, n) != K {
        ConcatMember(front, t);
        var j :| 0 <= j < m && t in front[j];
        assert t in R[j];
        if Key(t, n) == K {
          LexIrreflexive(K);
        }
      }
      SelectNone(Concat(front), n, K);
      forall j | 0 <= j < |R[m]| ensures Key(R[m][j], n) == K {
        assert R[m][j] in R[m];
      }
      SelectAll(R[m], n, K);
    } else {
      SelectRuns(front, n, i);
      assert front[i] == R[i];
      forall t | t in R[m] ensures Key(t, n) != K {
        LexIrreflexive(K);
      }
      SelectNone(R[m], n, K);
    }
  }

  // ---------------------------------------------------------------------
  // regroup

  /** regroup(path_space, k): the runs, by the positions of the first k - 2
      players, of the stably sorted pool of all triples. */
  function Regrouped(space: seq<Block>, k: nat): (gs: seq<Block>)
    requires k >= 2
  {
    var R := Runs(SortByKey(Flatten(space), k - 2), k - 2);
    seq(|R|, i requires 0 <= i < |R| => Unzip(R[i]))
  }

  /** Every group is exactly the triples of the pool that agree with its
      first member on the first k - 2 players, in their pooled order; the
      groups are non-empty, and their keys strictly increase, so distinct
      groups have distinct keys. */
  lemma RegroupedGroups(space: seq<Block>, k: nat)
    requires k >= 2
    ensures var R := Runs(SortByKey(Flatten(space), k - 2), k - 2);
      && |Regrouped(space, k)| == |R|
      && (forall i :: 0 <= i < |R| ==> Regrouped(space, k)[i] == Unzip(R[i]))
      && (forall i :: 0 <= i < |R| ==> R[i] == Select(Flatten(space), k - 2, Key(R[i][0], k - 2)))
      && (forall i, j :: 0 <= i < j < |R| ==> LexLess(Key(R[i][0], k - 2), Key(R[j][0], k - 2)))
  {
    var n := k - 2;
    var s := SortByKey(Flatten(space), n);
    var R := Runs(s, n);
    SortSorted(Flatten(space), n);
    RunsAscending(s, n);
    RunsConstant(s, n);
    RunsConcat(s, n);
    forall i | 0 <= i < |R| ensures R[i] == Select(Flatten(space), n, Key(R[i][0], n)) {
      SelectRuns(R, n, i);
      SortStable(Flatten(space), n, Key(R[i][0], n));
    }
  }

  /** The groups partition the pool: together they hold every triple, each
      as often as the pool does. */
  lemma RegroupedPartition(space: seq<Block>, k: nat)
    requires k >= 2
    ensures multiset(Concat(Runs(SortByKey(Flatten(space), k - 2), k - 2))) == multiset(Flatten(space))
  {
    RunsConcat(SortByKey(Flatten(space), k - 2), k - 2);
  }

  /** With k = 2 nothing is compared, so a non-empty pool gives one group. */
  lemma RegroupedSingle(space: seq<Block>)
    ensures |Regrouped(space, 2)| == if Flatten(space) == [] then 0 else 1
  {
    RunsOfEqualKeys(SortByKey(Flatten(space), 0));
    if Flatten(space) != [] {
      assert |SortByKey(Flatten(space), 0)| > 0 by {
        assert |multiset(SortByKey(Flatten(space), 0))| == |multiset(Flatten(space))|;
      }
    } else {
      assert SortByKey(Flatten(space), 0) == [];
    }
  }

  /** Under the empty key every triple is selected. */
  lemma {:induction false} SelectEmptyKey(s: seq<Entry>)
    ensures Select(s, 0, []) == s
    decreases |s|
  {
    if s != [] {
      SelectEmptyKey(s[..|s| - 1]);
      assert Key(s[|s| - 1], 0) == [];
    }
  }

  /** The pool of a single group is its triples. */
  lemma FlattenOne(b: Block)
    ensures Flatten([b]) == Zip(b)
  {
    assert [b][..0] == [];
  }

  /** Unzipping the triples of a group whose lists have one length gives
      the group back. */
  lemma UnzipZip(b: Block)
    requires |b.paths| == |b.payoffs| == |b.averages|
    ensures Unzip(Zip(b)) == b
  {
    var u := Unzip(Zip(b));
    assert u.paths == b.paths && u.payoffs == b.payoffs && u.averages == b.averages;
  }

  /** Regrouping one group by the empty key gives that group back. */
  lemma RegroupSingleGroup(b: Block)
    requires |b.paths| == |b.payoffs| == |b.averages| > 0
    ensures Regrouped([b], 2) == [b]
  {
    FlattenOne(b);
    var s := Zip(b);
    var sorted := SortByKey(s, 0);
    SortStable(s, 0, []);
    SelectEmptyKey(s);
    SelectEmptyKey(sorted);
    assert sorted == s;
    var R := Runs(sorted, 0);
    RunsOfEqualKeys(sorted);
    RunsConcat(sorted, 0);
    assert Concat(R) == R[0] by {
      assert R[..0] == [];
    }
    UnzipZip(b);
  }

  /** The first loop of regroup: the three aggregator lists of all the
      groups' triples. */
  method Pool(space: seq<Block>) returns (pathAgg: seq<Path>, payoffAgg: seq<Payoffs>, averageAgg: seq<Payoffs>)
    ensures Block(pathAgg, payoffAgg, averageAgg) == Unzip(Flatten(space))
  {
    pathAgg, payoffAgg, averageAgg := [], [], [];
    for i := 0 to |space|
      invariant Block(pathAgg, payoffAgg, averageAgg) == Unzip(Flatten(space[..i]))
    {
      var z := Zip(space[i]);
      ghost var before := Flatten(space[..i]);
      for j := 0 to |z|
        invariant Block(pathAgg, payoffAgg, averageAgg) == Unzip(before + z[..j])
      {
        UnzipSnoc(before + z[..j], z[j]);
        assert before + z[..j + 1] == (before + z[..j]) + [z[j]];
        pathAgg := pathAgg + [z[j].path];
        payoffAgg := payoffAgg + [z[j].payoff];
        averageAgg := averageAgg + [z[j].average];
      }
      assert z[..|z|] == z;
      assert space[..i + 1][..i] == space[..i];
    }
    assert space[..|space|] == space;
  }

  /** The second loop of regroup: each run back into three lists. */
  method Rebuild(regroupedRaw: seq<seq<Entry>>) returns (regrouped: seq<Block>)
    ensures |regrouped| == |regroupedRaw|
    ensures forall i :: 0 <= i < |regroupedRaw| ==> regrouped[i] == Unzip(regroupedRaw[i])
  {
    regrouped := [];
    for g := 0 to |regroupedRaw|
      invariant |regrouped| == g
      invariant forall i :: 0 <= i < g ==> regrouped[i] == Unzip(regroupedRaw[i])
    {
      var group := regroupedRaw[g];
      var pathGroup: seq<Path> := [];
      var payoffGroup: seq<Payoffs> := [];
      var payoffAverage: seq<Payoffs> := [];
      for j := 0 to |group|
        invariant Block(pathGroup, payoffGroup, payoffAverage) == Unzip(group[..j])
      {
        UnzipSnoc(group[..j], group[j]);
        assert group[..j + 1] == group[..j] + [group[j]];
        pathGroup := pathGroup + [group[j].path];
        payoffGroup := payoffGroup + [group[j].payoff];
        payoffAverage := payoffAverage + [group[j].average];
      }
      assert group[..|group|] == group;
      regrouped := regrouped + [Block(pathGroup, payoffGroup, payoffAverage)];
    }
  }

  /** regroup: pool the triples, sort them stably by the first k - 2
      players' positions, cut them into runs and rebuild one group per run
      (the sort and groupby are the library calls). */
  method Regroup(space: seq<Block>, k: nat) returns (regrouped: seq<Block>)
    requires k >= 2
    ensures regrouped == Regrouped(space, k)
  {
    var pathAgg, payoffAgg, averageAgg := Pool(space);
    ZipUnzip(Flatten(space));
    var trip := Zip(Block(pathAgg, payoffAgg, averageAgg));
    var regroupedRaw := Runs(SortByKey(trip, k - 2), k - 2);
    regrouped := Rebuild(regroupedRaw);
  }
}
