/** Sequence helpers shared by the solver: sums, maxima, tolerance
    comparison, and the selection of entries close to a maximum. */
module Common {

  /** Sum of a sequence of reals, accumulated from the left. */
  function Sum(s: seq<real>): real
    decreases |s|
  {
    if s == [] then 0.0 else Sum(s[..|s| - 1]) + s[|s| - 1]
  }

  lemma {:induction false} SumConcat(a: seq<real>, b: seq<real>)
    ensures Sum(a + b) == Sum(a) + Sum(b)
    decreases |b|
  {
    if b == [] {
      assert a + b == a;
    } else {
      assert (a + b)[..|a + b| - 1] == a + b[..|b| - 1];
      SumConcat(a, b[..|b| - 1]);
    }
  }

  /** A prefix one longer is the shorter prefix and the next element. */
  lemma PrefixSnoc<T>(s: seq<T>, k: nat)
    requires k < |s|
    ensures s[..k + 1] == s[..k] + [s[k]]
  {
  }

  /** No value occurs twice. */
  predicate Distinct<T(==)>(s: seq<T>) {
    forall i, j :: 0 <= i < j < |s| ==> s[i] != s[j]
  }

  /** |a - b| <= tol: the absolute-tolerance closeness test. */
  predicate Close(a: real, b: real, tol: real) {
    -tol <= a - b <= tol
  }

  /** The largest entry of a non-empty sequence. */
  function Max(s: seq<real>): (m: real)
    requires |s| > 0
    ensures forall i :: 0 <= i < |s| ==> s[i] <= m
    ensures exists i :: 0 <= i < |s| && s[i] == m
    decreases |s|
  {
    if |s| == 1 then s[0]
    else
      var m' := Max(s[..|s| - 1]);
      assert forall i :: 0 <= i < |s| - 1 ==> s[..|s| - 1][i] == s[i];
      if s[|s| - 1] > m' then s[|s| - 1] else m'
  }

  /** Strictly increasing indices, all below n. */
  predicate Ascending(idx: seq<nat>, n: nat) {
    && (forall j :: 0 <= j < |idx| ==> idx[j] < n)
    && (forall j, j' :: 0 <= j < j' < |idx| ==> idx[j] < idx[j'])
  }

  /** The indices of the entries of s that lie within tol of m, in order. */
  function Within(s: seq<real>, m: real, tol: real): (idx: seq<nat>)
    ensures Ascending(idx, |s|)
    ensures forall i :: 0 <= i < |s| ==> (i in idx <==> Close(s[i], m, tol))
    decreases |s|
  {
    if s == [] then []
    else
      var front := Within(s[..|s| - 1], m, tol);
      assert forall i :: 0 <= i < |s| - 1 ==> s[..|s| - 1][i] == s[i];
      front + (if Close(s[|s| - 1], m, tol) then [|s| - 1] else [])
  }

  /** When every entry lies within tol of m, the filter keeps every index,
      in order. */
  lemma {:induction false} WithinAll(s: seq<real>, m: real, tol: real)
    requires forall i :: 0 <= i < |s| ==> Close(s[i], m, tol)
    ensures |Within(s, m, tol)| == |s|
    ensures forall j :: 0 <= j < |s| ==> Within(s, m, tol)[j] == j
    decreases |s|
  {
    if s != [] {
      var front := s[..|s| - 1];
      assert forall i :: 0 <= i < |front| ==> front[i] == s[i];
      WithinAll(front, m, tol);
    }
  }

  /** The indices of the entries within tol of the maximum; never empty
      when tol is not negative, because the maximum itself qualifies. */
  function NearMax(s: seq<real>, tol: real): (idx: seq<nat>)
    requires |s| > 0 && tol >= 0.0
    ensures Ascending(idx, |s|) && |idx| > 0
    ensures forall i :: 0 <= i < |s| ==> (i in idx <==> Close(s[i], Max(s), tol))
  {
    var idx := Within(s, Max(s), tol);
    assert forall i :: 0 <= i < |s| && s[i] == Max(s) ==> i in idx;
    idx
  }

  /** The concatenation of a sequence of sequences, left to right. */
  function Concat<T>(ss: seq<seq<T>>): seq<T>
    decreases |ss|
  {
    if ss == [] then [] else Concat(ss[..|ss| - 1]) + ss[|ss| - 1]
  }

  lemma {:induction false} ConcatMember<T>(ss: seq<seq<T>>, x: T)
    ensures x in Concat(ss) <==> exists i :: 0 <= i < |ss| && x in ss[i]
    decreases |ss|
  {
    if ss != [] {
      var n := |ss| - 1;
      ConcatMember(ss[..n], x);
      assert forall i :: 0 <= i < n ==> ss[..n][i] == ss[i];
    }
  }

  lemma {:induction false} ConcatLength<T>(ss: seq<seq<T>>, len: nat)
    requires forall i :: 0 <= i < |ss| ==> |ss[i]| == len
    ensures |Concat(ss)| == |ss| * len
    decreases |ss|
  {
    if ss != [] {
      var n := |ss| - 1;
      ConcatLength(ss[..n], len);
      assert |Concat(ss)| == n * len + len;
    }
  }

  lemma {:induction false} ConcatAppend<T>(a: seq<seq<T>>, b: seq<seq<T>>)
    ensures Concat(a + b) == Concat(a) + Concat(b)
    decreases |b|
  {
    if b == [] {
      assert a + b == a;
    } else {
      var n := |b| - 1;
      assert (a + b)[..|a + b| - 1] == a + b[..n];
      ConcatAppend(a, b[..n]);
    }
  }

  /** The entries of s at the positions idx, in that order. */
  function Pick<T>(s: seq<T>, idx: seq<nat>): (r: seq<T>)
    requires forall j :: 0 <= j < |idx| ==> idx[j] < |s|
    ensures |r| == |idx| && forall j :: 0 <= j < |idx| ==> r[j] == s[idx[j]]
  {
    seq(|idx|, j requires 0 <= j < |idx| => s[idx[j]])
  }
}
