/** The two-player game: the winning chances of the players for positions
    A (first) and B (second), the second player's best reply to each A on
    a grid, and the first player's best positions given those replies. */
module TwoPlayer {
  import opened Common

  /** Python's max of three numbers (its value: the first maximal one). */
  function Max3(x: real, y: real, z: real): (m: real)
    ensures m >= x && m >= y && m >= z
    ensures m == x || m == y || m == z
  {
    if x >= y && x >= z then x else if y >= z then y else z
  }

  /** P_B_wins: the branches in source order. With B above 1/2 the formula
      is chosen by which of A, 1 - B, (B - A)/2 is the largest, ties going
      to the earlier test. No input falls through all the tests. */
  function PBWins(A: real, B: real): real {
    if B <= 1.0 / 2.0 && A > B then (B + A) / 2.0
    else if B <= 1.0 / 2.0 && A < B then (B - A) / 2.0
    else if B > 1.0 / 2.0 && Max3(A, 1.0 - B, (B - A) / 2.0) == 1.0 - B then (B - A) / 2.0
    else if B > 1.0 / 2.0 && Max3(A, 1.0 - B, (B - A) / 2.0) == A then 1.0 - (B + A) / 2.0
    else if B > 1.0 / 2.0 && Max3(A, 1.0 - B, (B - A) / 2.0) == (B - A) / 2.0 then 1.0 - 3.0 / 4.0 * B - A / 4.0
    else if B == A then 0.0
    else assert false; 0.0
  }

  /** P_A_wins: the same tests with the first player's formulas. */
  function PAWins(A: real, B: real): real {
    if B <= 1.0 / 2.0 && A > B then (B - A) / 2.0
    else if B <= 1.0 / 2.0 && A < B then (B + A) / 2.0
    else if B > 1.0 / 2.0 && Max3(A, 1.0 - B, (B - A) / 2.0) == 1.0 - B then (B - A) / 2.0
    else if B > 1.0 / 2.0 && Max3(A, 1.0 - B, (B - A) / 2.0) == A then (B - A) / 2.0
    else if B > 1.0 / 2.0 && Max3(A, 1.0 - B, (B - A) / 2.0) == (B - A) / 2.0 then A / 2.0 + (B + A) / 4.0
    else if B == A then 0.0
    else assert false; 0.0
  }

  const MeshWidth: nat := 1000

  /** A_vals: x/1000 for x = 0 .. 500. */
  function AVals(): (a: seq<real>)
    ensures |a| == MeshWidth / 2 + 1
    ensures forall x :: 0 <= x < |a| ==> a[x] == x as real / MeshWidth as real
  {
    seq(MeshWidth / 2 + 1, x requires 0 <= x => x as real / MeshWidth as real)
  }

  /** B_vals: x/1000 for x = 0 .. 1000. */
  function BVals(): (b: seq<real>)
    ensures |b| == MeshWidth + 1
    ensures forall x :: 0 <= x < |b| ==> b[x] == x as real / MeshWidth as real
  {
    seq(MeshWidth + 1, x requires 0 <= x => x as real / MeshWidth as real)
  }

  /** The second player's chances against A at every grid point. */
  function Row(A: real): (v: seq<real>)
    ensures |v| == |BVals()| && forall j :: 0 <= j < |v| ==> v[j] == PBWins(A, BVals()[j])
  {
    seq(|BVals()|, j requires 0 <= j < |BVals()| => PBWins(A, BVals()[j]))
  }

  /** The first index of a non-empty sequence holding its maximum. */
  function FirstMax(v: seq<real>): (i: nat)
    requires |v| > 0
    ensures i < |v| && v[i] == Max(v)
    ensures forall j :: 0 <= j < i ==> v[j] < Max(v)
  {
    var idx := NearMax(v, 0.0);
    assert forall t :: 0 <= t < |idx| ==> idx[0] <= idx[t];
    assert forall j :: j in idx ==> idx[0] <= j;
    idx[0]
  }

  /** The entry of Tilde_B for A: the smallest grid B with the largest
      P_B_wins(A, B). */
  function BestB(A: real): real {
    BVals()[FirstMax(Row(A))]
  }

  /** Tilde_B: the best reply to every A of the grid. */
  function BestBs(): (t: seq<real>)
    ensures |t| == |AVals()| && forall i :: 0 <= i < |t| ==> t[i] == BestB(AVals()[i])
  {
    seq(|AVals()|, i requires 0 <= i < |AVals()| => BestB(AVals()[i]))
  }

  /** One entry of Tilde_A: a position of the first player with its chance
      against the best reply. */
  datatype Choice = Choice(a: real, wins: real)

  /** Tilde_A before the filter: every A with P_A_wins(A, tildeB[A]). */
  function Candidates(tildeB: seq<real>): (cs: seq<Choice>)
    requires |tildeB| == |AVals()|
    ensures |cs| == |AVals()|
    ensures forall i :: 0 <= i < |cs| ==> cs[i] == Choice(AVals()[i], PAWins(AVals()[i], tildeB[i]))
  {
    seq(|AVals()|, i requires 0 <= i < |AVals()| => Choice(AVals()[i], PAWins(AVals()[i], tildeB[i])))
  }

  function Wins(cs: seq<Choice>): (w: seq<real>)
    ensures |w| == |cs| && forall i :: 0 <= i < |cs| ==> w[i] == cs[i].wins
  {
    seq(|cs|, i requires 0 <= i < |cs| => cs[i].wins)
  }

  /** The filter for a table of replies: the candidates whose chance equals
      the largest. */
  function Filtered(tildeB: seq<real>): seq<Choice>
    requires |tildeB| == |AVals()|
  {
    var cs := Candidates(tildeB);
    Pick(cs, NearMax(Wins(cs), 0.0))
  }

  /** The final Tilde_A: the filter against the best replies. */
  function BestAs(): seq<Choice> {
    Filtered(BestBs())
  }

  /** One pass of the Tilde_B loop: P_B_wins against A at every grid B, the
      maximum, the indices reaching it, and the grid B of the first. */
  method BestReply(A: real) returns (b: real)
    ensures b == BestB(A)
  {
    var bVals := BVals();
    var val := Row(A);
    var maxVal := Max(val);
    var maxIndex := Within(val, maxVal, 0.0);
    assert maxIndex[0] == FirstMax(val);
    b := bVals[maxIndex[0]];
  }

  /** The loop building Tilde_B. */
  method ReplyTable() returns (tildeB: seq<real>)
    ensures tildeB == BestBs()
  {
    var aVals := AVals();
    tildeB := [];
    for k := 0 to |aVals|
      invariant tildeB == BestBs()[..k]
    {
      var b := BestReply(aVals[k]);
      PrefixSnoc(BestBs(), k);
      tildeB := tildeB + [b];
    }
  }

  /** Tilde_A from Tilde_B: comprehension, maximum and filter. */
  method BestPositions(tildeB: seq<real>) returns (tildeA: seq<Choice>)
    requires |tildeB| == |AVals()|
    ensures tildeA == Filtered(tildeB)
  {
    var aVals := AVals();
    var candidates := seq(|aVals|, i requires 0 <= i < |aVals| => Choice(aVals[i], PAWins(aVals[i], tildeB[i])));
    assert candidates == Candidates(tildeB);
    var wins := Wins(candidates);
    var maxSeq := Max(wins);
    tildeA := Pick(candidates, Within(wins, maxSeq, 0.0));
  }

  /** The module-level search: Tilde_B, then Tilde_A. */
  method BestResponseSearch() returns (tildeB: seq<real>, tildeA: seq<Choice>)
    ensures tildeB == BestBs() && tildeA == BestAs()
  {
    tildeB := ReplyTable();
    tildeA := BestPositions(tildeB);
  }

  // ---------------------------------------------------------------------
  // Properties

  /** On the diagonal the second player wins nothing while A <= 1/2 (the
      last test is reached only then), and 1 - A beyond. */
  lemma DiagonalB(A: real)
    ensures PBWins(A, A) == if A <= 1.0 / 2.0 then 0.0 else 1.0 - A
  {
  }

  /** On the diagonal the first player never wins anything. */
  lemma DiagonalA(A: real)
    ensures PAWins(A, A) == 0.0
  {
  }

  /** With B <= 1/2 and A != B the two chances add up to B: the formulas
      of the two players are mirror images. */
  lemma LowSum(A: real, B: real)
    requires B <= 1.0 / 2.0 && A != B
    ensures PAWins(A, B) + PBWins(A, B) == B
  {
  }

  /** Ties go to the earliest test: when 1 - B is among the largest of the
      three the (B - A)/2 formula of that test applies to both players,
      and when A alone ties with (B - A)/2 the formula of the A test does. */
  lemma TiesToEarlierTest(A: real, B: real)
    requires B > 1.0 / 2.0
    ensures 1.0 - B >= A && 1.0 - B >= (B - A) / 2.0 ==>
      PBWins(A, B) == (B - A) / 2.0 && PAWins(A, B) == (B - A) / 2.0
    ensures A > 1.0 - B && A == (B - A) / 2.0 ==>
      PBWins(A, B) == 1.0 - (B + A) / 2.0 && PAWins(A, B) == (B - A) / 2.0
  {
  }

  /** Each entry of Tilde_B is a grid point with the largest P_B_wins
      against its A, and no smaller grid point does as well. */
  lemma BestBIsFirstMaximizer(A: real) returns (i: nat)
    ensures i < |BVals()| && BVals()[i] == BestB(A)
    ensures forall j :: 0 <= j < |BVals()| ==> PBWins(A, BVals()[j]) <= PBWins(A, BestB(A))
    ensures forall j :: 0 <= j < i ==> PBWins(A, BVals()[j]) < PBWins(A, BestB(A))
  {
    i := FirstMax(Row(A));
    var v := Row(A);
    forall j | 0 <= j < |BVals()| ensures PBWins(A, BVals()[j]) <= PBWins(A, BestB(A)) {
      assert v[j] <= Max(v);
    }
  }

  /** Distinct grid indices give distinct positions, in order. */
  lemma AValsAscending(i: nat, j: nat)
    requires i < j < |AVals()|
    ensures AVals()[i] < AVals()[j]
  {
  }

  /** Equal positions come from the same grid index. */
  lemma AValsInjective(i: nat, j: nat)
    requires i < |AVals()| && j < |AVals()| && AVals()[i] == AVals()[j]
    ensures i == j
  {
  }

  /** Whatever the table of replies, the filtered list is never empty and
      its positions ascend. */
  lemma FilteredOrdered(tildeB: seq<real>)
    requires |tildeB| == |AVals()|
    ensures var best := Filtered(tildeB);
      && |best| > 0
      && forall t, t' :: 0 <= t < t' < |best| ==> best[t].a < best[t'].a
  {
    var cs := Candidates(tildeB);
    var idx := NearMax(Wins(cs), 0.0);
    var best := Filtered(tildeB);
    forall t, t' | 0 <= t < t' < |best| ensures best[t].a < best[t'].a {
      assert best[t] == cs[idx[t]] && best[t'] == cs[idx[t']];
      AValsAscending(idx[t], idx[t']);
    }
  }

  /** Every member of the filtered list is a candidate with the largest chance. */
  lemma FilteredSound(tildeB: seq<real>)
    requires |tildeB| == |AVals()|
    ensures var best, cs := Filtered(tildeB), Candidates(tildeB);
      forall t :: 0 <= t < |best| ==> best[t] in cs && best[t].wins == Max(Wins(cs))
  {
    var cs := Candidates(tildeB);
    var w := Wins(cs);
    var idx := NearMax(w, 0.0);
    var best := Filtered(tildeB);
    forall t | 0 <= t < |best| ensures best[t] in cs && best[t].wins == Max(w) {
      assert best[t] == cs[idx[t]];
      assert Close(w[idx[t]], Max(w), 0.0);
    }
  }

  /** A member of the filtered list has the largest chance. */
  lemma FilteredMember(tildeB: seq<real>, i: nat)
    requires |tildeB| == |AVals()| && i < |Candidates(tildeB)| && Candidates(tildeB)[i] in Filtered(tildeB)
    ensures Candidates(tildeB)[i].wins == Max(Wins(Candidates(tildeB)))
  {
    var cs := Candidates(tildeB);
    var w := Wins(cs);
    var idx := NearMax(w, 0.0);
    var best := Filtered(tildeB);
    var t :| 0 <= t < |best| && best[t] == cs[i];
    assert best[t] == cs[idx[t]];
    AValsInjective(idx[t], i);
    assert Close(w[i], Max(w), 0.0);
  }

  /** A candidate with the largest chance is in the filtered list. */
  lemma FilteredReaches(tildeB: seq<real>, i: nat)
    requires |tildeB| == |AVals()| && i < |Candidates(tildeB)| && Candidates(tildeB)[i].wins == Max(Wins(Candidates(tildeB)))
    ensures Candidates(tildeB)[i] in Filtered(tildeB)
  {
    var cs := Candidates(tildeB);
    var w := Wins(cs);
    var idx := NearMax(w, 0.0);
    var best := Filtered(tildeB);
    assert Close(w[i], Max(w), 0.0);
    assert i in idx;
    var t :| 0 <= t < |idx| && idx[t] == i;
    assert best[t] == cs[i];
  }

  /** A candidate is in the filtered list exactly when its chance is the largest. */
  lemma FilteredComplete(tildeB: seq<real>)
    requires |tildeB| == |AVals()|
    ensures var best, cs := Filtered(tildeB), Candidates(tildeB);
      forall i :: 0 <= i < |cs| ==> (cs[i] in best <==> cs[i].wins == Max(Wins(cs)))
  {
    var cs := Candidates(tildeB);
    forall i | 0 <= i < |cs| ensures cs[i] in Filtered(tildeB) <==> cs[i].wins == Max(Wins(cs)) {
      if cs[i] in Filtered(tildeB) {
        FilteredMember(tildeB, i);
      }
      if cs[i].wins == Max(Wins(cs)) {
        FilteredReaches(tildeB, i);
      }
    }
  }
}
