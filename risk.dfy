/** Historical Value at Risk (pkg/risk/var.go): the loss at a confidence level, read off the
    sorted historical returns. Returns and values are reals. */
module Risk {
  import opened Numerics

  /** The literal `1e-9` the index computation adds before truncating. */
  const Epsilon: real := 0.000_000_001

  ghost predicate Sorted(s: seq<real>)
  {
    forall i, j :: 0 <= i < j < |s| ==> s[i] <= s[j]
  }

  // ---------------------------------------------------------------------------------------
  // The sorted copy as a value

  /** x put into place in an ascending sequence. */
  function Insert(x: real, s: seq<real>): (r: seq<real>)
    ensures |r| == |s| + 1
  {
    if s == [] || x <= s[0] then [x] + s else [s[0]] + Insert(x, s[1..])
  }

  lemma {:induction false} InsertPermutes(x: real, s: seq<real>)
    ensures multiset(Insert(x, s)) == multiset(s) + multiset{x}
  {
    if s != [] && x > s[0] {
      InsertPermutes(x, s[1..]);
      assert s == [s[0]] + s[1..];
    }
  }

  /** A lower bound of x and of every element of s bounds every element of the insertion. */
  lemma {:induction false} InsertLowerBound(x: real, s: seq<real>, y: real)
    requires y <= x && forall k :: 0 <= k < |s| ==> y <= s[k]
    ensures forall k :: 0 <= k < |Insert(x, s)| ==> y <= Insert(x, s)[k]
  {
    if s != [] && x > s[0] {
      InsertLowerBound(x, s[1..], y);
    }
  }

  lemma {:induction false} InsertSorted(x: real, s: seq<real>)
    requires Sorted(s)
    ensures Sorted(Insert(x, s))
  {
    if s != [] && x > s[0] {
      var rest := Insert(x, s[1..]);
      InsertSorted(x, s[1..]);
      InsertLowerBound(x, s[1..], s[0]);
      var r := [s[0]] + rest;
      forall i, j | 0 <= i < j < |r|
        ensures r[i] <= r[j]
      {
        assert r[j] == rest[j - 1];
        if i > 0 {
          assert r[i] == rest[i - 1];
        }
      }
    }
  }

  /** The returns in ascending order. */
  function SortSeq(s: seq<real>): (r: seq<real>)
    ensures Sorted(r) && multiset(r) == multiset(s) && |r| == |s|
  {
    if s == [] then []
    else
      assert s == [s[0]] + s[1..];
      var rest := SortSeq(s[1..]);
      InsertSorted(s[0], rest);
      InsertPermutes(s[0], rest);
      var r := Insert(s[0], rest);
      assert |r| == |multiset(r)| == |multiset(s)| == |s|;
      r
  }

  /** Two ascending sequences with the same elements are equal: there is only one sorted order. */
  lemma {:induction false} SortedUnique(a: seq<real>, b: seq<real>)
    requires Sorted(a) && Sorted(b) && multiset(a) == multiset(b)
    ensures a == b
    decreases |a|
  {
    assert |a| == |multiset(a)| == |multiset(b)| == |b|;
    if a != [] {
      FirstIsLeast(a, b);
      FirstIsLeast(b, a);
      DropFirst(a);
      DropFirst(b);
      SortedUnique(a[1..], b[1..]);
      assert a == [a[0]] + a[1..] && b == [b[0]] + b[1..];
    }
  }

  /** The first element of an ascending sequence is at most any element of a permutation of it. */
  lemma FirstIsLeast(a: seq<real>, b: seq<real>)
    requires Sorted(a) && b != [] && multiset(a) == multiset(b)
    ensures a != [] && a[0] <= b[0]
  {
    assert b[0] in multiset(a);
    var k :| 0 <= k < |a| && a[k] == b[0];
  }

  lemma DropFirst(a: seq<real>)
    requires Sorted(a) && a != []
    ensures Sorted(a[1..]) && multiset(a[1..]) == multiset(a) - multiset{a[0]}
  {
    assert a == [a[0]] + a[1..];
  }

  // ---------------------------------------------------------------------------------------
  // The computation

  /** `int(n*(1-c) + 1e-9)`, clamped into the index range of n returns. */
  function SelectIndex(n: nat, confidenceLevel: real): (k: nat)
    requires n > 0
    ensures k < n
  {
    var index := TruncateToInt(n as real * (1.0 - confidenceLevel) + Epsilon);
    if index < 0 then 0 else if index >= n then n - 1 else index
  }

  /** The loss read off ascending returns: zero without history, otherwise the selected
      return negated and scaled by the portfolio value. */
  function LossAt(sorted: seq<real>, confidenceLevel: real, portfolioValue: real): real
  {
    if |sorted| == 0 then 0.0
    else -sorted[SelectIndex(|sorted|, confidenceLevel)] * portfolioValue
  }

  /** The value `CalculateHistoricalVaR` returns: the loss read off the sorted returns. */
  function HistoricalVaR(history: seq<real>, confidenceLevel: real, portfolioValue: real): real
  {
    LossAt(SortSeq(history), confidenceLevel, portfolioValue)
  }

  /** Exchanges two neighbouring elements. */
  method SwapAdjacent(a: array<real>, j: nat)
    requires 0 < j < a.Length
    modifies a
    ensures a[..] == old(a[..])[j - 1 := old(a[j])][j := old(a[j - 1])]
    ensures multiset(a[..]) == old(multiset(a[..]))
  {
    a[j - 1], a[j] := a[j], a[j - 1];
  }

  /** `sort.Float64s` on the copy: ascending order, same elements. */
  method SortInPlace(a: array<real>)
    modifies a
    ensures Sorted(a[..]) && multiset(a[..]) == old(multiset(a[..]))
  {
    for i := 0 to a.Length
      invariant Sorted(a[..i])
      invariant multiset(a[..]) == old(multiset(a[..]))
    {
      var j := i;
      while j > 0 && a[j - 1] > a[j]
        invariant 0 <= j <= i
        invariant forall p, q :: 0 <= p < q <= i && q != j ==> a[p] <= a[q]
        invariant multiset(a[..]) == old(multiset(a[..]))
      {
        SwapAdjacent(a, j);
        j := j - 1;
      }
    }
  }

  /** Copies the caller's returns, sorts the copy, and reads the loss at the confidence level.
      The caller's array is only read. */
  method CalculateHistoricalVaR(history: array<real>, confidenceLevel: real, portfolioValue: real)
    returns (v: real)
    ensures v == HistoricalVaR(history[..], confidenceLevel, portfolioValue)
  {
    if history.Length == 0 {
      return 0.0;
    }
    var sorted := new real[history.Length];
    for i := 0 to history.Length
      invariant sorted[..i] == history[..i]
    {
      sorted[i] := history[i];
    }
    assert sorted[..] == history[..] by {
      assert sorted[..] == sorted[..history.Length];
    }
    SortInPlace(sorted);
    var index := SelectIndex(sorted.Length, confidenceLevel);
    v := -sorted[index] * portfolioValue;
    assert v == LossAt(sorted[..], confidenceLevel, portfolioValue);
    AnySortedCopy(sorted[..], history[..], confidenceLevel, portfolioValue);
  }

  /** Reading the loss off any ascending permutation of the returns gives the specified value. */
  lemma AnySortedCopy(sorted: seq<real>, history: seq<real>, confidenceLevel: real, portfolioValue: real)
    requires |history| > 0 && Sorted(sorted) && multiset(sorted) == multiset(history)
    ensures LossAt(sorted, confidenceLevel, portfolioValue) == HistoricalVaR(history, confidenceLevel, portfolioValue)
  {
    SortedUnique(sorted, SortSeq(history));
  }

  // ---------------------------------------------------------------------------------------
  // Properties

  /** The result does not depend on the order in which the returns are given. */
  lemma PermutationInvariant(a: seq<real>, b: seq<real>, confidenceLevel: real, portfolioValue: real)
    requires multiset(a) == multiset(b)
    ensures HistoricalVaR(a, confidenceLevel, portfolioValue) == HistoricalVaR(b, confidenceLevel, portfolioValue)
  {
    SortedUnique(SortSeq(a), SortSeq(b));
  }

  /** Returns already in ascending order are their own sorted copy. */
  lemma SortSeqOfSorted(s: seq<real>)
    requires Sorted(s)
    ensures SortSeq(s) == s
  {
    SortedUnique(SortSeq(s), s);
  }

  /** For a confidence level in [0, 1] the converted value lies in [0, n], far inside Go's int
      range, so the conversion is the exact truncation and only the upper clamp can apply. */
  lemma SelectIndexArgumentInRange(n: nat, confidenceLevel: real)
    requires n > 0 && 0.0 <= confidenceLevel <= 1.0
    ensures 0 <= TruncateToInt(n as real * (1.0 - confidenceLevel) + Epsilon) <= n
  {
    var x := n as real * (1.0 - confidenceLevel);
    assert n as real - x == n as real * confidenceLevel;
    assert 0.0 <= x <= n as real;
  }

  /** A higher confidence level selects an index no larger. */
  lemma SelectIndexMonotone(n: nat, c1: real, c2: real)
    requires n > 0 && c1 <= c2
    ensures SelectIndex(n, c2) <= SelectIndex(n, c1)
  {
    var x1 := n as real * (1.0 - c1) + Epsilon;
    var x2 := n as real * (1.0 - c2) + Epsilon;
    assert x1 - x2 == n as real * (c2 - c1);
    TruncateMonotone(x2, x1);
  }

  /** For a non-negative portfolio value, a higher confidence level never gives a smaller loss. */
  lemma MonotoneInConfidence(history: seq<real>, c1: real, c2: real, portfolioValue: real)
    requires c1 <= c2 && portfolioValue >= 0.0
    ensures HistoricalVaR(history, c1, portfolioValue) <= HistoricalVaR(history, c2, portfolioValue)
  {
    LossAtMonotone(SortSeq(history), c1, c2, portfolioValue);
  }

  lemma LossAtMonotone(sorted: seq<real>, c1: real, c2: real, portfolioValue: real)
    requires Sorted(sorted) && c1 <= c2 && portfolioValue >= 0.0
    ensures LossAt(sorted, c1, portfolioValue) <= LossAt(sorted, c2, portfolioValue)
  {
    if |sorted| > 0 {
      var n := |sorted|;
      var k1, k2 := SelectIndex(n, c1), SelectIndex(n, c2);
      SelectIndexMonotone(n, c1, c2);
      LossMonotone(sorted[k2], sorted[k1], portfolioValue);
    }
  }

  lemma LossMonotone(low: real, high: real, portfolioValue: real)
    requires low <= high && portfolioValue >= 0.0
    ensures -high * portfolioValue <= -low * portfolioValue
  {
    assert (high - low) * portfolioValue >= 0.0;
  }

  /** Ten returns from -5% to 4% on a portfolio of 1000: the 90% VaR is 40 and the 99% VaR
      is 50. (The returns are a parameter fixed by a requires so that the verifier does not
      evaluate the sort of the literal sequence.) */
  lemma HistoricalVaRExample(history: seq<real>)
    requires history == [-0.05, -0.04, -0.03, -0.02, -0.01, 0.0, 0.01, 0.02, 0.03, 0.04]
    ensures HistoricalVaR(history, 0.90, 1000.0) == 40.0
    ensures HistoricalVaR(history, 0.99, 1000.0) == 50.0
  {
    ExampleHistorySorted(history);
    SortSeqOfSorted(history);
    SelectIndexExamples();
  }

  /** The returns of `HistoricalVaRExample` are already ascending (a parameter for the same
      reason). */
  lemma ExampleHistorySorted(history: seq<real>)
    requires history == [-0.05, -0.04, -0.03, -0.02, -0.01, 0.0, 0.01, 0.02, 0.03, 0.04]
    ensures Sorted(history)
  {
  }

  /** With ten returns, 90% confidence selects the second-lowest return and 99% the lowest. */
  lemma SelectIndexExamples()
    ensures SelectIndex(10, 0.90) == 1
    ensures SelectIndex(10, 0.99) == 0
  {
    assert 10.0 * (1.0 - 0.90) + Epsilon == 1.000_000_001;
    assert 10.0 * (1.0 - 0.99) + Epsilon == 0.100_000_001;
  }
}
