/** Sums of sequences of reals (`Iterator::sum` over `f64`, read over the reals). */
module RealSeq {

  /** The sum of `s`, accumulated from the left as an iterator does. */
  function Sum(s: seq<real>): real
  {
    if |s| == 0 then 0.0 else Sum(s[..|s| - 1]) + s[|s| - 1]
  }

  predicate NonNegative(s: seq<real>) {
    forall i :: 0 <= i < |s| ==> 0.0 <= s[i]
  }

  predicate Positive(s: seq<real>) {
    forall i :: 0 <= i < |s| ==> 0.0 < s[i]
  }

  /** Extending a prefix by one element adds that element to the sum. */
  lemma SumPrefixStep(s: seq<real>, i: nat)
    requires i < |s|
    ensures Sum(s[..i + 1]) == Sum(s[..i]) + s[i]
  {
    assert s[..i + 1][..i] == s[..i];
  }

  /** A non-empty sequence of positive reals has a positive sum. */
  lemma {:induction false} SumPositive(s: seq<real>)
    requires Positive(s) && |s| > 0
    ensures 0.0 < Sum(s)
  {
    if |s| > 1 {
      SumPositive(s[..|s| - 1]);
    }
  }

  /** For non-negative entries, a prefix never sums to more than the whole. */
  lemma {:induction false} SumPrefixBounded(s: seq<real>, m: nat)
    requires NonNegative(s) && m <= |s|
    ensures Sum(s[..m]) <= Sum(s)
    decreases |s| - m
  {
    if m < |s| {
      SumPrefixStep(s, m);
      SumPrefixBounded(s, m + 1);
    } else {
      assert s[..m] == s;
    }
  }

  /** n copies of c sum to n * c. */
  lemma {:induction false} SumConstant(s: seq<real>, c: real)
    requires forall i :: 0 <= i < |s| ==> s[i] == c
    ensures Sum(s) == |s| as real * c
  {
    if |s| > 0 {
      SumConstant(s[..|s| - 1], c);
    }
  }

  /** Dividing every entry by d divides the sum by d. */
  lemma {:induction false} SumDivided(s: seq<real>, t: seq<real>, d: real)
    requires d != 0.0 && |t| == |s|
    requires forall i :: 0 <= i < |s| ==> t[i] == s[i] / d
    ensures Sum(t) == Sum(s) / d
  {
    if |s| > 0 {
      SumDivided(s[..|s| - 1], t[..|t| - 1], d);
    }
  }
}
