/** Sums of integer sequences, used for histogram totals and cluster sizes. */
module Sums {

  function Sum(s: seq<int>): int {
    if |s| == 0 then 0 else Sum(s[..|s| - 1]) + s[|s| - 1]
  }

  /** Incrementing one entry increments the sum by one. */
  lemma {:induction false} SumIncrement(s: seq<int>, j: nat)
    requires j < |s|
    ensures Sum(s[j := s[j] + 1]) == Sum(s) + 1
  {
    var t := s[j := s[j] + 1];
    if j == |s| - 1 {
      assert t[..|t| - 1] == s[..|s| - 1];
    } else {
      assert t[..|t| - 1] == s[..|s| - 1][j := s[j] + 1];
      SumIncrement(s[..|s| - 1], j);
    }
  }

  /** `Math.max(...s)` of a non-empty sequence: at least every element,
      and one of them. */
  function MaxOf(s: seq<int>): (m: int)
    requires |s| > 0
    ensures forall i :: 0 <= i < |s| ==> s[i] <= m
    ensures m in s
  {
    if |s| == 1 then s[0]
    else
      var init := s[..|s| - 1];
      var t := MaxOf(init);
      assert t in s by {
        var i :| 0 <= i < |init| && init[i] == t;
        assert s[i] == t;
      }
      if s[|s| - 1] > t then s[|s| - 1] else t
  }

  /** No entry of a sequence of non-negative numbers exceeds its sum. */
  lemma {:induction false} EntryAtMostSum(s: seq<int>, i: nat)
    requires forall j :: 0 <= j < |s| ==> s[j] >= 0
    requires i < |s|
    ensures s[i] <= Sum(s)
  {
    var init := s[..|s| - 1];
    if i < |s| - 1 {
      EntryAtMostSum(init, i);
    } else if |init| > 0 {
      SumNonNegative(init);
    }
  }

  /** A sequence of non-negative numbers has a non-negative sum. */
  lemma {:induction false} SumNonNegative(s: seq<int>)
    requires forall j :: 0 <= j < |s| ==> s[j] >= 0
    ensures Sum(s) >= 0
  {
    if |s| > 0 {
      SumNonNegative(s[..|s| - 1]);
    }
  }

  /** A positive sum has a positive entry. */
  lemma {:induction false} PositiveEntry(s: seq<int>) returns (i: nat)
    requires Sum(s) > 0
    ensures i < |s| && s[i] > 0
  {
    if s[|s| - 1] > 0 {
      i := |s| - 1;
    } else {
      i := PositiveEntry(s[..|s| - 1]);
    }
  }

  /** A sequence of zeros sums to zero. */
  lemma {:induction false} SumZeros(s: seq<int>)
    requires forall i :: 0 <= i < |s| ==> s[i] == 0
    ensures Sum(s) == 0
  {
    if |s| > 0 {
      SumZeros(s[..|s| - 1]);
    }
  }
}
