/** The measure that shows the main loop of `a_star` terminates. Its loop
    pops one entry per round and pushes one entry per strict improvement of a
    cell's g. Improvements lower the pair (number of unreached cells, sum of
    the finite g values) in the lexicographic order, since a cell leaves Inf
    at most once and a finite g can only fall so far; rounds without an
    improvement shrink the open set. The functions here work on a snapshot
    of the g values, one sequence per grid row. */
module Potential {
  import opened Costs

  function InfCount(s: seq<Cost>): nat
  {
    if s == [] then 0 else (if s[0].Inf? then 1 else 0) + InfCount(s[1..])
  }

  function FinSum(s: seq<Cost>): nat
  {
    if s == [] then 0 else (if s[0].Fin? then s[0].n else 0) + FinSum(s[1..])
  }

  function InfCount2(s: seq<seq<Cost>>): nat
  {
    if s == [] then 0 else InfCount(s[0]) + InfCount2(s[1..])
  }

  function FinSum2(s: seq<seq<Cost>>): nat
  {
    if s == [] then 0 else FinSum(s[0]) + FinSum2(s[1..])
  }

  /** Lexicographic order on (unreached count, finite sum). */
  predicate LexLe(a: nat, b: nat, c: nat, d: nat)
  {
    a < c || (a == c && b <= d)
  }

  predicate LexLt(a: nat, b: nat, c: nat, d: nat)
  {
    a < c || (a == c && b < d)
  }

  /** `t` has the shape of `s` and no cost of `t` is above the cost of `s` at
      the same place. */
  ghost predicate Below(t: seq<seq<Cost>>, s: seq<seq<Cost>>)
  {
    |t| == |s| &&
    forall r :: 0 <= r < |s| ==>
      |t[r]| == |s[r]| && forall c :: 0 <= c < |s[r]| ==> Le(t[r][c], s[r][c])
  }

  lemma {:induction false} RowDescent(t: seq<Cost>, s: seq<Cost>)
    requires |t| == |s| && forall c :: 0 <= c < |s| ==> Le(t[c], s[c])
    ensures LexLe(InfCount(t), FinSum(t), InfCount(s), FinSum(s))
  {
    if s != [] {
      RowDescent(t[1..], s[1..]);
    }
  }

  lemma {:induction false} RowStrictDescent(t: seq<Cost>, s: seq<Cost>, k: nat)
    requires |t| == |s| && forall c :: 0 <= c < |s| ==> Le(t[c], s[c])
    requires k < |s| && Lt(t[k], s[k])
    ensures LexLt(InfCount(t), FinSum(t), InfCount(s), FinSum(s))
  {
    if k == 0 {
      RowDescent(t[1..], s[1..]);
    } else {
      RowStrictDescent(t[1..], s[1..], k - 1);
    }
  }

  /** Lowering costs never raises the measure. */
  lemma {:induction false} Descent(t: seq<seq<Cost>>, s: seq<seq<Cost>>)
    requires Below(t, s)
    ensures LexLe(InfCount2(t), FinSum2(t), InfCount2(s), FinSum2(s))
  {
    if s != [] {
      RowDescent(t[0], s[0]);
      assert Below(t[1..], s[1..]) by {
        forall r | 0 <= r < |s| - 1
          ensures |t[1..][r]| == |s[1..][r]|
          ensures forall c :: 0 <= c < |s[1..][r]| ==> Le(t[1..][r][c], s[1..][r][c])
        {
          assert t[1..][r] == t[r + 1] && s[1..][r] == s[r + 1];
        }
      }
      Descent(t[1..], s[1..]);
    }
  }

  /** Strictly lowering one cost strictly lowers the measure. */
  lemma {:induction false} StrictDescent(t: seq<seq<Cost>>, s: seq<seq<Cost>>, r: nat, c: nat)
    requires Below(t, s)
    requires r < |s| && c < |s[r]| && Lt(t[r][c], s[r][c])
    ensures LexLt(InfCount2(t), FinSum2(t), InfCount2(s), FinSum2(s))
  {
    assert Below(t[1..], s[1..]) by {
      forall i | 0 <= i < |s| - 1
        ensures |t[1..][i]| == |s[1..][i]|
        ensures forall j :: 0 <= j < |s[1..][i]| ==> Le(t[1..][i][j], s[1..][i][j])
      {
        assert t[1..][i] == t[i + 1] && s[1..][i] == s[i + 1];
      }
    }
    if r == 0 {
      RowStrictDescent(t[0], s[0], c);
      Descent(t[1..], s[1..]);
    } else {
      RowDescent(t[0], s[0]);
      StrictDescent(t[1..], s[1..], r - 1, c);
    }
  }

  /** A round of the search made progress: the measure of `t` is below that
      of `s`, or the same with an open set that shrank from `n` to `m`. */
  ghost predicate Progress(t: seq<seq<Cost>>, m: nat, s: seq<seq<Cost>>, n: nat)
  {
    LexLt(InfCount2(t), FinSum2(t), InfCount2(s), FinSum2(s)) ||
    (InfCount2(t) == InfCount2(s) && FinSum2(t) == FinSum2(s) && m < n)
  }
}
