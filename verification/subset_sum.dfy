/** Subset sum: which entries of a list of integers add up to a target.
    A boolean table records, for every prefix of the list and every partial
    target, whether some choice of the prefix's entries adds up to it; a
    backward walk over the table then picks the entries. */
module SubsetSum {

  // ------------------------------------------------------------------
  // Specification

  /** The recurrence the table follows: `j` is reachable with the entries
      of `s` when it is reachable without the last one, or when the last
      one fits under `j` and the rest is reachable without it. */
  function Reach(s: seq<int>, j: int): bool
    decreases |s|
  {
    if |s| == 0 then j == 0
    else
      var x := s[|s| - 1];
      Reach(s[..|s| - 1], j) || (j >= x && Reach(s[..|s| - 1], j - x))
  }

  /** The sum of the entries of `s` that `pick` selects. */
  function Picked(s: seq<int>, pick: seq<bool>): int
    requires |pick| == |s|
    decreases |s|
  {
    if |s| == 0 then 0
    else Picked(s[..|s| - 1], pick[..|s| - 1]) + (if pick[|s| - 1] then s[|s| - 1] else 0)
  }

  /** Some choice of entries of `s` adds up to `target`. */
  ghost predicate SubsetSumsTo(s: seq<int>, target: int) {
    exists pick: seq<bool> | |pick| == |s| :: Picked(s, pick) == target
  }

  /** The sum of the entries at positions `idx`. */
  function SumAt(s: seq<int>, idx: seq<int>): int
    requires forall p | 0 <= p < |idx| :: 0 <= idx[p] < |s|
    decreases |idx|
  {
    if |idx| == 0 then 0 else SumAt(s, idx[..|idx| - 1]) + s[idx[|idx| - 1]]
  }

  predicate StrictlyDecreasing(r: seq<int>) {
    forall a, b | 0 <= a < b < |r| :: r[a] > r[b]
  }

  /** The inputs on which the table fill stays within bounds: a negative
      entry would send a lookup past the end of its row, unless an earlier
      entry equal to a positive target ends the fill first. */
  predicate InBounds(s: seq<int>, sum: int) {
    && sum >= 0
    && (sum == 0 || forall i | 0 <= i < |s| && s[i] < 0 :: exists k | 0 <= k < i :: s[k] == sum)
  }

  // ------------------------------------------------------------------
  // The recurrence against choices of entries

  lemma {:induction false} ReachZero(s: seq<int>)
    ensures Reach(s, 0)
    decreases |s|
  {
    if |s| > 0 {
      ReachZero(s[..|s| - 1]);
    }
  }

  /** Allowing more entries never loses a reachable sum. */
  lemma {:induction false} ReachGrows(s: seq<int>, a: nat, b: nat, j: int)
    requires a <= b <= |s|
    requires Reach(s[..a], j)
    ensures Reach(s[..b], j)
    decreases b - a
  {
    if a < b {
      assert s[..a + 1][..a] == s[..a];
      ReachGrows(s, a + 1, b, j);
    }
  }

  /** A sum the recurrence reaches is the sum of some choice of entries. */
  lemma {:induction false} ReachHasPick(s: seq<int>, j: int)
    requires Reach(s, j)
    ensures SubsetSumsTo(s, j)
    decreases |s|
  {
    if |s| == 0 {
      assert Picked(s, []) == j;
    } else {
      var t := s[..|s| - 1];
      var x := s[|s| - 1];
      if Reach(t, j) {
        ReachHasPick(t, j);
        var p :| |p| == |t| && Picked(t, p) == j;
        assert (p + [false])[..|s| - 1] == p;
        assert Picked(s, p + [false]) == j;
      } else {
        ReachHasPick(t, j - x);
        var p :| |p| == |t| && Picked(t, p) == j - x;
        assert (p + [true])[..|s| - 1] == p;
        assert Picked(s, p + [true]) == j;
      }
    }
  }

  lemma {:induction false} PickedNonNegative(s: seq<int>, pick: seq<bool>)
    requires |pick| == |s|
    requires forall k | 0 <= k < |s| :: s[k] >= 0
    ensures Picked(s, pick) >= 0
    decreases |s|
  {
    if |s| > 0 {
      PickedNonNegative(s[..|s| - 1], pick[..|s| - 1]);
    }
  }

  /** With no negative entries, the sum of any choice of entries is
      reached by the recurrence. */
  lemma {:induction false} PickReaches(s: seq<int>, pick: seq<bool>)
    requires |pick| == |s|
    requires forall k | 0 <= k < |s| :: s[k] >= 0
    ensures Reach(s, Picked(s, pick))
    decreases |s|
  {
    if |s| > 0 {
      var t := s[..|s| - 1];
      var p := pick[..|s| - 1];
      PickReaches(t, p);
      PickedNonNegative(t, p);
    }
  }

  /** With no negative entries, the recurrence reaches exactly the sums of
      choices of entries. */
  lemma ReachIffSubset(s: seq<int>, j: int)
    requires forall k | 0 <= k < |s| :: s[k] >= 0
    ensures Reach(s, j) <==> SubsetSumsTo(s, j)
  {
    if Reach(s, j) {
      ReachHasPick(s, j);
    }
    if SubsetSumsTo(s, j) {
      var p :| |p| == |s| && Picked(s, p) == j;
      PickReaches(s, p);
    }
  }

  /** An entry equal to the target is a choice adding up to it. */
  lemma HitReaches(s: seq<int>, k: nat)
    requires k < |s|
    ensures SubsetSumsTo(s, s[k])
  {
    ReachZero(s[..k]);
    assert s[..k + 1][..k] == s[..k];
    ReachGrows(s, k + 1, |s|, s[k]);
    assert s[..|s|] == s;
    ReachHasPick(s, s[k]);
  }

  // ------------------------------------------------------------------
  // The table

  /** Row `a` of `t` holds the reachable sums up to `sum` of the first `a`
      entries. */
  ghost predicate RowsOk(t: array2<bool>, s: seq<int>, sum: int, rows: int)
    reads t
    requires t.Length0 == |s| + 1 && t.Length1 == sum + 1 && rows <= |s| + 1
  {
    forall a, b | 0 <= a < rows && 0 <= b <= sum :: t[a, b] == Reach(s[..a], b)
  }

  /** Fill the table row by row. The fill stops at the first entry equal
      to a positive target, returning its position as `hit`; otherwise
      `hit` is -1 and every row is filled. */
  method FillTable(s: seq<int>, sum: int) returns (t: array2<bool>, hit: int)
    requires InBounds(s, sum)
    ensures t.Length0 == |s| + 1 && t.Length1 == sum + 1
    ensures -1 <= hit < |s|
    ensures hit >= 0 ==> sum >= 1 && s[hit] == sum && forall k | 0 <= k < hit :: s[k] != sum
    ensures hit == -1 ==> RowsOk(t, s, sum, |s| + 1)
    ensures hit == -1 && sum >= 1 ==> forall k | 0 <= k < |s| :: 0 <= s[k] != sum
  {
    var n := |s|;
    t := new bool[n + 1, sum + 1];
    var i := 0;
    while i <= n
      invariant 0 <= i <= n + 1
      invariant forall a | 0 <= a < i :: t[a, 0]
    {
      t[i, 0] := true;
      i := i + 1;
    }
    var j := 1;
    while j <= sum
      invariant 1 <= j <= sum + 1
      invariant forall a | 0 <= a <= n :: t[a, 0]
      invariant forall b | 1 <= b < j :: !t[0, b]
    {
      t[0, j] := false;
      j := j + 1;
    }
    assert RowsOk(t, s, sum, 1);
    i := 1;
    while i <= n
      invariant 1 <= i <= n + 1
      invariant forall a | i <= a <= n :: t[a, 0]
      invariant RowsOk(t, s, sum, i)
      invariant sum >= 1 ==> forall k | 0 <= k < i - 1 :: 0 <= s[k] != sum
    {
      var stop := FillRow(t, s, sum, i);
      if stop {
        return t, i - 1;
      }
      i := i + 1;
    }
    hit := -1;
  }

  /** Fill row `i` from row `i - 1`, column by column. Before each column
      the entry `s[i - 1]` is compared with the target, and the fill stops
      (answering true) when they are equal. */
  method FillRow(t: array2<bool>, s: seq<int>, sum: int, i: int) returns (stop: bool)
    requires InBounds(s, sum)
    requires t.Length0 == |s| + 1 && t.Length1 == sum + 1 && 1 <= i <= |s|
    requires forall a | i <= a <= |s| :: t[a, 0]
    requires RowsOk(t, s, sum, i)
    requires sum >= 1 ==> forall k | 0 <= k < i - 1 :: 0 <= s[k] != sum
    modifies t
    ensures stop ==> sum >= 1 && s[i - 1] == sum
    ensures !stop ==> RowsOk(t, s, sum, i + 1) && forall a | i < a <= |s| :: t[a, 0]
    ensures !stop && sum >= 1 ==> 0 <= s[i - 1] != sum
  {
    ReachZero(s[..i]);
    var j := 1;
    while j <= sum
      invariant 1 <= j <= sum + 1
      invariant forall a | i <= a <= |s| :: t[a, 0]
      invariant RowsOk(t, s, sum, i)
      invariant forall b | 0 <= b < j :: t[i, b] == Reach(s[..i], b)
      invariant j > 1 ==> 0 <= s[i - 1] != sum
    {
      if s[i - 1] == sum {
        return true;
      }
      assert s[..i][..i - 1] == s[..i - 1];
      if j < s[i - 1] {
        t[i, j] := t[i - 1, j];
      } else {
        t[i, j] := t[i - 1, j] || t[i - 1, j - s[i - 1]];
      }
      j := j + 1;
    }
    return false;
  }

  /** Find the entry that first makes `j` reachable: the one row at which
      column `j` turns from false to true, scanning upwards from the last
      row. It lies below `bound` whenever `j` is reachable with the first
      `bound` entries. */
  method PickIndex(t: array2<bool>, ghost s: seq<int>, sum: int, j: int, ghost bound: nat) returns (i: int)
    requires t.Length0 == |s| + 1 && t.Length1 == sum + 1
    requires RowsOk(t, s, sum, |s| + 1)
    requires 1 <= j <= sum && bound <= |s| && Reach(s[..bound], j)
    ensures 0 <= i < bound
    ensures !Reach(s[..i], j) && Reach(s[..i + 1], j)
  {
    var n := t.Length0 - 1;
    ReachGrows(s, bound, n, j);
    i := n;
    while i >= 0
      invariant -1 <= i <= n
      invariant i < n ==> t[i + 1, j]
    {
      if !t[i, j] && i + 1 <= n && t[i + 1, j] {
        if i >= bound {
          ReachGrows(s, bound, i, j);
        }
        return;
      }
      i := i - 1;
    }
    assert false;
  }

  /** Positions of entries of `s` adding up to `sum`, in decreasing order.
      An entry equal to a positive target is returned alone (the first
      such one); no choice adding up to the target, and a zero target,
      give the empty (nil) result. */
  method GetSubset(s: seq<int>, sum: int) returns (result: seq<int>)
    requires InBounds(s, sum)
    ensures forall p | 0 <= p < |result| :: 0 <= result[p] < |s|
    ensures StrictlyDecreasing(result)
    ensures SumAt(s, result) == sum || result == []
    ensures result == [] <==> sum == 0 || !SubsetSumsTo(s, sum)
    ensures sum >= 1 && (exists k | 0 <= k < |s| :: s[k] == sum) ==>
      |result| == 1 && s[result[0]] == sum && forall k | 0 <= k < result[0] :: s[k] != sum
  {
    var n := |s|;
    var t, hit := FillTable(s, sum);
    if hit >= 0 {
      HitReaches(s, hit);
      return [hit];
    }
    assert s[..n] == s;
    if !t[n, sum] {
      if sum >= 1 {
        ReachIffSubset(s, sum);
      }
      return [];
    }
    ReachZero(s);
    result := Reconstruct(t, s, sum);
    ReachHasPick(s, sum);
  }

  /** Walk the targets from `sum` down to 1, and at each one still to be
      covered pick the entry that first makes it reachable, which lies
      below the previous pick. */
  method Reconstruct(t: array2<bool>, s: seq<int>, sum: int) returns (result: seq<int>)
    requires t.Length0 == |s| + 1 && t.Length1 == sum + 1
    requires RowsOk(t, s, sum, |s| + 1)
    requires sum >= 1 ==> forall k | 0 <= k < |s| :: s[k] >= 0
    requires sum >= 0 && Reach(s, sum)
    ensures result != [] <==> sum >= 1
    ensures forall p | 0 <= p < |result| :: 0 <= result[p] < |s|
    ensures StrictlyDecreasing(result)
    ensures SumAt(s, result) == sum
  {
    var n := t.Length0 - 1;
    assert s[..n] == s;
    result := [];
    var tmp := sum;
    ghost var bound := n;
    var j := sum;
    while j > 0
      invariant 0 <= tmp <= j <= sum
      invariant 0 <= bound <= n
      invariant tmp > 0 ==> Reach(s[..bound], tmp)
      invariant forall p | 0 <= p < |result| :: bound <= result[p] < n
      invariant StrictlyDecreasing(result)
      invariant SumAt(s, result) + tmp == sum
      invariant tmp < sum ==> result != []
      invariant result != [] ==> sum >= 1
    {
      if j == tmp {
        var i := PickIndex(t, s, sum, j, bound);
        assert s[..i + 1][..i] == s[..i];
        assert s[i] > 0 && Reach(s[..i], tmp - s[i]);
        assert (result + [i])[..|result|] == result;
        result := result + [i];
        tmp := tmp - s[i];
        bound := i;
      }
      j := j - 1;
    }
  }
}
