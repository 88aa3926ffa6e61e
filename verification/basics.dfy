/** Shared vocabulary: the optional value that stands for a Go nil pointer,
    the fixed-width integer ranges the engine's fields use, and the notion of
    a map iteration order. */
module Basics {

  /** A value that may be absent; `None` plays the role of a nil pointer. */
  datatype Option<+T> = None | Some(value: T)

  /** Go `uint32` and `uint64` values. */
  type u32 = x: int | 0 <= x < 0x1_0000_0000
  type u64 = x: int | 0 <= x < 0x1_0000_0000_0000_0000

  /** No element occurs twice in `s`. */
  predicate Distinct<T(==)>(s: seq<T>) {
    forall i, j | 0 <= i < j < |s| :: s[i] != s[j]
  }

  /** `order` lists every member of `keys` exactly once: it is one of the
      orders in which a Go `range` over a map with these keys may run. */
  predicate IsEnumeration<T(==)>(order: seq<T>, keys: set<T>) {
    Distinct(order) && (forall x | x in order :: x in keys) && (forall x | x in keys :: x in order)
  }

  /** Dropping the head of a distinct sequence leaves a distinct sequence
      that no longer holds the head. */
  lemma DistinctTail<T>(s: seq<T>)
    requires Distinct(s) && |s| > 0
    ensures Distinct(s[1..]) && s[0] !in s[1..]
  {
    var t := s[1..];
    forall i, j | 0 <= i < j < |t| ensures t[i] != t[j] {
      assert t[i] == s[i + 1] && t[j] == s[j + 1];
    }
    forall i | 0 <= i < |t| ensures t[i] != s[0] {
      assert t[i] == s[i + 1];
    }
  }

  /** Putting a new element in front of a distinct sequence keeps it distinct. */
  lemma DistinctCons<T>(x: T, s: seq<T>)
    requires Distinct(s) && x !in s
    ensures Distinct([x] + s)
  {
    var c := [x] + s;
    forall i, j | 0 <= i < j < |c| ensures c[i] != c[j] {
      assert c[j] == s[j - 1];
      if i > 0 {
        assert c[i] == s[i - 1];
      }
    }
  }

  /** A distinct sequence has exactly as many members as its set has. */
  lemma {:induction false} DistinctCard<T>(s: seq<T>)
    requires Distinct(s)
    ensures |set x | x in s| == |s|
  {
    if |s| > 0 {
      var t := s[1..];
      DistinctTail(s);
      DistinctCard(t);
      assert (set x | x in s) == (set x | x in t) + {s[0]} by {
        assert s == [s[0]] + t;
      }
    }
  }

  /** Each member of a distinct sequence is counted once by its multiset. */
  lemma {:induction false} DistinctOccursOnce<T>(s: seq<T>, x: T)
    requires Distinct(s)
    requires x in s
    ensures multiset(s)[x] == 1
  {
    var t := s[1..];
    assert s == [s[0]] + t;
    DistinctTail(s);
    if x == s[0] {
      assert multiset(t)[x] == 0;
    } else {
      DistinctOccursOnce(t, x);
    }
  }

  /** The sequences of `ss` joined end to end, in order. */
  function Flatten<T>(ss: seq<seq<T>>): seq<T> {
    if |ss| == 0 then [] else Flatten(ss[..|ss| - 1]) + ss[|ss| - 1]
  }

  /** In a distinct sequence no element occurs before its own position. */
  lemma DistinctBefore<T>(s: seq<T>, i: nat)
    requires Distinct(s) && i < |s|
    ensures s[i] !in s[..i]
  {
    forall j | 0 <= j < i ensures s[..i][j] != s[i] {
      assert s[..i][j] == s[j];
    }
  }

  /** Putting a new element at the back of a distinct sequence keeps it distinct. */
  lemma AppendDistinct<T>(s: seq<T>, x: T)
    requires Distinct(s) && x !in s
    ensures Distinct(s + [x])
  {
    var c := s + [x];
    forall i, j | 0 <= i < j < |c| ensures c[i] != c[j] {
      assert c[i] == s[i];
    }
  }
}
