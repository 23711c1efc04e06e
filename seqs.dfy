/**
 * Small facts about sequences shared by the flood fills: sums, lists
 * without repeats, and the count of unset flags that bounds a BFS.
 */
module Seqs {
  /** The sum of a sequence of integers. */
  function Sum(s: seq<int>): int {
    if s == [] then 0 else Sum(s[..|s| - 1]) + s[|s| - 1]
  }

  /** No element of s occurs twice. */
  predicate NoDup(s: seq<int>) {
    forall a, b :: 0 <= a < b < |s| ==> s[a] != s[b]
  }

  /** Appending a new element keeps a list free of repeats. */
  lemma NoDupSnoc(s: seq<int>, x: int)
    requires NoDup(s) && x !in s
    ensures NoDup(s + [x])
  {
    forall a, b | 0 <= a < b < |s| + 1
      ensures (s + [x])[a] != (s + [x])[b]
    {
      if b == |s| {
        assert (s + [x])[a] == s[a];
      }
    }
  }

  /** Two lists without repeats and without common elements join into one without repeats. */
  lemma NoDupConcat(s: seq<int>, t: seq<int>)
    requires NoDup(s) && NoDup(t) && forall x :: x in t ==> x !in s
    ensures NoDup(s + t)
  {
    forall a, b | 0 <= a < b < |s| + |t|
      ensures (s + t)[a] != (s + t)[b]
    {
      if a < |s| <= b {
        assert (s + t)[b] == t[b - |s|] && t[b - |s|] in t;
      } else if |s| <= a {
        assert (s + t)[a] == t[a - |s|] && (s + t)[b] == t[b - |s|];
      }
    }
  }

  /** The elements of s. */
  ghost function Elems(s: seq<int>): set<int> {
    set x | x in s
  }

  /** A list without repeats has as many elements as its length. */
  lemma {:induction false} NoDupCard(s: seq<int>)
    requires NoDup(s)
    ensures |Elems(s)| == |s|
  {
    if s != [] {
      var n := |s| - 1;
      assert NoDup(s[..n]);
      NoDupCard(s[..n]);
      assert Elems(s) == Elems(s[..n]) + {s[n]};
      assert s[n] !in Elems(s[..n]);
    }
  }

  /** The number of flags still false. */
  function Unset(s: seq<bool>): nat {
    if s == [] then 0 else Unset(s[..|s| - 1]) + (if s[|s| - 1] then 0 else 1)
  }

  /** Setting a flag that was false lowers the count of unset flags by one. */
  lemma {:induction false} SetOne(s: seq<bool>, i: int)
    requires 0 <= i < |s| && !s[i]
    ensures Unset(s[i := true]) == Unset(s) - 1
  {
    var n := |s| - 1;
    if i < n {
      assert s[i := true][..n] == s[..n][i := true];
      SetOne(s[..n], i);
    } else {
      assert s[i := true][..n] == s[..n];
    }
  }
}
