/**
 * The union-find forest shared by the three floods.  `next[k]` is the parent
 * of pixel k: negative while k is still under water, k itself when k is the
 * top (root) of its cluster.  Roots are found by walking `next` without path
 * compression.  The walk terminates because of a ghost height map in which
 * every parent is strictly higher than its child; linking root a under root
 * b raises b to max(h[b], h[a] + 1).
 */
module UnionFind {
  /** An upper bound of every height. */
  function Ceiling(h: seq<nat>): (c: nat)
    ensures forall k :: 0 <= k < |h| ==> h[k] <= c
  {
    if h == [] then 0
    else
      var c := Ceiling(h[..|h| - 1]);
      assert forall k :: 0 <= k < |h| - 1 ==> h[..|h| - 1][k] == h[k];
      if h[|h| - 1] > c then h[|h| - 1] else c
  }

  /**
   * next is a forest over 0 .. |next|-1 ordered by h: the parent of every
   * flooded pixel is an in-range flooded pixel, strictly higher unless it is
   * the pixel itself.
   */
  ghost predicate Forest(next: seq<int>, h: seq<nat>) {
    && |h| == |next|
    && forall k :: 0 <= k < |next| && next[k] >= 0 ==>
         next[k] < |next| && next[next[k]] >= 0 && (next[k] != k ==> h[k] < h[next[k]])
  }

  /** The top of the cluster of flooded pixel i: the root reached by following next. */
  ghost function Top(next: seq<int>, h: seq<nat>, i: int): (r: int)
    requires Forest(next, h) && 0 <= i < |next| && next[i] >= 0
    ensures 0 <= r < |next| && next[r] == r
    decreases Ceiling(h) - h[i]
  {
    if next[i] == i then i else Top(next, h, next[i])
  }

  /**
   * The walk from flooded pixel i to its top: it starts at i, every step
   * follows next, and it ends at the root Top returns.
   */
  ghost function Chain(next: seq<int>, h: seq<nat>, i: int): (c: seq<int>)
    requires Forest(next, h) && 0 <= i < |next| && next[i] >= 0
    ensures |c| >= 1 && c[0] == i && c[|c| - 1] == Top(next, h, i)
    ensures forall t :: 0 <= t < |c| ==> 0 <= c[t] < |next| && next[c[t]] >= 0
    ensures forall t :: 0 <= t < |c| - 1 ==> next[c[t]] == c[t + 1] && c[t] != c[t + 1]
    decreases Ceiling(h) - h[i]
  {
    if next[i] == i then [i] else [i] + Chain(next, h, next[i])
  }

  /** The flooded pixels. */
  ghost function Flooded(next: seq<int>): set<int> {
    set k | 0 <= k < |next| && next[k] >= 0
  }

  /** The roots: one per cluster. */
  ghost function Roots(next: seq<int>): set<int> {
    set k | 0 <= k < |next| && next[k] == k
  }

  /** The pixels of the cluster whose top is r. */
  ghost function Members(next: seq<int>, h: seq<nat>, r: int): set<int>
    requires Forest(next, h)
  {
    set k | 0 <= k < |next| && next[k] >= 0 && Top(next, h, k) == r
  }

  /** size[r] is the number of pixels of the cluster of every root r. */
  ghost predicate SizesOk(next: seq<int>, h: seq<nat>, size: seq<int>)
    requires Forest(next, h)
  {
    |size| == |next| && forall r :: 0 <= r < |next| && next[r] == r ==> size[r] == |Members(next, h, r)|
  }

  /** The heights after root a is linked under root b. */
  function Raise(h: seq<nat>, a: int, b: int): seq<nat>
    requires 0 <= a < |h| && 0 <= b < |h|
  {
    h[b := if h[b] > h[a] + 1 then h[b] else h[a] + 1]
  }

  /** The pixels start under water: nothing is flooded. */
  lemma {:induction false} EmptyForest(next: seq<int>, h: seq<nat>)
    requires |h| == |next| && forall k :: 0 <= k < |next| ==> next[k] < 0
    ensures Forest(next, h) && Flooded(next) == {} && Roots(next) == {}
    ensures forall size :: |size| == |next| ==> SizesOk(next, h, size)
  {
  }

  /** A root is its own top, and every pixel has the top of its parent. */
  lemma {:induction false} TopStep(next: seq<int>, h: seq<nat>, i: int)
    requires Forest(next, h) && 0 <= i < |next| && next[i] >= 0
    ensures next[i] == i ==> Top(next, h, i) == i
    ensures Top(next, h, i) == Top(next, h, next[i])
  {
    if next[i] != i {
      assert Top(next, h, i) == Top(next, h, next[i]);
    }
  }

  /**
   * Flooding pixel p as a new cluster of its own keeps the forest, leaves the
   * top of every other pixel unchanged and adds one root.
   */
  lemma {:induction false} FloodNew(next: seq<int>, h: seq<nat>, p: int)
    requires Forest(next, h) && 0 <= p < |next| && next[p] < 0
    ensures Forest(next[p := p], h)
    ensures forall k :: 0 <= k < |next| && next[k] >= 0 ==> Top(next[p := p], h, k) == Top(next, h, k)
    ensures Top(next[p := p], h, p) == p
    ensures Flooded(next[p := p]) == Flooded(next) + {p}
    ensures Roots(next[p := p]) == Roots(next) + {p}
    ensures Members(next[p := p], h, p) == {p}
    ensures forall r :: r != p ==> Members(next[p := p], h, r) == Members(next, h, r)
  {
    var next' := next[p := p];
    forall k | 0 <= k < |next| && next[k] >= 0
      ensures Top(next', h, k) == Top(next, h, k)
    {
      FloodNewTop(next, h, p, k);
    }
  }

  lemma {:induction false} FloodNewTop(next: seq<int>, h: seq<nat>, p: int, k: int)
    requires Forest(next, h) && 0 <= p < |next| && next[p] < 0
    requires Forest(next[p := p], h)
    requires 0 <= k < |next| && next[k] >= 0
    ensures Top(next[p := p], h, k) == Top(next, h, k)
    decreases Ceiling(h) - h[k]
  {
    if next[k] != k {
      FloodNewTop(next, h, p, next[k]);
    }
  }

  /**
   * Linking root a under root b keeps the forest (with b raised), sends the
   * pixels of a's cluster to b and leaves every other top unchanged.
   */
  /** The part of Link that speaks of tops only. */
  lemma LinkTops(next: seq<int>, h: seq<nat>, a: int, b: int)
    requires Forest(next, h) && 0 <= a < |next| && 0 <= b < |next| && a != b
    requires next[a] == a && next[b] == b
    ensures Forest(next[a := b], Raise(h, a, b))
    ensures forall k :: 0 <= k < |next| && next[k] >= 0 ==>
              Top(next[a := b], Raise(h, a, b), k) == if Top(next, h, k) == a then b else Top(next, h, k)
  {
    Link(next, h, a, b);
  }

  lemma {:induction false} Link(next: seq<int>, h: seq<nat>, a: int, b: int)
    requires Forest(next, h) && 0 <= a < |next| && 0 <= b < |next| && a != b
    requires next[a] == a && next[b] == b
    ensures Forest(next[a := b], Raise(h, a, b))
    ensures forall k :: 0 <= k < |next| && next[k] >= 0 ==>
              Top(next[a := b], Raise(h, a, b), k) == if Top(next, h, k) == a then b else Top(next, h, k)
    ensures Flooded(next[a := b]) == Flooded(next)
    ensures Roots(next[a := b]) == Roots(next) - {a}
    ensures Members(next[a := b], Raise(h, a, b), b) == Members(next, h, a) + Members(next, h, b)
    ensures Members(next, h, a) !! Members(next, h, b)
    ensures forall r :: r != a && r != b ==> Members(next[a := b], Raise(h, a, b), r) == Members(next, h, r)
  {
    var next', h' := next[a := b], Raise(h, a, b);
    assert Forest(next', h');
    forall k | 0 <= k < |next| && next[k] >= 0
      ensures Top(next', h', k) == if Top(next, h, k) == a then b else Top(next, h, k)
    {
      LinkTop(next, h, a, b, k);
    }
  }

  lemma {:induction false} LinkTop(next: seq<int>, h: seq<nat>, a: int, b: int, k: int)
    requires Forest(next, h) && 0 <= a < |next| && 0 <= b < |next| && a != b
    requires next[a] == a && next[b] == b
    requires Forest(next[a := b], Raise(h, a, b))
    requires 0 <= k < |next| && next[k] >= 0
    ensures Top(next[a := b], Raise(h, a, b), k) == if Top(next, h, k) == a then b else Top(next, h, k)
    decreases Ceiling(h) - h[k]
  {
    var next', h' := next[a := b], Raise(h, a, b);
    if k == a {
      assert Top(next', h', a) == Top(next', h', b);
    } else if next[k] != k {
      LinkTop(next, h, a, b, next[k]);
    }
  }

  /** Linking root a under root b with size[b] += size[a] keeps the sizes right. */
  lemma {:induction false} LinkSizes(next: seq<int>, h: seq<nat>, size: seq<int>, a: int, b: int)
    requires Forest(next, h) && SizesOk(next, h, size)
    requires 0 <= a < |next| && 0 <= b < |next| && a != b && next[a] == a && next[b] == b
    ensures Forest(next[a := b], Raise(h, a, b))
    ensures SizesOk(next[a := b], Raise(h, a, b), size[b := size[a] + size[b]])
  {
    Link(next, h, a, b);
  }

  /** Flooding p as a new cluster of size 1 keeps the sizes right. */
  lemma {:induction false} FloodNewSizes(next: seq<int>, h: seq<nat>, size: seq<int>, p: int)
    requires Forest(next, h) && SizesOk(next, h, size) && 0 <= p < |next| && next[p] < 0
    ensures Forest(next[p := p], h)
    ensures SizesOk(next[p := p], h, size[p := 1])
  {
    FloodNew(next, h, p);
  }

  /** Sum of the sizes stored at the roots among the pixels 0 .. m-1. */
  function RootSizeSum(next: seq<int>, size: seq<int>, m: nat): int
    requires |size| == |next| && m <= |next|
  {
    if m == 0 then 0
    else RootSizeSum(next, size, m - 1) + (if next[m - 1] == m - 1 then size[m - 1] else 0)
  }

  /** The flooded pixels whose top lies among 0 .. m-1. */
  ghost function TopBelow(next: seq<int>, h: seq<nat>, m: int): set<int>
    requires Forest(next, h)
  {
    set k | 0 <= k < |next| && next[k] >= 0 && Top(next, h, k) < m
  }

  /** The root sizes add up to the number of flooded pixels. */
  lemma SizesSumToFlooded(next: seq<int>, h: seq<nat>, size: seq<int>)
    requires Forest(next, h) && SizesOk(next, h, size)
    ensures RootSizeSum(next, size, |next|) == |Flooded(next)|
  {
    SizeSumPrefix(next, h, size, |next|);
    assert TopBelow(next, h, |next|) == Flooded(next);
  }

  lemma {:induction false} SizeSumPrefix(next: seq<int>, h: seq<nat>, size: seq<int>, m: nat)
    requires Forest(next, h) && SizesOk(next, h, size) && m <= |next|
    ensures RootSizeSum(next, size, m) == |TopBelow(next, h, m)|
  {
    if m == 0 {
      assert TopBelow(next, h, m) == {};
    } else {
      SizeSumPrefix(next, h, size, m - 1);
      TopBelowStep(next, h, m);
      var at := if next[m - 1] == m - 1 then size[m - 1] else 0;
      assert RootSizeSum(next, size, m) == RootSizeSum(next, size, m - 1) + at;
      assert at == |Members(next, h, m - 1)|;
    }
  }

  /**
   * The flooded pixels with tops below m are those with tops below m - 1
   * and the members of m - 1, which are none unless m - 1 is a root.
   */
  lemma TopBelowStep(next: seq<int>, h: seq<nat>, m: nat)
    requires Forest(next, h) && 0 < m <= |next|
    ensures |TopBelow(next, h, m)| == |TopBelow(next, h, m - 1)| + |Members(next, h, m - 1)|
    ensures next[m - 1] != m - 1 ==> |Members(next, h, m - 1)| == 0
  {
    var below, before, at := TopBelow(next, h, m), TopBelow(next, h, m - 1), Members(next, h, m - 1);
    assert below == before + at;
    assert before !! at;
    if next[m - 1] != m - 1 {
      assert forall k | 0 <= k < |next| && next[k] >= 0 :: Top(next, h, k) != m - 1;
    }
  }

  /** Root r heads a cluster of at least t pixels. */
  predicate Big(next: seq<int>, size: seq<int>, t: int, r: int)
    requires |size| == |next| && 0 <= r < |next|
  {
    next[r] == r && size[r] >= t
  }

  /** The number of roots among the pixels 0 .. m-1 whose cluster has at least t pixels. */
  function BigRoots(next: seq<int>, size: seq<int>, t: int, m: nat): (c: nat)
    requires |size| == |next| && m <= |next|
    ensures c <= m
  {
    if m == 0 then 0 else BigRoots(next, size, t, m - 1) + (if Big(next, size, t, m - 1) then 1 else 0)
  }

  /** The count is the size of the set of roots whose cluster has at least t pixels. */
  lemma {:induction false} BigRootsCard(next: seq<int>, size: seq<int>, t: int, m: nat)
    requires |size| == |next| && m <= |next|
    ensures BigRoots(next, size, t, m) == |set r | 0 <= r < m && Big(next, size, t, r)|
  {
    if m > 0 {
      BigRootsCard(next, size, t, m - 1);
      var below := set r | 0 <= r < m - 1 && Big(next, size, t, r);
      var upto := set r | 0 <= r < m && Big(next, size, t, r);
      if Big(next, size, t, m - 1) {
        assert upto == below + {m - 1};
      } else {
        assert upto == below;
      }
    }
  }

  /** Changing next and size at x alone changes the count by x's arrival and departure. */
  lemma {:induction false} BigRootsChange1(next: seq<int>, size: seq<int>, next': seq<int>, size': seq<int>, t: int, x: int, m: nat)
    requires |size| == |next| == |next'| == |size'| && m <= |next| && 0 <= x < |next|
    requires forall k :: 0 <= k < |next| && k != x ==> next'[k] == next[k] && size'[k] == size[k]
    ensures BigRoots(next', size', t, m) - (if x < m && Big(next', size', t, x) then 1 else 0) ==
            BigRoots(next, size, t, m) - (if x < m && Big(next, size, t, x) then 1 else 0)
  {
    if m > 0 {
      BigRootsChange1(next, size, next', size', t, x, m - 1);
    }
  }

  /** Changing next and size at x and y alone changes the count by their arrivals and departures. */
  lemma {:induction false} BigRootsChange2(next: seq<int>, size: seq<int>, next': seq<int>, size': seq<int>, t: int,
                                           x: int, y: int, m: nat)
    requires |size| == |next| == |next'| == |size'| && m <= |next| && 0 <= x < |next| && 0 <= y < |next| && x != y
    requires forall k :: 0 <= k < |next| && k != x && k != y ==> next'[k] == next[k] && size'[k] == size[k]
    ensures BigRoots(next', size', t, m) - (if x < m && Big(next', size', t, x) then 1 else 0)
                                         - (if y < m && Big(next', size', t, y) then 1 else 0) ==
            BigRoots(next, size, t, m) - (if x < m && Big(next, size, t, x) then 1 else 0)
                                       - (if y < m && Big(next, size, t, y) then 1 else 0)
  {
    if m > 0 {
      BigRootsChange2(next, size, next', size', t, x, y, m - 1);
    }
  }
}
