/**
 * `compute_nclusters` of `watershed_ncluster.cpp`: the watershed flood run
 * with only the `next` and `size` arrays, counting as it goes the clusters
 * of at least `size_threshold` pixels, and writing that count into the slot
 * of the threshold the current pixel has reached, for a whole descending
 * array of thresholds in one pass.
 */
module NCluster {
  import opened Grid
  import opened UnionFind
  import opened WatershedInv
  import opened Watershed
  import opened Walks

  /** `get_top` (lines 18-28): follows `next` from flooded pixel i to its root. */
  method GetTop(i0: int, next: array<int>, ghost h: seq<nat>) returns (i: int)
    requires Forest(next[..], h) && 0 <= i0 < next.Length && next[i0] >= 0
    ensures i == Top(next[..], h, i0) && 0 <= i < next.Length && next[i] == i
  {
    i := i0;
    while i != next[i]
      invariant 0 <= i < next.Length && next[i] >= 0 && Top(next[..], h, i) == Top(next[..], h, i0)
      decreases Ceiling(h) - h[i]
    {
      TopStep(next[..], h, i);
      i := next[i];
    }
    TopStep(next[..], h, i);
  }

  /** The flooded neighbours of p in the first j directions of its visit share its cluster. */
  ghost predicate Done(nx: nat, ny: nat, next: seq<int>, h: seq<nat>, p: int, r: int, j: int)
    requires Forest(next, h) && |next| == nx * ny && 0 <= p < |next| && next[p] >= 0 && 0 <= r < 4 && j <= 4
  {
    forall j' :: 0 <= j' < j && Nb(nx, ny, p, Turn(r, j')) >= 0 && next[Nb(nx, ny, p, Turn(r, j'))] >= 0 ==>
      Top(next, h, Nb(nx, ny, p, Turn(r, j'))) == Top(next, h, p)
  }

  /**
   * The union-find part of the state while pixel p is visited: the forest
   * and its sizes are right, count is the number of clusters of at least st
   * pixels other than p on its own, and p is its own cluster while cl is -1
   * and lies in the cluster rooted at cl otherwise.
   */
  ghost predicate Counted(next: seq<int>, size: seq<int>, h: seq<nat>, count: int, st: int, p: int, cl: int) {
    && 0 <= p < |next| && Forest(next, h) && SizesOk(next, h, size) && next[p] >= 0
    && count == BigRoots(next, size, st, |next|) - (if Big(next, size, st, p) then 1 else 0)
    && (cl == -1 ==> next[p] == p && Members(next, h, p) == {p})
    && (cl != -1 ==> 0 <= cl < |next| && next[cl] == cl && cl != p && next[p] != p && Top(next, h, p) == cl)
  }

  /** The neighbour part: pairs of flooded neighbours seen so far share a cluster. */
  ghost predicate Near(nx: nat, ny: nat, next: seq<int>, h: seq<nat>, p: int, r: int, j: int)
    requires Forest(next, h) && |next| == nx * ny && 0 <= p < |next| && next[p] >= 0 && 0 <= r < 4 && j <= 4
  {
    JoinedBut(nx, ny, next, h, p) && Done(nx, ny, next, h, p, r, j)
  }

  /** The state in the middle of the visit of pixel p (lines 131-190), after j of its four directions starting at r. */
  ghost predicate Visiting(nx: nat, ny: nat, next: seq<int>, size: seq<int>, h: seq<nat>, count: int, st: int,
                           p: int, cl: int, r: int, j: int)
  {
    && |next| == nx * ny && 0 <= r < 4 && 0 <= j <= 4
    && Counted(next, size, h, count, st, p, cl)
    && Near(nx, ny, next, h, p, r, j)
  }

  /** The change of the count when two clusters of sizes s1 and s2 merge (lines 178-186). */
  function MergeDelta(s1: int, s2: int, st: int): int {
    if s1 < st && s2 < st && s1 + s2 >= st then 1
    else if s1 >= st && s2 >= st then -1
    else 0
  }

  /** Lines 178-186: the count after clusters of sizes s1 and s2 merge. */
  method Recount(count: int, s1: int, s2: int, st: int) returns (count': int)
    ensures count' == count + MergeDelta(s1, s2, st)
  {
    count' := count;
    if s1 < st && s2 < st && s1 + s2 >= st {
      count' := count + 1;
    } else if s1 >= st && s2 >= st {
      count' := count - 1;
    }
  }

  /**
   * The branches of lines 178-186 are the change in the number of clusters
   * of at least st pixels when clusters of sizes s1 and s2 become one of
   * size s1 + s2.
   */
  lemma MergeDeltaCounts(s1: nat, s2: nat, st: int)
    ensures MergeDelta(s1, s2, st) ==
      (if s1 + s2 >= st then 1 else 0) - (if s1 >= st then 1 else 0) - (if s2 >= st then 1 else 0)
  {
  }

  /** A union that maps tops to tops keeps flooded neighbours other than p together. */
  lemma {:induction false} JoinedButStep(nx: nat, ny: nat, next: seq<int>, h: seq<nat>, next': seq<int>, h': seq<nat>, p: int)
    requires Forest(next, h) && |next| == nx * ny && JoinedBut(nx, ny, next, h, p)
    requires Forest(next', h') && |next'| == |next|
    requires forall k :: 0 <= k < |next| ==> (next'[k] >= 0 <==> next[k] >= 0)
    requires forall a, b :: 0 <= a < |next| && 0 <= b < |next| && next[a] >= 0 && next[b] >= 0 &&
                            Top(next, h, a) == Top(next, h, b)
               ==> Top(next', h', a) == Top(next', h', b)
    ensures JoinedBut(nx, ny, next', h', p)
  {
    forall a, d | 0 <= a < |next| && a != p && 0 <= d < 4 && next'[a] >= 0 && Nb(nx, ny, a, d) >= 0 &&
                  Nb(nx, ny, a, d) != p && next'[Nb(nx, ny, a, d)] >= 0
      ensures Top(next', h', a) == Top(next', h', Nb(nx, ny, a, d))
    {
      assert Top(next, h, a) == Top(next, h, Nb(nx, ny, a, d));
    }
  }

  /**
   * A union that maps tops to tops keeps the directions already visited, and
   * one that brings p's neighbour in direction Turn(r, j) into p's cluster
   * completes that direction.
   */
  lemma {:induction false} DoneStep(nx: nat, ny: nat, next: seq<int>, h: seq<nat>, next': seq<int>, h': seq<nat>,
                                    p: int, r: int, j: int)
    requires Forest(next, h) && |next| == nx * ny && 0 <= p < |next| && next[p] >= 0 && 0 <= r < 4 && 0 <= j < 4
    requires Done(nx, ny, next, h, p, r, j) && Forest(next', h') && |next'| == |next|
    requires forall k :: 0 <= k < |next| ==> (next'[k] >= 0 <==> next[k] >= 0)
    requires forall a :: 0 <= a < |next| && next[a] >= 0 && Top(next, h, a) == Top(next, h, p)
               ==> Top(next', h', a) == Top(next', h', p)
    requires Nb(nx, ny, p, Turn(r, j)) >= 0 && next[Nb(nx, ny, p, Turn(r, j))] >= 0 ==>
               Top(next', h', Nb(nx, ny, p, Turn(r, j))) == Top(next', h', p)
    ensures Done(nx, ny, next', h', p, r, j + 1)
  {
    forall j' | 0 <= j' < j && Nb(nx, ny, p, Turn(r, j')) >= 0 && next'[Nb(nx, ny, p, Turn(r, j'))] >= 0
      ensures Top(next', h', Nb(nx, ny, p, Turn(r, j'))) == Top(next', h', p)
    {
      assert Top(next, h, Nb(nx, ny, p, Turn(r, j'))) == Top(next, h, p);
    }
  }

  /** Pixel p rises as a cluster of its own (lines 123-124) and its visit begins. */
  lemma {:induction false} FloodStart(nx: nat, ny: nat, next: seq<int>, size: seq<int>, h: seq<nat>, count: int, st: int, p: int, r: int)
    requires |next| == nx * ny && 0 <= p < |next| && next[p] < 0 && 0 <= r < 4
    requires Forest(next, h) && SizesOk(next, h, size) && count == BigRoots(next, size, st, |next|) && Joined(nx, ny, next, h)
    ensures Visiting(nx, ny, next[p := p], size[p := 1], h, count, st, p, -1, r, 0)
    ensures Flooded(next[p := p]) == Flooded(next) + {p}
  {
    var next', size' := next[p := p], size[p := 1];
    FloodNew(next, h, p);
    FloodNewSizes(next, h, size, p);
    BigRootsChange1(next, size, next', size', st, p, |next|);
    forall a, d | 0 <= a < |next| && a != p && 0 <= d < 4 && next'[a] >= 0 && Nb(nx, ny, a, d) >= 0 &&
                  Nb(nx, ny, a, d) != p && next'[Nb(nx, ny, a, d)] >= 0
      ensures Top(next', h, a) == Top(next', h, Nb(nx, ny, a, d))
    {
      assert Top(next, h, a) == Top(next, h, Nb(nx, ny, a, d));
    }
  }

  /**
   * The union-find part of lines 156-167: p, still a cluster of its own,
   * joins the cluster t of its flooded neighbour q; the count rises exactly
   * when t reaches st pixels.
   */
  lemma {:induction false} JoinCount(next: seq<int>, size: seq<int>, h: seq<nat>, count: int, st: int, p: int, q: int)
    requires Counted(next, size, h, count, st, p, -1)
    requires 0 <= q < |next| && q != p && next[q] >= 0
    ensures var t := Top(next, h, q);
      && t != p
      && Counted(next[p := t], size[t := size[t] + 1], Raise(h, p, t), if size[t] + 1 == st then count + 1 else count, st, p, t)
      && (forall k :: 0 <= k < |next| && next[k] >= 0 ==>
            Top(next[p := t], Raise(h, p, t), k) == if Top(next, h, k) == p then t else Top(next, h, k))
  {
    var t := Top(next, h, q);
    JoinRoot(next, h, p, q);
    assert size[p] == |Members(next, h, p)| == 1;
    LinkSizes(next, h, size, p, t);
    LinkTops(next, h, p, t);
    TopStep(next, h, p);
    JoinBig(next, size, count, st, p, t);
  }

  /** A flooded pixel q other than p, while p is a cluster of its own, has its root elsewhere. */
  lemma JoinRoot(next: seq<int>, h: seq<nat>, p: int, q: int)
    requires Forest(next, h) && 0 <= p < |next| && next[p] == p && Members(next, h, p) == {p}
    requires 0 <= q < |next| && q != p && next[q] >= 0
    ensures Top(next, h, q) != p
  {
    assert q in Members(next, h, Top(next, h, q));
  }

  /** The count of big clusters after a one-pixel cluster p joins cluster t. */
  lemma JoinBig(next: seq<int>, size: seq<int>, count: int, st: int, p: int, t: int)
    requires |size| == |next| && 0 <= p < |next| && 0 <= t < |next| && p != t
    requires next[p] == p && next[t] == t && size[p] == 1
    requires count == BigRoots(next, size, st, |next|) - (if Big(next, size, st, p) then 1 else 0)
    ensures (if size[t] + 1 == st then count + 1 else count) ==
            BigRoots(next[p := t], size[t := size[t] + 1], st, |next|) - (if Big(next[p := t], size[t := size[t] + 1], st, p) then 1 else 0)
  {
    BigRootsChange2(next, size, next[p := t], size[t := size[t] + 1], st, p, t, |next|);
  }

  /**
   * The union-find part of lines 169-189: the cluster nb of p's flooded
   * neighbour differs from p's cluster cl and is linked under it; the
   * count moves as MergeDelta says.
   */
  lemma {:induction false} MergeCount(next: seq<int>, size: seq<int>, h: seq<nat>, count: int, st: int, p: int, cl: int, nb: int)
    requires Counted(next, size, h, count, st, p, cl) && cl != -1
    requires 0 <= nb < |next| && next[nb] == nb && nb != cl
    ensures Counted(next[nb := cl], size[cl := size[cl] + size[nb]], Raise(h, nb, cl),
                    count + MergeDelta(size[cl], size[nb], st), st, p, cl)
    ensures forall k :: 0 <= k < |next| && next[k] >= 0 ==>
              Top(next[nb := cl], Raise(h, nb, cl), k) == if Top(next, h, k) == nb then cl else Top(next, h, k)
  {
    var next', size', h' := next[nb := cl], size[cl := size[cl] + size[nb]], Raise(h, nb, cl);
    Link(next, h, nb, cl);
    LinkSizes(next, h, size, nb, cl);
    assert size' == size[cl := size[nb] + size[cl]];
    BigRootsChange2(next, size, next', size', st, nb, cl, |next|);
    MergeDeltaCounts(size[cl], size[nb], st);
  }

  /** Lines 156-167 for the neighbour in direction Turn(r, j): p joins its cluster. */
  lemma {:induction false} JoinStep(nx: nat, ny: nat, next: seq<int>, size: seq<int>, h: seq<nat>, count: int, st: int,
                                    p: int, r: int, j: int)
    requires Visiting(nx, ny, next, size, h, count, st, p, -1, r, j) && j < 4
    requires Nb(nx, ny, p, Turn(r, j)) >= 0 && next[Nb(nx, ny, p, Turn(r, j))] >= 0
    ensures var t := Top(next, h, Nb(nx, ny, p, Turn(r, j)));
      && Visiting(nx, ny, next[p := t], size[t := size[t] + 1], Raise(h, p, t),
                  if size[t] + 1 == st then count + 1 else count, st, p, t, r, j + 1)
      && Flooded(next[p := t]) == Flooded(next)
  {
    var q := Nb(nx, ny, p, Turn(r, j));
    NbDistinct(nx, ny, p, Turn(r, j), (Turn(r, j) + 1) % 4);
    JoinCount(next, size, h, count, st, p, q);
    var t := Top(next, h, q);
    TopStep(next, h, p);
    JoinNear(nx, ny, next, h, p, r, j, t);
    assert Flooded(next[p := t]) == Flooded(next);
  }

  /** p going under t, the root of its neighbour in direction Turn(r, j), keeps the neighbour part and completes that direction. */
  lemma JoinNear(nx: nat, ny: nat, next: seq<int>, h: seq<nat>, p: int, r: int, j: int, t: int)
    requires Forest(next, h) && |next| == nx * ny && 0 <= p < |next| && next[p] == p && 0 <= r < 4 && 0 <= j < 4
    requires Near(nx, ny, next, h, p, r, j) && 0 <= t < |next| && Forest(next[p := t], Raise(h, p, t))
    requires Nb(nx, ny, p, Turn(r, j)) >= 0 && next[Nb(nx, ny, p, Turn(r, j))] >= 0 && t == Top(next, h, Nb(nx, ny, p, Turn(r, j)))
    requires Top(next, h, p) == p && Top(next[p := t], Raise(h, p, t), p) == t
    requires forall k :: 0 <= k < |next| && next[k] >= 0 ==>
               Top(next[p := t], Raise(h, p, t), k) == if Top(next, h, k) == p then t else Top(next, h, k)
    ensures Near(nx, ny, next[p := t], Raise(h, p, t), p, r, j + 1)
  {
    JoinedButStep(nx, ny, next, h, next[p := t], Raise(h, p, t), p);
    DoneStep(nx, ny, next, h, next[p := t], Raise(h, p, t), p, r, j);
  }

  /** Lines 169-189 for the neighbour in direction Turn(r, j): its cluster merges into p's. */
  lemma {:induction false} MergeStep(nx: nat, ny: nat, next: seq<int>, size: seq<int>, h: seq<nat>, count: int, st: int,
                                     p: int, cl: int, r: int, j: int)
    requires Visiting(nx, ny, next, size, h, count, st, p, cl, r, j) && cl != -1 && j < 4
    requires Nb(nx, ny, p, Turn(r, j)) >= 0 && next[Nb(nx, ny, p, Turn(r, j))] >= 0
    requires Top(next, h, Nb(nx, ny, p, Turn(r, j))) != cl
    ensures var nb := Top(next, h, Nb(nx, ny, p, Turn(r, j)));
      && Visiting(nx, ny, next[nb := cl], size[cl := size[cl] + size[nb]], Raise(h, nb, cl),
                  count + MergeDelta(size[cl], size[nb], st), st, p, cl, r, j + 1)
      && Flooded(next[nb := cl]) == Flooded(next)
  {
    var nb := Top(next, h, Nb(nx, ny, p, Turn(r, j)));
    var next', size', h' := next[nb := cl], size[cl := size[cl] + size[nb]], Raise(h, nb, cl);
    MergeCount(next, size, h, count, st, p, cl, nb);
    assert JoinedBut(nx, ny, next', h', p) by {
      JoinedButStep(nx, ny, next, h, next', h', p);
    }
    assert Done(nx, ny, next', h', p, r, j + 1) by {
      DoneStep(nx, ny, next, h, next', h', p, r, j);
    }
    assert Flooded(next') == Flooded(next);
  }

  /** Joining p to the cluster of its neighbour in direction Turn(r, j) keeps every cluster connected. */
  lemma JoinSpan(nx: nat, ny: nat, next: seq<int>, size: seq<int>, h: seq<nat>, count: int, st: int,
                 p: int, r: int, j: int)
    requires Visiting(nx, ny, next, size, h, count, st, p, -1, r, j) && j < 4 && Spanned(nx, ny, next, h)
    requires Nb(nx, ny, p, Turn(r, j)) >= 0 && next[Nb(nx, ny, p, Turn(r, j))] >= 0
    ensures var t := Top(next, h, Nb(nx, ny, p, Turn(r, j)));
      Forest(next[p := t], Raise(h, p, t)) && Spanned(nx, ny, next[p := t], Raise(h, p, t))
  {
    var q := Nb(nx, ny, p, Turn(r, j));
    NbDistinct(nx, ny, p, Turn(r, j), (Turn(r, j) + 1) % 4);
    EdgeNb(nx, ny, p, Turn(r, j));
    SpanJoin(nx, ny, next, h, p, q);
  }

  /** Linking the cluster of p's neighbour in direction Turn(r, j) under p's keeps every cluster connected. */
  lemma MergeSpan(nx: nat, ny: nat, next: seq<int>, size: seq<int>, h: seq<nat>, count: int, st: int,
                  p: int, cl: int, r: int, j: int)
    requires Visiting(nx, ny, next, size, h, count, st, p, cl, r, j) && cl != -1 && j < 4 && Spanned(nx, ny, next, h)
    requires Nb(nx, ny, p, Turn(r, j)) >= 0 && next[Nb(nx, ny, p, Turn(r, j))] >= 0
    requires Top(next, h, Nb(nx, ny, p, Turn(r, j))) != cl
    ensures var nb := Top(next, h, Nb(nx, ny, p, Turn(r, j)));
      Forest(next[nb := cl], Raise(h, nb, cl)) && Spanned(nx, ny, next[nb := cl], Raise(h, nb, cl))
  {
    var q := Nb(nx, ny, p, Turn(r, j));
    EdgeNb(nx, ny, p, Turn(r, j));
    SpanLink(nx, ny, next, h, Top(next, h, q), cl, q, p);
  }

  /** The neighbour in direction Turn(r, j) is already in p's cluster, or is not flooded: nothing changes. */
  lemma {:induction false} PassStep(nx: nat, ny: nat, next: seq<int>, size: seq<int>, h: seq<nat>, count: int, st: int,
                                    p: int, cl: int, r: int, j: int)
    requires Visiting(nx, ny, next, size, h, count, st, p, cl, r, j) && j < 4
    requires Nb(nx, ny, p, Turn(r, j)) >= 0 && next[Nb(nx, ny, p, Turn(r, j))] >= 0 ==>
               cl != -1 && Top(next, h, Nb(nx, ny, p, Turn(r, j))) == cl
    ensures Visiting(nx, ny, next, size, h, count, st, p, cl, r, j + 1)
  {
    DoneStep(nx, ny, next, h, next, h, p, r, j);
  }

  /** Once all four directions of p are done, every pair of flooded neighbours shares a cluster. */
  lemma {:induction false} NearJoined(nx: nat, ny: nat, next: seq<int>, h: seq<nat>, p: int, r: int)
    requires Forest(next, h) && |next| == nx * ny && 0 <= p < |next| && next[p] >= 0 && 0 <= r < 4
    requires Near(nx, ny, next, h, p, r, 4)
    ensures Joined(nx, ny, next, h)
  {
    forall a, d | 0 <= a < |next| && 0 <= d < 4 && next[a] >= 0 && Nb(nx, ny, a, d) >= 0 && next[Nb(nx, ny, a, d)] >= 0
      ensures Top(next, h, a) == Top(next, h, Nb(nx, ny, a, d))
    {
      if a == p {
        TurnOnto(r, d);
      } else if Nb(nx, ny, a, d) == p {
        NbBack(nx, ny, a, d);
        TurnOnto(r, Opp(d));
      }
    }
  }

  /**
   * After the four directions (lines 193-198): every pair of flooded
   * neighbours shares a cluster, and the count of clusters of at least st
   * pixels gains p exactly when p is still on its own and 1 >= st.
   */
  lemma {:induction false} FinishPixel(nx: nat, ny: nat, next: seq<int>, size: seq<int>, h: seq<nat>, count: int, st: int,
                                       p: int, cl: int, r: int)
    requires Visiting(nx, ny, next, size, h, count, st, p, cl, r, 4)
    ensures Joined(nx, ny, next, h)
    ensures next[p] == p ==> size[p] == 1
    ensures BigRoots(next, size, st, |next|) == count + (if next[p] == p && 1 >= st then 1 else 0)
  {
    NearJoined(nx, ny, next, h, p, r);
    if next[p] == p {
      assert p in Members(next, h, p);
    }
  }

  /**
   * One direction of the visit (lines 133-189): the neighbour in direction
   * Turn(r, j), when inside the image and flooded, joins p to its cluster,
   * or merges its cluster into p's, with the count kept.
   */
  method Visit(nx: nat, ny: nat, next: array<int>, size: array<int>, ghost h: seq<nat>, st: int,
               p: int, cl: int, r: int, j: int, count: int)
    returns (cl': int, count': int, ghost h': seq<nat>)
    requires next != size && 0 <= j < 4
    requires Visiting(nx, ny, next[..], size[..], h, count, st, p, cl, r, j) && Spanned(nx, ny, next[..], h)
    modifies next, size
    ensures Visiting(nx, ny, next[..], size[..], h', count', st, p, cl', r, j + 1) && Spanned(nx, ny, next[..], h')
    ensures Flooded(next[..]) == Flooded(old(next[..]))
  {
    cl', count', h' := cl, count, h;
    var d := Turn(r, j);
    SplitIndex(p, nx, ny);
    var ix2 := p / ny + DX[d];
    var iy2 := p % ny + DY[d];
    if !(0 <= ix2 < nx && 0 <= iy2 < ny) {
      PassStep(nx, ny, next[..], size[..], h, count, st, p, cl, r, j);
      return;
    }
    var q := ix2 * ny + iy2;
    assert q == Nb(nx, ny, p, d);
    if next[q] < 0 {
      PassStep(nx, ny, next[..], size[..], h, count, st, p, cl, r, j);
      return;
    }
    cl', count', h' := Unite(nx, ny, next, size, h, st, p, cl, r, j, count);
  }

  /**
   * Lines 153-189 for the flooded neighbour in direction Turn(r, j): p joins
   * its cluster when p is still on its own, and otherwise that cluster, when
   * different, is linked under p's.
   */
  method Unite(nx: nat, ny: nat, next: array<int>, size: array<int>, ghost h: seq<nat>, st: int,
               p: int, cl: int, r: int, j: int, count: int)
    returns (cl': int, count': int, ghost h': seq<nat>)
    requires next != size && 0 <= j < 4
    requires Visiting(nx, ny, next[..], size[..], h, count, st, p, cl, r, j) && Spanned(nx, ny, next[..], h)
    requires Nb(nx, ny, p, Turn(r, j)) >= 0 && next[Nb(nx, ny, p, Turn(r, j))] >= 0
    modifies next, size
    ensures Visiting(nx, ny, next[..], size[..], h', count', st, p, cl', r, j + 1) && Spanned(nx, ny, next[..], h')
    ensures Flooded(next[..]) == Flooded(old(next[..]))
  {
    cl', count', h' := cl, count, h;
    var nbr := GetTop(Nb(nx, ny, p, Turn(r, j)), next, h);
    if cl == -1 {
      cl', count', h' := Join(nx, ny, next, size, h, st, p, r, j, count, nbr);
    } else if cl >= 0 && cl != nbr {
      count', h' := Merge(nx, ny, next, size, h, st, p, cl, r, j, count, nbr);
    } else {
      PassStep(nx, ny, next[..], size[..], h, count, st, p, cl, r, j);
    }
  }

  /** Lines 156-167 on the state: p joining nbr keeps the visit's invariants and every cluster connected. */
  lemma JoinAll(nx: nat, ny: nat, n0: seq<int>, s0: seq<int>, h: seq<nat>, count: int, st: int,
                p: int, r: int, j: int, nbr: int)
    requires Visiting(nx, ny, n0, s0, h, count, st, p, -1, r, j) && j < 4 && Spanned(nx, ny, n0, h)
    requires Nb(nx, ny, p, Turn(r, j)) >= 0 && n0[Nb(nx, ny, p, Turn(r, j))] >= 0
    requires nbr == Top(n0, h, Nb(nx, ny, p, Turn(r, j)))
    ensures Visiting(nx, ny, n0[p := nbr], s0[nbr := s0[nbr] + 1], Raise(h, p, nbr),
                     if s0[nbr] + 1 == st then count + 1 else count, st, p, nbr, r, j + 1)
    ensures Spanned(nx, ny, n0[p := nbr], Raise(h, p, nbr)) && Flooded(n0[p := nbr]) == Flooded(n0)
  {
    JoinStep(nx, ny, n0, s0, h, count, st, p, r, j);
    JoinSpan(nx, ny, n0, s0, h, count, st, p, r, j);
  }

  /** Lines 169-189 on the state: nbr linked under cl keeps the visit's invariants and every cluster connected. */
  lemma MergeAll(nx: nat, ny: nat, n0: seq<int>, s0: seq<int>, h: seq<nat>, count: int, st: int,
                 p: int, cl: int, r: int, j: int, nbr: int)
    requires Visiting(nx, ny, n0, s0, h, count, st, p, cl, r, j) && cl != -1 && j < 4 && Spanned(nx, ny, n0, h)
    requires Nb(nx, ny, p, Turn(r, j)) >= 0 && n0[Nb(nx, ny, p, Turn(r, j))] >= 0
    requires nbr == Top(n0, h, Nb(nx, ny, p, Turn(r, j))) && nbr != cl
    ensures Visiting(nx, ny, n0[nbr := cl], s0[cl := s0[cl] + s0[nbr]], Raise(h, nbr, cl),
                     count + MergeDelta(s0[cl], s0[nbr], st), st, p, cl, r, j + 1)
    ensures Spanned(nx, ny, n0[nbr := cl], Raise(h, nbr, cl)) && Flooded(n0[nbr := cl]) == Flooded(n0)
  {
    MergeStep(nx, ny, n0, s0, h, count, st, p, cl, r, j);
    MergeSpan(nx, ny, n0, s0, h, count, st, p, cl, r, j);
  }

  /** Lines 156-167: p, on its own, joins the cluster nbr of its neighbour in direction Turn(r, j). */
  method Join(nx: nat, ny: nat, next: array<int>, size: array<int>, ghost h: seq<nat>, st: int,
              p: int, r: int, j: int, count: int, nbr: int)
    returns (cl': int, count': int, ghost h': seq<nat>)
    requires next != size && 0 <= j < 4
    requires Visiting(nx, ny, next[..], size[..], h, count, st, p, -1, r, j) && Spanned(nx, ny, next[..], h)
    requires Nb(nx, ny, p, Turn(r, j)) >= 0 && next[Nb(nx, ny, p, Turn(r, j))] >= 0
    requires nbr == Top(next[..], h, Nb(nx, ny, p, Turn(r, j)))
    modifies next, size
    ensures Visiting(nx, ny, next[..], size[..], h', count', st, p, cl', r, j + 1) && Spanned(nx, ny, next[..], h')
    ensures Flooded(next[..]) == Flooded(old(next[..]))
  {
    JoinAll(nx, ny, next[..], size[..], h, count, st, p, r, j, nbr);
    cl' := nbr;
    var s := AddUnder(next, size, p, cl');
    count' := count;
    if s == st {
      count' := count + 1;
    }
    h' := Raise(h, p, nbr);
  }

  /** Lines 160-163, the writes: p goes under root t, whose size s grows by one. */
  method AddUnder(next: array<int>, size: array<int>, p: int, t: int) returns (s: int)
    requires next != size && 0 <= p < next.Length && 0 <= t < size.Length
    modifies next, size
    ensures next[..] == old(next[..])[p := t]
    ensures size[..] == old(size[..])[t := old(size[t]) + 1] && s == old(size[t]) + 1
  {
    next[p] := t;
    size[t] := size[t] + 1;
    s := size[t];
  }

  /** Lines 169-189: the cluster nbr of p's neighbour in direction Turn(r, j), not p's cluster cl, is linked under cl. */
  method Merge(nx: nat, ny: nat, next: array<int>, size: array<int>, ghost h: seq<nat>, st: int,
               p: int, cl: int, r: int, j: int, count: int, nbr: int)
    returns (count': int, ghost h': seq<nat>)
    requires next != size && 0 <= j < 4 && cl != -1
    requires Visiting(nx, ny, next[..], size[..], h, count, st, p, cl, r, j) && Spanned(nx, ny, next[..], h)
    requires Nb(nx, ny, p, Turn(r, j)) >= 0 && next[Nb(nx, ny, p, Turn(r, j))] >= 0
    requires nbr == Top(next[..], h, Nb(nx, ny, p, Turn(r, j))) && nbr != cl
    modifies next, size
    ensures Visiting(nx, ny, next[..], size[..], h', count', st, p, cl, r, j + 1) && Spanned(nx, ny, next[..], h')
    ensures Flooded(next[..]) == Flooded(old(next[..]))
  {
    MergeAll(nx, ny, next[..], size[..], h, count, st, p, cl, r, j, nbr);
    count' := Recount(count, size[cl], size[nbr], st);
    LinkUnder(next, size, nbr, cl);
    h' := Raise(h, nbr, cl);
  }

  /** Lines 176-187, the writes: root nb goes under root cl, which takes over its pixels. */
  method LinkUnder(next: array<int>, size: array<int>, nb: int, cl: int)
    requires next != size && 0 <= nb < next.Length && 0 <= cl < size.Length && 0 <= nb < size.Length
    modifies next, size
    ensures next[..] == old(next[..])[nb := cl]
    ensures size[..] == old(size[..])[cl := old(size[cl]) + old(size[nb])]
  {
    next[nb] := cl;
    var s2 := size[nb];
    size[cl] := size[cl] + s2;
  }

  /**
   * Lines 123-198 for pixel p, starting its visit in direction r: p rises,
   * joins or bridges the clusters of its flooded neighbours, and the count
   * stays the number of clusters of at least st pixels.
   */
  method Rise(nx: nat, ny: nat, next: array<int>, size: array<int>, ghost h: seq<nat>, st: int,
              p: int, r: int, count: int)
    returns (count': int, ghost h': seq<nat>)
    requires next != size && next.Length == nx * ny && 0 <= p < next.Length && next[p] < 0 && 0 <= r < 4
    requires Forest(next[..], h) && SizesOk(next[..], h, size[..]) && Joined(nx, ny, next[..], h)
    requires count == BigRoots(next[..], size[..], st, next.Length) && Spanned(nx, ny, next[..], h)
    modifies next, size
    ensures Forest(next[..], h') && SizesOk(next[..], h', size[..]) && Joined(nx, ny, next[..], h')
    ensures Spanned(nx, ny, next[..], h')
    ensures count' == BigRoots(next[..], size[..], st, next.Length)
    ensures Flooded(next[..]) == Flooded(old(next[..])) + {p}
  {
    FloodStart(nx, ny, next[..], size[..], h, count, st, p, r);
    SpanFlood(nx, ny, next[..], h, p);
    next[p] := p;
    size[p] := 1;
    h' := h;
    count' := count;
    var cl := -1;
    for j := 0 to 4
      invariant Visiting(nx, ny, next[..], size[..], h', count', st, p, cl, r, j) && Spanned(nx, ny, next[..], h')
      invariant Flooded(next[..]) == Flooded(old(next[..])) + {p}
    {
      cl, count', h' := Visit(nx, ny, next, size, h', st, p, cl, r, j, count');
    }
    FinishPixel(nx, ny, next[..], size[..], h', count', st, p, cl, r);
    if next[p] == p {
      if 1 >= st {
        count' := count' + 1;
      }
    }
  }

  /** Thresholds in descending order, as the Python wrapper sorts them (watershed_ncluster.py lines 46-47). */
  predicate Descending(s: seq<real>) {
    forall a, b :: 0 <= a < b < |s| ==> s[b] <= s[a]
  }

  /**
   * The threshold-slot loop of lines 110-113: from it0 on, the first slot
   * whose threshold is at or below f1, or the number of thresholds when
   * there is none.
   */
  method Advance(thresholds: seq<real>, it0: int, f1: real) returns (it: int)
    requires 0 <= it0 <= |thresholds|
    ensures it0 <= it <= |thresholds|
    ensures forall t :: it0 <= t < it ==> f1 < thresholds[t]
    ensures it < |thresholds| ==> thresholds[it] <= f1
  {
    it := it0;
    while it < |thresholds|
      invariant it0 <= it <= |thresholds|
      invariant forall t :: it0 <= t < it ==> f1 < thresholds[t]
    {
      if thresholds[it] <= f1 {
        break;
      }
      it := it + 1;
    }
  }

  /** A pixel value f lies in the band of slot t: at or above thresholds[t] and below the threshold before it. */
  predicate InBand(thresholds: seq<real>, t: int, f: real)
    requires 0 <= t < |thresholds|
  {
    thresholds[t] <= f && (t == 0 || f < thresholds[t - 1])
  }

  /** Some pixel of the image lies in the band of slot t. */
  ghost predicate Band(img: seq<seq<real>>, nx: nat, ny: nat, thresholds: seq<real>, t: int)
    requires IsGrid(img, nx, ny) && 0 <= t < |thresholds|
  {
    exists k :: 0 <= k < nx * ny && InBand(thresholds, t, Value(img, nx, ny, k))
  }

  /** A state of the counter's union-find arrays, kept as the sample of a reported count. */
  datatype Snap = Snap(next: seq<int>, size: seq<int>, h: seq<nat>)

  /**
   * c is the number of clusters of at least st pixels of the state s, in
   * which exactly the pixels at or above threshold are flooded, the sizes
   * are right, flooded neighbours share a cluster and every cluster is
   * connected: its clusters are the connected components of those pixels.
   */
  ghost predicate Reports(img: seq<seq<real>>, nx: nat, ny: nat, threshold: real, st: int, s: Snap, c: int)
    requires IsGrid(img, nx, ny)
  {
    && |s.next| == nx * ny && Forest(s.next, s.h) && SizesOk(s.next, s.h, s.size) && Joined(nx, ny, s.next, s.h) && Spanned(nx, ny, s.next, s.h)
    && (forall k :: 0 <= k < nx * ny ==> (s.next[k] >= 0 <==> Value(img, nx, ny, k) >= threshold))
    && c == BigRoots(s.next, s.size, st, nx * ny)
  }

  /**
   * What `compute_nclusters` leaves in slot t: when some pixel lies in its
   * band, the count of the state with the pixels at or above thresholds[t]
   * flooded; otherwise the slot's value before the call.
   */
  ghost predicate Slot(img: seq<seq<real>>, nx: nat, ny: nat, thresholds: seq<real>, st: int, t: int,
                       s: Snap, c: int, c0: int)
    requires IsGrid(img, nx, ny) && 0 <= t < |thresholds|
  {
    && (Band(img, nx, ny, thresholds, t) ==> Reports(img, nx, ny, thresholds[t], st, s, c))
    && (!Band(img, nx, ny, thresholds, t) ==> c == c0)
  }

  /**
   * The state of the flood while it stands at argsort position i is the
   * one to report for threshold t when the pixel at i lies below t and the
   * pixels after it do not.
   */
  lemma StateReports(img: seq<seq<real>>, nx: nat, ny: nat, order: seq<int>, threshold: real, st: int, i: int,
                     s: Snap, c: int)
    requires IsGrid(img, nx, ny) && IsArgsort(img, nx, ny, order) && -1 <= i < |order|
    requires |s.next| == nx * ny && Forest(s.next, s.h) && SizesOk(s.next, s.h, s.size) && Joined(nx, ny, s.next, s.h) && Spanned(nx, ny, s.next, s.h)
    requires Flooded(s.next) == Dry(order, i) && c == BigRoots(s.next, s.size, st, nx * ny)
    requires i >= 0 ==> Value(img, nx, ny, order[i]) < threshold
    requires forall j :: i < j < |order| ==> Value(img, nx, ny, order[j]) >= threshold
    ensures Reports(img, nx, ny, threshold, st, s, c)
  {
    ThresholdSplit(img, nx, ny, order, i, threshold);
    assert forall k :: 0 <= k < nx * ny ==> (s.next[k] >= 0 <==> k in Flooded(s.next));
  }

  /**
   * No pixel lies in the band of slot t when the pixels after position i
   * are at or above thresholds[lo] for some lo < t, and those up to i below
   * thresholds[t].
   */
  lemma NoBand(img: seq<seq<real>>, nx: nat, ny: nat, order: seq<int>, thresholds: seq<real>, i: int, lo: int, t: int)
    requires IsGrid(img, nx, ny) && IsArgsort(img, nx, ny, order) && Descending(thresholds) && -1 <= i < |order|
    requires 0 <= lo < t < |thresholds|
    requires forall j :: i < j < |order| ==> Value(img, nx, ny, order[j]) >= thresholds[lo]
    requires forall j :: 0 <= j <= i ==> Value(img, nx, ny, order[j]) < thresholds[t]
    ensures !Band(img, nx, ny, thresholds, t)
  {
    forall k | 0 <= k < nx * ny
      ensures !InBand(thresholds, t, Value(img, nx, ny, k))
    {
      assert k in order;
      var a :| 0 <= a < |order| && order[a] == k;
    }
  }

  /**
   * Closing slot t at position i (the pixel there lies below thresholds[t],
   * or i = -1): the slot holds the current count when a pixel of its band
   * was flooded, and its old value otherwise.
   */
  lemma {:induction false} Close(img: seq<seq<real>>, nx: nat, ny: nat, order: seq<int>, thresholds: seq<real>, st: int,
                                 i: int, t: int, s: Snap, c: int, c0: int, wrote: bool, sample: int)
    requires IsGrid(img, nx, ny) && IsArgsort(img, nx, ny, order) && -1 <= i < |order| && 0 <= t < |thresholds|
    requires |s.next| == nx * ny && Forest(s.next, s.h) && SizesOk(s.next, s.h, s.size) && Joined(nx, ny, s.next, s.h) && Spanned(nx, ny, s.next, s.h)
    requires Flooded(s.next) == Dry(order, i)
    requires i >= 0 ==> Value(img, nx, ny, order[i]) < thresholds[t]
    requires forall j :: i < j < |order| ==> Value(img, nx, ny, order[j]) >= thresholds[t]
    requires wrote ==> c == BigRoots(s.next, s.size, st, nx * ny) && 0 <= sample < nx * ny &&
                       InBand(thresholds, t, Value(img, nx, ny, sample))
    requires !wrote ==> c == c0 && forall j :: i < j < |order| ==> !InBand(thresholds, t, Value(img, nx, ny, order[j]))
    ensures Slot(img, nx, ny, thresholds, st, t, s, c, c0)
  {
    if wrote {
      StateReports(img, nx, ny, order, thresholds[t], st, i, s, c);
    } else {
      forall k | 0 <= k < nx * ny
        ensures !InBand(thresholds, t, Value(img, nx, ny, k))
      {
        assert k in order;
        var a :| 0 <= a < |order| && order[a] == k;
        if a <= i {
          assert Value(img, nx, ny, k) <= Value(img, nx, ny, order[i]);
        }
      }
    }
  }

  /**
   * The state of the pass of `compute_nclusters` while it stands at argsort
   * position i with threshold slot it: the flood holds the pixels after i;
   * the slots before it are closed; the slots after it are untouched; slot
   * it holds the current count once a pixel of its band has risen (sample),
   * and is untouched before.
   */
  ghost predicate Pass(img: seq<seq<real>>, nx: nat, ny: nat, order: seq<int>, thresholds: seq<real>, st: int,
                       i: int, it: int, s: Snap, count: int, cs: seq<int>, c0: seq<int>, snaps: seq<Snap>,
                       wrote: bool, sample: int)
    requires IsGrid(img, nx, ny) && IsArgsort(img, nx, ny, order)
  {
    && -1 <= i < |order| && 0 <= it <= |thresholds|
    && |snaps| == |thresholds| && |cs| == |thresholds| && |c0| == |thresholds|
    && |s.next| == |order| && Flooded(s.next) == Dry(order, i)
    && Forest(s.next, s.h) && SizesOk(s.next, s.h, s.size) && Joined(nx, ny, s.next, s.h) && Spanned(nx, ny, s.next, s.h)
    && count == BigRoots(s.next, s.size, st, |order|)
    && (it < |thresholds| ==> forall j :: i < j < |order| ==> Value(img, nx, ny, order[j]) >= thresholds[it])
    && (it > 0 ==> forall j :: 0 <= j <= i ==> Value(img, nx, ny, order[j]) < thresholds[it - 1])
    && (forall t :: 0 <= t < it ==> Slot(img, nx, ny, thresholds, st, t, snaps[t], cs[t], c0[t]))
    && (forall t :: it < t < |thresholds| ==> cs[t] == c0[t])
    && (it < |thresholds| && wrote ==>
          cs[it] == count && 0 <= sample < |order| && InBand(thresholds, it, Value(img, nx, ny, sample)))
    && (it < |thresholds| && !wrote ==>
          cs[it] == c0[it] && forall j :: i < j < |order| ==> !InBand(thresholds, it, Value(img, nx, ny, order[j])))
  }

  /** The pass starts with nothing flooded, at the last argsort position and the first slot. */
  lemma StartPass(img: seq<seq<real>>, nx: nat, ny: nat, order: seq<int>, thresholds: seq<real>, st: int,
                  next: seq<int>, size: seq<int>, h: seq<nat>, cs: seq<int>, snaps: seq<Snap>)
    requires IsGrid(img, nx, ny) && IsArgsort(img, nx, ny, order)
    requires |next| == |size| == |h| == |order| && forall k :: 0 <= k < |next| ==> next[k] == -1
    requires |cs| == |snaps| == |thresholds|
    ensures Pass(img, nx, ny, order, thresholds, st, |order| - 1, 0, Snap(next, size, h), 0, cs, cs, snaps, false, 0)
  {
    EmptyForest(next, h);
    SpanEmpty(nx, ny, next, h);
    assert Dry(order, |order| - 1) == {};
    if |order| > 0 {
      BigRootsZero(next, size, st, |order|);
    }
  }

  /** With nothing flooded there are no roots to count. */
  lemma {:induction false} BigRootsZero(next: seq<int>, size: seq<int>, t: int, m: nat)
    requires |size| == |next| && m <= |next| && forall k :: 0 <= k < |next| ==> next[k] < 0
    ensures BigRoots(next, size, t, m) == 0
  {
    if m > 0 {
      BigRootsZero(next, size, t, m - 1);
    }
  }

  /**
   * Lines 110-113 at position i with pixel value f1: the slot moves from it0
   * to it, closing it0 (snaps[it0] := s) and passing over slots whose band
   * is empty.
   */
  lemma {:induction false} Advanced(img: seq<seq<real>>, nx: nat, ny: nat, order: seq<int>, thresholds: seq<real>, st: int,
                                    i: int, it0: int, it: int, s: Snap, count: int, cs: seq<int>, c0: seq<int>,
                                    snaps: seq<Snap>, wrote: bool, sample: int)
    requires IsGrid(img, nx, ny) && IsArgsort(img, nx, ny, order) && Descending(thresholds)
    requires Pass(img, nx, ny, order, thresholds, st, i, it0, s, count, cs, c0, snaps, wrote, sample) && 0 <= i
    requires it0 < it <= |thresholds|
    requires forall t :: it0 <= t < it ==> Value(img, nx, ny, order[i]) < thresholds[t]
    requires it < |thresholds| ==> thresholds[it] <= Value(img, nx, ny, order[i])
    ensures Pass(img, nx, ny, order, thresholds, st, i, it, s, count, cs, c0, snaps[it0 := s], false, sample)
  {
    var snaps' := snaps[it0 := s];
    assert Slot(img, nx, ny, thresholds, st, it0, s, cs[it0], c0[it0]) by {
      Close(img, nx, ny, order, thresholds, st, i, it0, s, cs[it0], c0[it0], wrote, sample);
    }
    forall t | 0 <= t < it
      ensures Slot(img, nx, ny, thresholds, st, t, snaps'[t], cs[t], c0[t])
    {
      if it0 < t {
        BelowAll(img, nx, ny, order, i, thresholds[t]);
        NoBand(img, nx, ny, order, thresholds, i, it0, t);
      }
    }
    BelowAll(img, nx, ny, order, i, thresholds[it - 1]);
    if it < |thresholds| {
      forall j | i < j < |order|
        ensures Value(img, nx, ny, order[j]) >= thresholds[it] && !InBand(thresholds, it, Value(img, nx, ny, order[j]))
      {
        assert thresholds[it] <= thresholds[it - 1] <= thresholds[it0];
      }
    }
  }

  /** Along the argsort, the pixels up to position i lie below any x above the pixel at i. */
  lemma BelowAll(img: seq<seq<real>>, nx: nat, ny: nat, order: seq<int>, i: int, x: real)
    requires IsGrid(img, nx, ny) && IsArgsort(img, nx, ny, order) && 0 <= i < |order|
    requires Value(img, nx, ny, order[i]) < x
    ensures forall j :: 0 <= j <= i ==> Value(img, nx, ny, order[j]) < x
  {
    forall j | 0 <= j <= i
      ensures Value(img, nx, ny, order[j]) < x
    {
      if j < i {
        assert Value(img, nx, ny, order[j]) <= Value(img, nx, ny, order[i]);
      }
    }
  }

  /**
   * Lines 123-201 at position i: the pixel there, at or above the threshold
   * of slot it, has risen into the state s' with count', and the count is
   * written to slot it.
   */
  lemma {:induction false} Risen(img: seq<seq<real>>, nx: nat, ny: nat, order: seq<int>, thresholds: seq<real>, st: int,
                                 i: int, it: int, s: Snap, count: int, cs: seq<int>, c0: seq<int>,
                                 snaps: seq<Snap>, wrote: bool, sample: int, s': Snap, count': int)
    requires IsGrid(img, nx, ny) && IsArgsort(img, nx, ny, order) && Descending(thresholds)
    requires Pass(img, nx, ny, order, thresholds, st, i, it, s, count, cs, c0, snaps, wrote, sample) && 0 <= i
    requires it < |thresholds| && thresholds[it] <= Value(img, nx, ny, order[i])
    requires |s'.next| == |order| && Forest(s'.next, s'.h) && SizesOk(s'.next, s'.h, s'.size) && Joined(nx, ny, s'.next, s'.h) && Spanned(nx, ny, s'.next, s'.h)
    requires Flooded(s'.next) == Flooded(s.next) + {order[i]} && count' == BigRoots(s'.next, s'.size, st, |order|)
    ensures Pass(img, nx, ny, order, thresholds, st, i - 1, it, s', count', cs[it := count'], c0, snaps, true, order[i])
  {
    DryStep(order, i);
  }

  /** When the pass ends, every slot is closed. */
  lemma {:induction false} EndPass(img: seq<seq<real>>, nx: nat, ny: nat, order: seq<int>, thresholds: seq<real>, st: int,
                                   i: int, it: int, s: Snap, count: int, cs: seq<int>, c0: seq<int>,
                                   snaps: seq<Snap>, wrote: bool, sample: int)
    requires IsGrid(img, nx, ny) && IsArgsort(img, nx, ny, order) && Descending(thresholds)
    requires Pass(img, nx, ny, order, thresholds, st, i, it, s, count, cs, c0, snaps, wrote, sample)
    requires i == -1 || it == |thresholds|
    ensures var snaps' := if it < |thresholds| then snaps[it := s] else snaps;
      forall t :: 0 <= t < |thresholds| ==> Slot(img, nx, ny, thresholds, st, t, snaps'[t], cs[t], c0[t])
  {
    if it < |thresholds| {
      Close(img, nx, ny, order, thresholds, st, i, it, s, cs[it], c0[it], wrote, sample);
      forall t | it < t < |thresholds|
        ensures !Band(img, nx, ny, thresholds, t)
      {
        NoBand(img, nx, ny, order, thresholds, i, it, t);
      }
    }
  }

  /**
   * One pass of the loop of lines 100-202 at argsort position i: the slot
   * advances (lines 110-113); the pass ends when no threshold is left
   * (lines 114-115); otherwise the pixel rises, starting its visit in
   * direction r, and the count goes to the slot (line 201).
   */
  method Level(img: seq<seq<real>>, nx: nat, ny: nat, order: seq<int>, thresholds: seq<real>,
               nclusters: array<int>, st: int, next: array<int>, size: array<int>, ghost h: seq<nat>,
               i: int, it0: int, count0: int, r: int,
               ghost c0: seq<int>, ghost snaps0: seq<Snap>, ghost wrote0: bool, ghost sample0: int)
    returns (it: int, count: int, ghost h': seq<nat>, ghost snaps: seq<Snap>, ghost wrote: bool, ghost sample: int)
    requires IsGrid(img, nx, ny) && IsArgsort(img, nx, ny, order) && Descending(thresholds)
    requires next != size && next != nclusters && size != nclusters
    requires next.Length == |order| && size.Length == |order| && 0 <= i && 0 <= r < 4
    requires Pass(img, nx, ny, order, thresholds, st, i, it0, Snap(next[..], size[..], h), count0,
                  nclusters[..], c0, snaps0, wrote0, sample0)
    modifies next, size, nclusters
    ensures it <= |thresholds|
    ensures it == |thresholds| ==> Pass(img, nx, ny, order, thresholds, st, i, it, Snap(next[..], size[..], h'), count,
                                        nclusters[..], c0, snaps, wrote, sample)
    ensures it < |thresholds| ==> Pass(img, nx, ny, order, thresholds, st, i - 1, it, Snap(next[..], size[..], h'), count,
                                       nclusters[..], c0, snaps, wrote, sample)
  {
    count, h', snaps, wrote, sample := count0, h, snaps0, wrote0, sample0;
    var index1 := order[i];
    var f1 := Pixel(img, nx, ny, index1);
    it := Advance(thresholds, it0, f1);
    if it0 < it {
      Advanced(img, nx, ny, order, thresholds, st, i, it0, it, Snap(next[..], size[..], h), count,
               nclusters[..], c0, snaps, wrote, sample);
      snaps, wrote := snaps[it0 := Snap(next[..], size[..], h)], false;
    }
    if it == |thresholds| {
      return;
    }
    count, h' := RiseAt(img, nx, ny, order, thresholds, nclusters, st, next, size, h, i, it, count0, r, c0, snaps, wrote, sample);
    wrote, sample := true, index1;
  }

  /**
   * Lines 118-201 at argsort position i, once the slot it is found: the
   * pixel rises, starting its visit in direction r, and the count goes to
   * slot it.
   */
  method RiseAt(img: seq<seq<real>>, nx: nat, ny: nat, order: seq<int>, thresholds: seq<real>,
                nclusters: array<int>, st: int, next: array<int>, size: array<int>, ghost h: seq<nat>,
                i: int, it: int, count0: int, r: int,
                ghost c0: seq<int>, ghost snaps: seq<Snap>, ghost wrote0: bool, ghost sample0: int)
    returns (count: int, ghost h': seq<nat>)
    requires IsGrid(img, nx, ny) && IsArgsort(img, nx, ny, order) && Descending(thresholds)
    requires next != size && next != nclusters && size != nclusters
    requires next.Length == |order| && size.Length == |order| && 0 <= i && 0 <= r < 4
    requires Pass(img, nx, ny, order, thresholds, st, i, it, Snap(next[..], size[..], h), count0,
                  nclusters[..], c0, snaps, wrote0, sample0)
    requires it < |thresholds| && thresholds[it] <= Value(img, nx, ny, order[i])
    modifies next, size, nclusters
    ensures Pass(img, nx, ny, order, thresholds, st, i - 1, it, Snap(next[..], size[..], h'), count,
                 nclusters[..], c0, snaps, true, order[i])
  {
    DryLowest(img, nx, ny, order, i);
    ghost var s, cs := Snap(next[..], size[..], h), nclusters[..];
    count, h' := Rise(nx, ny, next, size, h, st, order[i], r, count0);
    nclusters[it] := count;
    Risen(img, nx, ny, order, thresholds, st, i, it, s, count0, cs, c0, snaps, wrote0, sample0,
          Snap(next[..], size[..], h'), count);
    assert nclusters[..] == cs[it := count];
  }

  /**
   * The loop of lines 100-202 over the argsort, from the highest pixel
   * down, until the pixels or the thresholds run out.
   */
  method Descend(img: seq<seq<real>>, nx: nat, ny: nat, order: seq<int>, thresholds: seq<real>,
                 nclusters: array<int>, st: int, seed: int, dirs: seq<int>,
                 next: array<int>, size: array<int>, ghost h0: seq<nat>, ghost c0: seq<int>, ghost snaps0: seq<Snap>)
    returns (i: int, it: int, count: int, ghost h: seq<nat>, ghost snaps: seq<Snap>, ghost wrote: bool, ghost sample: int)
    requires IsGrid(img, nx, ny) && IsArgsort(img, nx, ny, order) && Descending(thresholds)
    requires |dirs| == |order| && forall k :: 0 <= k < |dirs| ==> 0 <= dirs[k] < 4
    requires next != size && next != nclusters && size != nclusters
    requires next.Length == |order| && size.Length == |order|
    requires Pass(img, nx, ny, order, thresholds, st, |order| - 1, 0, Snap(next[..], size[..], h0), 0,
                  nclusters[..], c0, snaps0, false, 0)
    modifies next, size, nclusters
    ensures i == -1 || it == |thresholds|
    ensures Pass(img, nx, ny, order, thresholds, st, i, it, Snap(next[..], size[..], h), count,
                 nclusters[..], c0, snaps, wrote, sample)
  {
    var n := |order|;
    i, it, count, h, snaps, wrote, sample := n - 1, 0, 0, h0, snaps0, false, 0;
    while i >= 0
      invariant Pass(img, nx, ny, order, thresholds, st, i, it, Snap(next[..], size[..], h), count,
                     nclusters[..], c0, snaps, wrote, sample)
    {
      var r := if seed == 0 then 0 else dirs[n - 1 - i];
      it, count, h, snaps, wrote, sample :=
        Level(img, nx, ny, order, thresholds, nclusters, st, next, size, h, i, it, count, r,
              c0, snaps, wrote, sample);
      if it == |thresholds| {
        return;
      }
      i := i - 1;
    }
  }

  /**
   * `compute_nclusters` (lines 35-202), as written: pixels rise from the
   * highest down; before each one the threshold slot advances to the first
   * threshold at or below its value, the pass ends when there is none, and
   * after it the count is written to that slot.  Each slot whose band holds
   * a pixel ends with the number of clusters of at least sizeThreshold
   * pixels among the pixels at or above its threshold, with snaps[t] the
   * state that shows it; every other slot keeps its value.
   */
  method ComputeNClusters(img: seq<seq<real>>, nx: nat, ny: nat, order: seq<int>, thresholds: seq<real>,
                          nclusters: array<int>, sizeThreshold: int, seed: int, dirs: seq<int>)
    returns (ghost snaps: seq<Snap>)
    requires IsGrid(img, nx, ny) && IsArgsort(img, nx, ny, order)
    requires Descending(thresholds) && nclusters.Length == |thresholds|
    requires |dirs| == |order| && forall k :: 0 <= k < |dirs| ==> 0 <= dirs[k] < 4
    modifies nclusters
    ensures |snaps| == |thresholds|
    ensures forall t :: 0 <= t < |thresholds| ==>
      Slot(img, nx, ny, thresholds, sizeThreshold, t, snaps[t], nclusters[t], old(nclusters[t]))
  {
    var n := |order|;
    var nt := |thresholds|;
    var next := new int[n](_ => -1);
    var size := new int[n](_ => 0);
    ghost var h: seq<nat> := seq(n, _ => 0);
    ghost var c0 := nclusters[..];
    snaps := seq(nt, _ => Snap([], [], []));
    StartPass(img, nx, ny, order, thresholds, sizeThreshold, next[..], size[..], h, c0, snaps);
    var i, it, count;
    ghost var wrote, sample;
    i, it, count, h, snaps, wrote, sample :=
      Descend(img, nx, ny, order, thresholds, nclusters, sizeThreshold, seed, dirs, next, size, h, c0, snaps);
    EndPass(img, nx, ny, order, thresholds, sizeThreshold, i, it, Snap(next[..], size[..], h), count,
            nclusters[..], c0, snaps, wrote, sample);
    if it < nt {
      snaps := snaps[it := Snap(next[..], size[..], h)];
    }
  }
}
