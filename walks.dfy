/**
 * Walks through flooded pixels: the witness that every cluster of a flood
 * is connected.  A pixel is joined to a cluster only through a flooded
 * neighbour, so every flooded pixel has a walk, step by step between
 * neighbours, to the root of its cluster.
 */
module Walks {
  import opened Grid
  import opened UnionFind
  import opened WatershedInv

  /** The pairs of pixels that are neighbours in one of the four directions. */
  ghost function Edges(nx: nat, ny: nat): set<(int, int)> {
    set a, b | 0 <= a < nx * ny && 0 <= b < nx * ny && DirTo(nx, ny, a, b) < 4 :: (a, b)
  }

  /** adj holds every pair both ways round. */
  ghost predicate Symmetric(adj: set<(int, int)>) {
    forall a, b :: (a, b) in adj ==> (b, a) in adj
  }

  /** Being neighbours is symmetric. */
  lemma EdgesSymmetric(nx: nat, ny: nat)
    ensures Symmetric(Edges(nx, ny))
  {
    forall a, b | (a, b) in Edges(nx, ny)
      ensures (b, a) in Edges(nx, ny)
    {
      var d := DirTo(nx, ny, a, b);
      NbBack(nx, ny, a, d);
      assert Nb(nx, ny, b, Opp(d)) == a;
    }
  }

  /** The neighbour in direction d is a neighbour both ways round. */
  lemma EdgeNb(nx: nat, ny: nat, a: int, d: int)
    requires 0 <= a < nx * ny && 0 <= d < 4 && Nb(nx, ny, a, d) >= 0
    ensures (a, Nb(nx, ny, a, d)) in Edges(nx, ny) && (Nb(nx, ny, a, d), a) in Edges(nx, ny)
  {
    var q := Nb(nx, ny, a, d);
    DirToNb(nx, ny, a, d);
    NbBack(nx, ny, a, d);
    DirToNb(nx, ny, q, Opp(d));
  }

  /** Flooded neighbours lie in the same cluster. */
  ghost predicate Joined(nx: nat, ny: nat, next: seq<int>, h: seq<nat>)
    requires Forest(next, h) && |next| == nx * ny
  {
    forall a, d :: 0 <= a < |next| && 0 <= d < 4 && next[a] >= 0 && Nb(nx, ny, a, d) >= 0 && next[Nb(nx, ny, a, d)] >= 0 ==>
      Top(next, h, a) == Top(next, h, Nb(nx, ny, a, d))
  }

  /** Joined for the pairs of neighbours that do not involve pixel p. */
  ghost predicate JoinedBut(nx: nat, ny: nat, next: seq<int>, h: seq<nat>, p: int)
    requires Forest(next, h) && |next| == nx * ny
  {
    forall a, d :: 0 <= a < |next| && a != p && 0 <= d < 4 && next[a] >= 0 && Nb(nx, ny, a, d) >= 0 &&
                   Nb(nx, ny, a, d) != p && next[Nb(nx, ny, a, d)] >= 0 ==>
      Top(next, h, a) == Top(next, h, Nb(nx, ny, a, d))
  }

  /** w is a walk through flooded pixels, each step along adj. */
  ghost predicate Walk(adj: set<(int, int)>, next: seq<int>, w: seq<int>) {
    && |w| >= 1
    && (forall t :: 0 <= t < |w| ==> 0 <= w[t] < |next| && next[w[t]] >= 0)
    && forall t :: 0 <= t < |w| - 1 ==> (w[t], w[t + 1]) in adj
  }

  /** The top of every flooded pixel, -1 for the others. */
  ghost function Tops(next: seq<int>, h: seq<nat>): (top: seq<int>)
    requires Forest(next, h)
    ensures |top| == |next|
    ensures forall k :: 0 <= k < |next| && next[k] >= 0 ==> top[k] == Top(next, h, k)
  {
    seq(|next|, k requires 0 <= k < |next| => if next[k] >= 0 then Top(next, h, k) else -1)
  }

  /** Every flooded pixel k has a walk along adj to top[k]. */
  ghost predicate Reaching(adj: set<(int, int)>, next: seq<int>, top: seq<int>)
    requires |top| == |next|
  {
    forall k :: 0 <= k < |next| && next[k] >= 0 ==>
      exists w :: Walk(adj, next, w) && w[0] == k && w[|w| - 1] == top[k]
  }

  /** Every flooded pixel has a walk through flooded neighbours to the root of its cluster. */
  ghost predicate Spanned(nx: nat, ny: nat, next: seq<int>, h: seq<nat>)
    requires Forest(next, h)
  {
    Reaching(Edges(nx, ny), next, Tops(next, h))
  }

  /** A walk stays a walk when more pixels are flooded. */
  lemma WalkMono(adj: set<(int, int)>, next: seq<int>, next': seq<int>, w: seq<int>)
    requires |next'| == |next| && Walk(adj, next, w)
    requires forall k :: 0 <= k < |next| && next[k] >= 0 ==> next'[k] >= 0
    ensures Walk(adj, next', w)
  {
    assert forall t :: 0 <= t < |w| ==> next[w[t]] >= 0;
  }

  /** Two walks, the first ending next to where the second starts, make one. */
  lemma WalkCat(adj: set<(int, int)>, next: seq<int>, u: seq<int>, v: seq<int>)
    requires Walk(adj, next, u) && Walk(adj, next, v) && (u[|u| - 1], v[0]) in adj
    ensures Walk(adj, next, u + v)
  {
    var w := u + v;
    forall t | 0 <= t < |w| - 1
      ensures (w[t], w[t + 1]) in adj
    {
      if t < |u| - 1 {
        assert w[t] == u[t] && w[t + 1] == u[t + 1];
      } else if t >= |u| {
        assert w[t] == v[t - |u|] && w[t + 1] == v[t + 1 - |u|];
      }
    }
  }

  /** Two walks, the first ending where the second starts, make one. */
  lemma WalkGlue(adj: set<(int, int)>, next: seq<int>, u: seq<int>, v: seq<int>)
    requires Walk(adj, next, u) && Walk(adj, next, v) && u[|u| - 1] == v[0]
    ensures Walk(adj, next, u + v[1..])
  {
    var w := u + v[1..];
    forall t | 0 <= t < |w| - 1
      ensures (w[t], w[t + 1]) in adj
    {
      if t < |u| - 1 {
        assert w[t] == u[t] && w[t + 1] == u[t + 1];
      } else if t == |u| - 1 {
        assert w[t] == v[0] && w[t + 1] == v[1];
      } else {
        assert w[t] == v[t - |u| + 1] && w[t + 1] == v[t - |u| + 2];
      }
    }
  }

  /** The walk w taken backwards. */
  function Reverse(w: seq<int>): (r: seq<int>)
    ensures |r| == |w| && forall t :: 0 <= t < |w| ==> r[t] == w[|w| - 1 - t]
  {
    if w == [] then [] else Reverse(w[1..]) + [w[0]]
  }

  /** A walk taken backwards along a symmetric adjacency is a walk. */
  lemma WalkReverse(adj: set<(int, int)>, next: seq<int>, w: seq<int>)
    requires Symmetric(adj) && Walk(adj, next, w)
    ensures Walk(adj, next, Reverse(w))
  {
    var r := Reverse(w);
    forall t | 0 <= t < |r| - 1
      ensures (r[t], r[t + 1]) in adj
    {
      var s := |w| - 2 - t;
      assert r[t] == w[s + 1] && r[t + 1] == w[s];
      assert (w[s], w[s + 1]) in adj;
    }
  }

  /**
   * A walk of the old forest, rerouted over bridge (from a to b) when it
   * ends at a, is a walk of the new forest ending at b instead.
   */
  ghost function Reroute(adj: set<(int, int)>, next: seq<int>, next': seq<int>, w: seq<int>, bridge: seq<int>, a: int): (w': seq<int>)
    requires |next'| == |next| && Walk(adj, next, w) && Walk(adj, next, bridge) && bridge[0] == a
    requires forall k :: 0 <= k < |next| && next[k] >= 0 ==> next'[k] >= 0
    ensures Walk(adj, next', w') && w'[0] == w[0]
    ensures w'[|w'| - 1] == if w[|w| - 1] == a then bridge[|bridge| - 1] else w[|w| - 1]
  {
    WalkMono(adj, next, next', w);
    WalkMono(adj, next, next', bridge);
    if w[|w| - 1] == a then
      WalkGlue(adj, next', w, bridge);
      w + bridge[1..]
    else
      w
  }

  /** With nothing flooded there is nothing to span. */
  lemma SpanEmpty(nx: nat, ny: nat, next: seq<int>, h: seq<nat>)
    requires Forest(next, h) && forall k :: 0 <= k < |next| ==> next[k] < 0
    ensures Spanned(nx, ny, next, h)
  {
  }

  /** Flooding a fresh pixel p as its own top keeps every flooded pixel reaching its top. */
  lemma Refresh(adj: set<(int, int)>, next: seq<int>, next': seq<int>, top: seq<int>, top': seq<int>, p: int)
    requires |next'| == |next| && |top| == |next| && |top'| == |next| && 0 <= p < |next|
    requires next' == next[p := p] && Reaching(adj, next, top)
    requires top'[p] == p && forall k :: 0 <= k < |next| && next[k] >= 0 ==> top'[k] == top[k]
    ensures Reaching(adj, next', top')
  {
    forall k | 0 <= k < |next'| && next'[k] >= 0
      ensures exists w :: Walk(adj, next', w) && w[0] == k && w[|w| - 1] == top'[k]
    {
      RefreshAt(adj, next, next', top, top', p, k);
    }
  }

  /** Refresh, for one flooded pixel k. */
  lemma RefreshAt(adj: set<(int, int)>, next: seq<int>, next': seq<int>, top: seq<int>, top': seq<int>, p: int, k: int)
    requires |next'| == |next| && |top| == |next| && |top'| == |next| && 0 <= p < |next|
    requires next' == next[p := p] && Reaching(adj, next, top)
    requires top'[p] == p && forall k :: 0 <= k < |next| && next[k] >= 0 ==> top'[k] == top[k]
    requires 0 <= k < |next'| && next'[k] >= 0
    ensures exists w :: Walk(adj, next', w) && w[0] == k && w[|w| - 1] == top'[k]
  {
    if k == p {
      assert Walk(adj, next', [p]);
    } else {
      var w :| Walk(adj, next, w) && w[0] == k && w[|w| - 1] == top[k];
      WalkMono(adj, next, next', w);
    }
  }

  /** Flooding p as a cluster of its own keeps every cluster spanned. */
  lemma SpanFlood(nx: nat, ny: nat, next: seq<int>, h: seq<nat>, p: int)
    requires Forest(next, h) && 0 <= p < |next| && next[p] < 0 && Spanned(nx, ny, next, h)
    ensures Forest(next[p := p], h) && Spanned(nx, ny, next[p := p], h)
  {
    FloodNew(next, h, p);
    Refresh(Edges(nx, ny), next, next[p := p], Tops(next, h), Tops(next[p := p], h), p);
  }

  /**
   * Relinking, stated over any assignment of tops: when the pixels of top a
   * get top b instead, and a pixel x reaching a is next to a pixel y
   * reaching b, every flooded pixel still reaches its top.
   */
  lemma Relink(adj: set<(int, int)>, next: seq<int>, next': seq<int>, top: seq<int>, top': seq<int>, a: int, b: int, x: int, y: int)
    requires Symmetric(adj) && |next'| == |next| && |top| == |next| && |top'| == |next|
    requires forall k :: 0 <= k < |next| ==> (next[k] >= 0 <==> next'[k] >= 0)
    requires Reaching(adj, next, top)
    requires forall k :: 0 <= k < |next| && next[k] >= 0 ==> top'[k] == if top[k] == a then b else top[k]
    requires 0 <= x < |next| && 0 <= y < |next| && next[x] >= 0 && next[y] >= 0 && (x, y) in adj
    requires top[x] == a && top[y] == b
    ensures Reaching(adj, next', top')
  {
    var bridge := Bridge(adj, next, top, a, b, x, y);
    RerouteAll(adj, next, next', top, top', bridge, a);
  }

  /** Every flooded pixel reaches, in the new forest, its old top rerouted over bridge. */
  lemma RerouteAll(adj: set<(int, int)>, next: seq<int>, next': seq<int>, top: seq<int>, top': seq<int>, bridge: seq<int>, a: int)
    requires |next'| == |next| && |top| == |next| && |top'| == |next| && Reaching(adj, next, top)
    requires forall k :: 0 <= k < |next| ==> (next[k] >= 0 <==> next'[k] >= 0)
    requires Walk(adj, next, bridge) && bridge[0] == a
    requires forall k :: 0 <= k < |next| && next[k] >= 0 ==> top'[k] == Rerouted(top[k], a, bridge)
    ensures Reaching(adj, next', top')
  {
    forall k | 0 <= k < |next'| && next'[k] >= 0
      ensures exists w :: Walk(adj, next', w) && w[0] == k && w[|w| - 1] == top'[k]
    {
      ReachAfter(adj, next, next', top, bridge, a, k);
    }
  }

  /** A walk from top a to top b over neighbours x, reaching a, and y, reaching b. */
  lemma Bridge(adj: set<(int, int)>, next: seq<int>, top: seq<int>, a: int, b: int, x: int, y: int)
    returns (bridge: seq<int>)
    requires Symmetric(adj) && |top| == |next| && Reaching(adj, next, top)
    requires 0 <= x < |next| && 0 <= y < |next| && next[x] >= 0 && next[y] >= 0 && (x, y) in adj
    requires top[x] == a && top[y] == b
    ensures Walk(adj, next, bridge) && bridge[0] == a && bridge[|bridge| - 1] == b
  {
    var wx :| Walk(adj, next, wx) && wx[0] == x && wx[|wx| - 1] == a;
    var wy :| Walk(adj, next, wy) && wy[0] == y && wy[|wy| - 1] == b;
    // a -> x, then x -> y, then y -> b
    WalkReverse(adj, next, wx);
    WalkCat(adj, next, Reverse(wx), wy);
    bridge := Reverse(wx) + wy;
  }

  /** The end of a walk that ended at e, rerouted over bridge when e is a. */
  function Rerouted(e: int, a: int, bridge: seq<int>): int
    requires |bridge| >= 1
  {
    if e == a then bridge[|bridge| - 1] else e
  }

  /** Flooded pixel k reaches, in the new forest, its old top rerouted over bridge. */
  lemma ReachAfter(adj: set<(int, int)>, next: seq<int>, next': seq<int>, top: seq<int>, bridge: seq<int>, a: int, k: int)
    requires |next'| == |next| && |top| == |next| && Reaching(adj, next, top)
    requires forall k :: 0 <= k < |next| && next[k] >= 0 ==> next'[k] >= 0
    requires Walk(adj, next, bridge) && bridge[0] == a
    requires 0 <= k < |next| && next[k] >= 0
    ensures exists w :: Walk(adj, next', w) && w[0] == k && w[|w| - 1] == Rerouted(top[k], a, bridge)
  {
    var w :| Walk(adj, next, w) && w[0] == k && w[|w| - 1] == top[k];
    var w' := Reroute(adj, next, next', w, bridge, a);
  }

  /**
   * Linking root a under root b, where some pixel x of a's cluster is a
   * neighbour of some pixel y of b's cluster, keeps every cluster spanned.
   */
  lemma SpanLink(nx: nat, ny: nat, next: seq<int>, h: seq<nat>, a: int, b: int, x: int, y: int)
    requires Forest(next, h) && Spanned(nx, ny, next, h)
    requires 0 <= a < |next| && 0 <= b < |next| && a != b && next[a] == a && next[b] == b
    requires 0 <= x < |next| && 0 <= y < |next| && next[x] >= 0 && next[y] >= 0 && (x, y) in Edges(nx, ny)
    requires Top(next, h, x) == a && Top(next, h, y) == b
    ensures Forest(next[a := b], Raise(h, a, b)) && Spanned(nx, ny, next[a := b], Raise(h, a, b))
  {
    var next', h' := next[a := b], Raise(h, a, b);
    LinkTops(next, h, a, b);
    EdgesSymmetric(nx, ny);
    Relink(Edges(nx, ny), next, next', Tops(next, h), Tops(next', h'), a, b, x, y);
  }

  /** A lone root p going under the root of its flooded neighbour q keeps every cluster spanned. */
  lemma SpanJoin(nx: nat, ny: nat, next: seq<int>, h: seq<nat>, p: int, q: int)
    requires Forest(next, h) && Spanned(nx, ny, next, h)
    requires 0 <= p < |next| && next[p] == p && Members(next, h, p) == {p}
    requires 0 <= q < |next| && q != p && next[q] >= 0 && (p, q) in Edges(nx, ny)
    ensures var t := Top(next, h, q);
      Forest(next[p := t], Raise(h, p, t)) && Spanned(nx, ny, next[p := t], Raise(h, p, t))
  {
    var t := Top(next, h, q);
    assert q in Members(next, h, t);
    TopStep(next, h, p);
    SpanLink(nx, ny, next, h, p, t, p, q);
  }
}
