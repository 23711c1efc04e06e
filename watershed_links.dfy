/**
 * What the unions of `construct_graph` achieve, beyond the graph invariant:
 * every flooded pixel is connected to the root of its cluster by the edges
 * recorded so far, and two flooded neighbours are left in different
 * clusters only when both clusters have reached the merge threshold.  With
 * the threshold above the number of pixels (the default of watershed.py),
 * the clusters are then exactly the connected components of the flood.
 */
module WatershedLinks {
  import opened Grid
  import opened UnionFind
  import opened Graph
  import opened WatershedInv
  import opened Walks
  import opened Seqs

  /** The recorded edges as pairs of pixels, both ways round. */
  ghost function EdgeAdj(edges: seq<Edge>): set<(int, int)> {
    (set e | 0 <= e < |edges| :: edges[e].index) + (set e | 0 <= e < |edges| :: (edges[e].index.1, edges[e].index.0))
  }

  lemma EdgeAdjSymmetric(edges: seq<Edge>)
    ensures Symmetric(EdgeAdj(edges))
  {
    forall a, b | (a, b) in EdgeAdj(edges)
      ensures (b, a) in EdgeAdj(edges)
    {
      var e :| 0 <= e < |edges| && (edges[e].index == (a, b) || (edges[e].index.1, edges[e].index.0) == (a, b));
    }
  }

  /** Appending an edge adds its two orientations. */
  lemma EdgeAdjSnoc(edges: seq<Edge>, ed: Edge)
    ensures EdgeAdj(edges + [ed]) == EdgeAdj(edges) + {ed.index, (ed.index.1, ed.index.0)}
  {
    var edges' := edges + [ed];
    assert forall e :: 0 <= e < |edges| ==> edges'[e] == edges[e];
    assert edges'[|edges|] == ed;
  }

  /** Flooded pixel k has a walk over the recorded edges to the root of its cluster. */
  ghost predicate ReachesRoot(next: seq<int>, h: seq<nat>, edges: seq<Edge>, k: int)
    requires Forest(next, h) && 0 <= k < |next| && next[k] >= 0
  {
    exists w :: Walk(EdgeAdj(edges), next, w) && w[0] == k && w[|w| - 1] == Top(next, h, k)
  }

  /** Every flooded pixel reaches the root of its cluster over the recorded edges. */
  ghost predicate Spans(next: seq<int>, h: seq<nat>, edges: seq<Edge>)
    requires Forest(next, h)
  {
    forall k {:trigger ReachesRoot(next, h, edges, k)} :: 0 <= k < |next| && next[k] >= 0 ==> ReachesRoot(next, h, edges, k)
  }

  /** Spans is Reaching over the recorded edges. */
  lemma SpansReaching(next: seq<int>, h: seq<nat>, edges: seq<Edge>)
    requires Forest(next, h)
    ensures Spans(next, h, edges) <==> Reaching(EdgeAdj(edges), next, Tops(next, h))
  {
    if Spans(next, h, edges) {
      forall k | 0 <= k < |next| && next[k] >= 0
        ensures exists w :: Walk(EdgeAdj(edges), next, w) && w[0] == k && w[|w| - 1] == Tops(next, h)[k]
      {
        assert ReachesRoot(next, h, edges, k);
      }
    }
    if Reaching(EdgeAdj(edges), next, Tops(next, h)) {
      forall k | 0 <= k < |next| && next[k] >= 0
        ensures ReachesRoot(next, h, edges, k)
      {
        assert Tops(next, h)[k] == Top(next, h, k);
      }
    }
  }

  /** Flooded pixels a and b share a cluster, or both their clusters have at least cap pixels. */
  ghost predicate Settled(next: seq<int>, h: seq<nat>, size: seq<int>, cap: int, a: int, b: int)
    requires Forest(next, h) && |size| == |next|
    requires 0 <= a < |next| && 0 <= b < |next| && next[a] >= 0 && next[b] >= 0
  {
    Top(next, h, a) == Top(next, h, b) || (size[Top(next, h, a)] >= cap && size[Top(next, h, b)] >= cap)
  }

  /** Pixel a and its neighbour in direction d are settled when both are flooded. */
  ghost predicate NbSettled(nx: nat, ny: nat, next: seq<int>, h: seq<nat>, size: seq<int>, cap: int, a: int, d: int)
    requires Forest(next, h) && |next| == nx * ny && |size| == |next| && 0 <= a < |next| && 0 <= d < 4
  {
    next[a] >= 0 && Nb(nx, ny, a, d) >= 0 && next[Nb(nx, ny, a, d)] >= 0 ==> Settled(next, h, size, cap, a, Nb(nx, ny, a, d))
  }

  /** Every pair of flooded neighbours is settled, but for the pairs that involve p (none when p is -1). */
  ghost predicate CappedBut(nx: nat, ny: nat, next: seq<int>, h: seq<nat>, size: seq<int>, cap: int, p: int)
    requires Forest(next, h) && |next| == nx * ny && |size| == |next|
  {
    forall a, d {:trigger NbSettled(nx, ny, next, h, size, cap, a, d)} ::
      0 <= a < |next| && a != p && 0 <= d < 4 && Nb(nx, ny, a, d) != p ==> NbSettled(nx, ny, next, h, size, cap, a, d)
  }

  /** p is settled with its flooded neighbours in the directions of done. */
  ghost predicate CappedAt(nx: nat, ny: nat, next: seq<int>, h: seq<nat>, size: seq<int>, cap: int, p: int, done: set<int>)
    requires Forest(next, h) && |next| == nx * ny && |size| == |next| && 0 <= p < |next| && next[p] >= 0
  {
    forall d {:trigger NbSettled(nx, ny, next, h, size, cap, p, d)} ::
      d in done && 0 <= d < 4 ==> NbSettled(nx, ny, next, h, size, cap, p, d)
  }

  /**
   * The links while the new pixel p visits its neighbours, the directions of
   * done being visited: the recorded edges span every cluster, and pairs of
   * flooded neighbours in different clusters have both reached the merge
   * threshold cap, but for the pairs of p in directions not yet visited.
   */
  ghost predicate Linked(nx: nat, ny: nat, next: seq<int>, h: seq<nat>, size: seq<int>, edges: seq<Edge>,
                         cap: int, p: int, done: set<int>) {
    && Forest(next, h) && |next| == nx * ny && |size| == |next| && 0 <= p < |next| && next[p] >= 0
    && Spans(next, h, edges)
    && CappedBut(nx, ny, next, h, size, cap, p)
    && CappedAt(nx, ny, next, h, size, cap, p, done)
  }

  /**
   * The links of the graph between visits: the recorded edges span every
   * cluster, and flooded neighbours in different clusters have both reached
   * the merge threshold cap.
   */
  ghost predicate BuildLinks(nx: nat, ny: nat, v: seq<Vertex>, edges: seq<Edge>, h: seq<nat>, cap: int) {
    && Forest(Nexts(v), h) && |v| == nx * ny
    && Spans(Nexts(v), h, edges)
    && CappedBut(nx, ny, Nexts(v), h, Sizes(v), cap, -1)
  }

  /** Linked, on the vertex array. */
  ghost predicate VisitLinks(nx: nat, ny: nat, v: seq<Vertex>, edges: seq<Edge>, h: seq<nat>, cap: int, p: int, done: set<int>) {
    Linked(nx, ny, Nexts(v), h, Sizes(v), edges, cap, p, done)
  }

  /** With nothing flooded there is nothing to link. */
  lemma NoLinks(nx: nat, ny: nat, v: seq<Vertex>, edges: seq<Edge>, h: seq<nat>, cap: int)
    requires Forest(Nexts(v), h) && |v| == nx * ny && forall k :: 0 <= k < |v| ==> v[k].next < 0
    ensures BuildLinks(nx, ny, v, edges, h, cap)
  {
  }

  /** A walk along adj is a walk along any larger relation. */
  lemma ReachingMore(adj: set<(int, int)>, adj': set<(int, int)>, next: seq<int>, top: seq<int>)
    requires adj <= adj' && |top| == |next| && Reaching(adj, next, top)
    ensures Reaching(adj', next, top)
  {
    forall k | 0 <= k < |next| && next[k] >= 0
      ensures exists w :: Walk(adj', next, w) && w[0] == k && w[|w| - 1] == top[k]
    {
      var w :| Walk(adj, next, w) && w[0] == k && w[|w| - 1] == top[k];
      assert Walk(adj', next, w);
    }
  }

  /** Flooding p as a cluster of its own keeps every flooded pixel reaching its root. */
  lemma ReachFlood(adj: set<(int, int)>, next: seq<int>, h: seq<nat>, p: int)
    requires Forest(next, h) && 0 <= p < |next| && next[p] < 0 && Reaching(adj, next, Tops(next, h))
    ensures Forest(next[p := p], h) && Reaching(adj, next[p := p], Tops(next[p := p], h))
  {
    FloodNew(next, h, p);
    Refresh(adj, next, next[p := p], Tops(next, h), Tops(next[p := p], h), p);
  }

  /**
   * Linking root a under root b, where x of a's cluster and y of b's are
   * joined by adj, keeps every flooded pixel reaching its root.
   */
  lemma ReachLink(adj: set<(int, int)>, next: seq<int>, h: seq<nat>, a: int, b: int, x: int, y: int)
    requires Symmetric(adj) && Forest(next, h) && Reaching(adj, next, Tops(next, h))
    requires 0 <= a < |next| && 0 <= b < |next| && a != b && next[a] == a && next[b] == b
    requires 0 <= x < |next| && 0 <= y < |next| && next[x] >= 0 && next[y] >= 0 && (x, y) in adj
    requires Top(next, h, x) == a && Top(next, h, y) == b
    ensures Forest(next[a := b], Raise(h, a, b)) && Reaching(adj, next[a := b], Tops(next[a := b], Raise(h, a, b)))
  {
    LinkTops(next, h, a, b);
    Relink(adj, next, next[a := b], Tops(next, h), Tops(next[a := b], Raise(h, a, b)), a, b, x, y);
  }

  /**
   * Linking root a under root b, b's size growing by a's, keeps every
   * settled pair settled: pixels that shared a cluster still do, and no
   * cluster gets smaller.
   */
  lemma {:induction false} CappedLink(nx: nat, ny: nat, next: seq<int>, h: seq<nat>, size: seq<int>, cap: int,
                                      p: int, done: set<int>, a: int, b: int)
    requires Forest(next, h) && SizesOk(next, h, size) && |next| == nx * ny
    requires 0 <= a < |next| && 0 <= b < |next| && a != b && next[a] == a && next[b] == b
    requires CappedBut(nx, ny, next, h, size, cap, p)
    requires 0 <= p < |next| && next[p] >= 0 ==> CappedAt(nx, ny, next, h, size, cap, p, done)
    ensures Forest(next[a := b], Raise(h, a, b))
    ensures CappedBut(nx, ny, next[a := b], Raise(h, a, b), size[b := size[a] + size[b]], cap, p)
    ensures 0 <= p < |next| && next[p] >= 0 ==>
              CappedAt(nx, ny, next[a := b], Raise(h, a, b), size[b := size[a] + size[b]], cap, p, done)
  {
    var next', h', size' := next[a := b], Raise(h, a, b), size[b := size[a] + size[b]];
    LinkTops(next, h, a, b);
    assert size[a] >= 0 && size[b] >= 0;
    forall x, d | 0 <= x < |next| && 0 <= d < 4 && NbSettled(nx, ny, next, h, size, cap, x, d)
      ensures NbSettled(nx, ny, next', h', size', cap, x, d)
    {
      if next[x] >= 0 && Nb(nx, ny, x, d) >= 0 && next[Nb(nx, ny, x, d)] >= 0 {
        var y := Nb(nx, ny, x, d);
        var tx, ty := Top(next, h, x), Top(next, h, y);
        assert size'[Top(next', h', x)] >= size[tx] && size'[Top(next', h', y)] >= size[ty];
      }
    }
  }

  /** Flooding p as a cluster of size 1 settles every pair that does not involve p. */
  lemma {:induction false} CappedFlood(nx: nat, ny: nat, next: seq<int>, h: seq<nat>, size: seq<int>, cap: int, p: int)
    requires Forest(next, h) && |next| == nx * ny && |size| == |next| && 0 <= p < |next| && next[p] < 0
    requires CappedBut(nx, ny, next, h, size, cap, -1)
    ensures Forest(next[p := p], h)
    ensures CappedBut(nx, ny, next[p := p], h, size[p := 1], cap, p)
  {
    var next' := next[p := p];
    FloodNew(next, h, p);
    forall a, d | 0 <= a < |next| && a != p && 0 <= d < 4 && Nb(nx, ny, a, d) != p
      ensures NbSettled(nx, ny, next', h, size[p := 1], cap, a, d)
    {
      assert NbSettled(nx, ny, next, h, size, cap, a, d);
      if next'[a] >= 0 && Nb(nx, ny, a, d) >= 0 && next'[Nb(nx, ny, a, d)] >= 0 {
        var b := Nb(nx, ny, a, d);
        assert Top(next, h, a) != p && Top(next, h, b) != p;
      }
    }
  }

  /** Once every direction of p is visited, every pair of flooded neighbours is settled. */
  lemma {:induction false} CappedClose(nx: nat, ny: nat, next: seq<int>, h: seq<nat>, size: seq<int>, cap: int,
                                       p: int, done: set<int>)
    requires Forest(next, h) && |next| == nx * ny && |size| == |next| && 0 <= p < |next| && next[p] >= 0
    requires CappedBut(nx, ny, next, h, size, cap, p) && CappedAt(nx, ny, next, h, size, cap, p, done)
    requires forall d :: 0 <= d < 4 ==> d in done
    ensures CappedBut(nx, ny, next, h, size, cap, -1)
  {
    forall a, d | 0 <= a < |next| && 0 <= d < 4
      ensures NbSettled(nx, ny, next, h, size, cap, a, d)
    {
      if a == p {
        assert d in done;
      } else if Nb(nx, ny, a, d) == p {
        NbBack(nx, ny, a, d);
        assert Opp(d) in done;
        assert NbSettled(nx, ny, next, h, size, cap, p, Opp(d));
      } else {
        assert NbSettled(nx, ny, next, h, size, cap, a, d);
      }
    }
  }

  /**
   * Linking root a under root b, b's size growing by a's, while the edge
   * ed between a pixel of each cluster is recorded, keeps the links.
   */
  lemma {:induction false} LinkEdge(nx: nat, ny: nat, next: seq<int>, h: seq<nat>, size: seq<int>, edges: seq<Edge>,
                                    cap: int, p: int, done: set<int>, a: int, b: int, ed: Edge)
    requires Linked(nx, ny, next, h, size, edges, cap, p, done) && SizesOk(next, h, size)
    requires 0 <= a < |next| && 0 <= b < |next| && a != b && next[a] == a && next[b] == b
    requires var x, y := ed.index.0, ed.index.1;
             0 <= x < |next| && 0 <= y < |next| && next[x] >= 0 && next[y] >= 0 &&
             ((Top(next, h, x) == a && Top(next, h, y) == b) || (Top(next, h, x) == b && Top(next, h, y) == a))
    ensures Forest(next[a := b], Raise(h, a, b))
    ensures Top(next[a := b], Raise(h, a, b), ed.index.0) == Top(next[a := b], Raise(h, a, b), ed.index.1)
    ensures Linked(nx, ny, next[a := b], Raise(h, a, b), size[b := size[a] + size[b]], edges + [ed], cap, p, done)
  {
    var x, y := ed.index.0, ed.index.1;
    var adj' := EdgeAdj(edges + [ed]);
    EdgeAdjSnoc(edges, ed);
    EdgeAdjSymmetric(edges + [ed]);
    SpansReaching(next, h, edges);
    ReachingMore(EdgeAdj(edges), adj', next, Tops(next, h));
    if Top(next, h, x) == a {
      ReachLink(adj', next, h, a, b, x, y);
    } else {
      ReachLink(adj', next, h, a, b, y, x);
    }
    SpansReaching(next[a := b], Raise(h, a, b), edges + [ed]);
    CappedLink(nx, ny, next, h, size, cap, p, done, a, b);
    LinkTops(next, h, a, b);
  }

  /** A visit of p that has settled p with its neighbour in direction d may count d as done. */
  lemma AddDone(nx: nat, ny: nat, next: seq<int>, h: seq<nat>, size: seq<int>, edges: seq<Edge>,
                cap: int, p: int, done: set<int>, d: int)
    requires Linked(nx, ny, next, h, size, edges, cap, p, done) && 0 <= d < 4
    requires Nb(nx, ny, p, d) >= 0 && next[Nb(nx, ny, p, d)] >= 0 ==> Settled(next, h, size, cap, p, Nb(nx, ny, p, d))
    ensures Linked(nx, ny, next, h, size, edges, cap, p, done + {d})
  {
  }

  /**
   * Root a linked under root b, then the edge from p to its neighbour in
   * direction d recorded: the vertex array has the links and sizes that
   * Linked speaks of.
   */
  lemma {:induction false} RecordLinks(nx: nat, ny: nat, v: seq<Vertex>, edges: seq<Edge>, h': seq<nat>,
                                       cap: int, p: int, d: int, done: set<int>, a: int, b: int)
    requires |v| == nx * ny && 0 <= p < |v| && 0 <= d < 4 && Nb(nx, ny, p, d) >= 0 && FourSlots(v)
    requires 0 <= a < |v| && 0 <= b < |v| && a != b
    requires Linked(nx, ny, Nexts(v)[a := b], h', Sizes(v)[b := Sizes(v)[a] + Sizes(v)[b]],
                    edges + [Edge((p, Nb(nx, ny, p, d)), v[p].value)], cap, p, done)
    ensures var r := Record(nx, ny, LinkV(v, a, b), edges, p, d, b);
            VisitLinks(nx, ny, r.v, r.edges, h', cap, p, done)
  {
    LinkRecordSeqs(nx, ny, v, edges, p, d, a, b);
  }

  /** Root a linked under root b, then the edge (p, q) recorded. */
  lemma LinkRecordSeqs(nx: nat, ny: nat, v: seq<Vertex>, edges: seq<Edge>, p: int, d: int, a: int, b: int)
    requires |v| == nx * ny && 0 <= p < |v| && 0 <= d < 4 && Nb(nx, ny, p, d) >= 0 && FourSlots(v)
    requires 0 <= a < |v| && 0 <= b < |v| && a != b
    ensures var r := Record(nx, ny, LinkV(v, a, b), edges, p, d, b);
            && Nexts(r.v) == Nexts(v)[a := b] && Sizes(r.v) == Sizes(v)[b := Sizes(v)[a] + Sizes(v)[b]]
            && r.edges == edges + [Edge((p, Nb(nx, ny, p, d)), v[p].value)]
  {
    var w := LinkV(v, a, b);
    assert Nexts(w) == Nexts(v)[a := b];
    assert Sizes(w) == Sizes(v)[b := Sizes(v)[a] + Sizes(v)[b]];
    RecordSame(nx, ny, w, edges, p, d, b);
  }

  /** Recording the edge changes no link and no size. */
  lemma RecordSame(nx: nat, ny: nat, w: seq<Vertex>, edges: seq<Edge>, p: int, d: int, t: int)
    requires |w| == nx * ny && 0 <= p < |w| && 0 <= d < 4 && Nb(nx, ny, p, d) >= 0 && FourSlots(w)
    ensures var r := Record(nx, ny, w, edges, p, d, t);
            Nexts(r.v) == Nexts(w) && Sizes(r.v) == Sizes(w) && r.edges == edges + [Edge((p, Nb(nx, ny, p, d)), w[p].value)]
  {
    var r := Record(nx, ny, w, edges, p, d, t);
    assert Nexts(r.v) == Nexts(w);
    assert Sizes(r.v) == Sizes(w);
  }

  /**
   * The union of two clusters in lines 204-223: root a goes under root b and
   * the edge ed from p to its neighbour q in direction d is recorded, p being
   * in one of the two clusters and q in the other. The links are kept and p
   * is settled with q.
   */
  lemma {:induction false} MergeLinks(nx: nat, ny: nat, next: seq<int>, h: seq<nat>, size: seq<int>, edges: seq<Edge>,
                                      cap: int, p: int, d: int, done: set<int>, a: int, b: int, ed: Edge)
    requires Linked(nx, ny, next, h, size, edges, cap, p, done) && SizesOk(next, h, size)
    requires 0 <= d < 4 && Nb(nx, ny, p, d) >= 0 && next[Nb(nx, ny, p, d)] >= 0 && ed.index == (p, Nb(nx, ny, p, d))
    requires 0 <= a < |next| && 0 <= b < |next| && a != b && next[a] == a && next[b] == b
    requires var tp, tq := Top(next, h, p), Top(next, h, Nb(nx, ny, p, d));
             (tp == a && tq == b) || (tp == b && tq == a)
    ensures Forest(next[a := b], Raise(h, a, b))
    ensures Linked(nx, ny, next[a := b], Raise(h, a, b), size[b := size[a] + size[b]], edges + [ed], cap, p, done + {d})
  {
    LinkEdge(nx, ny, next, h, size, edges, cap, p, done, a, b, ed);
    AddDone(nx, ny, next[a := b], Raise(h, a, b), size[b := size[a] + size[b]], edges + [ed], cap, p, done, d);
  }

  /**
   * Root a linked under root b and the edge from p to its neighbour q in
   * direction d recorded, p and q lying one in each of the two clusters:
   * the links are kept and p is settled with q.
   */
  lemma {:induction false} LinkRecordLinks(nx: nat, ny: nat, v: seq<Vertex>, edges: seq<Edge>, h: seq<nat>,
                                           cap: int, p: int, d: int, done: set<int>, a: int, b: int)
    requires |v| == nx * ny && 0 <= p < |v| && 0 <= d < 4 && Nb(nx, ny, p, d) >= 0 && FourSlots(v)
    requires 0 <= a < |v| && 0 <= b < |v| && a != b && v[a].next == a && v[b].next == b
    requires Forest(Nexts(v), h) && SizesOk(Nexts(v), h, Sizes(v)) && v[p].next >= 0 && v[Nb(nx, ny, p, d)].next >= 0
    requires var tp, tq := Top(Nexts(v), h, p), Top(Nexts(v), h, Nb(nx, ny, p, d));
             (tp == a && tq == b) || (tp == b && tq == a)
    requires VisitLinks(nx, ny, v, edges, h, cap, p, done)
    ensures var r := Record(nx, ny, LinkV(v, a, b), edges, p, d, b);
            VisitLinks(nx, ny, r.v, r.edges, Raise(h, a, b), cap, p, done + {d})
  {
    MergeLinks(nx, ny, Nexts(v), h, Sizes(v), edges, cap, p, d, done, a, b, Edge((p, Nb(nx, ny, p, d)), v[p].value));
    RecordLinks(nx, ny, v, edges, Raise(h, a, b), cap, p, d, done + {d}, a, b);
  }

  /** The new pixel p, a cluster of its own, joining the cluster of its neighbour keeps the links. */
  lemma {:induction false} JoinLinks(nx: nat, ny: nat, v: seq<Vertex>, edges: seq<Edge>, h: seq<nat>,
                                     cap: int, p: int, d: int, done: set<int>)
    requires |v| == nx * ny && 0 <= p < |v| && 0 <= d < 4 && Nb(nx, ny, p, d) >= 0 && FourSlots(v)
    requires VisitLinks(nx, ny, v, edges, h, cap, p, done) && SizesOk(Nexts(v), h, Sizes(v))
    requires v[Nb(nx, ny, p, d)].next >= 0 && v[p].next == p && Members(Nexts(v), h, p) == {p}
    ensures var t := Top(Nexts(v), h, Nb(nx, ny, p, d));
            var r := Record(nx, ny, JoinV(v, p, t), edges, p, d, t);
            VisitLinks(nx, ny, r.v, r.edges, Raise(h, p, t), cap, p, done + {d})
  {
    var q := Nb(nx, ny, p, d);
    var t := Top(Nexts(v), h, q);
    assert t != p by {
      assert q in Members(Nexts(v), h, t);
      NbDistinct(nx, ny, p, d, if d == 0 then 1 else 0);
    }
    assert v[p].size == 1;
    assert JoinV(v, p, t) == LinkV(v, p, t);
    LinkRecordLinks(nx, ny, v, edges, h, cap, p, d, done, p, t);
  }

  /** What a union step needs to know of the pixel graph for the links. */
  ghost predicate UniteFacts(nx: nat, ny: nat, v: seq<Vertex>, h: seq<nat>, p: int, d: int, anotherTop: int) {
    && |v| == nx * ny && 0 <= p < |v| && 0 <= d < 4 && Nb(nx, ny, p, d) >= 0 && FourSlots(v)
    && Forest(Nexts(v), h) && SizesOk(Nexts(v), h, Sizes(v)) && v[p].next >= 0 && v[Nb(nx, ny, p, d)].next >= 0
    && (anotherTop == -1 ==> v[p].next == p && Members(Nexts(v), h, p) == {p})
    && (anotherTop != -1 ==> 0 <= anotherTop < |v| && Top(Nexts(v), h, p) == anotherTop)
  }

  lemma UniteFactsOf(img: seq<seq<real>>, nx: nat, ny: nat, v: seq<Vertex>, edges: seq<Edge>, h: seq<nat>,
                     p: int, d: int, anotherTop: int)
    requires UnitePre(img, nx, ny, v, edges, h, p, d, anotherTop)
    ensures UniteFacts(nx, ny, v, h, p, d, anotherTop)
  {
    assert UF(v, h) && FourSlots(v);
  }

  /**
   * A union step of lines 171-224 keeps the links, and settles p with its
   * neighbour in direction d: they end up in one cluster, or the merge was
   * skipped because both clusters had reached cap.
   */
  lemma {:induction false} UniteLinks(nx: nat, ny: nat, v: seq<Vertex>, edges: seq<Edge>, h: seq<nat>,
                                      p: int, d: int, cap: int, anotherTop: int, done: set<int>)
    requires UniteFacts(nx, ny, v, h, p, d, anotherTop)
    requires VisitLinks(nx, ny, v, edges, h, cap, p, done)
    ensures var t := Top(Nexts(v), h, Nb(nx, ny, p, d));
            var r := UniteV(nx, ny, v, edges, p, d, cap, anotherTop, t);
            VisitLinks(nx, ny, r.v, r.edges, UniteH(h, v, p, cap, anotherTop, t), cap, p, done + {d})
  {
    var t := Top(Nexts(v), h, Nb(nx, ny, p, d));
    if anotherTop == -1 {
      JoinLinks(nx, ny, v, edges, h, cap, p, d, done);
    } else if anotherTop == t || (v[t].size >= cap && v[anotherTop].size >= cap) {
      AddDone(nx, ny, Nexts(v), h, Sizes(v), edges, cap, p, done, d);
    } else if v[t].value > v[anotherTop].value {
      LinkRecordLinks(nx, ny, v, edges, h, cap, p, d, done, anotherTop, t);
    } else {
      LinkRecordLinks(nx, ny, v, edges, h, cap, p, d, done, t, anotherTop);
    }
  }

  /** Lines 153-170: a neighbour outside the image or under water is skipped, and is settled with p. */
  lemma SkipLinks(nx: nat, ny: nat, v: seq<Vertex>, edges: seq<Edge>, h: seq<nat>, cap: int, p: int, done: set<int>, d: int)
    requires VisitLinks(nx, ny, v, edges, h, cap, p, done) && 0 <= d < 4
    requires Nb(nx, ny, p, d) < 0 || v[Nb(nx, ny, p, d)].next < 0
    ensures VisitLinks(nx, ny, v, edges, h, cap, p, done + {d})
  {
    AddDone(nx, ny, Nexts(v), h, Sizes(v), edges, cap, p, done, d);
  }

  /** UniteLinks, for a state w, edges', h' that the union step has produced. */
  lemma UnitedLinks(nx: nat, ny: nat, v: seq<Vertex>, edges: seq<Edge>, h: seq<nat>, p: int, d: int, cap: int,
                    anotherTop: int, done: set<int>, w: seq<Vertex>, edges': seq<Edge>, h': seq<nat>, top': int)
    requires UniteFacts(nx, ny, v, h, p, d, anotherTop) && VisitLinks(nx, ny, v, edges, h, cap, p, done)
    requires var t := Top(Nexts(v), h, Nb(nx, ny, p, d));
             && Step(w, edges', top') == UniteV(nx, ny, v, edges, p, d, cap, anotherTop, t)
             && h' == UniteH(h, v, p, cap, anotherTop, t)
    ensures VisitLinks(nx, ny, w, edges', h', cap, p, done + {d})
  {
    UniteLinks(nx, ny, v, edges, h, p, d, cap, anotherTop, done);
  }

  /** Lines 142-144: flooding p as a cluster of its own starts its visit with no direction done. */
  lemma FloodLinks(nx: nat, ny: nat, v: seq<Vertex>, edges: seq<Edge>, h: seq<nat>, cap: int, p: int)
    requires BuildLinks(nx, ny, v, edges, h, cap) && 0 <= p < |v| && v[p].next < 0
    ensures VisitLinks(nx, ny, Flood(v, p), edges, h, cap, p, {})
  {
    var next := Nexts(v);
    assert Nexts(Flood(v, p)) == next[p := p];
    assert Sizes(Flood(v, p)) == Sizes(v)[p := 1];
    SpansReaching(next, h, edges);
    ReachFlood(EdgeAdj(edges), next, h, p);
    SpansReaching(next[p := p], h, edges);
    CappedFlood(nx, ny, next, h, Sizes(v), cap, p);
  }

  /** The visit of p over, every direction done, the links hold for every pixel. */
  lemma CloseLinks(nx: nat, ny: nat, v: seq<Vertex>, edges: seq<Edge>, h: seq<nat>, cap: int, p: int, done: set<int>)
    requires VisitLinks(nx, ny, v, edges, h, cap, p, done) && forall d :: 0 <= d < 4 ==> d in done
    ensures BuildLinks(nx, ny, v, edges, h, cap)
  {
    CappedClose(nx, ny, Nexts(v), h, Sizes(v), cap, p, done);
  }

  /** No cluster has more pixels than the image. */
  lemma MembersAtMost(next: seq<int>, h: seq<nat>, r: int)
    requires Forest(next, h)
    ensures |Members(next, h, r)| <= |next|
  {
    var ix := seq(|next|, i => i);
    assert NoDup(ix);
    NoDupCard(ix);
    var m := Members(next, h, r);
    assert forall k :: k in m ==> ix[k] == k;
    assert m <= Elems(ix);
    var rest := Elems(ix) - m;
    assert Elems(ix) == m + rest && m * rest == {};
  }

  /**
   * With a merge threshold above the number of pixels, no merge is ever
   * skipped: flooded neighbours share a cluster, and the recorded edges,
   * which join neighbours, connect every cluster.  The clusters are then
   * exactly the 4-connected components of the flooded pixels.
   */
  lemma {:induction false} Components(img: seq<seq<real>>, nx: nat, ny: nat, v: seq<Vertex>, edges: seq<Edge>, h: seq<nat>, cap: int)
    requires GraphInv(img, nx, ny, v, edges, h) && BuildLinks(nx, ny, v, edges, h, cap) && cap > nx * ny
    ensures Joined(nx, ny, Nexts(v), h) && Spanned(nx, ny, Nexts(v), h)
  {
    var next := Nexts(v);
    forall a, d | 0 <= a < |next| && 0 <= d < 4 && next[a] >= 0 && Nb(nx, ny, a, d) >= 0 && next[Nb(nx, ny, a, d)] >= 0
      ensures Top(next, h, a) == Top(next, h, Nb(nx, ny, a, d))
    {
      var t := Top(next, h, a);
      MembersAtMost(next, h, t);
      assert NbSettled(nx, ny, next, h, Sizes(v), cap, a, d);
    }
    assert EdgeAdj(edges) <= Edges(nx, ny) by {
      forall x, y | (x, y) in EdgeAdj(edges)
        ensures (x, y) in Edges(nx, ny)
      {
        var e :| 0 <= e < |edges| && (edges[e].index == (x, y) || (edges[e].index.1, edges[e].index.0) == (x, y));
        assert EdgeOk(nx, ny, v, h, edges[e], e);
        var a, b := edges[e].index.0, edges[e].index.1;
        EdgeNb(nx, ny, a, DirTo(nx, ny, a, b));
      }
    }
    SpansReaching(next, h, edges);
    ReachingMore(EdgeAdj(edges), Edges(nx, ny), next, Tops(next, h));
  }
}
