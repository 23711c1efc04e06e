/**
 * The invariant of the watershed pixel graph (`py_watershed.cpp`) and the
 * lemmas that each step of `construct_graph` keeps it: flooding a new
 * pixel, and uniting two clusters while recording the edge between them.
 */
module WatershedInv {
  import opened Grid
  import opened UnionFind
  import opened Graph

  /** Neighbour offsets of `construct_graph`: up, right, down, left. */
  const DX: seq<int> := [0, 1, 0, -1]
  const DY: seq<int> := [1, 0, -1, 0]

  /** The direction opposite to d. */
  function Opp(d: int): int { (d + 2) % 4 }

  /** The neighbour of pixel k in direction d, or -1 outside the image. */
  function Nb(nx: nat, ny: nat, k: int, d: int): int
    requires 0 <= k < nx * ny && 0 <= d < 4
  {
    Neighbour(nx, ny, k, DX[d], DY[d])
  }

  /** Stepping back in the opposite direction returns to k. */
  lemma NbBack(nx: nat, ny: nat, k: int, d: int)
    requires 0 <= k < nx * ny && 0 <= d < 4 && Nb(nx, ny, k, d) >= 0
    ensures Nb(nx, ny, Nb(nx, ny, k, d), Opp(d)) == k
  {
    var q := Nb(nx, ny, k, d);
    SplitIndex(k, nx, ny);
    SplitIndex(q, nx, ny);
    var r := Nb(nx, ny, q, Opp(d));
    assert r >= 0;
    SplitIndex(r, nx, ny);
  }

  /** Different directions lead to different neighbours. */
  lemma NbDistinct(nx: nat, ny: nat, k: int, d1: int, d2: int)
    requires 0 <= k < nx * ny && 0 <= d1 < 4 && 0 <= d2 < 4 && d1 != d2 && Nb(nx, ny, k, d1) >= 0
    ensures Nb(nx, ny, k, d1) != Nb(nx, ny, k, d2) && Nb(nx, ny, k, d1) != k
  {
  }

  /** The direction in which b lies as seen from a, or 4 when b is not a neighbour of a. */
  function DirTo(nx: nat, ny: nat, a: int, b: int): (d: int)
    requires 0 <= a < nx * ny
    ensures 0 <= d <= 4 && (d < 4 ==> Nb(nx, ny, a, d) == b)
    ensures b >= 0 && (exists d' :: 0 <= d' < 4 && Nb(nx, ny, a, d') == b) ==> d < 4
  {
    if Nb(nx, ny, a, 0) == b then 0
    else if Nb(nx, ny, a, 1) == b then 1
    else if Nb(nx, ny, a, 2) == b then 2
    else if Nb(nx, ny, a, 3) == b then 3
    else 4
  }

  lemma DirToNb(nx: nat, ny: nat, a: int, d: int)
    requires 0 <= a < nx * ny && 0 <= d < 4 && Nb(nx, ny, a, d) >= 0
    ensures DirTo(nx, ny, a, Nb(nx, ny, a, d)) == d
  {
    forall d' | 0 <= d' < 4 && d' != d ensures Nb(nx, ny, a, d') != Nb(nx, ny, a, d) {
      NbDistinct(nx, ny, a, d, d');
    }
  }

  /** Every vertex has four edge slots. */
  ghost predicate FourSlots(v: seq<Vertex>) {
    forall k :: 0 <= k < |v| ==> |v[k].edge| == 4
  }

  /** Every vertex holds its pixel's value and four edge slots. */
  ghost predicate Shape(img: seq<seq<real>>, nx: nat, ny: nat, v: seq<Vertex>) {
    && IsGrid(img, nx, ny) && |v| == nx * ny && FourSlots(v)
    && forall k :: 0 <= k < |v| ==> v[k].value == Value(img, nx, ny, k)
  }

  /** The next links form a forest whose root sizes count their clusters. */
  ghost predicate UF(v: seq<Vertex>, h: seq<nat>) {
    Forest(Nexts(v), h) && SizesOk(Nexts(v), h, Sizes(v))
  }

  /** The top of every cluster is one of its highest pixels. */
  ghost predicate RootsHighest(v: seq<Vertex>, h: seq<nat>)
    requires Forest(Nexts(v), h)
  {
    forall k :: 0 <= k < |v| && v[k].next >= 0 ==> v[k].value <= v[Top(Nexts(v), h, k)].value
  }

  /**
   * Edge number e, ed, joins a flooded pixel a to its neighbour b in the
   * same cluster, sits in slot DirTo(a, b) of a and the opposite slot of b,
   * and weighs a's value, which is not above b's.
   */
  ghost predicate EdgeOk(nx: nat, ny: nat, v: seq<Vertex>, h: seq<nat>, ed: Edge, e: int)
    requires Forest(Nexts(v), h) && |v| == nx * ny && FourSlots(v)
  {
    var a, b := ed.index.0, ed.index.1;
    && 0 <= a < |v| && 0 <= b < |v| && v[a].next >= 0 && v[b].next >= 0
    && DirTo(nx, ny, a, b) < 4
    && v[a].edge[DirTo(nx, ny, a, b)] == e
    && v[b].edge[Opp(DirTo(nx, ny, a, b))] == e
    && ed.value == v[a].value <= v[b].value
    && Top(Nexts(v), h, a) == Top(Nexts(v), h, b)
  }

  ghost predicate EdgesOk(nx: nat, ny: nat, v: seq<Vertex>, h: seq<nat>, edges: seq<Edge>)
    requires Forest(Nexts(v), h) && |v| == nx * ny && FourSlots(v)
  {
    forall e :: 0 <= e < |edges| ==> EdgeOk(nx, ny, v, h, edges[e], e)
  }

  /** Slot d of pixel k is empty or holds an edge between k and its neighbour in direction d. */
  ghost predicate SlotOk(nx: nat, ny: nat, v: seq<Vertex>, edges: seq<Edge>, k: int, d: int)
    requires |v| == nx * ny && 0 <= k < |v| && 0 <= d < 4 && |v[k].edge| == 4
  {
    var e := v[k].edge[d];
    e == None ||
    (0 <= e < |edges| &&
     (edges[e].index == (k, Nb(nx, ny, k, d)) || edges[e].index == (Nb(nx, ny, k, d), k)))
  }

  ghost predicate SlotsOk(nx: nat, ny: nat, v: seq<Vertex>, edges: seq<Edge>)
    requires |v| == nx * ny && FourSlots(v)
  {
    forall k, d :: 0 <= k < |v| && 0 <= d < 4 ==> SlotOk(nx, ny, v, edges, k, d)
  }

  /** A pixel under water has no edges. */
  ghost predicate DryEmpty(v: seq<Vertex>) {
    forall k :: 0 <= k < |v| && v[k].next < 0 ==> v[k].edge == NoEdges
  }

  /** The invariant of the pixel graph, but for the count of its edges. */
  ghost predicate GraphCore(img: seq<seq<real>>, nx: nat, ny: nat, v: seq<Vertex>, edges: seq<Edge>, h: seq<nat>) {
    && Shape(img, nx, ny, v)
    && UF(v, h)
    && RootsHighest(v, h)
    && EdgesOk(nx, ny, v, h, edges)
    && SlotsOk(nx, ny, v, edges)
    && DryEmpty(v)
  }

  /**
   * The whole invariant of the pixel graph: one edge per union, so the
   * edges number the flooded pixels minus the clusters.
   */
  ghost predicate GraphInv(img: seq<seq<real>>, nx: nat, ny: nat, v: seq<Vertex>, edges: seq<Edge>, h: seq<nat>) {
    && GraphCore(img, nx, ny, v, edges, h)
    && |edges| + |Roots(Nexts(v))| == |Flooded(Nexts(v))|
  }

  /** The vertex array as `obtain_vertices` returns it satisfies the invariant with no edges. */
  lemma InitialGraph(img: seq<seq<real>>, nx: nat, ny: nat, v: seq<Vertex>, h: seq<nat>)
    requires IsGrid(img, nx, ny) && |v| == nx * ny && |h| == |v|
    requires forall k :: 0 <= k < |v| ==> v[k] == Vertex(Value(img, nx, ny, k), None, 0, NoEdges)
    ensures GraphInv(img, nx, ny, v, [], h)
    ensures Flooded(Nexts(v)) == {}
  {
    EmptyForest(Nexts(v), h);
  }

  /** Root a linked under root b, b's size growing by a's (lines 203-204, 210-211). */
  function LinkV(v: seq<Vertex>, a: int, b: int): seq<Vertex>
    requires 0 <= a < |v| && 0 <= b < |v|
  {
    var v1 := v[a := v[a].(next := b)];
    v1[b := v1[b].(size := v1[b].size + v1[a].size)]
  }

  /** Edge e written into slot d of p and the opposite slot of q (lines 184-185, 218-219). */
  function SetSlots(v: seq<Vertex>, p: int, q: int, d: int, e: int): seq<Vertex>
    requires 0 <= p < |v| && 0 <= q < |v| && 0 <= d < 4 && |v[p].edge| == 4 && |v[q].edge| == 4
  {
    var v1 := v[p := v[p].(edge := v[p].edge[d := e])];
    v1[q := v1[q].(edge := v1[q].edge[Opp(d) := e])]
  }

  /**
   * An edge stays well placed in a new state that keeps its endpoints
   * flooded and in one cluster, with their values and slots.
   */
  lemma EdgeFrame(nx: nat, ny: nat, v: seq<Vertex>, h: seq<nat>, v': seq<Vertex>, h': seq<nat>, ed: Edge, e: int)
    requires Forest(Nexts(v), h) && |v| == nx * ny && FourSlots(v)
    requires Forest(Nexts(v'), h') && |v'| == |v| && FourSlots(v')
    requires EdgeOk(nx, ny, v, h, ed, e)
    requires v'[ed.index.0].next >= 0 && v'[ed.index.1].next >= 0
    requires v'[ed.index.0].value == v[ed.index.0].value && v'[ed.index.1].value == v[ed.index.1].value
    requires v'[ed.index.0].edge == v[ed.index.0].edge && v'[ed.index.1].edge == v[ed.index.1].edge
    requires Top(Nexts(v'), h', ed.index.0) == Top(Nexts(v'), h', ed.index.1)
    ensures EdgeOk(nx, ny, v', h', ed, e)
  {
  }

  /** The vertices after pixel p is flooded as a cluster of its own (lines 143-144). */
  function Flood(v: seq<Vertex>, p: int): seq<Vertex>
    requires 0 <= p < |v|
  {
    v[p := v[p].(next := p, size := 1)]
  }

  /** Flooding keeps the union-find forest and its sizes, and adds p as a root. */
  lemma FloodUF(v: seq<Vertex>, h: seq<nat>, p: int)
    requires UF(v, h) && 0 <= p < |v| && v[p].next < 0
    ensures UF(Flood(v, p), h)
    ensures Nexts(Flood(v, p)) == Nexts(v)[p := p]
    ensures forall k :: 0 <= k < |v| && v[k].next >= 0 ==> Top(Nexts(Flood(v, p)), h, k) == Top(Nexts(v), h, k)
    ensures Top(Nexts(Flood(v, p)), h, p) == p
    ensures Flooded(Nexts(Flood(v, p))) == Flooded(Nexts(v)) + {p}
    ensures Roots(Nexts(Flood(v, p))) == Roots(Nexts(v)) + {p}
    ensures p !in Roots(Nexts(v)) && p !in Flooded(Nexts(v))
    ensures |Roots(Nexts(Flood(v, p)))| == |Roots(Nexts(v))| + 1
    ensures |Flooded(Nexts(Flood(v, p)))| == |Flooded(Nexts(v))| + 1
  {
    var next := Nexts(v);
    assert Nexts(Flood(v, p)) == next[p := p];
    assert Sizes(Flood(v, p)) == Sizes(v)[p := 1];
    FloodNewSizes(next, h, Sizes(v), p);
    FloodNew(next, h, p);
    CardAdd(Roots(next), p);
    CardAdd(Flooded(next), p);
  }

  /** Adding a new element to a finite set adds one to its size. */
  lemma CardAdd(s: set<int>, x: int)
    requires x !in s
    ensures |s + {x}| == |s| + 1
  {
  }

  /** Removing an element of a finite set takes one from its size. */
  lemma CardRemove(s: set<int>, x: int)
    requires x in s
    ensures |s - {x}| == |s| - 1
  {
  }

  lemma FloodEdges(nx: nat, ny: nat, v: seq<Vertex>, edges: seq<Edge>, h: seq<nat>, p: int)
    requires Forest(Nexts(v), h) && |v| == nx * ny && FourSlots(v) && EdgesOk(nx, ny, v, h, edges)
    requires 0 <= p < |v| && v[p].next < 0
    requires Forest(Nexts(Flood(v, p)), h)
    requires forall k :: 0 <= k < |v| && v[k].next >= 0 ==> Top(Nexts(Flood(v, p)), h, k) == Top(Nexts(v), h, k)
    ensures FourSlots(Flood(v, p)) && EdgesOk(nx, ny, Flood(v, p), h, edges)
  {
    var v' := Flood(v, p);
    forall e | 0 <= e < |edges| ensures EdgeOk(nx, ny, v', h, edges[e], e) {
      assert EdgeOk(nx, ny, v, h, edges[e], e);
      EdgeFrame(nx, ny, v, h, v', h, edges[e], e);
    }
  }

  lemma FloodHighest(v: seq<Vertex>, h: seq<nat>, p: int)
    requires Forest(Nexts(v), h) && RootsHighest(v, h) && 0 <= p < |v| && v[p].next < 0
    requires Forest(Nexts(Flood(v, p)), h) && Top(Nexts(Flood(v, p)), h, p) == p
    requires forall k :: 0 <= k < |v| && v[k].next >= 0 ==> Top(Nexts(Flood(v, p)), h, k) == Top(Nexts(v), h, k)
    ensures RootsHighest(Flood(v, p), h)
  {
    var v' := Flood(v, p);
    forall k | 0 <= k < |v'| && v'[k].next >= 0
      ensures v'[k].value <= v'[Top(Nexts(v'), h, k)].value
    {
      if k != p {
        assert v[k].value <= v[Top(Nexts(v), h, k)].value;
      }
    }
  }

  /** Flooding pixel p as a cluster of its own keeps the invariant. */
  lemma FloodStep(img: seq<seq<real>>, nx: nat, ny: nat, v: seq<Vertex>, edges: seq<Edge>, h: seq<nat>, p: int)
    requires GraphInv(img, nx, ny, v, edges, h) && 0 <= p < |v| && v[p].next < 0
    ensures GraphInv(img, nx, ny, Flood(v, p), edges, h)
    ensures Flooded(Nexts(Flood(v, p))) == Flooded(Nexts(v)) + {p}
    ensures Roots(Nexts(Flood(v, p))) == Roots(Nexts(v)) + {p}
  {
    var v' := Flood(v, p);
    FloodUF(v, h, p);
    assert GraphCore(img, nx, ny, v', edges, h) by {
      FloodHighest(v, h, p);
      FloodEdges(nx, ny, v, edges, h, p);
      FloodSlots(nx, ny, v, edges, p);
      assert Shape(img, nx, ny, v');
      assert DryEmpty(v');
    }
  }

  lemma FloodSlots(nx: nat, ny: nat, v: seq<Vertex>, edges: seq<Edge>, p: int)
    requires |v| == nx * ny && FourSlots(v) && SlotsOk(nx, ny, v, edges) && 0 <= p < |v|
    ensures FourSlots(Flood(v, p)) && SlotsOk(nx, ny, Flood(v, p), edges)
  {
    var v' := Flood(v, p);
    forall k, d | 0 <= k < |v'| && 0 <= d < 4 ensures SlotOk(nx, ny, v', edges, k, d) {
      assert SlotOk(nx, ny, v, edges, k, d);
    }
  }

  /** Linking root a under root b keeps the forest and its sizes, and removes a as a root. */
  lemma LinkUF(v: seq<Vertex>, h: seq<nat>, a: int, b: int)
    requires UF(v, h) && 0 <= a < |v| && 0 <= b < |v| && a != b && v[a].next == a && v[b].next == b
    ensures UF(LinkV(v, a, b), Raise(h, a, b))
    ensures Nexts(LinkV(v, a, b)) == Nexts(v)[a := b]
    ensures Flooded(Nexts(LinkV(v, a, b))) == Flooded(Nexts(v))
    ensures Roots(Nexts(LinkV(v, a, b))) == Roots(Nexts(v)) - {a}
    ensures a in Roots(Nexts(v))
    ensures |Roots(Nexts(LinkV(v, a, b)))| == |Roots(Nexts(v))| - 1
    ensures forall k :: 0 <= k < |v| && v[k].next >= 0 ==>
              Top(Nexts(LinkV(v, a, b)), Raise(h, a, b), k) == if Top(Nexts(v), h, k) == a then b else Top(Nexts(v), h, k)
  {
    var next, size := Nexts(v), Sizes(v);
    assert Nexts(LinkV(v, a, b)) == next[a := b];
    assert Sizes(LinkV(v, a, b)) == size[b := size[a] + size[b]];
    LinkSizes(next, h, size, a, b);
    Link(next, h, a, b);
    CardRemove(Roots(next), a);
  }

  lemma LinkHighest(v: seq<Vertex>, h: seq<nat>, a: int, b: int)
    requires Forest(Nexts(v), h) && RootsHighest(v, h)
    requires 0 <= a < |v| && 0 <= b < |v| && a != b && v[a].next == a && v[b].next == b
    requires v[a].value <= v[b].value
    requires Forest(Nexts(LinkV(v, a, b)), Raise(h, a, b))
    requires forall k :: 0 <= k < |v| && v[k].next >= 0 ==>
              Top(Nexts(LinkV(v, a, b)), Raise(h, a, b), k) == if Top(Nexts(v), h, k) == a then b else Top(Nexts(v), h, k)
    ensures RootsHighest(LinkV(v, a, b), Raise(h, a, b))
  {
    var v' := LinkV(v, a, b);
    forall k | 0 <= k < |v'| && v'[k].next >= 0
      ensures v'[k].value <= v'[Top(Nexts(v'), Raise(h, a, b), k)].value
    {
      assert v[k].value <= v[Top(Nexts(v), h, k)].value;
    }
  }

  lemma LinkEdges(nx: nat, ny: nat, v: seq<Vertex>, edges: seq<Edge>, h: seq<nat>, a: int, b: int)
    requires Forest(Nexts(v), h) && |v| == nx * ny && FourSlots(v) && EdgesOk(nx, ny, v, h, edges)
    requires 0 <= a < |v| && 0 <= b < |v| && a != b && v[a].next == a && v[b].next == b
    requires Forest(Nexts(LinkV(v, a, b)), Raise(h, a, b))
    requires forall k :: 0 <= k < |v| && v[k].next >= 0 ==>
              Top(Nexts(LinkV(v, a, b)), Raise(h, a, b), k) == if Top(Nexts(v), h, k) == a then b else Top(Nexts(v), h, k)
    ensures FourSlots(LinkV(v, a, b)) && EdgesOk(nx, ny, LinkV(v, a, b), Raise(h, a, b), edges)
  {
    var v' := LinkV(v, a, b);
    forall e | 0 <= e < |edges| ensures EdgeOk(nx, ny, v', Raise(h, a, b), edges[e], e) {
      assert EdgeOk(nx, ny, v, h, edges[e], e);
      EdgeFrame(nx, ny, v, h, v', Raise(h, a, b), edges[e], e);
    }
  }

  lemma LinkSlots(nx: nat, ny: nat, v: seq<Vertex>, edges: seq<Edge>, a: int, b: int)
    requires |v| == nx * ny && FourSlots(v) && SlotsOk(nx, ny, v, edges)
    requires 0 <= a < |v| && 0 <= b < |v|
    ensures FourSlots(LinkV(v, a, b)) && SlotsOk(nx, ny, LinkV(v, a, b), edges)
  {
    var v' := LinkV(v, a, b);
    forall k, d | 0 <= k < |v'| && 0 <= d < 4 ensures SlotOk(nx, ny, v', edges, k, d) {
      assert SlotOk(nx, ny, v, edges, k, d);
    }
  }

  /**
   * Linking root a under root b, where b holds the value not below a's,
   * keeps the invariant but for the edge count and removes one root.
   */
  lemma LinkStep(img: seq<seq<real>>, nx: nat, ny: nat, v: seq<Vertex>, edges: seq<Edge>, h: seq<nat>, a: int, b: int)
    requires GraphCore(img, nx, ny, v, edges, h)
    requires 0 <= a < |v| && 0 <= b < |v| && a != b && v[a].next == a && v[b].next == b
    requires v[a].value <= v[b].value
    ensures GraphCore(img, nx, ny, LinkV(v, a, b), edges, Raise(h, a, b))
    ensures Nexts(LinkV(v, a, b)) == Nexts(v)[a := b]
    ensures Flooded(Nexts(LinkV(v, a, b))) == Flooded(Nexts(v))
    ensures Roots(Nexts(LinkV(v, a, b))) == Roots(Nexts(v)) - {a}
    ensures a in Roots(Nexts(v))
    ensures |Roots(Nexts(LinkV(v, a, b)))| == |Roots(Nexts(v))| - 1
    ensures forall k :: 0 <= k < |v| && v[k].next >= 0 ==>
              Top(Nexts(LinkV(v, a, b)), Raise(h, a, b), k) == if Top(Nexts(v), h, k) == a then b else Top(Nexts(v), h, k)
  {
    LinkUF(v, h, a, b);
    LinkHighest(v, h, a, b);
    LinkEdges(nx, ny, v, edges, h, a, b);
    LinkSlots(nx, ny, v, edges, a, b);
    assert Shape(img, nx, ny, LinkV(v, a, b));
    assert DryEmpty(LinkV(v, a, b));
  }

  /**
   * The check of line 182, for slots indexed by direction: when p's slot
   * toward its neighbour q is empty, q's slot toward p is empty too.
   */
  lemma NeighbourSlotFree(nx: nat, ny: nat, v: seq<Vertex>, edges: seq<Edge>, h: seq<nat>, p: int, d: int)
    requires Forest(Nexts(v), h) && |v| == nx * ny && FourSlots(v) && EdgesOk(nx, ny, v, h, edges) && SlotsOk(nx, ny, v, edges)
    requires 0 <= p < |v| && 0 <= d < 4 && Nb(nx, ny, p, d) >= 0 && v[p].edge[d] == None
    ensures v[Nb(nx, ny, p, d)].edge[Opp(d)] == None
  {
    var q := Nb(nx, ny, p, d);
    NbBack(nx, ny, p, d);
    var e := v[q].edge[Opp(d)];
    if e != None {
      assert SlotOk(nx, ny, v, edges, q, Opp(d));
      assert EdgeOk(nx, ny, v, h, edges[e], e);
      DirToNb(nx, ny, p, d);
      DirToNb(nx, ny, q, Opp(d));
      assert false;
    }
  }

  /** The old edges stay well placed once the edge (p, q) is recorded. */
  lemma AddEdgeOld(nx: nat, ny: nat, v: seq<Vertex>, h: seq<nat>, p: int, d: int, E: int, ed: Edge, e: int)
    requires Forest(Nexts(v), h) && |v| == nx * ny && FourSlots(v) && 0 <= e && EdgeOk(nx, ny, v, h, ed, e)
    requires 0 <= p < |v| && 0 <= d < 4 && Nb(nx, ny, p, d) >= 0 && v[p].edge[d] == None
    requires v[Nb(nx, ny, p, d)].edge[Opp(d)] == None
    requires Forest(Nexts(SetSlots(v, p, Nb(nx, ny, p, d), d, E)), h)
    requires Nexts(SetSlots(v, p, Nb(nx, ny, p, d), d, E)) == Nexts(v)
    ensures FourSlots(SetSlots(v, p, Nb(nx, ny, p, d), d, E))
    ensures EdgeOk(nx, ny, SetSlots(v, p, Nb(nx, ny, p, d), d, E), h, ed, e)
  {
    var q, v' := Nb(nx, ny, p, d), SetSlots(v, p, Nb(nx, ny, p, d), d, E);
    var a, b := ed.index.0, ed.index.1;
    var da := DirTo(nx, ny, a, b);
    assert v'[a].edge[da] == v[a].edge[da] by {
      if a == p && da == d { assert false; }
      if a == q && da == Opp(d) { assert false; }
    }
    assert v'[b].edge[Opp(da)] == v[b].edge[Opp(da)] by {
      if b == p && Opp(da) == d { assert false; }
      if b == q && Opp(da) == Opp(d) { assert false; }
    }
  }

  /** The new edge (p, q) sits in slot d of p and the opposite slot of q. */
  lemma AddEdgeNew(nx: nat, ny: nat, v: seq<Vertex>, h: seq<nat>, p: int, d: int, E: int)
    requires Forest(Nexts(v), h) && |v| == nx * ny && FourSlots(v)
    requires 0 <= p < |v| && 0 <= d < 4 && Nb(nx, ny, p, d) >= 0
    requires v[p].next >= 0 && v[Nb(nx, ny, p, d)].next >= 0 && v[p].value <= v[Nb(nx, ny, p, d)].value
    requires Top(Nexts(v), h, p) == Top(Nexts(v), h, Nb(nx, ny, p, d))
    requires Forest(Nexts(SetSlots(v, p, Nb(nx, ny, p, d), d, E)), h)
    requires Nexts(SetSlots(v, p, Nb(nx, ny, p, d), d, E)) == Nexts(v)
    ensures FourSlots(SetSlots(v, p, Nb(nx, ny, p, d), d, E))
    ensures EdgeOk(nx, ny, SetSlots(v, p, Nb(nx, ny, p, d), d, E), h, Edge((p, Nb(nx, ny, p, d)), v[p].value), E)
  {
    NbDistinct(nx, ny, p, d, if d == 0 then 1 else 0);
    DirToNb(nx, ny, p, d);
  }

  lemma AddEdgeSlots(nx: nat, ny: nat, v: seq<Vertex>, edges: seq<Edge>, p: int, d: int)
    requires |v| == nx * ny && FourSlots(v) && SlotsOk(nx, ny, v, edges)
    requires 0 <= p < |v| && 0 <= d < 4 && Nb(nx, ny, p, d) >= 0
    ensures FourSlots(SetSlots(v, p, Nb(nx, ny, p, d), d, |edges|))
    ensures SlotsOk(nx, ny, SetSlots(v, p, Nb(nx, ny, p, d), d, |edges|), edges + [Edge((p, Nb(nx, ny, p, d)), v[p].value)])
  {
    var q := Nb(nx, ny, p, d);
    NbDistinct(nx, ny, p, d, if d == 0 then 1 else 0);
    NbBack(nx, ny, p, d);
    var v', edges' := SetSlots(v, p, q, d, |edges|), edges + [Edge((p, q), v[p].value)];
    forall k, d' | 0 <= k < |v'| && 0 <= d' < 4 ensures SlotOk(nx, ny, v', edges', k, d') {
      assert SlotOk(nx, ny, v, edges, k, d');
    }
  }

  /**
   * Recording the edge (p, q) with p's value, in slot d of p and the
   * opposite slot of q, keeps the invariant but for the edge count.
   */
  lemma AddEdgeStep(img: seq<seq<real>>, nx: nat, ny: nat, v: seq<Vertex>, edges: seq<Edge>, h: seq<nat>, p: int, d: int)
    requires GraphCore(img, nx, ny, v, edges, h)
    requires 0 <= p < |v| && 0 <= d < 4 && Nb(nx, ny, p, d) >= 0 && v[p].edge[d] == None
    requires v[p].next >= 0 && v[Nb(nx, ny, p, d)].next >= 0 && v[p].value <= v[Nb(nx, ny, p, d)].value
    requires Top(Nexts(v), h, p) == Top(Nexts(v), h, Nb(nx, ny, p, d))
    ensures GraphCore(img, nx, ny, SetSlots(v, p, Nb(nx, ny, p, d), d, |edges|),
                      edges + [Edge((p, Nb(nx, ny, p, d)), v[p].value)], h)
    ensures Nexts(SetSlots(v, p, Nb(nx, ny, p, d), d, |edges|)) == Nexts(v)
  {
    var q := Nb(nx, ny, p, d);
    NeighbourSlotFree(nx, ny, v, edges, h, p, d);
    var E := |edges|;
    var v', edges' := SetSlots(v, p, q, d, E), edges + [Edge((p, q), v[p].value)];
    AddEdgeShape(img, nx, ny, v, h, p, d, E);
    assert EdgesOk(nx, ny, v', h, edges') by {
      forall e | 0 <= e < |edges'| ensures EdgeOk(nx, ny, v', h, edges'[e], e) {
        if e < E {
          assert EdgeOk(nx, ny, v, h, edges[e], e);
          AddEdgeOld(nx, ny, v, h, p, d, E, edges[e], e);
        } else {
          AddEdgeNew(nx, ny, v, h, p, d, E);
        }
      }
    }
    AddEdgeSlots(nx, ny, v, edges, p, d);
  }

  /** Writing slots changes no value, link or size, and floods nothing. */
  lemma AddEdgeShape(img: seq<seq<real>>, nx: nat, ny: nat, v: seq<Vertex>, h: seq<nat>, p: int, d: int, E: int)
    requires Shape(img, nx, ny, v) && UF(v, h) && RootsHighest(v, h) && DryEmpty(v)
    requires 0 <= p < |v| && 0 <= d < 4 && Nb(nx, ny, p, d) >= 0
    requires v[p].next >= 0 && v[Nb(nx, ny, p, d)].next >= 0
    ensures Nexts(SetSlots(v, p, Nb(nx, ny, p, d), d, E)) == Nexts(v)
    ensures Shape(img, nx, ny, SetSlots(v, p, Nb(nx, ny, p, d), d, E))
    ensures UF(SetSlots(v, p, Nb(nx, ny, p, d), d, E), h)
    ensures RootsHighest(SetSlots(v, p, Nb(nx, ny, p, d), d, E), h)
    ensures DryEmpty(SetSlots(v, p, Nb(nx, ny, p, d), d, E))
  {
    var q := Nb(nx, ny, p, d);
    var v' := SetSlots(v, p, q, d, E);
    forall k | 0 <= k < |v|
      ensures v'[k].next == v[k].next && v'[k].size == v[k].size && v'[k].value == v[k].value && |v'[k].edge| == 4
      ensures v[k].next < 0 ==> v'[k].edge == v[k].edge
    {
    }
    assert Nexts(v') == Nexts(v);
    assert Sizes(v') == Sizes(v);
  }

  /** The vertices, the edges and the root of the new pixel's cluster after one union step. */
  datatype Step = Step(v: seq<Vertex>, edges: seq<Edge>, top: int)

  /** p joins the cluster of root t (lines 177-178): p is linked under t, whose size grows by one. */
  function JoinV(v: seq<Vertex>, p: int, t: int): seq<Vertex>
    requires 0 <= p < |v| && 0 <= t < |v|
  {
    var v1 := v[p := v[p].(next := t)];
    v1[t := v1[t].(size := v1[t].size + 1)]
  }

  /** Records the edge (p, q) with p's value, q being p's neighbour in direction d (lines 184-189, 218-223). */
  function Record(nx: nat, ny: nat, v: seq<Vertex>, edges: seq<Edge>, p: int, d: int, t: int): Step
    requires |v| == nx * ny && 0 <= p < |v| && 0 <= d < 4 && Nb(nx, ny, p, d) >= 0
    requires |v[p].edge| == 4 && |v[Nb(nx, ny, p, d)].edge| == 4
  {
    var q := Nb(nx, ny, p, d);
    Step(SetSlots(v, p, q, d, |edges|), edges + [Edge((p, q), v[p].value)], t)
  }

  /**
   * Lines 171-224 for the new pixel p and its flooded neighbour q in
   * direction d, whose root is t.  With no cluster yet (anotherTop == -1),
   * p joins t.  Otherwise a different cluster t is merged with anotherTop
   * unless both have at least mergeThreshold pixels; the root with the
   * strictly greater value survives, anotherTop on a tie.  Each union
   * records the edge (p, q).
   */
  function UniteV(nx: nat, ny: nat, v: seq<Vertex>, edges: seq<Edge>, p: int, d: int,
                  mergeThreshold: int, anotherTop: int, t: int): Step
    requires |v| == nx * ny && 0 <= p < |v| && 0 <= d < 4 && Nb(nx, ny, p, d) >= 0 && 0 <= t < |v|
    requires FourSlots(v) && (anotherTop != -1 ==> 0 <= anotherTop < |v|)
  {
    if anotherTop == -1 then
      Record(nx, ny, JoinV(v, p, t), edges, p, d, t)
    else if anotherTop == t || (v[t].size >= mergeThreshold && v[anotherTop].size >= mergeThreshold) then
      Step(v, edges, anotherTop)
    else if v[t].value > v[anotherTop].value then
      Record(nx, ny, LinkV(v, anotherTop, t), edges, p, d, t)
    else
      Record(nx, ny, LinkV(v, t, anotherTop), edges, p, d, anotherTop)
  }

  /** The heights after the union step. */
  function UniteH(h: seq<nat>, v: seq<Vertex>, p: int, mergeThreshold: int, anotherTop: int, t: int): seq<nat>
    requires |h| == |v| && 0 <= p < |v| && 0 <= t < |v| && (anotherTop != -1 ==> 0 <= anotherTop < |v|)
  {
    if anotherTop == -1 then Raise(h, p, t)
    else if anotherTop == t || (v[t].size >= mergeThreshold && v[anotherTop].size >= mergeThreshold) then h
    else if v[t].value > v[anotherTop].value then Raise(h, anotherTop, t)
    else Raise(h, t, anotherTop)
  }

  /**
   * While the neighbours of the new pixel p are visited: the invariant
   * holds, p is flooded and lowest of the flooded pixels, and anotherTop is
   * -1 while p is still a cluster of its own, the root of p's cluster after.
   */
  ghost predicate PixelInv(img: seq<seq<real>>, nx: nat, ny: nat, v: seq<Vertex>, edges: seq<Edge>, h: seq<nat>,
                           p: int, anotherTop: int)
  {
    && GraphInv(img, nx, ny, v, edges, h)
    && 0 <= p < |v| && v[p].next >= 0
    && (forall k :: 0 <= k < |v| && v[k].next >= 0 ==> v[p].value <= v[k].value)
    && (anotherTop == -1 ==> v[p].next == p && Members(Nexts(v), h, p) == {p})
    && (anotherTop != -1 ==> 0 <= anotherTop < |v| && Top(Nexts(v), h, p) == anotherTop)
  }

  /** What the caller knows of p and its flooded neighbour in direction d before a union step. */
  ghost predicate UnitePre(img: seq<seq<real>>, nx: nat, ny: nat, v: seq<Vertex>, edges: seq<Edge>, h: seq<nat>,
                           p: int, d: int, anotherTop: int)
  {
    && PixelInv(img, nx, ny, v, edges, h, p, anotherTop)
    && 0 <= d < 4 && v[p].edge[d] == None
    && Nb(nx, ny, p, d) >= 0 && v[Nb(nx, ny, p, d)].next >= 0
  }

  /** After a union step the invariant holds and r.top is the root of p's cluster. */
  ghost predicate UnitePost(img: seq<seq<real>>, nx: nat, ny: nat, p: int, r: Step, h': seq<nat>) {
    && GraphInv(img, nx, ny, r.v, r.edges, h')
    && 0 <= p < |r.v| && r.v[p].next >= 0 && 0 <= r.top < |r.v| && Top(Nexts(r.v), h', p) == r.top
  }

  /** The next links and values of w are those of v, but for flooded pixels relinked to flooded pixels. */
  ghost predicate SameFlood(v: seq<Vertex>, w: seq<Vertex>) {
    && |w| == |v|
    && forall k :: 0 <= k < |v| ==> w[k].value == v[k].value && (w[k].next >= 0 <==> v[k].next >= 0)
  }

  lemma LinkFrame(v: seq<Vertex>, a: int, b: int)
    requires 0 <= a < |v| && 0 <= b < |v| && v[a].next >= 0
    ensures SameFlood(v, LinkV(v, a, b))
    ensures forall k :: 0 <= k < |v| ==> LinkV(v, a, b)[k].edge == v[k].edge
  {
  }

  lemma JoinFrame(v: seq<Vertex>, p: int, t: int)
    requires 0 <= p < |v| && 0 <= t < |v| && v[p].next >= 0
    ensures SameFlood(v, JoinV(v, p, t))
    ensures forall k :: 0 <= k < |v| ==> JoinV(v, p, t)[k].edge == v[k].edge
  {
  }

  lemma RecordFrame(nx: nat, ny: nat, v: seq<Vertex>, w: seq<Vertex>, edges: seq<Edge>, p: int, d: int, t: int)
    requires |v| == nx * ny && 0 <= p < |v| && 0 <= d < 4 && Nb(nx, ny, p, d) >= 0 && FourSlots(v)
    requires SameFlood(v, w) && forall k :: 0 <= k < |v| ==> w[k].edge == v[k].edge
    ensures var r := Record(nx, ny, w, edges, p, d, t);
            && SameFlood(v, r.v) && FourSlots(r.v)
            && (forall d' :: 0 <= d' < 4 && d' != d ==> r.v[p].edge[d'] == v[p].edge[d'])
  {
    NbDistinct(nx, ny, p, d, if d == 0 then 1 else 0);
  }

  /**
   * A union step changes no value and floods nothing, and of p's slots it
   * writes slot d at most.
   */
  lemma UniteFrame(nx: nat, ny: nat, v: seq<Vertex>, edges: seq<Edge>, p: int, d: int,
                   mergeThreshold: int, anotherTop: int, t: int)
    requires |v| == nx * ny && 0 <= p < |v| && 0 <= d < 4 && Nb(nx, ny, p, d) >= 0 && 0 <= t < |v|
    requires FourSlots(v) && (anotherTop != -1 ==> 0 <= anotherTop < |v| && v[anotherTop].next >= 0)
    requires v[p].next >= 0 && v[t].next >= 0
    ensures var r := UniteV(nx, ny, v, edges, p, d, mergeThreshold, anotherTop, t);
            && SameFlood(v, r.v) && FourSlots(r.v)
            && (forall d' :: 0 <= d' < 4 && d' != d ==> r.v[p].edge[d'] == v[p].edge[d'])
            && Flooded(Nexts(r.v)) == Flooded(Nexts(v))
  {
    var r := UniteV(nx, ny, v, edges, p, d, mergeThreshold, anotherTop, t);
    if anotherTop == -1 {
      JoinFrame(v, p, t);
      RecordFrame(nx, ny, v, JoinV(v, p, t), edges, p, d, t);
    } else if anotherTop == t || (v[t].size >= mergeThreshold && v[anotherTop].size >= mergeThreshold) {
    } else if v[t].value > v[anotherTop].value {
      LinkFrame(v, anotherTop, t);
      RecordFrame(nx, ny, v, LinkV(v, anotherTop, t), edges, p, d, t);
    } else {
      LinkFrame(v, t, anotherTop);
      RecordFrame(nx, ny, v, LinkV(v, t, anotherTop), edges, p, d, anotherTop);
    }
    assert Flooded(Nexts(r.v)) == Flooded(Nexts(v));
  }

  /** Recording the edge (p, q) once p and q share the root b keeps the invariant. */
  lemma {:induction false} RecordStep(img: seq<seq<real>>, nx: nat, ny: nat, v1: seq<Vertex>,
                                      edges: seq<Edge>, h1: seq<nat>, p: int, d: int, b: int)
    requires GraphCore(img, nx, ny, v1, edges, h1)
    requires |edges| + 1 + |Roots(Nexts(v1))| == |Flooded(Nexts(v1))|
    requires 0 <= p < |v1| && 0 <= d < 4 && v1[p].next >= 0 && v1[p].edge[d] == None
    requires Nb(nx, ny, p, d) >= 0 && v1[Nb(nx, ny, p, d)].next >= 0 && v1[p].value <= v1[Nb(nx, ny, p, d)].value
    requires 0 <= b < |v1| && Top(Nexts(v1), h1, p) == b == Top(Nexts(v1), h1, Nb(nx, ny, p, d))
    ensures UnitePost(img, nx, ny, p, Record(nx, ny, v1, edges, p, d, b), h1)
  {
    var q := Nb(nx, ny, p, d);
    AddEdgeStep(img, nx, ny, v1, edges, h1, p, d);
    var r := Record(nx, ny, v1, edges, p, d, b);
    assert r.v == SetSlots(v1, p, q, d, |edges|);
    assert Nexts(r.v) == Nexts(v1);
  }

  /** Linking root a under root b and recording the edge (p, q) keeps the invariant. */
  lemma {:induction false} LinkRecord(img: seq<seq<real>>, nx: nat, ny: nat, v: seq<Vertex>, edges: seq<Edge>,
                                      h: seq<nat>, p: int, d: int, a: int, b: int)
    requires GraphInv(img, nx, ny, v, edges, h)
    requires 0 <= a < |v| && 0 <= b < |v| && a != b && v[a].next == a && v[b].next == b && v[a].value <= v[b].value
    requires 0 <= p < |v| && 0 <= d < 4 && v[p].next >= 0 && v[p].edge[d] == None
    requires Nb(nx, ny, p, d) >= 0 && v[Nb(nx, ny, p, d)].next >= 0 && v[p].value <= v[Nb(nx, ny, p, d)].value
    requires || (Top(Nexts(v), h, p) == a && Top(Nexts(v), h, Nb(nx, ny, p, d)) == b)
             || (Top(Nexts(v), h, p) == b && Top(Nexts(v), h, Nb(nx, ny, p, d)) == a)
    ensures UnitePost(img, nx, ny, p, Record(nx, ny, LinkV(v, a, b), edges, p, d, b), Raise(h, a, b))
  {
    LinkStep(img, nx, ny, v, edges, h, a, b);
    RecordStep(img, nx, ny, LinkV(v, a, b), edges, Raise(h, a, b), p, d, b);
  }

  /** The new pixel p, a cluster of its own, joining the cluster of its neighbour keeps the invariant. */
  lemma {:induction false} JoinCase(img: seq<seq<real>>, nx: nat, ny: nat, v: seq<Vertex>, edges: seq<Edge>, h: seq<nat>,
                                    p: int, d: int, mergeThreshold: int)
    requires UnitePre(img, nx, ny, v, edges, h, p, d, -1)
    ensures var t := Top(Nexts(v), h, Nb(nx, ny, p, d));
            UnitePost(img, nx, ny, p, UniteV(nx, ny, v, edges, p, d, mergeThreshold, -1, t),
                      UniteH(h, v, p, mergeThreshold, -1, t))
  {
    var q := Nb(nx, ny, p, d);
    var t := Top(Nexts(v), h, q);
    assert t != p by {
      assert q in Members(Nexts(v), h, t);
      NbDistinct(nx, ny, p, d, if d == 0 then 1 else 0);
    }
    assert v[p].size == 1;
    assert JoinV(v, p, t) == LinkV(v, p, t);
    LinkRecord(img, nx, ny, v, edges, h, p, d, p, t);
  }

  /** Merging the cluster of p with the different cluster of its neighbour keeps the invariant. */
  lemma {:induction false} MergeCase(img: seq<seq<real>>, nx: nat, ny: nat, v: seq<Vertex>, edges: seq<Edge>, h: seq<nat>,
                                     p: int, d: int, mergeThreshold: int, anotherTop: int)
    requires UnitePre(img, nx, ny, v, edges, h, p, d, anotherTop) && anotherTop != -1
    requires anotherTop != Top(Nexts(v), h, Nb(nx, ny, p, d))
    ensures var t := Top(Nexts(v), h, Nb(nx, ny, p, d));
            UnitePost(img, nx, ny, p, UniteV(nx, ny, v, edges, p, d, mergeThreshold, anotherTop, t),
                      UniteH(h, v, p, mergeThreshold, anotherTop, t))
  {
    var t := Top(Nexts(v), h, Nb(nx, ny, p, d));
    if v[t].size >= mergeThreshold && v[anotherTop].size >= mergeThreshold {
    } else if v[t].value > v[anotherTop].value {
      LinkRecord(img, nx, ny, v, edges, h, p, d, anotherTop, t);
    } else {
      LinkRecord(img, nx, ny, v, edges, h, p, d, t, anotherTop);
    }
  }

  /** A union step keeps the invariant of the pixel graph. */
  lemma {:induction false} UniteStep(img: seq<seq<real>>, nx: nat, ny: nat, v: seq<Vertex>, edges: seq<Edge>, h: seq<nat>,
                                     p: int, d: int, mergeThreshold: int, anotherTop: int)
    requires UnitePre(img, nx, ny, v, edges, h, p, d, anotherTop)
    ensures var t := Top(Nexts(v), h, Nb(nx, ny, p, d));
            UnitePost(img, nx, ny, p, UniteV(nx, ny, v, edges, p, d, mergeThreshold, anotherTop, t),
                      UniteH(h, v, p, mergeThreshold, anotherTop, t))
  {
    if anotherTop == -1 {
      JoinCase(img, nx, ny, v, edges, h, p, d, mergeThreshold);
    } else if anotherTop != Top(Nexts(v), h, Nb(nx, ny, p, d)) {
      MergeCase(img, nx, ny, v, edges, h, p, d, mergeThreshold, anotherTop);
    }
  }

  /** Lines 142-143: p, dry and no higher than any flooded pixel, rises as a cluster of its own, with no edges yet. */
  lemma RiseStart(img: seq<seq<real>>, nx: nat, ny: nat, v: seq<Vertex>, edges: seq<Edge>, h: seq<nat>, p: int)
    requires GraphInv(img, nx, ny, v, edges, h) && 0 <= p < |v| && v[p].next < 0
    requires forall k :: 0 <= k < |v| && v[k].next >= 0 ==> v[p].value <= v[k].value
    ensures PixelInv(img, nx, ny, Flood(v, p), edges, h, p, -1) && Flood(v, p)[p].edge == NoEdges
    ensures Flooded(Nexts(Flood(v, p))) == Flooded(Nexts(v)) + {p}
  {
    FloodStep(img, nx, ny, v, edges, h, p);
    FloodPixel(img, nx, ny, v, edges, h, p);
  }

  /**
   * Flooding p, lowest of the flooded pixels so far, as a cluster of its own
   * starts the visit of its neighbours.
   */
  lemma FloodPixel(img: seq<seq<real>>, nx: nat, ny: nat, v: seq<Vertex>, edges: seq<Edge>, h: seq<nat>, p: int)
    requires 0 <= p < |v| && v[p].next < 0 && Forest(Nexts(v), h)
    requires GraphInv(img, nx, ny, Flood(v, p), edges, h)
    requires forall k :: 0 <= k < |v| && v[k].next >= 0 ==> v[p].value <= v[k].value
    ensures PixelInv(img, nx, ny, Flood(v, p), edges, h, p, -1)
  {
    FloodAlone(v, h, p);
    FloodLowest(v, p);
  }

  /** p, no higher than any flooded pixel, stays so once flooded itself. */
  lemma FloodLowest(v: seq<Vertex>, p: int)
    requires 0 <= p < |v| && forall k :: 0 <= k < |v| && v[k].next >= 0 ==> v[p].value <= v[k].value
    ensures forall k :: 0 <= k < |v| && Flood(v, p)[k].next >= 0 ==> Flood(v, p)[p].value <= Flood(v, p)[k].value
  {
  }

  /** A pixel just flooded is a cluster of its own. */
  lemma FloodAlone(v: seq<Vertex>, h: seq<nat>, p: int)
    requires Forest(Nexts(v), h) && 0 <= p < |v| && v[p].next < 0
    ensures Forest(Nexts(Flood(v, p)), h) && Members(Nexts(Flood(v, p)), h, p) == {p}
  {
    FloodNew(Nexts(v), h, p);
    assert Nexts(Flood(v, p)) == Nexts(v)[p := p];
  }

  /**
   * Visiting a flooded neighbour in direction d: its slot toward p is free
   * (the check of lines 182 and 216), and the union step keeps the visit's
   * invariant, floods nothing and writes no other slot of p.
   */
  lemma VisitStep(img: seq<seq<real>>, nx: nat, ny: nat, v: seq<Vertex>, edges: seq<Edge>, h: seq<nat>,
                  p: int, d: int, mergeThreshold: int, anotherTop: int)
    requires UnitePre(img, nx, ny, v, edges, h, p, d, anotherTop)
    ensures v[Nb(nx, ny, p, d)].edge[Opp(d)] == None
    ensures var t := Top(Nexts(v), h, Nb(nx, ny, p, d));
            var r := UniteV(nx, ny, v, edges, p, d, mergeThreshold, anotherTop, t);
            && PixelInv(img, nx, ny, r.v, r.edges, UniteH(h, v, p, mergeThreshold, anotherTop, t), p, r.top)
            && Flooded(Nexts(r.v)) == Flooded(Nexts(v))
            && (forall d' :: 0 <= d' < 4 && d' != d ==> r.v[p].edge[d'] == v[p].edge[d'])
  {
    var t := Top(Nexts(v), h, Nb(nx, ny, p, d));
    NeighbourSlotFree(nx, ny, v, edges, h, p, d);
    UniteStep(img, nx, ny, v, edges, h, p, d, mergeThreshold, anotherTop);
    UniteFrame(nx, ny, v, edges, p, d, mergeThreshold, anotherTop, t);
    var r := UniteV(nx, ny, v, edges, p, d, mergeThreshold, anotherTop, t);
    PixelAfter(img, nx, ny, v, r, UniteH(h, v, p, mergeThreshold, anotherTop, t), p);
  }

  /** A step that keeps the invariant, the values and the flooded pixels keeps p lowest. */
  lemma PixelAfter(img: seq<seq<real>>, nx: nat, ny: nat, v: seq<Vertex>, r: Step, h': seq<nat>, p: int)
    requires UnitePost(img, nx, ny, p, r, h') && SameFlood(v, r.v)
    requires forall k :: 0 <= k < |v| && v[k].next >= 0 ==> v[p].value <= v[k].value
    ensures PixelInv(img, nx, ny, r.v, r.edges, h', p, r.top)
  {
    assert forall k :: 0 <= k < |r.v| && r.v[k].next >= 0 ==> v[k].next >= 0 && r.v[k].value == v[k].value;
  }
}
