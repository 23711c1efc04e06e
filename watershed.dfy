/**
 * The watershed graph builder of `py_watershed.cpp`: pixels are flooded
 * from the highest value down, each new pixel joins or merges the clusters
 * of its flooded neighbours, and every union is recorded as an edge.
 */
module Watershed {
  import opened Grid
  import opened UnionFind
  import opened Graph
  import opened WatershedInv
  import opened Seqs
  import opened Walks
  import opened WatershedLinks

  /** The pixels at argsort positions i + 1 .. |order| - 1: those flooded while the loop is at i. */
  ghost function Dry(order: seq<int>, i: int): set<int> {
    set j | 0 <= j && i < j < |order| :: order[j]
  }

  /**
   * The sizes `obtain_cluster_sizes` reports from the first m vertices: in
   * index order, the size of every root whose value is at least
   * pixelThreshold and whose size is at least sizeThreshold.
   */
  function RootSizes(v: seq<Vertex>, pixelThreshold: real, sizeThreshold: int, m: nat): seq<int>
    requires m <= |v|
  {
    if m == 0 then []
    else
      var p := v[m - 1];
      RootSizes(v, pixelThreshold, sizeThreshold, m - 1) +
      (if p.next == m - 1 && p.value >= pixelThreshold && p.size >= sizeThreshold then [p.size] else [])
  }

  /** The roots among the first m vertices that pass both thresholds. */
  ghost function ReportedRoots(v: seq<Vertex>, pixelThreshold: real, sizeThreshold: int, m: nat): set<int> {
    set k | 0 <= k < m && k < |v| && v[k].next == k && v[k].value >= pixelThreshold && v[k].size >= sizeThreshold
  }

  /**
   * One size is reported per root passing both thresholds, and each
   * reported size passes the size threshold.
   */
  lemma {:induction false} RootSizesCount(v: seq<Vertex>, pixelThreshold: real, sizeThreshold: int, m: nat)
    requires m <= |v|
    ensures |RootSizes(v, pixelThreshold, sizeThreshold, m)| == |ReportedRoots(v, pixelThreshold, sizeThreshold, m)|
    ensures forall x :: x in RootSizes(v, pixelThreshold, sizeThreshold, m) ==> x >= sizeThreshold
  {
    if m > 0 {
      RootSizesCount(v, pixelThreshold, sizeThreshold, m - 1);
      var before := ReportedRoots(v, pixelThreshold, sizeThreshold, m - 1);
      var p := v[m - 1];
      if p.next == m - 1 && p.value >= pixelThreshold && p.size >= sizeThreshold {
        assert ReportedRoots(v, pixelThreshold, sizeThreshold, m) == before + {m - 1};
        assert m - 1 !in before;
      } else {
        assert ReportedRoots(v, pixelThreshold, sizeThreshold, m) == before;
      }
    }
  }

  /**
   * When every flooded pixel passes pixelThreshold and sizeThreshold is at
   * most 1, the reported sizes add up to the number of flooded pixels:
   * each root reports the size of its own cluster.
   */
  lemma SizesCoverFlooded(v: seq<Vertex>, h: seq<nat>, pixelThreshold: real, sizeThreshold: int)
    requires UF(v, h) && sizeThreshold <= 1
    requires forall k :: 0 <= k < |v| && v[k].next >= 0 ==> v[k].value >= pixelThreshold
    ensures Sum(RootSizes(v, pixelThreshold, sizeThreshold, |v|)) == |Flooded(Nexts(v))|
  {
    RootSizesSum(v, h, pixelThreshold, sizeThreshold, |v|);
    SizesSumToFlooded(Nexts(v), h, Sizes(v));
  }

  lemma {:induction false} RootSizesSum(v: seq<Vertex>, h: seq<nat>, pixelThreshold: real, sizeThreshold: int, m: nat)
    requires UF(v, h) && sizeThreshold <= 1 && m <= |v|
    requires forall k :: 0 <= k < |v| && v[k].next >= 0 ==> v[k].value >= pixelThreshold
    ensures Sum(RootSizes(v, pixelThreshold, sizeThreshold, m)) == RootSizeSum(Nexts(v), Sizes(v), m)
  {
    if m > 0 {
      RootSizesSum(v, h, pixelThreshold, sizeThreshold, m - 1);
      var rest := RootSizes(v, pixelThreshold, sizeThreshold, m - 1);
      var k := m - 1;
      if v[k].next == k {
        assert k in Members(Nexts(v), h, k) by {
          TopStep(Nexts(v), h, k);
        }
        assert v[k].size >= 1;
        assert RootSizes(v, pixelThreshold, sizeThreshold, m) == rest + [v[k].size];
      } else {
        assert RootSizes(v, pixelThreshold, sizeThreshold, m) == rest;
      }
    }
  }

  /** The j-th direction visited when the visit starts in direction r. */
  function Turn(r: int, j: int): (d: int)
    requires 0 <= r < 4 && 0 <= j < 4
    ensures 0 <= d < 4 && (d - r) % 4 == j
  {
    (r + j) % 4
  }

  /**
   * The slots lines 173, 184-185 and 218-219 write for the union found at
   * step j1 of a visit: slot j1 of the new pixel and slot (j1 + 2) % 4 of
   * the neighbour, the loop counter rather than the direction (r + j1) % 4
   * in which the neighbour lies.
   */
  function SlotsAsWritten(r: int, j1: int): (int, int) {
    (j1, (j1 + 2) % 4)
  }

  /** The slots this model writes: the direction of the neighbour and its opposite. */
  function SlotsByDirection(r: int, j1: int): (int, int)
    requires 0 <= r < 4 && 0 <= j1 < 4
  {
    (Turn(r, j1), Opp(Turn(r, j1)))
  }

  /** The slots as written agree with the directions exactly when the visit starts in direction 0. */
  lemma SlotsAgree(r: int, j1: int)
    requires 0 <= r < 4 && 0 <= j1 < 4
    ensures SlotsAsWritten(r, j1) == SlotsByDirection(r, j1) <==> r == 0
  {
  }

  /**
   * On the 2 by 2 image [[3, 2], [4, 1]], with argsort [3, 1, 0, 2] and the
   * random directions 1 for pixel 0 and 0 for pixel 1, pixel 0 unites with
   * pixel 2 at step 0 and pixel 1 unites with pixel 0 at step 2; as written
   * both edges go to slot 0 of pixel 0, and the second write trips the
   * assertion of line 182.  By direction they go to slots 1 and 0.
   */
  lemma SlotCollision()
    ensures IsGrid([[3.0, 2.0], [4.0, 1.0]], 2, 2) && IsArgsort([[3.0, 2.0], [4.0, 1.0]], 2, 2, [3, 1, 0, 2])
    ensures Nb(2, 2, 0, Turn(1, 0)) == 2 && Nb(2, 2, 1, Turn(0, 2)) == 0
    ensures SlotsAsWritten(1, 0).0 == SlotsAsWritten(0, 2).1 == 0
    ensures SlotsByDirection(1, 0).0 == 1 && SlotsByDirection(0, 2).1 == 0
  {
    SmallArgsort();
    assert Turn(1, 0) == 1 && Turn(0, 2) == 2;
  }

  /** [3, 1, 0, 2] is the ascending argsort of the 2 by 2 image [[3, 2], [4, 1]]. */
  lemma SmallArgsort()
    ensures IsGrid([[3.0, 2.0], [4.0, 1.0]], 2, 2) && IsArgsort([[3.0, 2.0], [4.0, 1.0]], 2, 2, [3, 1, 0, 2])
  {
    var img := [[3.0, 2.0], [4.0, 1.0]];
    assert Flat(img) == [3.0, 2.0, 4.0, 1.0] by {
      assert Flat(img[1..]) == [4.0, 1.0] + Flat(img[2..]);
    }
    assert Value(img, 2, 2, 3) == 1.0 && Value(img, 2, 2, 1) == 2.0 && Value(img, 2, 2, 0) == 3.0 && Value(img, 2, 2, 2) == 4.0;
    assert [3, 1, 0, 2][0] == 3 && [3, 1, 0, 2][1] == 1 && [3, 1, 0, 2][2] == 0 && [3, 1, 0, 2][3] == 2;
  }

  /** The four directions of a visit are four different slots. */
  lemma TurnDistinct(r: int, a: int, b: int)
    requires 0 <= r < 4 && 0 <= a < b < 4
    ensures Turn(r, a) != Turn(r, b)
  {
  }

  /** Every direction d is reached at some step of a visit starting at r. */
  lemma TurnOnto(r: int, d: int)
    requires 0 <= r < 4 && 0 <= d < 4
    ensures 0 <= (d - r) % 4 < 4 && Turn(r, (d - r) % 4) == d
  {
    if d >= r {
      assert (d - r) % 4 == d - r;
    } else {
      assert (d - r) % 4 == d - r + 4;
    }
  }

  /** The directions a visit starting at r has taken in its first j steps. */
  ghost function Turns(r: int, j: int): set<int>
    requires 0 <= r < 4 && 0 <= j <= 4
  {
    if j == 0 then {} else Turns(r, j - 1) + {Turn(r, j - 1)}
  }

  /** The four steps of a visit take every direction. */
  lemma {:induction false} TurnsAll(r: int)
    requires 0 <= r < 4
    ensures forall d :: 0 <= d < 4 ==> d in Turns(r, 4)
  {
    forall d | 0 <= d < 4
      ensures d in Turns(r, 4)
    {
      TurnOnto(r, d);
      var k := (d - r) % 4;
      TurnsHas(r, k, 4);
    }
  }

  /** Step k of a visit is among its first j steps when k < j. */
  lemma {:induction false} TurnsHas(r: int, k: int, j: int)
    requires 0 <= r < 4 && 0 <= k < j <= 4
    ensures Turn(r, k) in Turns(r, j)
    decreases j
  {
    if k < j - 1 {
      TurnsHas(r, k, j - 1);
    }
  }

  /**
   * order[i] is not flooded yet while the loop is at i, and it is no higher
   * than any pixel that is: the water level only goes down.
   */
  lemma DryLowest(img: seq<seq<real>>, nx: nat, ny: nat, order: seq<int>, i: int)
    requires IsGrid(img, nx, ny) && IsArgsort(img, nx, ny, order) && 0 <= i < |order|
    ensures order[i] !in Dry(order, i)
    ensures forall k :: k in Dry(order, i) ==> 0 <= k < nx * ny && Value(img, nx, ny, order[i]) <= Value(img, nx, ny, k)
  {
    forall k | k in Dry(order, i)
      ensures 0 <= k < nx * ny && Value(img, nx, ny, order[i]) <= Value(img, nx, ny, k)
    {
      var j :| i < j < |order| && order[j] == k;
    }
  }

  /** Vertices flooded exactly at the positions past i hold the pixels at or above the threshold. */
  lemma FloodedAbove(img: seq<seq<real>>, nx: nat, ny: nat, v: seq<Vertex>, order: seq<int>, i: int, threshold: real)
    requires IsGrid(img, nx, ny) && IsArgsort(img, nx, ny, order) && |v| == nx * ny && -1 <= i < |order|
    requires Flooded(Nexts(v)) == Dry(order, i)
    requires i >= 0 ==> Value(img, nx, ny, order[i]) < threshold
    requires forall j :: i < j < |order| ==> Value(img, nx, ny, order[j]) >= threshold
    ensures forall k :: 0 <= k < |v| ==> (v[k].next >= 0 <==> Value(img, nx, ny, k) >= threshold)
  {
    ThresholdSplit(img, nx, ny, order, i, threshold);
    assert forall k :: 0 <= k < |v| ==> (v[k].next >= 0 <==> k in Flooded(Nexts(v)));
  }

  /** Position i at or above the threshold extends the run of such positions down to i. */
  lemma AboveStep(img: seq<seq<real>>, nx: nat, ny: nat, order: seq<int>, i: int, threshold: real)
    requires IsGrid(img, nx, ny) && IsArgsort(img, nx, ny, order) && 0 <= i < |order|
    requires Value(img, nx, ny, order[i]) >= threshold
    requires forall j :: i < j < |order| ==> Value(img, nx, ny, order[j]) >= threshold
    ensures forall j :: i - 1 < j < |order| ==> Value(img, nx, ny, order[j]) >= threshold
  {
  }

  /** The pixel at argsort position i is still under water and no higher than any flooded pixel. */
  lemma RisePre(img: seq<seq<real>>, nx: nat, ny: nat, v: seq<Vertex>, edges: seq<Edge>, h: seq<nat>,
                order: seq<int>, i: int)
    requires GraphInv(img, nx, ny, v, edges, h) && IsArgsort(img, nx, ny, order) && 0 <= i < |order|
    requires Flooded(Nexts(v)) == Dry(order, i)
    ensures 0 <= order[i] < |v| && v[order[i]].next < 0
    ensures forall k :: 0 <= k < |v| && v[k].next >= 0 ==> v[order[i]].value <= v[k].value
  {
    DryLowest(img, nx, ny, order, i);
    assert forall k :: 0 <= k < |v| && v[k].next >= 0 ==> k in Flooded(Nexts(v));
  }

  /** Stepping the loop down from i to i - 1 floods order[i]. */
  lemma DryStep(order: seq<int>, i: int)
    requires 0 <= i < |order|
    ensures Dry(order, i - 1) == Dry(order, i) + {order[i]}
  {
  }

  /**
   * When the loop stops at i, the pixel there below the threshold (or i =
   * -1), the flooded pixels are exactly those at or above the threshold.
   */
  lemma ThresholdSplit(img: seq<seq<real>>, nx: nat, ny: nat, order: seq<int>, i: int, threshold: real)
    requires IsGrid(img, nx, ny) && IsArgsort(img, nx, ny, order) && -1 <= i < |order|
    requires i >= 0 ==> Value(img, nx, ny, order[i]) < threshold
    requires forall j :: i < j < |order| ==> Value(img, nx, ny, order[j]) >= threshold
    ensures forall k :: 0 <= k < nx * ny ==> (k in Dry(order, i) <==> Value(img, nx, ny, k) >= threshold)
  {
    forall k | 0 <= k < nx * ny
      ensures k in Dry(order, i) <==> Value(img, nx, ny, k) >= threshold
    {
      assert k in order;
      var a :| 0 <= a < |order| && order[a] == k;
      if a <= i {
        assert Value(img, nx, ny, k) <= Value(img, nx, ny, order[i]);
        assert k !in Dry(order, i);
      }
    }
  }

  /** The state of the builder: the image size, the vertices and the recorded edges. */
  class Watershed {
    var nx: nat
    var ny: nat
    var pixels: array<Vertex>
    var edges: seq<Edge>
    var sizes: seq<int>
    /** The image the graph was built from. */
    ghost var img: seq<seq<real>>
    /** Heights of the union-find forest, for termination of root lookups. */
    ghost var h: seq<nat>

    ghost predicate Valid()
      reads this, pixels
    {
      GraphInv(img, nx, ny, pixels[..], edges, h)
    }

    /** The `next` links of the vertices. */
    ghost function Next(): seq<int>
      reads this, pixels
    {
      Nexts(pixels[..])
    }

    /** `Watershed()` (lines 69-75): an empty image with no vertices and no edges. */
    constructor ()
      ensures Valid() && nx == 0 && ny == 0 && pixels.Length == 0 && edges == [] && sizes == []
    {
      nx, ny := 0, 0;
      pixels := new Vertex[0];
      edges, sizes := [], [];
      img, h := [], [];
      new;
      InitialGraph([], 0, 0, pixels[..], []);
    }

    /**
     * Lines 181-189 and 215-223: the free slot d of p and the opposite slot
     * of its neighbour q both receive the index of the new edge (p, q),
     * weighted f1, which is appended to the edges.
     */
    method RecordEdge(p: int, d: int, f1: real)
      requires pixels.Length == nx * ny && 0 <= p < pixels.Length && 0 <= d < 4 && Nb(nx, ny, p, d) >= 0
      requires |pixels[p].edge| == 4 && |pixels[Nb(nx, ny, p, d)].edge| == 4 && f1 == pixels[p].value
      requires pixels[p].edge[d] == None && pixels[Nb(nx, ny, p, d)].edge[Opp(d)] == None
      modifies this, pixels
      ensures pixels == old(pixels) && nx == old(nx) && ny == old(ny) && img == old(img) && sizes == old(sizes) && h == old(h)
      ensures Step(pixels[..], edges, 0) == old(Record(nx, ny, pixels[..], edges, p, d, 0))
    {
      var q := Nb(nx, ny, p, d);
      ghost var v1 := pixels[..];
      var n := |edges|;
      pixels[p] := pixels[p].(edge := pixels[p].edge[d := n]);
      pixels[q] := pixels[q].(edge := pixels[q].edge[Opp(d) := n]);
      assert pixels[..] == SetSlots(v1, p, q, d, n);
      edges := edges + [Edge((p, q), f1)];
    }

    /** Lines 176-177, the writes: p goes under root t, whose size grows by one. */
    method JoinWrite(p: int, t: int)
      requires 0 <= p < pixels.Length && 0 <= t < pixels.Length
      modifies pixels
      ensures pixels[..] == JoinV(old(pixels[..]), p, t)
    {
      pixels[p] := pixels[p].(next := t);
      pixels[t] := pixels[t].(size := pixels[t].size + 1);
    }

    /** Lines 199-200 and 206-207, the writes: root a goes under root b, which takes over its size. */
    method LinkWrite(a: int, b: int)
      requires 0 <= a < pixels.Length && 0 <= b < pixels.Length
      modifies pixels
      ensures pixels[..] == LinkV(old(pixels[..]), a, b)
    {
      pixels[a] := pixels[a].(next := b);
      pixels[b] := pixels[b].(size := pixels[b].size + pixels[a].size);
    }

    /**
     * The union step of lines 171-224 for the new pixel p, of value f1, and
     * its flooded neighbour q in direction d, as UniteV describes it.  The
     * two slots it writes are free, as lines 181-182 and 215-216 check.
     */
    method Unite(p: int, d: int, f1: real, mergeThreshold: int, anotherTop: int) returns (top': int)
      requires Forest(Next(), h) && pixels.Length == nx * ny && FourSlots(pixels[..])
      requires 0 <= p < pixels.Length && 0 <= d < 4 && Nb(nx, ny, p, d) >= 0 && pixels[Nb(nx, ny, p, d)].next >= 0
      requires pixels[p].next >= 0 && (anotherTop != -1 ==> 0 <= anotherTop < pixels.Length && pixels[anotherTop].next >= 0)
      requires f1 == pixels[p].value && pixels[p].edge[d] == None && pixels[Nb(nx, ny, p, d)].edge[Opp(d)] == None
      modifies this, pixels
      ensures pixels == old(pixels) && nx == old(nx) && ny == old(ny) && img == old(img) && sizes == old(sizes)
      ensures Step(pixels[..], edges, top') ==
              old(UniteV(nx, ny, pixels[..], edges, p, d, mergeThreshold, anotherTop, Top(Next(), h, Nb(nx, ny, p, d))))
      ensures h == old(UniteH(h, pixels[..], p, mergeThreshold, anotherTop, Top(Next(), h, Nb(nx, ny, p, d))))
    {
      ghost var v0 := pixels[..];
      var q := Nb(nx, ny, p, d);
      var top := GetTop(q, pixels, h);
      top' := anotherTop;
      if anotherTop == -1 {
        JoinWrite(p, top);
        JoinFrame(v0, p, top);
        h := Raise(h, p, top);
        top' := top;
      } else if anotherTop != top {
        if pixels[top].size >= mergeThreshold && pixels[anotherTop].size >= mergeThreshold {
          return;
        }
        if pixels[top].value > pixels[anotherTop].value {
          LinkWrite(anotherTop, top);
          LinkFrame(v0, anotherTop, top);
          h := Raise(h, anotherTop, top);
          top' := top;
        } else {
          LinkWrite(top, anotherTop);
          LinkFrame(v0, top, anotherTop);
          h := Raise(h, top, anotherTop);
        }
      } else {
        return;
      }
      assert pixels[p].edge[d] == None && pixels[q].edge[Opp(d)] == None;
      RecordEdge(p, d, f1);
    }

    /**
     * One pass of the loop of lines 150-223: the neighbour of the new pixel
     * p in direction d is skipped when it lies outside the image or under
     * water, and is united with p by Unite otherwise.
     */
    method Visit(p: int, f1: real, d: int, mergeThreshold: int, anotherTop: int, ghost done: set<int>) returns (top': int)
      requires PixelInv(img, nx, ny, pixels[..], edges, h, p, anotherTop)
      requires VisitLinks(nx, ny, pixels[..], edges, h, mergeThreshold, p, done)
      requires 0 <= d < 4 && pixels[p].edge[d] == None && f1 == pixels[p].value
      modifies this, pixels
      ensures pixels == old(pixels) && nx == old(nx) && ny == old(ny) && img == old(img) && sizes == old(sizes)
      ensures PixelInv(img, nx, ny, pixels[..], edges, h, p, top')
      ensures VisitLinks(nx, ny, pixels[..], edges, h, mergeThreshold, p, done + {d})
      ensures Flooded(Next()) == old(Flooded(Next()))
      ensures forall d' :: 0 <= d' < 4 && d' != d ==> pixels[p].edge[d'] == old(pixels[p].edge[d'])
    {
      top' := anotherTop;
      SplitIndex(p, nx, ny);
      var ix1, iy1 := p / ny, p % ny;
      var ix2, iy2 := ix1 + DX[d], iy1 + DY[d];
      if !(0 <= ix2 < nx && 0 <= iy2 < ny) {
        SkipLinks(nx, ny, pixels[..], edges, h, mergeThreshold, p, done, d);
        return;
      }
      var index2 := ix2 * ny + iy2;
      assert index2 == Nb(nx, ny, p, d);
      if pixels[index2].next < 0 {
        SkipLinks(nx, ny, pixels[..], edges, h, mergeThreshold, p, done, d);
        return;
      }
      ghost var v0, e0, h0 := pixels[..], edges, h;
      VisitStep(img, nx, ny, v0, e0, h0, p, d, mergeThreshold, anotherTop);
      UniteFactsOf(img, nx, ny, v0, e0, h0, p, d, anotherTop);
      top' := Unite(p, d, f1, mergeThreshold, anotherTop);
      UnitedLinks(nx, ny, v0, e0, h0, p, d, mergeThreshold, anotherTop, done, pixels[..], edges, h, top');
    }

    /**
     * The loop of lines 150-223 over the four neighbours of the new pixel p,
     * of value f1, starting in direction r.
     */
    method VisitNeighbours(p: int, f1: real, r: int, mergeThreshold: int)
      requires PixelInv(img, nx, ny, pixels[..], edges, h, p, -1) && pixels[p].edge == NoEdges
      requires VisitLinks(nx, ny, pixels[..], edges, h, mergeThreshold, p, {})
      requires f1 == pixels[p].value && 0 <= r < 4
      modifies this, pixels
      ensures pixels == old(pixels) && nx == old(nx) && ny == old(ny) && img == old(img) && sizes == old(sizes)
      ensures Valid() && Flooded(Next()) == old(Flooded(Next()))
      ensures BuildLinks(nx, ny, pixels[..], edges, h, mergeThreshold)
    {
      var anotherTop := -1;
      for j1 := 0 to 4
        invariant pixels == old(pixels) && nx == old(nx) && ny == old(ny) && img == old(img) && sizes == old(sizes)
        invariant PixelInv(img, nx, ny, pixels[..], edges, h, p, anotherTop)
        invariant VisitLinks(nx, ny, pixels[..], edges, h, mergeThreshold, p, Turns(r, j1))
        invariant Flooded(Next()) == old(Flooded(Next()))
        invariant forall k :: j1 <= k < 4 ==> pixels[p].edge[Turn(r, k)] == None
      {
        anotherTop := Visit(p, f1, Turn(r, j1), mergeThreshold, anotherTop, Turns(r, j1));
        forall k | j1 < k < 4
          ensures pixels[p].edge[Turn(r, k)] == None
        {
          TurnDistinct(r, j1, k);
        }
      }
      TurnsAll(r);
      CloseLinks(nx, ny, pixels[..], edges, h, mergeThreshold, p, Turns(r, 4));
    }

    /**
     * Lines 134-223 for one pixel: p, lowest of the pixels above water, is
     * flooded as a cluster of its own and visits its neighbours.
     */
    method Rise(p: int, f1: real, r: int, mergeThreshold: int)
      requires Valid() && 0 <= p < pixels.Length && pixels[p].next < 0 && f1 == pixels[p].value && 0 <= r < 4
      requires forall k :: 0 <= k < pixels.Length && pixels[k].next >= 0 ==> f1 <= pixels[k].value
      requires BuildLinks(nx, ny, pixels[..], edges, h, mergeThreshold)
      modifies this, pixels
      ensures pixels == old(pixels) && nx == old(nx) && ny == old(ny) && img == old(img) && sizes == old(sizes)
      ensures Valid() && Flooded(Next()) == old(Flooded(Next())) + {p}
      ensures BuildLinks(nx, ny, pixels[..], edges, h, mergeThreshold)
    {
      ghost var v0 := pixels[..];
      RiseStart(img, nx, ny, v0, edges, h, p);
      FloodLinks(nx, ny, v0, edges, h, mergeThreshold, p);
      pixels[p] := pixels[p].(next := p, size := 1);
      assert pixels[..] == Flood(v0, p);
      VisitNeighbours(p, f1, r, mergeThreshold);
    }

    /**
     * `construct_graph` (lines 78-225): the pixels of img are flooded in the
     * descending order of the argsort order until one falls below
     * pixelThreshold, each uniting with its flooded neighbours.  The first
     * neighbour direction is 0 when seed is 0, otherwise the k-th flooded
     * pixel starts at dirs[k], the k-th draw of the random generator.
     */
    method ConstructGraph(img: seq<seq<real>>, nx: nat, ny: nat, order: seq<int>, pixelThreshold: real,
                          mergeThreshold: int, seed: int, dirs: seq<int>)
      requires IsGrid(img, nx, ny) && IsArgsort(img, nx, ny, order)
      requires |dirs| == |order| && forall k :: 0 <= k < |dirs| ==> 0 <= dirs[k] < 4
      modifies this
      ensures fresh(pixels) && this.nx == nx && this.ny == ny && this.img == img && sizes == old(sizes)
      ensures Valid() && BuildLinks(nx, ny, pixels[..], edges, h, mergeThreshold)
      ensures forall k :: 0 <= k < pixels.Length ==> (pixels[k].next >= 0 <==> Value(img, nx, ny, k) >= pixelThreshold)
      ensures mergeThreshold > nx * ny ==> Joined(nx, ny, Next(), h) && Spanned(nx, ny, Next(), h)
    {
      var v := ObtainVertices(img, nx, ny, 0);
      this.nx, this.ny, this.img := nx, ny, img;
      pixels, edges := v, [];
      h := seq(nx * ny, _ => 0);
      InitialGraph(img, nx, ny, pixels[..], h);
      NoLinks(nx, ny, pixels[..], edges, h, mergeThreshold);
      assert Flooded(Next()) == Dry(order, |order| - 1);
      FloodFrom(img, order, pixelThreshold, mergeThreshold, seed, dirs);
      if mergeThreshold > nx * ny {
        Components(img, nx, ny, pixels[..], edges, h, mergeThreshold);
      }
    }

    /**
     * One pass of the loop of lines 130-224, at argsort position i: the flood
     * stops when the pixel there lies below pixelThreshold, otherwise that
     * pixel rises above water, starting its visit in direction r.
     */
    method Level(image: seq<seq<real>>, order: seq<int>, i: int, pixelThreshold: real, mergeThreshold: int, r: int)
      returns (stop: bool)
      requires Valid() && image == img && IsArgsort(img, nx, ny, order) && 0 <= i < |order| && 0 <= r < 4
      requires Flooded(Next()) == Dry(order, i) && BuildLinks(nx, ny, pixels[..], edges, h, mergeThreshold)
      modifies this, pixels
      ensures pixels == old(pixels) && nx == old(nx) && ny == old(ny) && img == old(img) && sizes == old(sizes)
      ensures Valid() && BuildLinks(nx, ny, pixels[..], edges, h, mergeThreshold)
      ensures stop <==> Value(img, nx, ny, order[i]) < pixelThreshold
      ensures Flooded(Next()) == if stop then Dry(order, i) else Dry(order, i - 1)
    {
      var index1 := order[i];
      SplitIndex(index1, nx, ny);
      var ix1, iy1 := index1 / ny, index1 % ny;
      var f1 := image[ix1][iy1];
      ValueAt(img, nx, ny, ix1, iy1);
      if f1 < pixelThreshold {
        return true;
      }
      RisePre(img, nx, ny, pixels[..], edges, h, order, i);
      Rise(index1, f1, r, mergeThreshold);
      DryStep(order, i);
      return false;
    }

    /** The loop of lines 130-224 over the argsort, from the highest pixel down. */
    method FloodFrom(image: seq<seq<real>>, order: seq<int>, pixelThreshold: real, mergeThreshold: int, seed: int, dirs: seq<int>)
      requires Valid() && image == img && IsArgsort(img, nx, ny, order) && Flooded(Next()) == Dry(order, |order| - 1)
      requires |dirs| == |order| && forall k :: 0 <= k < |dirs| ==> 0 <= dirs[k] < 4
      requires BuildLinks(nx, ny, pixels[..], edges, h, mergeThreshold)
      modifies this, pixels
      ensures pixels == old(pixels) && nx == old(nx) && ny == old(ny) && img == old(img) && sizes == old(sizes)
      ensures Valid() && BuildLinks(nx, ny, pixels[..], edges, h, mergeThreshold)
      ensures forall k :: 0 <= k < pixels.Length ==> (pixels[k].next >= 0 <==> Value(img, nx, ny, k) >= pixelThreshold)
    {
      var n := |order|;
      var i := n - 1;
      var stop := false;
      while i >= 0 && !stop
        invariant -1 <= i < n
        invariant pixels == old(pixels) && nx == old(nx) && ny == old(ny) && img == old(img) && sizes == old(sizes)
        invariant Valid() && BuildLinks(nx, ny, pixels[..], edges, h, mergeThreshold)
        invariant Flooded(Next()) == Dry(order, i)
        invariant stop ==> i >= 0 && Value(img, nx, ny, order[i]) < pixelThreshold
        invariant forall j :: i < j < n ==> Value(img, nx, ny, order[j]) >= pixelThreshold
        decreases i + 1, !stop
      {
        var r := if seed == 0 then 0 else dirs[n - 1 - i];
        stop := Level(image, order, i, pixelThreshold, mergeThreshold, r);
        if !stop {
          AboveStep(img, nx, ny, order, i, pixelThreshold);
          i := i - 1;
        }
      }
      FloodedAbove(img, nx, ny, pixels[..], order, i, pixelThreshold);
    }

    /**
     * `obtain_cluster_sizes` (lines 228-245): the sizes of the roots that pass
     * both thresholds, in index order, kept in sizes and returned.
     */
    method ObtainClusterSizes(pixelThreshold: real, sizeThreshold: int) returns (r: seq<int>)
      requires pixels.Length == nx * ny
      modifies this
      ensures pixels == old(pixels) && nx == old(nx) && ny == old(ny) && edges == old(edges)
      ensures img == old(img) && h == old(h)
      ensures r == sizes == RootSizes(pixels[..], pixelThreshold, sizeThreshold, pixels.Length)
    {
      sizes := [];
      var n := nx * ny;
      for i := 0 to n
        invariant pixels == old(pixels) && nx == old(nx) && ny == old(ny) && edges == old(edges)
        invariant img == old(img) && h == old(h)
        invariant sizes == RootSizes(pixels[..], pixelThreshold, sizeThreshold, i)
      {
        var p := pixels[i];
        if p.next == i && p.value >= pixelThreshold && p.size >= sizeThreshold {
          sizes := sizes + [p.size];
        }
      }
      r := sizes;
    }
  }
}
