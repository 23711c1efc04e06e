/**
 * The cluster list of `py_clusters.cpp`: a `Clusters` object is a vector
 * of clusters, each a list of pixel indices and the edges that joined
 * them, filled by the breadth-first flood fill of `Clusters::construct`
 * (and, in `py_watershed.cpp`, by `obtain_clusters`).
 */
module Clusters {
  import opened Grid
  import opened Graph
  import opened Seqs
  import opened Outcomes

  /** One cluster: its pixels and its edges (the unused `centre` is not modelled). */
  datatype Cluster = Cluster(pixels: seq<int>, edges: seq<Edge>)

  /** The pixels of a list of clusters, laid end to end. */
  function AllPixels(cs: seq<Cluster>): seq<int> {
    if cs == [] then [] else AllPixels(cs[..|cs| - 1]) + cs[|cs| - 1].pixels
  }

  lemma AllPixelsSnoc(cs: seq<Cluster>, c: Cluster)
    ensures AllPixels(cs + [c]) == AllPixels(cs) + c.pixels
  {
    assert (cs + [c])[..|cs|] == cs;
  }

  /** Appending a cluster appends it to the large ones exactly when it is large. */
  lemma LargeSnoc(cs: seq<Cluster>, c: Cluster, sizeThreshold: int)
    ensures Large(cs + [c], sizeThreshold) == if |c.pixels| >= sizeThreshold then Large(cs, sizeThreshold) + [c] else Large(cs, sizeThreshold)
  {
    assert (cs + [c])[..|cs|] == cs;
  }

  /** The clusters of cs with at least sizeThreshold pixels, in order. */
  function Large(cs: seq<Cluster>, sizeThreshold: int): (r: seq<Cluster>)
    ensures forall c :: c in r ==> c in cs && |c.pixels| >= sizeThreshold
    ensures forall c :: c in cs && |c.pixels| >= sizeThreshold ==> c in r
  {
    if cs == [] then []
    else
      var init := Large(cs[..|cs| - 1], sizeThreshold);
      assert forall c :: c in cs ==> c in cs[..|cs| - 1] || c == cs[|cs| - 1];
      if |cs[|cs| - 1].pixels| >= sizeThreshold then init + [cs[|cs| - 1]] else init
  }

  /** std::min: the second argument only when it is strictly smaller. */
  function Min(a: real, b: real): (m: real)
    ensures m <= a && m <= b && (m == a || m == b)
  {
    if b < a then b else a
  }

  /** Neighbour offsets of `Clusters::construct`: right, left, up, down. */
  const StepX: seq<int> := [1, -1, 0, 0]
  const StepY: seq<int> := [0, 0, -1, 1]

  /** The neighbour of pixel k at offset j, or -1 outside the image. */
  function Adj(nx: nat, ny: nat, k: int, j: int): int
    requires 0 <= k < nx * ny && 0 <= j < 4
  {
    Neighbour(nx, ny, k, StepX[j], StepY[j])
  }

  /** The offset opposite to j. */
  function Back(j: int): int
    requires 0 <= j < 4
  {
    if j % 2 == 0 then j + 1 else j - 1
  }

  /** Stepping back by the opposite offset returns to k: adjacency is symmetric. */
  lemma AdjBack(nx: nat, ny: nat, k: int, j: int)
    requires 0 <= k < nx * ny && 0 <= j < 4 && Adj(nx, ny, k, j) >= 0
    ensures Adj(nx, ny, Adj(nx, ny, k, j), Back(j)) == k
  {
    var b := Adj(nx, ny, k, j);
    SplitIndex(k, nx, ny);
    SplitIndex(b, nx, ny);
    var r := Adj(nx, ny, b, Back(j));
    assert r >= 0;
    SplitIndex(r, nx, ny);
  }

  /** The offset at which b lies next to a, or 4 when b is not next to a. */
  function Dir(nx: nat, ny: nat, a: int, b: int): (d: int)
    requires 0 <= a < nx * ny
    ensures 0 <= d <= 4 && (d < 4 ==> Adj(nx, ny, a, d) == b)
    ensures (exists j :: 0 <= j < 4 && Adj(nx, ny, a, j) == b) ==> d < 4
  {
    if Adj(nx, ny, a, 0) == b then 0
    else if Adj(nx, ny, a, 1) == b then 1
    else if Adj(nx, ny, a, 2) == b then 2
    else if Adj(nx, ny, a, 3) == b then 3
    else 4
  }

  /** Pixel k is in the image and at or above the threshold. */
  ghost predicate Lit(img: seq<seq<real>>, nx: nat, ny: nat, pixelThreshold: real, k: int)
    requires IsGrid(img, nx, ny)
  {
    0 <= k < nx * ny && Value(img, nx, ny, k) >= pixelThreshold
  }

  /** Every neighbour at or above the threshold of a pixel of s is in s. */
  ghost predicate Closed(img: seq<seq<real>>, nx: nat, ny: nat, pixelThreshold: real, s: seq<int>)
    requires IsGrid(img, nx, ny)
  {
    forall a, j :: a in s && 0 <= a < nx * ny && 0 <= j < 4 && Lit(img, nx, ny, pixelThreshold, Adj(nx, ny, a, j))
      ==> Adj(nx, ny, a, j) in s
  }

  /**
   * Edge t joins a pixel found earlier to pixel t + 1 of found, its
   * neighbour, and weighs the smaller of their two values.
   */
  ghost predicate Joins(img: seq<seq<real>>, nx: nat, ny: nat, found: seq<int>, edges: seq<Edge>, t: int)
    requires IsGrid(img, nx, ny) && 0 <= t < |edges| && t + 1 < |found|
    requires forall i :: 0 <= i < |found| ==> 0 <= found[i] < nx * ny
  {
    var a, b := edges[t].index.0, edges[t].index.1;
    && b == found[t + 1]
    && a in found[..t + 1]
    && Dir(nx, ny, a, b) < 4
    && edges[t].value == Min(Value(img, nx, ny, a), Value(img, nx, ny, b))
  }

  /**
   * found lists distinct pixels at or above the threshold, and edges, one
   * fewer, attach each of them after the first to one listed before it:
   * a spanning tree of 4-neighbour steps, so the pixels are connected.
   */
  ghost predicate Spanning(img: seq<seq<real>>, nx: nat, ny: nat, pixelThreshold: real, found: seq<int>, edges: seq<Edge>)
    requires IsGrid(img, nx, ny)
  {
    && |found| == |edges| + 1
    && (forall i :: 0 <= i < |found| ==> Lit(img, nx, ny, pixelThreshold, found[i]))
    && NoDup(found)
    && forall t :: 0 <= t < |edges| ==> Joins(img, nx, ny, found, edges, t)
  }

  /** Discovering neighbour b of the found pixel a extends the spanning tree by the edge (a, b). */
  lemma SpanningSnoc(img: seq<seq<real>>, nx: nat, ny: nat, pixelThreshold: real, found: seq<int>, edges: seq<Edge>,
                     a: int, j: int)
    requires IsGrid(img, nx, ny) && Spanning(img, nx, ny, pixelThreshold, found, edges)
    requires a in found && 0 <= j < 4 && Lit(img, nx, ny, pixelThreshold, Adj(nx, ny, a, j))
    requires Adj(nx, ny, a, j) !in found
    ensures var b := Adj(nx, ny, a, j);
      Spanning(img, nx, ny, pixelThreshold, found + [b],
               edges + [Edge((a, b), Min(Value(img, nx, ny, a), Value(img, nx, ny, b)))])
  {
    var b := Adj(nx, ny, a, j);
    var found', edges' := found + [b], edges + [Edge((a, b), Min(Value(img, nx, ny, a), Value(img, nx, ny, b)))];
    NoDupSnoc(found, b);
    forall t | 0 <= t < |edges'|
      ensures Joins(img, nx, ny, found', edges', t)
    {
      assert found'[..t + 1] == found[..t + 1];
      if t == |edges| {
        assert found'[..t + 1] == found;
      } else {
        assert Joins(img, nx, ny, found, edges, t);
      }
    }
  }

  /** The pixel counts of a list of clusters, in order. */
  function ClusterSizes(cs: seq<Cluster>): (r: seq<int>)
    ensures |r| == |cs| && forall i :: 0 <= i < |cs| ==> r[i] == |cs[i].pixels|
  {
    if cs == [] then [] else ClusterSizes(cs[..|cs| - 1]) + [|cs[|cs| - 1].pixels|]
  }

  /** The sizes of the clusters add up to the number of their pixels. */
  lemma {:induction false} SizesTotal(cs: seq<Cluster>)
    ensures Sum(ClusterSizes(cs)) == |AllPixels(cs)|
  {
    if cs != [] {
      var init := cs[..|cs| - 1];
      SizesTotal(init);
      assert ClusterSizes(cs)[..|cs| - 1] == ClusterSizes(init);
    }
  }

  /** `py_clusters_cluster_nvertices`: the number of pixels of a cluster. */
  function NVertices(c: Cluster): int {
    |c.pixels|
  }

  /** `py_clusters_cluster_nedges` as written: it reports the number of pixels. */
  function NEdgesAsWritten(c: Cluster): int {
    |c.pixels|
  }

  /** `py_clusters_cluster_nedges` as intended: the number of edges. */
  function NEdges(c: Cluster): int {
    |c.edges|
  }

  /** A cluster of the flood fill is a tree: it has one edge fewer than it has pixels. */
  lemma NEdgesTree(img: seq<seq<real>>, nx: nat, ny: nat, pixelThreshold: real, c: Cluster)
    requires IsGrid(img, nx, ny) && Spanning(img, nx, ny, pixelThreshold, c.pixels, c.edges)
    ensures NEdges(c) == NVertices(c) - 1 && NEdges(c) >= 0
  {
  }

  /** On every cluster of the flood fill, nedges as written counts one edge too many. */
  lemma NEdgesOffByOne(img: seq<seq<real>>, nx: nat, ny: nat, pixelThreshold: real, c: Cluster)
    requires IsGrid(img, nx, ny) && Spanning(img, nx, ny, pixelThreshold, c.pixels, c.edges)
    ensures NEdgesAsWritten(c) == NEdges(c) + 1 && NEdgesAsWritten(c) != NEdges(c)
  {
    NEdgesTree(img, nx, ny, pixelThreshold, c);
  }

  /**
   * The pixel line 100 of `construct` reads before the bounds check of
   * line 102: the neighbour's (row, column), whether or not it is inside
   * the image.
   */
  function ProbeAsWritten(nx: nat, ny: nat, k: int, j: int): (int, int)
    requires 0 <= k < nx * ny && 0 <= j < 4
  {
    (k / ny + StepX[j], k % ny + StepY[j])
  }

  /**
   * Pixel 0 of every image reads row -1 when it looks left: whenever the
   * first pixel is at or above the threshold, `construct` as written reads
   * outside the image.
   */
  lemma ProbeOutside(nx: nat, ny: nat)
    requires nx * ny > 0
    ensures ProbeAsWritten(nx, ny, 0, 1).0 == -1 && Adj(nx, ny, 0, 1) == -1
  {
  }

  /** A list of clusters on an nx by ny image, as `Clusters` (a vector of Cluster) holds it. */
  class Clusters {
    var nx: int
    var ny: int
    var clusters: seq<Cluster>

    /** A new, empty list (lines 21-25). */
    constructor ()
      ensures nx == 0 && ny == 0 && clusters == []
    {
      nx, ny, clusters := 0, 0, [];
    }

    /**
     * `construct` (lines 30-121): the previous clusters are discarded; the
     * pixels at or above pixelThreshold are grouped, seed by seed in index
     * order, into 4-connected clusters found breadth first, and clusters
     * of fewer than sizeThreshold pixels are dropped.  The ghost result
     * lists every cluster found, dropped ones included: together they
     * partition the lit pixels into closed, connected trees, and each is
     * headed by its smallest pixel, its seed.
     */
    method Construct(img: seq<seq<real>>, nx: nat, ny: nat, pixelThreshold: real, sizeThreshold: int)
      returns (ghost found: seq<Cluster>)
      requires IsGrid(img, nx, ny)
      modifies this
      ensures this.nx == nx && this.ny == ny
      ensures clusters == Large(found, sizeThreshold)
      ensures forall i :: 0 <= i < |found| ==> |found[i].pixels| > 0
      ensures forall i :: 0 <= i < |found| ==>
        && Spanning(img, nx, ny, pixelThreshold, found[i].pixels, found[i].edges)
        && Closed(img, nx, ny, pixelThreshold, found[i].pixels)
        && forall k :: k in found[i].pixels ==> found[i].pixels[0] <= k
      ensures forall i, i' :: 0 <= i < i' < |found| ==> found[i].pixels[0] < found[i'].pixels[0]
      ensures NoDup(AllPixels(found))
      ensures forall k :: 0 <= k < nx * ny ==> (k in AllPixels(found) <==> Value(img, nx, ny, k) >= pixelThreshold)
    {
      clusters := [];
      this.nx, this.ny := nx, ny;
      var n := nx * ny;
      var visited := new bool[n](_ => false);
      found := [];
      for index0 := 0 to n
        invariant this.nx == nx && this.ny == ny
        invariant clusters == Large(found, sizeThreshold)
        invariant Partition(img, nx, ny, pixelThreshold, found, index0)
        invariant forall k :: 0 <= k < n ==> (visited[k] <==> k in AllPixels(found))
      {
        var f0 := Pixel(img, nx, ny, index0);
        if visited[index0] || f0 < pixelThreshold {
          Skip(img, nx, ny, pixelThreshold, found, index0);
          continue;
        }
        var c, sum := Claim(img, nx, ny, pixelThreshold, visited, index0, found);
        LargeSnoc(found, c, sizeThreshold);
        found := found + [c];
        clusters := clusters + [c];
        if sum < sizeThreshold {
          clusters := clusters[..|clusters| - 1];
        }
      }
      Covered(img, nx, ny, pixelThreshold, found);
    }

    /** `get_cluster` (lines 157-187): a negative i counts from the end; out of range is IndexError. */
    function GetCluster(i: int): (r: Result<(Cluster, int, int), ()>)
      reads this
      ensures r.Ok? <==> -|clusters| <= i < |clusters|
      ensures r.Ok? ==> r.value.1 == nx && r.value.2 == ny
      ensures r.Ok? && 0 <= i ==> r.value.0 == clusters[i]
      ensures r.Ok? && i < 0 ==> r.value.0 == clusters[|clusters| + i]
    {
      var j := if i < 0 then |clusters| + i else i;
      if 0 <= j < |clusters| then Ok((clusters[j], nx, ny)) else Err(())
    }

    /** `get_sizes` (lines 216-243): the pixel count of every cluster, in order, into sizes. */
    method GetSizes(sizes: array<int>)
      requires sizes.Length == |clusters|
      modifies sizes
      ensures sizes[..] == ClusterSizes(clusters)
    {
      var n := |clusters|;
      for i := 0 to n
        invariant forall j :: 0 <= j < i ==> sizes[j] == |clusters[j].pixels|
      {
        sizes[i] := |clusters[i].pixels|;
      }
    }
  }

  /** A negative index i names the same cluster as |clusters| + i, as in Python. */
  lemma GetClusterWraps(cs: Clusters, i: int)
    requires -|cs.clusters| <= i < 0
    ensures cs.GetCluster(i) == cs.GetCluster(|cs.clusters| + i)
  {
  }

  /**
   * Lines 76-114 for the lit, unvisited pixel seed: it is marked and the
   * cluster grown from it extends the partition of the pixels below it.
   */
  method Claim(img: seq<seq<real>>, nx: nat, ny: nat, pixelThreshold: real, visited: array<bool>, seed: int,
               ghost found: seq<Cluster>)
    returns (c: Cluster, sum: int)
    requires IsGrid(img, nx, ny) && visited.Length == nx * ny && Partition(img, nx, ny, pixelThreshold, found, seed)
    requires Lit(img, nx, ny, pixelThreshold, seed) && !visited[seed]
    requires forall k :: 0 <= k < nx * ny ==> (visited[k] <==> k in AllPixels(found))
    modifies visited
    ensures Partition(img, nx, ny, pixelThreshold, found + [c], seed + 1) && sum == |c.pixels|
    ensures forall k :: 0 <= k < nx * ny ==> (visited[k] <==> k in AllPixels(found + [c]))
  {
    visited[seed] := true;
    c, sum := Grow(img, nx, ny, pixelThreshold, visited, seed, AllPixels(found));
    Record(img, nx, ny, pixelThreshold, found, c, seed);
    AllPixelsSnoc(found, c);
  }

  /**
   * The breadth-first search of lines 83-114 from the lit, unvisited seed:
   * it returns the cluster of the seed, in visiting order, with one edge
   * per pixel discovered, and the pixel count `sum`.  done lists the
   * pixels of the clusters found before; their union is closed.
   */
  method Grow(img: seq<seq<real>>, nx: nat, ny: nat, pixelThreshold: real, visited: array<bool>, seed: int,
              ghost done: seq<int>)
    returns (c: Cluster, sum: int)
    requires IsGrid(img, nx, ny) && visited.Length == nx * ny
    requires Lit(img, nx, ny, pixelThreshold, seed) && seed !in done
    requires Closed(img, nx, ny, pixelThreshold, done)
    requires forall k :: k in done ==> Lit(img, nx, ny, pixelThreshold, k)
    requires forall k :: 0 <= k < nx * ny ==> (visited[k] <==> k in done || k == seed)
    modifies visited
    ensures Spanning(img, nx, ny, pixelThreshold, c.pixels, c.edges) && c.pixels[0] == seed
    ensures Closed(img, nx, ny, pixelThreshold, c.pixels) && sum == |c.pixels|
    ensures forall k :: k in c.pixels ==> k !in done
    ensures forall k :: 0 <= k < nx * ny ==> (visited[k] <==> k in done || k in c.pixels)
  {
    var q := [seed];
    var pixels: seq<int> := [];
    var edges: seq<Edge> := [];
    sum := 0;
    NoDupSnoc([], seed);
    while q != []
      invariant Frontier(img, nx, ny, pixelThreshold, visited[..], done, pixels + q, edges) && (pixels + q)[0] == seed
      invariant sum == |pixels|
      invariant forall a, j :: a in pixels && 0 <= a < nx * ny && 0 <= j < 4 && Lit(img, nx, ny, pixelThreshold, Adj(nx, ny, a, j))
                  ==> Adj(nx, ny, a, j) in pixels + q
      decreases Unset(visited[..]), |q|
    {
      var a := q[0];
      ghost var found := pixels + q;
      q := q[1..];
      pixels := pixels + [a];
      assert pixels + q == found && found[|pixels| - 1] == a;
      assert Lit(img, nx, ny, pixelThreshold, found[|pixels| - 1]);
      sum := sum + 1;
      var f1 := Pixel(img, nx, ny, a);
      q, edges := Expand(img, nx, ny, pixelThreshold, visited, a, f1, done, pixels, q, edges);
    }
    assert pixels + q == pixels;
    c := Cluster(pixels, edges);
  }

  /**
   * The state of the search: found lists the pixels reached so far (those
   * taken from the queue, then those still in it) as a spanning tree with
   * edges, none of them in an earlier cluster, and the visited flags mark
   * exactly the earlier clusters and found.
   */
  ghost predicate Frontier(img: seq<seq<real>>, nx: nat, ny: nat, pixelThreshold: real, visited: seq<bool>,
                           done: seq<int>, found: seq<int>, edges: seq<Edge>)
    requires IsGrid(img, nx, ny)
  {
    && |visited| == nx * ny
    && Spanning(img, nx, ny, pixelThreshold, found, edges)
    && (forall k :: k in found ==> k !in done)
    && forall k :: 0 <= k < nx * ny ==> (visited[k] <==> k in done || k in found)
  }

  /** A lit neighbour of a pixel outside the earlier clusters is outside them too: they are closed. */
  lemma OutsideDone(img: seq<seq<real>>, nx: nat, ny: nat, pixelThreshold: real, done: seq<int>, a: int, j: int)
    requires IsGrid(img, nx, ny) && Closed(img, nx, ny, pixelThreshold, done)
    requires Lit(img, nx, ny, pixelThreshold, a) && a !in done && 0 <= j < 4 && Adj(nx, ny, a, j) >= 0
    ensures Adj(nx, ny, a, j) !in done
  {
    if Adj(nx, ny, a, j) in done {
      AdjBack(nx, ny, a, j);
    }
  }

  /** Discovering the unvisited lit neighbour b of a keeps the search state and sets one more flag. */
  lemma Discover(img: seq<seq<real>>, nx: nat, ny: nat, pixelThreshold: real, visited: seq<bool>,
                 done: seq<int>, found: seq<int>, edges: seq<Edge>, a: int, j: int)
    requires IsGrid(img, nx, ny) && Frontier(img, nx, ny, pixelThreshold, visited, done, found, edges)
    requires a in found && 0 <= j < 4 && Lit(img, nx, ny, pixelThreshold, Adj(nx, ny, a, j))
    requires !visited[Adj(nx, ny, a, j)]
    ensures var b := Adj(nx, ny, a, j);
      && Frontier(img, nx, ny, pixelThreshold, visited[b := true], done, found + [b],
                  edges + [Edge((a, b), Min(Value(img, nx, ny, a), Value(img, nx, ny, b)))])
      && Unset(visited[b := true]) < Unset(visited)
  {
    var b := Adj(nx, ny, a, j);
    SpanningSnoc(img, nx, ny, pixelThreshold, found, edges, a, j);
    SetOne(visited, b);
  }

  /**
   * Lines 97-112 for the pixel a just taken from the queue: its four
   * neighbours in turn.
   */
  method Expand(img: seq<seq<real>>, nx: nat, ny: nat, pixelThreshold: real, visited: array<bool>, a: int, f1: real,
                ghost done: seq<int>, ghost pixels: seq<int>, q0: seq<int>, edges0: seq<Edge>)
    returns (q: seq<int>, edges: seq<Edge>)
    requires IsGrid(img, nx, ny) && Closed(img, nx, ny, pixelThreshold, done)
    requires |pixels| > 0 && a == pixels[|pixels| - 1] && 0 <= a < nx * ny && f1 == Value(img, nx, ny, a)
    requires Frontier(img, nx, ny, pixelThreshold, visited[..], done, pixels + q0, edges0)
    modifies visited
    ensures Frontier(img, nx, ny, pixelThreshold, visited[..], done, pixels + q, edges)
    ensures |q| >= |q0| && q[..|q0|] == q0
    ensures forall j :: 0 <= j < 4 && Lit(img, nx, ny, pixelThreshold, Adj(nx, ny, a, j)) ==> Adj(nx, ny, a, j) in pixels + q
    ensures (q == q0 && visited[..] == old(visited[..])) || Unset(visited[..]) < Unset(old(visited[..]))
  {
    q, edges := q0, edges0;
    SplitIndex(a, nx, ny);
    for j := 0 to 4
      invariant Frontier(img, nx, ny, pixelThreshold, visited[..], done, pixels + q, edges)
      invariant |q| >= |q0| && q[..|q0|] == q0
      invariant forall j' :: 0 <= j' < j && Lit(img, nx, ny, pixelThreshold, Adj(nx, ny, a, j')) ==> Adj(nx, ny, a, j') in pixels + q
      invariant (q == q0 && visited[..] == old(visited[..])) || Unset(visited[..]) < Unset(old(visited[..]))
    {
      ghost var q1 := q;
      q, edges := Look(img, nx, ny, pixelThreshold, visited, a, f1, j, done, pixels, q, edges);
      assert q[..|q0|] == q1[..|q0|];
    }
  }

  /**
   * Lines 98-112 for the neighbour of a at offset j: when it is inside the
   * image (its value is read only then), lit and unvisited, it is marked,
   * queued, and joined to a by an edge weighing the smaller value.
   */
  method Look(img: seq<seq<real>>, nx: nat, ny: nat, pixelThreshold: real, visited: array<bool>, a: int, f1: real,
              j: int, ghost done: seq<int>, ghost pixels: seq<int>, q0: seq<int>, edges0: seq<Edge>)
    returns (q: seq<int>, edges: seq<Edge>)
    requires IsGrid(img, nx, ny) && Closed(img, nx, ny, pixelThreshold, done) && 0 <= j < 4
    requires a in pixels && 0 <= a < nx * ny && f1 == Value(img, nx, ny, a)
    requires Frontier(img, nx, ny, pixelThreshold, visited[..], done, pixels + q0, edges0)
    modifies visited
    ensures Frontier(img, nx, ny, pixelThreshold, visited[..], done, pixels + q, edges)
    ensures |q| >= |q0| && q[..|q0|] == q0 && forall x :: x in pixels + q0 ==> x in pixels + q
    ensures Lit(img, nx, ny, pixelThreshold, Adj(nx, ny, a, j)) ==> Adj(nx, ny, a, j) in pixels + q
    ensures (q == q0 && visited[..] == old(visited[..])) || Unset(visited[..]) < Unset(old(visited[..]))
  {
    q, edges := q0, edges0;
    SplitIndex(a, nx, ny);
    var ix2, iy2 := a / ny + StepX[j], a % ny + StepY[j];
    if !(0 <= ix2 < nx && 0 <= iy2 < ny) {
      return;
    }
    var f2 := img[ix2][iy2];
    var b := ix2 * ny + iy2;
    ValueAt(img, nx, ny, ix2, iy2);
    assert b == Adj(nx, ny, a, j);
    if visited[b] || f2 < pixelThreshold {
      if visited[b] && f2 >= pixelThreshold {
        OutsideDone(img, nx, ny, pixelThreshold, done, a, j);
      }
      return;
    }
    Discover(img, nx, ny, pixelThreshold, visited[..], done, pixels + q, edges, a, j);
    visited[b] := true;
    assert pixels + (q + [b]) == (pixels + q) + [b];
    q := q + [b];
    edges := edges + [Edge((a, b), Min(f1, f2))];
  }

  /**
   * The clusters found while the seed loop is at upTo: each a closed,
   * connected tree headed by its smallest pixel, their seeds below upTo
   * and increasing, no pixel in two of them, and every lit pixel below
   * upTo in one of them.
   */
  ghost predicate Partition(img: seq<seq<real>>, nx: nat, ny: nat, pixelThreshold: real, found: seq<Cluster>, upTo: int)
    requires IsGrid(img, nx, ny)
  {
    && (forall i :: 0 <= i < |found| ==>
          && Spanning(img, nx, ny, pixelThreshold, found[i].pixels, found[i].edges)
          && Closed(img, nx, ny, pixelThreshold, found[i].pixels)
          && found[i].pixels[0] < upTo
          && forall k :: k in found[i].pixels ==> found[i].pixels[0] <= k)
    && (forall i, i' :: 0 <= i < i' < |found| ==> found[i].pixels[0] < found[i'].pixels[0])
    && NoDup(AllPixels(found)) && Closed(img, nx, ny, pixelThreshold, AllPixels(found))
    && (forall k :: k in AllPixels(found) ==> Lit(img, nx, ny, pixelThreshold, k))
    && forall k :: 0 <= k < upTo && k < nx * ny && Value(img, nx, ny, k) >= pixelThreshold ==> k in AllPixels(found)
  }

  /** Once every seed is passed, the clusters found cover exactly the lit pixels. */
  lemma Covered(img: seq<seq<real>>, nx: nat, ny: nat, pixelThreshold: real, found: seq<Cluster>)
    requires IsGrid(img, nx, ny) && Partition(img, nx, ny, pixelThreshold, found, nx * ny)
    ensures forall i :: 0 <= i < |found| ==> |found[i].pixels| > 0
    ensures forall k :: 0 <= k < nx * ny ==> (k in AllPixels(found) <==> Value(img, nx, ny, k) >= pixelThreshold)
  {
  }

  /** A pixel already in a cluster, or unlit, is passed over by the seed loop. */
  lemma Skip(img: seq<seq<real>>, nx: nat, ny: nat, pixelThreshold: real, found: seq<Cluster>, seed: int)
    requires IsGrid(img, nx, ny) && 0 <= seed < nx * ny && Partition(img, nx, ny, pixelThreshold, found, seed)
    requires seed in AllPixels(found) || Value(img, nx, ny, seed) < pixelThreshold
    ensures Partition(img, nx, ny, pixelThreshold, found, seed + 1)
  {
  }

  /**
   * The cluster c grown from the lit, unclaimed seed extends the partition:
   * it is disjoint from the clusters before it, so their pixels stay
   * distinct and closed, and its seed is its smallest pixel.
   */
  lemma Record(img: seq<seq<real>>, nx: nat, ny: nat, pixelThreshold: real, found: seq<Cluster>, c: Cluster, seed: int)
    requires IsGrid(img, nx, ny) && 0 <= seed < nx * ny && Partition(img, nx, ny, pixelThreshold, found, seed)
    requires Spanning(img, nx, ny, pixelThreshold, c.pixels, c.edges) && c.pixels[0] == seed
    requires Closed(img, nx, ny, pixelThreshold, c.pixels)
    requires forall k :: k in c.pixels ==> k !in AllPixels(found)
    ensures Partition(img, nx, ny, pixelThreshold, found + [c], seed + 1)
  {
    AllPixelsSnoc(found, c);
    SeedSmallest(img, nx, ny, pixelThreshold, found, c, seed);
    PixelsExtend(img, nx, ny, pixelThreshold, found, c, seed);
    var found' := found + [c];
    forall i | 0 <= i < |found'|
      ensures && Spanning(img, nx, ny, pixelThreshold, found'[i].pixels, found'[i].edges)
              && Closed(img, nx, ny, pixelThreshold, found'[i].pixels)
              && found'[i].pixels[0] < seed + 1
              && forall k :: k in found'[i].pixels ==> found'[i].pixels[0] <= k
    {
      if i < |found| {
        assert found'[i] == found[i];
      }
    }
  }

  /** Every pixel of the cluster grown from seed is at least seed: the lit pixels below it are taken. */
  lemma SeedSmallest(img: seq<seq<real>>, nx: nat, ny: nat, pixelThreshold: real, found: seq<Cluster>, c: Cluster, seed: int)
    requires IsGrid(img, nx, ny) && 0 <= seed < nx * ny && Partition(img, nx, ny, pixelThreshold, found, seed)
    requires Spanning(img, nx, ny, pixelThreshold, c.pixels, c.edges)
    requires forall k :: k in c.pixels ==> k !in AllPixels(found)
    ensures forall k :: k in c.pixels ==> seed <= k
  {
    forall k | k in c.pixels
      ensures seed <= k
    {
      var i :| 0 <= i < |c.pixels| && c.pixels[i] == k;
      assert Lit(img, nx, ny, pixelThreshold, c.pixels[i]);
    }
  }

  /** Adding the pixels of the new cluster keeps them distinct, closed, lit and covering up to seed. */
  lemma PixelsExtend(img: seq<seq<real>>, nx: nat, ny: nat, pixelThreshold: real, found: seq<Cluster>, c: Cluster, seed: int)
    requires IsGrid(img, nx, ny) && 0 <= seed < nx * ny && Partition(img, nx, ny, pixelThreshold, found, seed)
    requires Spanning(img, nx, ny, pixelThreshold, c.pixels, c.edges) && c.pixels[0] == seed
    requires Closed(img, nx, ny, pixelThreshold, c.pixels)
    requires forall k :: k in c.pixels ==> k !in AllPixels(found)
    ensures var all := AllPixels(found) + c.pixels;
      && NoDup(all) && Closed(img, nx, ny, pixelThreshold, all)
      && (forall k :: k in all ==> Lit(img, nx, ny, pixelThreshold, k))
      && forall k :: 0 <= k < seed + 1 && k < nx * ny && Value(img, nx, ny, k) >= pixelThreshold ==> k in all
  {
    var all := AllPixels(found) + c.pixels;
    NoDupConcat(AllPixels(found), c.pixels);
    forall k | k in c.pixels
      ensures Lit(img, nx, ny, pixelThreshold, k)
    {
      var i :| 0 <= i < |c.pixels| && c.pixels[i] == k;
    }
    assert c.pixels[0] in all;
  }
}
