/**
 * `obtain_clusters` of `py_watershed.cpp`: a breadth-first search over the
 * edge list of the watershed graph that gathers, edge by edge, the pixels
 * connected by edges at or above an edge threshold into clusters.
 */
module ClusterSearch {
  import opened Graph
  import opened Seqs
  import opened Outcomes
  import opened Clusters
  import opened WatershedInv

  /**
   * What the search relies on: every edge joins two pixels, and every
   * pixel has four slots, each naming an edge or, when negative, none.
   */
  ghost predicate Linked(v: seq<Vertex>, edges: seq<Edge>) {
    && (forall e :: 0 <= e < |edges| ==> 0 <= edges[e].index.0 < |v| && 0 <= edges[e].index.1 < |v|)
    && (forall k :: 0 <= k < |v| ==> |v[k].edge| == 4)
    && forall k, d :: 0 <= k < |v| && 0 <= d < |v[k].edge| ==> v[k].edge[d] < |edges|
  }

  /** The graph `construct_graph` leaves behind is one the search can walk. */
  lemma GraphLinked(img: seq<seq<real>>, nx: nat, ny: nat, v: seq<Vertex>, edges: seq<Edge>, h: seq<nat>)
    requires GraphInv(img, nx, ny, v, edges, h)
    ensures Linked(v, edges)
  {
    forall e | 0 <= e < |edges|
      ensures 0 <= edges[e].index.0 < |v| && 0 <= edges[e].index.1 < |v|
    {
      assert EdgeOk(nx, ny, v, h, edges[e], e);
    }
    forall k, d | 0 <= k < |v| && 0 <= d < |v[k].edge|
      ensures v[k].edge[d] < |edges|
    {
      assert SlotOk(nx, ny, v, edges, k, d);
    }
  }

  /** The endpoints of a list of edges, two per edge, in order. */
  function Ends(es: seq<Edge>): (r: seq<int>)
    ensures |r| == 2 * |es|
  {
    if es == [] then [] else Ends(es[..|es| - 1]) + [es[|es| - 1].index.0, es[|es| - 1].index.1]
  }

  lemma EndsSnoc(es: seq<Edge>, e: Edge)
    ensures Ends(es + [e]) == Ends(es) + [e.index.0, e.index.1]
  {
    assert (es + [e])[..|es|] == es;
  }

  /** The conversion of the int size threshold to size_t (two's complement, 64 bits). */
  function SizeT(n: int): (r: nat)
    ensures r < 0x1_0000_0000_0000_0000 && (0 <= n < 0x1_0000_0000_0000_0000 ==> r == n)
  {
    n % 0x1_0000_0000_0000_0000
  }

  /** A negative size threshold turns into one no cluster can reach. */
  lemma NegativeSizeDropsAll(n: int, size: nat)
    requires -0x8000_0000 <= n < 0 && size < 0x1_0000_0000
    ensures size < SizeT(n)
  {
  }

  /**
   * A cluster of the search: its pixels are at or above pixelThreshold and
   * are endpoints of its edges, which are edges of the graph at or above
   * edgeThreshold.
   */
  ghost predicate Gathered(v: seq<Vertex>, edges: seq<Edge>, pixelThreshold: real, edgeThreshold: real, c: Cluster) {
    && (forall p :: p in c.pixels ==> 0 <= p < |v| && v[p].value >= pixelThreshold && p in Ends(c.edges))
    && forall e :: e in c.edges ==> e in edges && e.value >= edgeThreshold
  }

  /** A cluster `obtain_clusters` keeps: not empty and of at least the size threshold. */
  predicate Kept(c: Cluster, sizeThreshold: int) {
    |c.pixels| != 0 && |c.pixels| >= SizeT(sizeThreshold)
  }

  /** Every entry of the queue names an edge. */
  predicate Queued(q: seq<int>, n: int) {
    forall t :: 0 <= t < |q| ==> 0 <= q[t] < n
  }

  /**
   * The edges of the first j slots that lines 334-339 queue, in slot
   * order: those that name an edge not yet explored.
   */
  function Fresh(slots: seq<int>, explored: seq<bool>, j: int): (r: seq<int>)
    requires 0 <= j <= |slots| && forall d :: 0 <= d < |slots| ==> slots[d] < |explored|
    ensures |r| <= j
    ensures forall x :: x in r <==> exists d :: 0 <= d < j && slots[d] == x && 0 <= x && !explored[x]
  {
    if j == 0 then []
    else
      var x := slots[j - 1];
      Fresh(slots, explored, j - 1) + (if x >= 0 && !explored[x] then [x] else [])
  }

  /** Flags only go from false to true. */
  ghost predicate Grows(a: seq<bool>, b: seq<bool>) {
    |a| == |b| && forall p :: 0 <= p < |a| && a[p] ==> b[p]
  }

  /**
   * The state of one cluster's search: the pixels taken by earlier
   * clusters and those gathered so far are distinct and explored, and the
   * cluster gathered so far is well formed.
   */
  ghost predicate Gathering(v: seq<Vertex>, edges: seq<Edge>, pixelThreshold: real, edgeThreshold: real,
                            explored: seq<bool>, taken: seq<int>, pixels: seq<int>, kept: seq<Edge>) {
    && |explored| == |v|
    && NoDup(taken + pixels)
    && (forall p :: p in taken + pixels ==> 0 <= p < |v| && explored[p])
    && Gathered(v, edges, pixelThreshold, edgeThreshold, Cluster(pixels, kept))
  }

  /**
   * `obtain_clusters` (lines 265-352) appending to the clusters prior:
   * nothing is added when there are no edges; otherwise each new cluster is
   * gathered by a search started at the first edge not yet explored whose
   * endpoints are not both explored, and kept when it is not empty and
   * reaches the size threshold.  The pixels of the new clusters are all
   * distinct.  Err is the abort of the assertion of line 315, an edge taken
   * from the queue twice.
   */
  method ObtainClusters(v: seq<Vertex>, edges: seq<Edge>, pixelThreshold: real, edgeThreshold: real,
                        sizeThreshold: int, prior: seq<Cluster>)
    returns (r: Result<seq<Cluster>, ()>)
    requires Linked(v, edges)
    ensures edges == [] ==> r == Ok(prior)
    ensures r.Ok? ==> |r.value| >= |prior| && r.value[..|prior|] == prior
    ensures r.Ok? ==> forall i :: |prior| <= i < |r.value| ==>
      Gathered(v, edges, pixelThreshold, edgeThreshold, r.value[i]) && Kept(r.value[i], sizeThreshold)
    ensures r.Ok? ==> NoDup(AllPixels(r.value[|prior|..]))
  {
    if |edges| == 0 {
      return Ok(prior);
    }
    var nEdges := |edges|;
    var imgSize := |v|;
    var edgeExplored := new bool[nEdges](_ => false);
    var pixelExplored := new bool[imgSize](_ => false);
    var out := prior;
    for i := 0 to nEdges
      invariant |out| >= |prior| && out[..|prior|] == prior
      invariant forall i :: |prior| <= i < |out| ==>
        Gathered(v, edges, pixelThreshold, edgeThreshold, out[i]) && Kept(out[i], sizeThreshold)
      invariant NoDup(AllPixels(out[|prior|..]))
      invariant forall p :: p in AllPixels(out[|prior|..]) ==> 0 <= p < imgSize && pixelExplored[p]
    {
      var e := edges[i];
      if edgeExplored[i] || (pixelExplored[e.index.0] && pixelExplored[e.index.1]) {
        continue;
      }
      ghost var taken := AllPixels(out[|prior|..]);
      var c := Explore(v, edges, pixelThreshold, edgeThreshold, edgeExplored, pixelExplored, i, taken);
      if c.Err? {
        return Err(());
      }
      if |c.value.pixels| == 0 || |c.value.pixels| < SizeT(sizeThreshold) {
        continue;
      }
      KeepCluster(v, edges, pixelThreshold, edgeThreshold, sizeThreshold, prior, out, c.value, pixelExplored[..]);
      out := out + [c.value];
    }
    return Ok(out);
  }

  /** Lines 346-349: a gathered cluster that is kept extends the clusters found so far, its pixels new. */
  lemma KeepCluster(v: seq<Vertex>, edges: seq<Edge>, pixelThreshold: real, edgeThreshold: real, sizeThreshold: int,
                    prior: seq<Cluster>, out: seq<Cluster>, c: Cluster, explored: seq<bool>)
    requires |out| >= |prior| && out[..|prior|] == prior
    requires forall i :: |prior| <= i < |out| ==>
      Gathered(v, edges, pixelThreshold, edgeThreshold, out[i]) && Kept(out[i], sizeThreshold)
    requires Gathering(v, edges, pixelThreshold, edgeThreshold, explored, AllPixels(out[|prior|..]), c.pixels, c.edges)
    requires Kept(c, sizeThreshold)
    ensures var out' := out + [c];
      && |out'| >= |prior| && out'[..|prior|] == prior
      && (forall i :: |prior| <= i < |out'| ==>
            Gathered(v, edges, pixelThreshold, edgeThreshold, out'[i]) && Kept(out'[i], sizeThreshold))
      && NoDup(AllPixels(out'[|prior|..]))
      && forall p :: p in AllPixels(out'[|prior|..]) ==> 0 <= p < |v| && explored[p]
  {
    AllPixelsSnoc(out[|prior|..], c);
    assert (out + [c])[|prior|..] == out[|prior|..] + [c];
  }

  /**
   * The search of lines 303-342 from edge start: edges are taken from the
   * queue in turn; each is marked explored, and unless it lies below
   * edgeThreshold it joins the cluster and its unexplored endpoints are
   * reached.  Err when an edge comes out of the queue a second time.
   */
  method Explore(v: seq<Vertex>, edges: seq<Edge>, pixelThreshold: real, edgeThreshold: real,
                 edgeExplored: array<bool>, pixelExplored: array<bool>, start: int, ghost taken: seq<int>)
    returns (r: Result<Cluster, ()>)
    requires Linked(v, edges) && edgeExplored.Length == |edges| && edgeExplored != pixelExplored
    requires 0 <= start < |edges|
    requires Gathering(v, edges, pixelThreshold, edgeThreshold, pixelExplored[..], taken, [], [])
    modifies edgeExplored, pixelExplored
    ensures Grows(old(pixelExplored[..]), pixelExplored[..])
    ensures r.Ok? ==> Gathering(v, edges, pixelThreshold, edgeThreshold, pixelExplored[..], taken, r.value.pixels, r.value.edges)
  {
    var q := [start];
    var pixels: seq<int> := [];
    var kept: seq<Edge> := [];
    while q != []
      invariant Queued(q, |edges|)
      invariant Grows(old(pixelExplored[..]), pixelExplored[..])
      invariant Gathering(v, edges, pixelThreshold, edgeThreshold, pixelExplored[..], taken, pixels, kept)
      decreases Unset(pixelExplored[..]), |q|
    {
      var j := q[0];
      q := q[1..];
      var edge := edges[j];
      if edgeExplored[j] {
        return Err(());
      }
      edgeExplored[j] := true;
      if edge.value < edgeThreshold {
        continue;
      }
      EndsSnoc(kept, edge);
      kept := kept + [edge];
      ghost var q1 := q;
      ghost var before := pixelExplored[..];
      for k := 0 to 2
        invariant Queued(q, |edges|)
        invariant Grows(before, pixelExplored[..])
        invariant Gathering(v, edges, pixelThreshold, edgeThreshold, pixelExplored[..], taken, pixels, kept)
        invariant (q == q1 && pixelExplored[..] == before) || Unset(pixelExplored[..]) < Unset(before)
      {
        var index := if k == 0 then edge.index.0 else edge.index.1;
        assert index in Ends(kept);
        pixels, q := Reach(v, edges, pixelThreshold, edgeThreshold, edgeExplored, pixelExplored, index, taken, pixels, kept, q);
      }
    }
    return Ok(Cluster(pixels, kept));
  }

  /**
   * Lines 321-340 for the endpoint index of an edge of the cluster: when
   * not yet explored it is listed if at or above pixelThreshold, marked,
   * and its unexplored edges are queued.
   */
  method Reach(v: seq<Vertex>, edges: seq<Edge>, pixelThreshold: real, edgeThreshold: real,
               edgeExplored: array<bool>, pixelExplored: array<bool>, index: int,
               ghost taken: seq<int>, pixels0: seq<int>, ghost kept: seq<Edge>, q0: seq<int>)
    returns (pixels: seq<int>, q: seq<int>)
    requires Linked(v, edges) && edgeExplored.Length == |edges| && edgeExplored != pixelExplored
    requires Queued(q0, |edges|) && index in Ends(kept) && 0 <= index < |v|
    requires Gathering(v, edges, pixelThreshold, edgeThreshold, pixelExplored[..], taken, pixels0, kept)
    modifies pixelExplored
    ensures Queued(q, |edges|) && Grows(old(pixelExplored[..]), pixelExplored[..])
    ensures Gathering(v, edges, pixelThreshold, edgeThreshold, pixelExplored[..], taken, pixels, kept)
    ensures (q == q0 && pixelExplored[..] == old(pixelExplored[..])) || Unset(pixelExplored[..]) < Unset(old(pixelExplored[..]))
    ensures old(pixelExplored[index]) ==> pixels == pixels0 && q == q0 && pixelExplored[..] == old(pixelExplored[..])
    ensures !old(pixelExplored[index]) ==>
      && pixelExplored[..] == old(pixelExplored[..])[index := true]
      && pixels == pixels0 + (if v[index].value >= pixelThreshold then [index] else [])
      && q == q0 + Fresh(v[index].edge, edgeExplored[..], 4)
  {
    pixels, q := pixels0, q0;
    if pixelExplored[index] {
      return;
    }
    if v[index].value >= pixelThreshold {
      NoDupSnoc(taken + pixels, index);
      assert taken + (pixels + [index]) == (taken + pixels) + [index];
      pixels := pixels + [index];
    }
    SetOne(pixelExplored[..], index);
    pixelExplored[index] := true;
    q := QueueEdges(v[index].edge, edgeExplored, q0);
  }

  /** Lines 334-339: the edges named by the four slots and not yet explored are queued, in slot order. */
  method QueueEdges(slots: seq<int>, edgeExplored: array<bool>, q0: seq<int>) returns (q: seq<int>)
    requires |slots| == 4 && forall d :: 0 <= d < 4 ==> slots[d] < edgeExplored.Length
    requires Queued(q0, edgeExplored.Length)
    ensures Queued(q, edgeExplored.Length)
    ensures q == q0 + Fresh(slots, edgeExplored[..], 4)
  {
    q := q0;
    for j := 0 to 4
      invariant Queued(q, edgeExplored.Length)
      invariant q == q0 + Fresh(slots, edgeExplored[..], j)
    {
      var adjEdge := slots[j];
      if adjEdge >= 0 && !edgeExplored[adjEdge] {
        q := q + [adjEdge];
      }
    }
  }
}
