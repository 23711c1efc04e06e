/**
 * The vertex and edge records of the pixel graph, the row-major vertex
 * array built from an image, and the root lookup on it.
 */
module Graph {
  import opened Grid
  import opened UnionFind

  /**
   * One pixel: its value, the `next` link of the union-find forest (-1 while
   * under water), the size of its cluster (meaningful at a root) and the
   * indices of the edges in its four slots (-1 for no edge).
   */
  datatype Vertex = Vertex(value: real, next: int, size: int, edge: seq<int>)

  /** An edge between two pixels, index.0 and index.1, with a weight. */
  datatype Edge = Edge(index: (int, int), value: real)

  /** The "no edge" marker of an edge slot and the "under water" marker of next. */
  const None := -1

  /** A default-constructed edge: both endpoints -1 and weight 0. */
  const DefaultEdge := Edge((-1, -1), 0.0)

  /** The four empty edge slots of a fresh vertex. */
  const NoEdges := [None, None, None, None]

  /** The `next` links of a vertex array, as the union-find forest sees them. */
  function Nexts(v: seq<Vertex>): (next: seq<int>)
    ensures |next| == |v| && forall k :: 0 <= k < |v| ==> next[k] == v[k].next
  {
    seq(|v|, k requires 0 <= k < |v| => v[k].next)
  }

  /** The `size` fields of a vertex array. */
  function Sizes(v: seq<Vertex>): (size: seq<int>)
    ensures |size| == |v| && forall k :: 0 <= k < |v| ==> size[k] == v[k].size
  {
    seq(|v|, k requires 0 <= k < |v| => v[k].size)
  }

  /**
   * `obtain_vertices`: one vertex per pixel in row-major order, each under
   * water, with no edges and size sizeInit.
   */
  method ObtainVertices(img: seq<seq<real>>, nx: nat, ny: nat, sizeInit: int) returns (v: array<Vertex>)
    requires IsGrid(img, nx, ny)
    ensures fresh(v) && v.Length == nx * ny
    ensures forall k :: 0 <= k < v.Length ==> v[k] == Vertex(Value(img, nx, ny, k), None, sizeInit, NoEdges)
  {
    var p := Vertex(0.0, None, sizeInit, NoEdges);
    var n := nx * ny;
    v := new Vertex[n](_ => p);
    var index := 0;
    for ix := 0 to nx
      invariant index == ix * ny <= n
      invariant forall k :: 0 <= k < index ==> v[k] == Vertex(Value(img, nx, ny, k), None, sizeInit, NoEdges)
    {
      RowEnd(ix, nx, ny);
      for iy := 0 to ny
        invariant index == ix * ny + iy
        invariant forall k :: 0 <= k < index ==> v[k] == Vertex(Value(img, nx, ny, k), None, sizeInit, NoEdges)
      {
        ValueAt(img, nx, ny, ix, iy);
        v[index] := p.(value := img[ix][iy]);
        index := index + 1;
      }
    }
  }

  /**
   * `graph::get_top`: follows next from flooded pixel i to the top of its
   * cluster, without path compression and without changing the array.
   */
  method GetTop(i: int, v: array<Vertex>, ghost h: seq<nat>) returns (r: int)
    requires Forest(Nexts(v[..]), h) && 0 <= i < v.Length && v[i].next >= 0
    ensures r == Top(Nexts(v[..]), h, i)
    ensures 0 <= r < v.Length && v[r].next == r
  {
    ghost var next := Nexts(v[..]);
    r := i;
    while r != v[r].next
      invariant 0 <= r < v.Length && next[r] >= 0
      invariant Top(next, h, r) == Top(next, h, i)
      decreases Ceiling(h) - h[r]
    {
      r := v[r].next;
    }
  }
}
