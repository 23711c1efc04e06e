/**
 * Edges of a Delaunay triangulation: the distinct sides of its triangles,
 * each kept in one orientation, and the coordinates of their endpoints.
 * The triangulation itself (scipy) and plotting are not part of this model.
 */
module Delaunay {
  import opened Outcomes

  /** A triangle: three vertex indices (i, j, k). */
  type Triangle = (int, int, int)
  /** An edge: an ordered pair of vertex indices. */
  type Pair = (int, int)
  /** A vertex position (x, y). */
  type Point = (real, real)

  /** (a, b) is a side of t, in either orientation. */
  predicate IsSide(p: Pair, t: Triangle) {
    var (i, j, k) := t;
    p == (i, j) || p == (j, i) || p == (j, k) || p == (k, j) || p == (k, i) || p == (i, k)
  }

  /** The pair (a, b) is in s in at least one orientation. */
  predicate HasEither(s: set<Pair>, a: int, b: int) {
    (a, b) in s || (b, a) in s
  }

  /** Adds the three sides of t to s, skipping any side already present in either orientation. */
  function AddTriangle(s: set<Pair>, t: Triangle): set<Pair> {
    var (i, j, k) := t;
    var s1 := if HasEither(s, i, j) then s else s + {(i, j)};
    var s2 := if HasEither(s1, j, k) then s1 else s1 + {(j, k)};
    if HasEither(s2, k, i) then s2 else s2 + {(k, i)}
  }

  /** The edge set of the triangles, added triangle by triangle in order. */
  function EdgeSet(ts: seq<Triangle>): set<Pair> {
    if ts == [] then {} else AddTriangle(EdgeSet(ts[..|ts| - 1]), ts[|ts| - 1])
  }

  /**
   * The third test of the loop as the source writes it: side k-i is added
   * only if neither (k, i) nor (i, j) is present.
   */
  function AddTriangleAsWritten(s: set<Pair>, t: Triangle): set<Pair> {
    var (i, j, k) := t;
    var s1 := if HasEither(s, i, j) then s else s + {(i, j)};
    var s2 := if HasEither(s1, j, k) then s1 else s1 + {(j, k)};
    if (k, i) in s2 || (i, j) in s2 then s2 else s2 + {(k, i)}
  }

  function EdgeSetAsWritten(ts: seq<Triangle>): set<Pair> {
    if ts == [] then {} else AddTriangleAsWritten(EdgeSetAsWritten(ts[..|ts| - 1]), ts[|ts| - 1])
  }

  /** Every pair of the edge set is a side of some triangle. */
  lemma {:induction false} EdgeSetSound(ts: seq<Triangle>, p: Pair)
    requires p in EdgeSet(ts)
    ensures exists t :: t in ts && IsSide(p, t)
  {
    if ts != [] {
      var init, last := ts[..|ts| - 1], ts[|ts| - 1];
      if p in EdgeSet(init) {
        EdgeSetSound(init, p);
        var t :| t in init && IsSide(p, t);
        assert t in ts;
      } else {
        assert IsSide(p, last);
      }
    }
  }

  /** Every side of every triangle is in the edge set, in at least one orientation. */
  lemma {:induction false} EdgeSetComplete(ts: seq<Triangle>, n: nat)
    requires n < |ts|
    ensures HasEither(EdgeSet(ts), ts[n].0, ts[n].1)
    ensures HasEither(EdgeSet(ts), ts[n].1, ts[n].2)
    ensures HasEither(EdgeSet(ts), ts[n].2, ts[n].0)
  {
    var init := ts[..|ts| - 1];
    if n < |ts| - 1 {
      EdgeSetComplete(init, n);
      assert init[n] == ts[n];
    }
  }

  /** No side is stored in both orientations. */
  lemma {:induction false} EdgeSetOneOrientation(ts: seq<Triangle>, a: int, b: int)
    requires a != b && (a, b) in EdgeSet(ts)
    ensures (b, a) !in EdgeSet(ts)
  {
    if ts != [] {
      var init := ts[..|ts| - 1];
      if (a, b) in EdgeSet(init) && (b, a) in EdgeSet(init) {
        EdgeSetOneOrientation(init, a, b);
      }
      forall x, y | x != y && (x, y) in EdgeSet(init) ensures (y, x) !in EdgeSet(init) {
        EdgeSetOneOrientation(init, x, y);
      }
    }
  }

  /** The sides i-j and j-k are still always present in the source's version. */
  lemma {:induction false} EdgeSetAsWrittenFirstSides(ts: seq<Triangle>, n: nat)
    requires n < |ts|
    ensures HasEither(EdgeSetAsWritten(ts), ts[n].0, ts[n].1)
    ensures HasEither(EdgeSetAsWritten(ts), ts[n].1, ts[n].2)
  {
    var init := ts[..|ts| - 1];
    if n < |ts| - 1 {
      EdgeSetAsWrittenFirstSides(init, n);
      assert init[n] == ts[n];
    }
  }

  /**
   * The source's version loses a side of the very first triangle: for the
   * single triangle (0, 1, 2), side 2-0 is skipped because (0, 1) is stored.
   */
  lemma EdgeSetAsWrittenMissesSide()
    ensures EdgeSetAsWritten([(0, 1, 2)]) == {(0, 1), (1, 2)}
    ensures !HasEither(EdgeSetAsWritten([(0, 1, 2)]), 2, 0)
    ensures EdgeSet([(0, 1, 2)]) == {(0, 1), (1, 2), (2, 0)}
  {
    assert [(0, 1, 2)][..0] == [];
  }

  /** `_get_edges`: the edge list, each side once, in an unspecified order. */
  method GetEdges(triangles: seq<Triangle>) returns (edges: seq<Pair>)
    ensures forall p :: p in edges <==> p in EdgeSet(triangles)
    ensures forall a, b :: 0 <= a < b < |edges| ==> edges[a] != edges[b]
  {
    var s: set<Pair> := {};
    for n := 0 to |triangles|
      invariant s == EdgeSet(triangles[..n])
    {
      var (i, j, k) := triangles[n];
      if !((i, j) in s || (j, i) in s) {
        s := s + {(i, j)};
      }
      if !((j, k) in s || (k, j) in s) {
        s := s + {(j, k)};
      }
      if !((k, i) in s || (i, k) in s) {
        s := s + {(k, i)};
      }
      assert triangles[..n + 1][..n] == triangles[..n];
    }
    assert triangles[..|triangles|] == triangles;
    edges := ListOf(s);
  }

  /** `list(s)`: the elements of a set, each once, in an unspecified order. */
  method ListOf(s: set<Pair>) returns (xs: seq<Pair>)
    ensures forall p :: p in xs <==> p in s
    ensures forall a, b :: 0 <= a < b < |xs| ==> xs[a] != xs[b]
  {
    xs := [];
    var rest := s;
    while rest != {}
      invariant forall p :: p in xs || p in rest <==> p in s
      invariant forall p :: p in xs ==> p !in rest
      invariant forall a, b :: 0 <= a < b < |xs| ==> xs[a] != xs[b]
      decreases rest
    {
      var p :| p in rest;
      xs := xs + [p];
      rest := rest - {p};
    }
  }

  /** numpy's indexing of an array of length n with index e (negative counts from the end). */
  function WrapIndex(e: int, n: nat): (r: Result<nat, ()>)
    ensures r.Ok? <==> -(n as int) <= e < n
    ensures r.Ok? ==> r.value < n && (e >= 0 ==> r.value == e) && (e < 0 ==> r.value == n + e)
  {
    if 0 <= e < n then Ok(e) else if -(n as int) <= e < 0 then Ok(n + e) else Err(())
  }

  /**
   * `_get_edge_coords`: row r holds the coordinates of both endpoints of
   * edge r, (x1, y1, x2, y2); any index outside the vertex array raises
   * IndexError before anything is written.
   */
  method GetEdgeCoords(v: seq<Point>, edges: seq<Pair>) returns (r: Result<array2<real>, ()>)
    ensures r.Err? <==>
              exists e :: 0 <= e < |edges| && (WrapIndex(edges[e].0, |v|).Err? || WrapIndex(edges[e].1, |v|).Err?)
    ensures r.Ok? ==> fresh(r.value) && r.value.Length0 == |edges| && r.value.Length1 == 4
    ensures r.Ok? ==> forall e :: 0 <= e < |edges| ==>
              var p, q := v[WrapIndex(edges[e].0, |v|).value], v[WrapIndex(edges[e].1, |v|).value];
              r.value[e, 0] == p.0 && r.value[e, 1] == p.1 && r.value[e, 2] == q.0 && r.value[e, 3] == q.1
  {
    if exists e :: 0 <= e < |edges| && (WrapIndex(edges[e].0, |v|).Err? || WrapIndex(edges[e].1, |v|).Err?) {
      return Err(());
    }
    var a := new real[|edges|, 4];
    for e := 0 to |edges|
      invariant forall f :: 0 <= f < e ==>
        var p, q := v[WrapIndex(edges[f].0, |v|).value], v[WrapIndex(edges[f].1, |v|).value];
        a[f, 0] == p.0 && a[f, 1] == p.1 && a[f, 2] == q.0 && a[f, 3] == q.1
    {
      var p := v[WrapIndex(edges[e].0, |v|).value];
      var q := v[WrapIndex(edges[e].1, |v|).value];
      a[e, 0], a[e, 1] := p.0, p.1;
      a[e, 2], a[e, 3] := q.0, q.1;
    }
    r := Ok(a);
  }
}
