/**
 * The image: `nx` rows of `ny` real values, addressed by (ix, iy) or by the
 * row-major flattened index ix*ny + iy, and the ascending argsort of its
 * flattened values that every flood consumes from the back.
 */
module Grid {
  /** img has nx rows of ny values each. */
  predicate IsGrid(img: seq<seq<real>>, nx: nat, ny: nat) {
    |img| == nx && forall ix :: 0 <= ix < nx ==> |img[ix]| == ny
  }

  /** c * a <= c * b for a non-negative factor c. */
  lemma MulMono(a: int, b: int, c: nat)
    requires a <= b
    ensures a * c <= b * c
  {
  }

  /** Row ix of the flattened image ends where row ix + 1 starts, inside the image. */
  lemma RowEnd(ix: int, nx: nat, ny: nat)
    requires 0 <= ix < nx
    ensures ix * ny + ny == (ix + 1) * ny <= nx * ny
  {
    MulMono(ix + 1, nx, ny);
  }

  /** A flattened index splits into an in-range (row, column) pair. */
  lemma SplitIndex(k: int, nx: nat, ny: nat)
    requires 0 <= k < nx * ny
    ensures ny > 0 && 0 <= k / ny < nx && 0 <= k % ny < ny && (k / ny) * ny + k % ny == k
  {
  }

  /** (ix, iy) in range flattens to an in-range index that splits back into (ix, iy). */
  lemma JoinIndex(ix: int, iy: int, nx: nat, ny: nat)
    requires 0 <= ix < nx && 0 <= iy < ny
    ensures 0 <= ix * ny + iy < nx * ny
    ensures (ix * ny + iy) / ny == ix && (ix * ny + iy) % ny == iy
  {
    MulMono(ix + 1, nx, ny);
    assert (ix + 1) * ny == ix * ny + ny;
    var k := ix * ny + iy;
    var q, r := k / ny, k % ny;
    assert q * ny + r == ix * ny + iy;
    if q > ix {
      MulMono(ix + 1, q, ny);
    } else if q < ix {
      MulMono(q + 1, ix, ny);
    }
  }

  /** The rows of img laid end to end: the row-major flattening numpy's ravel gives. */
  function Flat(img: seq<seq<real>>): seq<real> {
    if img == [] then [] else img[0] + Flat(img[1..])
  }

  /** The flattening of an nx by ny image holds nx*ny values. */
  lemma {:induction false} FlatSize(img: seq<seq<real>>, nx: nat, ny: nat)
    requires IsGrid(img, nx, ny)
    ensures |Flat(img)| == nx * ny
  {
    if nx > 0 {
      FlatSize(img[1..], nx - 1, ny);
    }
  }

  /** The value of the pixel with flattened index k. */
  function Value(img: seq<seq<real>>, nx: nat, ny: nat, k: int): real
    requires IsGrid(img, nx, ny) && 0 <= k < nx * ny
  {
    FlatSize(img, nx, ny);
    Flat(img)[k]
  }

  /** Flattened index ix*ny + iy holds the value img(ix, iy): the layout is row-major. */
  lemma {:induction false} ValueAt(img: seq<seq<real>>, nx: nat, ny: nat, ix: int, iy: int)
    requires IsGrid(img, nx, ny) && 0 <= ix < nx && 0 <= iy < ny
    ensures 0 <= ix * ny + iy < nx * ny && Value(img, nx, ny, ix * ny + iy) == img[ix][iy]
  {
    JoinIndex(ix, iy, nx, ny);
    FlatSize(img, nx, ny);
    if ix > 0 {
      var k := (ix - 1) * ny + iy;
      assert k + ny == ix * ny + iy;
      ValueAt(img[1..], nx - 1, ny, ix - 1, iy);
      assert Flat(img) == img[0] + Flat(img[1..]) && |img[0]| == ny;
      assert Flat(img)[k + ny] == Flat(img[1..])[k];
    }
  }

  /** Reads the value img(k / ny, k % ny) of the pixel with flattened index k. */
  method Pixel(img: seq<seq<real>>, nx: nat, ny: nat, k: int) returns (f: real)
    requires IsGrid(img, nx, ny) && 0 <= k < nx * ny
    ensures f == Value(img, nx, ny, k)
  {
    SplitIndex(k, nx, ny);
    f := img[k / ny][k % ny];
    ValueAt(img, nx, ny, k / ny, k % ny);
  }

  /**
   * order is numpy's ascending argsort of the flattened image: a permutation
   * of 0 .. nx*ny-1 along which the values never decrease.
   */
  predicate IsArgsort(img: seq<seq<real>>, nx: nat, ny: nat, order: seq<int>)
    requires IsGrid(img, nx, ny)
  {
    && |order| == nx * ny
    && (forall a :: 0 <= a < |order| ==> 0 <= order[a] < nx * ny)
    && (forall a, b :: 0 <= a < b < |order| ==> order[a] != order[b])
    && (forall p :: 0 <= p < nx * ny ==> p in order)
    && (forall a, b :: 0 <= a < b < |order| ==> Value(img, nx, ny, order[a]) <= Value(img, nx, ny, order[b]))
  }

  /**
   * The flattened index of the neighbour of k at offset (dx, dy), or -1 when
   * that neighbour lies outside the image.
   */
  function Neighbour(nx: nat, ny: nat, k: int, dx: int, dy: int): (r: int)
    requires 0 <= k < nx * ny
    ensures -1 <= r < nx * ny
    ensures r >= 0 <==> 0 <= k / ny + dx < nx && 0 <= k % ny + dy < ny
    ensures r >= 0 ==> r / ny == k / ny + dx && r % ny == k % ny + dy
  {
    SplitIndex(k, nx, ny);
    var ix2, iy2 := k / ny + dx, k % ny + dy;
    if 0 <= ix2 < nx && 0 <= iy2 < ny then JoinIndex(ix2, iy2, nx, ny); ix2 * ny + iy2 else -1
  }
}
