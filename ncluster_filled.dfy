/**
 * `compute_nclusters` with every threshold slot written.  As written, the
 * slot loop of lines 110-113 of `watershed_ncluster.cpp` steps over slots
 * whose band holds no pixel without writing them, and the pass ends
 * (line 114 or the end of the pixels) without writing the slots left; those
 * slots keep what the caller put there (zeros from the Python wrapper),
 * although the number of clusters above their threshold is the count at
 * the moment they are passed.  Here the count goes into each slot as the
 * slot loop passes it and into every slot left at the end, and every slot
 * then reports the clusters above its threshold.
 */
module NClusterFilled {
  import opened Grid
  import opened UnionFind
  import opened Watershed
  import opened Walks
  import opened NCluster

  /** The flood at argsort position i with slot it: the part of the pass state that does not speak of slots. */
  ghost predicate Flood(img: seq<seq<real>>, nx: nat, ny: nat, order: seq<int>, thresholds: seq<real>, st: int,
                        i: int, it: int, s: Snap, count: int)
    requires IsGrid(img, nx, ny) && IsArgsort(img, nx, ny, order)
  {
    && -1 <= i < |order| && 0 <= it <= |thresholds|
    && |s.next| == |order| && Flooded(s.next) == Dry(order, i)
    && Forest(s.next, s.h) && SizesOk(s.next, s.h, s.size) && Joined(nx, ny, s.next, s.h) && Spanned(nx, ny, s.next, s.h)
    && count == BigRoots(s.next, s.size, st, |order|)
    && (it < |thresholds| ==> forall j :: i < j < |order| ==> Value(img, nx, ny, order[j]) >= thresholds[it])
    && (it > 0 ==> forall j :: 0 <= j <= i ==> Value(img, nx, ny, order[j]) < thresholds[it - 1])
  }

  /** The pass state: every slot before it reports the clusters above its threshold. */
  ghost predicate Filled(img: seq<seq<real>>, nx: nat, ny: nat, order: seq<int>, thresholds: seq<real>, st: int,
                         i: int, it: int, s: Snap, count: int, cs: seq<int>, snaps: seq<Snap>)
    requires IsGrid(img, nx, ny) && IsArgsort(img, nx, ny, order)
  {
    && Flood(img, nx, ny, order, thresholds, st, i, it, s, count)
    && |cs| == |thresholds| && |snaps| == |thresholds|
    && forall t :: 0 <= t < it ==> Reports(img, nx, ny, thresholds[t], st, snaps[t], cs[t])
  }

  /** snaps with the slots from lo up to hi showing s. */
  function Spread(snaps: seq<Snap>, lo: int, hi: int, s: Snap): (r: seq<Snap>)
    ensures |r| == |snaps| && forall t :: 0 <= t < |snaps| ==> r[t] == if lo <= t < hi then s else snaps[t]
  {
    seq(|snaps|, t requires 0 <= t < |snaps| => if lo <= t < hi then s else snaps[t])
  }

  /**
   * Lines 110-113 with each slot written as it is passed: from it0 on, the
   * first slot whose threshold is at or below f1, every slot before it
   * taking count.
   */
  method AdvanceFilling(thresholds: seq<real>, it0: int, f1: real, nclusters: array<int>, count: int) returns (it: int)
    requires 0 <= it0 <= |thresholds| && nclusters.Length == |thresholds|
    modifies nclusters
    ensures it0 <= it <= |thresholds|
    ensures forall t :: it0 <= t < it ==> f1 < thresholds[t]
    ensures it < |thresholds| ==> thresholds[it] <= f1
    ensures forall t :: 0 <= t < nclusters.Length ==> nclusters[t] == if it0 <= t < it then count else old(nclusters[t])
  {
    it := it0;
    while it < |thresholds| && f1 < thresholds[it]
      invariant it0 <= it <= |thresholds|
      invariant forall t :: it0 <= t < it ==> f1 < thresholds[t]
      invariant forall t :: 0 <= t < nclusters.Length ==> nclusters[t] == if it0 <= t < it then count else old(nclusters[t])
    {
      nclusters[it] := count;
      it := it + 1;
    }
  }

  /** After the pass: every slot from it0 on takes count. */
  method FillRest(nclusters: array<int>, it0: int, count: int)
    requires 0 <= it0 <= nclusters.Length
    modifies nclusters
    ensures forall t :: 0 <= t < nclusters.Length ==> nclusters[t] == if it0 <= t then count else old(nclusters[t])
  {
    for t := it0 to nclusters.Length
      invariant forall u :: 0 <= u < nclusters.Length ==> nclusters[u] == if it0 <= u < t then count else old(nclusters[u])
    {
      nclusters[t] := count;
    }
  }

  /** The pass starts with nothing flooded, at the last argsort position and the first slot. */
  lemma StartFilled(img: seq<seq<real>>, nx: nat, ny: nat, order: seq<int>, thresholds: seq<real>, st: int,
                    next: seq<int>, size: seq<int>, h: seq<nat>, cs: seq<int>, snaps: seq<Snap>)
    requires IsGrid(img, nx, ny) && IsArgsort(img, nx, ny, order)
    requires |next| == |size| == |h| == |order| && forall k :: 0 <= k < |next| ==> next[k] == -1
    requires |cs| == |snaps| == |thresholds|
    ensures Filled(img, nx, ny, order, thresholds, st, |order| - 1, 0, Snap(next, size, h), 0, cs, snaps)
  {
    StartPass(img, nx, ny, order, thresholds, st, next, size, h, cs, snaps);
  }

  /**
   * The slots from it0 up to it, passed at position i (the pixel there lies
   * below their thresholds) with count written into them, report the
   * current state.
   */
  lemma {:induction false} Passed(img: seq<seq<real>>, nx: nat, ny: nat, order: seq<int>, thresholds: seq<real>, st: int,
                                  i: int, it0: int, it: int, s: Snap, count: int, cs: seq<int>, cs': seq<int>,
                                  snaps: seq<Snap>)
    requires IsGrid(img, nx, ny) && IsArgsort(img, nx, ny, order) && Descending(thresholds)
    requires Filled(img, nx, ny, order, thresholds, st, i, it0, s, count, cs, snaps) && 0 <= i
    requires it0 <= it <= |thresholds|
    requires forall t :: it0 <= t < it ==> Value(img, nx, ny, order[i]) < thresholds[t]
    requires it < |thresholds| ==> thresholds[it] <= Value(img, nx, ny, order[i])
    requires |cs'| == |cs| && forall t :: 0 <= t < |cs| ==> cs'[t] == if it0 <= t < it then count else cs[t]
    ensures Filled(img, nx, ny, order, thresholds, st, i, it, s, count, cs', Spread(snaps, it0, it, s))
  {
    var snaps' := Spread(snaps, it0, it, s);
    forall t | 0 <= t < it
      ensures Reports(img, nx, ny, thresholds[t], st, snaps'[t], cs'[t])
    {
      if it0 <= t {
        StateReports(img, nx, ny, order, thresholds[t], st, i, s, count);
      }
    }
    if it0 < it {
      forall j | 0 <= j <= i
        ensures Value(img, nx, ny, order[j]) < thresholds[it - 1]
      {
        assert Value(img, nx, ny, order[j]) <= Value(img, nx, ny, order[i]);
      }
    }
  }

  /** The pixel at position i, at or above the threshold of slot it, has risen into s' with count'. */
  lemma {:induction false} RisenFilled(img: seq<seq<real>>, nx: nat, ny: nat, order: seq<int>, thresholds: seq<real>, st: int,
                                       i: int, it: int, s: Snap, count: int, cs: seq<int>, snaps: seq<Snap>,
                                       s': Snap, count': int)
    requires IsGrid(img, nx, ny) && IsArgsort(img, nx, ny, order)
    requires Filled(img, nx, ny, order, thresholds, st, i, it, s, count, cs, snaps) && 0 <= i
    requires it < |thresholds| && thresholds[it] <= Value(img, nx, ny, order[i])
    requires |s'.next| == |order| && Forest(s'.next, s'.h) && SizesOk(s'.next, s'.h, s'.size)
    requires Joined(nx, ny, s'.next, s'.h) && Spanned(nx, ny, s'.next, s'.h)
    requires Flooded(s'.next) == Flooded(s.next) + {order[i]} && count' == BigRoots(s'.next, s'.size, st, |order|)
    ensures Filled(img, nx, ny, order, thresholds, st, i - 1, it, s', count', cs[it := count'], snaps)
  {
    DryStep(order, i);
  }

  /** With every pixel flooded, the slots from it on, written with count, report the final state. */
  lemma {:induction false} EndFilled(img: seq<seq<real>>, nx: nat, ny: nat, order: seq<int>, thresholds: seq<real>, st: int,
                                     it: int, s: Snap, count: int, cs: seq<int>, cs': seq<int>, snaps: seq<Snap>)
    requires IsGrid(img, nx, ny) && IsArgsort(img, nx, ny, order) && Descending(thresholds)
    requires Filled(img, nx, ny, order, thresholds, st, -1, it, s, count, cs, snaps)
    requires |cs'| == |cs| && forall t :: 0 <= t < |cs| ==> cs'[t] == if it <= t then count else cs[t]
    ensures var snaps' := Spread(snaps, it, |thresholds|, s);
      forall t :: 0 <= t < |thresholds| ==> Reports(img, nx, ny, thresholds[t], st, snaps'[t], cs'[t])
  {
    var snaps' := Spread(snaps, it, |thresholds|, s);
    forall t | 0 <= t < |thresholds|
      ensures Reports(img, nx, ny, thresholds[t], st, snaps'[t], cs'[t])
    {
      if it <= t {
        StateReports(img, nx, ny, order, thresholds[t], st, -1, s, count);
      }
    }
  }

  /** One pass of the loop of lines 100-202, the passed slots written. */
  method LevelFilled(img: seq<seq<real>>, nx: nat, ny: nat, order: seq<int>, thresholds: seq<real>,
                     nclusters: array<int>, st: int, next: array<int>, size: array<int>, ghost h: seq<nat>,
                     i: int, it0: int, count0: int, r: int, ghost snaps0: seq<Snap>)
    returns (it: int, count: int, ghost h': seq<nat>, ghost snaps: seq<Snap>)
    requires IsGrid(img, nx, ny) && IsArgsort(img, nx, ny, order) && Descending(thresholds)
    requires next != size && next != nclusters && size != nclusters
    requires next.Length == |order| && size.Length == |order| && 0 <= i && 0 <= r < 4
    requires Filled(img, nx, ny, order, thresholds, st, i, it0, Snap(next[..], size[..], h), count0, nclusters[..], snaps0)
    modifies next, size, nclusters
    ensures it <= |thresholds|
    ensures it == |thresholds| ==>
      Filled(img, nx, ny, order, thresholds, st, i, it, Snap(next[..], size[..], h'), count, nclusters[..], snaps)
    ensures it < |thresholds| ==>
      Filled(img, nx, ny, order, thresholds, st, i - 1, it, Snap(next[..], size[..], h'), count, nclusters[..], snaps)
  {
    count, h' := count0, h;
    var index1 := order[i];
    var f1 := Pixel(img, nx, ny, index1);
    ghost var cs := nclusters[..];
    it := AdvanceFilling(thresholds, it0, f1, nclusters, count);
    Passed(img, nx, ny, order, thresholds, st, i, it0, it, Snap(next[..], size[..], h), count,
           cs, nclusters[..], snaps0);
    snaps := Spread(snaps0, it0, it, Snap(next[..], size[..], h));
    if it == |thresholds| {
      return;
    }
    DryLowest(img, nx, ny, order, i);
    ghost var s, cs' := Snap(next[..], size[..], h), nclusters[..];
    count, h' := Rise(nx, ny, next, size, h, st, index1, r, count0);
    nclusters[it] := count;
    RisenFilled(img, nx, ny, order, thresholds, st, i, it, s, count0, cs', snaps,
                Snap(next[..], size[..], h'), count);
    assert nclusters[..] == cs'[it := count];
  }

  /** The loop of lines 100-202, the passed slots written. */
  method DescendFilled(img: seq<seq<real>>, nx: nat, ny: nat, order: seq<int>, thresholds: seq<real>,
                       nclusters: array<int>, st: int, seed: int, dirs: seq<int>,
                       next: array<int>, size: array<int>, ghost h0: seq<nat>, ghost snaps0: seq<Snap>)
    returns (i: int, it: int, count: int, ghost h: seq<nat>, ghost snaps: seq<Snap>)
    requires IsGrid(img, nx, ny) && IsArgsort(img, nx, ny, order) && Descending(thresholds)
    requires |dirs| == |order| && forall k :: 0 <= k < |dirs| ==> 0 <= dirs[k] < 4
    requires next != size && next != nclusters && size != nclusters
    requires next.Length == |order| && size.Length == |order|
    requires Filled(img, nx, ny, order, thresholds, st, |order| - 1, 0, Snap(next[..], size[..], h0), 0,
                    nclusters[..], snaps0)
    modifies next, size, nclusters
    ensures i == -1 || it == |thresholds|
    ensures Filled(img, nx, ny, order, thresholds, st, i, it, Snap(next[..], size[..], h), count, nclusters[..], snaps)
  {
    var n := |order|;
    i, it, count, h, snaps := n - 1, 0, 0, h0, snaps0;
    while i >= 0
      invariant Filled(img, nx, ny, order, thresholds, st, i, it, Snap(next[..], size[..], h), count, nclusters[..], snaps)
    {
      var r := if seed == 0 then 0 else dirs[n - 1 - i];
      it, count, h, snaps := LevelFilled(img, nx, ny, order, thresholds, nclusters, st, next, size, h, i, it, count, r, snaps);
      if it == |thresholds| {
        return;
      }
      i := i - 1;
    }
  }

  /**
   * `compute_nclusters` (lines 35-202) with the passed and the remaining
   * slots written: slot t ends with the number of clusters of at least
   * sizeThreshold pixels among the pixels at or above thresholds[t], with
   * snaps[t] the state that shows it, whatever the slot held before.
   */
  method ComputeNClustersFilled(img: seq<seq<real>>, nx: nat, ny: nat, order: seq<int>, thresholds: seq<real>,
                                nclusters: array<int>, sizeThreshold: int, seed: int, dirs: seq<int>)
    returns (ghost snaps: seq<Snap>)
    requires IsGrid(img, nx, ny) && IsArgsort(img, nx, ny, order)
    requires Descending(thresholds) && nclusters.Length == |thresholds|
    requires |dirs| == |order| && forall k :: 0 <= k < |dirs| ==> 0 <= dirs[k] < 4
    modifies nclusters
    ensures |snaps| == |thresholds|
    ensures forall t :: 0 <= t < |thresholds| ==>
      Reports(img, nx, ny, thresholds[t], sizeThreshold, snaps[t], nclusters[t])
  {
    var n := |order|;
    var next := new int[n](_ => -1);
    var size := new int[n](_ => 0);
    ghost var h: seq<nat> := seq(n, _ => 0);
    snaps := seq(|thresholds|, _ => Snap([], [], []));
    StartFilled(img, nx, ny, order, thresholds, sizeThreshold, next[..], size[..], h, nclusters[..], snaps);
    var i, it, count;
    i, it, count, h, snaps :=
      DescendFilled(img, nx, ny, order, thresholds, nclusters, sizeThreshold, seed, dirs, next, size, h, snaps);
    if it < |thresholds| {
      ghost var cs := nclusters[..];
      FillRest(nclusters, it, count);
      EndFilled(img, nx, ny, order, thresholds, sizeThreshold, it, Snap(next[..], size[..], h), count,
                cs, nclusters[..], snaps);
      snaps := Spread(snaps, it, |thresholds|, Snap(next[..], size[..], h));
    }
  }

  /** A one-pixel image of value 1.0. */
  const Img1: seq<seq<real>> := [[1.0]]

  /** Two thresholds, both below the one pixel. */
  const Thr2: seq<real> := [0.5, 0.25]

  /**
   * The image [[1.0]] with thresholds [0.5, 0.25] and no size threshold:
   * the band of slot 1 is empty, so as written the slot keeps its old
   * value (0 from the wrapper), while the one pixel above 0.25 is one
   * cluster, which is what the filled version reports.
   */
  lemma SkippedSlot(s: Snap, c: int, s': Snap, c': int)
    requires Slot(Img1, 1, 1, Thr2, 0, 1, s, c, 0)
    requires Reports(Img1, 1, 1, Thr2[1], 0, s', c')
    ensures c == 0 && c' == 1
  {
    assert Value(Img1, 1, 1, 0) == 1.0 by {
      ValueAt(Img1, 1, 1, 0, 0);
    }
    assert s'.next[0] >= 0;
    assert s'.next[0] == 0;
    assert Big(s'.next, s'.size, 0, 0);
    assert BigRoots(s'.next, s'.size, 0, 1) == 1;
  }
}
