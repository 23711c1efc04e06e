/**
 * `watershed_nuclei.cpp`: the watershed flood run in batches, one per
 * threshold from the highest down, each root keeping the list of the
 * pixels of its cluster, and after each batch the pixels of the clusters
 * recorded as updated in that batch marked in a mask when their size lies
 * in [sizeMin, sizeMax].
 */
module Nuclei {
  import opened Grid
  import opened UnionFind
  import opened WatershedInv
  import opened Watershed
  import opened Walks
  import opened Seqs
  import opened NCluster

  /** Root r's list holds each pixel of its cluster exactly once. */
  ghost predicate Owns(next: seq<int>, h: seq<nat>, pixels: seq<seq<int>>, r: int)
    requires Forest(next, h) && 0 <= r < |pixels|
  {
    NoDup(pixels[r]) && Elems(pixels[r]) == Members(next, h, r)
  }

  /** Every root's list holds its cluster, every other list is empty (lines 162, 172-180, 188-191). */
  ghost predicate Lists(next: seq<int>, h: seq<nat>, pixels: seq<seq<int>>)
    requires Forest(next, h)
  {
    && |pixels| == |next|
    && (forall r :: 0 <= r < |next| && next[r] != r ==> pixels[r] == [])
    && (forall r :: 0 <= r < |next| && next[r] == r ==> Owns(next, h, pixels, r))
  }

  /**
   * The lists while pixel p is visited: as Lists, except that p, while it
   * is on its own (cl = -1), is a root whose list is still empty; once it
   * has joined, it lies in the cluster rooted at cl.
   */
  ghost predicate Listed(next: seq<int>, h: seq<nat>, pixels: seq<seq<int>>, p: int, cl: int) {
    && 0 <= p < |next| && Forest(next, h) && |pixels| == |next| && next[p] >= 0
    && (forall r :: 0 <= r < |next| && next[r] != r ==> pixels[r] == [])
    && (forall r :: 0 <= r < |next| && next[r] == r && r != p ==> Owns(next, h, pixels, r))
    && (cl == -1 ==> next[p] == p && Members(next, h, p) == {p} && pixels[p] == [])
    && (cl != -1 ==> 0 <= cl < |next| && next[cl] == cl && cl != p && next[p] != p && Top(next, h, p) == cl)
  }

  /** The state in the middle of the visit of pixel p (lines 131-185), after j of its four directions. */
  ghost predicate Visiting(nx: nat, ny: nat, next: seq<int>, h: seq<nat>, pixels: seq<seq<int>>, p: int, cl: int, j: int) {
    && |next| == nx * ny && 0 <= j <= 4
    && Listed(next, h, pixels, p, cl)
    && JoinedBut(nx, ny, next, h, p) && NDone(nx, ny, next, h, p, j)
  }

  /** Visiting, with every cluster connected and the clusters touched so far in the batch recorded. */
  ghost predicate Step(nx: nat, ny: nat, next: seq<int>, h: seq<nat>, pixels: seq<seq<int>>, p: int, cl: int, j: int,
                       touched: set<int>, updated: set<int>, sizeMin: nat, sizeMax: nat, inclusive: bool) {
    && Visiting(nx, ny, next, h, pixels, p, cl, j) && Spanned(nx, ny, next, h)
    && Recorded(touched, updated, next, pixels, sizeMin, sizeMax, inclusive) && p !in touched
  }

  /** Neighbour offsets of `mark_nuclei` (lines 100-101): left, right, top, down. */
  const NDX: seq<int> := [-1, 1, 0, 0]
  const NDY: seq<int> := [0, 0, -1, 1]

  /** The j-th direction `mark_nuclei` visits, as a direction of Nb. */
  function NDir(j: int): (d: int)
    requires 0 <= j < 4
    ensures 0 <= d < 4 && DX[d] == NDX[j] && DY[d] == NDY[j]
  {
    [3, 1, 2, 0][j]
  }

  /** The flooded neighbours of p in the first j directions of its visit share its cluster. */
  ghost predicate NDone(nx: nat, ny: nat, next: seq<int>, h: seq<nat>, p: int, j: int)
    requires Forest(next, h) && |next| == nx * ny && 0 <= p < |next| && next[p] >= 0 && j <= 4
  {
    forall j' :: 0 <= j' < j && Nb(nx, ny, p, NDir(j')) >= 0 && next[Nb(nx, ny, p, NDir(j'))] >= 0 ==>
      Top(next, h, Nb(nx, ny, p, NDir(j'))) == Top(next, h, p)
  }

  /**
   * A union that maps tops to tops keeps the directions already visited, and
   * one that brings p's neighbour in direction NDir(j) into p's cluster
   * completes that direction.
   */
  lemma {:induction false} NDoneStep(nx: nat, ny: nat, next: seq<int>, h: seq<nat>, next': seq<int>, h': seq<nat>, p: int, j: int)
    requires Forest(next, h) && |next| == nx * ny && 0 <= p < |next| && next[p] >= 0 && 0 <= j < 4
    requires NDone(nx, ny, next, h, p, j) && Forest(next', h') && |next'| == |next|
    requires forall k :: 0 <= k < |next| ==> (next'[k] >= 0 <==> next[k] >= 0)
    requires forall a :: 0 <= a < |next| && next[a] >= 0 && Top(next, h, a) == Top(next, h, p)
               ==> Top(next', h', a) == Top(next', h', p)
    requires Nb(nx, ny, p, NDir(j)) >= 0 && next[Nb(nx, ny, p, NDir(j))] >= 0 ==>
               Top(next', h', Nb(nx, ny, p, NDir(j))) == Top(next', h', p)
    ensures NDone(nx, ny, next', h', p, j + 1)
  {
    forall j' | 0 <= j' < j && Nb(nx, ny, p, NDir(j')) >= 0 && next'[Nb(nx, ny, p, NDir(j'))] >= 0
      ensures Top(next', h', Nb(nx, ny, p, NDir(j'))) == Top(next', h', p)
    {
      assert Top(next, h, Nb(nx, ny, p, NDir(j'))) == Top(next, h, p);
    }
  }

  /** All four directions of `mark_nuclei` are all four directions of Nb. */
  lemma NDoneAll(nx: nat, ny: nat, next: seq<int>, h: seq<nat>, p: int)
    requires Forest(next, h) && |next| == nx * ny && 0 <= p < |next| && next[p] >= 0
    requires NDone(nx, ny, next, h, p, 4)
    ensures Done(nx, ny, next, h, p, 0, 4)
  {
    forall j | 0 <= j < 4 && Nb(nx, ny, p, Turn(0, j)) >= 0 && next[Nb(nx, ny, p, Turn(0, j))] >= 0
      ensures Top(next, h, Nb(nx, ny, p, Turn(0, j))) == Top(next, h, p)
    {
      assert Turn(0, j) == j == NDir(NDir(j));
    }
  }

  /**
   * A size s that a cluster must be recorded for: in [sizeMin, sizeMax),
   * and also at sizeMax when inclusive.
   */
  predicate Fits(s: int, sizeMin: nat, sizeMax: nat, inclusive: bool) {
    sizeMin <= s && (s < sizeMax || (inclusive && s == sizeMax))
  }

  /**
   * The clusters touched in this batch (T, the ones a pixel joined or
   * another cluster merged into) are flooded, and each that is still a
   * root and whose size fits is in the updated set U.
   */
  ghost predicate Recorded(touched: set<int>, updated: set<int>, next: seq<int>, pixels: seq<seq<int>>,
                           sizeMin: nat, sizeMax: nat, inclusive: bool)
    requires |pixels| == |next|
  {
    && updated <= touched
    && forall c :: c in touched ==>
      && 0 <= c < |next| && next[c] >= 0
      && (next[c] == c && Fits(|pixels[c]|, sizeMin, sizeMax, inclusive) ==> c in updated)
  }

  /**
   * Between the lists (n0, x0) and (n1, x1): every root of n1 whose list
   * holds at least two pixels and was not already that root's list in
   * (n0, x0) is in touched. A pixel that rose and met no cluster holds a
   * list of one and is left out, as lines 187-191 record no such cluster.
   */
  ghost predicate Tracked(touched: set<int>, n0: seq<int>, x0: seq<seq<int>>, n1: seq<int>, x1: seq<seq<int>>) {
    forall c {:trigger Changed(n0, x0, n1, x1, c)} :: Changed(n0, x0, n1, x1, c) ==> c in touched
  }

  /** c is a root of n1 whose list holds at least two pixels and is not already its list as a root of n0. */
  ghost predicate Changed(n0: seq<int>, x0: seq<seq<int>>, n1: seq<int>, x1: seq<seq<int>>, c: int) {
    0 <= c < |n1| && c < |x1| && c < |n0| && c < |x0| && n1[c] == c && |x1[c]| >= 2 && !(n0[c] == c && x1[c] == x0[c])
  }

  /** Tracked composes: a cluster that changed over two stretches changed in one of them. */
  lemma TrackedTrans(t1: set<int>, t2: set<int>, n0: seq<int>, x0: seq<seq<int>>, n1: seq<int>, x1: seq<seq<int>>,
                     n2: seq<int>, x2: seq<seq<int>>)
    requires |n0| == |x0| == |n1| == |x1| == |n2| == |x2| && t1 <= t2
    requires Tracked(t1, n0, x0, n1, x1) && Tracked(t2, n1, x1, n2, x2)
    ensures Tracked(t2, n0, x0, n2, x2)
  {
    forall c | Changed(n0, x0, n2, x2, c)
      ensures c in t2
    {
      if !Changed(n1, x1, n2, x2, c) {
        assert Changed(n0, x0, n1, x1, c);
      }
    }
  }

  /** The updated set after a pixel joins cluster t, which then has s1 pixels (lines 163-166). */
  function JoinUpdate(updated: set<int>, t: int, s1: int, sizeMin: nat, sizeMax: nat): set<int> {
    if sizeMin <= s1 <= sizeMax then updated + {t} else updated
  }

  /** The updated set after a merge into cluster cl, which then has s pixels (lines 182-183, or Fits). */
  function MergeUpdate(updated: set<int>, cl: int, s: int, sizeMin: nat, sizeMax: nat, inclusive: bool): set<int> {
    if Fits(s, sizeMin, sizeMax, inclusive) then updated + {cl} else updated
  }

  /** k is a pixel of a cluster in U whose size lies in [sizeMin, sizeMax]: the pixels lines 195-199 mark. */
  ghost predicate MarkedBy(pixels: seq<seq<int>>, updated: set<int>, sizeMin: nat, sizeMax: nat, k: int) {
    exists c :: c in updated && 0 <= c < |pixels| && sizeMin <= |pixels[c]| <= sizeMax && k in pixels[c]
  }

  /** A state of the marker's arrays, kept for the end of each batch. */
  datatype NSnap = NSnap(next: seq<int>, h: seq<nat>, pixels: seq<seq<int>>)

  /**
   * The state s at the end of the batch for threshold: exactly the pixels
   * at or above it are flooded, flooded neighbours share a cluster, every
   * cluster is connected, and every root's list holds its cluster.
   */
  ghost predicate Batched(img: seq<seq<real>>, nx: nat, ny: nat, threshold: real, s: NSnap)
    requires IsGrid(img, nx, ny)
  {
    && |s.next| == nx * ny && Forest(s.next, s.h)
    && Lists(s.next, s.h, s.pixels) && Joined(nx, ny, s.next, s.h) && Spanned(nx, ny, s.next, s.h)
    && forall k :: 0 <= k < nx * ny ==> (s.next[k] >= 0 <==> Value(img, nx, ny, k) >= threshold)
  }

  /** `merge_pixels` (lines 32-41): the list of index2 goes in front of the list of index1, and is emptied. */
  method MergePixels(pixels: array<seq<int>>, index1: int, index2: int)
    requires 0 <= index1 < pixels.Length && 0 <= index2 < pixels.Length && index1 != index2
    modifies pixels
    ensures pixels[..] == old(pixels[..])[index1 := old(pixels[index2]) + old(pixels[index1])][index2 := []]
  {
    pixels[index1] := pixels[index2] + pixels[index1];
    pixels[index2] := [];
  }

  /** `mark_pixels` (lines 44-50): the mask is set at every pixel of q, and nowhere else. */
  method MarkPixels(q: seq<int>, mask: array<bool>)
    requires forall x :: x in q ==> 0 <= x < mask.Length
    modifies mask
    ensures forall k :: 0 <= k < mask.Length ==> mask[k] == (old(mask[k]) || k in q)
  {
    for t := 0 to |q|
      invariant forall k :: 0 <= k < mask.Length ==> mask[k] == (old(mask[k]) || k in q[..t])
    {
      assert q[..t + 1] == q[..t] + [q[t]] && q[t] in q;
      mask[q[t]] := true;
    }
    assert q[..|q|] == q;
  }

  /** Every pixel of a list is flooded and lies in the cluster of the list's root. */
  lemma ListedPixel(next: seq<int>, h: seq<nat>, pixels: seq<seq<int>>, c: int, k: int)
    requires Forest(next, h) && Lists(next, h, pixels) && 0 <= c < |next| && k in pixels[c]
    ensures next[c] == c && 0 <= k < |next| && next[k] >= 0 && Top(next, h, k) == c
  {
    assert k in Elems(pixels[c]);
  }

  /**
   * Every pixel lines 195-199 mark lies, at the end of the batch, in a
   * cluster whose size lies in [sizeMin, sizeMax].
   */
  lemma MarkedIsNucleus(next: seq<int>, h: seq<nat>, pixels: seq<seq<int>>, updated: set<int>,
                        sizeMin: nat, sizeMax: nat, k: int)
    requires Forest(next, h) && Lists(next, h, pixels) && MarkedBy(pixels, updated, sizeMin, sizeMax, k)
    ensures 0 <= k < |next| && next[k] >= 0
    ensures sizeMin <= |Members(next, h, Top(next, h, k))| <= sizeMax
  {
    var c :| c in updated && 0 <= c < |pixels| && sizeMin <= |pixels[c]| <= sizeMax && k in pixels[c];
    ListedPixel(next, h, pixels, c, k);
    NoDupCard(pixels[c]);
  }

  /**
   * Every root touched in the batch whose size fits has all the pixels of
   * its cluster marked by lines 195-199.
   */
  lemma RecordedIsMarked(next: seq<int>, h: seq<nat>, pixels: seq<seq<int>>, touched: set<int>, updated: set<int>,
                         sizeMin: nat, sizeMax: nat, inclusive: bool, c: int, k: int)
    requires Forest(next, h) && Lists(next, h, pixels)
    requires Recorded(touched, updated, next, pixels, sizeMin, sizeMax, inclusive)
    requires c in touched && next[c] == c && Fits(|Members(next, h, c)|, sizeMin, sizeMax, inclusive)
    requires k in Members(next, h, c)
    ensures MarkedBy(pixels, updated, sizeMin, sizeMax, k)
  {
    NoDupCard(pixels[c]);
    assert k in Elems(pixels[c]);
  }

  /** Pixel p rises on its own (line 131) and its visit begins. */
  lemma {:induction false} FloodStart(nx: nat, ny: nat, next: seq<int>, h: seq<nat>, pixels: seq<seq<int>>, p: int)
    requires |next| == nx * ny && 0 <= p < |next| && next[p] < 0
    requires Forest(next, h) && Lists(next, h, pixels) && Joined(nx, ny, next, h)
    ensures Visiting(nx, ny, next[p := p], h, pixels, p, -1, 0)
    ensures Flooded(next[p := p]) == Flooded(next) + {p}
  {
    var next' := next[p := p];
    FloodNew(next, h, p);
    forall r | 0 <= r < |next| && next'[r] == r && r != p
      ensures Owns(next', h, pixels, r)
    {
      assert Owns(next, h, pixels, r);
    }
    forall a, d | 0 <= a < |next| && a != p && 0 <= d < 4 && next'[a] >= 0 && Nb(nx, ny, a, d) >= 0 &&
                  Nb(nx, ny, a, d) != p && next'[Nb(nx, ny, a, d)] >= 0
      ensures Top(next', h, a) == Top(next', h, Nb(nx, ny, a, d))
    {
      assert Top(next, h, a) == Top(next, h, Nb(nx, ny, a, d));
    }
  }

  /**
   * The list part of lines 157-166: p, on its own, joins the cluster t of its
   * flooded neighbour q, and goes to the end of t's list.
   */
  lemma {:induction false} JoinLists(next: seq<int>, h: seq<nat>, pixels: seq<seq<int>>, p: int, q: int)
    requires Listed(next, h, pixels, p, -1)
    requires 0 <= q < |next| && q != p && next[q] >= 0
    ensures var t := Top(next, h, q);
      && t != p
      && Listed(next[p := t], Raise(h, p, t), pixels[t := pixels[t] + [p]], p, t)
      && (forall k :: 0 <= k < |next| && next[k] >= 0 ==>
            Top(next[p := t], Raise(h, p, t), k) == if Top(next, h, k) == p then t else Top(next, h, k))
  {
    var t := Top(next, h, q);
    assert q in Members(next, h, t);
    var next', h', pixels' := next[p := t], Raise(h, p, t), pixels[t := pixels[t] + [p]];
    Link(next, h, p, t);
    TopStep(next', h', p);
    assert Owns(next, h, pixels, t);
    assert p !in Elems(pixels[t]);
    NoDupSnoc(pixels[t], p);
    assert Elems(pixels'[t]) == Elems(pixels[t]) + {p};
    forall r | 0 <= r < |next| && next'[r] == r && r != p && r != t
      ensures Owns(next', h', pixels', r)
    {
      assert Owns(next, h, pixels, r);
    }
  }

  /**
   * The list part of lines 168-184: the cluster nb of p's flooded neighbour
   * is linked under p's cluster cl, and its list goes in front of cl's.
   */
  lemma {:induction false} MergeLists(next: seq<int>, h: seq<nat>, pixels: seq<seq<int>>, p: int, cl: int, nb: int)
    requires Listed(next, h, pixels, p, cl) && cl != -1
    requires 0 <= nb < |next| && next[nb] == nb && nb != cl
    ensures Listed(next[nb := cl], Raise(h, nb, cl), pixels[cl := pixels[nb] + pixels[cl]][nb := []], p, cl)
    ensures forall k :: 0 <= k < |next| && next[k] >= 0 ==>
              Top(next[nb := cl], Raise(h, nb, cl), k) == if Top(next, h, k) == nb then cl else Top(next, h, k)
  {
    var next', h', pixels' := next[nb := cl], Raise(h, nb, cl), pixels[cl := pixels[nb] + pixels[cl]][nb := []];
    Link(next, h, nb, cl);
    assert Owns(next, h, pixels, nb) && Owns(next, h, pixels, cl);
    forall x | x in pixels[cl]
      ensures x !in pixels[nb]
    {
      assert x in Elems(pixels[cl]);
      assert x !in Elems(pixels[nb]);
    }
    NoDupConcat(pixels[nb], pixels[cl]);
    assert Elems(pixels'[cl]) == Elems(pixels[nb]) + Elems(pixels[cl]);
    forall r | 0 <= r < |next| && next'[r] == r && r != p && r != cl
      ensures Owns(next', h', pixels', r)
    {
      assert Owns(next, h, pixels, r);
    }
  }

  /** Lines 157-166 for the neighbour in direction j: p joins its cluster. */
  lemma {:induction false} JoinStep(nx: nat, ny: nat, next: seq<int>, h: seq<nat>, pixels: seq<seq<int>>, p: int, j: int)
    requires Visiting(nx, ny, next, h, pixels, p, -1, j) && j < 4
    requires Nb(nx, ny, p, NDir(j)) >= 0 && next[Nb(nx, ny, p, NDir(j))] >= 0
    ensures var t := Top(next, h, Nb(nx, ny, p, NDir(j)));
      && t != p
      && Visiting(nx, ny, next[p := t], Raise(h, p, t), pixels[t := pixels[t] + [p]], p, t, j + 1)
      && Flooded(next[p := t]) == Flooded(next)
  {
    var q := Nb(nx, ny, p, NDir(j));
    JoinLists(next, h, pixels, p, q);
    var t := Top(next, h, q);
    JoinedButStep(nx, ny, next, h, next[p := t], Raise(h, p, t), p);
    NDoneStep(nx, ny, next, h, next[p := t], Raise(h, p, t), p, j);
    assert Flooded(next[p := t]) == Flooded(next);
  }

  /** Lines 168-184 for the neighbour in direction j: its cluster merges into p's. */
  lemma {:induction false} MergeStep(nx: nat, ny: nat, next: seq<int>, h: seq<nat>, pixels: seq<seq<int>>,
                                     p: int, cl: int, j: int)
    requires Visiting(nx, ny, next, h, pixels, p, cl, j) && cl != -1 && j < 4
    requires Nb(nx, ny, p, NDir(j)) >= 0 && next[Nb(nx, ny, p, NDir(j))] >= 0
    requires Top(next, h, Nb(nx, ny, p, NDir(j))) != cl
    ensures var nb := Top(next, h, Nb(nx, ny, p, NDir(j)));
      && Visiting(nx, ny, next[nb := cl], Raise(h, nb, cl), pixels[cl := pixels[nb] + pixels[cl]][nb := []], p, cl, j + 1)
      && Flooded(next[nb := cl]) == Flooded(next)
  {
    var q := Nb(nx, ny, p, NDir(j));
    var nb := Top(next, h, q);
    MergeLists(next, h, pixels, p, cl, nb);
    JoinedButStep(nx, ny, next, h, next[nb := cl], Raise(h, nb, cl), p);
    NDoneStep(nx, ny, next, h, next[nb := cl], Raise(h, nb, cl), p, j);
    assert Flooded(next[nb := cl]) == Flooded(next);
  }

  /** Linking the cluster of p's flooded neighbour q under p's cluster cl keeps every cluster connected. */
  lemma MergeSpan(nx: nat, ny: nat, next: seq<int>, h: seq<nat>, p: int, cl: int, q: int)
    requires Forest(next, h) && Spanned(nx, ny, next, h)
    requires 0 <= p < |next| && next[p] >= 0 && 0 <= cl < |next| && next[cl] == cl && Top(next, h, p) == cl
    requires 0 <= q < |next| && next[q] >= 0 && (q, p) in Edges(nx, ny) && Top(next, h, q) != cl
    ensures var nb := Top(next, h, q);
      Forest(next[nb := cl], Raise(h, nb, cl)) && Spanned(nx, ny, next[nb := cl], Raise(h, nb, cl))
  {
    SpanLink(nx, ny, next, h, Top(next, h, q), cl, q, p);
  }

  /** The neighbour in direction j is outside, under water, or already in p's cluster: nothing changes. */
  lemma {:induction false} PassStep(nx: nat, ny: nat, next: seq<int>, h: seq<nat>, pixels: seq<seq<int>>,
                                    p: int, cl: int, j: int)
    requires Visiting(nx, ny, next, h, pixels, p, cl, j) && j < 4
    requires Nb(nx, ny, p, NDir(j)) >= 0 && next[Nb(nx, ny, p, NDir(j))] >= 0 ==> cl != -1 && Top(next, h, Nb(nx, ny, p, NDir(j))) == cl
    ensures Visiting(nx, ny, next, h, pixels, p, cl, j + 1)
  {
    NDoneStep(nx, ny, next, h, next, h, p, j);
  }

  /** Recording t after p joined it (lines 163-166) keeps the touched roots that fit recorded. */
  lemma JoinRecord(touched: set<int>, updated: set<int>, next: seq<int>, pixels: seq<seq<int>>,
                   sizeMin: nat, sizeMax: nat, inclusive: bool, p: int, t: int, updated': set<int>)
    requires |pixels| == |next| && 0 <= p < |next| && 0 <= t < |next| && p != t && p !in touched && next[t] == t
    requires Recorded(touched, updated, next, pixels, sizeMin, sizeMax, inclusive)
    requires updated' == JoinUpdate(updated, t, |pixels[t]| + 1, sizeMin, sizeMax)
    ensures Recorded(touched + {t}, updated', next[p := t], pixels[t := pixels[t] + [p]], sizeMin, sizeMax, inclusive)
  {
  }

  /** Recording cl after nb merged into it (lines 175-183) keeps the touched roots that fit recorded. */
  lemma MergeRecord(touched: set<int>, updated: set<int>, next: seq<int>, pixels: seq<seq<int>>,
                    sizeMin: nat, sizeMax: nat, inclusive: bool, p: int, cl: int, nb: int, updated': set<int>)
    requires |pixels| == |next| && 0 <= cl < |next| && 0 <= nb < |next| && cl != nb && next[cl] == cl
    requires Recorded(touched, updated, next, pixels, sizeMin, sizeMax, inclusive)
    requires updated' == MergeUpdate(updated, cl, |pixels[nb]| + |pixels[cl]|, sizeMin, sizeMax, inclusive)
    ensures Recorded(touched + {cl}, updated', next[nb := cl], pixels[cl := pixels[nb] + pixels[cl]][nb := []],
                     sizeMin, sizeMax, inclusive)
  {
  }

  /**
   * After the four directions (lines 187-191): flooded neighbours share a
   * cluster, and p, still on its own, gets the list [p].
   */
  lemma {:induction false} FinishPixel(nx: nat, ny: nat, next: seq<int>, h: seq<nat>, pixels: seq<seq<int>>, p: int, cl: int)
    requires Visiting(nx, ny, next, h, pixels, p, cl, 4)
    ensures Joined(nx, ny, next, h)
    ensures next[p] == p ==> pixels[p] == [] && Lists(next, h, pixels[p := [p]])
    ensures next[p] != p ==> Lists(next, h, pixels)
  {
    NDoneAll(nx, ny, next, h, p);
    NearJoined(nx, ny, next, h, p, 0);
    if next[p] == p {
      var pixels' := pixels[p := [p]];
      assert Elems([p]) == {p};
      forall r | 0 <= r < |next| && next[r] == r
        ensures Owns(next, h, pixels', r)
      {
        if r != p {
          assert Owns(next, h, pixels, r);
        }
      }
    } else {
      forall r | 0 <= r < |next| && next[r] == r
        ensures Owns(next, h, pixels, r)
      {
      }
    }
  }

  /**
   * Lines 136-184 for the neighbour in direction j: when inside the image
   * and flooded, p joins its cluster or merges it into its own, and the
   * cluster that grew is recorded when its size fits.
   */
  method Visit(nx: nat, ny: nat, next: array<int>, pixels: array<seq<int>>, ghost h: seq<nat>,
               p: int, cl: int, j: int, updated: set<int>, ghost touched: set<int>,
               sizeMin: nat, sizeMax: nat, inclusive: bool)
    returns (cl': int, updated': set<int>, ghost h': seq<nat>, ghost touched': set<int>)
    requires 0 <= j < 4
    requires Step(nx, ny, next[..], h, pixels[..], p, cl, j, touched, updated, sizeMin, sizeMax, inclusive)
    requires cl != -1 ==> next[p] == cl
    modifies next, pixels
    ensures Step(nx, ny, next[..], h', pixels[..], p, cl', j + 1, touched', updated', sizeMin, sizeMax, inclusive)
    ensures Flooded(next[..]) == Flooded(old(next[..]))
    ensures cl != -1 ==> cl' == cl
    ensures cl' != -1 ==> next[p] == cl'
    ensures next[..] == old(next[..]) ==> cl' == cl && pixels[..] == old(pixels[..]) && touched' == touched && updated' == updated
    ensures next[..] != old(next[..]) ==> cl' != -1 && touched' == touched + {cl'}
    ensures Tracked(touched', old(next[..]), old(pixels[..]), next[..], pixels[..])
  {
    cl', updated', h', touched' := cl, updated, h, touched;
    SplitIndex(p, nx, ny);
    var ix2 := p / ny + NDX[j];
    var iy2 := p % ny + NDY[j];
    if !(0 <= ix2 < nx && 0 <= iy2 < ny) {
      PassStep(nx, ny, next[..], h, pixels[..], p, cl, j);
      return;
    }
    var index2 := ix2 * ny + iy2;
    assert index2 == Nb(nx, ny, p, NDir(j));
    if next[index2] < 0 {
      PassStep(nx, ny, next[..], h, pixels[..], p, cl, j);
      return;
    }
    var nbr := GetTop(index2, next, h);
    cl', updated', h', touched' := Meet(nx, ny, next, pixels, h, p, cl, j, nbr, updated, touched, sizeMin, sizeMax, inclusive);
  }

  /**
   * Lines 155-184: p meets the cluster nbr of its flooded neighbour in
   * direction j; it joins nbr when on its own, merges nbr into its cluster
   * when they differ, and otherwise changes nothing.
   */
  method Meet(nx: nat, ny: nat, next: array<int>, pixels: array<seq<int>>, ghost h: seq<nat>,
              p: int, cl: int, j: int, nbr: int, updated: set<int>, ghost touched: set<int>,
              sizeMin: nat, sizeMax: nat, inclusive: bool)
    returns (cl': int, updated': set<int>, ghost h': seq<nat>, ghost touched': set<int>)
    requires 0 <= j < 4
    requires Step(nx, ny, next[..], h, pixels[..], p, cl, j, touched, updated, sizeMin, sizeMax, inclusive)
    requires cl != -1 ==> next[p] == cl
    requires Nb(nx, ny, p, NDir(j)) >= 0 && next[Nb(nx, ny, p, NDir(j))] >= 0 && nbr == Top(next[..], h, Nb(nx, ny, p, NDir(j)))
    modifies next, pixels
    ensures Step(nx, ny, next[..], h', pixels[..], p, cl', j + 1, touched', updated', sizeMin, sizeMax, inclusive)
    ensures Flooded(next[..]) == Flooded(old(next[..]))
    ensures cl != -1 ==> cl' == cl
    ensures cl' != -1 ==> next[p] == cl'
    ensures next[..] == old(next[..]) ==> cl' == cl && pixels[..] == old(pixels[..]) && touched' == touched && updated' == updated
    ensures next[..] != old(next[..]) ==> cl' != -1 && touched' == touched + {cl'}
    ensures Tracked(touched', old(next[..]), old(pixels[..]), next[..], pixels[..])
  {
    cl', updated', h', touched' := cl, updated, h, touched;
    if cl == -1 {
      cl', updated', h', touched' := Join(nx, ny, next, pixels, h, p, j, nbr, updated, touched, sizeMin, sizeMax, inclusive);
    } else if cl >= 0 && cl != nbr {
      updated', h', touched' := Merge(nx, ny, next, pixels, h, p, cl, j, nbr, updated, touched, sizeMin, sizeMax, inclusive);
    } else {
      PassStep(nx, ny, next[..], h, pixels[..], p, cl, j);
    }
  }

  /** Lines 157-166 on the state: p joining nbr keeps the visit's invariants. */
  lemma JoinAll(nx: nat, ny: nat, n0: seq<int>, h: seq<nat>, x0: seq<seq<int>>, p: int, j: int, nbr: int,
                updated: set<int>, touched: set<int>, sizeMin: nat, sizeMax: nat, inclusive: bool)
    requires 0 <= j < 4
    requires Step(nx, ny, n0, h, x0, p, -1, j, touched, updated, sizeMin, sizeMax, inclusive)
    requires Nb(nx, ny, p, NDir(j)) >= 0 && n0[Nb(nx, ny, p, NDir(j))] >= 0 && nbr == Top(n0, h, Nb(nx, ny, p, NDir(j)))
    ensures Step(nx, ny, n0[p := nbr], Raise(h, p, nbr), x0[nbr := x0[nbr] + [p]], p, nbr, j + 1, touched + {nbr},
                 JoinUpdate(updated, nbr, |x0[nbr]| + 1, sizeMin, sizeMax), sizeMin, sizeMax, inclusive)
    ensures Flooded(n0[p := nbr]) == Flooded(n0)
  {
    var q := Nb(nx, ny, p, NDir(j));
    var n1, h1, x1 := n0[p := nbr], Raise(h, p, nbr), x0[nbr := x0[nbr] + [p]];
    assert Visiting(nx, ny, n1, h1, x1, p, nbr, j + 1) && nbr != p && Flooded(n1) == Flooded(n0) by {
      JoinStep(nx, ny, n0, h, x0, p, j);
    }
    assert Spanned(nx, ny, n1, h1) by {
      EdgeNb(nx, ny, p, NDir(j));
      SpanJoin(nx, ny, n0, h, p, q);
    }
    assert Recorded(touched + {nbr}, JoinUpdate(updated, nbr, |x0[nbr]| + 1, sizeMin, sizeMax), n1, x1, sizeMin, sizeMax, inclusive) by {
      JoinRecord(touched, updated, n0, x0, sizeMin, sizeMax, inclusive, p, nbr, JoinUpdate(updated, nbr, |x0[nbr]| + 1, sizeMin, sizeMax));
    }
  }

  /** Lines 168-184 on the state: nbr merging into cl keeps the visit's invariants. */
  lemma MergeAll(nx: nat, ny: nat, n0: seq<int>, h: seq<nat>, x0: seq<seq<int>>, p: int, cl: int, j: int, nbr: int,
                 updated: set<int>, touched: set<int>, sizeMin: nat, sizeMax: nat, inclusive: bool)
    requires 0 <= j < 4 && cl != -1
    requires Step(nx, ny, n0, h, x0, p, cl, j, touched, updated, sizeMin, sizeMax, inclusive)
    requires Nb(nx, ny, p, NDir(j)) >= 0 && n0[Nb(nx, ny, p, NDir(j))] >= 0
    requires nbr == Top(n0, h, Nb(nx, ny, p, NDir(j))) && nbr != cl
    ensures Step(nx, ny, n0[nbr := cl], Raise(h, nbr, cl), x0[cl := x0[nbr] + x0[cl]][nbr := []], p, cl, j + 1, touched + {cl},
                 MergeUpdate(updated, cl, |x0[nbr]| + |x0[cl]|, sizeMin, sizeMax, inclusive), sizeMin, sizeMax, inclusive)
    ensures Flooded(n0[nbr := cl]) == Flooded(n0)
  {
    MergeStep(nx, ny, n0, h, x0, p, cl, j);
    EdgeNb(nx, ny, p, NDir(j));
    MergeSpan(nx, ny, n0, h, p, cl, Nb(nx, ny, p, NDir(j)));
    MergeRecord(touched, updated, n0, x0, sizeMin, sizeMax, inclusive, p, cl, nbr,
                MergeUpdate(updated, cl, |x0[nbr]| + |x0[cl]|, sizeMin, sizeMax, inclusive));
  }

  /** Lines 157-166: p, on its own, joins the cluster nbr of its neighbour in direction j. */
  method Join(nx: nat, ny: nat, next: array<int>, pixels: array<seq<int>>, ghost h: seq<nat>,
              p: int, j: int, nbr: int, updated: set<int>, ghost touched: set<int>,
              sizeMin: nat, sizeMax: nat, inclusive: bool)
    returns (cl': int, updated': set<int>, ghost h': seq<nat>, ghost touched': set<int>)
    requires 0 <= j < 4
    requires Step(nx, ny, next[..], h, pixels[..], p, -1, j, touched, updated, sizeMin, sizeMax, inclusive)
    requires Nb(nx, ny, p, NDir(j)) >= 0 && next[Nb(nx, ny, p, NDir(j))] >= 0 && nbr == Top(next[..], h, Nb(nx, ny, p, NDir(j)))
    modifies next, pixels
    ensures cl' == nbr && next[..] == old(next[..])[p := nbr] && pixels[..] == old(pixels[..])[nbr := old(pixels[nbr]) + [p]]
    ensures updated' == JoinUpdate(updated, nbr, |old(pixels[nbr])| + 1, sizeMin, sizeMax) && touched' == touched + {nbr}
    ensures next[..] != old(next[..]) && Tracked(touched', old(next[..]), old(pixels[..]), next[..], pixels[..])
    ensures Step(nx, ny, next[..], h', pixels[..], p, cl', j + 1, touched', updated', sizeMin, sizeMax, inclusive)
    ensures Flooded(next[..]) == Flooded(old(next[..]))
  {
    ghost var n0, x0 := next[..], pixels[..];
    ghost var n1, x1, h1 := n0[p := nbr], x0[nbr := x0[nbr] + [p]], Raise(h, p, nbr);
    ghost var u1 := JoinUpdate(updated, nbr, |x0[nbr]| + 1, sizeMin, sizeMax);
    JoinAll(nx, ny, n0, h, x0, p, j, nbr, updated, touched, sizeMin, sizeMax, inclusive);
    cl' := nbr;
    JoinWrite(next, pixels, p, cl');
    var s1 := |pixels[cl']|;
    updated' := RecordJoin(updated, cl', s1, sizeMin, sizeMax);
    h', touched' := h1, touched + {nbr};
  }

  /** Lines 165-166: t is recorded when its new size s1 lies in [sizeMin, sizeMax]. */
  method RecordJoin(updated: set<int>, t: int, s1: int, sizeMin: nat, sizeMax: nat) returns (updated': set<int>)
    ensures updated' == JoinUpdate(updated, t, s1, sizeMin, sizeMax)
  {
    updated' := updated;
    if sizeMin <= s1 && s1 <= sizeMax {
      updated' := updated + {t};
    }
  }

  /** Lines 160-162, the writes: p goes under t and to the end of t's list. */
  method JoinWrite(next: array<int>, pixels: array<seq<int>>, p: int, t: int)
    requires 0 <= p < next.Length && 0 <= t < pixels.Length
    modifies next, pixels
    ensures next[..] == old(next[..])[p := t]
    ensures pixels[..] == old(pixels[..])[t := old(pixels[t]) + [p]]
  {
    next[p] := t;
    pixels[t] := pixels[t] + [p];
  }

  /** Lines 168-184: the cluster nbr of p's neighbour in direction j, not p's cluster cl, is merged into cl. */
  method Merge(nx: nat, ny: nat, next: array<int>, pixels: array<seq<int>>, ghost h: seq<nat>,
               p: int, cl: int, j: int, nbr: int, updated: set<int>, ghost touched: set<int>,
               sizeMin: nat, sizeMax: nat, inclusive: bool)
    returns (updated': set<int>, ghost h': seq<nat>, ghost touched': set<int>)
    requires 0 <= j < 4 && cl != -1
    requires Step(nx, ny, next[..], h, pixels[..], p, cl, j, touched, updated, sizeMin, sizeMax, inclusive)
    requires Nb(nx, ny, p, NDir(j)) >= 0 && next[Nb(nx, ny, p, NDir(j))] >= 0
    requires nbr == Top(next[..], h, Nb(nx, ny, p, NDir(j))) && nbr != cl
    modifies next, pixels
    ensures next[..] == old(next[..])[nbr := cl] && pixels[..] == old(pixels[..])[cl := old(pixels[nbr]) + old(pixels[cl])][nbr := []]
    ensures updated' == MergeUpdate(updated, cl, |old(pixels[nbr])| + |old(pixels[cl])|, sizeMin, sizeMax, inclusive)
    ensures touched' == touched + {cl}
    ensures next[..] != old(next[..]) && Tracked(touched', old(next[..]), old(pixels[..]), next[..], pixels[..])
    ensures Step(nx, ny, next[..], h', pixels[..], p, cl, j + 1, touched', updated', sizeMin, sizeMax, inclusive)
    ensures Flooded(next[..]) == Flooded(old(next[..]))
  {
    ghost var n0, x0 := next[..], pixels[..];
    ghost var n1, x1, h1 := n0[nbr := cl], x0[cl := x0[nbr] + x0[cl]][nbr := []], Raise(h, nbr, cl);
    ghost var u1 := MergeUpdate(updated, cl, |x0[nbr]| + |x0[cl]|, sizeMin, sizeMax, inclusive);
    MergeAll(nx, ny, n0, h, x0, p, cl, j, nbr, updated, touched, sizeMin, sizeMax, inclusive);
    var s := MergeWrite(next, pixels, nbr, cl);
    assert next[..] == n1 && pixels[..] == x1 && s == |x0[nbr]| + |x0[cl]|;
    updated' := RecordMerge(updated, cl, s, sizeMin, sizeMax, inclusive);
    h', touched' := h1, touched + {cl};
  }

  /** Lines 182-183: cl is recorded when the merged size s lies in [sizeMin, sizeMax), or at sizeMax when inclusive. */
  method RecordMerge(updated: set<int>, cl: int, s: int, sizeMin: nat, sizeMax: nat, inclusive: bool) returns (updated': set<int>)
    ensures updated' == MergeUpdate(updated, cl, s, sizeMin, sizeMax, inclusive)
  {
    updated' := updated;
    if sizeMin <= s && (s < sizeMax || (inclusive && s == sizeMax)) {
      updated' := updated + {cl};
    }
  }

  /** Lines 172-180, the writes: nb goes under cl, its list in front of cl's; s is the size of the merged cluster. */
  method MergeWrite(next: array<int>, pixels: array<seq<int>>, nb: int, cl: int) returns (s: int)
    requires 0 <= nb < next.Length && 0 <= cl < pixels.Length && 0 <= nb < pixels.Length && nb != cl
    modifies next, pixels
    ensures next[..] == old(next[..])[nb := cl]
    ensures pixels[..] == old(pixels[..])[cl := old(pixels[nb]) + old(pixels[cl])][nb := []]
    ensures s == |old(pixels[nb])| + |old(pixels[cl])|
  {
    next[nb] := cl;
    var s1 := |pixels[cl]|;
    var s2 := |pixels[nb]|;
    s := s1 + s2;
    MergePixels(pixels, cl, nb);
  }

  /**
   * Lines 127-191 for the pixel p: it rises, joins or bridges the clusters
   * of its flooded neighbours, records the clusters that grew into a size
   * that fits, and starts a list of its own when it met none.
   */
  method Rise(nx: nat, ny: nat, next: array<int>, pixels: array<seq<int>>, ghost h: seq<nat>, p: int,
              updated: set<int>, ghost touched: set<int>, sizeMin: nat, sizeMax: nat, inclusive: bool)
    returns (updated': set<int>, ghost h': seq<nat>, ghost touched': set<int>)
    requires next.Length == nx * ny && pixels.Length == next.Length && 0 <= p < next.Length && next[p] < 0
    requires Forest(next[..], h) && Lists(next[..], h, pixels[..]) && Joined(nx, ny, next[..], h) && Spanned(nx, ny, next[..], h)
    requires Recorded(touched, updated, next[..], pixels[..], sizeMin, sizeMax, inclusive)
    modifies next, pixels
    ensures Forest(next[..], h') && Lists(next[..], h', pixels[..]) && Joined(nx, ny, next[..], h') && Spanned(nx, ny, next[..], h')
    ensures Recorded(touched', updated', next[..], pixels[..], sizeMin, sizeMax, inclusive)
    ensures Flooded(next[..]) == Flooded(old(next[..])) + {p}
    ensures touched' == touched + (if next[p] == p then {} else {next[p]})
    ensures Tracked(touched', old(next[..]), old(pixels[..]), next[..], pixels[..])
  {
    FloodPixel(nx, ny, next, pixels, h, p, updated, touched, sizeMin, sizeMax, inclusive);
    updated', h', touched' := updated, h, touched;
    var cl := -1;
    for j := 0 to 4
      invariant Step(nx, ny, next[..], h', pixels[..], p, cl, j, touched', updated', sizeMin, sizeMax, inclusive)
      invariant Flooded(next[..]) == Flooded(old(next[..])) + {p}
      invariant cl != -1 ==> next[p] == cl
      invariant touched' == touched + (if cl == -1 then {} else {cl})
      invariant Tracked(touched', old(next[..]), old(pixels[..]), next[..], pixels[..])
    {
      ghost var n1, x1, t1 := next[..], pixels[..], touched';
      cl, updated', h', touched' := Visit(nx, ny, next, pixels, h', p, cl, j, updated', touched', sizeMin, sizeMax, inclusive);
      TrackedTrans(t1, touched', old(next[..]), old(pixels[..]), n1, x1, next[..], pixels[..]);
    }
    ghost var n1, x1 := next[..], pixels[..];
    Settle(nx, ny, next, pixels, h', p, cl, updated', touched', sizeMin, sizeMax, inclusive);
    TrackedTrans(touched', touched', old(next[..]), old(pixels[..]), n1, x1, next[..], pixels[..]);
  }

  /** Line 131: pixel p rises on its own, and its visit begins. */
  method FloodPixel(nx: nat, ny: nat, next: array<int>, pixels: array<seq<int>>, ghost h: seq<nat>, p: int,
                    ghost updated: set<int>, ghost touched: set<int>, sizeMin: nat, sizeMax: nat, inclusive: bool)
    requires next.Length == nx * ny && pixels.Length == next.Length && 0 <= p < next.Length && next[p] < 0
    requires Forest(next[..], h) && Lists(next[..], h, pixels[..]) && Joined(nx, ny, next[..], h) && Spanned(nx, ny, next[..], h)
    requires Recorded(touched, updated, next[..], pixels[..], sizeMin, sizeMax, inclusive)
    modifies next
    ensures next[..] == old(next[..])[p := p]
    ensures Tracked(touched, old(next[..]), pixels[..], next[..], pixels[..])
    ensures Step(nx, ny, next[..], h, pixels[..], p, -1, 0, touched, updated, sizeMin, sizeMax, inclusive)
    ensures Flooded(next[..]) == Flooded(old(next[..])) + {p}
  {
    FloodStart(nx, ny, next[..], h, pixels[..], p);
    SpanFlood(nx, ny, next[..], h, p);
    RecordedFlood(touched, updated, next[..], pixels[..], sizeMin, sizeMax, inclusive, p);
    next[p] := p;
  }

  /** Lines 187-191: after the four directions, p, when still on its own, gets the list [p]. */
  method Settle(nx: nat, ny: nat, next: array<int>, pixels: array<seq<int>>, ghost h: seq<nat>, p: int, cl: int,
                ghost updated: set<int>, ghost touched: set<int>, sizeMin: nat, sizeMax: nat, inclusive: bool)
    requires Step(nx, ny, next[..], h, pixels[..], p, cl, 4, touched, updated, sizeMin, sizeMax, inclusive)
    modifies pixels
    ensures Forest(next[..], h) && Lists(next[..], h, pixels[..]) && Joined(nx, ny, next[..], h) && Spanned(nx, ny, next[..], h)
    ensures Recorded(touched, updated, next[..], pixels[..], sizeMin, sizeMax, inclusive)
    ensures Tracked(touched, next[..], old(pixels[..]), next[..], pixels[..])
  {
    FinishPixel(nx, ny, next[..], h, pixels[..], p, cl);
    if next[p] == p {
      assert [] + [p] == [p];
      Append(pixels, p, p);
    }
  }

  /** Line 190, the write: x goes to the end of the list of r. */
  method Append(pixels: array<seq<int>>, r: int, x: int)
    requires 0 <= r < pixels.Length
    modifies pixels
    ensures pixels[..] == old(pixels[..])[r := old(pixels[r]) + [x]]
  {
    pixels[r] := pixels[r] + [x];
  }

  /** A pixel that rises is not among the touched clusters, and flooding it keeps them recorded. */
  lemma RecordedFlood(touched: set<int>, updated: set<int>, next: seq<int>, pixels: seq<seq<int>>,
                      sizeMin: nat, sizeMax: nat, inclusive: bool, p: int)
    requires |pixels| == |next| && 0 <= p < |next| && next[p] < 0
    requires Recorded(touched, updated, next, pixels, sizeMin, sizeMax, inclusive)
    ensures p !in touched && Recorded(touched, updated, next[p := p], pixels, sizeMin, sizeMax, inclusive)
  {
  }

  /**
   * The batch of lines 114-192 for threshold: from position i0 down, the
   * pixels at or above threshold rise, until one lies below it or none is
   * left; the cursor only moves down, so each pixel rises once.
   */
  method Batch(img: seq<seq<real>>, nx: nat, ny: nat, order: seq<int>, threshold: real,
               next: array<int>, pixels: array<seq<int>>, ghost h0: seq<nat>, i0: int,
               sizeMin: nat, sizeMax: nat, inclusive: bool)
    returns (i: int, updated: set<int>, ghost h: seq<nat>, ghost touched: set<int>)
    requires IsGrid(img, nx, ny) && IsArgsort(img, nx, ny, order)
    requires State(nx, ny, order, next[..], h0, pixels[..], i0)
    requires forall j :: i0 < j < |order| ==> Value(img, nx, ny, order[j]) >= threshold
    modifies next, pixels
    ensures State(nx, ny, order, next[..], h, pixels[..], i) && i <= i0
    ensures i >= 0 ==> Value(img, nx, ny, order[i]) < threshold
    ensures forall j :: i < j < |order| ==> Value(img, nx, ny, order[j]) >= threshold
    ensures Recorded(touched, updated, next[..], pixels[..], sizeMin, sizeMax, inclusive)
    ensures Tracked(touched, old(next[..]), old(pixels[..]), next[..], pixels[..])
  {
    i, updated, h, touched := i0, {}, h0, {};
    while i >= 0
      invariant State(nx, ny, order, next[..], h, pixels[..], i) && i <= i0
      invariant forall j :: i < j < |order| ==> Value(img, nx, ny, order[j]) >= threshold
      invariant Recorded(touched, updated, next[..], pixels[..], sizeMin, sizeMax, inclusive)
      invariant Tracked(touched, old(next[..]), old(pixels[..]), next[..], pixels[..])
    {
      var index1 := order[i];
      var f1 := Pixel(img, nx, ny, index1);
      if f1 < threshold {
        break;
      }
      DryLowest(img, nx, ny, order, i);
      assert index1 !in Flooded(next[..]);
      DryStep(order, i);
      i := i - 1;
      ghost var n1, x1, t1 := next[..], pixels[..], touched;
      updated, h, touched := Rise(nx, ny, next, pixels, h, index1, updated, touched, sizeMin, sizeMax, inclusive);
      TrackedTrans(t1, touched, old(next[..]), old(pixels[..]), n1, x1, next[..], pixels[..]);
    }
  }

  /** Lines 195-199: the pixels of every cluster of updated whose size lies in [sizeMin, sizeMax] are marked. */
  method MarkUpdated(updated: set<int>, pixels: array<seq<int>>, mask: array<bool>, sizeMin: nat, sizeMax: nat)
    requires forall c :: c in updated ==> 0 <= c < pixels.Length
    requires forall c, x :: 0 <= c < pixels.Length && x in pixels[c] ==> 0 <= x < mask.Length
    modifies mask
    ensures forall k :: 0 <= k < mask.Length ==> mask[k] == (old(mask[k]) || MarkedBy(pixels[..], updated, sizeMin, sizeMax, k))
  {
    ghost var m0 := mask[..];
    var rest, done := updated, {};
    while rest != {}
      invariant done + rest == updated
      invariant forall k :: 0 <= k < mask.Length ==> mask[k] == (m0[k] || MarkedBy(pixels[..], done, sizeMin, sizeMax, k))
      decreases |rest|
    {
      NonEmpty(rest);
      var r :| r in rest;
      MarkCluster(pixels, mask, r, done, m0, sizeMin, sizeMax);
      rest, done := rest - {r}, done + {r};
    }
  }

  /** A set other than the empty one has an element. */
  lemma NonEmpty(s: set<int>)
    requires s != {}
    ensures exists r :: r in s
  {
    if forall r :: r !in s {
      assert false;
    }
  }

  /** One turn of lines 195-199: the pixels of cluster c are marked when its size lies in [sizeMin, sizeMax]. */
  method MarkCluster(pixels: array<seq<int>>, mask: array<bool>, c: int, ghost done: set<int>, ghost m0: seq<bool>,
                     sizeMin: nat, sizeMax: nat)
    requires 0 <= c < pixels.Length && |m0| == mask.Length
    requires forall x :: x in pixels[c] ==> 0 <= x < mask.Length
    requires forall k :: 0 <= k < mask.Length ==> mask[k] == (m0[k] || MarkedBy(pixels[..], done, sizeMin, sizeMax, k))
    modifies mask
    ensures forall k :: 0 <= k < mask.Length ==> mask[k] == (m0[k] || MarkedBy(pixels[..], done + {c}, sizeMin, sizeMax, k))
  {
    var s := |pixels[c]|;
    if sizeMin <= s && s <= sizeMax {
      MarkPixels(pixels[c], mask);
    }
    forall k | 0 <= k < mask.Length
      ensures mask[k] == (m0[k] || MarkedBy(pixels[..], done + {c}, sizeMin, sizeMax, k))
    {
      MarkedAdd(pixels[..], done, c, sizeMin, sizeMax, k);
    }
  }

  /** Adding cluster c to the set marks the pixels of c besides, when its size fits. */
  lemma MarkedAdd(pixels: seq<seq<int>>, done: set<int>, c: int, sizeMin: nat, sizeMax: nat, k: int)
    requires 0 <= c < |pixels|
    ensures MarkedBy(pixels, done + {c}, sizeMin, sizeMax, k) ==
            (MarkedBy(pixels, done, sizeMin, sizeMax, k) || (sizeMin <= |pixels[c]| <= sizeMax && k in pixels[c]))
  {
    if sizeMin <= |pixels[c]| <= sizeMax && k in pixels[c] {
      assert c in done + {c};
    }
  }

  /** k is marked after the batches of snaps: MarkedBy in one of them. */
  ghost predicate Marked(snaps: seq<NSnap>, ups: seq<set<int>>, sizeMin: nat, sizeMax: nat, k: int) {
    exists t :: 0 <= t < |snaps| && t < |ups| && MarkedBy(snaps[t].pixels, ups[t], sizeMin, sizeMax, k)
  }

  /** The state before batch t of a run on n pixels: nothing flooded for the first, else the end of batch t - 1. */
  ghost function Before(n: nat, snaps: seq<NSnap>, t: int): NSnap
    requires 0 <= t <= |snaps|
  {
    if t == 0 then NSnap(seq(n, _ => -1), seq(n, _ => 0), seq(n, _ => [])) else snaps[t - 1]
  }

  /**
   * The batches of snaps, ups and touched are those of the first |snaps|
   * thresholds: each ends Batched, with every cluster it grew to two
   * pixels or more touched, and the touched clusters that fit recorded.
   */
  ghost predicate Run(img: seq<seq<real>>, nx: nat, ny: nat, thresholds: seq<real>, snaps: seq<NSnap>,
                      ups: seq<set<int>>, touched: seq<set<int>>, sizeMin: nat, sizeMax: nat, inclusive: bool)
    requires IsGrid(img, nx, ny)
  {
    && |snaps| <= |thresholds| && |ups| == |snaps| && |touched| == |snaps|
    && forall t {:trigger BatchAt(img, nx, ny, thresholds, snaps, ups, touched, sizeMin, sizeMax, inclusive, t)} ::
      0 <= t < |snaps| ==> BatchAt(img, nx, ny, thresholds, snaps, ups, touched, sizeMin, sizeMax, inclusive, t)
  }

  /**
   * Batch t of a run ends Batched, with every cluster it grew to two
   * pixels or more touched, and the touched clusters that fit recorded.
   */
  ghost predicate BatchAt(img: seq<seq<real>>, nx: nat, ny: nat, thresholds: seq<real>, snaps: seq<NSnap>,
                          ups: seq<set<int>>, touched: seq<set<int>>, sizeMin: nat, sizeMax: nat, inclusive: bool, t: int)
    requires IsGrid(img, nx, ny) && 0 <= t < |snaps| <= |thresholds| && |ups| == |snaps| && |touched| == |snaps|
  {
    && Batched(img, nx, ny, thresholds[t], snaps[t])
    && Recorded(touched[t], ups[t], snaps[t].next, snaps[t].pixels, sizeMin, sizeMax, inclusive)
    && Tracked(touched[t], Before(nx * ny, snaps, t).next, Before(nx * ny, snaps, t).pixels, snaps[t].next, snaps[t].pixels)
  }

  /** One more batch adds its marks to those of the batches before. */
  lemma MarkedSnoc(snaps: seq<NSnap>, ups: seq<set<int>>, s: NSnap, u: set<int>, sizeMin: nat, sizeMax: nat, k: int)
    requires |snaps| == |ups|
    ensures Marked(snaps + [s], ups + [u], sizeMin, sizeMax, k) ==
            (Marked(snaps, ups, sizeMin, sizeMax, k) || MarkedBy(s.pixels, u, sizeMin, sizeMax, k))
  {
    if MarkedBy(s.pixels, u, sizeMin, sizeMax, k) {
      assert (snaps + [s])[|snaps|] == s && (ups + [u])[|snaps|] == u;
    }
    if Marked(snaps, ups, sizeMin, sizeMax, k) {
      var t :| 0 <= t < |snaps| && t < |ups| && MarkedBy(snaps[t].pixels, ups[t], sizeMin, sizeMax, k);
      assert (snaps + [s])[t] == snaps[t] && (ups + [u])[t] == ups[t];
    }
    if Marked(snaps + [s], ups + [u], sizeMin, sizeMax, k) {
      var t :| 0 <= t < |snaps| + 1 && MarkedBy((snaps + [s])[t].pixels, (ups + [u])[t], sizeMin, sizeMax, k);
      if t < |snaps| {
        assert (snaps + [s])[t] == snaps[t] && (ups + [u])[t] == ups[t];
      }
    }
  }

  /** The mask after one more batch: set before the run, or marked by some batch so far. */
  lemma MarksSnoc(m0: seq<bool>, m1: seq<bool>, m2: seq<bool>, snaps: seq<NSnap>, ups: seq<set<int>>,
                  s: NSnap, u: set<int>, sizeMin: nat, sizeMax: nat)
    requires |snaps| == |ups| && |m0| == |m1| == |m2|
    requires forall k :: 0 <= k < |m1| ==> m1[k] == (m0[k] || Marked(snaps, ups, sizeMin, sizeMax, k))
    requires forall k :: 0 <= k < |m2| ==> m2[k] == (m1[k] || MarkedBy(s.pixels, u, sizeMin, sizeMax, k))
    ensures forall k :: 0 <= k < |m2| ==> m2[k] == (m0[k] || Marked(snaps + [s], ups + [u], sizeMin, sizeMax, k))
  {
    forall k | 0 <= k < |m2|
      ensures m2[k] == (m0[k] || Marked(snaps + [s], ups + [u], sizeMin, sizeMax, k))
    {
      MarkedSnoc(snaps, ups, s, u, sizeMin, sizeMax, k);
    }
  }

  /** One more batch, Batched and Recorded, extends the run. */
  lemma RunSnoc(img: seq<seq<real>>, nx: nat, ny: nat, thresholds: seq<real>, snaps: seq<NSnap>,
                ups: seq<set<int>>, touched: seq<set<int>>, sizeMin: nat, sizeMax: nat, inclusive: bool,
                s: NSnap, u: set<int>, tc: set<int>)
    requires IsGrid(img, nx, ny) && Run(img, nx, ny, thresholds, snaps, ups, touched, sizeMin, sizeMax, inclusive)
    requires |snaps| < |thresholds| && Batched(img, nx, ny, thresholds[|snaps|], s)
    requires Recorded(tc, u, s.next, s.pixels, sizeMin, sizeMax, inclusive)
    requires Tracked(tc, Before(nx * ny, snaps, |snaps|).next, Before(nx * ny, snaps, |snaps|).pixels, s.next, s.pixels)
    ensures Run(img, nx, ny, thresholds, snaps + [s], ups + [u], touched + [tc], sizeMin, sizeMax, inclusive)
  {
    var snaps', ups', touched' := snaps + [s], ups + [u], touched + [tc];
    forall t | 0 <= t < |snaps'|
      ensures BatchAt(img, nx, ny, thresholds, snaps', ups', touched', sizeMin, sizeMax, inclusive, t)
    {
      if t < |snaps| {
        assert BatchAt(img, nx, ny, thresholds, snaps, ups, touched, sizeMin, sizeMax, inclusive, t);
        BatchSnoc(img, nx, ny, thresholds, snaps, ups, touched, sizeMin, sizeMax, inclusive, s, u, tc, t);
      } else {
        assert snaps'[t] == s && ups'[t] == u && touched'[t] == tc && Before(nx * ny, snaps', t) == Before(nx * ny, snaps, t);
      }
    }
  }

  /** A batch before the last is unchanged when one more batch is added. */
  lemma BatchSnoc(img: seq<seq<real>>, nx: nat, ny: nat, thresholds: seq<real>, snaps: seq<NSnap>,
                  ups: seq<set<int>>, touched: seq<set<int>>, sizeMin: nat, sizeMax: nat, inclusive: bool,
                  s: NSnap, u: set<int>, tc: set<int>, t: int)
    requires IsGrid(img, nx, ny) && 0 <= t < |snaps| < |thresholds| && |ups| == |snaps| && |touched| == |snaps|
    requires BatchAt(img, nx, ny, thresholds, snaps, ups, touched, sizeMin, sizeMax, inclusive, t)
    ensures BatchAt(img, nx, ny, thresholds, snaps + [s], ups + [u], touched + [tc], sizeMin, sizeMax, inclusive, t)
  {
    assert (snaps + [s])[t] == snaps[t] && (ups + [u])[t] == ups[t] && (touched + [tc])[t] == touched[t];
    assert Before(nx * ny, snaps + [s], t) == Before(nx * ny, snaps, t);
  }

  /**
   * The marker's state while its cursor is at i: the pixels past i in
   * the argsort are flooded, flooded neighbours share a cluster, every
   * cluster is connected, and every root's list holds its cluster.
   */
  ghost predicate State(nx: nat, ny: nat, order: seq<int>, next: seq<int>, h: seq<nat>, pixels: seq<seq<int>>, i: int) {
    && -1 <= i < |order| && |next| == |order| && |next| == nx * ny && Flooded(next) == Dry(order, i)
    && Forest(next, h) && Lists(next, h, pixels) && Joined(nx, ny, next, h) && Spanned(nx, ny, next, h)
  }

  /**
   * One turn of the threshold loop (lines 114-199): the batch for
   * threshold, then the marking of the clusters it recorded.
   */
  method Round(img: seq<seq<real>>, nx: nat, ny: nat, order: seq<int>, threshold: real,
               next: array<int>, pixels: array<seq<int>>, ghost h0: seq<nat>, i0: int,
               sizeMin: nat, sizeMax: nat, mask: array<bool>, inclusive: bool)
    returns (i: int, ghost h: seq<nat>, ghost s: NSnap, ghost updated: set<int>, ghost touched: set<int>)
    requires IsGrid(img, nx, ny) && IsArgsort(img, nx, ny, order) && mask.Length == |order|
    requires State(nx, ny, order, next[..], h0, pixels[..], i0)
    requires forall j :: i0 < j < |order| ==> Value(img, nx, ny, order[j]) >= threshold
    modifies next, pixels, mask
    ensures State(nx, ny, order, next[..], h, pixels[..], i) && i <= i0
    ensures forall j :: i < j < |order| ==> Value(img, nx, ny, order[j]) >= threshold
    ensures s == NSnap(next[..], h, pixels[..]) && Batched(img, nx, ny, threshold, s)
    ensures Recorded(touched, updated, s.next, s.pixels, sizeMin, sizeMax, inclusive)
    ensures Tracked(touched, old(next[..]), old(pixels[..]), s.next, s.pixels)
    ensures forall k :: 0 <= k < mask.Length ==> mask[k] == (old(mask[k]) || MarkedBy(s.pixels, updated, sizeMin, sizeMax, k))
  {
    var u;
    i, u, h, touched := Batch(img, nx, ny, order, threshold, next, pixels, h0, i0, sizeMin, sizeMax, inclusive);
    s := NSnap(next[..], h, pixels[..]);
    BatchEnd(img, nx, ny, order, threshold, i, s);
    UpdatedInRange(s, touched, u, sizeMin, sizeMax, inclusive);
    MarkUpdated(u, pixels, mask, sizeMin, sizeMax);
    updated := u;
  }

  /**
   * `mark_nuclei` (lines 56-204) as written, and with inclusive set the
   * merge test of line 182 made s <= sizeMax: for each threshold in turn,
   * a batch of the flood, then the marking.
   */
  method Mark(img: seq<seq<real>>, nx: nat, ny: nat, order: seq<int>, thresholds: seq<real>,
              sizeMin: nat, sizeMax: nat, mask: array<bool>, inclusive: bool)
    returns (ghost snaps: seq<NSnap>, ghost ups: seq<set<int>>, ghost touched: seq<set<int>>)
    requires IsGrid(img, nx, ny) && IsArgsort(img, nx, ny, order) && Descending(thresholds)
    requires mask.Length == |order|
    modifies mask
    ensures |snaps| == |thresholds| && Run(img, nx, ny, thresholds, snaps, ups, touched, sizeMin, sizeMax, inclusive)
    ensures forall k :: 0 <= k < mask.Length ==> mask[k] == (old(mask[k]) || Marked(snaps, ups, sizeMin, sizeMax, k))
  {
    var n := |order|;
    var next := new int[n](_ => -1);
    var pixels := new seq<int>[n](_ => []);
    ghost var h: seq<nat> := seq(n, _ => 0);
    assert next[..] == seq(n, _ => -1) && pixels[..] == seq(n, _ => []);
    EmptyForest(next[..], h);
    SpanEmpty(nx, ny, next[..], h);
    assert Dry(order, n - 1) == {};
    snaps, ups, touched := Rounds(img, nx, ny, order, thresholds, next, pixels, h, sizeMin, sizeMax, mask, inclusive);
  }

  /** The threshold loop of lines 112-200, from the state where nothing is flooded. */
  method Rounds(img: seq<seq<real>>, nx: nat, ny: nat, order: seq<int>, thresholds: seq<real>,
                next: array<int>, pixels: array<seq<int>>, ghost h0: seq<nat>,
                sizeMin: nat, sizeMax: nat, mask: array<bool>, inclusive: bool)
    returns (ghost snaps: seq<NSnap>, ghost ups: seq<set<int>>, ghost touched: seq<set<int>>)
    requires IsGrid(img, nx, ny) && IsArgsort(img, nx, ny, order) && Descending(thresholds)
    requires mask.Length == |order| && State(nx, ny, order, next[..], h0, pixels[..], |order| - 1)
    requires next[..] == seq(|order|, _ => -1) && pixels[..] == seq(|order|, _ => [])
    modifies next, pixels, mask
    ensures |snaps| == |thresholds| && Run(img, nx, ny, thresholds, snaps, ups, touched, sizeMin, sizeMax, inclusive)
    ensures forall k :: 0 <= k < mask.Length ==> mask[k] == (old(mask[k]) || Marked(snaps, ups, sizeMin, sizeMax, k))
  {
    ghost var m0 := mask[..];
    ghost var h := h0;
    snaps, ups, touched := [], [], [];
    var i := |order| - 1;
    for it := 0 to |thresholds|
      invariant State(nx, ny, order, next[..], h, pixels[..], i)
      invariant it == 0 ==> i == |order| - 1
      invariant it > 0 ==> forall j :: i < j < |order| ==> Value(img, nx, ny, order[j]) >= thresholds[it - 1]
      invariant |snaps| == it && Run(img, nx, ny, thresholds, snaps, ups, touched, sizeMin, sizeMax, inclusive)
      invariant next[..] == Before(nx * ny, snaps, it).next && pixels[..] == Before(nx * ny, snaps, it).pixels
      invariant forall k :: 0 <= k < mask.Length ==> mask[k] == (m0[k] || Marked(snaps, ups, sizeMin, sizeMax, k))
    {
      i, h, snaps, ups, touched := NextRound(img, nx, ny, order, thresholds, next, pixels, h, i, it, sizeMin, sizeMax, mask, inclusive,
                                             m0, snaps, ups, touched);
    }
  }

  /** One turn of the loop of lines 112-200, with the record of the run extended by its batch. */
  method NextRound(img: seq<seq<real>>, nx: nat, ny: nat, order: seq<int>, thresholds: seq<real>,
                   next: array<int>, pixels: array<seq<int>>, ghost h0: seq<nat>, i0: int, it: int,
                   sizeMin: nat, sizeMax: nat, mask: array<bool>, inclusive: bool,
                   ghost m0: seq<bool>, ghost snaps: seq<NSnap>, ghost ups: seq<set<int>>, ghost touched: seq<set<int>>)
    returns (i: int, ghost h: seq<nat>, ghost snaps': seq<NSnap>, ghost ups': seq<set<int>>, ghost touched': seq<set<int>>)
    requires IsGrid(img, nx, ny) && IsArgsort(img, nx, ny, order) && Descending(thresholds)
    requires mask.Length == |order| == |m0| && State(nx, ny, order, next[..], h0, pixels[..], i0)
    requires it == |snaps| < |thresholds| && Run(img, nx, ny, thresholds, snaps, ups, touched, sizeMin, sizeMax, inclusive)
    requires |snaps| == 0 ==> i0 == |order| - 1
    requires |snaps| > 0 ==> forall j :: i0 < j < |order| ==> Value(img, nx, ny, order[j]) >= thresholds[|snaps| - 1]
    requires next[..] == Before(nx * ny, snaps, |snaps|).next && pixels[..] == Before(nx * ny, snaps, |snaps|).pixels
    requires forall k :: 0 <= k < mask.Length ==> mask[k] == (m0[k] || Marked(snaps, ups, sizeMin, sizeMax, k))
    modifies next, pixels, mask
    ensures State(nx, ny, order, next[..], h, pixels[..], i)
    ensures forall j :: i < j < |order| ==> Value(img, nx, ny, order[j]) >= thresholds[|snaps|]
    ensures |snaps'| == |snaps| + 1 && Run(img, nx, ny, thresholds, snaps', ups', touched', sizeMin, sizeMax, inclusive)
    ensures next[..] == Before(nx * ny, snaps', |snaps'|).next && pixels[..] == Before(nx * ny, snaps', |snaps'|).pixels
    ensures forall k :: 0 <= k < mask.Length ==> mask[k] == (m0[k] || Marked(snaps', ups', sizeMin, sizeMax, k))
  {
    var threshold := thresholds[it];
    assert forall j :: i0 < j < |order| ==> Value(img, nx, ny, order[j]) >= threshold by {
      if |snaps| > 0 {
        assert thresholds[|snaps|] <= thresholds[|snaps| - 1];
      }
    }
    ghost var s, u, tc;
    ghost var m1 := mask[..];
    i, h, s, u, tc := Round(img, nx, ny, order, threshold, next, pixels, h0, i0, sizeMin, sizeMax, mask, inclusive);
    MarksSnoc(m0, m1, mask[..], snaps, ups, s, u, sizeMin, sizeMax);
    assert Before(nx * ny, snaps + [s], |snaps| + 1) == s;
    RunSnoc(img, nx, ny, thresholds, snaps, ups, touched, sizeMin, sizeMax, inclusive, s, u, tc);
    snaps', ups', touched' := snaps + [s], ups + [u], touched + [tc];
  }

  /**
   * `mark_nuclei` as written (lines 56-204): after the call, a pixel is
   * set in the mask exactly when it was set before or some batch marked
   * it, and each batch ends with the flood at its threshold and the
   * touched clusters whose size lies in [sizeMin, sizeMax) recorded.
   */
  method MarkNuclei(img: seq<seq<real>>, nx: nat, ny: nat, order: seq<int>, thresholds: seq<real>,
                    sizeMin: nat, sizeMax: nat, mask: array<bool>)
    returns (ghost snaps: seq<NSnap>, ghost ups: seq<set<int>>, ghost touched: seq<set<int>>)
    requires IsGrid(img, nx, ny) && IsArgsort(img, nx, ny, order) && Descending(thresholds)
    requires mask.Length == |order| && sizeMin <= sizeMax
    modifies mask
    ensures |snaps| == |thresholds| && Run(img, nx, ny, thresholds, snaps, ups, touched, sizeMin, sizeMax, false)
    ensures forall k :: 0 <= k < mask.Length ==> mask[k] == (old(mask[k]) || Marked(snaps, ups, sizeMin, sizeMax, k))
    ensures forall t, c, k ::
      (0 <= t < |snaps| && GrownNucleus(img, nx, ny, thresholds[t], Before(nx * ny, snaps, t), snaps[t], sizeMin, sizeMax, false, c)
       && k in Members(snaps[t].next, snaps[t].h, c)) ==> mask[k]
  {
    snaps, ups, touched := Mark(img, nx, ny, order, thresholds, sizeMin, sizeMax, mask, false);
    forall t, c, k | 0 <= t < |snaps| && GrownNucleus(img, nx, ny, thresholds[t], Before(nx * ny, snaps, t), snaps[t], sizeMin, sizeMax, false, c) &&
                     k in Members(snaps[t].next, snaps[t].h, c)
      ensures mask[k]
    {
      GrownMarked(img, nx, ny, thresholds, snaps, ups, touched, sizeMin, sizeMax, false, t, c, k);
    }
  }

  /**
   * `mark_nuclei` with the merge test of line 182 made s <= sizeMax, like
   * the join test (line 165) and the marking test (line 197): every touched
   * cluster whose size lies in [sizeMin, sizeMax] is recorded.
   */
  method MarkNucleiInclusive(img: seq<seq<real>>, nx: nat, ny: nat, order: seq<int>, thresholds: seq<real>,
                             sizeMin: nat, sizeMax: nat, mask: array<bool>)
    returns (ghost snaps: seq<NSnap>, ghost ups: seq<set<int>>, ghost touched: seq<set<int>>)
    requires IsGrid(img, nx, ny) && IsArgsort(img, nx, ny, order) && Descending(thresholds)
    requires mask.Length == |order| && sizeMin <= sizeMax
    modifies mask
    ensures |snaps| == |thresholds| && Run(img, nx, ny, thresholds, snaps, ups, touched, sizeMin, sizeMax, true)
    ensures forall k :: 0 <= k < mask.Length ==> mask[k] == (old(mask[k]) || Marked(snaps, ups, sizeMin, sizeMax, k))
    ensures forall t, c, k ::
      (0 <= t < |snaps| && GrownNucleus(img, nx, ny, thresholds[t], Before(nx * ny, snaps, t), snaps[t], sizeMin, sizeMax, true, c)
       && k in Members(snaps[t].next, snaps[t].h, c)) ==> mask[k]
  {
    snaps, ups, touched := Mark(img, nx, ny, order, thresholds, sizeMin, sizeMax, mask, true);
    forall t, c, k | 0 <= t < |snaps| && GrownNucleus(img, nx, ny, thresholds[t], Before(nx * ny, snaps, t), snaps[t], sizeMin, sizeMax, true, c) &&
                     k in Members(snaps[t].next, snaps[t].h, c)
      ensures mask[k]
    {
      GrownMarked(img, nx, ny, thresholds, snaps, ups, touched, sizeMin, sizeMax, true, t, c, k);
    }
  }

  /**
   * With the corrected merge test, the mask after the call covers every
   * cluster of every batch that was touched in that batch and whose size
   * lies in [sizeMin, sizeMax], and each marked pixel lies in such a
   * cluster of some batch.
   */
  lemma {:induction false} InclusiveMarks(img: seq<seq<real>>, nx: nat, ny: nat, thresholds: seq<real>, snaps: seq<NSnap>,
                                          ups: seq<set<int>>, touched: seq<set<int>>, sizeMin: nat, sizeMax: nat, t: int, c: int, k: int)
    requires IsGrid(img, nx, ny) && Run(img, nx, ny, thresholds, snaps, ups, touched, sizeMin, sizeMax, true)
    requires 0 <= t < |snaps| && 0 <= c < nx * ny && c in touched[t] && Batched(img, nx, ny, thresholds[t], snaps[t])
    requires snaps[t].next[c] == c
    requires sizeMin <= |Members(snaps[t].next, snaps[t].h, c)| <= sizeMax
    requires k in Members(snaps[t].next, snaps[t].h, c)
    ensures Marked(snaps, ups, sizeMin, sizeMax, k)
  {
    var s := snaps[t];
    assert BatchAt(img, nx, ny, thresholds, snaps, ups, touched, sizeMin, sizeMax, true, t);
    RecordedIsMarked(s.next, s.h, s.pixels, touched[t], ups[t], sizeMin, sizeMax, true, c, k);
  }

  /**
   * Root c ends the batch that went from b to s as a cluster of at least
   * two pixels that grew in the batch and whose size passes the recording
   * test.
   */
  ghost predicate GrownNucleus(img: seq<seq<real>>, nx: nat, ny: nat, threshold: real, b: NSnap, s: NSnap,
                               sizeMin: nat, sizeMax: nat, inclusive: bool, c: int)
    requires IsGrid(img, nx, ny)
  {
    && Batched(img, nx, ny, threshold, s) && 0 <= c < nx * ny && s.next[c] == c && Grew(b, s, c)
    && 2 <= |Members(s.next, s.h, c)| && Fits(|Members(s.next, s.h, c)|, sizeMin, sizeMax, inclusive)
  }

  /** In going from b to a, the cluster of root c changed: c was no root of b, or its members differ. */
  ghost predicate Grew(b: NSnap, a: NSnap, c: int)
    requires 0 <= c < |a.next| && Forest(a.next, a.h)
  {
    !(c < |b.next| && b.next[c] == c && Forest(b.next, b.h) && Members(b.next, b.h, c) == Members(a.next, a.h, c))
  }

  /** Between two states whose roots hold their clusters, a root whose cluster grew has a list it did not have. */
  lemma GrewChanged(b: NSnap, a: NSnap, c: int)
    requires Forest(a.next, a.h) && Lists(a.next, a.h, a.pixels) && Forest(b.next, b.h) && Lists(b.next, b.h, b.pixels)
    requires 0 <= c < |a.next| == |b.next| && a.next[c] == c && |a.pixels[c]| >= 2 && Grew(b, a, c)
    ensures Changed(b.next, b.pixels, a.next, a.pixels, c)
  {
    if b.next[c] == c {
      assert Owns(b.next, b.h, b.pixels, c) && Owns(a.next, a.h, a.pixels, c);
    }
  }

  /**
   * Completeness of the marking: a cluster that batch t ends with as a
   * root, that has at least two pixels, that grew in that batch and whose
   * size passes the recording test (s < sizeMax as written, s <= sizeMax
   * when inclusive) has every pixel marked.
   */
  lemma {:induction false} GrownMarked(img: seq<seq<real>>, nx: nat, ny: nat, thresholds: seq<real>, snaps: seq<NSnap>,
                                       ups: seq<set<int>>, touched: seq<set<int>>, sizeMin: nat, sizeMax: nat,
                                       inclusive: bool, t: int, c: int, k: int)
    requires IsGrid(img, nx, ny) && Run(img, nx, ny, thresholds, snaps, ups, touched, sizeMin, sizeMax, inclusive)
    requires 0 <= t < |snaps| && 0 <= c < nx * ny && Batched(img, nx, ny, thresholds[t], snaps[t]) && snaps[t].next[c] == c
    requires Grew(Before(nx * ny, snaps, t), snaps[t], c)
    requires 2 <= |Members(snaps[t].next, snaps[t].h, c)| && Fits(|Members(snaps[t].next, snaps[t].h, c)|, sizeMin, sizeMax, inclusive)
    requires k in Members(snaps[t].next, snaps[t].h, c)
    ensures Marked(snaps, ups, sizeMin, sizeMax, k)
  {
    var s, b := snaps[t], Before(nx * ny, snaps, t);
    assert BatchAt(img, nx, ny, thresholds, snaps, ups, touched, sizeMin, sizeMax, inclusive, t);
    assert Owns(s.next, s.h, s.pixels, c);
    NoDupCard(s.pixels[c]);
    if t > 0 {
      assert BatchAt(img, nx, ny, thresholds, snaps, ups, touched, sizeMin, sizeMax, inclusive, t - 1);
      GrewChanged(b, s, c);
    } else {
      assert b.next[c] == -1;
    }
    assert Changed(b.next, b.pixels, s.next, s.pixels, c);
    RecordedIsMarked(s.next, s.h, s.pixels, touched[t], ups[t], sizeMin, sizeMax, inclusive, c, k);
  }

  /** k is at or above threshold and its cluster in s has between sizeMin and sizeMax pixels. */
  ghost predicate NucleusAt(img: seq<seq<real>>, nx: nat, ny: nat, threshold: real, s: NSnap, sizeMin: nat, sizeMax: nat, k: int)
    requires IsGrid(img, nx, ny)
  {
    && 0 <= k < nx * ny && |s.next| == nx * ny && Forest(s.next, s.h) && s.next[k] >= 0
    && Value(img, nx, ny, k) >= threshold
    && sizeMin <= |Members(s.next, s.h, Top(s.next, s.h, k))| <= sizeMax
  }

  /** Every pixel a run marks lies, in some batch, in a cluster whose size lies in [sizeMin, sizeMax]. */
  lemma {:induction false} MarksAreNuclei(img: seq<seq<real>>, nx: nat, ny: nat, thresholds: seq<real>, snaps: seq<NSnap>,
                                          ups: seq<set<int>>, touched: seq<set<int>>, sizeMin: nat, sizeMax: nat,
                                          inclusive: bool, k: int)
    requires IsGrid(img, nx, ny) && Run(img, nx, ny, thresholds, snaps, ups, touched, sizeMin, sizeMax, inclusive)
    requires Marked(snaps, ups, sizeMin, sizeMax, k)
    ensures 0 <= k < nx * ny
    ensures exists t :: 0 <= t < |snaps| && NucleusAt(img, nx, ny, thresholds[t], snaps[t], sizeMin, sizeMax, k)
  {
    var t :| 0 <= t < |snaps| && t < |ups| && MarkedBy(snaps[t].pixels, ups[t], sizeMin, sizeMax, k);
    var s := snaps[t];
    assert BatchAt(img, nx, ny, thresholds, snaps, ups, touched, sizeMin, sizeMax, inclusive, t);
    MarkedIsNucleus(s.next, s.h, s.pixels, ups[t], sizeMin, sizeMax, k);
    assert NucleusAt(img, nx, ny, thresholds[t], s, sizeMin, sizeMax, k);
  }

  /**
   * The merge test of line 182 as written: on the 1 by 3 image
   * [[1.0, 0.5, 1.0]] at threshold 0.4 with sizeMin = sizeMax = 3, the
   * middle pixel, last to rise, joins the cluster {0} (lines 157-166, size
   * 2, not recorded) and then bridges it with the cluster {2} into one of
   * 3 pixels. That cluster's size lies in [3, 3], yet the merge does not
   * record it, so lines 195-199 mark none of its pixels; with s <= sizeMax
   * it would be recorded and all three marked.
   */
  lemma MergeAtCap()
    ensures var before := [[0, 1], [], [2]];
      var after := before[0 := before[2] + before[0]][2 := []];
      && |after[0]| == 3
      && MergeUpdate({}, 0, |before[2]| + |before[0]|, 3, 3, false) == {}
      && (forall k :: k in after[0] ==> MarkedBy(after, MergeUpdate({}, 0, |before[2]| + |before[0]|, 3, 3, true), 3, 3, k))
  {
    var before := [[0, 1], [], [2]];
    var after := before[0 := before[2] + before[0]][2 := []];
    assert after[0] == [2, 0, 1];
    forall k | k in after[0]
      ensures MarkedBy(after, MergeUpdate({}, 0, |before[2]| + |before[0]|, 3, 3, true), 3, 3, k)
    {
      assert 0 in MergeUpdate({}, 0, |before[2]| + |before[0]|, 3, 3, true);
    }
  }

  /** When a batch stops at i, the flood holds exactly the pixels at or above its threshold. */
  lemma BatchEnd(img: seq<seq<real>>, nx: nat, ny: nat, order: seq<int>, threshold: real, i: int, s: NSnap)
    requires IsGrid(img, nx, ny) && IsArgsort(img, nx, ny, order) && -1 <= i < |order|
    requires |s.next| == |order| && Forest(s.next, s.h) && Flooded(s.next) == Dry(order, i)
    requires Lists(s.next, s.h, s.pixels) && Joined(nx, ny, s.next, s.h) && Spanned(nx, ny, s.next, s.h)
    requires i >= 0 ==> Value(img, nx, ny, order[i]) < threshold
    requires forall j :: i < j < |order| ==> Value(img, nx, ny, order[j]) >= threshold
    ensures Batched(img, nx, ny, threshold, s)
  {
    ThresholdSplit(img, nx, ny, order, i, threshold);
    assert forall k :: 0 <= k < nx * ny ==> (s.next[k] >= 0 <==> k in Flooded(s.next));
  }

  /** The updated clusters and the pixels of every list lie in the image, so the marking stays inside the mask. */
  lemma UpdatedInRange(s: NSnap, touched: set<int>, updated: set<int>, sizeMin: nat, sizeMax: nat, inclusive: bool)
    requires Forest(s.next, s.h) && Lists(s.next, s.h, s.pixels)
    requires Recorded(touched, updated, s.next, s.pixels, sizeMin, sizeMax, inclusive)
    ensures forall c :: c in updated ==> 0 <= c < |s.pixels|
    ensures forall c, x :: 0 <= c < |s.pixels| && x in s.pixels[c] ==> 0 <= x < |s.next|
  {
    forall c, x | 0 <= c < |s.pixels| && x in s.pixels[c]
      ensures 0 <= x < |s.next|
    {
      ListedPixel(s.next, s.h, s.pixels, c, x);
    }
  }
}
