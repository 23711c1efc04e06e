# Watershed segmentation of cell images, modelled in Dafny

This project models the C++ core of junkoda_cellularlib, plus two small
Python helpers. The core segments a 2-D image into clusters of bright
pixels by a union-find "watershed" flood:

- Pixels are taken from the brightest down, following an ascending argsort
  read from the back.
- Each pixel, as it rises above the falling water level, joins or bridges
  the clusters of its flooded 4-neighbours.

The model covers the following parts:

- **Graph** (`graph.h`, `graph.cpp`). The vertex and edge records, the
  row-major vertex array and the root lookup `get_top`. Modules `Grid`,
  `Graph` and `UnionFind`. The forest carries ghost heights, so that every
  root lookup terminates.
- **Graph builder** (`py_watershed.cpp`). The class `Watershed` with
  `construct_graph` and `obtain_cluster_sizes` (module `Watershed`, with the
  invariant and its preservation lemmas in `WatershedInv`). Module
  `WatershedLinks` states what the unions achieve: the recorded edges
  connect every flooded pixel to its root, and two flooded neighbours stay
  in different clusters only when both clusters have reached the merge
  threshold. Also the breadth-first edge search `obtain_clusters` (module
  `ClusterSearch`).
- **Flood-fill extractor** (`py_clusters.cpp`). The class `Clusters` with
  `construct`, `get_cluster` and `get_sizes`, and the `nedges` count
  (module `Clusters`).
- **Multi-threshold counter** (`watershed_ncluster.cpp`). `compute_nclusters`
  keeps a running count of the clusters of at least `size_threshold`
  pixels, for a descending list of thresholds (modules `NCluster` and
  `NClusterFilled`).
- **Nuclei marker** (`watershed_nuclei.cpp`). `mark_nuclei` floods one batch
  per descending threshold. Each root keeps the list of its pixels, and the
  marker sets a mask over the clusters whose size lies in
  [size_min, size_max] (module `Nuclei`).
- **Well names** (`data.py`). `well_coordinate` and `well_index` (module `Data`).
- **Delaunay edges** (`delaunay.py`). `_get_edges` and `_get_edge_coords`
  (module `Delaunay`).

Connectivity is stated in module `Walks`: every flooded pixel has a walk
through flooded 4-neighbours to the root of its cluster. The counter and
the marker are proved to keep every cluster a connected component of the
pixels above the water level.

The random first direction of each pixel's visit comes from
`std::mt19937`. Here it is a parameter: `dirs[k]` is the start direction of
the k-th pixel to rise, and it is 0 when the seed is 0. The image is a
`seq<seq<real>>`, and the argsort is a precondition (`Grid.IsArgsort`). The
callers sort the thresholds in descending order
(`watershed_ncluster.py` lines 46-47, `threshold.py` lines 78-79); that is
a precondition too (`NCluster.Descending`).

## Model

| member | source | states |
|---|---|---|
| Graph.ObtainVertices | py/graph.cpp:8-36 | The array has nx*ny vertices. Vertex ix*ny+iy holds img(ix, iy) (row-major order), is under water (next = -1), has size sizeInit and has four empty edge slots. |
| Grid.ValueAt | py/graph.cpp:24-33 | Flattened index ix*ny+iy holds the value img(ix, iy): the layout is row-major. |
| Grid.Pixel | py/py_watershed.cpp:130-133 | Reading img(k / ny, k % ny) gives the value of flattened pixel k. |
| Grid.Neighbour | py/py_watershed.cpp:156-163 | The neighbour index is in range exactly when (ix+dx, iy+dy) lies inside the image, and it splits back into that row and column. |
| Graph.GetTop | py/graph.h:40-50 | Follows next from flooded vertex i to the root of its cluster, a vertex whose next is itself, without changing the array. |
| UnionFind.Top | py/graph.h:44-49 | The top of a flooded pixel is an in-range root. |
| UnionFind.Chain | py/graph.h:44-47 | The walk from i to its top starts at i and follows next links of flooded, in-range pixels. |
| UnionFind.EmptyForest | py/graph.cpp:20 | With every pixel under water the links form a forest with no flooded pixel and no root, and any size array is right. |
| UnionFind.FloodNew | py/py_watershed.cpp:143-144 | Flooding p as its own cluster keeps the forest, adds p as a root with cluster {p}, and leaves every other top and cluster unchanged. |
| UnionFind.FloodNewSizes | py/py_watershed.cpp:143-144 | Setting size[p] = 1 for the new cluster {p} keeps every root's size equal to its member count. |
| UnionFind.Link | py/py_watershed.cpp:199-212 | Linking root a under root b keeps a forest, removes root a, and gives b the union of the two disjoint clusters; other clusters are unchanged. |
| UnionFind.LinkTop | py/py_watershed.cpp:199-212 | After the link, pixels whose top was a have top b, and every other pixel keeps its top. |
| UnionFind.LinkSizes | py/py_watershed.cpp:203-211 | size[b] += size[a] keeps every root's size equal to its member count. |
| UnionFind.SizesSumToFlooded | py/watershed_ncluster.cpp:123-188 | The root sizes add up to the number of flooded pixels. |
| UnionFind.BigRootsCard | py/watershed_ncluster.cpp:94-96 | The running count names the size of the set of roots whose cluster has at least t pixels. |
| Walks.SpanFlood | py/watershed_ncluster.cpp:121-124 | A pixel flooded as a cluster of its own keeps every cluster connected. |
| Walks.SpanLink | py/watershed_ncluster.cpp:169-172 | Linking root a under root b keeps every cluster connected when a pixel of a's cluster is a neighbour of a pixel of b's. |
| Walks.SpanJoin | py/watershed_ncluster.cpp:156-162 | A root p alone in its cluster, put under the root t of a flooded neighbour q, leaves every cluster connected by walks over the grid's neighbour pairs. |
| Walks.WalkReverse | py/watershed_ncluster.cpp:151-153 | A walk along the symmetric neighbour relation, taken backwards, is a walk. |
| Watershed.Watershed.constructor | py/py_watershed.cpp:69-75 | A new builder has a 0 by 0 image, no vertices, no edges and no sizes. |
| Watershed.Watershed.ConstructGraph | py/py_watershed.cpp:78-227 | After the build, a pixel is flooded exactly when its value is at least pixelThreshold. The invariant holds: a forest whose root sizes count their clusters, each root among the highest of its cluster, one edge per union (so #edges = #flooded - #roots), and each edge in the slots of its two endpoints. The recorded edges connect every flooded pixel to its root, and two flooded neighbours in different clusters both have at least mergeThreshold pixels. With mergeThreshold above nx*ny (the default of watershed.py, lines 66-67) the clusters are exactly the 4-connected components of the flood. |
| Watershed.Watershed.FloodFrom | py/py_watershed.cpp:128-226 | The loop over the argsort from the back stops at the first pixel below the threshold, and leaves exactly the pixels at or above it flooded. It keeps the invariant and the links: edges span each cluster, and neighbours in different clusters both reach mergeThreshold. |
| Watershed.Watershed.Level | py/py_watershed.cpp:129-138 | One step at argsort position i stops exactly when that pixel lies below the threshold. Otherwise it floods that pixel, keeping the invariant and the links. |
| Watershed.Watershed.Rise | py/py_watershed.cpp:140-225 | The lowest dry pixel is added to the flooded set, and nothing else is flooded. The invariant and the links are kept: the recorded edges span each cluster, and flooded neighbours, p's own included, share a cluster unless both clusters have at least mergeThreshold pixels. |
| Watershed.Watershed.VisitNeighbours | py/py_watershed.cpp:151-225 | The four neighbours visited from start direction r flood nothing and keep the invariant. At the end, p is settled with every flooded neighbour, so the links hold for every pixel. |
| Watershed.Watershed.Visit | py/py_watershed.cpp:152-170 | A neighbour outside the image or under water is skipped. Otherwise the union step keeps the visit's invariant and writes no slot of p other than direction d. Either way, direction d of p is settled: p and that neighbour share a cluster, or both clusters have at least mergeThreshold pixels. |
| Watershed.Watershed.Unite | py/py_watershed.cpp:171-224 | The union step does what UniteV states: join the first cluster met; otherwise merge unless both sizes reach mergeThreshold, the strictly higher root surviving; record one edge per union. |
| Watershed.Watershed.RecordEdge | py/py_watershed.cpp:181-189 | The new edge (p, q) with weight f1 gets index \|edges\|, fills the free slot d of p and the opposite slot of q, and is appended. |
| Watershed.Watershed.JoinWrite | py/py_watershed.cpp:176-178 | p goes under root t, and t's size grows by one. |
| Watershed.Watershed.LinkWrite | py/py_watershed.cpp:199-212 | Root a goes under root b, and b's size grows by a's. |
| Watershed.Watershed.ObtainClusterSizes | py/py_watershed.cpp:230-245 | Returns, in index order, the sizes of the roots whose value is at least pixelThreshold and whose size is at least sizeThreshold, and keeps them in sizes. |
| Watershed.TurnsAll | py/py_watershed.cpp:151-153 | The four steps of a visit cover all four directions. |
| Watershed.TurnsHas | py/py_watershed.cpp:151-153 | The direction of step k is among the first j steps when k < j. |
| Watershed.RootSizesCount | py/py_watershed.cpp:238-242 | One size is reported per root that passes both thresholds, and every reported size is at least sizeThreshold. |
| Watershed.SizesCoverFlooded | py/py_watershed.cpp:238-242 | When all flooded pixels pass the pixel threshold and sizeThreshold <= 1, the reported sizes add up to the number of flooded pixels. |
| Watershed.DryLowest | py/py_watershed.cpp:126-130 | The pixel at argsort position i is not flooded yet and is no higher than any flooded pixel: the water level only goes down. |
| Watershed.ThresholdSplit | py/py_watershed.cpp:136-138 | Where the loop stops, the pixels already flooded are exactly those at or above the threshold. |
| Watershed.RisePre | py/py_watershed.cpp:168-169 | The pixel about to rise is dry and no higher than any flooded pixel. |
| Watershed.Turn | py/py_watershed.cpp:147-154 | Step j of a visit from start r looks in direction (r + j) mod 4. |
| Watershed.TurnDistinct | py/py_watershed.cpp:152-154 | The four steps of a visit look in four different directions. |
| Watershed.SlotsAgree | py/py_watershed.cpp:173-185 | The slots as written (j1, j1+2) are the directions of the neighbour exactly when the visit starts in direction 0. |
| Watershed.SlotCollision | py/py_watershed.cpp:181-185 | A concrete image, argsort and pair of start directions where the slots as written send two edges to slot 0 of pixel 0. |
| WatershedInv.InitialGraph | py/graph.cpp:20-22 | The vertex array as built satisfies the graph invariant, with no edges and nothing flooded. |
| WatershedInv.RiseStart | py/py_watershed.cpp:142-144 | The lowest dry pixel, flooded as a cluster of its own, starts the visit's invariant with empty slots. |
| WatershedInv.FloodStep | py/py_watershed.cpp:143-144 | Flooding p as a cluster of its own keeps the invariant and adds p to both the flooded pixels and the roots. |
| WatershedInv.LinkStep | py/py_watershed.cpp:199-212 | Linking root a under a root b of value not below a's keeps the invariant (but for the edge count) and removes one root. |
| WatershedInv.NeighbourSlotFree | py/py_watershed.cpp:181-182 | With slots indexed by direction, when p's slot toward q is free, q's slot toward p is free too: the assertion holds. |
| WatershedInv.AddEdgeStep | py/py_watershed.cpp:184-189 | Recording the edge (p, q) with p's value in the two facing slots keeps the invariant (but for the edge count), and changes no link. |
| WatershedInv.JoinCase | py/py_watershed.cpp:175-190 | The new pixel joining its neighbour's cluster, with the edge recorded, keeps the invariant. |
| WatershedInv.MergeCase | py/py_watershed.cpp:191-224 | Merging two different clusters through the new pixel, or skipping the merge at the cap, keeps the invariant. |
| WatershedInv.UniteStep | py/py_watershed.cpp:171-224 | Every union step keeps the invariant, and its result names the root of p's cluster. |
| WatershedInv.VisitStep | py/py_watershed.cpp:165-224 | Before a union, the neighbour's slot toward p is free; the union step keeps the visit's invariant, floods nothing and writes only slot d of p. |
| WatershedInv.NbBack | py/py_watershed.cpp:173 | Stepping in the opposite direction (j + 2) mod 4 from the neighbour leads back to the pixel. |
| WatershedLinks.EdgeAdjSymmetric | py/py_watershed.cpp:186-188 | The recorded edges, read both ways round, form a symmetric relation. |
| WatershedLinks.EdgeAdjSnoc | py/py_watershed.cpp:186-188 | Appending an edge adds exactly its two orientations. |
| WatershedLinks.SpansReaching | py/py_watershed.cpp:171-224 | Every flooded pixel has a walk over the recorded edges to its root exactly when the edges satisfy the walk relation Reaching of module Walks. |
| WatershedLinks.NoLinks | py/graph.cpp:20-22 | With nothing flooded, the links hold. |
| WatershedLinks.ReachingMore | py/py_watershed.cpp:186-188 | A walk along some edges is a walk along more edges. |
| WatershedLinks.ReachFlood | py/py_watershed.cpp:142-144 | Flooding p as a cluster of its own keeps every flooded pixel reaching its root. |
| WatershedLinks.ReachLink | py/py_watershed.cpp:199-211 | Linking root a under root b, when an edge joins a pixel of each cluster, keeps every flooded pixel reaching its root. |
| WatershedLinks.CappedLink | py/py_watershed.cpp:199-211 | Linking two clusters keeps every settled pair settled: pairs that shared a cluster still do, and no cluster shrinks. |
| WatershedLinks.CappedFlood | py/py_watershed.cpp:142-144 | Flooding p as a cluster of size 1 settles every pair not involving p. |
| WatershedLinks.CappedClose | py/py_watershed.cpp:151-225 | Once all four directions of p are visited, every pair of flooded neighbours is settled. |
| WatershedLinks.LinkEdge | py/py_watershed.cpp:199-223 | Linking root a under root b while recording an edge between the two clusters keeps the links. |
| WatershedLinks.AddDone | py/py_watershed.cpp:151-225 | A visit that has settled p with its neighbour in direction d may count d as done. |
| WatershedLinks.RecordLinks | py/py_watershed.cpp:199-223 | When the links hold for the link of a under b with the new edge appended, they hold on the vertex array that LinkV and Record produce. |
| WatershedLinks.LinkRecordSeqs | py/py_watershed.cpp:199-223 | After root a goes under b and the edge (p, q) is recorded, the links are next[a := b], b's size is the sum, and the edge list has (p, q) with p's value appended. |
| WatershedLinks.RecordSame | py/py_watershed.cpp:184-189 | Recording an edge changes no link and no size, and appends (p, q) with p's value. |
| WatershedLinks.MergeLinks | py/py_watershed.cpp:191-223 | The merge of lines 204-223 keeps the links and settles p with its neighbour q. |
| WatershedLinks.LinkRecordLinks | py/py_watershed.cpp:199-223 | Root a linked under root b and the edge (p, q) recorded, p and q one in each cluster: the links are kept and p is settled with q. |
| WatershedLinks.JoinLinks | py/py_watershed.cpp:173-189 | p, a cluster of its own, joining its neighbour's cluster with the edge recorded keeps the links and settles p with the neighbour. |
| WatershedLinks.UniteLinks | py/py_watershed.cpp:171-224 | Every union step keeps the links and settles p with its neighbour in direction d: one cluster, or the merge was skipped at lines 194-196 because both sizes reached mergeThreshold. |
| WatershedLinks.UniteFactsOf | py/py_watershed.cpp:171-173 | Before a union step, p and its neighbour are flooded in a forest with right sizes, and anotherTop is -1 (p alone) or p's root. |
| WatershedLinks.UnitedLinks | py/py_watershed.cpp:171-224 | The state a union step produces, as UniteV and UniteH describe it, has the links with direction d done. |
| WatershedLinks.SkipLinks | py/py_watershed.cpp:158-164 | A neighbour outside the image or under water is settled with p trivially, so the direction counts as done. |
| WatershedLinks.FloodLinks | py/py_watershed.cpp:142-144 | Flooding p as a cluster of its own starts its visit with the links held and no direction done. |
| WatershedLinks.CloseLinks | py/py_watershed.cpp:151-225 | With all four directions done, the links hold for every pixel. |
| WatershedLinks.MembersAtMost | py/py_watershed.cpp:194-196 | No cluster has more pixels than the image, so a size never reaches a merge threshold above nx*ny. |
| WatershedLinks.Components | py/py_watershed.cpp:191-196 | With mergeThreshold above nx*ny, no merge is skipped: flooded neighbours share a cluster and the recorded edges connect every cluster, so the clusters are the 4-connected components of the flood. |
| ClusterSearch.GraphLinked | py/py_watershed.cpp:184-188 | The graph that construct_graph leaves has in-range edge endpoints and slot indices, so the search can walk it. |
| ClusterSearch.ObtainClusters | py/py_watershed.cpp:265-352 | Nothing is added when there are no edges. Each new cluster is non-empty, reaches the size threshold, lists only pixels at or above pixelThreshold that end edges of the graph at or above edgeThreshold, and no pixel is in two clusters. Err is the abort of the assertion of line 315. |
| ClusterSearch.Explore | py/py_watershed.cpp:302-344 | The search from one edge only sets explored flags, and returns a cluster of distinct, explored pixels at or above pixelThreshold, with edges at or above edgeThreshold. |
| ClusterSearch.Reach | py/py_watershed.cpp:325-342 | An explored endpoint changes nothing. An unexplored one is marked explored and nothing else is; it is appended to the listing exactly when at or above pixelThreshold, and the queue gains exactly Fresh of its edge slots, in slot order. The search state is kept. |
| ClusterSearch.Fresh | py/py_watershed.cpp:335-341 | The edges queued from the first j slots: exactly the slots holding an edge index (not -1) whose edge is unexplored, at most one per slot. |
| ClusterSearch.QueueEdges | py/py_watershed.cpp:335-341 | The queue after the loop over the four slots is the old queue followed by exactly the edges of slots that hold an edge index and whose edge is unexplored, in slot order; every queued index is a valid edge. |
| ClusterSearch.KeepCluster | py/py_watershed.cpp:345-349 | A cluster gathered by the search and kept by the size test extends the clusters found so far: the earlier clusters are untouched, every new cluster is gathered and kept, no pixel is in two of them, and each listed pixel is explored. |
| ClusterSearch.SizeT | py/py_watershed.cpp:269 | The conversion of the int size threshold to size_t is the value mod 2^64, the identity on non-negative values. |
| ClusterSearch.NegativeSizeDropsAll | py/py_watershed.cpp:346-349 | A negative size threshold becomes a size_t no cluster can reach. |
| Clusters.Clusters.constructor | py/py_clusters.cpp:21-25 | A new list is empty, on a 0 by 0 image. |
| Clusters.Clusters.Construct | py/py_clusters.cpp:31-121 | Old clusters are discarded. The clusters found partition exactly the pixels at or above the threshold into closed 4-connected spanning trees, in increasing seed order, each headed by its smallest pixel. The ones kept are those of at least sizeThreshold pixels, in order. |
| Clusters.Claim | py/py_clusters.cpp:76-114 | The cluster grown from a lit, unvisited seed extends the partition of the pixels below the seed, and sum is its pixel count. |
| Clusters.Grow | py/py_clusters.cpp:84-114 | The breadth-first search returns a spanning tree headed by the seed, closed under lit neighbours and disjoint from earlier clusters; sum counts its pixels, and exactly its pixels are newly visited. |
| Clusters.Expand | py/py_clusters.cpp:97-113 | After the four neighbours of a dequeued pixel, every lit neighbour is reached, and the search state is kept. |
| Clusters.Look | py/py_clusters.cpp:98-112 | A neighbour is read only when inside the image. A lit, unvisited neighbour is marked, queued and joined by an edge weighing the smaller value. |
| Clusters.SpanningSnoc | py/py_clusters.cpp:110-112 | Discovering neighbour b of a found pixel a adds b and the edge (a, b, min) to the spanning tree. |
| Clusters.Skip | py/py_clusters.cpp:73-74 | A visited or unlit seed is passed over and the partition is kept. |
| Clusters.Record | py/py_clusters.cpp:69-82 | A new cluster grown from the next lit, unclaimed seed extends the partition. |
| Clusters.SeedSmallest | py/py_clusters.cpp:69-82 | Every pixel of the new cluster is at least its seed. |
| Clusters.Covered | py/py_clusters.cpp:69-120 | Once every seed is passed, the clusters cover exactly the pixels at or above the threshold, and none is empty. |
| Clusters.LargeSnoc | py/py_clusters.cpp:116-119 | A cluster is kept exactly when it has at least sizeThreshold pixels. |
| Clusters.Min | py/py_clusters.cpp:112 | std::min returns the smaller of its two arguments, the first on a tie. |
| Clusters.AdjBack | py/py_clusters.cpp:59-60 | The neighbour at the opposite offset of a neighbour is the pixel itself: adjacency is symmetric. |
| Clusters.Clusters.GetCluster | py/py_clusters.cpp:169-183 | A negative index counts from the end. The result is the cluster and the image size exactly when the index is in range, and IndexError otherwise. |
| Clusters.GetClusterWraps | py/py_clusters.cpp:169-171 | Index i < 0 names the same cluster as size + i. |
| Clusters.Clusters.GetSizes | py/py_clusters.cpp:235-238 | Slot i of the output receives the pixel count of cluster i, in order. |
| Clusters.SizesTotal | py/py_clusters.cpp:235-238 | The sizes written add up to the number of pixels in the clusters. |
| Clusters.NEdgesTree | py/py_clusters.cpp:110-112 | A cluster of the flood fill has one edge fewer than it has pixels. |
| Clusters.NEdgesOffByOne | py/py_clusters.cpp:276 | nedges as written reports one more than the number of edges of every cluster. |
| Clusters.ProbeOutside | py/py_clusters.cpp:98-103 | Pixel 0 looking left reads row -1 before the bounds check, on every image. |
| NCluster.GetTop | py/watershed_ncluster.cpp:18-28 | Returns the root of i's cluster, reached along next, without changing the array. |
| NCluster.Recount | py/watershed_ncluster.cpp:175-186 | The count changes by MergeDelta of the two sizes. |
| NCluster.MergeDeltaCounts | py/watershed_ncluster.cpp:178-186 | The three branches give exactly the change in the number of clusters of at least st pixels when clusters of sizes s1 and s2 become one. |
| NCluster.FloodStart | py/watershed_ncluster.cpp:123-124 | The new pixel, on its own with size 1, starts the visit's invariant and adds itself to the flooded set. |
| NCluster.JoinCount | py/watershed_ncluster.cpp:160-167 | p joining cluster t keeps the forest and the sizes. The count rises exactly when t's size becomes st. |
| NCluster.MergeCount | py/watershed_ncluster.cpp:172-188 | The neighbour's root goes under the_cluster. Sizes stay right and the count moves by MergeDelta, so it still counts the clusters of at least st pixels. |
| NCluster.JoinStep | py/watershed_ncluster.cpp:156-167 | The join keeps the visit's invariant and completes the direction. |
| NCluster.JoinNear | py/watershed_ncluster.cpp:156-162 | After p goes under its neighbour's root t, all pairs of flooded neighbours except those at p share a cluster, and the directions of p done so far now include the one just taken. |
| NCluster.JoinBig | py/watershed_ncluster.cpp:161-166 | When a one-pixel cluster joins cluster t, the number of roots with at least st pixels, not counting p, rises by one exactly when t's new size equals st, and is unchanged otherwise. |
| NCluster.MergeStep | py/watershed_ncluster.cpp:169-189 | The merge keeps the visit's invariant and completes the direction. |
| NCluster.JoinSpan | py/watershed_ncluster.cpp:156-162 | The join keeps every cluster connected. |
| NCluster.MergeSpan | py/watershed_ncluster.cpp:169-172 | The merge keeps every cluster connected. |
| NCluster.NearJoined | py/watershed_ncluster.cpp:131-190 | Once all four directions are done, every pair of flooded neighbours shares a cluster. |
| NCluster.FinishPixel | py/watershed_ncluster.cpp:193-198 | After the visit, the count of clusters of at least st pixels gains one exactly when p is still on its own (size 1) and 1 >= st. |
| NCluster.Visit | py/watershed_ncluster.cpp:133-189 | One direction of the visit keeps the visit's invariant and connectivity, and floods nothing. |
| NCluster.Unite | py/watershed_ncluster.cpp:153-189 | The union with a flooded neighbour keeps the visit's invariant and connectivity. |
| NCluster.Join | py/watershed_ncluster.cpp:156-167 | p, on its own, joins its neighbour's cluster; the invariant and connectivity are kept. |
| NCluster.Merge | py/watershed_ncluster.cpp:169-189 | The neighbour's different cluster is linked under p's; the invariant and connectivity are kept. |
| NCluster.AddUnder | py/watershed_ncluster.cpp:160-162 | p goes under t, and t's size grows by one. |
| NCluster.LinkUnder | py/watershed_ncluster.cpp:172-188 | Root nb goes under cl, and cl's size grows by nb's. |
| NCluster.Rise | py/watershed_ncluster.cpp:123-198 | After a pixel rises, the forest and the sizes are right, flooded neighbours share a cluster, every cluster is connected, and the count equals the number of roots with at least st pixels. |
| NCluster.Advance | py/watershed_ncluster.cpp:110-113 | The threshold cursor only moves forward, past thresholds above f1, to the first one at or below f1, or to the end. |
| NCluster.StateReports | py/watershed_ncluster.cpp:109-118 | The flood state while at position i reports the clusters above every threshold between that pixel and the ones after it. |
| NCluster.Close | py/watershed_ncluster.cpp:200-201 | A slot that is passed holds the count of its state when a pixel of its band rose, and its old value otherwise. |
| NCluster.Advanced | py/watershed_ncluster.cpp:110-115 | Advancing the cursor closes the slot it leaves, and passes only slots whose band is empty. |
| NCluster.Risen | py/watershed_ncluster.cpp:117-201 | After the pixel rises, the count written to the slot is that of the new state. |
| NCluster.EndPass | py/watershed_ncluster.cpp:114-115 | When the pass ends, every slot is closed. |
| NCluster.Level | py/watershed_ncluster.cpp:100-202 | One pass of the loop advances the slot and either ends or floods the pixel and writes the count, keeping the pass state. |
| NCluster.RiseAt | py/watershed_ncluster.cpp:117-201 | The pixel rises at the selected slot and the count goes to that slot. |
| NCluster.Descend | py/watershed_ncluster.cpp:100-202 | The loop runs until the pixels or the thresholds run out, keeping the pass state. |
| NCluster.ComputeNClusters | py/watershed_ncluster.cpp:35-203 | As written, each slot whose band holds a pixel ends with the number of clusters of at least sizeThreshold pixels among the pixels at or above its threshold, the clusters being the connected components. Every other slot keeps its old value. |
| NClusterFilled.AdvanceFilling | py/watershed_ncluster.cpp:110-113 | The cursor advances as in Advance, and each slot it passes receives the current count. |
| NClusterFilled.FillRest | py/watershed_ncluster.cpp:200-201 | After the pass, every remaining slot receives the final count. |
| NClusterFilled.LevelFilled | py/watershed_ncluster.cpp:100-202 | One pass of the loop, with passed slots written, keeps every slot before the cursor reporting its threshold. |
| NClusterFilled.DescendFilled | py/watershed_ncluster.cpp:100-202 | The loop, with passed slots written, keeps every slot before the cursor reporting its threshold. |
| NClusterFilled.ComputeNClustersFilled | py/watershed_ncluster.cpp:35-203 | Every slot ends with the number of clusters of at least sizeThreshold pixels among the pixels at or above its threshold, whatever it held before. |
| NClusterFilled.SkippedSlot | py/watershed_ncluster.cpp:110-118 | On [[1.0]] with thresholds [0.5, 0.25], slot 1 keeps 0 as written, while one cluster lies above 0.25. |
| Nuclei.MergePixels | py/watershed_nuclei.cpp:32-41 | The list of index2 goes in front of the list of index1, and the list of index2 is emptied. |
| Nuclei.MarkPixels | py/watershed_nuclei.cpp:44-50 | The mask becomes true at every pixel of q and is unchanged elsewhere. |
| Nuclei.NDir | py/watershed_nuclei.cpp:100-101 | The j-th offset of the marker is a direction of the grid with the same (dx, dy). |
| Nuclei.NDoneAll | py/watershed_nuclei.cpp:136-139 | The marker's four offsets cover all four directions. |
| Nuclei.FloodStart | py/watershed_nuclei.cpp:131 | The new pixel, on its own, starts the visit's invariant and adds itself to the flooded set. |
| Nuclei.JoinLists | py/watershed_nuclei.cpp:157-162 | p joins cluster t and goes to the end of t's list; every root's list still holds its cluster once. |
| Nuclei.MergeLists | py/watershed_nuclei.cpp:168-180 | nb goes under cl, and nb's list goes in front of cl's and is emptied; every root's list still holds its cluster once. |
| Nuclei.JoinStep | py/watershed_nuclei.cpp:157-166 | The join keeps the visit's invariant and completes the direction. |
| Nuclei.MergeStep | py/watershed_nuclei.cpp:168-184 | The merge keeps the visit's invariant and completes the direction. |
| Nuclei.JoinRecord | py/watershed_nuclei.cpp:163-166 | Recording t after a join keeps every touched root whose size fits in the updated set. |
| Nuclei.MergeRecord | py/watershed_nuclei.cpp:175-183 | Recording cl after a merge keeps every touched root whose size fits in the updated set. |
| Nuclei.FinishPixel | py/watershed_nuclei.cpp:188-191 | After the visit, flooded neighbours share a cluster. A pixel still on its own has an empty list, which becomes [p]. |
| Nuclei.Visit | py/watershed_nuclei.cpp:136-184 | One direction of the visit keeps the lists, connectivity and the record of touched clusters, and floods nothing. A skipped direction changes nothing; otherwise p's cluster cl' is added to the touched set, and every root whose list of two or more pixels changed is in it. |
| Nuclei.Meet | py/watershed_nuclei.cpp:148-184 | With a flooded neighbour whose root is nbr, the join or merge (or nothing, when nbr is already p's cluster) keeps the visit's invariant; any change adds p's cluster to the touched set, and every changed root of two or more pixels is in it. |
| Nuclei.Join | py/watershed_nuclei.cpp:157-166 | p goes under nbr and to the end of its list, nbr is added to the touched set, and it is recorded when its new size lies in [sizeMin, sizeMax]. |
| Nuclei.Merge | py/watershed_nuclei.cpp:168-184 | nbr goes under cl with its list in front, cl is added to the touched set, and it is recorded when the merged size lies in [sizeMin, sizeMax), or at sizeMax when inclusive. |
| Nuclei.RecordJoin | py/watershed_nuclei.cpp:165-166 | t is added exactly when s1 lies in [sizeMin, sizeMax]. |
| Nuclei.RecordMerge | py/watershed_nuclei.cpp:182-183 | cl is added exactly when s lies in [sizeMin, sizeMax), or in [sizeMin, sizeMax] when inclusive. |
| Nuclei.JoinWrite | py/watershed_nuclei.cpp:160-162 | p goes under t and to the end of t's list. |
| Nuclei.MergeWrite | py/watershed_nuclei.cpp:172-180 | nb goes under cl, its list in front of cl's and then emptied; s is the merged size. |
| Nuclei.Rise | py/watershed_nuclei.cpp:127-191 | After a pixel rises, the forest holds, every root's list holds its cluster, flooded neighbours share a cluster, and clusters are connected. The touched set gains exactly p's cluster when p met one (none when p stays alone); every root whose list of two or more pixels changed is touched, and the touched clusters that fit are recorded. |
| Nuclei.FloodPixel | py/watershed_nuclei.cpp:131 | p links to itself and its visit begins. |
| Nuclei.Settle | py/watershed_nuclei.cpp:188-191 | A pixel that met no cluster gets the list [p], and every root's list holds its cluster. |
| Nuclei.Append | py/watershed_nuclei.cpp:190 | x goes to the end of r's list. |
| Nuclei.Batch | py/watershed_nuclei.cpp:114-192 | The cursor only moves down. The batch stops at the first pixel below the threshold, or when none is left, with the pixels after the cursor flooded. Every root whose list of two or more pixels changed during the batch is in the touched set, and the touched clusters that fit are recorded. |
| Nuclei.BatchEnd | py/watershed_nuclei.cpp:117-125 | When a batch stops, the flooded pixels are exactly those at or above its threshold. |
| Nuclei.MarkUpdated | py/watershed_nuclei.cpp:195-199 | A mask bit becomes true exactly for the pixels of updated clusters whose size lies in [sizeMin, sizeMax]; no bit is cleared. |
| Nuclei.MarkCluster | py/watershed_nuclei.cpp:195-199 | One turn marks the pixels of c when its size fits, and changes nothing else. |
| Nuclei.Round | py/watershed_nuclei.cpp:113-199 | One threshold turn ends with the flood at the threshold and every changed root of two or more pixels touched. The mask adds exactly the pixels of the recorded clusters that fit. |
| Nuclei.Rounds | py/watershed_nuclei.cpp:112-200 | Starting from an empty flood, each batch t is Batched, Recorded and Tracked against the state batch t-1 left. A pixel is set after the loop exactly when it was set before or some batch marked it. |
| Nuclei.NextRound | py/watershed_nuclei.cpp:111-199 | One threshold round floods every pixel down to the threshold, extends the run record by exactly one batch, leaves the flood equal to the state that batch ends in, and keeps the mask equal to its start or what some batch marked. |
| Nuclei.MarksSnoc | py/watershed_nuclei.cpp:195-199 | If the mask held its start or a mark of some earlier batch, and the new round sets a pixel exactly when the batch marks it, then the mask holds its start or a mark of some batch of the extended run. |
| Nuclei.Mark | py/watershed_nuclei.cpp:112-200 | The same, for either merge test. |
| Nuclei.MarkNuclei | py/watershed_nuclei.cpp:56-204 | As written, a pixel is set exactly when it was set before or some batch marked it. Each batch ends with the flood at its threshold, every changed cluster touched, and the touched clusters recorded by the tests of lines 165 and 182. Every pixel of a cluster of at least two pixels that grew in a batch, with sizeMin <= size < sizeMax, is set. |
| Nuclei.MarkNucleiInclusive | py/watershed_nuclei.cpp:56-204 | The same, with the merge test of line 182 made inclusive like those of lines 165 and 197: every pixel of a cluster of at least two pixels that grew in a batch, with size in [sizeMin, sizeMax], is set. |
| Nuclei.MarkedIsNucleus | py/watershed_nuclei.cpp:195-199 | Every pixel marked after a batch is flooded, in a cluster whose size lies in [sizeMin, sizeMax]. |
| Nuclei.RecordedIsMarked | py/watershed_nuclei.cpp:195-199 | Every pixel of a recorded root whose size fits is marked. |
| Nuclei.MarksAreNuclei | py/watershed_nuclei.cpp:195-199 | Every pixel a run marks lies, in some batch, at or above that batch's threshold, in a cluster of size in [sizeMin, sizeMax]. |
| Nuclei.InclusiveMarks | py/watershed_nuclei.cpp:165-199 | With the inclusive merge test, every pixel of a cluster touched in a batch whose size lies in [sizeMin, sizeMax] is marked. |
| Nuclei.GrownMarked | py/watershed_nuclei.cpp:157-199 | In any run, every pixel of a root of at least two pixels whose cluster grew in batch t, and whose size passes the recording test, is marked. |
| Nuclei.GrewChanged | py/watershed_nuclei.cpp:157-184 | A root of two or more pixels whose cluster grew between two states has a list it did not have before. |
| Nuclei.TrackedTrans | py/watershed_nuclei.cpp:127-192 | A root changed over two stretches of the flood is touched when each stretch touches the roots it changed and the touched set only grows. |
| Nuclei.BatchSnoc | py/watershed_nuclei.cpp:112-200 | Adding a batch at the end leaves what is known of every earlier batch unchanged. |
| Nuclei.RunSnoc | py/watershed_nuclei.cpp:112-200 | A run extended by a batch that is Batched, Recorded and Tracked against the last state is a run. |
| Nuclei.MergeAtCap | py/watershed_nuclei.cpp:182-183 | On the lists that the 1 by 3 image [[1.0, 0.5, 1.0]] reaches just before its last merge, with sizeMin = sizeMax = 3: the merged list has 3 pixels, the test as written leaves the updated set empty, and the inclusive test puts the cluster in it so that all three pixels are marked. The lists are written out by hand, not derived from a run. |
| Nuclei.ListedPixel | py/watershed_nuclei.cpp:162-191 | Every pixel of a root's list is flooded and lies in that root's cluster. |
| Data.Lower | py/junkoda_cellularlib/data.py:112 | On ASCII input, str.lower maps A-Z to a-z and leaves every other character unchanged; non-ASCII letters are outside the model (see Left out). |
| Data.ParseTwo | py/junkoda_cellularlib/data.py:113 | int() of two characters: two digits give their decimal value, and two non-digits raise ValueError. |
| Data.WellCoordinate | py/junkoda_cellularlib/data.py:98-115 | A name not three characters long fails the assertion. Otherwise the row is the 1-based, case-insensitive letter position and the column the integer value of the rest. |
| Data.WellIndex | py/junkoda_cellularlib/data.py:118-120 | row * 22 + column, or the error of well_coordinate. |
| Data.WellCoordinateOfName | py/junkoda_cellularlib/data.py:112-113 | Parsing the canonical name of (row, column) gives back (row, column), and its index row * 22 + column. |
| Data.WellCoordinateExample | py/junkoda_cellularlib/data.py:99-101 | "B02" gives (2, 2), not the (0, 0) of the docstring. |
| Delaunay.GetEdges | py/junkoda_cellularlib/delaunay.py:36-58 | With the corrected third test, the result lists each pair of the edge set exactly once. |
| Delaunay.EdgeSetSound | py/junkoda_cellularlib/delaunay.py:49-56 | Every pair of the edge set is a side of some triangle. |
| Delaunay.EdgeSetComplete | py/junkoda_cellularlib/delaunay.py:49-56 | Every side of every triangle is in the edge set, in at least one orientation. |
| Delaunay.EdgeSetOneOrientation | py/junkoda_cellularlib/delaunay.py:51-56 | No side is stored in both orientations. |
| Delaunay.EdgeSetAsWrittenFirstSides | py/junkoda_cellularlib/delaunay.py:51-54 | As written, sides i-j and j-k of every triangle are still present. |
| Delaunay.EdgeSetAsWrittenMissesSide | py/junkoda_cellularlib/delaunay.py:55-56 | As written, the single triangle (0, 1, 2) loses side 2-0. |
| Delaunay.ListOf | py/junkoda_cellularlib/delaunay.py:58 | list(s) holds each element of the set exactly once. |
| Delaunay.WrapIndex | py/junkoda_cellularlib/delaunay.py:64-65 | numpy indexing: in range exactly for -n <= e < n, with negative indices counting from the end. |
| Delaunay.GetEdgeCoords | py/junkoda_cellularlib/delaunay.py:60-66 | Row r holds (x1, y1, x2, y2) of the endpoints of edge r. Any out-of-range index raises IndexError. |

## Left out

- The Python/C API glue is left out: capsules, argument parsing, numpy views and the module table (`py_package.cpp`, the `py_*` wrappers). Its TypeError paths become the shape preconditions `IsGrid` and `IsArgsort`.
- `Buffer` and `np_array` are not modelled; the image is a `seq<seq<real>>`, the argsort a `seq<int>` and the output buffers are arrays.
- The `std::mt19937` random generator is not modelled; the start direction of each visit is the input `dirs`.
- The timing in `mark_nuclei` (`std::chrono`) is not modelled; its return value, the elapsed time, is left out.
- `print_edge` is debug output and is not modelled.
- `ellipses.cpp`, `nucleus.py`, `threshold.py` (beyond its sort and zero mask), `graph.py`, `clusters.py`, `watershed.py` and `watershed_ncluster.py` are left out: floating-point statistics, plotting and thin numpy wrappers. Their argsort, descending sort and zeroed outputs appear as preconditions.
- `Delaunay.__init__` (the scipy triangulation), `__repr__`, `__getitem__` and `plot` are left out; the triangles are an input.
- `data.load` and `data.load_header` read files and are left out.
- Integer widths are unbounded. `int` sizes and counters do not overflow here, and `size_t` appears only where a negative `size_threshold` is converted (`ClusterSearch.SizeT`).
- Pixel values are `real`; the core only compares them, and `std::min` is modelled exactly.
- Watershed.Watershed.Visit: edge slots are indexed by the direction of the neighbour, not by the loop counter as written (see Findings). For a start direction of 0, the only one when the seed is 0, the two coincide.
- Watershed.Watershed.Unite: the edge slots it writes are proved free, so the assertions of lines 181-182 and 215-216 are theorems rather than run-time checks.
- ClusterSearch.ObtainClusters: the assertion of line 315 is modelled as an `Err` result, and the model does not prove that it never fires. It cannot fire when the edges form a forest, as those of construct_graph do (one edge per union), but the proof needs the recorded edges to be acyclic and the breadth-first queue to hold no edge twice, and the model carries neither. Its contract states what each kept cluster holds, but not that a cluster is the full component reached from its first edge.
- ClusterSearch.Explore: states what a cluster holds only on the `Ok` path, for the same reason; the `Err` path, the assertion of line 315, is not proved unreachable.
- Clusters.Look: reads a neighbour's value only when it is inside the image; the out-of-bounds read of line 100 is exhibited by `Clusters.ProbeOutside` (see Findings).
- Nuclei.Batch: the touched set is bounded from below (every root of two or more pixels whose list changed is in it) and, per pixel, is exact in Nuclei.Rise; the updated set is pinned down only as far as Recorded states (every touched root that fits is in it), not as the exact set the tests of lines 165 and 182 build.
- Nuclei.MarkNuclei: the order in which `std::set` iterates the updated clusters is not modelled; marking is idempotent, so it does not change the mask.
- Nuclei.MarkNuclei: a lone new pixel is never recorded (lines 188-191), as written, so a 1-pixel cluster is marked only if a later join or merge touches it.
- Nuclei.MarkNuclei: sizeMin and sizeMax are `nat`; the `int` to `size_t` conversion of negative arguments is not modelled.
- Data.Lower: models `str.lower` on ASCII only and leaves every other character unchanged. Python also lowers non-ASCII letters ("Ä02" gives row 228 - 96 = 132 in Python, 196 - 96 = 100 here), and some characters lower to two ('İ'.lower() has length 2, so `ord` raises TypeError). Data.WellCoordinate and Data.WellIndex inherit this: their results agree with Python for names whose first character is ASCII.
- Data.ParseTwo: Python's `int` is modelled for ASCII input of two characters (digits, one sign, or ASCII whitespace padding); Unicode digits and underscores are not.

## Findings

| source | as written | input that shows it | evidently intended | confidence | as-written member | corrected member |
|---|---|---|---|---|---|---|
| py/py_watershed.cpp:173 | Edge slots are indexed by the loop counter j1 and (j1 + 2) % 4, not by the direction inbr of the neighbour. | 2 by 2 image [[3, 2], [4, 1]], argsort [3, 1, 0, 2], random start direction 1 for pixel 0 and 0 for pixel 1: both edges go to slot 0 of pixel 0, and the assertion of line 182 fails | slots inbr and (inbr + 2) % 4, which are always free | not executed; high | Watershed.SlotCollision | WatershedInv.NeighbourSlotFree |
| py/py_clusters.cpp:100 | The neighbour's value is read before the bounds check of line 102. | any image whose pixel 0 is at or above the threshold: its left neighbour is row -1 | read the value only after the bounds check | not executed; high | Clusters.ProbeOutside | Clusters.Look |
| py/py_clusters.cpp:276 | `nedges` returns the number of pixels. | any cluster: a single-pixel cluster has 0 edges and reports 1 | the number of edges, one fewer than the pixels | not executed; high | Clusters.NEdgesOffByOne | Clusters.NEdgesTree |
| py/junkoda_cellularlib/delaunay.py:55 | Side k-i is skipped when (i, j) is present, where (i, k) was meant. | the single triangle (0, 1, 2): side 2-0 is missing | test (k, i) or (i, k) | not executed; high | Delaunay.EdgeSetAsWrittenMissesSide | Delaunay.EdgeSetComplete |
| py/watershed_ncluster.cpp:110 | Slots the cursor passes over, and slots after the last pixel, are never written. | image [[1.0]], thresholds [0.5, 0.25], zeroed output: slot 1 stays 0 although one cluster lies above 0.25 | every slot holds the count for its threshold | not executed; medium | NClusterFilled.SkippedSlot | NClusterFilled.ComputeNClustersFilled |
| py/watershed_nuclei.cpp:182 | A merged cluster is recorded only if its size s < size_max, while a join (line 165) and the marking (line 197) accept s == size_max. | image [[1.0, 0.5, 1.0]], threshold 0.4, size_min = size_max = 3: the 3-pixel cluster is never marked | s <= size_max | not executed; medium | Nuclei.MergeAtCap | Nuclei.MarkNucleiInclusive |
