# Recast/Detour: a verified model

Recast and Detour build navigation meshes and search them. This project models their integer and pointer
algorithms in Dafny and proves what they keep, find and promise. Code that changes state in place is a class, an array
algorithm or a loop here too; each such method is proved against a function or predicate on values, and the
properties of the system are lemmas about those.

| file | what it models |
|---|---|
| `TileCacheModel`, `TileCacheRuns`, `TileCacheLedger`, `TileCache` | the obstacle protocol of `dtTileCache`: slots, requests, the update list, rebuilding tile by tile, and what its caller may count on |
| `NavMeshModel`, `NavMeshLinking`, `LinkStores`, `NavMeshes` | the tile slots, references and links of `dtNavMesh` |
| `SearchNodes`, `NodePools`, `SearchStates` | the binary heap and the hash pool that searches share |
| `CircleSearchModel`, `CircleSearch` | the Dijkstra search `findPolysAroundCircle` |
| `PathSearchModel`, `PathSearch` | the A\* search `findPath` with reopening, and `getPathToNode` |
| `BVTree` | the flattened bounding-volume tree: building, storing, walking, quantised queries |
| `PolyGeometry`, `Triangulation`, `DiagonalGeometry`, `PolyMerge`, `MeshAdjacency` | ear clipping and what its integer tests mean, greedy convex merging, edge adjacency |
| `ContourModel`, `SharedWalls`, `Contours` | contour simplification; the wall between two regions simplified from both sides |
| `LayersModel`, `Layers` | partitioning heightfield regions into layers |
| `SharedLists`, `Heightfield` | lists threaded through one pool; span columns |
| `PathQueues`, `Corridors` | the path request queue; corridor merges and trackback removal |
| `Basics` | sequences, sets and vectors |

`dafny verify dfyconfig.toml` checks everything.

How the model states what the code only implies:

- Floats are exact reals; geometric tests (slabs, portals, circles, nearest polygons, which tiles a box touches) are
  function parameters.
- A class whose state is described by a value has a ghost function or predicate that gives it (`Abs`, `Holds`, `Column`,
  `Shape`); methods say how that value changes.
- `Valid()` of a class is the invariant of every run: the constructor establishes it and every method keeps it.

Where the code and its documentation or its evident intent differ, the model follows the code:

- `dtTileCache::update` documents its up-to-date flag as the cache being current (DetourTileCache.h:141-146). An obstacle
  that touches no tile stays Processing (or Removing, keeping its slot) until some tile is built, even though the flag
  is set: `UntouchingObstacleKeepsSlot`. `UpToDateSettledIff` says exactly when the obstacles end settled: a tile was
  queued, or some request touches one, or all were settled and none is removed.
- An obstacle added while tiles are queued has nothing pending and becomes Processed before its ADD request is read.
  Coherence holds nevertheless: `AwaitsAdd` and `RunInv`.
- Tiles that a full update list refuses are lost; `NothingRefusedIff` and `DrainedIsFullRebuildIff` say when that matters.
  `PostsAreRefused` is a batch of nine additions after which the drained mesh is wrong; no run loses a tile whose batches
  touch at most MAX_UPDATE tiles each (`FewRunIsFullRebuild`).
- The stored bounding-volume tree has one node more than `subdivide` writes; it stays zero and is visited:
  `QueryIsOverlapTest`.
- The search for a corner with a loose diagonal in `triangulate` measures one vertex farther than the cut it looks for
  (`LooseLength`); `LooseLengthIff` says for which vertices the two lengths agree, and `LooseNotShortest`
  is a polygon of which it takes a corner whose cut is not the shortest.
- `getPolyMergeValue` keeps the last matching edge if two polygons share several; `MergeableIff` speaks of joining along that
  edge.
- The layer merge compares height ranges after a sum that wraps in 16 bits (`Wrap16`). A wrapped test never says close where the
  plain one does not; `CloseIff` says when they agree, and `WrappedNotClose` is a region that is not close to
  itself.
- `getPathResult` called with the invalid handle takes what the first empty slot has left (`GetPathResult`).
- The corridor merges look for the furthest common polygon, but the inner loop goes on after a hit, so of several visits
  to that polygon the first one counts (`FirstIndex`).
- Traversing a contour segment in the order of the coordinates is meant to give the same vertices from both sides. They
  are the same for a wall that both contours pass from one change of walls to the next, with no change between, if its
  ends lie apart; `SharedWallIff` has the exact condition, which also covers walls that begin and end at one place. (Such
  a wall encloses the region on its other side, whose own contour changes walls nowhere, so that the condition does not
  apply to it.) If the other contour leaves the wall in between, to go around a third region that touches the wall in one
  corner, the same vertices are left only if that corner is (`CutsMustStay`); of a wall that is not divided they are the
  same exactly if the other contour does not leave it (`UndividedWallIff`). `CornerLeftOnOneSide` is such a wall, from the
  contours that `walkContour` yields for a layer of 6 x 6 cells, of which one side drops a corner that the other keeps.

## Model

| member | source | states |
|---|---|---|
| TileCacheModel.ObstacleIdRoundTrip | deps/detour_tile_cache/DetourTileCache.h:178-196 | decoding an obstacle reference gives back salt and slot; a reference with a salt is not the null reference |
| TileCacheModel.InitialInv | deps/detour_tile_cache/DetourTileCache.cpp:118-140 | a fresh cache satisfies the invariant: all slots free, nothing queued, the mesh built without obstacles |
| TileCacheModel.AddObstacleInv | deps/detour_tile_cache/DetourTileCache.cpp:354-421 | adding an obstacle keeps the invariant, also while rebuilds are in flight |
| TileCacheModel.RemoveObstacleInv | deps/detour_tile_cache/DetourTileCache.cpp:423-436 | a removal request for an issued reference keeps the invariant |
| TileCacheModel.RequestKeepsQueue | deps/detour_tile_cache/DetourTileCache.cpp:484-536 | reading a request keeps the update list free of repetitions and every pending list inside it; tiles are refused only when the list is full |
| TileCacheModel.RequestKeepsCoherence | deps/detour_tile_cache/DetourTileCache.cpp:484-536 | a tile whose content a request changes is asked to be rebuilt, so all others stay what a rebuild would give |
| TileCacheModel.BuildFirstCoherent | deps/detour_tile_cache/DetourTileCache.cpp:541-587 | settling obstacles after a build changes no tile's right content, and the tile just built has it |
| TileCacheModel.BuildFirstInv | deps/detour_tile_cache/DetourTileCache.cpp:541-587 | building a tile keeps the invariant, the free list holding exactly the empty slots |
| TileCacheModel.UpdateInv | deps/detour_tile_cache/DetourTileCache.cpp:479-594 | update keeps the invariant |
| TileCacheModel.RunInv | deps/detour_tile_cache/DetourTileCache.cpp:354-594 | after every legal run of additions, removals and updates, every tile not queued or refused was last built from exactly the obstacles that contribute to it |
| TileCacheModel.UpToDateIsFullRebuild | deps/detour_tile_cache/DetourTileCache.cpp:479-594 | when update reports up to date and no tile was refused, the mesh equals a rebuild of every tile |
| TileCacheModel.NothingRefusedIff | deps/detour_tile_cache/DetourTileCache.cpp:484-536 | a batch of requests has all its tiles queued if and only if it touches at most MAX_UPDATE different ones |
| TileCacheModel.BatchQueuesIff | deps/detour_tile_cache/DetourTileCache.cpp:484-536 | with nothing queued, reading a batch of requests queues a tile if and only if an accepted request touches one |
| TileCacheModel.DrainedIsFullRebuildIff | deps/detour_tile_cache/DetourTileCache.cpp:479-594 | when tiles were refused, the drained mesh is a full rebuild if and only if each refused tile was right already |
| TileCacheModel.DrainCount | deps/detour_tile_cache/DetourTileCache.cpp:541-548 | while tiles are queued each update takes exactly one off the list, whatever is requested in between |
| TileCacheModel.LastBuildSettles | deps/detour_tile_cache/DetourTileCache.cpp:541-587 | the update that builds the last queued tile leaves no obstacle Processing or Removing |
| TileCacheModel.DrainSettles | deps/detour_tile_cache/DetourTileCache.cpp:479-594 | k queued tiles need exactly k updates, after the last of which every obstacle is settled |
| TileCacheModel.UpToDateSettledIff | deps/detour_tile_cache/DetourTileCache.cpp:479-594 | after an update that reports up to date the obstacles are settled if and only if a tile was queued before it, or an accepted request touches a tile, or all were settled and no accepted request removes one |
| TileCacheModel.UntouchingObstacleKeepsSlot | deps/detour_tile_cache/DetourTileCache.cpp:541-594 | the input that shows it: a removed obstacle outside every tile keeps its slot although the cache reports up to date |
| TileCacheModel.UpToDateUpdateIsIdle | deps/detour_tile_cache/DetourTileCache.h:141-146 | after an up-to-date report an immediate further update changes nothing |
| TileCacheRuns.UpdateRefusesIff | deps/detour_tile_cache/DetourTileCache.cpp:484-536 | an update that reads a batch queues all tiles the batch asks for, told from the state before it, if and only if they are at most MAX_UPDATE; the others are the ones lost |
| TileCacheRuns.FewRunIsFullRebuild | deps/detour_tile_cache/DetourTileCache.cpp:354-594 | after any legal run from a state that lost no tile, such as the initial one, whose batches touch at most MAX_UPDATE tiles each, the mesh is a full rebuild whenever no tile is queued |
| TileCacheRuns.PostsAreRefused | deps/detour_tile_cache/DetourTileCache.cpp:484-536 | the input that shows the loss: nine additions of eight tiles each, after which the drained mesh is no full rebuild |
| TileCacheLedger.TilesFollowCalls | deps/detour_tile_cache/DetourTileCache.cpp:354-594 | told from the calls and their results alone: in every run without refusals, when nothing is queued any more each tile is built from exactly the shapes, in slot order, that were added with success, touch the tile, and whose reference no later successful removal names |
| TileCacheLedger.RemovedIsGone | deps/detour_tile_cache/DetourTileCache.cpp:487-594 | after an update that reads requests, an obstacle that an accepted removal names is Removing, or its slot is free under the next salt, and it contributes to no tile |
| TileCacheLedger.AddedContributes | deps/detour_tile_cache/DetourTileCache.cpp:487-594 | an obstacle that an accepted request adds and none removes contributes to exactly the tiles its bounds touch |
| TileCacheLedger.RunKeepsLedger | deps/detour_tile_cache/DetourTileCache.cpp:354-594 | every call keeps in step which obstacles the caller counts on and which slots are in use |
| TileCacheLedger.BatchSlots | deps/detour_tile_cache/DetourTileCache.cpp:484-534 | a batch makes each slot that it removes Removing, lets each that it adds touch the tiles of its bounds, and leaves the others alone |
| TileCacheLedger.TouchedByLeastBox | deps/detour_tile_cache/DetourTileCache.cpp:500-505 | the tiles an obstacle touches are those of the least box around it |
| TileCacheLedger.BoundsAreLeast | deps/detour_tile_cache/DetourTileCache.cpp:746-764 | the bounds are the least box that contains every point of the cylinder or box |
| TileCacheLedger.RemovedBox | deps/detour_tile_cache/DetourTileCache.cpp:479-594 | an input: a box is in its tile after one update; after its removal and one more it is out of the tile and its slot is free under salt 2 |
| TileCache.TileCache.constructor | deps/detour_tile_cache/DetourTileCache.cpp:118-140 | the slots chained in order, the abstract state initial |
| TileCache.TileCache.AddObstacle | deps/detour_tile_cache/DetourTileCache.cpp:354-387 | refines the abstract addition of a cylinder, with its failures |
| TileCache.TileCache.AddBoxObstacle | deps/detour_tile_cache/DetourTileCache.cpp:389-421 | refines the abstract addition of a box |
| TileCache.TileCache.RemoveObstacle | deps/detour_tile_cache/DetourTileCache.cpp:423-436 | refines the abstract removal request |
| TileCache.TileCache.ProcessRequests | deps/detour_tile_cache/DetourTileCache.cpp:484-536 | refines reading the batch |
| TileCache.TileCache.SettleObstacles | deps/detour_tile_cache/DetourTileCache.cpp:550-587 | refines settling all obstacles; freed slots go in front of the free chain |
| TileCache.TileCache.BuildNext | deps/detour_tile_cache/DetourTileCache.cpp:541-587 | refines building the first queued tile |
| TileCache.TileCache.RasterizeObstacles | deps/detour_tile_cache/DetourTileCache.cpp:637-656 | a tile is built from exactly the obstacles that are neither empty nor being removed and touch it, in slot order |
| TileCache.TileCache.Update | deps/detour_tile_cache/DetourTileCache.cpp:479-594 | refines update; up to date and nothing refused means the mesh is a full rebuild |
| TileCache.Contains | deps/detour_tile_cache/DetourTileCache.cpp:26-32 | membership among the first n entries |
| TileCache.RemovePending | deps/detour_tile_cache/DetourTileCache.cpp:556-565 | the first occurrence is replaced by the last entry |
| NavMeshModel.PolyIdRoundTrip | deps/detour/DetourNavMesh.h:514-592 | decoding a polygon reference gives back salt, tile and polygon |
| NavMeshModel.PolyIdInjective | deps/detour/DetourNavMesh.h:514-592 | different parts make different references, and none with a salt is null |
| NavMeshModel.NearIsNeighbour | deps/detour/DetourNavMesh.cpp:1007-1023 | the position itself and its eight neighbours are all positions at most one away |
| NavMeshModel.NeighbourIsToward | deps/detour/DetourNavMesh.cpp:1007-1023 | a neighbour lies where its side points, told by coordinates, and from there the opposite side points back |
| NavMeshModel.BucketComplete | deps/detour/DetourNavMesh.cpp:1025-1045 | a position's bucket holds every live tile there |
| NavMeshModel.SlotOff | deps/detour/DetourNavMesh.cpp:1183-1199 | unlinking a slot leaves every other slot on exactly its own list |
| NavMeshModel.SlotOn | deps/detour/DetourNavMesh.cpp:903-906 | linking a slot in front of its list puts every slot on exactly one list again |
| NavMeshModel.AddKeepsLinksOk | deps/detour/DetourNavMesh.cpp:122-129 | a link to a near live tile's polygon added in a tile keeps all link lists and all links good |
| NavMeshModel.GrownTouching | deps/detour/DetourNavMesh.cpp:945-980 | everything the connecting functions add for a tile has that tile at one end and is due: inside the tile, or across a portal or connection to the tile that lies, by its coordinates, on the link's side |
| NavMeshModel.NewTileLinksOk | deps/detour/DetourNavMesh.cpp:846-986 | filling a free slot with a tile without links keeps all links good |
| NavMeshModel.FreeSlotNotLinked | deps/detour/DetourNavMesh.cpp:1171-1264 | no live tile links to a free slot |
| NavMeshModel.DeadTileLinksOk | deps/detour/DetourNavMesh.cpp:1222-1261 | a tile to which nothing links any more can be freed and its salt moved on |
| NavMeshModel.CutComplete | deps/detour/DetourNavMesh.cpp:1201-1220 | once the near tiles are disconnected no surviving tile links to the removed one |
| NavMeshModel.StepsAddTile | deps/detour/DetourNavMesh.cpp:846-986 | taking a slot, filling it and linking it add up to an added tile; other tiles only gained links to it |
| NavMeshModel.StepsRemoveTile | deps/detour/DetourNavMesh.cpp:1171-1264 | disconnecting and freeing add up to a removed tile; other tiles lost exactly their links to it |
| NavMeshModel.AddKeepsPlaces | deps/detour/DetourNavMesh.cpp:856-858 | at most one live tile per location and layer |
| NavMeshModel.FewAreAll | deps/detour/DetourNavMesh.cpp:1025-1045 | with at most 32 tiles per position, the tiles found at a position are all of them |
| NavMeshModel.RemoveUndoesAdd | deps/detour/DetourNavMesh.cpp:353-385 | removing a tile takes back exactly the links that adding it gave another tile |
| NavMeshModel.SaltsGoRound | deps/detour/DetourNavMesh.cpp:1250-1257 | a slot's salt does not come back before all other salts were used, and then it does |
| NavMeshLinking.InnerIs | deps/detour/DetourNavMesh.cpp:524-559 | with cells enough a new polygon has exactly its internal links, in edge order |
| NavMeshLinking.PortalLinkOk | deps/detour/DetourNavMesh.cpp:387-452 | a link through a portal leads to a polygon of a tile next to its own that the edge touches |
| NavMeshLinking.LinkedSince | deps/detour/DetourNavMesh.cpp:945-980 | what linking promises of a tile also holds measured from before it had its slot |
| NavMeshLinking.ConnectingIff | deps/detour/DetourNavMesh.cpp:300-351 | a portal edge is linked with exactly the polygons it touches that have fewer than four of these before them |
| NavMeshLinking.LinkedIsAround | deps/detour/DetourNavMesh.cpp:945-980 | told by coordinates, for all eight offsets and for layers: portals on sides that face each other and touch are linked both ways, and connections with what they land on, as far as link cells go |
| LinkStores.ListsUnique | deps/detour/DetourNavMesh.cpp:122-135 | the free list and the polygons' lists are determined by the link cells |
| LinkStores.ListsDisjoint | deps/detour/DetourNavMesh.cpp:122-135 | no cell is on two lists |
| LinkStores.AddFacts | deps/detour/DetourNavMesh.cpp:122-129 | a link goes in front of its polygon's list while a cell is free; nothing else changes |
| LinkStores.DropFacts | deps/detour/DetourNavMesh.cpp:353-385 | dropping a cell takes its link, and no other, off its polygon's list and frees it |
| LinkStores.UnconnectPoly | deps/detour/DetourNavMesh.cpp:353-385 | one polygon keeps exactly its links that lead elsewhere, in order |
| LinkStores.UnconnectLinks | deps/detour/DetourNavMesh.cpp:353-385 | every polygon keeps exactly its links that lead elsewhere, in order |
| LinkStores.BuildFreeList | deps/detour/DetourNavMesh.cpp:933-937 | all cells free, in order |
| NavMeshes.NavMesh.constructor | deps/detour/DetourNavMesh.cpp:224-265 | all slots free with salt 1, all buckets empty |
| NavMeshes.NavMesh.GetTileAt | deps/detour/DetourNavMesh.cpp:988-1005 | the unique live tile at a location, or none exactly if there is none |
| NavMeshes.NavMesh.GetTilesAt | deps/detour/DetourNavMesh.cpp:1025-1045 | the first tiles of the bucket at the position, all if they fit |
| NavMeshes.NavMesh.GetNeighbourTilesAt | deps/detour/DetourNavMesh.cpp:1007-1023 | the same for the position that lies on a side, told by its offset |
| NavMeshes.NavMesh.ConnectIntLinks | deps/detour/DetourNavMesh.cpp:524-559 | with cells enough, exactly one link per internal edge, in edge order |
| NavMeshes.NavMesh.FindConnectingPolys | deps/detour/DetourNavMesh.cpp:300-351 | exactly the first polygons whose portal edge faces the side and touches, up to the limit |
| NavMeshes.NavMesh.ConnectExtLinks | deps/detour/DetourNavMesh.cpp:387-452 | every portal edge on the side is linked with what it touches, as far as cells go |
| NavMeshes.NavMesh.ConnectExtOffMeshLinks | deps/detour/DetourNavMesh.cpp:454-522 | every connection that starts in one tile and lands in the other is linked, and back if it runs both ways |
| NavMeshes.NavMesh.BaseOffMeshLinks | deps/detour/DetourNavMesh.cpp:561-617 | every connection with a start polygon is linked with it both ways |
| NavMeshes.NavMesh.AllocTile | deps/detour/DetourNavMesh.cpp:860-901 | the first free slot, or the one the old reference names with its salt restored; none if that is impossible |
| NavMeshes.NavMesh.AddTile | deps/detour/DetourNavMesh.cpp:846-986 | each failure exactly under its condition and without effect; otherwise the tile is at its location, is linked inside and with all near tiles, each portal with those that face it by their coordinates and touch; every link added is due and has the new tile at one end |
| NavMeshes.NavMesh.UnconnectTiles | deps/detour/DetourNavMesh.cpp:1206-1219 | the given tiles lose exactly their links to the tile |
| NavMeshes.NavMesh.Disconnect | deps/detour/DetourNavMesh.cpp:1201-1220 | no tile near or far links to the tile any more |
| NavMeshes.NavMesh.RemoveTile | deps/detour/DetourNavMesh.cpp:1171-1264 | each failure exactly under its condition and without effect; otherwise the slot is free under its next salt, so the reference is stale at once, and other tiles keep exactly their links that lead elsewhere |
| NavMeshes.RemoveAndAddBack | deps/detour/DetourNavMesh.cpp:846-1264 | removing a tile and adding its data back with the old reference gives the same reference |
| NavMeshes.AddAndRemove | deps/detour/DetourNavMesh.cpp:846-1264 | adding a tile and removing it again leaves every other tile with exactly the links it had |
| SearchNodes.RootIsLeast | deps/detour/DetourNode.h:116-124 | the root of an ordered heap is a minimum |
| SearchNodes.SinkStep | deps/detour/DetourNode.cpp:185-200 | moving the smaller child into the hole keeps the order around the new hole, whatever node will fill it |
| SearchNodes.BubbleOrders | deps/detour/DetourNode.cpp:172-183 | rising past larger ancestors restores the order |
| SearchNodes.TrickleOrders | deps/detour/DetourNode.cpp:185-200 | sinking the hole to a leaf and then rising restores the order |
| SearchNodes.PopHeapCorrect | deps/detour/DetourNode.h:118-124 | pop takes off a least node and leaves an ordered heap of exactly the others |
| SearchNodes.PushHeapCorrect | deps/detour/DetourNode.h:126-130 | push adds exactly the node and keeps the order |
| SearchNodes.ModifyHeapCorrect | deps/detour/DetourNode.h:132-142 | modify after a lowered key restores the order of the same nodes |
| SearchNodes.NodeQueue.BubbleUp | deps/detour/DetourNode.cpp:172-183 | in place, what the specification gives |
| SearchNodes.NodeQueue.TrickleDown | deps/detour/DetourNode.cpp:185-200 | in place, what the specification gives |
| SearchNodes.NodeQueue.Pop | deps/detour/DetourNode.h:118-124 | returns a minimum, leaves an ordered heap of the rest |
| SearchNodes.NodeQueue.Push | deps/detour/DetourNode.h:126-130 | adds the node, keeps the order |
| SearchNodes.NodeQueue.Modify | deps/detour/DetourNode.h:132-142 | restores the order by a scan for the node |
| NodePools.PushChain | deps/detour/DetourNode.cpp:121-152 | handing out a node keeps each node on exactly its own bucket's chain |
| NodePools.MatchesFacts | deps/detour/DetourNode.cpp:89-106 | of a bucket's chain, each node of the polygon once, no other, all unless the limit was reached |
| NodePools.NodePool.Clear | deps/detour/DetourNode.cpp:83-87 | no node handed out |
| NodePools.NodePool.FindNode | deps/detour/DetourNode.cpp:108-119 | the node with this reference and state, none exactly if it was not handed out |
| NodePools.NodePool.FindNodesFacts | deps/detour/DetourNode.cpp:89-106 | the nodes of a polygon, each once, all unless the limit was reached |
| NodePools.NodePool.FindNodes | deps/detour/DetourNode.cpp:89-106 | returns those |
| NodePools.NodePool.GetNode | deps/detour/DetourNode.cpp:121-152 | finds the node or hands out a fresh one; null exactly when the pool is exhausted |
| SearchStates.QueueHasRoom | deps/detour/DetourNavMeshQuery.cpp:166-219 | an open list as large as the pool never overflows |
| SearchStates.PopsLeastOpen | deps/detour/DetourNavMeshQuery.cpp:2762-2766 | what is popped is an open node with the least total, and the list then holds the other open nodes |
| SearchStates.SearchState.PopBest | deps/detour/DetourNavMeshQuery.cpp:2762-2766 | closes a least open node |
| SearchStates.SearchState.Improve | deps/detour/DetourNavMeshQuery.cpp:2853-2865 | a better node is moved up in the list or put on it |
| CircleSearchModel.CloseInv | deps/detour/DetourNavMeshQuery.cpp:2762-2797 | closing a least open node keeps the search invariant: totals come in ascending order |
| CircleSearchModel.ParentTight | deps/detour/DetourNavMeshQuery.cpp:2803-2805 | leaving out the step back to the parent loses nothing |
| CircleSearchModel.RelaxInv | deps/detour/DetourNavMeshQuery.cpp:2799-2866 | following a link keeps the invariant, and afterwards the step cannot lower anything |
| CircleSearchModel.NoWalkIsCheaper | deps/detour/DetourNavMeshQuery.cpp:2729-2872 | when nothing is open, every polygon a walk can reach was found at a cost no walk beats |
| CircleSearch.ClosedIsLeast | deps/detour/DetourNavMeshQuery.cpp:2729-2872 | a closed node's total is attained by a walk and is the least of all walks to its polygon |
| CircleSearch.ReachedIsClosed | deps/detour/DetourNavMeshQuery.cpp:2729-2872 | every polygon a walk reaches was closed |
| CircleSearch.ReportParent | deps/detour/DetourNavMeshQuery.cpp:2771-2797 | the start has no parent; the parent reported with any other polygon was reported before it, is one step away, and the costs differ by that step |
| CircleSearch.ReportMeaning | deps/detour/DetourNavMeshQuery.cpp:2784-2797 | what is reported: no polygon twice, costs not decreasing, attained by a walk and least, parents reported before and one step away at the difference in cost, every reachable polygon if the buffers sufficed, too small exactly if more nodes are known than fit |
| CircleSearch.FindPolysAroundCircle | deps/detour/DetourNavMeshQuery.cpp:2729-2872 | terminates with those results; invalid exactly for an invalid start; out of nodes only if the pool is full; the query can be used again |
| PathSearchModel.ChainFacts | deps/detour/DetourNavMeshQuery.cpp:1204-1242 | a parent chain runs from the node to the start and no node on it costs more |
| PathSearchModel.ChainDistinct | deps/detour/DetourNavMeshQuery.cpp:1016-1202 | parent chains are acyclic in spite of reopening |
| PathSearchModel.RerouteOk | deps/detour/DetourNavMeshQuery.cpp:1165-1182 | a new parent whose chain avoids the node reroutes exactly the chains through it |
| PathSearchModel.PaysLowers | deps/detour/DetourNavMeshQuery.cpp:1156-1170 | an improvement lowers a known node's cost; the start is never improved |
| PathSearchModel.NotOnChain | deps/detour/DetourNavMeshQuery.cpp:1156-1170 | the improved node is not on the chain of the node it is improved through |
| PathSearchModel.RelaxDiscovered | deps/detour/DetourNavMeshQuery.cpp:1104-1190 | following a link keeps this: every known node but the start was found through a link of a known polygon, under the state of that link's side, and lies at the middle of the edge to it |
| PathSearchModel.RelaxInv | deps/detour/DetourNavMeshQuery.cpp:1087-1190 | following a link keeps the search invariant |
| PathSearchModel.UsedBound | deps/detour/DetourNavMeshQuery.cpp:1057-1191 | improvements follow ways without repetition, of which there are finitely many: the search ends |
| PathSearchModel.PathIsWalk | deps/detour/DetourNavMeshQuery.cpp:1204-1242 | any stored beginning of a path is a walk over links from the start |
| PathSearchModel.OpenGoalIsLeast | deps/detour/DetourNavMeshQuery.cpp:1057-1085 | when the goal is a least open node and the heuristic is admissible, its cost is the least of all walks to it, reopened nodes included |
| PathSearchModel.PathCost | deps/detour/DetourNavMeshQuery.cpp:1204-1242 | the stored path costs no more than the node it leads to says |
| PathSearchModel.DistanceIsAdmissible | deps/detour/DetourNavMeshQuery.cpp:94-103 | with metric distances and step costs of at least the scaled distance the heuristic is admissible wherever the polygons lie |
| PathSearchModel.ExhaustedMeansUnreachable | deps/detour/DetourNavMeshQuery.cpp:1193-1202 | if nothing is open and the pool sufficed, no walk reaches the goal |
| PathSearch.GetPathToNode | deps/detour/DetourNavMeshQuery.cpp:1204-1242 | terminates and writes the first min(length, maxPath) polygons from the start; too small exactly if the path is longer |
| PathSearch.RoundProgress | deps/detour/DetourNavMeshQuery.cpp:1057-1191 | each round uses up a way or an open node |
| PathSearch.StoredPathLeast | deps/detour/DetourNavMeshQuery.cpp:1057-1202 | no walk to the goal costs less than the path that a search that reached it stores |
| PathSearch.FoundPathIsCheapest | deps/detour/DetourNavMeshQuery.cpp:1016-1202 | then a path that findPath reports as complete costs no more than any walk to the goal |
| PathSearch.FindPath | deps/detour/DetourNavMeshQuery.cpp:1016-1202 | a walk from the start, stored whole or cut at the buffer, too small exactly if cut; with room enough, partial exactly if it does not end at the goal, and then no walk does unless nodes ran out; out of nodes only if the pool is full; its end is nearest to the goal of all nodes in the pool; a path that reaches the goal is a cheapest walk if the heuristic is admissible and costs do not depend on the polygon before; the query can be used again |
| BVTree.LongestAxis | deps/detour/DetourNavMeshBuilder.cpp:97-111 | an axis of greatest extent, the earlier one on a tie |
| BVTree.CalcExtends | deps/detour/DetourNavMeshBuilder.cpp:73-95 | the least box around the items |
| BVTree.Subdivide | deps/detour/DetourNavMeshBuilder.cpp:113-169 | n items give exactly the 2n-1 nodes of a halving tree whose boxes enclose what is below; items are permuted |
| BVTree.SubtreeNodes | deps/detour/DetourNavMeshBuilder.cpp:113-169 | a node's negative index skips exactly its subtree |
| BVTree.CreateBVTree | deps/detour/DetourNavMeshBuilder.cpp:171-241 | the stored nodes are such a tree of all polygons, each once, and one zero node |
| BVTree.WalkTree | deps/detour/DetourNavMesh.cpp:751-797 | a walk reports exactly the items below whose box meets the query, in tree order |
| BVTree.WalkStored | deps/detour/DetourNavMeshBuilder.cpp:483-483 | the zero node reports polygon 0 once more exactly when the query's minimum corner is the origin |
| BVTree.QueryIsOverlapTest | deps/detour/DetourNavMesh.cpp:751-797 | a query reports each polygon whose box shares a point with it exactly once, no other, and that extra report |
| BVTree.QueryPolygonsInTile | deps/detour/DetourNavMesh.cpp:746-797 | terminates with the references of those, cut at the limit |
| BVTree.OverlapIffMeet | deps/detour/DetourCommon.h:333-341 | boxes overlap exactly if some point is in both |
| BVTree.QuantisationKeepsOverlap | deps/detour/DetourNavMesh.cpp:751-776 | quantising never loses an overlap |
| BVTree.QuantisationAddsLittle | deps/detour/DetourNavMesh.cpp:751-776 | nor does it add one by much: what meets the quantised query is less than three units away from its part in the tile |
| PolyGeometry.TriangleArea | deps/recast/RecastMesh.cpp:168-174 | the sum over the edges of a triangle is its signed area |
| PolyGeometry.Pythagoras | deps/recast/RecastMesh.cpp:363-367 | squared lengths add up exactly at a right angle and are squared differences along the axes |
| PolyGeometry.CutEdges | deps/recast/RecastMesh.cpp:416-428 | cutting off a corner takes away one triangle's area and puts one edge in place of two |
| Triangulation.ProperIsLoose | deps/recast/RecastMesh.cpp:243-337 | a proper diagonal passes the loose test too |
| Triangulation.LooseLengthIff | deps/recast/RecastMesh.cpp:389-406 | the length measured in the loose pass is that of the cut if and only if the vertex after the cut is as far from its start as the cut's end |
| Triangulation.MakesUpCut | deps/recast/RecastMesh.cpp:416-441 | triangles and rest together keep the area and outline when a corner is cut off |
| Triangulation.MarkDiagonals | deps/recast/RecastMesh.cpp:344-351 | exactly the corners that a proper diagonal cuts off are marked |
| Triangulation.UpdateFlag | deps/recast/RecastMesh.cpp:433-441 | the corner's flag is on exactly if a proper diagonal of the polygon left cuts it off; every other flag stays |
| Triangulation.CutCorner | deps/recast/RecastMesh.cpp:424-441 | the corner goes, the flags of the two corners beside it are renewed so, and the others keep theirs |
| Triangulation.SelectCorner | deps/recast/RecastMesh.cpp:355-414 | the first marked corner with a shortest cut; if none is marked, of those that a loose diagonal cuts off the first with the least measured length; none exactly if not even a loose one exists |
| Triangulation.LooseNotShortest | deps/recast/RecastMesh.cpp:376-406 | an input without a proper diagonal of which the loose pass takes a corner although another's cut is shorter |
| Triangulation.Triangulate | deps/recast/RecastMesh.cpp:339-451 | n-2 triangles with the polygon's signed area and outline, or -k, and the k triangles and the rest, which no loose diagonal cuts, have them; each triangle but the last was cut at the corner due: one that a proper diagonal cut off when its flag was last written, with the shortest cut, or if there was none a loose one |
| Triangulation.Pentagon | deps/recast/RecastMesh.cpp:339-451 | an input: a pentagon whose corner must not be cut any more after the first cut; the run yields these three triangles, which all turn the same way |
| DiagonalGeometry.IntersectIff | deps/recast/RecastMesh.cpp:201-234 | the test finds exactly the segments that have a point in common |
| DiagonalGeometry.IntersectPropIff | deps/recast/RecastMesh.cpp:201-209 | the strict test finds exactly those that meet inside both and are not on one line |
| DiagonalGeometry.BetweenIff | deps/recast/RecastMesh.cpp:213-222 | a point is between two others exactly if it is on the segment |
| DiagonalGeometry.InConeIff | deps/recast/RecastMesh.cpp:270-331 | at a corner that turns left exactly the directions inside the cone of its edges pass, at one that turns right all but those in the cone on the other side |
| DiagonalGeometry.InStraightCone | deps/recast/RecastMesh.cpp:270-331 | at a straight corner exactly the directions to the left pass; where the two edges lie on one another none does strictly |
| DiagonalGeometry.DiagonalIff | deps/recast/RecastMesh.cpp:243-336 | a proper diagonal starts into the polygon and has no point in common with any edge apart from it; a loose one crosses none |
| PolyMerge.MergeValueUnique | deps/recast/RecastMesh.cpp:467-529 | merge value and edge are determined by the polygons |
| PolyMerge.MergeableIff | deps/recast/RecastMesh.cpp:467-529 | along the edge found, the last that two polygons share, running opposite ways: the merge value is positive if and only if joining gives a strictly convex polygon of at most nvp vertices |
| PolyMerge.JoinConvex | deps/recast/RecastMesh.cpp:507-520 | the joined polygon is strictly convex exactly if the two new corners turn left |
| PolyMerge.SharedRunsOpposite | deps/recast/RecastMesh.cpp:482-501 | with directed edges unique, a shared edge runs opposite ways |
| PolyMerge.MergedFacts | deps/recast/RecastMesh.cpp:531-548 | the merged polygon has the edges of both but the shared one, their area, and is strictly convex |
| PolyMerge.MergeStep | deps/recast/RecastMesh.cpp:1164-1208 | a merge keeps total area, convexity, size and uniqueness of edges; just the shared edge and its reverse go |
| PolyMerge.NoneCanJoin | deps/recast/RecastMesh.cpp:1168-1206 | when no merge value is positive no pair can be joined |
| PolyMerge.GetPolyMergeValue | deps/recast/RecastMesh.cpp:467-529 | the merge value and the last shared edge |
| PolyMerge.MergePolyVerts | deps/recast/RecastMesh.cpp:531-548 | the merged polygon |
| PolyMerge.FindBest | deps/recast/RecastMesh.cpp:1168-1189 | a pair with the largest merge value, if that is positive |
| PolyMerge.MergePolygons | deps/recast/RecastMesh.cpp:1164-1208 | terminates; area, outline, convexity, size and unique edges kept; no two polygons left can be joined |
| MeshAdjacency.RecordEdges | deps/recast/RecastMesh.cpp:54-80 | exactly the ascending edges are recorded, each in the chain of its smaller vertex |
| MeshAdjacency.MatchEdges | deps/recast/RecastMesh.cpp:82-104 | with unique edges every recorded edge that is run against is matched, with just that place |
| MeshAdjacency.StoreAdjacency | deps/recast/RecastMesh.cpp:106-117 | stored neighbours are exactly what the matched records say |
| MeshAdjacency.StoredMutual | deps/recast/RecastMesh.cpp:106-117 | stored neighbours are mutual |
| MeshAdjacency.StoredComplete | deps/recast/RecastMesh.cpp:34-123 | with unique edges, whoever has the edge the other way round is the stored neighbour |
| MeshAdjacency.BuildMeshAdjacency | deps/recast/RecastMesh.cpp:34-123 | neighbours are mutual; with unique edges an edge has one if and only if another polygon has it the other way round |
| LayersModel.PartitionOk | deps/recast/RecastLayers.cpp:301-457 | what the invariant means: overlapping regions in different layers, one base region a layer, less than 255 height in a layer of several |
| LayersModel.SameLayerSameBase | deps/recast/RecastLayers.cpp:301-457 | two regions are in one layer if and only if they have one base |
| LayersModel.RootKeeps | deps/recast/RecastLayers.cpp:311-323 | starting a layer keeps the invariant |
| LayersModel.JoinKeeps | deps/recast/RecastLayers.cpp:334-369 | a region that joins keeps the invariant |
| LayersModel.MergeApart | deps/recast/RecastLayers.cpp:395-425 | nothing in one of two layers that may be merged overlaps anything in the other |
| LayersModel.MergeKeeps | deps/recast/RecastLayers.cpp:432-455 | merging two layers keeps the invariant |
| Layers.FindOverlaps | deps/recast/RecastLayers.cpp:238-299 | a region's overlaps are exactly the other regions recorded with it in some column, if no list overflowed; its heights are the least and the greatest of its samples; its neighbours are exactly the regions its samples are connected to, while there is room |
| Layers.OverlapsSymmetric | deps/recast/RecastLayers.cpp:281-299 | overlaps run both ways |
| LayersModel.FencedAllDivides | deps/recast/RecastLayers.cpp:301-373 | neighbours that the search leaves in different layers are in layers that overlap or are too tall together |
| LayersModel.MergeKeepsDivided | deps/recast/RecastLayers.cpp:432-455 | merging layers keeps that |
| Layers.SearchLayers | deps/recast/RecastLayers.cpp:304-373 | every region is in a layer, and the invariant holds; with at most 64 regions every neighbour of a region is in its layer or an earlier one, overlaps the layer, or would make it too tall |
| Layers.CloseIff | deps/recast/RecastLayers.cpp:71-75 | regions that the wrapped height test takes for close are close; both tests agree if and only if the regions are apart anyway or each wrapped top still reaches the other region |
| Layers.WrappedNotClose | deps/recast/RecastLayers.cpp:71-75 | an input where the wrapped test fails and the plain one does not |
| Layers.OverlapRangeIff | deps/recast/RecastLayers.cpp:71-75 | two ranges overlap exactly if they have a height in common |
| Layers.MergeInto | deps/recast/RecastLayers.cpp:375-457 | terminates as each merge takes a base away; no close layer that may be merged is left |
| Layers.MergeLayers | deps/recast/RecastLayers.cpp:375-457 | all layers merged, the invariant kept, and of no two layers left may one still be merged into the other |
| Layers.ConcludeMerged | deps/recast/RecastLayers.cpp:395-476 | two layers left that are close and together span less than 255 have regions that share a column |
| Layers.RankOnto | deps/recast/RecastLayers.cpp:459-476 | every number below the count of ids is some id's rank |
| Layers.CompactIds | deps/recast/RecastLayers.cpp:459-476 | ids become consecutive, keep their order, and regions stay together or apart |
| Layers.BuildLayers | deps/recast/RecastLayers.cpp:92-476 | regions that share a column are in different layers, each layer has one base region and spans less than 255; any two layers that are close and could be one in height have regions that share a column; with at most 64 regions two that are neighbours of each other are in one layer unless their layers share a column or are too tall together; a base has its layer's heights; cannot fail with at most 63 regions |
| SharedLists.ChainUnique | deps/recast/RecastRasterization.cpp:44-83 | a linked list is determined by where it starts |
| SharedLists.Detach | deps/recast/RecastRasterization.cpp:135-142 | unlinking a cell leaves all lists as they were but for it |
| SharedLists.Attach | deps/recast/RecastRasterization.cpp:146-156 | linking a cell that is on no list keeps every cell on at most one |
| SharedLists.MoveToFront | deps/recast/RecastRasterization.cpp:77-83 | moving a cell to the front of another list likewise |
| Heightfield.InsertCovers | deps/recast/RecastRasterization.cpp:85-159 | the heights covered become exactly the old ones and those of the new span |
| Heightfield.InsertAscending | deps/recast/RecastRasterization.cpp:85-159 | the column stays strictly ascending with disjoint closed spans |
| Heightfield.InsertSwallows | deps/recast/RecastRasterization.cpp:106-144 | one span stands for the new one and those it overlaps, the others stay; its area is the greatest among that of the new span and those of the overlapped spans whose top is at most the threshold below |
| Heightfield.Heightfield.AllocSpan | deps/recast/RecastRasterization.cpp:44-75 | a span that was on the free list, with every other span still on exactly one list |
| Heightfield.Heightfield.FreeSpan | deps/recast/RecastRasterization.cpp:77-83 | a span goes from its column to the free list |
| Heightfield.Heightfield.MergeSpans | deps/recast/RecastRasterization.cpp:106-144 | the spans that meet the new one are merged into it and freed, and its place is found |
| Heightfield.Heightfield.AddSpan | deps/recast/RecastRasterization.cpp:85-159 | the column covers exactly the old heights and the new ones, all columns stay sorted, the others unchanged, every span on exactly one list |
| ContourModel.DistanceIsLeast | deps/detour_tile_cache/DetourTileCacheBuilder.cpp:533-554 | the distance found is the least from any point of the segment, also for a segment of one point |
| ContourModel.DistanceSymmetric | deps/detour_tile_cache/DetourTileCacheBuilder.cpp:533-554 | it does not depend on the segment's direction |
| ContourModel.FarthestIsFarthest | deps/detour_tile_cache/DetourTileCacheBuilder.cpp:617-649 | no vertex of the arc is farther from the edge than the one found |
| ContourModel.FitsIffNotSplit | deps/detour_tile_cache/DetourTileCacheBuilder.cpp:652-663 | an edge is divided if and only if some vertex of its arc is farther than maxError |
| ContourModel.InsertKeepsOrder | deps/detour_tile_cache/DetourTileCacheBuilder.cpp:652-659 | an inserted vertex comes at its place in the order of the contour |
| ContourModel.InsertRefines | deps/detour_tile_cache/DetourTileCacheBuilder.cpp:652-659 | dividing an edge does not change what is chosen in the end |
| ContourModel.RefinedFits | deps/detour_tile_cache/DetourTileCacheBuilder.cpp:600-664 | the vertices chosen go around once in order, and every vertex is within maxError of the edge that spans its arc |
| ContourModel.RotatedAscends | deps/detour_tile_cache/DetourTileCacheBuilder.cpp:666-682 | read from the smallest index on, the indices chosen ascend |
| ContourModel.SeedsOrdered | deps/detour_tile_cache/DetourTileCacheBuilder.cpp:558-598 | the initial vertices are in order; for a contour that is one point they are vertex 0 twice |
| ContourModel.SimplifiedIsClose | deps/detour_tile_cache/DetourTileCacheBuilder.cpp:556-683 | unless the contour is one point, ascending indices with every vertex within maxError of its edge |
| ContourModel.SeedsStay | deps/detour_tile_cache/DetourTileCacheBuilder.cpp:558-598 | every vertex where a wall begins is left |
| SharedWalls.DirectionMattersIffTied | deps/detour_tile_cache/DetourTileCacheBuilder.cpp:617-649 | the search upwards and the search downwards find different vertices if and only if the greatest distance is reached twice |
| SharedWalls.FarthestMirroredIff | deps/detour_tile_cache/DetourTileCacheBuilder.cpp:617-649 | two contours that pass the same places in opposite orders find the same farthest vertex if and only if the ends lie apart or the greatest distance is reached once |
| SharedWalls.KeptMirroredIff | deps/detour_tile_cache/DetourTileCacheBuilder.cpp:600-664 | both keep the same of these places if and only if the arc is not divided, or the farthest vertex is the same, or dividing first at the first or at the last of the tied vertices keeps the same |
| SharedWalls.LeftIffKept | deps/detour_tile_cache/DetourTileCacheBuilder.cpp:556-683 | an inner vertex of a wall is in the simplified contour if and only if it is kept when the wall alone is divided |
| SharedWalls.SharedWallIff | deps/detour_tile_cache/DetourTileCacheBuilder.cpp:556-683 | two contours that pass the same wall, each from one change of walls to the next, are left with the same vertices of it under exactly that condition, so always if its ends lie apart |
| SharedWalls.CutsMustStay | deps/detour_tile_cache/DetourTileCacheBuilder.cpp:556-683 | where the other contour leaves the wall in between, the same vertices are left only if each corner where it does is left |
| SharedWalls.UndividedWallIff | deps/detour_tile_cache/DetourTileCacheBuilder.cpp:556-683 | of a wall that is not divided the same vertices are left if and only if the other contour passes it without a change of walls |
| SharedWalls.CornerLeftOnOneSide | deps/detour_tile_cache/DetourTileCacheBuilder.cpp:386-683 | the input that shows it: two rectilinear contours along one wall, of which one drops the corner that the other keeps |
| Contours.SafeToPack | deps/detour_tile_cache/DetourTileCacheBuilder.cpp:671-682 | packing overwrites no vertex before it is copied |
| Contours.TempContour.FindFarthest | deps/detour_tile_cache/DetourTileCacheBuilder.cpp:604-649 | the farthest vertex by a traversal in either direction |
| Contours.TempContour.AddPoints | deps/detour_tile_cache/DetourTileCacheBuilder.cpp:600-664 | terminates with the refinement of the initial vertices |
| Contours.TempContour.Remap | deps/detour_tile_cache/DetourTileCacheBuilder.cpp:666-682 | in place, exactly the chosen vertices from the smallest index on |
| Contours.TempContour.SimplifyContour | deps/detour_tile_cache/DetourTileCacheBuilder.cpp:556-683 | the contour becomes its simplification |
| PathQueues.SurvivesTwoUpdates | deps/detour_crowd/DetourPathQueue.cpp:77-133 | a finished result that nobody read survives the next two updates with its path |
| PathQueues.DroppedAtThirdVisit | deps/detour_crowd/DetourPathQueue.cpp:96-109 | a third visit empties its slot |
| PathQueues.UpdateKeepsHandles | deps/detour_crowd/DetourPathQueue.cpp:77-133 | an update leaves the handles in use different from each other |
| PathQueues.PathQueue.RunQuery | deps/detour_crowd/DetourPathQueue.cpp:111-126 | the shared search works for this request alone: it is started for it once, then goes on, and the status and the path are what it answered |
| PathQueues.PathQueue.Update | deps/detour_crowd/DetourPathQueue.cpp:77-133 | at most maxIters iterations; slots are visited in turn from the head, which stays where the iterations ran out, and every waiting request visited was served by the search; no request but the head's is in progress |
| PathQueues.PathQueue.Request | deps/detour_crowd/DetourPathQueue.cpp:135-169 | the first empty slot takes the request under a valid handle; null exactly if none is empty; until the counter wraps no other request has the handle |
| PathQueues.PathQueue.GetRequestStatus | deps/detour_crowd/DetourPathQueue.cpp:171-179 | the status of the first slot with the handle, failure without one; while handles differ it is the request's own status |
| PathQueues.PathQueue.GetPathResult | deps/detour_crowd/DetourPathQueue.cpp:181-200 | the path of the slot with the handle, cut to size, which is the request's own while handles differ; the slot becomes empty |
| Corridors.StartMovedIsCorridor | deps/detour_crowd/DetourPathCorridor.cpp:27-70 | a walk within maxPath that starts where the move ended and, unless cut, ends as before |
| Corridors.EndMovedIsCorridor | deps/detour_crowd/DetourPathCorridor.cpp:72-108 | a walk within maxPath that starts as before and, unless cut, ends where the move ended |
| Corridors.StartShortcutIsCorridor | deps/detour_crowd/DetourPathCorridor.cpp:110-156 | a walk within maxPath that starts where the shortcut starts and, unless cut, ends as before; no longer than the path if the shortcut is no detour |
| Corridors.MoveThereAndBack | deps/detour_crowd/DetourPathCorridor.cpp:27-70 | moving away and straight back restores the corridor from the common polygon on |
| Corridors.MergeCorridorStartMoved | deps/detour_crowd/DetourPathCorridor.cpp:27-70 | the buffer holds that corridor, if the visited polygons put in front fit into it |
| Corridors.MergeCorridorEndMoved | deps/detour_crowd/DetourPathCorridor.cpp:72-108 | the buffer holds that corridor |
| Corridors.MergeCorridorStartShortcut | deps/detour_crowd/DetourPathCorridor.cpp:110-156 | the buffer holds that corridor, if the visited polygons put in front fit into it |
| Corridors.ReducedIsShortWalk | deps/detour_crowd/DetourCrowd.cpp:855-866 | without trackbacks a walk is a walk with the same ends and no step straight back |
| Corridors.TrackbackDropsOut | deps/detour_crowd/DetourCrowd.cpp:855-866 | the order in which trackbacks are removed does not matter |
| Corridors.RemoveTrackbacks | deps/detour_crowd/DetourCrowd.cpp:855-866 | terminates, in place, with the walk without trackbacks |
| Corridors.SplicedIsCorridor | deps/detour_crowd/DetourCrowd.cpp:844-868 | the new corridor is connected, starts as the old one and, unless cut, ends as the new path |
| Corridors.SplicePath | deps/detour_crowd/DetourCrowd.cpp:838-868 | refused exactly if the result does not start where the corridor ends; otherwise the spliced corridor |

## Left out

- Floating-point rounding: costs, coordinates and distances are exact reals; integer widths are kept where the code depends on them.
- Geometry: slab overlap, portal points, circle tests, nearest polygon and `queryTiles` are function parameters with the properties stated where they are used.
- Memory: allocations succeed, and a tile's build succeeds; byte layout, pointer patching, endian swapping and compression are not modelled; tiles are records.
- The tile cache's own tile table (adding, removing and looking up compressed tiles): the set of tiles is fixed.
- TileCacheModel.RunInv: runs in which no slot's salt is about to wrap and removed references were handed out by add; a forged or wrapped reference could name a later obstacle.
- TileCacheModel.RemoveObstacleInv: removed references were handed out by add, as in `RunInv`.
- TileCacheModel.BuildFirstInv: no slot's salt is about to wrap.
- TileCacheModel.UpdateInv: no slot's salt is about to wrap.
- TileCacheModel.DrainCount: no slot's salt is about to wrap.
- TileCacheModel.DrainSettles: no slot's salt is about to wrap.
- TileCacheModel.UpToDateIsFullRebuild: no slot's salt is about to wrap, and no tile was refused; `DrainedIsFullRebuildIff` says what holds otherwise.
- TileCache.TileCache.RemoveObstacle: removed references were handed out by add.
- TileCache.TileCache.Update: no slot's salt is about to wrap.
- TileCacheLedger.TilesFollowCalls: runs as in `RunInv`, whose batches touch at most MAX_UPDATE tiles each.
- TileCacheLedger.RemovedIsGone: no slot's salt is about to wrap.
- TileCacheLedger.AddedContributes: no slot's salt is about to wrap.
- TileCacheLedger.BoundsAreLeast: of an obstacle with at least one point; a negative radius or height has none.
- TileCacheLedger.TouchedByLeastBox: likewise.
- NavMeshes.NavMesh.FindConnectingPolys: the connection limits stored beside each result are omitted.
- NavMeshes.NavMesh.ConnectExtLinks: the portal limits stored in the links, compressed to bytes, are omitted.
- NavMeshes.NavMesh.ConnectExtOffMeshLinks: the move of the landing vertex to its polygon is omitted.
- NavMeshes.NavMesh.BaseOffMeshLinks: the move of the start vertex to its polygon is omitted.
- NavMeshes.NavMesh.AddTile: asks for well-formed tile data and at most 32 tiles per position, since the look-ups stop there.
- NavMeshes.NavMesh.Disconnect: at most 32 tiles per position; tiles beyond them are not found and would keep their links.
- NavMeshes.NavMesh.RemoveTile: asks that a reference with a live salt names a live tile, because the code reads the header of a dead slot whose salt matches; and at most 32 tiles per position.
- NavMeshes.RemoveAndAddBack: at most 32 tiles per position.
- NavMeshes.AddAndRemove: at most 32 tiles per position.
- Polygon links are values inside the tile records of the `tiles` array; the chains of slots are threaded through the records as in the code.
- Polygons with padding: polygon rows filled up with 0xffff are sequences of their real length.
- CircleSearch.FindPolysAroundCircle: the cost of a step may depend on its own and the next polygon, not on the one before, since with that totals need not be least; link lists are given as sequences, and results are sequences cut at `maxResult` instead of caller-supplied arrays.
- CircleSearchModel.NoWalkIsCheaper: positions are those fixed at first discovery, so walks are compared in that geometry; it holds while the node pool suffices.
- PathSearch.FindPath: costs are non-negative. A least cost is promised in the geometry that the node positions give, when all nodes of a polygon have one position (`SingleNodesPlaced`: no polygon has nodes for several crossed sides), the cost of a step does not depend on the polygon before, the heuristic is admissible there (`DistanceIsAdmissible`), and neither pool nor buffer ran out.
- The sliced search's steps and its in-place chain reversal, with the any-angle option: `SlicedQuery` states what the path queue relies on.
- PathQueues.PathQueue.RunQuery: the sliced search is that stand-in; how far it gets in an update is left open.
- PathQueues.PathQueue.Request: handles differ until the counter wraps after 2^32 - 1 requests; then a new handle could be one still in use.
- Sorting ties: `qsort` may leave equal keys in any order.
- BVTree.CreateBVTree: the quantised boxes of the polygons are given; computing them from detail mesh or vertices is not modelled.
- Vertex hashing and removal of vertices in mesh building, and the byte-vertex copies of triangulation and merging in the tile cache builder, which repeat the code modelled here.
- Triangulation.Triangulate: conserves signed area and outline; that triangles do not overlap is not claimed, as the loose diagonals do not ensure it, nor do flags written before later cuts.
- DiagonalGeometry.IntersectIff: of segments that are not points; the test for betweenness compares one coordinate only where a segment is a point.
- DiagonalGeometry.InStraightCone: of corners whose neighbours are at other places.
- DiagonalGeometry.DiagonalIff: of polygons in which no vertex is followed by one at the same place.
- Overflow of the 32-bit products in the polygon predicates: coordinates are unbounded integers.
- Contour tracing: that two traced contours share a wall is an assumption of `SharedWalls`, stated by the places they pass, and the contours of `CornerLeftOnOneSide` are given.
- Heightfield.Heightfield.AddSpan: spans are not upside down and heights fit the 13 bits they are stored in, as rasterization sees to.
- Monotone region partitioning, erosion and filters: layers start from given region samples, simplification from a given contour.
- Layers.BuildLayers: region ids are below 255 and columns record at most 63 regions, as in the code; samples stand for the compact heightfield. What is said of neighbours asks for at most 64 regions, since the search drops neighbours when its stack of 64 is full.
- Layers.SearchLayers: what is said of neighbours asks for at most 64 regions, as above.
- Corridors.MergeCorridorStartMoved: the visited polygons put in front fit into the buffer, as the code assumes without a test.
- Corridors.MergeCorridorStartShortcut: the visited polygons put in front fit into the buffer, as the code assumes without a test.
- Straight paths, raycasts, surface moves, obstacle avoidance and crowd steering.
