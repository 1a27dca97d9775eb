# ericw-tools core, modelled in Dafny

This project models the core of ericw-tools, the Quake map compilers. It
covers these tools and libraries:

- **qbsp** compiles a .map file into a BSP tree. The model covers its
  command-line front end, portal building, outside filling with leak
  detection, Quake II area numbering, the BRUSHLIST extension lump, and the
  export of planes, texinfos, nodes and leafs into BSP lumps.
- **vis** computes the potentially visible set from the portal file. The
  model covers its portal graph, the scratch winding pool, the winding
  clipper's control flow, portal scheduling, and the assembly of the
  visibility data.
- **light** computes lightmaps. The model covers the PVS bookkeeping around
  a face, the lightmap table by style, the mottle coordinate wrap, the
  point-in-leaf descent, the texture sampling index, and the ray batches
  handed to the ray tracer.
- **bsputil** is the inspection tool. The model covers tree heights, the
  range checks of a compiled BSP file, the WAD export layout, the .map/.ent
  reader and `--replace-entities`.
- **common** holds the shared code. The model covers the settings framework
  and the image library: TGA decoding, .mip checks and the texture cache.

Each source file has its own Dafny module:

| file | module | source |
|---|---|---|
| common.dfy | Common | shared vocabulary: Option, fatal errors, bytes, bit rows |
| vis.dfy | Vis | vis/vis.cc, include/vis/vis.hh |
| ltface.dfy | LtFace | light/ltface.cc |
| trace.dfy | Trace | light/trace.cc |
| raystream.dfy | RayStream | include/light/trace_embree.hh |
| settings.dfy | Settings | common/settings.cc, include/common/settings.hh |
| qbsp.dfy | Qbsp | qbsp/qbsp.cc (command line, options) |
| areas.dfy | Areas | qbsp/qbsp.cc and qbsp/portals.cc (areas, area portals) |
| bspx.dfy | Bspx | qbsp/qbsp.cc (BRUSHLIST lump) |
| portals.dfy | Portals | qbsp/portals.cc |
| outside.dfy | Outside | qbsp/outside.cc |
| writebsp.dfy | WriteBsp | qbsp/writebsp.cc |
| bsputil.dfy | BspUtil | bsputil/bsputil.cc |
| mapfile.dfy | MapFile | bsputil/bsputil.cc (.map/.ent reader) |
| replace.dfy | ReplaceEntities | bsputil/bsputil.cc (--replace-entities) |
| imglib.dfy | ImgLib | common/imglib.cc |

The source's mutable objects are modelled as classes:

- the vis portal state and its scratch winding stack;
- the light tool's lightmap table;
- the ray stream;
- the settings container;
- the qbsp portal graph, area state, fill state, BRUSHLIST writer and BSP output;
- bsputil's node-height cache and its .map parser.

Each of their methods is proved against a specification function on the
old state. Pure computations are modelled as functions with lemmas. Loops
in the source are methods with invariants.

## Model

| member | source | states |
|---|---|---|
| Vis.StatusValue | include/vis/vis.hh:35-40 | the three portal states are numbered none < working < done, starting at 0 |
| Vis.MaxDistBounds | include/vis/vis.hh:70-84 | the sphere radius is non-negative, is at least every point's distance from the origin, and is 0 or one of those distances |
| Vis.SetWindingSphere | include/vis/vis.hh:70-84 | the origin is the centroid of the winding's points and every point lies within the returned radius of it |
| Vis.DistFromPortal | include/vis/vis.hh:119-128 | the result starts from 1e20 and ends as the smallest absolute distance of a winding point from the portal plane: at most each of them, and equal to one of them unless the winding is empty |
| Vis.FirstFree | vis/vis.cc:91-104 | the lowest unused stack-winding slot at or after the start, and None exactly when every slot is in use |
| Vis.PStack.constructor | include/vis/vis.hh:156-171 | a fresh stack has all STACK_WINDINGS slots unused |
| Vis.PStack.Alloc | vis/vis.cc:91-104 | the lowest unused slot is cleared, marked used and returned; when every slot is used the call is fatal and nothing changes |
| Vis.PStack.Free | vis/vis.cc:113-119 | a pointer into the pool releases its slot and is nulled; any other pointer is left as it is and the flags do not change |
| Vis.FreeRangeOffByOne | vis/vis.cc:113-119 | the range test as written accepts a pointer one past the last scratch winding, which is no slot of the pool; every slot the corrected test accepts, the written test accepts too |
| Vis.Dists | vis/vis.cc:152-157 | one signed plane distance per winding point, in order |
| Vis.Sides | vis/vis.cc:158-166 | each point is front beyond +VIS_ON_EPSILON, back below -VIS_ON_EPSILON, on otherwise |
| Vis.Classify | vis/vis.cc:131-248 | a split winding never exceeds MAX_WINDING_FIXED points, and an overflowing one keeps exactly that many |
| Vis.CoplanarKept | vis/vis.cc:171-174 | a winding whose sphere straddles the plane and whose every point lies within VIS_ON_EPSILON of it is returned unclipped |
| Vis.SplitKeepsFrontAndOn | vis/vis.cc:187-238 | a split happens only when a point lies in front and another behind, and it keeps every front and on point |
| Vis.CountSideZero | vis/vis.cc:176-181 | a side's counter is zero exactly when no point lies on that side |
| Vis.CountSideAll | vis/vis.cc:171-174 | a side's counter equals the point count exactly when every point lies on that side |
| Vis.CountSides | vis/vis.cc:152-167 | the front, back and on counters are the numbers of points on each side |
| Vis.Emits | vis/vis.cc:187-238 | the points the clip emits at each vertex, vertex by vertex in walk order |
| Vis.WalkClip | vis/vis.cc:187-248 | noclip is set exactly when the clipped winding would exceed MAX_WINDING_FIXED points; otherwise the result is the clipped winding, else its first MAX_WINDING_FIXED points |
| Vis.ClassifyByCounts | vis/vis.cc:171-185 | the outcome is read off the counters: all on keeps the winding, no front point frees it, no back point keeps it, otherwise it is split |
| Vis.VisState.ClipStackWinding | vis/vis.cc:131-248 | the winding, the pool and c_noclip end as Classify prescribes: kept, freed (null), or split into a newly allocated pool slot with the input freed |
| Vis.VisState.ClipIntoPool | vis/vis.cc:184-248 | a split or overflowing clip is written into the lowest free slot, the input is freed, and c_noclip grows only on overflow |
| Vis.ScanCheapest | vis/vis.cc:250-265 | None exactly when no portal is unprocessed with a mightsee count below INT_MAX; otherwise the first such portal with the smallest count |
| Vis.VisState.GetNextPortal | vis/vis.cc:250-271 | returns the cheapest unprocessed portal and marks it working, changing nothing else; None, with nothing changed, when none is left |
| Vis.UpdateMightseeEffect | vis/vis.cc:285-300 | every unprocessed portal of the leaf that might see the destination loses that bit; all other portals are unchanged |
| Vis.UpdateMightseeShrinks | vis/vis.cc:285-300 | the update only clears mightsee bits and keeps nummightsee equal to the number of set bits |
| Vis.VisState.UpdateMightsee | vis/vis.cc:285-300 | the portal list becomes the update specification applied to the source leaf's portals |
| Vis.UpdateMightseeSpec | vis/vis.cc:285-300 | the update as a fold over the leaf's portal list, one portal at a time; it keeps the number of portals (its effect is UpdateMightseeEffect) |
| Vis.PropagateBits | vis/vis.cc:335-364 | the bit loop of a completed portal as a fold over leaf numbers, running UpdateMightsee for every leaf whose bit the portal newly decided; it keeps the number of portals |
| Vis.PropagatePortals | vis/vis.cc:327-365 | the portal loop over the completed leaf's list, running the bit loop for each finished portal; it keeps the number of portals |
| Vis.PortalCompletedSpec | vis/vis.cc:311-367 | PortalCompleted as a function: the portal is marked done and the portal loop runs over its leaf; it keeps the number of portals |
| Vis.PropagateBitsShrinks | vis/vis.cc:335-364 | propagating one completed portal's bits only clears mightsee bits and keeps the counts exact |
| Vis.PropagatePortalsShrinks | vis/vis.cc:327-365 | propagating over all portals of the leaf only clears mightsee bits |
| Vis.PropagatePortalsCounted | vis/vis.cc:327-365 | propagating keeps nummightsee equal to the number of mightsee bits |
| Vis.PortalCompletedMonotone | vis/vis.cc:311-367 | completing a portal marks it done, leaves every other status and all visbits alone, only clears mightsee bits and keeps the counts exact |
| Vis.VisState.PortalCompleted | vis/vis.cc:311-367 | the portal list becomes the completion specification for that portal |
| Vis.VisState.PropagateLeaf | vis/vis.cc:327-365 | the portal list becomes the propagation over every portal of the leaf |
| Vis.VisState.PropagateFrom | vis/vis.cc:335-364 | the portal list becomes the propagation of one completed portal's visible leaves |
| Vis.VisState.LeafThread | vis/vis.cc:379-405 | with no unprocessed portal it returns None and changes nothing; otherwise it takes the cheapest one, gives it the flow result and completes it, and the number of unprocessed portals drops by one; mightsee only shrinks and finished portals keep their visbits |
| Vis.Flowed | vis/vis.cc:265 | after a portal is taken and flowed only that portal changes: it is working and holds the flow's visbits (also vis/vis.cc:396) |
| Vis.ProgressedTrans | vis/vis.cc:517-548 | progress (mightsee shrinking, done portals unchanged) composes across LeafThread rounds |
| Vis.FastVis | vis/vis.cc:520-526 | in fast mode every portal's visbits become its mightsee and it is marked done |
| Vis.CountDone | vis/vis.cc:531-539 | counts the portals already done |
| Vis.DoneFlags | vis/vis.cc:531-539 | one flag per portal, set exactly for the done ones |
| Vis.VisState.CalcPortalVis | vis/vis.cc:517-548 | every portal ends done; in fast mode the visbits are the mightsee bits, otherwise the portals progressed from the start |
| Vis.OrVisbitsMeaning | vis/vis.cc:427-435 | bit x of the gathered row is set exactly when some portal of the cluster has visbit x |
| Vis.ClusterRowMeaning | vis/vis.cc:427-442 | a cluster sees itself, and sees x exactly when one of its portals does |
| Vis.VisState.CollectVisbits | vis/vis.cc:427-435 | fatal exactly when a portal of the cluster is not done; otherwise the OR of its portals' visbits |
| Vis.OrVisbits | vis/vis.cc:427-435 | the OR of the visbits of a cluster's portals, one bit per cluster (OrVisbitsMeaning says which bits are set) |
| Vis.ClusterRow | vis/vis.cc:427-442 | the OR of the portals' visbits with the cluster's own bit set, one bit per cluster |
| Vis.FlowRow | vis/vis.cc:415-465 | the cluster's row expanded to output leaves: one bit per cluster in Quake II, one per real leaf otherwise |
| Vis.ExpandRow | vis/vis.cc:447-465 | for Quake II the cluster row is kept; otherwise each real leaf takes its cluster's bit |
| Vis.CountMembers | vis/vis.cc:477-484 | the number of real leaves belonging to the cluster |
| Vis.VisState.EmitRow | vis/vis.cc:486-510 | the cluster's compressed row is appended to the visdata, its offset recorded, and (outside Quake II) every member leaf points at it |
| Vis.PointCluster | vis/vis.cc:500-506 | every real leaf of the cluster gets the new visofs and every other leaf keeps its own |
| Vis.VisState.ClusterFlow | vis/vis.cc:415-510 | fatal, with nothing changed, exactly when a portal of the cluster is not done; otherwise the row is emitted at the end of the visdata |
| Vis.VisState.AssembleClusters | vis/vis.cc:572-576 | the visdata only grows, and on success each cluster's offset points at its compressed row inside it |
| Vis.LeafBytes | vis/vis.cc:624 | the row size is a whole number of 64-bit words holding at least one bit per leaf |
| Vis.PortalPairMirrored | vis/vis.cc:660-690 | the two directed portals of a file portal have opposite planes, reversed windings and swapped leaves |
| Vis.NegatePlaneInvolution | vis/vis.cc:659 | negating a plane twice gives it back, so the forward and backward portals of a file portal lie on opposite planes (also vis/vis.cc:668, vis/vis.cc:685) |
| Vis.Registered | vis/vis.cc:662-681 | the directed portals registered on a leaf, in file order, numbered below twice the file portal count |
| Vis.RegisteredExactly | vis/vis.cc:660-690 | each directed portal is registered on exactly the leaf it leaves from |
| Vis.BuildGraph | vis/vis.cc:655-692 | fatal exactly when some leaf would receive more than MAX_PORTALS_ON_LEAF portals; otherwise two mirrored portals per file portal, each registered on its leaf |
| Vis.RegisterPair | vis/vis.cc:660-690 | registers a file portal's forward and backward portals on their leaves, failing only when a leaf is full |
| Vis.TooManyOnLeaf | vis/vis.cc:663-664 | a leaf that is full before the whole file is read is still over the limit at the end |
| Vis.VisState.LoadPortals | vis/vis.cc:601-701 | fatal exactly on a leaf with too many portals; otherwise the portal graph of the file, zeroed rows of leafbytes, and (outside Quake II) the cluster map copied |
| Vis.LoadedTablesFit | vis/vis.cc:601-701 | the cluster, row and offset tables LoadPortals sets up have one entry per loaded leaf or cluster |
| Vis.LoadedWellFormed | vis/vis.cc:655-690 | the graph LoadPortals builds is well formed and every nummightsee is the popcount of its still clear mightsee |
| Vis.VisState.Install | vis/vis.cc:601-701 | the loaded graph and tables become the state, and the state is valid |
| Vis.VisState.constructor | vis/vis.cc:35-53 | the global state starts empty with no noclip count |
| LtFace.DecompressedVisSize | light/ltface.cc:434-442 | the row size in bytes is the number of clusters (Quake II) or visleafs rounded up to whole bytes |
| LtFace.Decode | light/ltface.cc:444-477 | the run-length decoding never produces more bytes than the room left in the output |
| LtFace.DecodeIsTruncatedExpand | light/ltface.cc:444-477 | decoding into a buffer of a given room is the full expansion of the input (literal bytes, zero runs) cut at that room, whatever the input's underruns |
| LtFace.DecodeZeroRun | light/ltface.cc:461-475 | a zero byte followed by a count writes that many zeros, stopping at the end of the output |
| LtFace.DecompressVis | light/ltface.cc:444-477 | the output buffer starts with the decoding of the input and keeps its old bytes beyond it |
| LtFace.DecodeToken | light/ltface.cc:449-475 | one literal byte or zero run is written, and what remains to decode continues the same decoding |
| LtFace.CopyLiteral | light/ltface.cc:456-460 | a non-zero byte is copied to the output and decoding continues after it |
| LtFace.ZeroRun | light/ltface.cc:461-475 | a zero run writes zeros up to its count or the end of the output, and decoding continues after the count byte |
| LtFace.WriteRun | light/ltface.cc:468-475 | writes n copies of a byte, stopping at the end of the output, and leaves the rest alone |
| LtFace.RowStart | light/ltface.cc:487-498 | a leaf's (or cluster's) row starts inside the visdata |
| LtFace.PvsRow | light/ltface.cc:479-522 | the decompressed row has the visdata's row size |
| LtFace.LeafPvs | light/ltface.cc:479-522 | succeeds exactly when the leaf has a valid row; the output is that row decoded over an all-0xFF buffer, and stays all 0xFF on failure |
| LtFace.LeafVisible | light/ltface.cc:526-551 | a leaf can only be visible when it has a cluster row (Quake II) or a visleaf number in range |
| LtFace.LeafVisibleExtremes | light/ltface.cc:526-551 | an all-0xFF row sees exactly the leaves with a valid number, and an all-zero row sees none |
| LtFace.RowBitOfFill | light/ltface.cc:483-484 | every bit of an 0xFF row is set and every bit of a zero row is clear |
| LtFace.OrBytesLaws | light/ltface.cc:583-594 | OR with 0xFF gives 0xFF, and OR-ing the same row twice changes nothing |
| LtFace.OrBytes | light/ltface.cc:590-594 | the byte-wise OR of two rows |
| LtFace.MergeRowsIsOrAll | light/ltface.cc:567-595 | skipping a sample point in the same leaf as the previous one does not change the merged PVS: with no liquid leaf the result is the OR of all the points' rows |
| LtFace.MergeRows | light/ltface.cc:567-595 | the face PVS after visiting the sample leaves in order: a repeat of the previous leaf is skipped, a liquid leaf makes every byte 0xFF and ends the scan, any other leaf ORs its row in; the row length is kept |
| LtFace.OrAll | light/ltface.cc:590-593 | the reference merge: every leaf's row ORed in, repeats and all; the row length is kept |
| LtFace.MergeRowsLiquid | light/ltface.cc:581-588 | once a sample point lies in a liquid leaf the face's PVS is all 0xFF |
| LtFace.PointLeaves | light/ltface.cc:567-568 | each sample point is located in one leaf of the tree |
| LtFace.CalcPvs | light/ltface.cc:553-596 | the face's PVS is the merge of its sample points' leaf rows, in order |
| LtFace.FindStyle | light/ltface.cc:779-784 | the first lightmap with the given style at or after the start, or None when no lightmap has it |
| LtFace.LightmapDict.constructor | light/ltface.cc:779-798 | a face starts with no lightmaps |
| LtFace.LightmapDict.AllocOrClear | light/ltface.cc:750-759 | a lightmap with no samples gets one per point; a saved one is cleared on the points in use; an unsaved one with samples is left as it is; no other lightmap changes |
| LtFace.LightmapDict.ForStyle | light/ltface.cc:779-798 | returns the lightmap of that style unchanged; else the first unsaved one, prepared; else a new unsaved one appended |
| LtFace.LightmapDict.ClearAll | light/ltface.cc:801-806 | every lightmap is marked unsaved and keeps its samples |
| LtFace.LightmapDict.SetStyle | light/ltface.cc:2767-2768 | exactly one lightmap's style is set |
| LtFace.LightmapDict.Save | light/ltface.cc:814-820 | an unsaved lightmap takes the style; a saved one keeps its own |
| LtFace.LightInto | light/ltface.cc:1250-1289 | lighting a style through ForStyle and Save leaves one lightmap with that style, and styles stay unique |
| LtFace.ReusedSlotKeepsSamples | light/ltface.cc:750-759 | a reused unsaved lightmap keeps the samples left by an earlier unsaved light |
| LtFace.ModRoundAsWrittenRange | light/ltface.cc:1408-1416 | the function as written returns 0..y, and returns y exactly when x is a negative multiple of y |
| LtFace.ModRoundAsWrittenReachesSize | light/ltface.cc:1408-1416 | x = -256 gives 256, one past the last mottle texel (also light/ltface.cc:1469) |
| LtFace.ModRound | light/ltface.cc:1408-1416 | the corrected rounding always lies in 0..y-1 |
| LtFace.ModRoundIsFloorMod | light/ltface.cc:1408-1416 | the corrected rounding is the floored remainder of x by y |
| LtFace.KeptStyleFitsByte | light/ltface.cc:2730-2751 | a lightmap that passes the filters has a style that fits the one-byte style slot |
| LtFace.Candidates | light/ltface.cc:2727-2761 | at most one candidate per lightmap |
| LtFace.CandidatesSound | light/ltface.cc:2727-2761 | every candidate is a saved lightmap that passes the style-range and brightness filters, in lightmap order |
| LtFace.CandidatesComplete | light/ltface.cc:2727-2761 | every lightmap that passes the filters is a candidate |
| LtFace.CollectCandidates | light/ltface.cc:2727-2761 | the loop collects exactly the candidate list |
| LtFace.InsertPerm | light/ltface.cc:2774-2776 | inserting keeps the same multiset of candidates |
| LtFace.InsertSorted | light/ltface.cc:2774-2776 | inserting into a descending list keeps it descending |
| LtFace.SortDescCorrect | light/ltface.cc:2774-2776 | the sort is descending by brightness and a permutation of its input |
| LtFace.SortDesc | light/ltface.cc:2774-2776 | std::sort then std::reverse as an insertion sort, brightest first; it keeps the number of candidates (SortDescCorrect proves the order and the permutation) |
| LtFace.TakeStyles | light/ltface.cc:2779-2803 | keeps the first maxfstyles candidates |
| LtFace.ChosenAreBrightest | light/ltface.cc:2775-2803 | at most maxfstyles styles are kept, descending, and no dropped candidate comes before a kept one |
| LtFace.FillStyleSlots | light/ltface.cc:2814-2832 | the face's style slots hold the chosen styles, then the unused-slot marker |
| LtFace.Pad | light/ltface.cc:2821-2823 | n copies of the marker |
| LtFace.StylesOf | light/ltface.cc:2817-2819 | the styles of the chosen lightmaps, in order |
| LtFace.MaxFaceStyles | light/ltface.cc:2723 | the cap is the facestyles setting, never above the 16 supplementary or 4 base slots |
| LtFace.ChosenStylesFit | light/ltface.cc:2724-2751 | every chosen style fits a byte |
| LtFace.GatherSortable | light/ltface.cc:2727-2772 | the candidates are collected; a Quake II face with none gets style 0 in the ForStyle slot, and otherwise the lightmaps are untouched |
| LtFace.SelectFaceStyles | light/ltface.cc:2723-2832 | the face's style slots hold the brightest maxfstyles styles in descending order followed by the marker; a Quake II face with no style is fatal |
| LtFace.RowAnyMeaning | light/ltface.cc:2292-2309 | the recursive row test holds exactly when some pixel of the row segment is opaque |
| LtFace.KernelAnyMeaning | light/ltface.cc:2292-2309 | the kernel test holds exactly when some pixel of the factor x factor block is opaque |
| LtFace.KernelAlpha | light/ltface.cc:2292-2313 | the kernel loop finds an opaque pixel exactly when the block has one |
| LtFace.IntegerDownsampleAlpha | light/ltface.cc:2271-2333 | output pixel (x, y) is opaque exactly when its block of the input has an opaque pixel |
| LtFace.BlockUniform | light/ltface.cc:2292-2330 | a block of a uniform image has that image's alpha |
| LtFace.DownsampleKeepsUniform | light/ltface.cc:2271-2333 | downsampling a fully opaque or fully transparent image keeps it so |
| LtFace.OpaqueNeighbours | light/ltface.cc:2354-2369 | finds an opaque neighbour exactly when the 3 x 3 square around the pixel has one |
| LtFace.VisitPixel | light/ltface.cc:2349-2379 | one pixel visit of the flood pass |
| LtFace.FloodRow | light/ltface.cc:2345-2381 | one row of the pass, counting the pixels still transparent |
| LtFace.FloodPass | light/ltface.cc:2344-2382 | one pass over the image, returning its state and the number of transparent pixels left |
| LtFace.PassState | light/ltface.cc:2344-2382 | the image after a pass has visited its first pixels in row order, later pixels seeing those already filled; its size is kept |
| LtFace.Visit | light/ltface.cc:2354-2373 | a transparent pixel with an opaque pixel in its 3x3 neighbourhood becomes opaque, and nothing else changes |
| LtFace.PassMonotone | light/ltface.cc:2344-2382 | a pass never makes an opaque pixel transparent and has not yet touched pixels after the current one |
| LtFace.PassGrows | light/ltface.cc:2344-2382 | a pixel opaque part-way through a pass stays opaque |
| LtFace.PassNoOpaque | light/ltface.cc:2344-2382 | a pass over an image with no opaque pixel changes nothing |
| LtFace.PassFillsBoundary | light/ltface.cc:2354-2373 | a transparent pixel next to an opaque one is opaque after the pass |
| LtFace.Boundary | light/ltface.cc:2338-2397 | when an image has both kinds of pixel, some transparent pixel touches an opaque one |
| LtFace.PassProgress | light/ltface.cc:2384-2394 | a pass over an image with both kinds of pixel strictly reduces the transparent count, so the loop ends |
| LtFace.CountFalseAll | light/ltface.cc:2384-2388 | the transparent count equals the size exactly when all pixels are transparent |
| LtFace.CountFalseNone | light/ltface.cc:2391-2392 | the transparent count is zero exactly when all pixels are opaque |
| LtFace.CountFalseSubset | light/ltface.cc:2384-2394 | gaining opaque pixels never raises the count, and gaining one lowers it |
| LtFace.FloodFillTransparentAlpha | light/ltface.cc:2338-2397 | an image with no opaque pixel is returned as it is; otherwise every pixel ends opaque |
| Trace.Descend | light/trace.cc:30-38 | following the node children from a node always ends at a leaf of the tree |
| Trace.DescendEndsAtLeafChild | light/trace.cc:30-38 | the leaf reached is the leaf child, -1 - leaf, of a node on the walk |
| Trace.PointInLeaf | light/trace.cc:30-38 | the loop returns the leaf the descent reaches, taking the back child when the point is behind a node's plane |
| Trace.ClampTexcoord | light/trace.cc:40-53 | the texel index is always inside 0..width-1 |
| Trace.ClampTexcoordWraps | light/trace.cc:44-53 | the index is the floor of the coordinate reduced modulo the width, so the texture repeats for negative coordinates too |
| Trace.SampleIndexAsWritten | light/trace.cc:55-68 | as written, no texel is read exactly when there is no texture or its width is zero |
| Trace.SampleIndexAsWrittenOverruns | light/trace.cc:64-67 | a 4 x 2 texture sampled at t = 3 reads texel 12, past its 8 texels, because y is wrapped by the width |
| Trace.SampleIndex | light/trace.cc:55-68 | the corrected sampler reads no texel when there is no texture or it is empty |
| Trace.SampleIndexInBounds | light/trace.cc:55-68 | for a texture whose scale factors are both 1, the corrected row wrap always gives an index inside the texture |
| RayStream.SetupRay | include/light/trace_embree.hh:121-143 | the ray starts at the origin with tnear 0 and tfar the distance, carries its index, and records no hit |
| RayStream.HitTypeOf | include/light/trace_embree.hh:255-267 | the hit is none exactly for the invalid geometry id, sky exactly for the sky geometry's id, solid otherwise |
| RayStream.SetupRayHitsNothing | include/light/trace_embree.hh:121-143 | a freshly set-up ray reports no hit (also include/light/trace_embree.hh:255-267) |
| RayStream.ResizedIdempotent | include/light/trace_embree.hh:60-72 | resizing to the current size changes nothing, and resizing twice to the same size is resizing once |
| RayStream.TintTransparent | include/light/trace_embree.hh:82-99 | glass of zero opacity leaves the ray color unchanged |
| RayStream.RayStream.constructor | include/light/trace_embree.hh:205-213 | a stream built for maxRays has every per-ray array of that size and no pushed ray |
| RayStream.RayStream.Resize | include/light/trace_embree.hh:60-72 | every per-ray array takes the new size, keeping its prefix; the pushed count is unchanged (also include/light/trace_embree.hh:209-213) |
| RayStream.RayStream.PushRay | include/light/trace_embree.hh:215-232 | the next slot gets the set-up ray, its distance and point index, the color and normal contribution only when given, no glass and no dynamic style; the count grows by one (also include/light/trace_embree.hh:303-319) |
| RayStream.RayStream.ClearPushedRays | include/light/trace_embree.hh:113 | the pushed count is reset to zero |
| RayStream.RayStream.PushedRayColor | include/light/trace_embree.hh:82-99 | the stored color, tinted by the glass color and opacity when the ray crossed glass |
| RayStream.RayStream.PushedRayHitType | include/light/trace_embree.hh:255-267 | the hit type of the slot's geometry id |
| RayStream.RayStream.NumPushedRays | include/light/trace_embree.hh:74 | the count of rays pushed since the last clear, never negative; PushThenRead shows it grows by one per push |
| RayStream.RayStream.PointIndex | include/light/trace_embree.hh:76-80 | the point index stored in slot j, for any slot below the capacity (not only below the pushed count); PushThenRead shows a push stores its index there |
| RayStream.RayStream.PushedRayHitDist | include/light/trace_embree.hh:249-253 | the ray's tfar, which is negative exactly when the ray reads as occluded |
| RayStream.RayStream.PushedRayOccluded | include/light/trace_embree.hh:332-336 | a ray is occluded exactly when its tfar is negative |
| RayStream.PushThenRead | include/light/trace_embree.hh:215-267 | a pushed ray reads back the given color (or the slot's old one when none is given), no hit, its point index and its distance, and the pushed count grows by one |
| Settings.MaxSource | include/common/settings.hh:60-66 | the higher-priority of two sources, ordered default < game target < map < command line |
| Settings.ChangeSource | common/settings.cc:52-59 | a change is accepted exactly when the new source ranks at least as high as the current one, and the setting then carries the higher source |
| Settings.ChangeSourceMonotone | common/settings.cc:52-59 | a setting's source never drops in rank, the command line is always accepted, and repeating the same change changes nothing more |
| Settings.SetValue | include/common/settings.hh:171-176 | a value from a source ranked at least as high replaces the old one (clamped into the numeric range); a lower-ranked one is ignored (also include/common/settings.hh:262-272) |
| Settings.SetValueRespectsPriority | include/common/settings.hh:171-176 | a lower-ranked source leaves the setting unchanged, the source never drops, and an accepted integer lands inside min..max (also include/common/settings.hh:262-272) |
| Settings.SetValueKeepsRange | include/common/settings.hh:262-272 | a numeric setting inside its range stays inside it after any setValue |
| Settings.AddValue | common/settings.cc:271-276 | an accepted source adds the string to the set; a lower-ranked one leaves the set alone |
| Settings.ResetValue | include/common/settings.hh:188-192 | the value goes back to the default with source default, so the setting no longer counts as changed; names, kind and default are kept |
| Settings.ResetIdempotent | common/settings.cc:298-302 | resetting twice is resetting once, and a valid numeric default is in range after a reset |
| Settings.CopyValue | include/common/settings.hh:178-186 | a value setting copies the other's value and source exactly when both hold the same type; redirects and functions report success and change nothing |
| Settings.CopyFromAgrees | common/settings.cc:288-296 | after a successful copy the value is the other's and the setting is changed exactly when the other one is |
| Settings.Stoi | include/common/settings.hh:359-368 | std::stoi: a successful conversion lies in the 32-bit signed range |
| Settings.Stoull | include/common/settings.hh:285-288 | std::stoull: a successful conversion lies in the unsigned 64-bit range |
| Settings.ToInt32 | include/common/settings.hh:288 | the cast to int32_t gives the value in range congruent to its input modulo 2^32 |
| Settings.StoullRoundTrip | include/common/settings.hh:276-298 | every int32 value written in decimal, minus sign included, parses and casts back to itself |
| Settings.StoiRoundTrip | include/common/settings.hh:359-368 | every int32 value written in decimal converts back to itself, and one past either end is out of range |
| Settings.CastWraps | include/common/settings.hh:288 | values past 32 bits wrap: 2^32+1 becomes 1 and 2^31 becomes INT32_MIN |
| Settings.ScanDecimal | include/common/settings.hh:285-288 | the decimal text of any integer scans as its sign and magnitude (also include/common/settings.hh:359-368) |
| Settings.ReadDigitsOfDigits | include/common/settings.hh:285-288 | the digit run of a number written in decimal reads back as that number and is read whole (also include/common/settings.hh:359-368) |
| Settings.NegatedCast | include/common/settings.hh:285-288 | a magnitude up to 2^31 negated modulo 2^64, as stoull does for a minus sign, casts to int32 as its negation |
| Settings.Peek | common/settings.cc:88 | a peeked token exists exactly when tokens remain (also common/settings.cc:280, common/settings.cc:373) |
| Settings.Advance | common/settings.cc:92 | consuming a token moves one position on and keeps the tokens (also common/settings.cc:283, common/settings.cc:383) |
| Settings.ParseBool | common/settings.cc:82-107 | a following "1", "0" or "-1" is consumed and gives the truth value for "1" and its negation otherwise; any other token is left and the flag takes the truth value |
| Settings.BoolTokens | common/settings.cc:90-96 | the three accepted tokens convert to 1, 0 and -1 |
| Settings.ParseInt32 | include/common/settings.hh:276-298 | fails exactly at the end of input or on a token stoull rejects; otherwise stores the token cast to int32 and clamped; one token is consumed when there is one |
| Settings.FindLabel | include/common/settings.hh:352-356 | finds a value exactly when the token is one of the labels, and returns a value paired with it |
| Settings.ParseEnum | include/common/settings.hh:347-370 | a label stores its value, otherwise a token stoi accepts stores that integer; anything else fails and leaves the table alone |
| Settings.EnumString | include/common/settings.hh:318-327 | the first label whose value matches, and None exactly when no label has the value |
| Settings.EnumLabelRoundTrip | include/common/settings.hh:318-356 | the value a label parses to always has a label to print |
| Settings.ParseString | common/settings.cc:223-231 | a string or path setting takes the next token, failing only at the end of input (also common/settings.cc:245-254) |
| Settings.ParseSet | common/settings.cc:278-286 | a set setting adds the next token, failing only at the end of input |
| Settings.ParseBase | common/settings.cc:143-146 | the parse each kind of setting does: a bool parses with truth value true, an invertible bool with false exactly when the name used starts with "no"; int32, enum, string, path, set and redirect settings parse as their own parse does; a function setting succeeds and consumes nothing (also common/settings.cc:73-77) |
| Settings.ParseOne | include/common/settings.hh:469-478 | the setting's own parse, then its validator: the table and the position are the base parse's, and the result is success exactly when the base parse succeeds and the validator, if any, accepts the new value |
| Settings.InvertibleTruth | common/settings.cc:143-146 | the truth value is false exactly when the name used begins with "no" |
| Settings.InvertedFlag | common/settings.cc:143-146 | an invertible flag given as "no" + its name with no "1", "0" or "-1" after it stores false, and given by a name not starting with "no" stores true; a following "0" or "-1" flips each |
| Settings.ExtendNames | common/settings.cc:126-135 | the names, followed by each of them prefixed with "no", in order; a name is in the result exactly when it is one of the names or "no" + one of them |
| Settings.ParseRedirect | common/settings.cc:161-181 | the redirect's parse never moves before its start and keeps the table's shape |
| Settings.RedirectUnfold | common/settings.cc:166-178 | one step of the loop: a failure or the last target ends it with that target's result; otherwise the next target starts again from the saved position |
| Settings.RedirectIsOneTargetParse | common/settings.cc:161-181 | the result is one target's parse from the saved position over a table of the same shape, the last target's when all succeed, and does not depend on where the stream was left |
| Settings.RedirectSingle | common/settings.cc:161-181 | a redirect with one target parses exactly as that target does |
| Settings.StripUnderscores | common/settings.cc:428-434 | removes exactly the leading underscores |
| Settings.Lookup | common/settings.cc:428-439 | finds a setting exactly when the name without leading underscores is registered, and returns that setting |
| Settings.LookupIgnoresUnderscores | common/settings.cc:428-434 | any number of leading underscores does not change the lookup |
| Settings.StripHyphens | common/settings.cc:520-523 | removes exactly the leading hyphens |
| Settings.OptionsLoop | common/settings.cc:501-560 | the option loop keeps the table's shape |
| Settings.OptionsLoopRemainder | common/settings.cc:506-560 | the remainder is the token list from the first non-option token (or the end) |
| Settings.OptionsLoopNoOptions | common/settings.cc:506-515 | a command line that does not start with an option is all remainder and changes nothing |
| Settings.OptionsLoopStops | common/settings.cc:506-537 | the loop stops with the remainder at a non-option, and with an error at a stray "-", at help, or at an unknown option, leaving the table alone |
| Settings.OptionsLoopStep | common/settings.cc:533-547 | a known option is parsed by its setting from the command line; failure is an invalid-value error, success continues the loop |
| Settings.Container.constructor | include/common/settings.hh:511 | an empty container |
| Settings.Container.FindSetting | common/settings.cc:428-439 | finds a setting exactly when the name without leading underscores is indexed, and the setting found carries that name |
| Settings.Container.RegisterSetting | common/settings.cc:412-421 | succeeds exactly when none of the names is taken; the setting is appended, every name points at it, old names are untouched, and it joins its group |
| Settings.Container.RegisterInvertibleBool | common/settings.cc:137-141 | registering an invertible flag succeeds exactly when all its names and their "no" forms are free; then one bool setting at its default is appended, each name and each "no" form points at it, and old names keep their settings |
| Settings.Container.IndexNames | common/settings.cc:414-417 | adds every name, failing exactly when one is already taken |
| Settings.Container.Reset | common/settings.cc:197-202 | every setting is reset, and none counts as changed |
| Settings.Container.CopyFrom | common/settings.cc:400-410 | each setting copies from the other container's setting with its primary name, when there is one |
| Settings.CopyAll | common/settings.cc:400-410 | the copy loop gives each setting its copied value and no other change |
| Settings.Container.SetSetting | common/settings.cc:442-455 | an unknown name is fatal on the command line and MISSING otherwise, changing nothing; a known one is parsed from the value and reports NONE or INVALID |
| Settings.Container.Parse | common/settings.cc:501-560 | the result and the new settings are those of the option loop over the tokens |
| Settings.ConsumeOptions | common/settings.cc:506-547 | the loop ends with the option loop's result, or with the position where the remainder starts |
| Settings.TakeRemainder | common/settings.cc:549-559 | the remainder is every token after the current position |
| Qbsp.CStrEnd | qbsp/qbsp.cc:1222 | the position of the first NUL at or after i: no NUL lies before it |
| Qbsp.CStrEndAt | qbsp/qbsp.cc:1222 | a NUL at m with none before it is exactly where the C string ends |
| Qbsp.CStringAt | qbsp/qbsp.cc:1224 | the C string read at i is the buffer from i up to its terminating NUL, and holds no NUL (also qbsp/qbsp.cc:1311) |
| Qbsp.Strlen | qbsp/qbsp.cc:1222 | strlen is the position of the first NUL, and the buffer up to it is NUL-free |
| Qbsp.SkipSpaces | qbsp/qbsp.cc:1180-1181 | skips forward to the end or to the first character that is not a space, newline, tab or carriage return |
| Qbsp.ScanToken | qbsp/qbsp.cc:1187-1199 | scans forward to the end or to the first character that ends the token (a quote, NUL or line end inside quotes; white space or NUL outside) |
| Qbsp.NextTok | qbsp/qbsp.cc:1173-1204 | no token exactly at or past the end or after only white space; a quoted token starts after the quote, any other at its first character, and both stop where the scan stops |
| Qbsp.GetTok | qbsp/qbsp.cc:1173-1204 | returns the start of the next token and writes a NUL at its end, changing nothing else; returns NULL and writes nothing when there is no token |
| Qbsp.TokensUnfold | qbsp/qbsp.cc:1223-1224 | the token list is the first token followed by the tokens after its terminator (also qbsp/qbsp.cc:1399) |
| Qbsp.TokensEmpty | qbsp/qbsp.cc:1176-1185 | no next token means an empty token list |
| Qbsp.TokensSkipSpace | qbsp/qbsp.cc:1180-1181 | leading white space does not change the token list |
| Qbsp.ReadToken | qbsp/qbsp.cc:1223 | reading a token returns the head of the token list and moves to the rest; at the end the list is empty (also qbsp/qbsp.cc:1399) |
| Qbsp.HoldsAfterWrite | qbsp/qbsp.cc:1201-1203 | after GetTok's NUL the token reads back as a C string and the text after it is untouched |
| Qbsp.Lowered | qbsp/qbsp.cc:1236 | Q_strcasecmp compares the ASCII lower-case form, character by character |
| Qbsp.StripSlash | qbsp/qbsp.cc:1311-1314 | a wad path loses one trailing '/' and is otherwise kept |
| Qbsp.ApplyArg | qbsp/qbsp.cc:1293-1380 | an argument option fails exactly for an unknown -convert format; -wadpath/-xwadpath append the path without its trailing '/', external for -xwadpath |
| Qbsp.StepOne | qbsp/qbsp.cc:1225-1399 | an option that takes an argument consumes two tokens and any other one token; a missing argument stops with an error |
| Qbsp.LoopAdvance | qbsp/qbsp.cc:1225-1400 | the loop over a token list is one step followed by the loop over what that step leaves |
| Qbsp.ParseStep | qbsp/qbsp.cc:1225-1399 | one pass of the while loop either ends the loop with the spec loop's result or moves strictly forward with the same remaining loop |
| Qbsp.ParseOptions | qbsp/qbsp.cc:1213-1420 | parsing the buffer gives the option loop over its tokens, then the hexen2 and Quake II finishing |
| Qbsp.FinishOptionsAsWritten | qbsp/qbsp.cc:1402-1419 | the game follows the final version, but noclip is forced by the game that was current before the update |
| Qbsp.NoclipReadsOldGame | qbsp/qbsp.cc:1413-1419 | a Quake target switched to Quake II by -q2bsp ends as Quake II without noclip |
| Qbsp.FinishOptions | qbsp/qbsp.cc:1402-1419 | hexen2 maps the version to its Hexen II variant, the game follows the version, noclip is forced exactly for Quake II; nothing else changes |
| Qbsp.FinishOptionsDiffers | qbsp/qbsp.cc:1413-1419 | the code as written and the corrected finishing agree exactly when the old and the new game are both Quake II or both something else |
| Qbsp.Hexen2Versions | qbsp/qbsp.cc:1403-1411 | with -hexen2, BSP2 becomes H2BSP2, 2PSB becomes H2 2PSB and every other version becomes Hexen II; without it the version stays |
| Qbsp.Q2Step | qbsp/qbsp.cc:1278-1279 | -q2bsp only sets the target version and consumes one token |
| Qbsp.Q2CommandLineKeepsClipping | qbsp/qbsp.cc:1413-1419 | "-q2bsp map" from a Quake default ends as Quake II without noclip, although the intended finishing sets it (also qbsp/qbsp.cc:1278-1279) |
| Qbsp.FileNames | qbsp/qbsp.cc:1227-1234 | the first plain token is the map name, the second the BSP name, and a third is an error |
| Qbsp.MissingArgument | qbsp/qbsp.cc:1294-1296 | an option that needs an argument and has none is an error |
| Qbsp.LengthIsExact | qbsp/qbsp.cc:1442-1448 | the computed length is one more than the text the arguments produce |
| Qbsp.CommandLineSize | qbsp/qbsp.cc:1442-1448 | the length loop computes that length |
| Qbsp.JoinedAppend | qbsp/qbsp.cc:1450-1457 | each pass of the strcat loop appends the argument in its quoted form |
| Qbsp.JoinedSplit | qbsp/qbsp.cc:1450-1457 | the concatenated text splits at any argument boundary |
| Qbsp.Append | qbsp/qbsp.cc:1451-1457 | strcat writes the piece at the current end and leaves the rest of the buffer alone |
| Qbsp.AppendPiece | qbsp/qbsp.cc:1449-1457 | appending to a zero-filled tail leaves a shorter zero-filled tail |
| Qbsp.BuildCommandLine | qbsp/qbsp.cc:1442-1458 | a fresh buffer of the computed length holding the quoted arguments and a final NUL |
| Qbsp.JoinedNoNul | qbsp/qbsp.cc:1450-1458 | arguments without NUL give a command line without NUL |
| Qbsp.ScanTokenAt | qbsp/qbsp.cc:1187-1199 | the scan stops at the first character that ends the token |
| Qbsp.HoldsAtMiddle | qbsp/qbsp.cc:1450-1457 | a piece written between two others is found at its offset |
| Qbsp.OptionTokenAt | qbsp/qbsp.cc:1453-1456 | an option written with its trailing space reads back as one token |
| Qbsp.FileNameChars | qbsp/qbsp.cc:1451-1455 | a quoted file name has its quotes at both ends and no character inside that ends a quoted token |
| Qbsp.FileNameTokenAt | qbsp/qbsp.cc:1451-1455 | a file name written in quotes reads back as one token |
| Qbsp.ArgumentTokenAt | qbsp/qbsp.cc:1450-1457 | any argument written by the loop reads back as one token |
| Qbsp.ArgumentWrittenAt | qbsp/qbsp.cc:1450-1457 | the k-th argument is found in quoted form where the first k end |
| Qbsp.ArgumentReadAt | qbsp/qbsp.cc:1450-1460 | the tokenizer reads the k-th argument back where the first k end |
| Qbsp.Chain | qbsp/qbsp.cc:1223-1399 | a token list that unfolds one element per step is the list of those elements |
| Qbsp.CommandLineRoundTrip | qbsp/qbsp.cc:1442-1460 | tokenizing the concatenated command line gives back exactly the arguments (also qbsp/qbsp.cc:1173-1204) |
| Qbsp.InitQbsp | qbsp/qbsp.cc:1427-1470 | the options file is parsed first when it has content, then the concatenated command line; no map name shows the usage and the BSP name defaults to the map name |
| Qbsp.InitOptionsSeesArguments | qbsp/qbsp.cc:1442-1460 | with no options file the outcome is the option loop over the arguments themselves |
| Areas.Link | qbsp/portals.cc:105-117 | linking keeps one portal list per node |
| Areas.LinkKeepsLinked | qbsp/portals.cc:105-117 | linking a fresh portal between two distinct nodes keeps every node's list in agreement with the portals' node pairs |
| Areas.SidesOf | qbsp/portals.cc:363-373 | one node pair per build portal |
| Areas.InfoOf | qbsp/portals.cc:366-369 | one plane, node and winding per build portal |
| Areas.SidesOfAt | qbsp/portals.cc:370 | portal k joins build portal k's two nodes |
| Areas.LinkAll | qbsp/portals.cc:363-373 | linking a list of portals keeps one list per node |
| Areas.LinkAllKeepsLinked | qbsp/portals.cc:363-373 | linking every build portal in order keeps the node lists in agreement with the portals |
| Areas.AppendLinked | qbsp/portals.cc:366-370 | a newly created portal linked to its two nodes keeps that agreement |
| Areas.PortalGraph.constructor | qbsp/portals.cc:365 | no portals and an empty list at every node, which agree |
| Areas.PortalGraph.AddPortalToNodes | qbsp/portals.cc:105-117 | a portal already joined is a fatal error and changes nothing; otherwise it records its two nodes and joins both lists |
| Areas.PortalGraph.CreatePortal | qbsp/portals.cc:366-370 | a new portal carries the build portal's plane, node and winding and is linked to its two nodes |
| Areas.PortalGraph.MakePortalsFromBuildportals | qbsp/portals.cc:363-374 | the portals, node pairs and lists are those of every build portal created and linked in order |
| Areas.FirstEntity | qbsp/portals.cc:571-575 | the first func_areaportal among a leaf's brushes, and None exactly when no brush has one |
| Areas.AreanodeEntity | qbsp/portals.cc:561-577 | an entity found is the area portal of some leaf below the node; None means no leaf below mentions one |
| Areas.MentionsBound | qbsp/portals.cc:561-577 | an entity found this way is a real entity |
| Areas.NoteRecords | qbsp/portals.cc:598-614 | noting an area keeps the pair well formed, records the area unless two others are there, and never drops an area |
| Areas.NoteIdempotent | qbsp/portals.cc:598-600 | touching the same portal twice from one area is the same as once |
| Areas.Zeros | qbsp/portals.cc:617-620 | the number of nodes still without an area, at most the node count |
| Areas.ZerosMono | qbsp/portals.cc:617-620 | giving areas never increases the number of nodes without one |
| Areas.ZerosSet | qbsp/portals.cc:620 | giving one unassigned node an area lowers that number by one |
| Areas.NotedTrans | qbsp/portals.cc:584-640 | notes from one area compose across recursive calls |
| Areas.PaintedZeros | qbsp/portals.cc:617-620 | painting with a nonzero area never increases the unassigned count, which bounds the flood's recursion |
| Areas.NotedKeeps | qbsp/portals.cc:598-614 | noting a bounded nonzero area keeps all pairs bounded and well formed |
| Areas.EntityFlood | qbsp/portals.cc:84-98 | fatal exactly when a side is not a leaf; the flood passes exactly when neither side is solid by the version's test (also qbsp/qbsp.cc:312-322) |
| Areas.EntityFloodIntended | qbsp/qbsp.cc:312-322 | the older (uncalled) flood with the Quake II solid bit that its FindAreas_r tests: fatal exactly off the leafs, passes exactly when neither side has that bit (also qbsp/qbsp.cc:394-395) |
| Areas.CurrentFloodAsIntended | qbsp/portals.cc:84-98 | in portals.cc the flood test and the intended test are the same |
| Areas.LegacyFloodSolidMismatch | qbsp/qbsp.cc:317-318 | in qbsp.cc's older flood a Quake II solid leaf lets the flood through while a water leaf stops it, the opposite of the intended test; that flood is not called, as its call is commented out (qbsp/qbsp.cc:683-686) (also qbsp/qbsp.cc:394-395) |
| Areas.ApArea | qbsp/portals.cc:684-712 | an area-portal leaf keeps its area or, when it had none, takes slot 0 of an area-portal entity |
| Areas.ApAreaIdempotent | qbsp/portals.cc:697-698 | setting area-portal areas twice is setting them once |
| Areas.EmitEntities | qbsp/portals.cc:733-760 | emitting one area's records only adds to the list |
| Areas.EmitArea | qbsp/portals.cc:733-763 | one darea is appended, starting at the old record count and covering exactly the records added |
| Areas.EmitAreas | qbsp/portals.cc:733-763 | one darea per area after the existing ones, and records are only added (also qbsp/qbsp.cc:470-489) |
| Areas.AddNoDup | qbsp/portals.cc:752-759 | the current version's append keeps the record list free of repeats |
| Areas.EmitEntitiesNoDup | qbsp/portals.cc:737-760 | one area's records keep the list free of repeats |
| Areas.EmitAreasNoDup | qbsp/portals.cc:722-767 | the current EmitAreaPortals never writes the same record twice |
| Areas.EntityRecordsAre | qbsp/portals.cc:737-750 | the records area i produces are exactly one per entity with an area-portal number |
| Areas.ElemsAdd | qbsp/portals.cc:752-759 | appending, with or without the repeat test, adds exactly that record to the set of records |
| Areas.EmitEntitiesPrefix | qbsp/portals.cc:737-760 | records already emitted are never changed |
| Areas.EmitEntitiesElems | qbsp/portals.cc:737-760 | the records after one area are the old ones plus exactly that area's records |
| Areas.UnionStep | qbsp/portals.cc:733-763 | set union regroups across the area loop |
| Areas.EmitAreasElems | qbsp/portals.cc:733-763 | both versions emit the same set of records: the placeholder plus every area's records (also qbsp/qbsp.cc:470-489) |
| Areas.LayoutStep | qbsp/portals.cc:734-762 | a darea covering exactly the records just appended keeps the dareas consecutive |
| Areas.EmitAreasKeeps | qbsp/portals.cc:730-731 | the placeholder darea and record stay at the front |
| Areas.EmitAreaLayout | qbsp/portals.cc:733-763 | one more area keeps the dareas consecutive and covering the records |
| Areas.EmitAreasLayout | qbsp/portals.cc:733-763 | each darea starts where the previous ended and the last ends at the last record (also qbsp/qbsp.cc:470-489) |
| Areas.EmitAreaPortalTestMap | qbsp/portals.cc:722-767 | one area portal between areas 1 and 2 gives the placeholder, one record per area and dareas (1,1) and (1,2) |
| Areas.LegacyEmitRepeatsPlaceholder | qbsp/qbsp.cc:473-486 | the older version, if it were called, would write an empty record for an entity that does not touch the area, repeating the placeholder inside area 1's run; its call is commented out (qbsp/qbsp.cc:683-686), so no build of this source runs it |
| Areas.TempAreaStub | qbsp/qbsp.cc:687-694 | what ProcessEntity runs instead: for Quake II one empty area-portal record and the dareas {0, 0} and {0, 1} are appended and nothing before them changes; other games get nothing |
| Areas.TempStubIsOneArea | qbsp/qbsp.cc:687-694 | on a BSP with no area data the stand-in writes exactly what EmitAreaPortals writes for a single area with no area-portal entities, and that output has the consecutive darea layout (also qbsp/portals.cc:722-767) |
| Areas.EmitAreaRecords | qbsp/portals.cc:737-760 | the loop over entities produces that area's records |
| Areas.AddRecord | qbsp/portals.cc:752-759 | the search loop appends a record exactly when it is new (or always, for the older version) |
| Areas.AreaState.ApplyArea | qbsp/portals.cc:551-559 | every node below gets the current area and no other node changes |
| Areas.AreaState.FloodAreas | qbsp/portals.cc:584-640 | the nodes the flood enters are exactly those reached from the start through flood-passable portals and nodes that are neither area portals nor already assigned; the areas change on exactly those nodes (and below an inner start node), so with a leaf start or the older flood a node ends with the current area exactly when it is reached; assigned areas never change; entities only note the area (also qbsp/qbsp.cc:330-368) |
| Areas.AreaState.FindAreas | qbsp/portals.cc:650-674 | the i-th new area is numbered old count + i + 1 and starts at a leaf below node that had no area and passes the tests, which keeps that number; every eligible leaf below ends with an area, assigned areas never change, and new ones are numbered above the old count (also qbsp/qbsp.cc:383-405) |
| Areas.AreaState.SetAreaPortalAreas | qbsp/portals.cc:684-712 | every area-portal leaf below gets its entity's first area when it had none; nothing else changes (also qbsp/qbsp.cc:418-439) |
| Areas.AreaState.EmitRecords | qbsp/portals.cc:729-763 | the dareas and records are the placeholder and then the records of areas 1..c_areas |
| Areas.AreaState.EmitAreaPortals | qbsp/portals.cc:722-767 | areas are found and set, every eligible leaf has an area, each new area number starts at an eligible leaf that had none, and the output is the deduplicated emission |
| Areas.AreaState.FloodAreasLegacy | qbsp/qbsp.cc:448-453 | the older flood, whose call is commented out (qbsp/qbsp.cc:683-686), would give every eligible leaf an area, and each new area number starts at an eligible leaf that had none and keeps it |
| Areas.AreaState.FloodPortals | qbsp/portals.cc:629-639 | the portal loop ends with a flooded set that is reached from the node and, unless a portal was fatal, closed under flood steps |
| Areas.AreaState.FloodThrough | qbsp/portals.cc:630-638 | one portal: the flooded set grows by exactly what the flood from the far side enters, and the portal is accounted for when the flood passes it |
| Areas.Across | qbsp/portals.cc:630 | the far side of a listed portal is a node of the tree, and the portal touches the node it is listed at |
| Areas.FloodMeaning | qbsp/portals.cc:584-640 | a closed flooded set reached from the start is exactly the set of reached nodes, and on leafs the areas given are exactly the reached nodes |
| Areas.ClosedWalk | qbsp/portals.cc:629-639 | a walk that starts in a set closed under flood steps never leaves it |
| Areas.ReachedPrepend | qbsp/portals.cc:635-638 | what the flood reaches from the far side of a passable portal it reaches from the node |
| Areas.KeepsAssigned | qbsp/portals.cc:616-617 | a flood from a leaf, or the older flood, never changes an area already given |
| Areas.FloodStep | qbsp/portals.cc:635-638 | after one recursive flood, the union of flooded sets keeps being painted, reached and closed |
| Areas.FloodEnd | qbsp/portals.cc:584-640 | the flood's facts give the area of every node and the reached set on return |
| BspUtil.HeightAboveChildren | bsputil/bsputil.cc:143-159 | a node is at least 1 high and strictly higher than each child node; with two leaf children it is exactly 1 |
| BspUtil.HeightBound | bsputil/bsputil.cc:143-159 | a node's height is at most the number of nodes from it to the end, so the recursion ends |
| BspUtil.Below | bsputil/bsputil.cc:148-153 | the nodes Node_Height visits from a node: the node itself and only later nodes |
| BspUtil.RecordStep | bsputil/bsputil.cc:148-157 | the cache after a node is the cache after its first child, then its second, then the node's own height |
| BspUtil.HeightCache.constructor | bsputil/bsputil.cc:163 | an empty cache |
| BspUtil.NodeHeight | bsputil/bsputil.cc:143-159 | returns the node's height (one more than its higher child, leafs counting 0) and records the height of every node it visits in the cache, if there is one |
| BspUtil.LumpName | bsputil/bsputil.cc:92 | the lump name is the texture name cut to 15 characters, as snprintf into a 16-byte field |
| BspUtil.LumpsLayout | bsputil/bsputil.cc:82-95 | the lump table lists exactly the textures with data, each with its computed size and name, the first at pos and each starting where the previous ends |
| BspUtil.LumpsInside | bsputil/bsputil.cc:82-95 | every lump lies between pos and the end of the data region |
| BspUtil.DataEndAbove | bsputil/bsputil.cc:94 | the data region never ends before it starts |
| BspUtil.CountValid | bsputil/bsputil.cc:69-74 | the count is the number of textures whose data is larger than the miptex header |
| BspUtil.WadLayout | bsputil/bsputil.cc:64-98 | the header's lump count is that number, and the lumps are the table whose data follows the header and the lump records |
| BspUtil.UnlitFaceWarnsAsWritten | bsputil/bsputil.cc:238-243 | -1, the offset of an unlit face, is out of range for the check as written (signed against unsigned) and in range as intended |
| BspUtil.NoVisLeafWarnsAsWritten | bsputil/bsputil.cc:298-303 | -1, a leaf without visdata, is out of range for the check as written and in range as intended |
| BspUtil.VertexCheckAsWrittenMisses | bsputil/bsputil.cc:266 | a vertex number equal to the vertex count passes the check as written and fails as intended |
| BspUtil.EdgePastEndUnreported | bsputil/bsputil.cc:264-271 | an edge whose two vertexes are one past the last gets no warning as written and both warnings as intended |
| BspUtil.PrintedPair | bsputil/bsputil.cc:223-226 | two checks print the warnings of the ones that fail, in order |
| BspUtil.PrintedMeaning | bsputil/bsputil.cc:219-349 | a warning is printed exactly when some failing check carries it |
| BspUtil.PrintedHas | bsputil/bsputil.cc:219-349 | when a check's warning is carried by no other check, it is printed exactly when the check fails |
| BspUtil.PrintedAbout | bsputil/bsputil.cc:219-349 | a warning printed from one element's checks names that element |
| BspUtil.FlattenSnoc | bsputil/bsputil.cc:219-257 | the warnings of n+1 elements are those of n followed by the last one's |
| BspUtil.FlattenListed | bsputil/bsputil.cc:219-349 | a warning about element i is in the whole list exactly when it is among element i's |
| BspUtil.TexinfosUpToMembers | bsputil/bsputil.cc:227 | a texinfo is referenced exactly when some face uses it |
| BspUtil.UnreferencedNone | bsputil/bsputil.cc:353-363 | no unreferenced entries exactly when every index below the size is referenced |
| BspUtil.SummaryMeaning | bsputil/bsputil.cc:353-387 | each "N ... are unreferenced" line appears exactly when N is positive and is the number of unreferenced texinfos, planes or vertexes |
| BspUtil.FaceTable | bsputil/bsputil.cc:219-257 | one warning list per face |
| BspUtil.FacesFlat | bsputil/bsputil.cc:219-257 | the face loop's output is the faces' lists in order |
| BspUtil.FaceChecksAbout | bsputil/bsputil.cc:222-252 | every face check is about that face |
| BspUtil.FaceChecksSole | bsputil/bsputil.cc:222-252 | each face check's warning is carried by that check only |
| BspUtil.FacesListed | bsputil/bsputil.cc:219-257 | a warning about face i is printed exactly when face i's checks print it |
| BspUtil.FaceCheckReported | bsputil/bsputil.cc:222-252 | each face check's warning is printed exactly when the check fails |
| BspUtil.FaceSection | bsputil/bsputil.cc:222-252 | a face gets a texinfo, planenum or light-offset warning exactly when the value is outside its table, and an edge warning exactly when its edges are negative, fewer than 3 or past the surfedges |
| BspUtil.UnlitFaceReported | bsputil/bsputil.cc:238-243 | an unlit face (light offset -1) is reported out of range as written and not as intended |
| BspUtil.EdgeTable | bsputil/bsputil.cc:260-272 | one warning list per edge |
| BspUtil.EdgesFlat | bsputil/bsputil.cc:260-272 | the edge loop's output is the edges' lists in order |
| BspUtil.EdgeChecksAbout | bsputil/bsputil.cc:264-271 | every edge check is about that edge |
| BspUtil.EdgeChecksSole | bsputil/bsputil.cc:264-271 | each edge check's warning is carried by that check only |
| BspUtil.EdgesListed | bsputil/bsputil.cc:260-272 | a warning about edge i is printed exactly when edge i's checks print it |
| BspUtil.EdgeCheckReported | bsputil/bsputil.cc:264-271 | each edge check's warning is printed exactly when the check fails |
| BspUtil.EdgeSection | bsputil/bsputil.cc:264-271 | an edge's vertex warning appears exactly when the vertex is past the count as written, or past the last vertex as intended |
| BspUtil.LeafTable | bsputil/bsputil.cc:291-304 | one warning list per leaf |
| BspUtil.LeafsFlat | bsputil/bsputil.cc:291-304 | the leaf loop's output is the leafs' lists in order |
| BspUtil.LeafChecksAbout | bsputil/bsputil.cc:293-303 | every leaf check is about that leaf |
| BspUtil.LeafChecksSole | bsputil/bsputil.cc:293-303 | each leaf check's warning is carried by that check only |
| BspUtil.LeafsListed | bsputil/bsputil.cc:291-304 | a warning about leaf i is printed exactly when leaf i's checks print it |
| BspUtil.LeafCheckReported | bsputil/bsputil.cc:293-303 | each leaf check's warning is printed exactly when the check fails |
| BspUtil.LeafSection | bsputil/bsputil.cc:293-303 | a leaf gets a visdata warning exactly when its offset is outside the accepted range, and a marksurface warning exactly when its 32-bit end is past the list |
| BspUtil.NoVisLeafReported | bsputil/bsputil.cc:298-303 | a leaf without visdata (offset -1) is reported out of range as written and not as intended |
| BspUtil.NodeTable | bsputil/bsputil.cc:307-328 | one warning list per node |
| BspUtil.NodesFlat | bsputil/bsputil.cc:307-328 | the node loop's output is the nodes' lists in order |
| BspUtil.NodeChecksAbout | bsputil/bsputil.cc:311-325 | every node check is about that node |
| BspUtil.NodeChecksSole | bsputil/bsputil.cc:311-325 | each node check's warning is carried by that check only |
| BspUtil.NodesListed | bsputil/bsputil.cc:307-328 | a warning about node i is printed exactly when node i's checks print it |
| BspUtil.NodeCheckReported | bsputil/bsputil.cc:311-325 | each node check's warning is printed exactly when the check fails |
| BspUtil.NodeSection | bsputil/bsputil.cc:311-325 | a node gets a child warning exactly when that child names no node or leaf, and a both-children warning exactly when its children are equal |
| BspUtil.CheckFaces | bsputil/bsputil.cc:219-257 | the face loop prints the faces' warnings and collects the texinfos and planes the faces reference |
| BspUtil.CheckEdges | bsputil/bsputil.cc:260-272 | the edge loop prints the edges' warnings and collects the vertexes they reference |
| BspUtil.CheckSurfedges | bsputil/bsputil.cc:275-281 | the surfedge loop prints a warning for each zero or out-of-range surfedge |
| BspUtil.CheckMarksurfaces | bsputil/bsputil.cc:284-288 | the marksurface loop prints a warning for each one past the faces |
| BspUtil.CheckLeafs | bsputil/bsputil.cc:291-304 | the leaf loop prints the leafs' warnings |
| BspUtil.CheckNodes | bsputil/bsputil.cc:307-328 | the node loop prints the nodes' warnings and adds their planes to the references |
| BspUtil.CheckClipnodes | bsputil/bsputil.cc:331-349 | the clipnode loop prints a warning per bad child or equal children and adds their planes to the references |
| BspUtil.CountUnreferenced | bsputil/bsputil.cc:355-360 | the count is the number of indexes below the size that are not referenced |
| BspUtil.CheckBSPFile | bsputil/bsputil.cc:207-387 | the warnings printed are the sections' warnings in source order followed by the unreferenced summaries, for the checks as written |
| Bspx.BrushContents | qbsp/qbsp.cc:853-880 | the per-brush contents is -8 (clip) or a Quake contents value: the six known contents give themselves unless the clip flag is set; any other gives clip when is_clip() holds and solid otherwise |
| Bspx.SelectContents | qbsp/qbsp.cc:853-880 | the switch computes that contents value |
| Bspx.FacePlane | qbsp/qbsp.cc:892-902 | a face on the back side gets the negated normal and distance; any other gets its plane unchanged |
| Bspx.FaceRecords | qbsp/qbsp.cc:885-905 | one per-face record for each non-axial face, and every record has a non-axial normal |
| Bspx.FaceRecordsStep | qbsp/qbsp.cc:885-905 | the records of faces j.. are face j's record, if it is not axial, followed by those of the rest |
| Bspx.CountsAppend | qbsp/qbsp.cc:834 | record counts add over concatenated lump data (also qbsp/qbsp.cc:883, qbsp/qbsp.cc:904) |
| Bspx.FaceRecordsCounts | qbsp/qbsp.cc:885-905 | a brush's face records are exactly its non-axial faces, with no per-brush record among them |
| Bspx.BrushRecordsCounts | qbsp/qbsp.cc:837-905 | each brush writes one per-brush record whose face count matches the per-face records after it |
| Bspx.AllBrushRecordsCounts | qbsp/qbsp.cc:836-906 | over all brushes the declared face counts, the per-face records and the model's face count agree, with one per-brush record per brush |
| Bspx.ModelRecordsConsistent | qbsp/qbsp.cc:811-907 | the per-model header declares exactly as many faces and brushes as the records that follow it, while every brush has fewer than 65536 non-axial faces |
| Bspx.FaceCountWraps | qbsp/qbsp.cc:882 | a brush with exactly 65536 non-axial faces declares 0 faces but writes 65536 face records |
| Bspx.CountModel | qbsp/qbsp.cc:817-828 | the first loop counts the brushes and their non-axial faces |
| Bspx.CountBrushFaces | qbsp/qbsp.cc:838-845 | the per-brush count is the number of non-axial faces, cut to 16 bits (also qbsp/qbsp.cc:882) |
| Bspx.EmitFaces | qbsp/qbsp.cc:885-905 | the face loop writes exactly the brush's face records |
| Bspx.EmitBrushes | qbsp/qbsp.cc:836-906 | the brush loop writes each brush's record followed by its face records |
| Bspx.BrushList.constructor | qbsp/qbsp.cc:921 | an empty lump |
| Bspx.BrushList.AddModel | qbsp/qbsp.cc:811-907 | the lump grows by exactly the model's header and records, and nothing before them changes |
| ImgLib.PalettedMeaning | common/imglib.cc:94-103 | the output has one pixel per index, with the palette colour, alpha 0 for index 255 and 255 for any other |
| ImgLib.ConvertPalettedTo32Bit | common/imglib.cc:94-103 | the conversion loop produces exactly that image |
| ImgLib.WriteTgaHeader | common/imglib.cc:258-271 | a TGA header occupies 18 bytes |
| ImgLib.TgaHeaderRoundTrip | common/imglib.cc:258-286 | reading the header fields back from their little-endian bytes gives the header |
| ImgLib.Repeat | common/imglib.cc:359-370 | a run of n equal pixels |
| ImgLib.Pixels | common/imglib.cc:321-334 | reading n pixels, when the data holds them, gives n pixels (also common/imglib.cc:372-386) |
| ImgLib.FillShape | common/imglib.cc:316-401 | a decoded image has exactly height rows of width pixels, and the row in progress keeps what it already had |
| ImgLib.RunPacket | common/imglib.cc:359-361 | a run packet that fits in the row adds that many copies of its pixel to the row |
| ImgLib.RunAcross | common/imglib.cc:359-369 | a run packet longer than the row fills the row and continues on the next one |
| ImgLib.RawPacket | common/imglib.cc:372-387 | a raw packet that fits in the row appends the pixels it reads, or fails when the data ends |
| ImgLib.PlainRow | common/imglib.cc:317-336 | an uncompressed row is the next width pixels of the data |
| ImgLib.FillOpaque | common/imglib.cc:322-324 | a 24-bit image decodes with every pixel opaque (also common/imglib.cc:348-350, common/imglib.cc:374-376) |
| ImgLib.GlueAssoc | common/imglib.cc:317-400 | appending finished rows regroups |
| ImgLib.GlueEmpty | common/imglib.cc:317-400 | no finished rows leave the rest unchanged |
| ImgLib.Advance | common/imglib.cc:359-395 | one pixel written keeps the decoder in step with the pixel-stream spec, moving to a new row at the row's end |
| ImgLib.Header | common/imglib.cc:343-346 | reading a packet header at the end of the data fails; otherwise the high bit decides between a run and a raw packet of 1 + the low seven bits |
| ImgLib.Put | common/imglib.cc:324 | a pixel is stored at the current row and column, and the rows already written stay (also common/imglib.cc:360, common/imglib.cc:376) |
| ImgLib.Emit | common/imglib.cc:359-369 | storing a pixel and moving on, to the next row (bottom to top) at a row's end and finishing after the top row (also common/imglib.cc:387-395) |
| ImgLib.RunPixels | common/imglib.cc:358-370 | a run packet stores its one pixel size times, wrapping rows; the pixels stored stay those the stream gives and the position only moves forward |
| ImgLib.RawPixels | common/imglib.cc:371-396 | a raw packet stores size pixels each read from the data in turn; running out of data means the stream gives no image |
| ImgLib.Packet | common/imglib.cc:341-397 | the header byte picks a run (high bit) or raw packet of 1 + (header & 0x7f) pixels; the array keeps matching the pixel stream and a short stream gives no image |
| ImgLib.CloseEmpty | common/imglib.cc:317-341 | a zero-width row is finished at once |
| ImgLib.ShortRead | common/imglib.cc:323 | running out of data in the middle of a pixel read fails the decode (also common/imglib.cc:375) |
| ImgLib.Complete | common/imglib.cc:399-404 | once every row is written the decoded image is the rows written |
| ImgLib.DecodeUncompressed | common/imglib.cc:316-336 | type 2: succeeds exactly when the data holds every pixel, and the array then holds the image the pixel stream gives, bottom row first |
| ImgLib.DecodeRunLength | common/imglib.cc:337-401 | type 10: succeeds exactly when the packets cover every pixel, and the array then holds the image the packets give, runs spanning rows |
| ImgLib.LoadTga | common/imglib.cc:278-405 | a short header is Truncated; image types other than 2 and 10, a colour map or a pixel size other than 24 or 32 are rejected; otherwise width and height are the header's, and pixels are decoded unless only metadata is wanted |
| ImgLib.TgaOpaque | common/imglib.cc:322-324 | a 24-bit TGA image decodes to height rows of width opaque pixels |
| ImgLib.FillIgnoresTail | common/imglib.cc:316-401 | bytes after the image data do not change the decoded image |
| ImgLib.ReadPadded | common/imglib.cc:193-195 | reading n bytes always gives n bytes, zero past the end of the data |
| ImgLib.LoadMipMeaning | common/imglib.cc:160-251 | load_mip fails exactly for a short header; otherwise the name, width and height are set, and the pixels are the palette conversion of the first mip level exactly when offset 0 is positive and the level lies inside the file |
| ImgLib.LoadMipAgrees | common/imglib.cc:186-202 | as long as offset0 + width * height and the file size stay below 2^32, the code as written and the corrected loader agree |
| ImgLib.MipCountWraps | common/imglib.cc:186-202 | a 65536 x 65537 mip passes the overrun check as written and gets 65536 pixels instead of its width times height |
| ImgLib.Fold | common/imglib.cc:408 | case folding keeps the length |
| ImgLib.FoldIdempotent | common/imglib.cc:408 | folding twice is folding once |
| ImgLib.Find | common/imglib.cc:410-419 | finds a texture exactly when some cached name equals the name ignoring case, and returns that texture |
| ImgLib.FindIgnoresCase | common/imglib.cc:410-419 | names that differ only in case find the same texture |
| ImgLib.FindStored | common/imglib.cc:408-419 | after storing under a name, that name in any case finds the new texture and every other name finds what it found before |
| MapFile.TrimFront | bsputil/bsputil.cc:489-491 | trimming the front never lengthens the key |
| MapFile.FrontMeaning | bsputil/bsputil.cc:489-491 | the front trim removes exactly the leading white space: a suffix remains, everything removed is white space, and what remains does not start with it |
| MapFile.BackMeaning | bsputil/bsputil.cc:492-494 | the back trim removes exactly the trailing white space |
| MapFile.TrimKeySlice | bsputil/bsputil.cc:488-494 | the trimmed key is a contiguous piece of the token |
| MapFile.TrimKeyMeaning | bsputil/bsputil.cc:488-494 | everything before and after the trimmed key is white space, and a non-empty key starts and ends with something else |
| MapFile.TrimKeyTail | bsputil/bsputil.cc:492-494 | everything after the trimmed key is white space |
| MapFile.TrimKeyEnds | bsputil/bsputil.cc:488-494 | a non-empty trimmed key starts and ends with a non-space character |
| MapFile.TrimKeyIdempotent | bsputil/bsputil.cc:488-494 | trimming twice is trimming once |
| MapFile.TrimKeyEmpty | bsputil/bsputil.cc:488-494 | the trimmed key is empty exactly when the token is all white space |
| MapFile.TrimKeyAsWrittenBlank | bsputil/bsputil.cc:489-494 | the loops as written give the trimmed key when the token has a non-space character, and have no defined result (front() on an empty string) otherwise |
| MapFile.FrontAsWritten | bsputil/bsputil.cc:489-491 | the front loop as written is defined exactly when the token has a non-space character, and then trims the front |
| MapFile.BackAsWritten | bsputil/bsputil.cc:492-494 | the back loop as written is defined exactly when the key has a non-space character, and then trims the back |
| MapFile.TrimKeyInPlace | bsputil/bsputil.cc:486-494 | the erase loops leave the trimmed key (the blank case being defined as the empty key) |
| MapFile.Parser.constructor | bsputil/bsputil.cc:550 | a parser at the start of the file, with no token read |
| MapFile.Parser.ParseToken | bsputil/bsputil.cc:505 | reading a token fails at the end of the file (fatally on the same line); success moves one token forward and makes it the current token, and anything else changes nothing (also bsputil/bsputil.cc:514, bsputil/bsputil.cc:523, bsputil/bsputil.cc:496) |
| MapFile.CloseAt | bsputil/bsputil.cc:522-526 | the first "}" at or after a position, and None exactly when there is none |
| MapFile.Body | bsputil/bsputil.cc:513-535 | reading an entity body never reports the end of the file, and a successful read ends after where it began |
| MapFile.EntitySpec | bsputil/bsputil.cc:501-536 | ParseEntity reports the end exactly at the end of the token list, with an empty entity, and otherwise moves forward |
| MapFile.ParseEpair | bsputil/bsputil.cc:484-499 | a missing value on the same line is a fatal error; otherwise the trimmed key is set to the value token |
| MapFile.SkipBrush | bsputil/bsputil.cc:522-526 | no closing brace is a fatal error; otherwise the parser stops just after the first "}" |
| MapFile.BodyAtBrush | bsputil/bsputil.cc:518-529 | a brush adds its raw text to the entity and the body continues after its "}" |
| MapFile.BodyAtPair | bsputil/bsputil.cc:530-531 | a key and a value on its line set the trimmed key and the body continues after them |
| MapFile.BodyAtClose | bsputil/bsputil.cc:516-517 | "}" ends the body successfully |
| MapFile.BrushStep | bsputil/bsputil.cc:518-529 | a brush is read up to its "}" and its raw text appended, or no closing brace is fatal |
| MapFile.EntityStep | bsputil/bsputil.cc:513-533 | one pass of the do-loop either continues with the same remaining body outcome or ends with it |
| MapFile.ParseEntity | bsputil/bsputil.cc:501-536 | the result, the entity and the position are those the entity spec gives |
| MapFile.BodyReadsPairs | bsputil/bsputil.cc:513-533 | a body written as key/value pairs reads back the pairs from any pair on |
| MapFile.ReadBack | bsputil/bsputil.cc:501-536 | an entity written as "{", its key/value pairs and "}" reads back as exactly those pairs with no brushes |
| MapFile.ThenStep | bsputil/bsputil.cc:552-558 | each call of ParseEntity keeps the outcome of the whole file |
| MapFile.LoadMapOrEntFile | bsputil/bsputil.cc:538-565 | an unreadable file is fatal; otherwise the entities are those read until the end of the file, without the empty one left behind |
| ReplaceEntities.Sources | bsputil/bsputil.cc:634-639 | the .map entities that give brushes lie past the worldspawn and below the bound |
| ReplaceEntities.SourcesMeaning | bsputil/bsputil.cc:634-639 | an entity gives brushes exactly when it is not the worldspawn and has brushes, and the givers are listed in increasing order |
| ReplaceEntities.SourcesStep | bsputil/bsputil.cc:634-639 | each pass of the outer loop adds the entity to the givers exactly when it is past the worldspawn and has brushes |
| ReplaceEntities.SourcesPrefix | bsputil/bsputil.cc:634-639 | the number of givers only grows with the bound |
| ReplaceEntities.Targets | bsputil/bsputil.cc:641-644 | the .ent entities that take brushes lie below the bound |
| ReplaceEntities.TargetsMeaning | bsputil/bsputil.cc:641-644 | an entity takes brushes exactly when it has a "model" key or is a func_areaportal, and the takers are listed in increasing order |
| ReplaceEntities.TargetsPrefix | bsputil/bsputil.cc:641-653 | the takers among the first n are a prefix of those among more |
| ReplaceEntities.SetBrushes | bsputil/bsputil.cc:647 | one entity's brushes are replaced and every other entity is kept |
| ReplaceEntities.Filled | bsputil/bsputil.cc:631-658 | the transfer keeps the number of .ent entities |
| ReplaceEntities.FilledMeaning | bsputil/bsputil.cc:631-658 | the transfer keeps every pair; the b-th taker gets the b-th giver's brushes; any other entity keeps its own brushes, except that the first takes over the worldspawn's unless it is a taker |
| ReplaceEntities.FilledSnoc | bsputil/bsputil.cc:646-649 | one more giver sets the brushes of the next taker |
| ReplaceEntities.FilledTargets | bsputil/bsputil.cc:641-649 | moving brushes never changes which entities take them |
| ReplaceEntities.EligibleSamePairs | bsputil/bsputil.cc:642 | entities with the same pairs have the same takers |
| ReplaceEntities.TargetsAgree | bsputil/bsputil.cc:641-644 | that holds for every prefix too |
| ReplaceEntities.ReplacedMeaning | bsputil/bsputil.cc:629-658 | the pass fails exactly when there are more givers than takers; otherwise every entity keeps its pairs, each taker holds its giver's brushes and every other entity its own (entity 0 the worldspawn's) |
| ReplaceEntities.FindTarget | bsputil/bsputil.cc:641-653 | the inner loop finds the b-th taker, or none when there are fewer than b |
| ReplaceEntities.MoveOne | bsputil/bsputil.cc:641-657 | a giver's brushes go to the next taker, or the pass fails with "map brushes don't match" when there is none |
| ReplaceEntities.MoveStep | bsputil/bsputil.cc:634-658 | one pass of the outer loop keeps the entities equal to the transfer of the givers so far, or fails exactly when the givers outnumber the takers |
| ReplaceEntities.MoveBrushes | bsputil/bsputil.cc:631-658 | the whole transfer is the specified one, error included |
| ReplaceEntities.CleanedMeaning | bsputil/bsputil.cc:660-677 | brushes are kept; a key is dropped exactly when it is "origin" on an entity with brushes, or "style" on a light with a targetname or on a func_areaportal; every other pair is kept |
| ReplaceEntities.CleanAll | bsputil/bsputil.cc:660-677 | every entity is cleaned in place |
| ReplaceEntities.Replace | bsputil/bsputil.cc:629-677 | the pass fails exactly when the transfer does; otherwise every entity is the cleaned transferred one |
| Portals.HeadPlaneAxis | qbsp/portals.cc:141-155 | plane n (n = j*3+i) is axial on axis i, with normal +1 and distance mins[i] for j=0, and normal -1 and distance -maxs[i] for j=1 |
| Portals.HeadPlanes | qbsp/portals.cc:147 | the six bounding planes, in portal order |
| Portals.ClipPortal | qbsp/portals.cc:167-179 | a portal's winding clipped by every other bounding plane in order, or nothing when one clips it away |
| Portals.MakeHeadnodePortals | qbsp/portals.cc:126-184 | succeeds exactly when no winding is clipped away; then there are six portals, each the head portal on its plane between the head node and the outside node, with its winding clipped by the other five planes |
| Portals.ClipByBoundaryLinked | qbsp/portals.cc:232-248 | when every boundary portal touches the node, clipping by them never fails |
| Portals.ClipByBoundaryFatal | qbsp/portals.cc:238-244 | clipping fails only when some boundary portal does not touch the node |
| Portals.MakeNodePortal | qbsp/portals.cc:227-265 | fails exactly on a mislinked boundary portal; otherwise a portal is made exactly when the clipped winding survives and is not tiny (a tiny one is counted), on the node's plane between its two children |
| Portals.JoinAssoc | qbsp/portals.cc:283-355 | joining split results regroups |
| Portals.JoinEmpty | qbsp/portals.cc:281 | an empty split joins as nothing |
| Portals.SplitPortal | qbsp/portals.cc:284-352 | one pass of the loop gives that portal's split |
| Portals.SplitNodePortals | qbsp/portals.cc:275-356 | the loop gives the split of every boundary portal, front and back lists in order |
| Portals.SplitOneShape | qbsp/portals.cc:284-352 | a portal fails exactly when it does not touch the node; otherwise it gives at most one fragment per side, keeping its plane, its node and its other side with the node replaced by that child, and nothing exactly when both halves are missing or tiny |
| Portals.SplitAllShape | qbsp/portals.cc:275-356 | the split fails exactly when some portal is mislinked; otherwise each list has at most one fragment per portal and each fragment descends from one portal onto that child |
| Portals.DescendantBounds | qbsp/portals.cc:446-447 | a node's descendants come at or after it in the arena |
| Portals.DescendantTrans | qbsp/portals.cc:446-447 | a descendant's descendant is a descendant |
| Portals.ClipNodePortalsToTree | qbsp/portals.cc:435-452 | the recursion gives the portals unchanged at a stop node (a leaf, or a detail separator in VIS mode) and otherwise the front fragments followed by the back fragments |
| Portals.ClipBoth | qbsp/portals.cc:446-451 | both children are clipped and their results concatenated |
| Portals.KeepsSide | qbsp/portals.cc:315-350 | a fragment keeps the original portal's side and other node |
| Portals.KeepsCompose | qbsp/portals.cc:446-447 | fragments of fragments still descend from the original portal |
| Portals.SplitAnchored | qbsp/portals.cc:444-447 | fragments handed to a child still have their other side outside the child's subtree |
| Portals.SplitMoves | qbsp/portals.cc:444 | at a node whose portals all touch it and lead outside, the split succeeds and moves each fragment onto the child |
| Portals.ClipToTreeReachesStops | qbsp/portals.cc:435-452 | pushing portals that lead outside a subtree down it never fails, and every result descends from an input onto a stop node of the subtree |
| Portals.StopReaches | qbsp/portals.cc:437-442 | at a stop node the input portals already reach it |
| Portals.InnerReaches | qbsp/portals.cc:444-451 | below an inner node the result still reaches stop nodes |
| Portals.ReachesConcat | qbsp/portals.cc:449-450 | concatenated results reach stop nodes when both halves do |
| Portals.ChildReaches | qbsp/portals.cc:446-447 | results that reach a child's stop nodes reach the node's |
| Outside.OtherBack | qbsp/outside.cc:174-179 | the node across a portal from the node across it is the starting node, and it differs from it and lists the portal |
| Outside.FillNodeLeaf | qbsp/outside.cc:146-149 | the void leaf across the outside node's first portal is a leaf other than the outside node |
| Outside.PassableInside | qbsp/outside.cc:99-107 | a passable portal never touches the outside node, since portals to it have no onnode |
| Outside.PointInLeaf | qbsp/outside.cc:58-84 | the leaf found is a leaf at or after the start node |
| Outside.PointInLeafBelow | qbsp/outside.cc:58-84 | the leaf found lies below the node the search starts from |
| Outside.PointOnPlanePrefersSealing | qbsp/outside.cc:72-82 | a point on a node's plane lands in a sealing leaf exactly when the front or the back side offers one |
| Outside.ChainLength | qbsp/outside.cc:200-236 | a walk down strictly falling flood values is no longer than the fall in value |
| Outside.Nearest | qbsp/outside.cc:207-227 | the portal scan picks the first passable portal to the smallest value below the node's own; with none the node has no passable neighbour below it; a neighbour below the end value is the failed assertion (also qbsp/outside.cc:544-564) |
| Outside.ChainStep | qbsp/outside.cc:232-234 | going through the chosen portal extends the walk down the values |
| Outside.NoParent | qbsp/outside.cc:229-230 | a node with no passable neighbour below it contradicts every flooded node having a parent |
| Outside.Descend | qbsp/outside.cc:200-236 | the walk ends at a node holding the end value with a strictly falling passable walk to it; after a closed flood whose nodes all have parents, the assertions never fail (also qbsp/outside.cc:537-572) |
| Outside.WalkSnoc | qbsp/outside.cc:171-181 | a walk through passable portals extended by one more passable portal is a walk |
| Outside.WalkReverse | qbsp/outside.cc:99-107 | the same portals walked backwards lead back: passability does not depend on direction (also qbsp/outside.cc:653) |
| Outside.ChainWalk | qbsp/outside.cc:200-236 | a walk down the flood values is a walk through passable portals |
| Outside.WalkStaysAbove | qbsp/outside.cc:171-181 | no walk through passable portals leaves a closed flood |
| Outside.ReachedFromRoot | qbsp/outside.cc:153 | every flooded node is reached by a passable walk from a starting leaf (also qbsp/outside.cc:180) |
| Outside.ParentKept | qbsp/outside.cc:168-169 | flooding a node that was not flooded keeps every node's parent |
| Outside.DescendsKept | qbsp/outside.cc:168-169 | flooding a node from the queue keeps every flooded node's parent (also qbsp/outside.cc:512-513) |
| Outside.QueuedKept | qbsp/outside.cc:168-169 | flooding a node keeps the parents of the queued entries |
| Outside.PushNeighbours | qbsp/outside.cc:171-181 | every node across a passable portal is queued one further, after the entries already queued, each with the visited node as parent (also qbsp/outside.cc:516-525) |
| Outside.FrontierPop | qbsp/outside.cc:158-165 | dropping an already flooded head of the queue loses no unflooded neighbour of the flood |
| Outside.QueuedTail | qbsp/outside.cc:158-160 | the rest of the queue stays well formed after popping its head |
| Outside.FrontierVisit | qbsp/outside.cc:167-181 | flooding the head and queueing its passable neighbours keeps every unflooded neighbour of the flood queued |
| Outside.FrontierClosed | qbsp/outside.cc:157 | once the queue is empty no passable portal leads out of the flood |
| Outside.SeededPop | qbsp/outside.cc:503-509 | popping a flooded head keeps every starting leaf flooded or queued |
| Outside.SeededVisit | qbsp/outside.cc:510-513 | flooding the head keeps every starting leaf flooded or queued |
| Outside.VisitOccupied | qbsp/outside.cc:510-526 | a visit sets occupied to the queued distance and queues the passable neighbours, keeping parents, roots, frontier and seeds |
| Outside.DrainOccupiedQueue | qbsp/outside.cc:503-527 | the occupied flood terminates with every seed flooded, only seeds at 1, every node above 1 with a parent one nearer, and the flood closed |
| Outside.Levels | qbsp/outside.cc:153 | a node at flood value d has d distinct nodes below it on its parent chain (also qbsp/outside.cc:180) |
| Outside.LevelBound | qbsp/outside.cc:663 | a flood value is less than the number of nodes, so the INT_MAX sentinel never hides a reached cluster |
| Outside.FloodMeaning | qbsp/outside.cc:137-183 | after a flood a node is flooded exactly when a passable walk leads to it from a starting leaf (also qbsp/outside.cc:496-528) |
| Outside.FloodMeaningAll | qbsp/outside.cc:137-183 | the same for every node at once (also qbsp/outside.cc:496-528) |
| Outside.NoWalkTo | qbsp/outside.cc:650-654 | a node left unflooded by the occupied flood has no passable walk to it from an occupied leaf |
| Outside.NoWalkFrom | qbsp/outside.cc:676-680 | an occupied leaf left unflooded by the void flood has no passable walk to the void leaf |
| Outside.MakeLeakLine | qbsp/outside.cc:530-579 | from a reached leaf the line walks down the occupied values to a leaf at 1, an occupied cluster whose occupant is the leak entity |
| Outside.FindPortalsToVoid | qbsp/outside.cc:192-238 | from an occupied leaf the line walks down the outside distances to the void leaf |
| Outside.BestLeak | qbsp/outside.cc:663-674 | none exactly when no occupied cluster has a distance other than -1 below INT_MAX; otherwise the first cluster of the smallest such distance |
| Outside.Claim | qbsp/outside.cc:318-337 | an entity occupies nothing when at the origin, with _nofill, or in a sealing leaf; otherwise the non-sealing leaf below head its origin lies in |
| Outside.FirstClaimIsFirst | qbsp/outside.cc:318-343 | the entity recorded for a leaf is the lowest-numbered from 1 on that would occupy it, and none is recorded when no entity would |
| Outside.OccupiedClustersMembers | qbsp/outside.cc:346-370 | the listed clusters are exactly the occupied nodes below head |
| Outside.ClaimedClusters | qbsp/outside.cc:318-370 | after marking, the listed clusters are exactly the leafs some entity would occupy, each holding an entity that occupies it |
| Outside.LeakFound | qbsp/outside.cc:676-680 | the nearest reached cluster's line is a passable walk from its leaf to the void leaf, and its occupant occupies that leaf |
| Outside.NoneReached | qbsp/outside.cc:663-676 | with no reached cluster, no occupied leaf has a passable walk to the void leaf |
| Outside.ChooseLeak | qbsp/outside.cc:660-680 | the leak found after the void flood is an occupant with a passable walk to the void leaf; no leak means no occupied leaf has one |
| Outside.FillState.MarkClusterOutsideDistance | qbsp/outside.cc:117-125 | the node and every node below it get the distance; all others keep theirs |
| Outside.FillState.VisitFromVoid | qbsp/outside.cc:167-181 | a visit sets the node's distance to its queued value and queues its passable neighbours one further, keeping the flood's invariants |
| Outside.FillState.DrainVoidQueue | qbsp/outside.cc:157-182 | the void flood terminates with the void leaf at 0, every positive node with a parent one nearer, and the flood closed |
| Outside.FillState.FloodFillClustersFromVoid | qbsp/outside.cc:137-183 | fails exactly when the void leaf seals the map; otherwise the void leaf is the only node at 0, every flooded node has a parent, and the flood is closed |
| Outside.FillState.BFSFloodFillFromOccupiedLeafs | qbsp/outside.cc:496-528 | every occupied leaf is flooded, only they hold 1, every node above 1 has a parent one nearer, and the flood is closed |
| Outside.FillState.ClearOccupied | qbsp/outside.cc:86-97 | every node below the start gets outside distance -1, occupied 0 and no occupant; other nodes keep theirs |
| Outside.FillState.MarkOccupiedClusters | qbsp/outside.cc:316-344 | every leaf without an occupant gets the first entity from 1 on that would occupy it; occupants already set stay |
| Outside.FillState.OutLeafsToSolid | qbsp/outside.cc:448-475 | exactly the leafs below the node that are unreachable under the fill type and do not seal the map become solid |
| Outside.FillState.LeakFromEntities | qbsp/outside.cc:644-655 | the inside fill floods from the occupied leafs; a leak is an occupant with a passable walk to the void leaf, no leak means none has one, and occupied marks exactly the reachable nodes |
| Outside.FillState.LeakFromVoid | qbsp/outside.cc:656-680 | the outside-in fill floods from the void; it fails only when the void leaf seals the map, a leak is the nearest occupant with a passable walk to the void leaf, and distances mark exactly the nodes reachable from the void |
| Outside.FillState.FindClusters | qbsp/outside.cc:619-628 | after clearing and marking, the clusters are exactly the occupied leafs, with every distance -1 and occupied 0 |
| Outside.FillState.FillOutside | qbsp/outside.cc:611-739 | no occupied leaf returns false with no leak; AUTO acts as inside; a leak returns false leaving contents alone; otherwise true, no occupied leaf reaches the void leaf, and exactly the unreachable non-sealing leafs become solid |
| WriteBsp.Outputs | qbsp/writebsp.cc:187-191 | the output face numbers of a face's fragments are no more than its fragments |
| WriteBsp.OutputsMembers | qbsp/writebsp.cc:187-191 | a face number is output exactly when some fragment was written as it |
| WriteBsp.MarkSurfacesMembers | qbsp/writebsp.cc:176-192 | a face number is a mark surface of a leaf exactly when a written fragment of a face that is not skipped has it |
| WriteBsp.MarksFaceSnoc | qbsp/writebsp.cc:176-192 | the faces marking a number are those of the list without its last face, and possibly the last face |
| WriteBsp.PushTex | qbsp/writebsp.cc:70-85 | appending an output texinfo and recording its number keeps the texinfo memo one-to-one, its chain pending until nexttexinfo is set |
| WriteBsp.LinkTex | qbsp/writebsp.cc:87-89 | setting nexttexinfo to the next texinfo's export result finishes that texinfo's chain |
| WriteBsp.NoChain | qbsp/writebsp.cc:70-93 | a texinfo with nothing chained after it is written with nexttexinfo -1 and the memo stays consistent |
| WriteBsp.Chained | qbsp/writebsp.cc:70-93 | a texinfo written before the chain after it ends up linked to the chain's output number |
| WriteBsp.LeafStable | qbsp/writebsp.cc:152 | a written dleaf and its mark surfaces stay as written while later exports append (also qbsp/writebsp.cc:190) |
| WriteBsp.ChildStable | qbsp/writebsp.cc:228-246 | a written child stays written while later exports append and leave its dnodes alone |
| WriteBsp.DrawStable | qbsp/writebsp.cc:244-246 | a written drawing hull stays written though the dnode vector grows after it, so re-fetching the node is sound |
| WriteBsp.ClipStable | qbsp/writebsp.cc:114-119 | a written clipping hull stays written while later exports append clipnodes and planes |
| WriteBsp.TexGrowsTrans | qbsp/writebsp.cc:87-89 | texinfo export only appends output texinfos and records output numbers, across a chain too |
| WriteBsp.ClipJoin | qbsp/writebsp.cc:109-121 | a clipnode reserved before its two subtrees and filled in after them completes the hull, in preorder |
| WriteBsp.ChildRef | qbsp/writebsp.cc:224-242 | a child is referred to as -1 when it is a shared solid leaf, as -(leaf number + 1) when another leaf, and by its dnode number when a split |
| WriteBsp.ChildrenDiffer | qbsp/writebsp.cc:250-251 | with leaf 0 taken by the placeholder, two children are referred to equally exactly when both are shared solid leafs (also qbsp/writebsp.cc:304-306) |
| WriteBsp.FrontFailed | qbsp/writebsp.cc:228-246 | an error writing the front child is an error of the node |
| WriteBsp.DrawOutcome | qbsp/writebsp.cc:210-252 | after both children, the node is written or fails exactly as the tree's exportability says |
| WriteBsp.DrawFailed | qbsp/writebsp.cc:250-251 | equal child references after the placeholder leaf mean the tree is not exportable |
| WriteBsp.DrawSucceeded | qbsp/writebsp.cc:212-246 | distinct child references complete the written drawing hull rooted at the node |
| WriteBsp.WrittenJoin | qbsp/writebsp.cc:212-246 | the node's dnode, its front subtree and its back subtree occupy consecutive dnode and dleaf ranges |
| WriteBsp.DrawTreeIntro | qbsp/writebsp.cc:212-246 | a dnode copying the split's plane, bounds and faces with two distinct written children makes the drawing hull written |
| WriteBsp.CollectMarkSurfaces | qbsp/writebsp.cc:176-192 | the appended mark surfaces are the written fragments of the leaf's faces that are not skipped, in order |
| WriteBsp.MapOutput.constructor | qbsp/writebsp.cc:40-94 | a new output has no plane or texinfo exported and empty lumps |
| WriteBsp.MapOutput.ExportMapPlane | qbsp/writebsp.cc:40-54 | a map plane already exported returns its number and changes nothing; otherwise one dplane is appended and its number recorded |
| WriteBsp.MapOutput.ExportMapTexinfo | qbsp/writebsp.cc:56-94 | a memoised texinfo returns its number unchanged; a skipped one returns -1; otherwise it is written once and linked to its chain; the memo stays one-to-one |
| WriteBsp.MapOutput.WriteTexinfo | qbsp/writebsp.cc:70-93 | the first export appends the texinfo, fails on invalid flags, and then exports the chain after it into nexttexinfo |
| WriteBsp.MapOutput.ExportClipNodes | qbsp/writebsp.cc:103-123 | the clipping hull is written in preorder, a split's clipnode reserved before its children; a leaf is referred to by its native contents |
| WriteBsp.MapOutput.ExportModelClipNodes | qbsp/writebsp.cc:137-141 | a missing model is an error that changes nothing; otherwise the hull is appended after the old clipnodes, which are kept as a prefix, and only the model's headnode slot for this hull changes: the other slots, the other models and every other lump except the planes stay as they were (also qbsp/writebsp.cc:96-131) |
| WriteBsp.MapOutput.ExportLeaf | qbsp/writebsp.cc:150-200 | fails exactly for invalid remapped contents or unassigned bounds; otherwise one dleaf with visofs -1 whose mark-surface range holds exactly the appended face numbers |
| WriteBsp.MapOutput.ExportChild | qbsp/writebsp.cc:224-247 | a non-Quake II solid leaf child is -1, another leaf is written and referred to as -(number + 1), a split by its dnode number |
| WriteBsp.MapOutput.ExportDrawNode | qbsp/writebsp.cc:210-252 | after the placeholder leaf the node fails exactly when its tree is not exportable; otherwise the drawing hull is written in preorder |
| WriteBsp.MapOutput.ExportDrawNodes | qbsp/writebsp.cc:259-289 | records the head node and face range, sets visleafs to exactly the dleafs written, and strips the bounds padding by SIDESPACE and, outside Quake II, one unit more; a split head fails exactly when its tree is not exportable; on success only dnodes, dleafs, mark surfaces and planes are appended to (the old ones kept as prefixes), and no model but this one changes, so texinfos, clipnodes and edges stay as they were |
| WriteBsp.MapOutput.BeginBSPFile | qbsp/writebsp.cc:298-308 | on empty lumps leaves exactly one placeholder edge and one solid placeholder leaf; otherwise the assertion fails |
| WriteBsp.MapOutput.FinishBSPFile | qbsp/writebsp.cc:482-490 | the BSP has at least one vertex afterwards and nothing else changes |

## Left out

- Input and output are left out. That covers file reading and writing, logging and the progress bars. Parsed files are given as byte or token sequences, and warnings are returned as lists.
- Threads are left out. vis and light spread their work over a thread pool. The model runs one thread, and the vis scheduler hands out one portal at a time.
- Embree ray tracing is left out. The tracing call takes the ray stream as it is and gives back hit distances and hit ids. The model treats it as external.
- Floating-point lighting and colour arithmetic is left out. Lighting values and colours are not computed. Geometric values are `real`, and rounding is not modelled.
- The constants and lump layouts of bspfile.hh are not part of this model. Only the fields the modelled code reads or writes appear.
- parser_t is not part of this model. Its token list is an input, and tokens on the same line (PARSE_SAMELINE) are assumed to be grouped as the tokenizer groups them.
- The engines' contents rules are parameters of the model: solidity, sealing, and the visible and detail tests.
- Winding geometry is left out. Windings are opaque handles. BaseWindingForNode, BaseWindingForPlane, set_plane, winding clipping and the tiny-winding test are oracle parameters.
- SIDESPACE is a parameter of the portal code rather than the source's constant.
- BspUtil.NodeHeight requires the node numbers to increase from parent to child (Ordered). This gives recursion a measure; the source relies on the tree being acyclic.
- Trace.PointInLeaf requires every child reference to be valid and every internal child to come later than its parent (Tree and ChildOk). This is the preorder a compiled BSP has; the source does not check it.
- Trace.SampleIndex, Trace.ClampTexcoord: the 32-bit unsigned conversions at light/trace.cc:47, 50 and 67 are not modelled; coordinates, remainders and products are unbounded integers. Two cases where those conversions would change the result are left out: the float-to-uint32 cast of a coordinate of 2^32 or more (light/trace.cc:47 and 50), and the uint32 product `width * (y * width_scale)` wrapping (light/trace.cc:67). Texture coordinates are taken as exact reals.
- LtFace.ModRoundAsWritten does not model C int overflow of `-x` for the most negative int. The mottle coordinates never come near it.
- ImgLib.LoadMip does not model the Half-Life branch (common/imglib.cc:215-244), which reads a palette that follows the fourth mip level, nor its check of offsets[3]. The palette is a parameter.
- ImgLib.LoadTga stops with Truncated when the data ends before the pixels it announces. The source's stream reads past the end and fills the rest with whatever it returns.
- Trace.SampleIndexInBounds requires both scale factors to be 1. For other scales the source multiplies the wrapped coordinates by width_scale and height_scale (light/trace.cc:67), and that index can pass the end of the pixels even with the corrected wrap, so the bound is proved only for unscaled textures. The texture record that declares the scales is not part of this model, and the scales are taken as natural numbers.
- Settings.FindLabel and Settings.EnumString search the labels in declaration order with exact matching. The source keeps them in a std::map ordered by natural_less (include/common/settings.hh:311), so when two labels share a value the one printed is the first in that order, which the model does not reproduce.
- Settings.ParseBase: a function setting's parse calls its callback `_func(source)` (common/settings.cc:73-77). The callback's effect is not part of this model; the parse only reports success and consumes nothing.
- ImgLib.LoadTga returns Truncated when the data is shorter than the 18-byte header. The source reads the header from the stream regardless (common/imglib.cc:284-286) and goes on with whatever the failed read left in it.
- ImgLib.LoadTga sizes the pixel array by the unbounded product of width and height. The source multiplies columns by rows as int32 (common/imglib.cc:298-300), which overflows when both are large.
- ImgLib.Find folds a whole string. The source looks up `str.data()` of a std::string_view, which stops at the first NUL byte; names with an embedded NUL are not modelled.
- Settings: setting_scalar and its stod parsing (include/common/settings.hh:286 and 304) are not modelled, because their values are floating point. Only the int32 setting is modelled.
- Vis.VisState.LoadPortals requires every portal's leaf numbers to be below the leaf count. The portal file reader checks that before it hands the portals over.
- Areas: the older area code of qbsp.cc (Portal_EntityFlood, FloodAreas_r, FindAreas_r, FloodAreas and EmitAreaPortals at qbsp/qbsp.cc:312-486), modelled by Areas.AreaState.FloodAreasLegacy, Areas.LegacyFloodSolidMismatch, Areas.EntityFloodIntended and Areas.LegacyEmitRepeatsPlaceholder, is unreachable in this source: its call is commented out (qbsp/qbsp.cc:683-686), and Areas.TempAreaStub models what runs in its place. The Findings rows about it describe what the code would do if it were called again.
- BspUtil.LumpSize and BspUtil.LumpsLayout use unbounded naturals for each lump's size and file position. The source computes them in int and the lump record's fields (bsputil/bsputil.cc:86-94), which overflow only for texture data far beyond anything a BSP holds.
- Areas.PortalGraph.AddPortalToNodes requires the two nodes to differ. Every caller passes the two sides of a split node.
- Qbsp.InitQbsp copies the map name as the BSP name when none is given. It does not model replace_extension, the default wad path, or the numeric option values, which are kept as text.
- Qbsp: loading qbsp.ini is an input. The file text is a parameter of Qbsp.InitQbsp.
- MapFile.Epairs keeps an entity's pairs as a map, so the order of its keys is not kept. The .replaced.map writer that prints them is left out.
- ReplaceEntities: a moved-from std::string is taken to be empty.
- Outside.FillState.OutLeafsToSolid does not count the outleafs statistic that the source logs.
- Outside.FillState.FillOutside does not model its file side effects:
  - the leak file (WriteLeakTrail, WriteLeakLine);
  - WriteLeafVolumes and the debug portal file;
  - the removal of the .prt file, the leaktest exit and map.leakfile.
- Outside.FillState.FillOutside does not model MarkBrushSidesInvisible or MarkVisibleBrushSides_R (qbsp/outside.cc:374-439), which only set per-side visibility flags.
- FillBrushEntity (qbsp/outside.cc:741-751) is left out. It calls FillOutside for one brush entity.
- Entity origins: the plane distances of each entity origin are inputs per node.
- Portals: MakeTreePortals_r is covered only through its steps (MakeNodePortal, SplitNodePortals). ClusterContents and Portal_VisFlood are covered through their leaf-contents tests.
- Bspx: BSPX_CreateBrushList's gathering of brushes from the map, Brush_LoadEntity, and the global Init and Finalize are not modelled. The brushes are an input.
- WriteBsp: WriteExtendedTexinfoFlags, WriteBSPFile and UpdateBSPFileEntitiesLump (qbsp/writebsp.cc:314-524) only serialise lumps to files and are left out.
- WriteBsp.MapOutput.ExportLeaf and WriteBsp.MapOutput.ExportDrawNodes do not model the floor and ceiling of the bounds, because those are reals.
- WriteBsp.MapOutput.ExportMapTexinfo does not model the copy of the texture name or the miptex value.

## Findings

| source | as written | input that shows it | evidently intended | confidence | as-written member | corrected member |
|---|---|---|---|---|---|---|
| vis/vis.cc:113-119 | FreeStackWinding accepts `w <= &windings[STACK_WINDINGS]` | a pointer one past the last slot clears `windings_used[STACK_WINDINGS]`, out of bounds | `w < &windings[STACK_WINDINGS]` | not executed | Vis.FreeRangeOffByOne | Vis.PStack.Free |
| light/ltface.cc:1408-1416 | mod_round_to_neg_inf returns `y - (-x) % y` for negative x | x = -256, y = 256 gives 256, which is out of the mottle texture (used at line 1469) | 0 for a negative multiple of y | not executed | LtFace.ModRoundAsWrittenReachesSize | LtFace.ModRoundIsFloorMod |
| qbsp/qbsp.cc:473-486 | every area-portal entity appends a record to every area, zeroed when it does not touch that area; the function is unreachable here, as its call is commented out at qbsp/qbsp.cc:683-686 | were the call restored: two area-portal entities, numbered 1 and 2, joining areas 1 and 2 and areas 2 and 3; area 1 gets the first entity's record followed by an all-zero record for the second, a copy of placeholder 0 | append only when the entity touches area i, as qbsp/portals.cc:722-767 does | not executed | Areas.LegacyEmitRepeatsPlaceholder | Areas.EmitAreasNoDup |
| qbsp/qbsp.cc:317-318 | Portal_EntityFlood tests the Quake I CONTENTS_SOLID bit on Quake II contents; the function is unreachable here, as the FloodAreas call is commented out at qbsp/qbsp.cc:683-686 | were the call restored: a Quake II solid leaf is crossed and a water leaf is refused | stop at exactly the leafs FindAreas_r (line 394) treats as solid | not executed | Areas.LegacyFloodSolidMismatch | Areas.CurrentFloodAsIntended |
| bsputil/bsputil.cc:489-494 | the trim loops read `key.front()`/`key.back()` without checking for an empty key | the key "" or " " | stop trimming when the key is empty | not executed | MapFile.TrimKeyAsWrittenBlank | MapFile.TrimKeyInPlace |
| common/imglib.cc:186-202 | the overrun check `offsets[0] + width * height > size` is computed in 32 bits | a 65536 x 65537 mip: the product wraps to 65536, the check passes, and the texture gets 65536 pixels | compare without wrap-around | not executed | ImgLib.MipCountWraps | ImgLib.LoadMipMeaning |
| light/trace.cc:65 | SampleTexture wraps the row coordinate by the width | a 4 x 2 texture sampled at row 3 reads pixel 12 of 8 | wrap the row by the height | not executed | Trace.SampleIndexAsWrittenOverruns | Trace.SampleIndexInBounds |
| qbsp/qbsp.cc:1413-1419 | noclip is forced when the game before this parse is Quake II, and the game is updated afterwards | `-q2bsp map` on a first parse leaves a Quake II target with clipping hulls | force noclip from the game the final version selects | not executed | Qbsp.Q2CommandLineKeepsClipping | Qbsp.FinishOptionsDiffers |
| bsputil/bsputil.cc:240 | `face->lightofs >= dlightdata.size()` converts -1 to unsigned | a face with lightofs -1 (no lightmap) is reported out of range | skip -1 (FaceSection with the Intended reading) | not executed | BspUtil.UnlitFaceReported | BspUtil.FaceSection |
| bsputil/bsputil.cc:300 | `leaf->visofs >= dvis.bits.size()` converts -1 to unsigned | a leaf with visofs -1 (no visdata) is reported out of range | skip -1 (LeafSection with the Intended reading) | not executed | BspUtil.NoVisLeafReported | BspUtil.LeafSection |
| bsputil/bsputil.cc:266 | the edge check uses `vertex > dvertexes.size()` | an edge whose vertex equals the vertex count is not reported | `vertex >= dvertexes.size()` (EdgeSection with the Intended reading) | not executed | BspUtil.EdgePastEndUnreported | BspUtil.EdgeSection |
