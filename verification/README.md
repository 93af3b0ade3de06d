# A verified model of the seed finder's integer cores

The repository searches for Minecraft seeds with large mushroom islands, on top of the `cubiomes` library of
biome and structure generation. This project models the integer algorithms that the search rests on and proves
what each of them promises, for every input. Floating-point noise appears only as a function of integer
coordinates, and random draws as arbitrary in-range values, except where the generator itself is the subject.

Check everything with `dafny verify dfyconfig.toml`.

## How it is organised

| files | subject |
|---|---|
| `Rows`, `Layers`, `LayerRules`, `CacheSize`, `AreaMaps`, `PointMaps`, `ShoreMap`, `ZoomMap`, `OceanMixMap`, `PlanarVoronoi`, `BufferReach`, `AreaGeneration` | Layered area generation. `Layers.Value` gives each layer a meaning as a function of absolute coordinates, without buffers or windows. The map functions are methods over one shared `array<int>`, with the source's loops, slide registers and block moves, and are proved to leave that meaning in the buffer; each access that could lie behind the buffer is checked, so that a run leaves the buffer exactly when `BufferReach.Reach`, the entries its window needs, exceeds the length. |
| `NoiseSweep` | The Beta generator below scale 4: the diagonal sweep with its ring of column noise, and the blocks it writes. |
| `BiomeTree` | Branch and bound in the flattened biome tree against the plain scan of its leaves. |
| `Components`, `Flood`, `MushroomMask`, `IslandSize` | Connected components in the plane; the flood fill; the mask that saves Voronoi lookups; the measurement of islands and its growing window. |
| `VoronoiRange` | Biomes at block scale, in bulk and block by block. |
| `Fortress` | The nether fortress generator: a class with the piece list, the counters and the linked chain. |
| `SpawnSpiral`, `LargestRect` | The spawn spiral and the largest rectangle. |
| `BoundedDraw`, `JumpAhead`, `Words`, `Mixer` | Random number arithmetic: bounded draws, jump-ahead, the 64-bit mixer. |
| `Common`, `ModArith`, `ModInverse`, `Structures`, `QuadScan` | Shared definitions; the modular inverse, moved structure seeds, and the quad-base scan. |

Findings about the code, each with its exact condition:

* `getLargestRec` is documented as finding the largest rectangle of matches (cubiomes/finders.h:735-739). The code
  only looks at rectangles that a row below cuts off, and its stack is not emptied between columns. It writes behind
  its table of max(sx, sz) entries exactly when the bars that columns leave, together with those of one more column,
  outnumber the entries (`LargestRect.GetLargestRec`); a two by two grid does it (`LargestRect.CornerOverruns`). It
  keeps its promise on every grid with a given last row exactly when that row has no match
  (`LargestRect.LastRowDecides`); for any other last row there is a grid on which it stays in its table and returns 0
  (`LargestRect.OnlyLastRow`).
* From version 1.7 on `mapShore` leaves a cell unwritten whose parent cell is frozen_ocean, and no other
  (`ShoreMap.KeepsFrozenOcean`). Such a cell keeps what the parent area held at its place in the buffer, so that two
  windows may disagree on it (`ShoreMap.WindowsDisagree`). The layer is local, with each cell decided by its
  neighbourhood whatever the parent holds elsewhere, exactly at the cells it writes (`ShoreMap.DecidedIffWritten`);
  over a plane that is frozen_ocean throughout, the windows agree although nothing is written. Over a tree
  in which no rule makes frozen_ocean every cell is written (`ShoreMap.ShoreSettles`).
* `genBiomeNoiseBetaScaled` counts cells without the offset of the range in its first cell. With cells of d blocks it
  covers its output exactly when x mod d + sx mod d and z mod d + sz mod d are at most d
  (`NoiseSweep.OutputComplete`); at block scale it misses part of the two blocks from 3 on (`NoiseSweep.SomeMissed`).
* `getMinLayerCacheSize` reckons with a parent side of (w+3)/4 below a Voronoi layer, while the layer asks for two or
  three cells for a single block, by its position. A run in a buffer of the computed length leaves it exactly when
  `BufferReach.Reach` of its window exceeds `CacheSize.Need` (`AreaGeneration.GenArea`). That never happens without a
  Voronoi layer (`CacheSize.NeedCovers`); over four nested mixes, or two 3x3 layers, it happens for the block at (1, 1)
  and not for the one at (2, 2) (`BufferReach.VoronoiOverflows`).
* The early test of the bounded draw against `n` itself, and not against the rejection threshold, never changes
  which word is taken (`BoundedDraw.DrawBelow`).

## Model

| member | source | states |
|---|---|---|
| AreaGeneration.GenArea | cubiomes/generator.c:603-607 | For every window and every layer tree, in a buffer of exactly the length that getMinLayerCacheSize returns: the run leaves the buffer exactly when the window reaches beyond that length (for trees whose ocean planes have no unwritten cells; for others it does not leave it otherwise), and never without a Voronoi layer. Else, when no shore layer leaves a cell unwritten, cell (i, j) holds the layer's value at (x+i, z+j): a function of absolute coordinates only. |
| AreaGeneration.GetMap | cubiomes/layers.c:62-265 | For a call at any offset of a buffer of any length, whatever it held before, and every tree: nothing outside `BufferReach.Reach` is written, and the run leaves the buffer exactly when the reach lies beyond its end (for trees whose ocean planes have no unwritten cells; others leave it at most then); otherwise, when no shore layer of the tree leaves a cell unwritten, the window holds the layer's values at absolute coordinates. |
| AreaGeneration.MapNear | cubiomes/layers.c:1086-1247 | The 3x3 layers, with a second parent behind the first for the hills layer, refine their rule in place over their own parent area. |
| AreaGeneration.MapShore | cubiomes/layers.c:1423-1533 | The shore layer leaves in its window what its rule writes, and in unwritten cells the parent's leftover at that place; where every cell is written, the layer's values. |
| AreaGeneration.MapRiverMix | cubiomes/layers.c:1565-1605 | Generating the second parent behind the first leaves the first intact, and the cell-wise mix of the two is what remains at the front. |
| AreaGeneration.MapOceanMix | cubiomes/layers.c:1636-1740 | The ocean mix agrees with its rule on whole planes although only a trimmed window of land is generated. |
| AreaGeneration.MapVoronoi114 | cubiomes/layers.c:1933-2055 | The planar Voronoi layer over any tree: each cell of any window ends as a value of its absolute position alone, unless the parent's reach or the block that is scattered behind its area lies beyond the buffer. |
| LayerRules.ZoomMeans | cubiomes/layers.c:139-243 | The value of a zoom layer, cell by cell: a parent cell, that or the next one by draw, and at odd places of the plain zoom the value that occurs more often than every other among the four parent cells around; without one, and in the fuzzy zoom, the one of the four that is drawn. |
| LayerRules.MajorityWins | cubiomes/layers.c:166-187 | The comparisons of counts pick the value that leads among four, whichever it is and however many agree. |
| LayerRules.NoMajority | cubiomes/layers.c:180-186 | When no value leads the draw decides. |
| LayerRules.IslandMeans | cubiomes/layers.c:546-566 | The island layer changes a cell exactly when it and its four neighbours are ocean and the draw is right, and then into land. |
| LayerRules.ContinentMeans | cubiomes/layers.c:62-83 | The continent layer is land at the origin and wherever the draw says so. |
| LayerRules.NineOfMeans | cubiomes/layers.c:573-600 | A 3x3 rule sees each neighbour at its place. |
| LayerRules.RulesSee | cubiomes/layers.c:573-1247 | One-to-one, mixing, land, 3x3 and hills layers apply their rule to the parent's values around the cell and the second parent's value at it. |
| LayerRules.OceanMixMeans | cubiomes/layers.c:1674-1740 | The mix keeps land and ocean apart, leaves no warm or frozen ocean near a shore but the temperate kind, and is deep where the land plane is. |
| LayerRules.ShoreNearMeans | cubiomes/layers.c:1695-1712 | Near a shore means: one of the 25 cells at distances -8, -4, 0, 4 and 8 on both axes is not oceanic, the corners included. |
| LayerRules.VoronoiMeans | cubiomes/layers.c:2001-2048 | The planar Voronoi layer holds the value of that of the four parent cells around whose jittered point is nearest in absolute coordinates, and without one that of the last. |
| CacheSize.FirstFits | cubiomes/generator.c:563-591 | What a layer may ask of its first parent, plus the copy it keeps of its own bordered area, fits in what was computed for the layer, for every tree and window. |
| CacheSize.SecondFits | cubiomes/generator.c:563-591 | The second parent fits behind the bordered area of the first. |
| CacheSize.NeedCovers | cubiomes/generator.c:563-601 | For every tree without a Voronoi layer and every size of window, the length that getMinLayerCacheSize returns is at least what generating the window takes at any position, counting temporary copies and second-parent regions. |
| CacheSize.UseCovers | cubiomes/layers.c:1086-1115 | What a layer may ask of its parents at any position, where it puts the second one, and its own work all lie within the bound `CacheSize.Use`. |
| CacheSize.GetMinLayerCacheSize | cubiomes/generator.c:593-601 | The pointer-passing recursion, for zoom factors 1, 2 and 4 and every border, adds up the copies of the tree and multiplies the largest sides that occur in it. |
| CacheSize.SideReckoned | cubiomes/generator.c:563-591 | How far the side that is reckoned with is from the one asked for at most: equal but for the ocean mix (one more), the Voronoi layer (two less) and the borders of one-to-one layers. |
| BufferReach.ReachWithinUse | cubiomes/layers.c:166-265 | The entries that a window needs at its position, from the sides that each layer asks for there and the trimmed land of the ocean mixes, are never more than the bound that does not know the position. |
| BufferReach.AreaReached | cubiomes/generator.c:603-607 | The window itself is always among them. |
| BufferReach.VoronoiOverflows | cubiomes/layers.c:1933-1953 | With a Voronoi layer the computed length need not be enough: at (1, 1) one block over four nested mixes needs 45 entries of 36 and over two 3x3 layers 49 of 41; at (2, 2) it needs 20 and 36. |
| AreaMaps.NearMap | cubiomes/layers.c:532-760 | A 3x3 layer that overwrites its own parent area row by row never reads a cell it has already written. |
| AreaMaps.LandRow | cubiomes/layers.c:268-382 | The sliding registers hold the two corners that have been overwritten, so each cell is the rule applied to the parent's old corners. |
| AreaMaps.IslandRow | cubiomes/layers.c:532-571 | Writing the centre first does not disturb the four neighbours that are read after it. |
| ShoreMap.ShoreMap | cubiomes/layers.c:1423-1533 | Row by row over its own parent area, the shore layer writes what its rule says; an unwritten cell holds the parent cell that lay at its place in the buffer. |
| ShoreMap.KeepsFrozenOcean | cubiomes/layers.c:1397-1407 | Of all neighbourhoods exactly those with frozen_ocean in the centre meet the branch that writes nothing. |
| ShoreMap.ShoreMeans | cubiomes/layers.c:1423-1533 | For every other centre: beaches, stone shores and snowy beaches arise exactly at an ocean side, jungle edges at a side of other land, deserts at the inland edge of badlands, mushroom shores at plain ocean; all other cells stay. |
| ShoreMap.DecidedIffWritten | cubiomes/layers.c:1397-1499 | Locality: a cell holds the same value for all parents that agree on its neighbourhood and for every window that contains it, if and only if the rule writes it. |
| ShoreMap.WindowsDisagree | cubiomes/layers.c:1397-1407 | With frozen_ocean at the origin, 1 three columns to the west and 0 elsewhere, a one cell window and a wider one hold different values at the origin. |
| ShoreMap.ValueAvoids | cubiomes/generator.c:361-385 | A value that no rule of a tree makes from other values occurs nowhere in it. |
| ShoreMap.ShoreSettles | cubiomes/generator.c:466-478 | So a shore layer over a tree in which no rule makes frozen_ocean writes all its cells. |
| PointMaps.ContinentMap | cubiomes/layers.c:62-83 | The origin is land exactly when it lies in the window, at its right place in the buffer; the run leaves the buffer exactly when the window does not fit. |
| ZoomMap.ZoomPair | cubiomes/layers.c:189-265 | Two parent rows become two rows of twice the width; what the last column, and the second row of the last pair, hold beyond the parent area never reaches the part that is kept. |
| ZoomMap.ZoomExpand | cubiomes/layers.c:85-164 | All but the last row and column of the enlarged block are the zoom rule on the parent's plane, for the plain and the fuzzy zoom, with whatever garbage lies behind the parent; a buffer is left exactly when it ends before five times the parent area. |
| ZoomMap.ZoomCopy | cubiomes/layers.c:258-265 | Moving the rows to the front never lands on a row that is still to be moved, and yields the window at the wanted parity. |
| OceanMixMap.TrimLand | cubiomes/layers.c:1651-1673 | The trimmed window contains the 17x17 surroundings of every warm or frozen ocean cell, although cells away from the border are skipped, and every window that does so contains it: the land area is the least possible. |
| OceanMixMap.TrimmedIsLeast | cubiomes/layers.c:1651-1673 | Widening by every warm or frozen cell gives that least window. |
| OceanMixMap.MixMap | cubiomes/layers.c:1674-1740 | Every cell ends as the rule says, with all land reads inside the trimmed window. |
| PlanarVoronoi.ScatterMap | cubiomes/layers.c:1950-2055 | Scattering clipped blocks behind the parent area and moving them to the front leaves the Voronoi rule on the parent's plane in every cell of the window; the buffer is left exactly when it ends before that block does. |
| PlanarVoronoi.FillBlock | cubiomes/layers.c:1985-2050 | One block of four by four, clipped to the window, advances the set of finished cells by exactly that block. |
| PlanarVoronoi.BlockMeaning | cubiomes/layers.c:1980-1996 | A block whose four corners agree needs no distances: filling it evenly gives the same cells. |
| NoiseSweep.Sweep | cubiomes/biomenoise.c:1772-1857 | Every cell of the rectangle is visited exactly once, each time with the column noise of exactly its four corners, with a ring of 2*min+1 slots, for every shape; the blocks of visited cells get the value made of their own corners, and no other block changes. |
| NoiseSweep.CornersShared | cubiomes/biomenoise.c:1794-1822 | Neighbouring cells have the same column noise at the corners they share. |
| NoiseSweep.LiveApart | cubiomes/biomenoise.c:1772-1858 | All corners in use during a stripe have different slots, which is why 2*min+1 slots suffice. |
| NoiseSweep.VisitCell | cubiomes/biomenoise.c:1794-1822 | One visit reads or makes the right corners and keeps the ring right for the next. |
| NoiseSweep.TurnFinds | cubiomes/biomenoise.c:1849-1857 | The three index updates at the end of a stripe lead to the slot of the first corner of the next stripe. |
| NoiseSweep.PaintCell | cubiomes/biomenoise.c:1824-1843 | One cell writes exactly its blocks that are in the range. |
| NoiseSweep.GenBiomeNoiseBeta | cubiomes/biomenoise.c:1757-1860 | The generation as a whole: a block has its value exactly when its cell is one of those counted for the range, and is untouched otherwise. |
| NoiseSweep.ShadedMeans | cubiomes/biomenoise.c:1794-1847 | The value of a block comes from the noise of the four columns at the corners of the cell in which it lies. |
| NoiseSweep.OutputComplete | cubiomes/biomenoise.c:1757-1761 | All blocks of a range are written if and only if on both axes the offset in the first cell and the remainder of the size are together at most a cell. |
| NoiseSweep.SomeMissed | cubiomes/biomenoise.c:1757-1761 | At block scale the two blocks from 3 on are not both written, while the one block from 1 on is. |
| NoiseSweep.RingIsReserved | cubiomes/generator.c:146-152 | The number of slots that the cache size reserves is the number the sweep of that range uses. |
| BiomeTree.GetResultingNode | cubiomes/biomenoise.c:1388-1431 | For every bound and every alternative the branch and bound search comes to what `BiomeTree.FoundMeans` states, without entering subtrees whose box is no nearer than the bound. |
| BiomeTree.FoundMeans | cubiomes/biomenoise.c:1388-1431 | If no leaf beats the bound the result is the alternative; otherwise no leaf is nearer than it; and it is what the exhaustive scan returns, unless it is the alternative, this is nearer than the bound, and some leaf is not. |
| BiomeTree.FoundAppend | cubiomes/biomenoise.c:1388-1431 | Searching one stretch of leaves with what another has left finds what searching both finds. |
| BiomeTree.ScanFindsFirstNearest | cubiomes/biomenoise.c:1388-1431 | That scan finds the first leaf of least distance if it beats the given bound, and else the given alternative. |
| BiomeTree.LeavesFarther | cubiomes/biomenoise.c:1410-1413 | No leaf below a node is nearer than the node's box, so a pruned subtree holds no better leaf. |
| BiomeTree.DistIsSum | cubiomes/biomenoise.c:1368-1386 | In unsigned 64-bit words the distance is the exact sum of squared gaps, and never all ones. |
| BiomeTree.DistIsLeast | cubiomes/biomenoise.c:1368-1386 | That is the least squared distance of the climate to a point of the box: no point is nearer and some point attains it. |
| BiomeTree.GapIsLeast | cubiomes/biomenoise.c:1378-1381 | On one axis the gap is the distance to the nearest number of the range, on either side of it. |
| BiomeTree.ClimateToNode | cubiomes/biomenoise.c:1477-1481 | Without a hint the result is the first of the nearest leaves of the whole tree: some point of its box is as near to the climate as any point of any leaf's box. |
| BiomeTree.ClimateToNodeHinted | cubiomes/biomenoise.c:1471-1476 | With a hint some point of the result's box is as near as any point of any leaf's box; if it is not the hint it is strictly nearer than that and the first of the nearest leaves. |
| Fortress.PieceEnv.AddFortressPiece | cubiomes/finders.c:2622-2689 | A piece is accepted exactly when it meets none of the counted ones; a counted one goes to the end of the list and of the chain, and the run invariant is kept. |
| Fortress.GrowsAway | cubiomes/finders.c:2622-2652 | The box of a piece of any type, placed at a spot of another one, holds the anchor beside that piece and never meets it, for every way the older piece faces and every turn. |
| Fortress.TurnsFace | cubiomes/finders.c:2704-2721 | Straight on keeps the direction, and the two turns face opposite ways across it. |
| Fortress.TooFarMeans | cubiomes/finders.c:2723-2724 | A spot is given up exactly when a piece anchored there would not be within 112 blocks of the start on both axes. |
| Fortress.ExitsInLine | cubiomes/finders.c:2759-2796 | Every exit of every type leads to the middle of the side it leaves, but for the crossing with three arms, which is flush with an end of the side. |
| Fortress.WaysOn | cubiomes/finders.c:2759-2796 | Crossings lead on in every direction but back, the one with three arms to both sides, straight pieces ahead, spawners and ends nowhere. |
| Fortress.FloorLevel | cubiomes/finders.c:2759-2796 | The floor goes on at one height through every exit, but for the two kinds of stairs, the upper way out of the wart farm and the corner that anchors the start. |
| Fortress.AnchoredHeight | cubiomes/finders.c:2625-2629 | Every placed piece begins below its anchor by the offset of its type. |
| Fortress.PieceEnv.OneDraw | cubiomes/finders.c:2738-2753 | The number that is drawn lands on one open type; from there a type that would repeat ends the draw with nothing, and types that collide pass it on to the next open one, until a free one is placed at the spot or none is left. |
| Fortress.ComesMeans | cubiomes/finders.c:2738-2753 | What a draw that lands on a type comes to, without recursion: the open types before some place all collide without repeating; at that place an open type would repeat and ends the draw, or is free and is placed, or the family is exhausted. |
| Fortress.FailsExactly | cubiomes/finders.c:2736-2753 | Some number that may be drawn places nothing if and only if some open type reaches no free type before a repeat or the end of the family. |
| Fortress.LandsByWeight | cubiomes/finders.c:2738-2747 | An open type of a family is landed on by exactly as many numbers as it weighs, and a capped one by none. |
| Fortress.LandsOnOne | cubiomes/finders.c:2738-2747 | Every number that may be drawn lands on exactly one type. |
| Fortress.PieceEnv.DrawPiece | cubiomes/finders.c:2736-2753 | Of five numbers drawn the first that places a piece counts; nothing is placed only when all five fail. |
| Fortress.PieceEnv.ExtendFortress | cubiomes/finders.c:2692-2757 | For every sequence of draws, extending a piece adds nothing when the spot is too far from the start; otherwise it adds one piece of the family that may be placed, at exactly the anchored spot, or an end unless even that collides, the latter only if the piece is too deep, no capped type of the family is open, or a draw may fail there. |
| Fortress.PieceEnv.ExtendFortressPiece | cubiomes/finders.c:2759-2796 | A piece is extended in all the directions of its type, one after the other; that adds at most three pieces, each one deeper and starting at a side face of it. |
| Fortress.ExtendedJoined | cubiomes/finders.c:2692-2757 | The fortress hangs together: every piece but the first starts beside an earlier piece that is one less deep. |
| Fortress.GetFortressPieces | cubiomes/finders.c:2798-2850 | The worklist ends for all draws. The run begins with the start piece of the chunk, and each entry of the record of extended pieces leads from one list to the next by the extension of that piece in all its directions, up to the final list; every counted piece is in the record exactly once, the chain is empty, and the list is sound and hangs together. |
| Fortress.SoundAppend | cubiomes/finders.c:2654-2670 | Soundness of a list: disjoint boxes, caps, no immediate repeats, depth at most 30 (31 for ends), anchors within 112 of the start; kept by an accepted piece. |
| Fortress.CollisionFree | cubiomes/finders.c:2659-2663 | The comparison of corners that accepts a piece means that no block lies in both boxes. |
| Fortress.NoRepeatsMeans | cubiomes/finders.c:2748-2749 | Two pieces of one type with only ends between them are of a repeatable type. |
| Fortress.ChainAppend | cubiomes/finders.c:2678-2683 | Linking a new piece behind the last one keeps the chain acyclic and exactly the pending pieces. |
| Fortress.ChainRemove | cubiomes/finders.c:2843-2846 | Unlinking the drawn piece removes it, and only it, from the chain. |
| Fortress.WorkDone | cubiomes/finders.c:2834-2848 | Replacing a piece by at most three that are one deeper makes the sum of 4^(32-depth) over the pending pieces smaller. |
| MushroomMask.VoronoiAccess3D | cubiomes/layers.c:2137-2181 | The result is, of the eight coarse cells around the block, the one whose jittered point is nearest in absolute coordinates, and the first of several equally near ones. |
| MushroomMask.CellIsNearest | cubiomes/layers.c:2153-2176 | The distance that the scan computes corner by corner is the one in absolute coordinates, and its order of corners is the lexicographic one. |
| MushroomMask.UnjitteredCell | cubiomes/layers.c:2139-2166 | Without jitter the cells are cubes of four blocks: block x lies in cell (x-1)/4, rounded down. |
| MushroomMask.SkipIsSafe | src/cpu.cpp:55-73 | The dilated mask covers the naive cell of every block whose Voronoi cell is mushroom in either layer. |
| MushroomMask.CellInGrid | src/cpu.cpp:86-103 | Neither out-of-grid guard is ever taken: the naive cell and the Voronoi cell of a block of the window are on the grid, also with truncating division for negative coordinates. |
| MushroomMask.PassAt | src/cpu.cpp:85-108 | A block passes exactly when its Voronoi cell at sea level is mushroom in the layer of its height. |
| MushroomMask.PassesMeans | src/cpu.cpp:85-108 | A block passes exactly when the nearest cell at height 62 is mushroom in the layer of that cell's height. |
| MushroomMask.BuildPass | src/cpu.cpp:14-111 | The grid of the window marks exactly the blocks that pass. |
| Flood.Fill | src/cpu.cpp:113-150 | The fill takes exactly the connected component of its start, counts it, and notices exactly whether it touches the border of the window. |
| Flood.LargestMeans | src/cpu.cpp:167-190 | No component is larger than the one reported, one has the reported size and flag, and the sizes add up to the number of passing blocks. |
| IslandSize.MeasureLargest | src/cpu.cpp:14-190 | The whole measurement: the passing blocks of the window fall into components whose sizes add up to their number, and the size and edge flag are those of the first largest; no component is larger, and 0 means that no block passes. |
| IslandSize.MeasureFromCenter | src/cpu.cpp:152-166 | With the centre asked for: the component of the centre, empty when the centre does not pass. |
| IslandSize.OffBorderIsWhole | src/cpu.cpp:354-372 | A component that stays off the border is the component in the unbounded plane. |
| IslandSize.EdgeIsExact | src/cpu.cpp:125-150 | The edge flag is false exactly when the whole island in the plane lies strictly inside the window. |
| IslandSize.LargerWindowSame | src/cpu.cpp:362-372 | After that every larger window gives the same component, off its border too. |
| IslandSize.MeasureGrows | src/cpu.cpp:362-372 | The area of a cell never shrinks as the window grows. |
| IslandSize.MeasuredOnce | src/cpu.cpp:113-190 | A window gives one answer: the size and edge flag of the component of a cell are determined. |
| IslandSize.GrowOrigin | src/cpu.cpp:354-375 | The growth ends, with the one answer of its last window; without the edge flag its area is the size of the island of the origin in the plane and every larger window gives the same; with the flag the cap was reached. |
| LargestRect.GetLargestRec | cubiomes/finders.c:5570-5617 | With the code's table of max(sx, sz) entries: the search writes behind its table exactly when the stack would grow deeper than that; otherwise the result is the largest area of a full rectangle that a row below cuts off, with the corners of one attaining it. |
| LargestRect.ScanColumn | cubiomes/finders.c:5585-5612 | One column with its stack of bars measures every rectangle of the run lengths that ends before the column does; it leaves as many bars as there are rises that no later row undercuts, and leaves the table exactly when these outnumber the free entries. |
| LargestRect.BarsStep | cubiomes/finders.c:5586-5612 | The bars on the stack are counted independently of it: the rows in which the run length rises or changes and has not been undercut since, row by row. |
| LargestRect.ClearStays | cubiomes/finders.c:5573-5578 | With a clear last row no column leaves a bar, and the table is large enough. |
| LargestRect.ClearMeansLargest | cubiomes/finders.c:5570-5617 | When the last row has no match, that is the largest area of any full rectangle. |
| LargestRect.LastRowDecides | cubiomes/finders.h:735-739 | The code stays in its table and keeps the documented promise on all grids with a given last row if and only if that row has no match. |
| LargestRect.OnlyLastRow | cubiomes/finders.c:5570-5617 | For every last row there is a grid that ends in it on which the search stays in its table and can return only 0. |
| LargestRect.CornerOverruns | cubiomes/finders.c:5573-5590 | On the two by two grid whose only mismatch is at the right of the first row the search needs a third entry of its table of two. |
| SpawnSpiral.SpiralFillsSquares | cubiomes/finders.c:1114-1121 | The first (2n)^2 places of the walk are exactly (-n,n]x(-n,n] and the first (2n+1)^2 exactly [-n,n]x[-n,n], for every n; no chunk comes twice. |
| SpawnSpiral.SpawnChunkTo117 | cubiomes/finders.c:1089-1125 | In 1024 turns the search finds the first good chunk of the spiral in (-16,16]x(-16,16], or there is none. |
| SpawnSpiral.SpawnChunkFrom118 | cubiomes/finders.c:1128-1166 | In 121 turns the search finds the first good chunk of the spiral in [-5,5]x[-5,5], or there is none. |
| VoronoiRange.GenBiomeNoiseScaled | cubiomes/biomenoise.c:1588-1632 | At block scale every block gets the noise at its Voronoi cell, by the bulk path and by the single-block path, within the allocated space. |
| VoronoiRange.BlocksMean | cubiomes/biomenoise.c:1588-1632 | That noise is the one at the nearest coarse cell. |
| VoronoiRange.SourceHasCell | cubiomes/biomenoise.c:1946-1973 | The source range contains the Voronoi cell of every block of the range, so all source reads are in bounds. |
| VoronoiRange.SourceTight | cubiomes/biomenoise.c:1946-1973 | It begins with the lowest cell around the first block and ends at most one cell behind the highest around the last. |
| VoronoiRange.SourceFits | cubiomes/generator.c:162-168 | The source volume fits in the extra space of the cache. |
| BoundedDraw.DrawBelow | cubiomes/rng.h:214-225 | The value comes from the first word of the stream that is not rejected, and is below n. |
| BoundedDraw.DrawIsUniform | src/Random.h:347-361 | For every n each result below n is given by exactly floor(2^32/n) accepted words. |
| BoundedDraw.NextInt | cubiomes/rng.h:98-116 | The Java draw: one draw for powers of two, otherwise the first draw whose stretch of n numbers is not cut off. |
| ModArith.PowerMeans | cubiomes/rng.h:103-104 | The branch for powers of two is taken exactly for them. |
| BoundedDraw.JavaDrawIsUniform | cubiomes/rng.h:109-115 | Each result below n is given by exactly floor(2^31/n) kept draws. |
| BoundedDraw.JavaPowerIsUniform | cubiomes/rng.h:104-107 | For powers of two each result is given by exactly 2^31/n draws. |
| JumpAhead.SkipNextN | cubiomes/rng.h:152-173 | Repeated squaring in wrapping 64-bit words equals n single steps of the 48-bit generator. |
| JumpAhead.Make | src/Random.h:145-160 | For every signed n the constructed map is that of n steps modulo 2^48. |
| JumpAhead.JavaRandomSkip.Combine | src/Random.h:138-143 | Combining in place composes the two maps, also when an object is combined with itself. |
| JumpAhead.TimesIterates | src/Random.h:188-193 | Applying the map of n steps does to a seed what n steps do. |
| JumpAhead.SkipsAdd | src/Random.h:138-160 | The map of a+b steps is the combination of those of a and b, and skipping back undoes skipping ahead, for all signed counts. |
| JumpAhead.OrderIsTwo48 | cubiomes/rng.h:91-95 | 2^48 steps lead every seed back to itself, and 2^47 steps lead none back. |
| Mixer.MixFixInverse | src/Random.h:275-285 | mix64 and fix64 are inverse to each other on all 64-bit words. |
| Words.ShiftsUndone | src/Random.h:275-285 | The exclusive or with one shift by more than a third of the word is undone by that with two shifts, and the other way round. |
| ModInverse.MulInv | cubiomes/rng.h:378-400 | In wrapping words, the result is below m and is an inverse of x exactly when x >= 1 and x and m > 1 are coprime; 0 for m <= 1. |
| ModInverse.InverseMeansCoprime | cubiomes/rng.h:374-377 | Nothing is lost: a number that has any inverse is coprime to the modulus. |
| Structures.MovedFeature | cubiomes/finders.h:747-793 | A seed moved by some regions has every structure moved by the same regions, at the same chunk of its region. |
| Structures.SeededState | cubiomes/finders.h:749-766 | The state behind a structure is that of the Java generator seeded with the sum of seed, region and salt: its low 48 bits scrambled, and one step. |
| Structures.DrawAsJava | cubiomes/finders.h:768-783 | Each coordinate is the bounded draw of the Java generator, except where that would reject the number and draw again. |
| Structures.FeatureAsJava | cubiomes/finders.h:749-783 | The short form is what seeding and two bounded draws in turn give, whenever neither draw is rejected; for powers of two that is always. |
| Structures.InItsRegion | cubiomes/finders.h:788-797 | A structure starts inside its region. |
| QuadScan.LowBitsByResidue | cubiomes/quadbase.c:625-629 | A region's moved seed has the wanted low bits exactly when its z has the residue computed with the inverse. |
| QuadScan.Stride | cubiomes/quadbase.c:630-634 | The re-check of the low bits never rejects, and no region that a stride jumps over is a hit. |
| QuadScan.ScanForQuadBits | cubiomes/quadbase.c:608-647 | Writes exactly the first n, row by row and without repeats, of the regions of the inclusive area to which the seed can be moved so that its low bits are the given ones and it is a base; and nothing else. |
| QuadScan.InverseFor | cubiomes/quadbase.c:654-661 | The two constants and the computed value are true inverses for every number of low bits from 1 to 48. |
| QuadScan.ScanForQuads | cubiomes/quadbase.c:649-672 | The same over all listed values, less the salt, up to the zero that ends the list: the first n of what is wanted, value by value. |
| QuadScan.ListedMeans | cubiomes/quadbase.c:649-672 | A region is among the hits exactly when it lies in the area and its moved seed is a base with the low bits of some listed value less the salt. |
| QuadScan.AreaListed | cubiomes/quadbase.c:617-645 | The hits of an area, found row by row, are the wanted regions in the order of the scan. |
| QuadScan.AreaMeans | cubiomes/quadbase.c:608-647 | The list of hits of an area contains exactly the regions of the area that are hits. |
| QuadScan.BaseOfRegion | cubiomes/quadbase.c:632-636 | The base that is tested at a region shows in region (a, b) what the scanned seed has that far beyond the region. |

## Left out

- Coordinates and areas are unbounded integers: overflow of 32-bit coordinates, of `areaX * areaZ` and of buffer indices is not modelled. Word arithmetic is modelled where the algorithms rely on it (distances, skips, the inverse, the scan, draws).
- The per-cell rules of the simple layers (biome tables, chunk seeds, climate) are parameters of the layer tree, as functions of the cell, its neighbourhood and the absolute coordinates; the access patterns of all layer kinds, and the rules of zoom, island, shore, ocean mix and Voronoi, are modelled. That the tables of a real stack never make frozen_ocean before the shore layer is a condition of `ShoreMap.ShoreSettles`.
- mapVoronoi and mapVoronoiPlane: caller and callee both shift by two, and there is no clean agreement to prove. mapOceanMixMod, a variant of the ocean mix, is not modelled either.
- AreaGeneration.GenArea: a run ends at the first access behind the buffer; what the program does from there on is not modelled. Prefetch hints are no accesses.
- AreaGeneration.GetMap: where a shore layer below the second parent of an ocean mix leaves cells unwritten, the land window depends on what the buffer held, and `BufferReach.Reach` is only an upper bound; no stack of the library has such a layer there.
- Layer failures: map functions of the source pass on an error code that no modelled layer produces.
- BiomeTree.ClimateToNode: the trees are described by a well-formedness predicate, since the tables are data; climate values and boxes are taken to be small enough (2^29) for the sum of squares not to wrap.
- BiomeTree.GetResultingNode: climates and boxes as above. Bound and alternative are any, but the result is that of the plain scan only as far as `BiomeTree.FoundMeans` says: a subtree that is entered in vain makes the alternative compete with its own distance. With the alternative at 5, the bound 10, such a subtree, and then a leaf at 7, the search returns the alternative (cubiomes/biomenoise.c:1410-1422). climateToBiome passes no bound that is above the alternative's distance and not above that of every leaf.
- NoiseSweep.GenBiomeNoiseBeta: the value of a block, its climate and its interpolation are a parameter; the other branch, at scale 4 and above or without ocean mapping, samples cell by cell and is left out.
- MushroomMask.VoronoiAccess3D: starts from the first corner instead of the largest distance, which is the same as long as distances are below 2^64 - 1.
- Threads of the island measurement: the rows are written one after the other.
- IslandSize.MeasureLargest: the centre of mass that goes with the area, and the Monte Carlo search that precedes it, are left out; the `min_size` filter after it is a plain comparison.
- Fortress.GetFortressPieces: draws are arbitrary in-range numbers, so the streams of the generator and the skips of some types are not modelled. The list is growable because the given capacity is never read; the `next` field of each piece is kept in a sequence beside the list, and a piece that is not counted is not kept.
- LargestRect.GetLargestRec: what happens after a write behind the table is not modelled.
- SpawnSpiral.SearchSquare: whether a chunk offers a spawn point depends on approximate heights and is a parameter.
- VoronoiRange.GenBiomeNoiseScaled: scales other than 1 only sample the noise cell by cell.
- QuadScan.ScanForQuads: the base test, a distance in floating point, is a parameter; region coordinates are taken to fit the 32-bit integers of positions.
- ModInverse.MulInv: both arguments are below 2^63, as its documentation asks (cubiomes/rng.h:374-377).
- Structures.MovedFeature: only the plain feature attempt is modelled, not the large structures that average two draws.
- Noise, splines, surface heights, gradient descent, colours, names and version tables, file and network code, the GPU kernels and the seed viewer are not part of this model.
