# Verified model of the computational core of a WebGPU graphics course

This project models, in Dafny, the parts of the course exercises that compute
something rather than drive the GPU:

- **Icosphere subdivision** (`icosphere.dfy`, module `Icosphere`). `subdivideSphere`
  splits every triangle of an index list into four. It appends the three edge
  midpoints of each triangle to the caller's vertex list in place. `subdivideIndices`
  builds the same finer index list without touching the vertices, numbering the
  midpoints from the triangle count. `courseIndices` takes one step back. The three
  functions occur verbatim in `w04/w04p05.js` and in `w07/w07p04.js`. Vertices are of
  an arbitrary type `V`. The caller supplies the midpoint rule `mid`, which is
  `normalize(add(a, b))` in the source.
- **Subdivision levels** (`levels.dfy`, module `Levels`). These give the index list
  and the vertex list reached from the 4-vertex, 4-triangle base solid after L steps.
  They also state the buffer capacities both pages allocate, 12 · 4^9 bytes each.
- **The level-of-detail controller** of `w04/w04p05.js` (`controller.dfy`, class
  `Controller.LevelController`). It holds the "+" and "−" buttons over the counters
  `subdivisions` and `calculatedSubdivisions`.
- **The start-up subdivision** of `w07/w07p04.js` (`initial.dfy`, module
  `InitialSphere`), which runs six eager `subdivideSphere` steps.
- **The point/triangle click handler** of `w02/w02p03.js` (`clicks.dfy`, module
  `Clicks`).
  - The handler's state is a value, `Canvas`, and each event handler is a function on it.
  - The class `ClickHandler` updates the same fields in place. Each of its methods is
    proved to produce the function's new state.
  - The two vertex buffers are maps from a vertex offset to what was last written there.
    "What is drawn" is the first `index` entries of those maps.
- **The checkerboard texture** `createCheckerboardTexture` of `w06/w06p01.js`
  (`checkerboard.dfy`, module `Checkerboard`). This is a method that fills a fresh
  byte array, proved equal to a byte-by-byte specification of the texture.
- **The mip level count** `numMipLevels` of `common/genmipmap.js` (`mipmap.dfy`,
  module `Mipmap`).

## Model

| member | source | states |
|---|---|---|
| Icosphere.BaseIndices | w04/w04p05.js:82-87 | the starting index list has 12 entries, four triangles, each naming one of the 4 starting vertices |
| Icosphere.Children | w04/w04p05.js:29 | a triangle becomes 12 index entries whose entries 0, 8 and 11 are its own corners i0, i1 and i2, which is where coarsening reads them back (line 44 pushes the same pattern) |
| Icosphere.Refine | w04/w04p05.js:29 | one subdivision step makes the index list four times as long |
| Icosphere.Coarsen | w04/w04p05.js:49-59 | one coarsening step makes the index list a quarter as long |
| Icosphere.Midpoints | w04/w04p05.js:26-28 | one subdivision step appends exactly three vertices per triangle |
| Icosphere.RefineAt | w04/w04p05.js:19-29 | triangle t becomes the 12 entries (i0,c01,c20, c20,c01,c12, c12,c01,i1, c20,c12,i2) at offset 12t, where c01, c12 and c20 are base+3t, base+3t+1 and base+3t+2 (the same pattern as w07/w07p04.js:16 and 31) |
| Icosphere.MidpointsAt | w04/w04p05.js:23-28 | the vertices appended for triangle t sit at offsets 3t, 3t+1 and 3t+2 after the old vertices, in the order mid(i0,i1), mid(i1,i2), mid(i2,i0) |
| Icosphere.RefineBounded | w04/w04p05.js:23-29 | if every input index names an existing vertex, every index of the refined list is below the new vertex count |
| Icosphere.CoarsenRefine | w04/w04p05.js:49-59 | courseIndices is a left inverse of one refinement, whatever the midpoint base, so it undoes both subdivideSphere and subdivideIndices (in both copies; w07/w07p04.js:36-46 is the same function) |
| Icosphere.SubdivideIndicesAgrees | w04/w04p05.js:41-43 | on a non-empty list, subdivideIndices' numbering from the triangle count gives subdivideSphere's list if and only if the vertex count equals the triangle count |
| Icosphere.Positions.Push | w04/w04p05.js:26-28 | positions.push appends one vertex and keeps the earlier ones |
| Icosphere.SubdivideSphere | w04/w04p05.js:16-32 | the loop leaves the old vertices followed by the midpoints of every triangle, and returns the refinement numbered from the old vertex count (w07/w07p04.js:3-19 is the same function) |
| Icosphere.SubdivideIndices | w04/w04p05.js:34-47 | the loop returns the refinement whose midpoints are numbered from the triangle count, and never reads the vertices (w07/w07p04.js:21-34 is the same function) |
| Icosphere.CourseIndices | w04/w04p05.js:49-59 | the loop keeps entries 0, 8 and 11 of every group of 12 (w07/w07p04.js:36-46 is the same function) |
| Levels.BaseIndicesMesh | w04/w04p05.js:75-87 | the base solid has 4 triangles over its 4 vertices, every index naming one of them |
| Levels.IndicesAt | w04/w04p05.js:96-116 | the index list at level L has 3 · 4^(L+1) entries |
| Levels.IndicesAtStep | w04/w04p05.js:104 | the list of level L+1 is the list of level L refined with midpoints numbered from its triangle count 4^(L+1) |
| Levels.IndicesAtValid | w04/w04p05.js:96-116 | at every level every index is below 4^(L+1) |
| Levels.PositionsAt | w04/w04p05.js:100-102 | after L subdivideSphere steps the vertex list has 4^(L+1) entries, one per triangle of that level |
| Levels.PositionsAtStep | w04/w04p05.js:101 | one subdivideSphere step at level L appends the midpoints of level L's triangles |
| Levels.PositionsAtGrow | w04/w04p05.js:100-102 | computing a higher level never changes the vertices of a lower one |
| Levels.CoarsenIndicesAt | w04/w04p05.js:113 | coarsening the list of level L+1 gives back the list of level L |
| Levels.IndicesAtFitUint32 | w04/w04p05.js:101-113 | up to level 8 every index is below 2^32, so the Uint32Array conversion keeps it unchanged |
| Levels.LevelFitsBuffers | w04/w04p05.js:162-179 | up to level 8 the vertex list fits the position buffer and the index list fits the index buffer |
| Levels.IndicesAtValidAbove | w04/w04p05.js:96-116 | the displayed list names only vertices of any level computed at or above it |
| Levels.SphereStep | w04/w04p05.js:101 | subdivideSphere at level L moves the vertex list and the index list to level L+1 |
| Levels.IndicesStep | w04/w04p05.js:104 | subdivideIndices at level L gives the list of level L+1 |
| Levels.CoarseStep | w04/w04p05.js:113 | courseIndices at level L > 0 gives the list of level L−1 |
| Controller.LevelController.constructor | w04/w04p05.js:75-92 | the page starts at level 0 with the base vertices and indices, and both counters at 0 |
| Controller.LevelController.Plus | w04/w04p05.js:96-108 | below level 8 "+" raises the level by one; it appends vertices exactly when the new level was never computed; it keeps 0 ≤ subdivisions ≤ calculatedSubdivisions ≤ 8; at level 8 it changes nothing |
| Controller.LevelController.PlusComputing | w04/w04p05.js:100-102 | onto a new level, both counters rise by one and the vertex list grows |
| Controller.LevelController.PlusReindexing | w04/w04p05.js:103-105 | onto a computed level, only the displayed level rises and the vertex list is unchanged |
| Controller.LevelController.Minus | w04/w04p05.js:109-116 | above level 0 "−" lowers the level by one and keeps the vertices and the computed level; at level 0 it changes nothing |
| Controller.ValidFitsBuffers | w04/w04p05.js:162-179 | in every reachable state both lists fit their buffers and every displayed index names an existing vertex |
| InitialSphere.SubdivideInitially | w07/w07p04.js:100-104 | six steps from the base leave the vertex list and index list of level 6, with 4^7 vertices, three indices per vertex, and all indices valid |
| InitialSphere.InitialSphereShape | w07/w07p04.js:86-104 | after every start-up step all indices are valid; at the end there are 16384 vertices and 49152 indices |
| Clicks.Reset | w02/w02p03.js:43-47 | resetTriangleMode zeroes numPoints and empties both pending lists, keeps mode, `index`, background and buffers, and so keeps the invariant and the picture |
| Clicks.ModeChanged | w02/w02p03.js:49-51 | a mode change takes the new mode, forgets the pending corners and keeps `index`, background and buffers |
| Clicks.Cleared | w02/w02p03.js:106-112 | clear sets `index` to 0 and the new background color, forgets the pending corners and keeps mode and buffers |
| Clicks.Clicked | w02/w02p03.js:56-99 | a point click advances `index` by 6; a first or second triangle click advances it by 6 and appends the corner and its color; a third moves it to 3 past where the two markers began and forgets the corners; any other mode value changes nothing |
| Clicks.WrittenAt | w02/w02p03.js:69-70 | a writeBuffer at offset `at` changes exactly the entries at..at+n−1 to the written values |
| Clicks.ShownWrite | w02/w02p03.js:69-71 | writing at the cursor extends what is drawn by exactly the written vertices |
| Clicks.PointClick | w02/w02p03.js:65-71 | a point-mode click draws one 6-vertex marker at `index` and advances `index` by 6 |
| Clicks.CornerClick | w02/w02p03.js:74-96 | the first and second triangle clicks push the corner and color, increment numPoints, draw a marker and advance `index` by 6 |
| Clicks.ThirdCornerClick | w02/w02p03.js:78-88 | the third click writes the three corners over the two markers, sets `index` to 3 past where the markers began, and empties the pending lists |
| Clicks.TriangleFromThreeClicks | w02/w02p03.js:74-96 | three triangle clicks with nothing pending add exactly the triangle to the picture and advance `index` by 3 |
| Clicks.ClickKeepsValid | w02/w02p03.js:56-99 | every click keeps the invariant, so `index` never goes negative; a click in another mode changes nothing |
| Clicks.ModeChangeKeepsPicture | w02/w02p03.js:51 | a mode change empties the pending corners and keeps `index` and the picture |
| Clicks.ClearEmpties | w02/w02p03.js:106-112 | clear sets `index` to 0, empties the pending corners and the picture, and takes the new background color |
| Clicks.RunKeepsValid | w02/w02p03.js:36-112 | after any sequence of events numPoints is 0, 1 or 2, the pending lists have numPoints entries, and index ≥ 6 · numPoints |
| Clicks.ReachableValid | w02/w02p03.js:36-41 | every state reachable from the page's start satisfies the invariant |
| Clicks.ClickHandler.constructor | w02/w02p03.js:36-41 | the handler starts with `index` 0 and nothing pending |
| Clicks.ClickHandler.ResetTriangleMode | w02/w02p03.js:43-47 | resetTriangleMode zeroes numPoints, empties both pending lists and changes nothing else |
| Clicks.ClickHandler.ChangeMode | w02/w02p03.js:49-51 | the in-place mode change yields the state ModeChanged describes |
| Clicks.ClickHandler.ClearCanvas | w02/w02p03.js:106-112 | the in-place clear yields the state Cleared describes |
| Clicks.ClickHandler.Click | w02/w02p03.js:56-99 | the in-place click handler yields the state Clicked describes |
| Checkerboard.Patch | w06/w06p01.js:7-8 | for i < texSize the patch index lies in [0, count) |
| Checkerboard.PatchOfEvenSplit | w06/w06p01.js:7-8 | when texSize = count · w, the patch of texel i is i / w |
| Checkerboard.TexelColor | w06/w06p01.js:7-9 | a texel is white (255) exactly when its row patch and column patch differ in parity, and black (0) otherwise |
| Checkerboard.TextureByte | w06/w06p01.js:10-12 | byte k is the alpha 255 when k % 4 = 3, and otherwise the color of texel k / 4 in row-major order, so always 0 or 255 |
| Checkerboard.Texture | w06/w06p01.js:4 | the texture has 4 · texSize · texSize bytes |
| Checkerboard.ByteOffsetDecodes | w06/w06p01.js:10 | the offset 4(i · texSize + j) + channel lies in the texture and decodes back to the row, column and channel |
| Checkerboard.TexelLayout | w06/w06p01.js:5-12 | texel (i,j) occupies bytes 4(i · texSize + j) to 4(i · texSize + j) + 3, row-major: the color, then alpha 255 |
| Checkerboard.TexelGray | w06/w06p01.js:11-12 | the R, G and B bytes of every texel are equal and its alpha byte is 255 |
| Checkerboard.TexelWhiteIff | w06/w06p01.js:9 | the color byte is 255 exactly when the patch parities differ, and 0 otherwise |
| Checkerboard.PageTexture | w06/w06p01.js:87-88 | the page's 64×64 texture with 8×8 patches is white exactly where (i/8) and (j/8) differ in parity |
| Checkerboard.TexelWritten | w06/w06p01.js:10-12 | the four bytes written for texel (i,j) are the texture's bytes at that offset |
| Checkerboard.WriteTexel | w06/w06p01.js:11-12 | the four stores put the color into red, green and blue and 255 into alpha of one texel, and change no other byte |
| Checkerboard.FillRow | w06/w06p01.js:6-13 | the inner loop leaves every byte of rows 0..i equal to the texture's and every byte after row i as it was |
| Checkerboard.CreateCheckerboardTexture | w06/w06p01.js:3-16 | the nested loop returns a fresh array whose contents are exactly the texture |
| Mipmap.FloorLog2 | common/genmipmap.js:11 | r is the exponent with 2^r ≤ n < 2^(r+1) |
| Mipmap.FloorLog2Unique | common/genmipmap.js:11 | floor(log2 n) = r if and only if 2^r ≤ n < 2^(r+1) |
| Mipmap.FloorLog2Monotone | common/genmipmap.js:11 | a larger size never has a smaller floor(log2) |
| Mipmap.Largest | common/genmipmap.js:10 | Math.max returns an argument that no argument exceeds |
| Mipmap.NumMipLevels | common/genmipmap.js:8-12 | the count is positive if and only if some size is positive; every positive size is below 2^count; some size is at least 2^(count−1) |
| Mipmap.MipLevelsOfLargest | common/genmipmap.js:10 | the count depends only on the largest size |
| Mipmap.MipLevelsOrderFree | common/genmipmap.js:10 | argument lists holding the same sizes in any order give the same count |
| Mipmap.MipLevelsOfPowerOfTwo | common/genmipmap.js:11 | a largest size of 2^k gives k+1 levels |
| Mipmap.MipLevelsOfOne | common/genmipmap.js:11 | a largest size of 1 gives 1 level |
| Mipmap.MipLevelsMonotone | common/genmipmap.js:11 | the count is non-decreasing in the largest size, and at least 1 once it is positive |
| Mipmap.MipLevelsOf64 | common/genmipmap.js:11 | a 64×64 texture gets 7 levels |

## Left out

- GPU work is not modelled. That covers device and context setup, buffer and texture
  creation, pipelines, bind groups, render passes, `requestAnimationFrame`, the
  `generateMipmap` render passes, and the DOM wiring (the level read-out, the selectors).
  These are calls into the browser with no logic of their own.
- Floating-point geometry is not modelled. The midpoint `normalize(add(a, b))` is the
  caller-supplied `mid`, so unit length and degenerate midpoints are not provable. The
  marker corner coordinates of `add_point` are abstracted to "six marker vertices
  around the click". The mouse-position arithmetic is abstracted to an opaque position.
- Icosphere.SubdivideSphere: requires the index count to be a multiple of 3 and every
  index to name an existing vertex. The source checks neither; it would read past the
  index list (a fractional triangle count) or feed `undefined` to `add`. Every caller
  meets both (Levels.IndicesAtValid).
- Icosphere.SubdivideIndices: requires the index count to be a multiple of 3, for the
  same reason.
- Icosphere.CourseIndices: requires the index count to be a multiple of 12. Every list
  it is given is a refined one (Levels.CoarsenIndicesAt).
- The `Uint32Array` conversion is not modelled as a step. Indices are naturals, and
  Levels.IndicesAtFitUint32 shows that no index reaches 2^32 up to level 8.
- The w07 layout detail is not modelled: the sphere data is written after 4 background
  vertices and drawn with a base-vertex offset. That is GPU buffer placement.
- Clicks.Clicked: the mode selector's string value is compared with `==` in the
  source. The model takes the mode as an integer, and any value other than 0 or 1
  leaves the state unchanged, as the source's branches do.
- Clicks.Clicked: the position buffer is sized for `max_points` markers, and the
  handler never checks it. The model's buffers are unbounded maps, so a write past the
  capacity, which WebGPU would reject, is not modelled.
- Clicks: the mouse position and the selected color are parameters of a click. The
  bounding-rectangle arithmetic and the color table lookup are not modelled.
- Checkerboard.Patch: the source computes `Math.floor(i / (texSize / numRows))` in
  floating point. The model uses the exact value floor(i · numRows / texSize). They
  agree whenever the intermediate quotient is exact, as on the page (64 / 8). A
  rounding difference at a patch boundary for other sizes is not modelled.
- Checkerboard.CreateCheckerboardTexture: texSize is a natural. Fractional or negative
  sizes, which would make `new Uint8Array` throw or round, are not modelled.
- Checkerboard.FillRow is the inner loop of the source's nested loop, written as a
  method of its own; Checkerboard.WriteTexel holds the four byte stores of its body.
- Mipmap.NumMipLevels: the sizes are integers. `Math.log2` is exact on powers of two,
  and the model assumes it is also exact just below them, where a floating-point log2 of
  a very large size (near 2^53) could round up to the next integer. Fractional sizes and
  values that are not numbers are not modelled.
