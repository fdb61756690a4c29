# Random city generator — a verified model

The random city generator builds 3D city scenes out of individual building
models. It has two parts:

- The **building preprocessor** (`building_model_preprocess.py`) orients each
  building. It tries one rotation per hull edge i -> i+1 of the footprint's
  convex hull, leaving out the closing edge from the last vertex back to the
  first, and keeps the first one whose axis-aligned bounding box has strictly the least
  area. Then it moves the building so that the minimum corner of the winning
  outline lies at the origin.
- The **city generator** (`city_generator.py`) loads the buildings and drops
  the ones whose cached upper corner `max_` is below 4 m on some axis. It
  moves every kept building so that it starts at the origin and refreshes the
  cached corner. Then, for each scene:
  - it splits the 200 m square domain into an n0 x n1 grid of subsections,
    with 15 m lanes between them;
  - for each subsection, it walks the building pool from a global cursor that
    wraps around. Each candidate's footprint is padded by 10 m plus a random
    margin below 2 m. Candidates are admitted while the running total of
    padded areas fits the subsection's area. A candidate that does not fit
    is skipped when nothing is admitted yet; otherwise it ends the loop;
  - it gives the admitted rectangles to a rectangle packer. When the packer
    uses no bin, the last admitted rectangle is put at (0, 0);
  - it places a copy of each packed building centred in its rectangle and
    folds the rectangles' common extent up from `[0, 0, 0, 0]`;
  - it shifts the subsection's copies so that this extent is centred in the
    subsection, in coordinates centred on the domain;
  - it emits the copies with consecutive building numbers.

The model is in seven modules:

- `Bounds` covers per-axis minimum and maximum, shifting every coordinate
  by the same amount, and ground-plane points with their x and y columns.
- `Meshes` has a `Mesh` class. Its coordinate arrays are shifted in place. It
  also has the load filter and the load loop.
- `Orientation` covers the minimum-area orientation search and the final
  translation of the mesh.
- `Tiling` covers the subsection grid.
- `Admission` covers the admission loop, as a function with explicit fuel.
- `Placement` covers the packer's answer, placement of the copies, the
  extent, centring and emission.
- `Scenes` has a `Generator` class. It holds the pool, the random draws, the
  packer, the global cursor and the number of draws taken. Its methods are
  the admission loop, one subsection, one scene and the scene loop. Each is
  proved against the functions above.

The empty-scene warning in `city_generator.py` (lines 169-170) is never
printed:

- every finished subsection admits at least one rectangle;
- the packer's fallback keeps one placement when no bin is used;
- so every finished scene emits at least one building.

This is stated by `Scenes.SceneNeverEmpty` and `Scenes.RunScenesNonEmpty`. The
scene loop `Scenes.Generator.GenerateScenes` states that its list of warned
scenes is empty. A subsection too small for any building does not produce an
empty scene. Instead, its admission loop never ends; `Admission.AdmitStuck`
states this.

## Model

| member | source | states |
|---|---|---|
| Bounds.MinProperties | city_generator.py:59-60 | `np.min` of a non-empty vector is one of its elements and a lower bound of all of them |
| Bounds.MaxProperties | city_generator.py:63-64 | `np.max` of a non-empty vector is one of its elements and an upper bound of all of them |
| Bounds.ShiftedToZero | city_generator.py:59-64 | after `a -= np.min(a)` the vector starts at 0, and its maximum is its former width |
| Bounds.ShiftedMin | city_generator.py:59-60 | shifting every coordinate by d moves the minimum by d |
| Bounds.ShiftedMax | city_generator.py:63-64 | shifting every coordinate by d moves the maximum by d |
| Bounds.MinSnoc | city_generator.py:146-149 | folding one more value into a running minimum with `if v < m: m = v` gives the minimum of the longer sequence |
| Bounds.MaxSnoc | city_generator.py:150-153 | folding one more value into a running maximum with `if v > m: m = v` gives the maximum of the longer sequence |
| Meshes.Mesh.Translate | building_model_preprocess.py:83-84 | `stl_mesh.x -= ...; stl_mesh.y -= ...` moves every vertex by the same (dx, dy) in place |
| Meshes.ShiftAxisToOrigin | city_generator.py:59-64 | one axis is shifted in place by minus its old minimum; it then starts at 0, and the returned maximum is the old width |
| Meshes.Mesh.ShiftToOrigin | city_generator.py:58-64 | both ground axes start at 0, the cached corner `max_[0]`, `max_[1]` holds the new maxima, and `max_[2]` is unchanged |
| Meshes.LoadedAtOrigin | city_generator.py:58-64 | a loaded mesh starts at 0 on both ground axes, and its cached corner is its far corner, which is never negative |
| Meshes.LoadPool | city_generator.py:48-66 | the pool is exactly the meshes passing the filter `not any(max_ < 4)`, in their order; each kept mesh is shifted to the origin; rejected meshes are left untouched |
| Orientation.BoundingBox | building_model_preprocess.py:52-54 | the per-axis min and max of the outline enclose every point and are attained by some point |
| Orientation.Area | building_model_preprocess.py:54 | the bounding-box area is never negative |
| Orientation.RotatedByIdentity | building_model_preprocess.py:56-57 | the starting matrix `np.eye(2)` leaves the outline unchanged |
| Orientation.BestMinimal | building_model_preprocess.py:71-75 | the kept area is no larger than the starting area or the area of any candidate looked at |
| Orientation.BestOutcome | building_model_preprocess.py:71-75 | with the strict `<`, the kept choice is either the start, when no candidate is strictly smaller, or the first candidate of least area |
| Orientation.SearchOutcome | building_model_preprocess.py:51-75 | the search keeps the unrotated outline with the identity matrix exactly when no edge is strictly smaller; otherwise it keeps the first edge of least area |
| Orientation.SearchProperties | building_model_preprocess.py:51-75 | the result's area is the minimum over the start and all edges; it is the bounding-box area of the kept outline, which is the hull rotated by the kept matrix |
| Orientation.SearchReadsOpenEdges | building_model_preprocess.py:60-62 | the result depends only on the angles of edges i -> i+1 with i < len - 1 |
| Orientation.MinAreaOrientation | building_model_preprocess.py:51-75 | the search loop returns the search's result, with the minimality and consistency properties above |
| Orientation.AlignedToOrigin | building_model_preprocess.py:78-84 | subtracting `np.min(min_outline, axis=0)` leaves every coordinate non-negative, with 0 reached on each axis |
| Orientation.AlignMesh | building_model_preprocess.py:51-84 | the mesh's ground coordinates are shifted in place by minus the minimum corner of the winning outline |
| Tiling.TilingExact | city_generator.py:79-80 | n cells of side `(domain - (n-1)*lane)/n` and n - 1 lanes fill the side exactly |
| Tiling.RowsLength | city_generator.py:83-86 | the grid has n0 * n1 subsections |
| Tiling.RowsCell | city_generator.py:83-86 | cell (i, j), with origin `(i*(length+lane), j*(width+lane))`, is entry `i*n1 + j` of `sub_areas` |
| Tiling.AppendRow | city_generator.py:85-86 | the inner loop appends exactly row i |
| Tiling.SubAreas | city_generator.py:79-86 | the nested loops build exactly the grid, row by row |
| Tiling.CellInDomain | city_generator.py:79-86 | every cell lies inside [0, domain] x [0, domain] when the lanes fit |
| Tiling.NeighboursOneLaneApart | city_generator.py:86 | neighbouring cells are exactly one lane apart along either axis |
| Tiling.CellsApart | city_generator.py:86 | two different cells are separated by at least a lane along some axis |
| Admission.Next | city_generator.py:111-115 | the cursor advance with reset at the end is `(c + 1) mod len` and stays in the pool |
| Admission.AdmitFrom | city_generator.py:103-124 | a finished loop has a non-empty list extending the one it started from, has taken at least one draw, and leaves the cursor in the pool |
| Admission.AdmitWithinBudget | city_generator.py:103-120 | the admitted total never exceeds the subsection's area |
| Admission.AdmitTotal | city_generator.py:103-120 | `total_area` is the sum of the admitted rects' areas |
| Admission.AdmitPadded | city_generator.py:106-120 | every admitted rect is its pool entry's extent plus 10 plus a margin in [0, 2) on each side |
| Admission.AdmitChained | city_generator.py:119-124 | once a rect is admitted, consecutive rects come from consecutive pool entries (wrapping), and the cursor ends just past the last one |
| Admission.AdmitStopsAtOverflow | city_generator.py:109-117 | the loop ends only at a candidate, drawn with the last draw, that would push the total over the area |
| Admission.AdmitMoreFuel | city_generator.py:105 | bounding the iterations only cuts the loop short: a finished run ends the same way with more iterations |
| Admission.AdmitStuck | city_generator.py:109-115 | when no pool entry fits even with zero margin, nothing is ever admitted and the loop runs for as long as it is allowed |
| Placement.PlacementsFromRects | city_generator.py:132-136 | whatever the packer answers, `packer_res` is non-empty, and each entry has the size and id of an admitted rect |
| Placement.PlacedIdsBelow | city_generator.py:134-140 | every placement names a pool entry |
| Placement.FallbackInBin | city_generator.py:133-134 | the fallback placement lies in the bin exactly when the last admitted rect fits it |
| Placement.BuildingCentredInRect | city_generator.py:140-145 | each copy's footprint has the centre of its rect, and it keeps half the padding clear on every side |
| Placement.ExtentEncloses | city_generator.py:132-153 | `area_bound` encloses every placed rect and the point (0, 0) |
| Placement.ExtentAttained | city_generator.py:132-153 | each side of `area_bound` is 0 or a side of some placed rect |
| Placement.ExtentInBin | city_generator.py:132-153 | when every placement is in the bin, `area_bound` starts at (0, 0) and stays in the bin |
| Placement.ExtentStep | city_generator.py:146-153 | one iteration folds the next rect into each side of `area_bound` |
| Placement.PlaceAll | city_generator.py:139-155 | the loop places one copy per packed rect, in order, and leaves `area_bound` equal to the extent of all placements |
| Placement.ClusterCentred | city_generator.py:158-164 | the shifted extent has the centre of the subsection, in coordinates centred on the domain |
| Placement.EmitAll | city_generator.py:162-167 | every copy gets the same shift and is emitted in order; `building_idx` grows by the number of copies; `saved` is set once one is emitted |
| Placement.Layout | city_generator.py:139-164 | a subsection emits one building per placement, with that placement's pool id |
| Placement.LayoutInSubsection | city_generator.py:139-164 | when the packer placed padded rects in the bin, every emitted building lies inside its subsection |
| Scenes.SubsectionLayout | city_generator.py:127-167 | every subsection with admitted rects emits at least one building |
| Scenes.SceneFrom | city_generator.py:92-167 | the subsections of a scene, visited in order, leave the cursor in the pool |
| Scenes.SceneNeverEmpty | city_generator.py:88-170 | a finished scene with at least one subsection emits at least one building, so `saved` is set |
| Scenes.GridInDomain | city_generator.py:73-86 | for 1 or 2 subsections per axis, every subsection lies in the domain |
| Scenes.SubsectionInsideDomain | city_generator.py:127-164 | when the packer uses its bin, or the last admitted rect fits the bin so the fallback placement is inside it, every building of a subsection lies inside [-100, 100]^2 |
| Scenes.SceneInsideDomain | city_generator.py:92-164 | when the draws are in [0, 1) and every pool entry with the largest padding fits every subsection, every building of a finished scene lies inside [-100, 100]^2 |
| Placement.NoBinPackerSound | city_generator.py:133-134 | the packer assumption can be met: a packer that never uses a bin, so that the fallback is always taken, satisfies it |
| Scenes.RunFrom | city_generator.py:72-170 | a run that finishes has one scene per drawn grid shape, and leaves the cursor in the pool |
| Scenes.RunScenesNonEmpty | city_generator.py:72-170 | every scene of a run has at least one building |
| Scenes.GridNonEmpty | city_generator.py:83-86 | a grid of at least 1 x 1 has a subsection |
| Scenes.Generator.constructor | city_generator.py:66-71 | given meshes loaded at the origin (as `Meshes.LoadPool` and `Meshes.LoadedAtOrigin` leave them), the generator starts with their cached `max_[:2]` as its pool, in order, and the cursor `global_index = 0` |
| Scenes.Generator.AdmitRects | city_generator.py:102-124 | the admission loop, with the cursor in the generator, returns what `Admit` computes and leaves the cursor and draw count where it does |
| Scenes.Generator.LayoutSubsection | city_generator.py:126-167 | packing, placement, centring and emission give exactly `SubsectionLayout` and advance `building_idx` and `saved` |
| Scenes.Generator.VisitSubsections | city_generator.py:88-167 | the subsection loop gives exactly `SceneFrom`; `building_idx` counts the emitted buildings, and `saved` is set exactly when one was emitted |
| Scenes.Generator.GenerateScene | city_generator.py:78-170 | one scene is `SceneFrom` over the grid; a finished scene always has `saved` set |
| Scenes.Generator.GenerateScenes | city_generator.py:70-170 | the scene loop gives exactly `RunFrom`, carrying the cursor and draws from scene to scene, and never records an empty-scene warning |

## Left out

- Reading and writing STL files, directory listing, folder creation and the
  progress bar are left out. A mesh is its two ground-coordinate arrays and
  its cached upper corner.
- The `copy.deepcopy` of a pool mesh is left out. An emitted building is the
  pool index with the translation applied to its copy. Pool meshes start at
  the origin, so this determines the copy's coordinates.
- The rectangle packer `rectpack` (`MaxRectsBlsf`, best long side fit, no
  sorting, `BBF` bin selection) is a
  function parameter. Layout properties assume that a used bin holds at
  least one rectangle and that every rectangle lies in the bin with the size
  and id of a submitted one. Whether rectpack meets this is outside the
  model.
- The preprocessor's inputs are left out: `np.unique` over the vertices and
  the `scipy` `ConvexHull`. The hull's vertices are an input sequence.
- The trigonometry is left out: `np.arctan`, `np.cos` and `np.sin` are the
  parameter `trig`, which maps an edge vector to its angle's cosine and sine.
  A vertical edge divides by zero in the source. This is outside the model,
  whatever `trig` returns.
- The rotation of the mesh itself is left out: `stl_mesh.rotate` at
  building_model_preprocess.py:80 and the random quarter-turn at
  city_generator.py:55-56. `Orientation.AlignMesh` applies only the
  translation, and the load step shifts the coordinates it is given.
- Floating point is left out. All coordinates are exact reals.
- Randomness is left out. `random.shuffle` at line 68 is left out: the pool
  order is an input. The numpy draws are split into two inputs:
  - the jitter pairs are an infinite stream indexed by a draw counter;
  - the grid shapes are a sequence of shapes.

  Each admission attempt takes one jitter pair, including the attempt that
  ends the loop. The interleaving of shape draws and jitter draws in one
  numpy stream is not modelled.
- Admission.AdmitFrom: the `while True` loop is bounded by a fuel count. An
  exhausted fuel is reported as `OutOfFuel`, and the scene as `Spinning`. A
  loop that never ends is therefore modelled as one that runs out of every
  fuel (`Admission.AdmitStuck`).
- Scenes.GridInDomain: stated for 1 or 2 subsections per axis, the range
  `np.random.randint(1, 3)` draws from. The generator's methods accept any
  count of at least 1.
- The load filter reads the cached corner `max_`, as the source does, not
  the extent of the coordinates.
- Scenes.Generator.constructor: requires a non-empty pool. When the load
  filter rejects every file, `mesh_list` is empty, and the source raises
  `IndexError` at `mesh_list[global_index]` (city_generator.py:106) in the
  first subsection. That crash is not modelled.
- Scenes.SceneInsideDomain: assumes that every pool entry, padded by the
  spacing and the largest margin (12 m), fits every subsection. This is what
  guarantees that the packer's fallback placement lies in the bin. Without
  it the fallback rect can stick out of its subsection, and the source does
  not guard against that. With a packer that uses its bin, the per-subsection
  `Scenes.SubsectionInsideDomain` needs no such assumption.
- tools/match_scale.py is not part of this model.
