# ikon.graph in Dafny

A model of the core of ikon.graph, a browser renderer for large graphs in 3D.
A graph of nodes (key, position, colour, size, and the hovered, highlighted and
selected flags) and edges (key, source and target node indices, width and
opacity) is stored in float textures. Vertex shaders read from those textures,
so that moving or restyling a node never rebuilds geometry. The model covers:

- the **force layouts**:
  - the mass-weighted edge-list engine (`Simulation`);
  - the dense CPU engine (`CpuSimulation`);
  - the fragment-shader engine (`GpuSimulation`);
  - the adjacency and weight matrices the dense engines share (`Adjacency`);
  - the gravity and integration step they share (`Physics`);
- the **texture layout**: the power-of-two side, row-major texels, and
  nearest/clamp-to-edge fetches (`TextureLayout`);
- the **node flag bit mask** and its float decoding in the shaders (`NodeFlags`);
- **`LatticeMesh`**:
  - creating the textures from a graph;
  - index lookup by key;
  - `diff` and `patch`;
  - the vertex fetch;
- what the **shaders** compute from the textures (`NodeShaders`, `EdgeShaders`);
- the three **label layers**:
  - the bitmap atlas (`BMLabels`);
  - the HTML overlay (`HTMLLabels`);
  - the 2D-canvas overlay (`CanvasLabels`);
- the **pointer controls** (`Hover`, `LatticeControls`, `GraphControls`);
- the **observer proxy** (`Watch`);
- the **component** that ties the simulation to the mesh (`GraphComponent`);
- the **application's graph preparation** (`App`).

Modelling conventions:

- **Numbers.** Numbers are `real`. `Math.fround` (the rounding on a write to a
  `Float32Array`) is a parameter `fr: real -> real`, so every statement about
  stored values holds for any rounding. Integer indices are `nat`. Where the
  source wraps a value, the wrap is written out: `Uint16Array` index buffers
  and GLSL `int()` truncation.
- **Textures.** A texture is a `seq` of texels with its side length. A shader
  fetch is a function of the texel index, and the fetch clamps to the edge as
  WebGL does.
- **Errors.** A JavaScript `throw` (an edge whose endpoint is out of range,
  `reduce` on an empty array, a listener raycasting against a missing `points` child) is an `Err` or
  `Threw` value, never a precondition.
- **Controls.** Each pointer event is an input value that carries the index of
  the first ray hit.
- **Render loop.** Each `requestAnimationFrame` callback is one call of a
  frame function.

## Model

| member | source | states |
|---|---|---|
| Physics.GravityPull | src/simulation/Simulation.js:30-39 | gravity points from the node toward the origin, and its component along the position is `-gravity * ‖pos‖²`: a pull toward the centre, never a push |
| Physics.IntegrateOrder | src/simulation/Simulation.js:94-107 | the velocity absorbs the force before damping, and the position moves by the damped new velocity; with damping 1 the step is exactly `v += f; p += v` |
| Physics.LoneNodeUnderGravity | src/simulation/Simulation.js:29-107 | a resting node with nothing else acting moves to `p·(1 - gravity·dampening)`, so its distance to the centre shrinks by a fixed factor |
| Simulation.Create | src/simulation/Simulation.js:4-13 | a new engine keeps the nodes, edges and coefficients it was given and starts paused |
| Simulation.SharesSplitForce | src/simulation/Simulation.js:61-64 | an edge's two shares add up to the edge force and are inversely proportional to the endpoint masses (`share₁·m₁ = share₂·m₂`) |
| Simulation.SharesNet | src/simulation/Simulation.js:61-64 | the source loses its share and the target gains its share, so the net change equals the edge force minus twice the source share |
| Simulation.Attract | src/simulation/Simulation.js:42-65 | applying one edge touches only its two endpoints; every other node's force is unchanged |
| Simulation.SelfLoopInert | src/simulation/Simulation.js:52-64 | an edge from a node to itself leaves every force unchanged |
| Simulation.AttractBalanced | src/simulation/Simulation.js:59-64 | one edge preserves the mass-weighted sum of forces (momentum balance of the spring) |
| Simulation.AttractNet | src/simulation/Simulation.js:61-64 | the plain sum of forces changes by exactly the difference of the two shares |
| Simulation.AttractAllBalanced | src/simulation/Simulation.js:42-65 | the whole edge loop preserves the mass-weighted sum of forces, whatever the edges |
| Simulation.RepelBalanced | src/simulation/Simulation.js:76-81 | one repelling pair adds equal and opposite forces: the sum of forces is unchanged |
| Simulation.RepelInnerBalanced | src/simulation/Simulation.js:69-82 | the inner pair loop leaves the sum of forces unchanged |
| Simulation.RepelOuterBalanced | src/simulation/Simulation.js:68-83 | the full repulsion double loop leaves the sum of forces unchanged |
| Simulation.RepulsionPerNode | src/simulation/Simulation.js:68-83 | after the double loop each node has received exactly one push from every other node (the loop over `i < j` visits each unordered pair once and serves both ends) |
| Simulation.RepelIsPush | src/simulation/Simulation.js:70-81 | the force the loop adds for the pair `(s, t)` is `t`'s push on `s` on one side and `s`'s push on `t` on the other |
| Simulation.Step | src/simulation/Simulation.js:22-108 | succeeds exactly when every edge names existing nodes; otherwise it reports the first edge that does not; on success it keeps the edges, masses, coefficients and the paused flag |
| Simulation.ForceBalance | src/simulation/Simulation.js:25-83 | springs preserve the mass-weighted sum of the gravity forces, and repulsion adds nothing to the plain sum |
| Simulation.Frame | src/simulation/Simulation.js:15-20 | a paused engine's frame changes nothing; a running engine's frame is one step |
| Adjacency.ClampWeight | src/simulation/CPUSimulation.js:19 | a stored weight is never negative and equals the edge weight unless that was negative |
| Adjacency.Connect | src/simulation/CPUSimulation.js:18-22 | linking an edge writes the same attributes in both directions and leaves every other cell unchanged |
| Adjacency.Fill | src/simulation/CPUSimulation.js:16-22 | filling from the edge list yields a square `n × n` matrix |
| Adjacency.FirstOutOfRange | src/simulation/CPUSimulation.js:18-22 | finds the first edge whose endpoint is not a node, or reports that all are in range |
| Adjacency.BuildAdjacency | src/simulation/CPUSimulation.js:14-22 | builds the matrix exactly when every endpoint is a node; otherwise it names the first edge that throws |
| Adjacency.FillLastWins | src/simulation/CPUSimulation.js:18-22 | each cell holds the clamped weight of the LAST edge joining its two nodes in either direction, or nothing |
| Adjacency.AdjacencyEntry | src/simulation/CPUSimulation.js:18-22 | the built matrix's cell is the last-linking edge's clamped weight |
| Adjacency.LastLinkSymmetric | src/simulation/CPUSimulation.js:20-21 | the last edge joining `i` and `j` is the last edge joining `j` and `i` |
| Adjacency.AdjacencySymmetric | src/simulation/CPUSimulation.js:18-22 | the adjacency matrix is symmetric and its weights are non-negative |
| Adjacency.WeightsAt | src/simulation/CPUSimulation.js:34-41 | the flat weight list at `i*n + j` is 0 on the diagonal and the cell's weight (0 when empty) elsewhere |
| Adjacency.WeightMatrix | src/simulation/CPUSimulation.js:34-41 | the flat weights are symmetric (`w[i*n+j] = w[j*n+i]`), non-negative, and equal the last linking edge's clamped weight |
| CpuSimulation.Create | src/simulation/CPUSimulation.js:4-53 | succeeds exactly when the adjacency can be built; it then holds the graph's positions, zero velocities and the flat weight matrix |
| CpuSimulation.SpringAntisymmetric | src/simulation/CPUSimulation.js:59-78 | with symmetric weights, the spring `i → j` is the negation of the spring `j → i` |
| CpuSimulation.SpringForcesCancel | src/simulation/CPUSimulation.js:59-94 | with symmetric weights, the springs' contributions to all nodes sum to zero |
| CpuSimulation.CopyBack | src/simulation/CPUSimulation.js:127-131 | copying back writes each simulated position into its graph node and leaves every other attribute unchanged |
| CpuSimulation.Step | src/simulation/CPUSimulation.js:55-132 | a step keeps the node count, weights, edges and coefficients, and leaves the graph nodes at the new positions |
| CpuSimulation.StepMomentum | src/simulation/CPUSimulation.js:55-124 | with symmetric weights, the total velocity after a step is the damped total of the old velocities plus the gravity forces: springs add no net momentum |
| CpuSimulation.CreatedWeightsSymmetric | src/simulation/CPUSimulation.js:18-41 | the created weight matrix is symmetric with a zero diagonal |
| CpuSimulation.SingleNodeStep | src/simulation/CPUSimulation.js:96-124 | a lone resting node moves to `p·(1 - gravity·dampening)` |
| GpuSimulation.Clamp01 | src/simulation/GPUSimulation.js:251 | the shader's `clamp(weight, 0, 1)` lies in `[0, 1]` and is the identity there |
| GpuSimulation.AccumulateStep | src/simulation/GPUSimulation.js:215-252 | each loop iteration adds the repulsion and attraction of partner `n2` when it is not too close, and skips it otherwise |
| GpuSimulation.ContributeFar | src/simulation/GPUSimulation.js:231-251 | a partner far enough away adds `v·repulsion/‖v‖² + v·attraction·w` |
| GpuSimulation.TexelForce | src/simulation/GPUSimulation.js:198-255 | a texel at or past the loop bound receives gravity alone |
| GpuSimulation.ForcePass | src/simulation/GPUSimulation.js:166-261 | the force texture holds, for every texel, gravity plus the loop over partners `0..439` with the hard-coded weight stride 440 |
| GpuSimulation.Compute | src/simulation/GPUSimulation.js:166-365 | a compute call keeps the texture sizes, weights and coefficients, and on the 0×0 textures of an empty graph changes nothing |
| GpuSimulation.ComputeIntegrates | src/simulation/GPUSimulation.js:263-364 | every texel's new position and velocity are the shared integration of its force with the fixed decay 0.9 |
| GpuSimulation.GravityLeak | src/simulation/GPUSimulation.js:212-254 | texels past the bound still get a gravity force, so a resting padding texel at the origin stays there |
| GpuSimulation.CoefficientsIgnored | src/simulation/GPUSimulation.js:170-179 | the constructor's attraction, repulsion, gravity and dampening have no effect on `compute`, which uses literal uniforms |
| GpuSimulation.Create | src/simulation/GPUSimulation.js:21-141 | succeeds exactly when the adjacency can be built; the position texture side fits `n` texels and the weight texture side fits `n²` texels; with no nodes both textures are 0×0 (`2^ceil(log2 0)` is `2^-Infinity`, that is 0) |
| GpuSimulation.CreateLayout | src/simulation/GPUSimulation.js:3-77 | the created textures hold the graph's positions (then zeros), zero velocities and the flat weight matrix (then zeros) |
| GpuCorrection.BoundedForcePass | src/simulation/GPUSimulation.js:212-252 | the force pass with the loop bound and the weight stride both set to the node count |
| GpuCorrection.BoundedCompute | src/simulation/GPUSimulation.js:263-364 | the compute pipeline built on the bounded force pass integrates each texel as the written pipeline does |
| GpuCorrection.AsWrittenAt440 | src/simulation/GPUSimulation.js:212-252 | with exactly 440 nodes the written pass and the bounded pass coincide |
| GpuCorrection.MirroredPartner | src/simulation/GPUSimulation.js:215-251 | when the textures mirror a CPU engine, each shader iteration adds that engine's spring for the pair |
| GpuCorrection.MirroredReads | src/simulation/GPUSimulation.js:200-245 | the shader's texture reads of `pos`, `P2` and the weight return the CPU engine's values |
| GpuCorrection.SpringContribution | src/simulation/GPUSimulation.js:231-251 | with the literal coefficients, one shader contribution is the CPU spring between the two nodes |
| GpuCorrection.LoopMatchesStep | src/simulation/GPUSimulation.js:215-252 | one more iteration keeps the shader accumulator equal to the CPU partial row sum |
| GpuCorrection.AccumulateMatchesCpu | src/simulation/GPUSimulation.js:215-252 | the bounded loop's total is gravity plus the CPU spring row sum |
| GpuCorrection.BoundedForceMatchesCpu | src/simulation/GPUSimulation.js:198-255 | with the textures mirroring the CPU engine, the CPU engine set to the shader's literal coefficients, every two nodes at least 0.01 apart and every weight in [0, 1], the bounded force pass gives exactly the CPU engine's force on each real node |
| GpuCorrection.BoundedComputeNode | src/simulation/GPUSimulation.js:263-364 | with the textures mirroring the CPU engine, the CPU engine set to the shader's literal coefficients and dampening 0.9, every two nodes at least 0.01 apart and every weight in [0, 1], the bounded compute gives the CPU engine's next position and velocity for each real node |
| GpuCorrection.BoundedPaddingRests | src/simulation/GPUSimulation.js:212-254 | a resting padding texel at the origin stays at rest under the bounded compute |
| GpuCorrection.BoundedComputeMatchesCpu | src/simulation/GPUSimulation.js:166-364 | with the textures mirroring the CPU engine, the CPU engine set to the shader's literal coefficients and dampening 0.9, every two nodes at least 0.01 apart and every weight in [0, 1], the bounded GPU step agrees with the CPU step on every node, and resting padding stays at rest |
| GpuCorrection.BoundedPaddingStays | src/simulation/GPUSimulation.js:212-254 | every resting padding texel stays at rest under the bounded compute |
| GpuCorrection.ContributePadding | src/simulation/GPUSimulation.js:226-237 | a padding texel read back as the origin pushes the node away from the origin |
| GpuCorrection.PaddingRun | src/simulation/GPUSimulation.js:215-252 | a run of iterations that read the origin adds one padding push per iteration |
| GpuCorrection.ClampedTail | src/simulation/GPUSimulation.js:226-229 | an index past the texture reads a texel in its last row |
| GpuCorrection.TwoNodesRealPart | src/simulation/GPUSimulation.js:215-252 | for the two-node graph the first two iterations give node 0 the force `(-0.08, 0, 0)` |
| GpuCorrection.TwoNodesAsWritten | src/simulation/GPUSimulation.js:212-252 | for the two-node graph the written pass gives node 0 the force `(65.62, 0, 0)` |
| GpuCorrection.TwoNodesDisagree | src/simulation/GPUSimulation.js:212-252 | the written pass and the bounded pass disagree on the two-node graph |
| GpuCorrection.TwoNodesCreate | src/simulation/GPUSimulation.js:21-77 | the constructor builds the two-node textures the findings use |
| TextureLayout.SideFrom | src/simulation/GPUSimulation.js:5 | doubling from a power of two stops at the least power of two whose square holds the values |
| TextureLayout.TextureSide | src/simulation/GPUSimulation.js:5 | the side is the smallest power of two whose square holds `count/itemSize` texels; for no values it is 0 |
| TextureLayout.CreateMap | src/simulation/GPUSimulation.js:3-18 | the texture holds the values in order at the start of its data, followed by zero padding up to `side²·itemSize` |
| TextureLayout.NearestTexel | src/simulation/GPUSimulation.js:13-14 | nearest filtering with clamp to edge picks an existing texel |
| TextureLayout.RowMajorInverse | src/simulation/GPUSimulation.js:226-227 | splitting the index `row·cols + col` by `cols` recovers its row and its column |
| TextureLayout.CentreSample | src/simulation/GPUSimulation.js:228-229 | sampling at a texel's centre selects that texel, and clamps past the edge |
| TextureLayout.CornerSample | src/simulation/GPUSimulation.js:242-245 | sampling at a texel's lower corner also selects that texel, and clamps past the edge |
| TextureLayout.ClampedIndex | src/simulation/GPUSimulation.js:226-229 | a fetch of an index inside the texture returns that texel; past it, some texel inside |
| TextureLayout.FetchCentre | src/simulation/GPUSimulation.js:226-229 | the shader's row-major centre fetch returns the texel at the clamped index |
| TextureLayout.FetchCorner | src/lattice/LatticeMesh.js:51-65 | the vertex fetch at texel corners returns the texel at the clamped index |
| TextureLayout.SelfIndex | src/simulation/GPUSimulation.js:207-210 | the index the fragment computes from its own `vUv` is its texel's row-major index |
| TextureLayout.PositionTextureSide | src/simulation/GPUSimulation.js:80 | the node texture's side, computed from `n` texels, equals the position map's side, computed from `3n` floats of three per texel |
| Vectors.SumAddAt | src/simulation/Simulation.js:61-64 | adding `v` to one element adds `v` to the sum |
| Vectors.Flatten | src/lattice/LatticeMesh.js:359 | flattening `[x, y, z]` triples keeps each node's coordinates at `3i`, `3i+1` and `3i+2` |
| NodeFlags.MaskOf | src/lattice/LatticeMesh.js:383-389 | the mask has only the three flag bits, and reading the bits back gives the three flags |
| NodeFlags.SetBit | src/lattice/LatticeMesh.js:503-523 | setting or clearing one flag bit changes that bit to the requested value and no other bit |
| NodeFlags.SetBitInRange | src/lattice/LatticeMesh.js:503-523 | setting one of the three flags keeps the mask within three bits |
| NodeFlags.DecodeNat | src/lattice/node/Spheres.js:63-65 | the shader's `floor(mod(f / 2ᵏ, 2))` decoding of an integer `n` gives its low three bits |
| NodeFlags.DecodeMatchesBits | src/lattice/node/Spheres.js:63-65 | the float decode of a three-bit mask gives the mask's bits |
| NodeFlags.DecodeRoundTrip | src/lattice/node/Points.js:54-56 | encoding three flags as a mask and decoding it in a shader gives back the three flags |
| LatticeMesh.UnflattenPrefix | src/lattice/LatticeMesh.js:192-201 | chunking a prefix gives chunks of `n` (the last possibly shorter) whose concatenation is the prefix; a zero width fails |
| LatticeMesh.Unflatten | src/lattice/LatticeMesh.js:192-201 | concatenating the chunks gives back the flat list; only a width of 0 with values fails |
| LatticeMesh.IndexOf | src/lattice/LatticeMesh.js:291-297 | the key's index is -1 exactly when the key is absent, and otherwise the LAST position holding it (a `Map` built from entries keeps the last) |
| LatticeMesh.IndexOfDistinct | src/lattice/LatticeMesh.js:291-293 | with distinct keys, the lookup inverts the key list |
| LatticeMesh.IndexOfDuplicate | src/lattice/LatticeMesh.js:291-293 | a duplicated key resolves to its later occurrence |
| LatticeMesh.CreateMaps | src/lattice/LatticeMesh.js:341-428 | the node textures share one side and the edge textures share another, each big enough for its data |
| LatticeMesh.CreatedStored | src/lattice/LatticeMesh.js:358-394 | texel `i` holds node `i`'s rounded position, colour and size, and the mask of its three flags |
| LatticeMesh.CreatedWidth | src/lattice/LatticeMesh.js:398-404 | the edge-width texture holds each edge's rounded width |
| LatticeMesh.CreatedTextured | src/lattice/LatticeMesh.js:341-428 | the created textures have the row-major shape the shaders read |
| LatticeMesh.Create | src/lattice/LatticeMesh.js:204-289 | the mesh keeps its graph, indexes its node and edge keys in order, and starts with no highlight |
| LatticeMesh.NodeDiff | src/lattice/LatticeMesh.js:437-478 | a node reports a position exactly when its rounded position differs from the stored one, and reports `hovered` exactly when it differs from the stored bit; a highlighted node always reports highlight |
| LatticeMesh.NodeDiffs | src/lattice/LatticeMesh.js:431-478 | the diff lists changed node indices in increasing order |
| LatticeMesh.NodeDiffsLookup | src/lattice/LatticeMesh.js:431-478 | the diff has an entry for node `i` exactly when its comparison found a change, and it holds that change |
| LatticeMesh.EdgeDiffs | src/lattice/LatticeMesh.js:480-487 | the edge diff lists changed edge indices in increasing order |
| LatticeMesh.EdgeDiffsLookup | src/lattice/LatticeMesh.js:480-487 | the edge diff has an entry for edge `i` exactly when its rounded width differs from the stored width |
| LatticeMesh.Diff | src/lattice/LatticeMesh.js:431-490 | both halves of the diff are index-ordered maps |
| LatticeMesh.PatchNode | src/lattice/LatticeMesh.js:502-550 | patching a node keeps every texture's size and leaves the edge textures alone |
| LatticeMesh.PatchNodeStored | src/lattice/LatticeMesh.js:502-550 | patching node `i` applies the change to texel `i` and leaves every other texel as it was |
| LatticeMesh.PatchNodesStored | src/lattice/LatticeMesh.js:502-550 | each node's texel ends as its stored value updated by that node's entry, if it has one |
| LatticeMesh.PatchEdgesAt | src/lattice/LatticeMesh.js:553-558 | each edge-width texel ends as the rounded width of its entry, or unchanged without one |
| LatticeMesh.Patch | src/lattice/LatticeMesh.js:497-559 | a patch changes only the textures, keeps their sizes and shapes, and never touches edge opacity |
| LatticeMesh.PatchStored | src/lattice/LatticeMesh.js:497-559 | a patch applies each node entry to its own texel |
| LatticeMesh.PatchFlagBits | src/lattice/LatticeMesh.js:503-523 | each flag present in the change sets its bit to the given value, and each absent flag keeps its bit |
| LatticeMesh.DiffAfterPatch | src/lattice/LatticeMesh.js:440-533 | after patching with its own diff, the stored position is the node's rounded position and the hovered and highlighted bits match the node |
| LatticeMesh.EdgeDiffAfterPatch | src/lattice/LatticeMesh.js:483-557 | after patching with its own diff, each edge's stored width is its rounded width |
| LatticeMesh.DiffOfCreated | src/lattice/LatticeMesh.js:358-477 | a freshly created mesh reports no position and no hover change for any node |
| LatticeMesh.PullFloat | src/lattice/LatticeMesh.js:51-65 | the vertex fetch of a one-channel texture returns the value stored at the index |
| LatticeMesh.PullVec3 | src/lattice/LatticeMesh.js:51-65 | the vertex fetch of a three-channel texture returns the triple stored at the index |
| LatticeMesh.PulledIsStored | src/lattice/LatticeMesh.js:51-65 | what a shader pulls for node `i` is exactly what the textures store for it |
| LatticeMesh.FlagsSyncedAfterPatch | src/lattice/LatticeMesh.js:466-523 | after patching with its own diff, the stored mask encodes the node's three flags |
| NodeShaders.SphereLook | src/lattice/node/Spheres.js:69-80 | a hovered or highlighted node is white and opaque; otherwise it keeps its colour and fades to 0.1 exactly when some node is highlighted |
| NodeShaders.Sphere | src/lattice/node/Spheres.js:57-99 | a sphere's centre, colour and opacity come from the node's texels through the flag decode |
| NodeShaders.SphereFollowsGraph | src/lattice/node/Spheres.js:59-96 | when a texel holds a node's mask, the sphere shows that node's own flags |
| NodeShaders.EmphasisedOnTop | src/lattice/node/Spheres.js:69-80 | an emphasised node is never more transparent than any other node |
| NodeShaders.PointSizeInvertsSphere | src/lattice/node/Points.js:76 | the point size undoes the sphere's pixel scaling, and in constant-screen-size mode it is the node size itself |
| NodeShaders.Point | src/lattice/node/Points.js:48-77 | a point's position, colour and flags come from the node's texels |
| NodeShaders.PointFollowsGraph | src/lattice/node/Points.js:50-71 | when a texel holds a node's mask, the point shows that node's own flags |
| EdgeShaders.RodInstances | src/lattice/edge/Rods.js:21-27 | the per-instance attributes truncate back to each edge's index, source and target |
| EdgeShaders.RodOpacity | src/lattice/edge/Rods.js:116-127 | a highlighted rod keeps the edge opacity; an unhighlighted one drops to a tenth exactly when some node is highlighted |
| EdgeShaders.RodDimming | src/lattice/edge/Rods.js:116-127 | a rod is never more opaque than its edge, and strictly less exactly when it is dimmed |
| EdgeShaders.RodOf | src/lattice/edge/Rods.js:92-160 | a rod is highlighted exactly when both endpoints are, blends the endpoint colours, and is drawn in front when highlighted |
| EdgeShaders.RodFollowsGraph | src/lattice/edge/Rods.js:94-159 | when the texels hold the endpoints' masks, the rod is highlighted exactly when both nodes are |
| EdgeShaders.LineIndices | src/lattice/edge/Lines.js:35-38 | the index buffer holds source and target per edge, wrapped to 16 bits |
| EdgeShaders.LineIndicesRecover | src/lattice/edge/Lines.js:35-38 | indices below 65536 survive the buffer; a missing endpoint (-1) becomes 65535 |
| EdgeShaders.Line | src/lattice/edge/Lines.js:75-121 | a highlighted line is grey, opaque and in front; an unhighlighted one keeps the edge opacity |
| EdgeShaders.LineFollowsGraph | src/lattice/edge/Lines.js:81-120 | when the texels hold the endpoints' masks, the line is highlighted exactly when both nodes are |
| BMLabels.PixelSizes | src/annotation/BMLabels.js:109 | each label's pixel size is its font size times the pixel ratio |
| BMLabels.Layout | src/annotation/BMLabels.js:103-132 | the loop computes every label's baseline and box as the closed-form stacking defines them |
| BMLabels.BaselineRecurrence | src/annotation/BMLabels.js:105-131 | the first baseline is the first size; each later one adds the margin and its own size |
| BMLabels.BoxesAbut | src/annotation/BMLabels.js:116-130 | each label's box ends where the next one begins: the labels stack without gaps or overlap |
| BMLabels.BoxTop | src/annotation/BMLabels.js:116-130 | a box starts below all earlier labels and their margins |
| BMLabels.BaselinesIncrease | src/annotation/BMLabels.js:116-130 | with positive sizes the baselines strictly increase |
| BMLabels.Union | src/annotation/BMLabels.js:134 | the union contains both boxes, and each of its edges is an edge of one of them |
| BMLabels.Bound | src/annotation/BMLabels.js:134 | the bound exists exactly when there are boxes, contains all of them, and its top and bottom are attained |
| BMLabels.LayoutHeight | src/annotation/BMLabels.js:103-134 | the atlas spans from 0 to the sum of the sizes plus one margin per label |
| BMLabels.CanvasSize | src/annotation/BMLabels.js:135-136 | the canvas is the bound rounded up to whole pixels |
| BMLabels.RibbonTrianglesValid | src/annotation/BMLabels.js:47-70 | the ribbon's 22 triangles each use three distinct existing vertices |
| BMLabels.RibbonIndexValid | src/annotation/BMLabels.js:47-70 | every entry of the ribbon index buffer names an existing vertex |
| BMLabels.RibbonCoversVertices | src/annotation/BMLabels.js:7-70 | every ribbon vertex is used by some triangle |
| BMLabels.LabelNodeIndices | src/annotation/BMLabels.js:182 | the float node-index attribute truncates back to the node index |
| BMLabels.LabelFragment | src/annotation/BMLabels.js:305-333 | a label is discarded exactly when its fog is below the cutoff; hovered or highlighted labels use the emphasis colours |
| BMLabels.Fog | src/annotation/BMLabels.js:273 | the fog factor lies in `[0, 1]` |
| BMLabels.LabelFollowsGraph | src/annotation/BMLabels.js:240-333 | when the texel holds a node's mask, the label emphasises exactly the hovered or highlighted nodes |
| HTMLLabels.Create | src/annotation/HTMLLabels.js:2-39 | the created layer attaches exactly the visible keys |
| HTMLLabels.Diff | src/annotation/HTMLLabels.js:44-58 | the diff names exactly the keys whose visibility disagrees with attachment, each with its visibility |
| HTMLLabels.Patch | src/annotation/HTMLLabels.js:60-69 | a patch applies exactly when it attaches detached keys and detaches attached ones; the keys named are set as asked and the others keep their state |
| HTMLLabels.PatchTouchesOnlyNamed | src/annotation/HTMLLabels.js:60-69 | a key the patch does not name keeps its attachment |
| HTMLLabels.DiffAfterPatch | src/annotation/HTMLLabels.js:44-69 | patching with the diff attaches exactly the visible keys, and the next diff is empty |
| HTMLLabels.DiffOfCreated | src/annotation/HTMLLabels.js:14-58 | a freshly created layer has an empty diff |
| HTMLLabels.Unique | src/annotation/HTMLLabels.js:14 | the key list of a `Map` holds each given key exactly once |
| HTMLLabels.InsertPermutes | src/annotation/HTMLLabels.js:94 | an insertion adds exactly the new entry, keeping the depth order |
| HTMLLabels.SortByDepth | src/annotation/HTMLLabels.js:94 | the sort orders labels far to near and is a permutation of its input |
| HTMLLabels.AttachedEntries | src/annotation/HTMLLabels.js:80-86 | the entries are exactly the attached labels with their projected positions, each once |
| HTMLLabels.Update | src/annotation/HTMLLabels.js:71-101 | every placed label is attached and shown at its projection; the list runs far to near with no key twice |
| HTMLLabels.UpdatePlacesAttached | src/annotation/HTMLLabels.js:80-100 | every attached label is placed |
| HTMLLabels.Place | src/annotation/HTMLLabels.js:95-100 | each label's screen position maps its projection from clip space to pixels, and its stacking order is its rank |
| CanvasLabels.ColourOf | src/annotation/CanvasLabels.js:43 | a label's colour is its own, or the default when it has none |
| CanvasLabels.Text | src/annotation/CanvasLabels.js:41-47 | the draw call for label `i` writes that label's text |
| CanvasLabels.TextPlacement | src/annotation/CanvasLabels.js:41-44 | the text is drawn at the projected position mapped to canvas pixels |
| CanvasLabels.DrawFrom | src/annotation/CanvasLabels.js:34-50 | only labels in view are drawn, in input order |
| CanvasLabels.DrawFromComplete | src/annotation/CanvasLabels.js:34-50 | every label in view is drawn |
| CanvasLabels.Update | src/annotation/CanvasLabels.js:19-50 | the canvas is cleared first, then the shown labels are drawn in input order |
| CanvasLabels.DrawnIffShown | src/annotation/CanvasLabels.js:34-40 | a label is drawn exactly when it is in front of the camera and inside the view |
| Hover.Transition | src/LatticeControls.js:27-40 | the hovered index becomes the hit; a changed hit emits a leave for the old node and an enter for the new one when the index is truthy |
| Hover.NeverNodeZero | src/LatticeControls.js:28-34 | node 0 is falsy, so it never receives an enter or a leave |
| Hover.Run | src/LatticeControls.js:27-40 | after a run of moves the hovered index is the last hit |
| Hover.EventsPairUp | src/LatticeControls.js:15-41 | over any run of moves, enters and leaves alternate properly: replaying them leaves exactly the hovered node open |
| Hover.TransitionReplays | src/LatticeControls.js:27-40 | one transition's events close the old hover and open the new one |
| LatticeControls.AddListener | src/LatticeControls.js:63-81 | registering a listener adds it unless it is already there, so the list never holds duplicates |
| LatticeControls.RemoveListener | src/LatticeControls.js:63-81 | unregistering removes exactly that listener |
| LatticeControls.Create | src/LatticeControls.js:4-81 | the controls start enabled, with nothing hovered, no click armed and no mesh |
| LatticeControls.Step | src/LatticeControls.js:15-126 | every event keeps the listener list free of duplicates |
| LatticeControls.Run | src/LatticeControls.js:15-126 | a run of events keeps the listener list free of duplicates |
| LatticeControls.HoverMove | src/LatticeControls.js:15-41 | an enabled move with a mesh runs the shared hover transition and disarms the click |
| LatticeControls.NoEventForNodeZero | src/LatticeControls.js:28-46 | no event from a move is ever about node 0 |
| LatticeControls.DisabledMoveSilent | src/LatticeControls.js:17-79 | a move while disabled and not dragging changes nothing and emits nothing |
| LatticeControls.DisabledDownArmsNothing | src/LatticeControls.js:66 | a press while disabled changes nothing |
| LatticeControls.DisabledDispatch | src/LatticeControls.js:17-79 | disabled move listeners other than drag do nothing |
| LatticeControls.DragAlwaysEmits | src/LatticeControls.js:43-49 | while dragging, every move emits a drag event |
| LatticeControls.PressThenDrag | src/LatticeControls.js:43-70 | after a press, a move both drags and disarms the click |
| LatticeControls.MoveCancelsClick | src/LatticeControls.js:65-81 | a move between press and click cancels the click |
| LatticeControls.PressedMoveDisarms | src/LatticeControls.js:78-81 | a move always leaves the click disarmed |
| LatticeControls.GateDisarms | src/LatticeControls.js:78-81 | the gate listener disarms the click, and nothing else arms it |
| LatticeControls.MovesNeverClick | src/LatticeControls.js:15-49 | a move never emits a click |
| LatticeControls.PressArms | src/LatticeControls.js:65-70 | an enabled press arms the click and registers the drag and gate listeners |
| LatticeControls.StillPressClicks | src/LatticeControls.js:51-67 | a press followed directly by a click emits exactly one click on the hit node |
| LatticeControls.DetachedHoverThrows | src/LatticeControls.js:22-126 | after the mesh is detached, a move's hover listener throws |
| GraphControls.Create | src/GraphControls.js:4-12 | the controls start with nothing hovered, no click armed and nothing attached |
| GraphControls.Step | src/GraphControls.js:15-66 | a press arms the click, any move disarms it; an armed click, and any move, throws unless the attached object has a `points` child, and otherwise an armed click fires with the hit index |
| GraphControls.HoverMove | src/GraphControls.js:15-41 | when the attached object has a `points` child, a move runs the shared hover transition and disarms the click |
| GraphControls.ArmedIffLastPointerWasPress | src/GraphControls.js:52-57 | the click is armed exactly when the latest press or move was a press |
| GraphControls.MeshFollowsAttach | src/GraphControls.js:60-66 | the attached object is the one from the latest attach, or none after a detach |
| GraphControls.ClickIffPressedStill | src/GraphControls.js:43-57 | a click fires exactly when the latest press or move was a press and the attached object has a `points` child; armed without one, it throws |
| GraphControls.MoveCancelsClick | src/GraphControls.js:52-57 | a move between press and click cancels the click |
| GraphControls.MovesFollowHover | src/GraphControls.js:15-41 | when the attached object has a `points` child, a run of moves tracks the shared hover state and events exactly |
| GraphControls.ThrowingMoves | src/GraphControls.js:22-24 | without a `points` child every move throws and the hovered index never changes |
| GraphControls.LatticeAttachedThrows | src/lattice/LatticeMesh.js:239 | a lattice mesh names only its `nodes` and `edges` children, so once one is attached every move and every armed click throws |
| Watch.Create | src/watch.js:1-13 | a watched object starts with its properties and no handlers |
| Watch.Set | src/watch.js:3-11 | assignment stores the value, keeps the registry, reports success, and calls only the property's handlers with the value |
| Watch.Watch | src/watch.js:14-18 | watching appends the handler to the property's list and leaves other properties' lists alone |
| Watch.WatchAllLists | src/watch.js:14-18 | registering handlers in turn on a fresh property leaves exactly those handlers, in order |
| Watch.FiresInRegistrationOrder | src/watch.js:5-18 | assignment calls the handlers in the order they were registered |
| Watch.OtherPropertySilent | src/watch.js:5-9 | a handler is never called for another property |
| Watch.FiresWhenUnchanged | src/watch.js:4-9 | handlers fire even when the value does not change |
| Watch.SetAsWritten | src/watch.js:3-11 | the written trap stores the value, then throws exactly for an inherited name with no own list |
| Watch.WatchAsWritten | src/watch.js:14-18 | the written `watch` throws exactly for an inherited name with no own list |
| Watch.InheritedNameThrows | src/watch.js:5-16 | assigning or watching `toString` throws, after the assignment has stored the value |
| Watch.AsWrittenAgrees | src/watch.js:3-18 | for every other name, the written trap and `watch` agree with the own-property model |
| GraphComponent.WidthOrOne | src/GraphComponent.js:300 | an edge's simulation weight is its width, or 1 when the width is 0 |
| GraphComponent.SimulationNodes | src/GraphComponent.js:290-296 | each simulation node starts at its graph node's position with mass equal to the node's size |
| GraphComponent.SimulationEdges | src/GraphComponent.js:297-301 | each simulation edge keeps its endpoints and takes its weight from the width |
| GraphComponent.Create | src/GraphComponent.js:47-310 | the constructor throws exactly when some edge has an endpoint outside the node list, naming the first such edge; otherwise the component builds the mesh from the graph and starts paused, opaque and due for a render |
| GraphComponent.SimulationStartsAtGraph | src/GraphComponent.js:288-307 | for a constructed component, the simulation starts from the graph's nodes and edges, whose endpoints all index a node, paused |
| GraphComponent.Play | src/GraphComponent.js:39-41 | play clears the paused flag and nothing else |
| GraphComponent.Pause | src/GraphComponent.js:43-45 | pause sets the paused flag and nothing else |
| GraphComponent.PositionChanges | src/GraphComponent.js:332-340 | the patch holds a position-only entry for exactly the simulated nodes, in index order |
| GraphComponent.CopyPositions | src/GraphComponent.js:327-331 | copying writes each simulated position into its graph node and leaves every other node as it was |
| GraphComponent.StepSimulation | src/GraphComponent.js:324-343 | succeeds exactly when the engine steps and every simulated node exists in the graph; the component then holds the stepped engine and needs a render |
| GraphComponent.StepSimulationSyncsTextures | src/GraphComponent.js:324-343 | after a step, each node's stored position is its new rounded position and its other texels are unchanged |
| GraphComponent.PositionPatch | src/GraphComponent.js:332-340 | a position-only patch rewrites the stored position and keeps the colour, size and flags |
| GraphComponent.Animate | src/GraphComponent.js:312-321 | a frame leaves the paused flag as it was and clears the render request |
| GraphComponent.PausedFrameIdle | src/GraphComponent.js:313-315 | a paused frame only renders |
| GraphComponent.PlayedFrameSteps | src/GraphComponent.js:312-343 | a playing frame steps the simulation and moves each node to its new position |
| GraphComponent.CreatedWaitsForPlay | src/GraphComponent.js:309-321 | a constructed component's first frame does not move anything |
| GraphComponent.HighlightIds | src/GraphComponent.js:19-23 | the loop stops at the first unknown id and highlights exactly the nodes named before it |
| GraphComponent.Cleared | src/GraphComponent.js:16-17 | clearing removes every highlight and changes nothing else |
| GraphComponent.SetSelection | src/GraphComponent.js:14-37 | a selection updates the highlight flags and the dimming, then throws (no label mesh); the texture patch never runs |
| GraphComponent.SelectionHighlightsExactly | src/GraphComponent.js:16-24 | with known distinct keys, exactly the named nodes end highlighted |
| GraphComponent.UnknownIdStops | src/GraphComponent.js:19-23 | an unknown id throws there and leaves the dimming untouched |
| App.MaxWeight | src/index.js:35 | the maximum is one of the weights and no weight exceeds it |
| App.Keep | src/index.js:39-42 | the kept names are exactly those of links above the threshold |
| App.KeepIsFilter | src/index.js:39-42 | the filter keeps order and multiplicity: the kept names of two runs of links are those of the first run, then those of the second |
| App.KeepOne | src/index.js:39-42 | a single link contributes its name exactly when it passes the threshold |
| App.ImportantNeighbors | src/index.js:31-43 | throws exactly when the node has no links; otherwise keeps the links above the importance threshold |
| App.AverageAtMostMax | src/index.js:35-37 | the average weight never exceeds the maximum weight |
| App.ThresholdBetween | src/index.js:41 | the threshold lies between the average and the maximum |
| App.MaxPassesIffAboveAverage | src/index.js:41 | the maximum passes the threshold exactly when it exceeds the average |
| App.KeptAboveAverage | src/index.js:35-41 | every kept link is above the average |
| App.EqualWeightsKeepNone | src/index.js:31-43 | when all weights are equal, nothing is kept |
| App.HeaviestKeptIffAboveAverage | src/index.js:35-41 | the heaviest link is kept exactly when its weight is above the average, and exactly when the links do not all weigh the same |
| App.AverageIsMaxIffAllEqual | src/index.js:33-35 | the average equals the maximum exactly when every weight equals the maximum |
| App.Place | src/index.js:72-75 | layout coordinates are scaled by 250 and shifted by (-160, -65) |
| App.PlaceInvertible | src/index.js:72-75 | placement can be undone and keeps the order of coordinates |
| App.FirstIndex | src/index.js:139-140 | `indexOf` is -1 exactly when the key is absent, and otherwise the first position holding it |
| App.FirstIndexIsMeshIndex | src/index.js:139-140 | with distinct keys, the first index equals the mesh's key index |
| App.WeightOrOne | src/index.js:150 | a missing or zero weight counts as 1 |
| App.EdgeOpacity | src/index.js:149-158 | opacity is 0.1 below weight 6, 1 from weight 10, and 0.3 between |
| App.EdgeOpacityMonotone | src/index.js:149-158 | heavier edges are never more transparent, and unweighted edges are faint |
| App.EdgeWidth | src/index.js:146 | a width is never 0, and it is 1 for an unweighted edge |
| App.EdgeWidthGrows | src/index.js:146 | heavier edges are never thinner, and never thinner than 1 |
| App.BuildNode | src/index.js:121-137 | a node keeps its key, is placed from its layout coordinates, has size `(2 + eigencentrality·100)·devicePixelRatio`, and starts with no flags |
| App.SizeGrowsWithCentrality | src/index.js:132 | for a positive pixel ratio the size, which becomes the simulation mass, is positive and grows strictly with the eigencentrality |
| App.BuildEdge | src/index.js:138-161 | an edge's endpoints are the first indices of its keys, with width and opacity from its weight |
| App.BuildGraph | src/index.js:120-162 | the graph has one node per input node and one edge per input edge, in order |
| App.BuiltEdgesJoinTheirKeys | src/index.js:139-145 | each edge's endpoints, when found, are nodes whose keys are the edge's source and target |
| App.BuiltGraphCreates | src/index.js:139-140 | the graph component accepts the built graph exactly when every edge's endpoint keys are node keys; an unknown key becomes -1 and the constructor throws |

## Left out

- Floating point: numbers are reals. `Math.fround` is the parameter `fr`, and the half-float rounding of the GPU render targets is not modelled.
- The GPU plumbing: render targets, the full-screen quad and its camera, and the debug `gl_FragColor` writes (src/simulation/GPUSimulation.js:82-164, 213, 221-223, 247-249). Only the values each pass writes are modelled.
- Shader geometry: projection, lighting, the `lookAt`/`inverse`/`transpose` GLSL helpers (src/lattice/LatticeMesh.js:14-183), the rod's distance scale (src/lattice/edge/Rods.js:140-154), the point sprite's `smoothstep` edge, and the ribbon's trigonometry and `vUv`. The projected pixel size is the parameter `pixelSize`.
- Raycasting (src/lattice/LatticeMesh.js:307-339): each pointer input carries the index of the closest hit.
- `setViewport` and the uniform plumbing of `setAnyHighlighted`: the highlight state is the mesh field `anyHighlighted`.
- Touch handlers (src/LatticeControls.js:84-117).
- The `setTimeout` that re-registers the hover (`mousemove`) listener 10 ms after a release (`mouseup`): it is the input `Rearm`.
- `requestAnimationFrame` loops: each callback is one call of `Simulation.Frame` or `GraphComponent.Animate`.
- The unused `anim` closure in LatticeMesh.
- Canvas drawing and `measureText`: the text extents are the input `extents`.
- The HTML layer's camera-matrix calls, the no-op `filter` at src/annotation/HTMLLabels.js:93, and the DOM: projections are the input `project`.
- Canvas fill and font strings.
- In index.js:
  - loading, graphology, `toUndirected` and the HSL colour adjustment;
  - the light/dark mode buttons, the UI and `AutoCompleteComponent`;
  - `minWeight`, which `importantNeighbors` computes and never uses.
- The watch registry's own `_handlers` and `watch` properties, `Symbol` keys, and the `deep` argument.
- GraphComponent:
  - the renderer, labels, camera, `OrbitControls`, resizing and `render()`;
  - the event-listener wiring (src/GraphComponent.js:119-154);
  - the missing label mesh, which is the error `NoLabelMesh`;
  - the nodes already copied before `stepSimulation` throws `NodeMissing`.
- Simulation.Step: requires that no two nodes coincide and that every edge's endpoint masses have a non-zero sum, because the source divides by zero there and produces Infinity or NaN.
- Simulation.Attract: requires a non-zero mass sum for the same reason.
- CpuSimulation.Step: requires that no two nodes coincide, because the source divides by a zero distance there.
- HTMLLabels.Patch: when a patch throws part-way (src/annotation/HTMLLabels.js:60-69), the DOM changes made before the throw stay in place; the model returns `None` and does not describe them.

## Findings

| source | as written | input that shows it | evidently intended | confidence | as-written member | corrected member |
|---|---|---|---|---|---|---|
| src/simulation/GPUSimulation.js:212-252 | the force shader loops over partners `0..439` and reads weights with stride 440, whatever the node count; indices past the texture clamp to its last row | two nodes at (1,0,0) and (3,0,0) with no edge: the texture side is 2, so the 438 phantom partners read the zero padding texels of the last row, each pushes node 0 away from the origin by 0.15, and node 0 gets force x = 65.62 instead of -0.08 | loop bound and stride equal to the node count; this matches the CPU engine when the CPU engine uses the shader's literal coefficients and dampening 0.9, no two nodes are closer than 0.01 (the shader skips such pairs) and every weight is in [0, 1] (the shader clamps, the CPU engine only floors at 0) | not executed | GpuCorrection.TwoNodesDisagree | GpuCorrection.BoundedComputeMatchesCpu |
| src/watch.js:5-16 | the handler registry is a plain `{}`, so `_handlers[prop]` finds inherited `Object.prototype` members | assigning `proxy.toString = v` stores `v` and then throws (a function is not iterable); `watch('toString', h)` throws because `push` is undefined | an own-property lookup: with no handler list, the assignment just succeeds and `watch` starts a new list | not executed | Watch.InheritedNameThrows | Watch.AsWrittenAgrees |
