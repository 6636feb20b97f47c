# Solar-system demo: icosphere generator and frame traversal in Dafny

This project models the two pieces of logic in the WebGL solar-system demo
that are more than GL plumbing.

- **The icosphere generator of `code/src/geo.js`** (module `Geo`, file `geo.dfy`).
  - The literal base meshes `quad`, `octohedron` and `icosahedron`.
  - `getMidpointIndex`, with its edge-midpoint cache keyed by `min-max`.
    The cache is the class `EdgeMidpointCache`. The growable flat vertex
    array is the class `VertexList`.
  - `subdivide`, the 1-to-4 midpoint split, as a method with a loop.
  - `sphere`, which runs `subdivide` on the icosahedron a number of times.
  - Coordinates are exact reals. A read past the end of the vertex array
    (`undefined` in JavaScript) becomes `NaN`.
  - What is proved is the index bookkeeping:
    - the flat x,y,z layout;
    - index validity;
    - the order of the emitted triangles;
    - one new vertex per distinct undirected edge, at the exact midpoint;
    - new vertices numbered in the order their edges are first looked up;
    - an append-only vertex array;
    - four times the triangles per pass.
- **The per-frame traversal of `code/src/solution.js`** (module `SceneGraph`,
  file `scene.dfy`).
  - `drawGraph` and the root loop of `window.loop` are methods. Each returns
    the sequence of side effects it performs, as `Update` and `Draw` events.
  - Each is proved equal to a recursive pre-order trace function.
  - Lemmas relate that trace to order-free reference counts of the tree.
- `options.dfy` holds the `Option` datatype both modules use.

## Model

| member | source | states |
|---|---|---|
| `Geo.Quad` | code/src/geo.js:4-23 | The quad is well formed: 4 whole vertices, 2 triangles, every index below 4, and 2 uv values per vertex. |
| `Geo.Octohedron` | code/src/geo.js:25-54 | The octahedron is well formed: 6 vertices, 8 triangles, every index below 6, and 2 uv values per vertex. |
| `Geo.Icosahedron` | code/src/geo.js:56-98 | The icosahedron is well formed: 12 vertices, 20 triangles, every index below 12, and no uvs. |
| `Geo.EdgeKey` | code/src/geo.js:159 | The cache key of a pair is the pair ordered as (smaller, larger). |
| `Geo.EdgeKeyUnordered` | code/src/geo.js:159 | Both argument orders give the same key. Two pairs share a key exactly when they are the same unordered pair (both directions). |
| `Geo.MidpointOfUnordered` | code/src/geo.js:175-188 | The midpoint getMidpointIndex computes does not depend on the order of the two endpoints. |
| `Geo.EdgeMidpointCache.constructor` | code/src/geo.js:124 | A pass starts with an empty cache. |
| `Geo.VertexList.constructor` | code/src/geo.js:128 | The vertex list starts as a copy of the input vertices. |
| `Geo.GetMidpointIndex` | code/src/geo.js:157-199 | The effect is the relation `Lookup`. On a miss, the edge's midpoint (three coordinates) is appended, the old vertex count is returned, and the key is recorded with it. On a hit, the stored index is returned and neither the cache nor the vertices change. Whole vertices stay whole. |
| `Geo.LookupRecords` | code/src/geo.js:163-196 | A lookup keeps every earlier cache entry and adds exactly its own key, mapped to the returned index. The old vertex array is a prefix of the new one. |
| `Geo.RepeatedLookupHits` | code/src/geo.js:157-199 | A second lookup of the same unordered pair, in either order, returns the first call's index and changes neither the cache nor the vertices. Two calls append at most one vertex. |
| `Geo.LookupKeepsPassInvariant` | code/src/geo.js:163-196 | A lookup preserves the pass invariant. |
| `Geo.MissKeepsPassInvariant` | code/src/geo.js:164-193 | A miss preserves the pass invariant. The pass invariant says: whole vertices; the input vertices are an unchanged prefix; one appended vertex per cached edge; cached indices are distinct and lie in the appended range; each cached edge between input vertices maps to their midpoint. |
| `Geo.AppendKeepsPassInvariant` | code/src/geo.js:190-193 | Recording a new key at the next free index, while appending one vertex, preserves the pass invariant, given the vertex is the edge's midpoint. |
| `Geo.MissGeometry` | code/src/geo.js:167-191 | The vertex a miss appends is the componentwise average of the edge's endpoints in the input vertex array. |
| `Geo.EdgesOfExactly` | code/src/geo.js:131-141 | The edge set accumulated over the first n triangles holds every edge of those triangles and nothing else (both directions). |
| `Geo.EdgesOfAllTriangles` | code/src/geo.js:131-141 | The accumulated edge set over all whole triangles equals the distinct undirected edges of the mesh. |
| `Geo.WholeTriangles` | code/src/geo.js:131 | The loop `i < indices.length - 2; i += 3` stops after floor(length / 3) triangles, so a trailing partial triangle is ignored. |
| `Geo.SplitTriangle` | code/src/geo.js:134-148 | One loop body makes three lookups, of (i0,i1), (i1,i2) and (i2,i0) in that order. Each one is a `Lookup` step, and the intermediate caches and vertex arrays are returned as ghost results. Together they add exactly the triangle's edges to the cache and keep earlier entries. The old vertex array is a prefix of the new one. The body returns the 12 indices (i0,m01,m02), (i1,m12,m01), (i2,m02,m12), (m02,m01,m12). It keeps the pass invariant and index validity. |
| `Geo.TriangleEffects` | code/src/geo.js:139-148 | Three lookups of a triangle, in order, keep the pass invariant and earlier entries. They add exactly the triangle's edges, only append to the vertex array, produce its split, and keep index validity. |
| `Geo.TriangleRecords` | code/src/geo.js:139-148 | The three lookups of a triangle add exactly its edges and produce its split. |
| `Geo.TriangleBelow` | code/src/geo.js:139-148 | If the input indices are valid, every index in the emitted block is below the grown vertex count. |
| `Geo.TriangleStep` | code/src/geo.js:131-148 | One iteration preserves the loop invariant: the cache holds the edges seen so far, and each emitted block of 12 is the split of its triangle. |
| `Geo.BlocksStep` | code/src/geo.js:143-148 | Blocks emitted earlier still read the same midpoints from the grown cache, and the new block is the next triangle's split. |
| `Geo.AllTrianglesSplit` | code/src/geo.js:131-154 | Once the loop has covered every whole triangle, the invariant gives all of subdivide's promises. |
| `Geo.Subdivide` | code/src/geo.js:119-155 | The contract is the predicate `PassResult`. The result has no uvs and whole vertices. The input vertices are an unchanged prefix. The cache's keys are exactly the distinct undirected edges. One vertex is appended per cached edge, at the midpoint of its endpoints. The new vertices are numbered from the old vertex count in the order their edges are first looked up: a first-time edge gets a larger index than every edge looked up before it. 12 indices are emitted per whole input triangle, in input order, each block being the fixed four-triangle split. Valid input indices give valid output indices. |
| `Geo.LookupKeysPrefix` | code/src/geo.js:131-141 | The edge keys looked up over the first n triangles, accumulated triangle by triangle, are the first 3n keys of the pass's lookups in call order. |
| `Geo.DedupMembers` | code/src/geo.js:163-193 | The distinct edges in first-lookup order are exactly the looked-up edges. |
| `Geo.DedupPrefix` | code/src/geo.js:163-193 | The edges first met in a prefix of the lookups lead the edges first met in all of them. |
| `Geo.FirstMeeting` | code/src/geo.js:163-193 | An edge looked up for the first time at call k comes, in first-lookup order, after every edge looked up at an earlier call. |
| `Geo.LookupNumbers` | code/src/geo.js:190-192 | A lookup of an edge met for the first time numbers it with the next consecutive index, one past the edges numbered so far. |
| `Geo.ThreeLookupsNumber` | code/src/geo.js:139-141 | The three lookups of a triangle, in order, extend the consecutive numbering by the edges met for the first time. |
| `Geo.TriangleNumbers` | code/src/geo.js:139-141 | After one more triangle's lookups, the cache numbers the edges met so far consecutively in first-met order, and the vertex array ends with exactly their vertices. |
| `Geo.TriangleMeets` | code/src/geo.js:131-141 | One loop iteration preserves that numbering invariant over the triangles covered so far. |
| `Geo.CreationOrder` | code/src/geo.js:190 | Numbering the distinct edges consecutively in first-met order means that an edge met first at call k has a larger index than every edge met at an earlier call, and every looked-up edge is cached. |
| `Geo.AllLookupsMet` | code/src/geo.js:131-154 | Once all whole triangles are looked up, the cache numbers every lookup of the pass in the order it was met. |
| `Geo.OneTriangleSplit` | code/src/geo.js:119-155 | For 3 vertices and the one triangle (0,1,2), creation order gives edges (0,1), (1,2), (0,2) the indices 3, 4, 5. So the split is exactly [0,3,5, 1,4,3, 2,5,4, 5,3,4]. |
| `Geo.FourfoldTriangles` | code/src/geo.js:131-148 | The arithmetic step of the per-pass index count. When 3 divides b, 12·(b/3) = 4b, again a multiple of 3. Subdivide's `12 * TriangleCount` is turned into the fourfold growth with it. |
| `Geo.Passes` | code/src/geo.js:100-103 | An omitted argument means 3 passes. A count of 0 or less means none. A positive count means that many. |
| `Geo.PassShape` | code/src/geo.js:119-155 | A pass over a well-formed mesh without uvs gives a well-formed mesh without uvs, four times the indices, and the input vertices as a prefix. It adds three coordinates per distinct undirected edge of the input, so at least one vertex when there is a triangle. |
| `Geo.PassSplitsFirstTriangle` | code/src/geo.js:131-148 | A pass over a mesh with a triangle emits that triangle's corners at positions 0, 3 and 6. Position 1 holds a new vertex, numbered at or past the old vertex count and below the new one. |
| `Geo.NextPass` | code/src/geo.js:104-108 | One more pass keeps the loop invariant of sphere. The meshes so far, from the base, are linked pass by pass through `PassResult`. |
| `Geo.SubdivideRepeatedly` | code/src/geo.js:101-108 | The ghost results record the meshes between passes and each pass's cache. The first is the base and the last is the result. Every consecutive pair is one `Subdivide` pass (`PassResult`): exact midpoints, one new vertex per distinct edge, creation order, and the fixed split of every triangle. The result is also well formed, without uvs, with the base's index count times 4^k and the base vertices as a prefix. With a triangle and at least one pass it has more vertices than the base. With k = 0 it is the base mesh. |
| `Geo.Sphere` | code/src/geo.js:100-116 | The sphere is k = max(iterations, 0) passes of `Subdivide` from the icosahedron, each linked by `PassResult` through ghost intermediate meshes. It is well formed with 60 * 4^k indices, and the icosahedron's 12 vertices lead its vertex array. With k = 0 it is the icosahedron, and with k > 0 it has more than 12 vertices. |
| `SceneGraph.DrawGraph` | code/src/solution.js:121-141 | The events of drawGraph come in this order: an Update if `update` is set; a Draw with the given parent if `program` is set; then each child's events in list order with this node as parent. The children are visited whether or not the node drew. |
| `SceneGraph.Loop` | code/src/solution.js:116-118 | The frame's events are each root's drawGraph events, in `scene` order, each with a null parent. |
| `SceneGraph.ForestTraceAppend` | code/src/solution.js:138-140 | Traversing a concatenation of sibling lists is traversing each list in turn. |
| `SceneGraph.ForestTracePrefix` | code/src/solution.js:138-140 | Visiting one more child appends exactly that child's events. |
| `SceneGraph.SiblingBlock` | code/src/solution.js:138-140 | A sibling's whole trace lies between the traces of the earlier and the later siblings. |
| `SceneGraph.SiblingsInOrder` | code/src/solution.js:138-140 | For siblings i < j, the whole trace of i (its subtree included) comes before the whole trace of j. |
| `SceneGraph.UpdatesMatchUpdaters` | code/src/solution.js:123-125 | The Update events are exactly one per node with `update` set, each with the frame's dt, compared as multisets with an order-free count of the tree. |
| `SceneGraph.DrawsMatchRenderables` | code/src/solution.js:127-139 | The Draw events are exactly one per node with a `program`, each with its enclosing node (null for roots) as parent, compared as multisets with an order-free count of the tree. |
| `SceneGraph.EventsConcernForest` | code/src/solution.js:121-141 | Every event of a traversal concerns a node of the traversed forest. |
| `SceneGraph.OwnEventsFirst` | code/src/solution.js:123-140 | With distinct node identities, a node's own Update and Draw come before every event of its descendants. |
| `SceneGraph.AtMostOncePerNode` | code/src/solution.js:116-141 | With distinct node identities, two events of the same node in a frame are an Update followed by a Draw. So each node is updated at most once and drawn at most once, update first. |
| `SceneGraph.SubtreeIsContiguous` | code/src/solution.js:121-141 | Pre-order: the events of any node of the forest, with its whole subtree, form one contiguous block of the frame's trace, in the position its parent gives it. |
| `SceneGraph.SubtreeOfNodeIsContiguous` | code/src/solution.js:121-141 | The same within one node's trace, for the node itself or any descendant. |

## Left out

- `normalize` (code/src/geo.js:110, 201-214) is not part of this model. It is floating-point `vec3.normalize`, so `Geo.Sphere` returns the un-normalised vertices.
- Float32 rounding of `vec3.fromValues` is not modelled. Midpoints are exact real averages.
- The other glMatrix calls (`mat4`, `quat`) are foreign library code and are not modelled.
- `code/src/node.js` is not part of this model. It uploads buffers and issues the GL draw call. The `useProgram` / `uniformMatrix4fv` / `draw` calls for a node collapse into one `Draw` event that records the parent argument. The P and V matrices are not modelled.
- `code/src/shaders.js` is not part of this model. It is asynchronous shader loading.
- The scene built in `window.init` and the planets' `update` closures (code/src/solution.js:18-96) are not modelled. An update is an opaque `Update` event carrying dt.
- The node factory in node.js never sets `children`, yet solution.js pushes onto `children`. The model assumes every node has a children list, as drawGraph needs.
- Attaching a node is a plain `push` with no cycle check. Trees are an inductive datatype, so they are finite and acyclic.
- The same object attached at two places is modelled as two nodes with equal ids. The ordering lemmas that need it assume distinct ids (`UniqueIds`).
- Texture coordinates are not modelled past the base meshes. `subdivide` ignores uvs and its result carries none.
- Geo.Subdivide: requires the vertex array to hold whole vertices (length divisible by 3). Otherwise `vertices.length / 3` is fractional in JavaScript, and a vertex index here is a natural number. In the same case, JavaScript's `new Array(...vertices)` on a one-element array would build an empty array of that length instead of a copy.
- Geo.GetMidpointIndex: requires whole vertices, for the same reason.
- Negative, fractional or non-numeric triangle indices are not modelled. Indices are natural numbers, and the cache key is the pair itself rather than the string `min-max`, which is injective on natural numbers.
- Geo.Passes: takes an optional integer. A fractional iteration count, which JavaScript rounds up through `i < iterations`, is not modelled.
- Geo.Sphere: does not state the closed-form vertex count 10 * 4^k + 2. Each pass is tied to its input by `PassResult`, which adds exactly one vertex per distinct edge of that input. The number of distinct edges of each subdivided icosahedron is not derived.
