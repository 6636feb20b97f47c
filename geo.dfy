/**
 * The icosphere generator of code/src/geo.js: the literal base meshes, the
 * 1-to-4 midpoint subdivision with its edge-midpoint cache, and `sphere`,
 * which subdivides the icosahedron a number of times.
 *
 * What is verified is the index bookkeeping: the flat x,y,z layout of the
 * vertex array, index validity, the order of the emitted triangles, one new
 * vertex per distinct undirected edge, numbered in the order the edges are
 * first looked up, and an append-only vertex array.
 * Coordinates are exact reals; the final `normalize` is not modelled.
 */
module Geo {
  import opened Options

  /**
   * One coordinate as JavaScript computes it. Reading the vertex array past
   * its end gives `undefined`, which turns every sum it enters into NaN.
   */
  datatype Coord = Num(value: real) | NaN

  /** A vertex index: vertex `k` is coordinates 3k, 3k+1 and 3k+2 of the flat array. */
  type Index = nat

  /** An undirected edge as the midpoint cache keys it: (smaller index, larger index). */
  type Edge = (Index, Index)

  /**
   * A mesh: flat x,y,z vertex coordinates, optional flat u,v texture
   * coordinates, and a flat list of triangle corners.
   */
  datatype Mesh = Mesh(vertices: seq<Coord>, uvs: Option<seq<real>>, indices: seq<Index>)

  /** Every entry of `indices` names one of the first `n` vertices. */
  predicate IndicesBelow(indices: seq<Index>, n: nat)
  {
    forall k :: 0 <= k < |indices| ==> indices[k] < n
  }

  /**
   * The mesh invariant: whole vertices, whole triangles, every corner a
   * vertex of the mesh, and one u,v pair per vertex when uvs are present.
   */
  predicate WellFormed(m: Mesh)
  {
    && |m.vertices| % 3 == 0
    && |m.indices| % 3 == 0
    && IndicesBelow(m.indices, |m.vertices| / 3)
    && (m.uvs.Some? ==> |m.uvs.value| == 2 * (|m.vertices| / 3))
  }

  /** A list whose every member is below `n` has every entry below `n`. */
  lemma MembersBelow(indices: seq<Index>, n: nat)
    requires forall x :: x in indices ==> x < n
    ensures IndicesBelow(indices, n)
  {
    forall k | 0 <= k < |indices| ensures indices[k] < n {
      assert indices[k] in indices;
    }
  }

  function Nums(rs: seq<real>): (cs: seq<Coord>)
    ensures |cs| == |rs|
    ensures forall k :: 0 <= k < |rs| ==> cs[k] == Num(rs[k])
  {
    seq(|rs|, k requires 0 <= k < |rs| => Num(rs[k]))
  }

  /*
   * The base meshes (geo.js:4-98).
   */

  /** `geo.quad`: a 2x2 square in the y = 0 plane, two triangles. */
  function Quad(): (m: Mesh)
    ensures WellFormed(m) && m.uvs.Some?
    ensures |m.vertices| == 3 * 4 && |m.indices| == 3 * 2
  {
    var indices: seq<Index> := [0, 1, 2,
                                0, 2, 3];
    MembersBelow(indices, 4);
    Mesh(
      Nums([1.0, 0.0, 1.0,
            -1.0, 0.0, 1.0,
            -1.0, 0.0, -1.0,
            1.0, 0.0, -1.0]),
      Some([1.0, 1.0,
            0.0, 1.0,
            0.0, 0.0,
            1.0, 0.0]),
      indices)
  }

  /** `geo.octohedron`: the six unit axis points, eight triangles. */
  function Octohedron(): (m: Mesh)
    ensures WellFormed(m) && m.uvs.Some?
    ensures |m.vertices| == 3 * 6 && |m.indices| == 3 * 8
  {
    var top: seq<Index> := [4, 0, 2,  4, 2, 1,  4, 1, 3,  4, 3, 0];
    var bottom: seq<Index> := [5, 2, 0,  5, 1, 2,  5, 3, 1,  5, 0, 3];
    MembersBelow(top, 6);
    MembersBelow(bottom, 6);
    BelowGrows(top, bottom, 6, 6);
    var indices := top + bottom;
    Mesh(
      Nums([1.0, 0.0, 0.0,
            -1.0, 0.0, 0.0,
            0.0, 1.0, 0.0,
            0.0, -1.0, 0.0,
            0.0, 0.0, 1.0,
            0.0, 0.0, -1.0]),
      Some([0.0, 0.0,
            1.0, 0.0,
            0.0, 1.0,
            1.0, 1.0,
            0.0, 0.0,
            1.0, 0.0]),
      indices)
  }

  const A: real := 0.525731112119133606
  const B: real := 0.850650808352039932

  /** `geo.icosahedron`: twelve vertices, twenty triangles, no uvs. */
  function Icosahedron(): (m: Mesh)
    ensures WellFormed(m) && m.uvs == None
    ensures |m.vertices| == 3 * 12 && |m.indices| == 3 * 20
  {
    var band0: seq<Index> := [1, 4, 0,  4, 9, 0,  4, 5, 9,  8, 5, 4,  1, 8, 4];
    var band1: seq<Index> := [1, 10, 8,  10, 3, 8,  8, 3, 5,  3, 2, 5,  3, 7, 2];
    var band2: seq<Index> := [3, 10, 7,  10, 6, 7,  6, 11, 7,  6, 0, 11,  6, 1, 0];
    var band3: seq<Index> := [10, 1, 6,  11, 0, 9,  2, 11, 9,  5, 2, 9,  11, 2, 7];
    MembersBelow(band0, 12);
    MembersBelow(band1, 12);
    MembersBelow(band2, 12);
    MembersBelow(band3, 12);
    BelowGrows(band0, band1, 12, 12);
    BelowGrows(band0 + band1, band2, 12, 12);
    BelowGrows(band0 + band1 + band2, band3, 12, 12);
    var indices := band0 + band1 + band2 + band3;
    Mesh(
      Nums([-A, 0.0, B,
            A, 0.0, B,
            -A, 0.0, -B,
            A, 0.0, -B,
            0.0, B, A,
            0.0, B, -A,
            0.0, -B, A,
            0.0, -B, -A,
            B, A, 0.0,
            -B, A, 0.0,
            B, -A, 0.0,
            -B, -A, 0.0]),
      None,
      indices)
  }

  /*
   * The edge-midpoint cache (geo.js:157-199).
   */

  /** The cache key of edge {i0, i1}: `${Math.min(i0, i1)}-${Math.max(i0, i1)}`. */
  function EdgeKey(i0: Index, i1: Index): (key: Edge)
    ensures key.0 <= key.1
    ensures (key.0 == i0 && key.1 == i1) || (key.0 == i1 && key.1 == i0)
  {
    if i0 <= i1 then (i0, i1) else (i1, i0)
  }

  /** Two lookups hit the same cache entry exactly when they name the same unordered pair. */
  lemma EdgeKeyUnordered(i0: Index, i1: Index, j0: Index, j1: Index)
    ensures EdgeKey(i0, i1) == EdgeKey(i1, i0)
    ensures EdgeKey(i0, i1) == EdgeKey(j0, j1) <==> {i0, i1} == {j0, j1}
  {
    var k, l := EdgeKey(i0, i1), EdgeKey(j0, j1);
    if {i0, i1} == {j0, j1} {
      assert k.0 in {j0, j1} && k.1 in {j0, j1} && l.0 in {i0, i1} && l.1 in {i0, i1};
    }
  }

  /** Coordinate `k` of the flat array as JavaScript reads it: NaN past the end. */
  function Fetch(v: seq<Coord>, k: nat): Coord
  {
    if k < |v| then v[k] else NaN
  }

  /** `(a + b) / 2` on one coordinate. */
  function Half(a: Coord, b: Coord): Coord
  {
    if a.Num? && b.Num? then Num((a.value + b.value) / 2.0) else NaN
  }

  /** The three coordinates of vertex `k`. */
  function VertexAt(v: seq<Coord>, k: Index): seq<Coord>
  {
    [Fetch(v, 3 * k), Fetch(v, 3 * k + 1), Fetch(v, 3 * k + 2)]
  }

  /** The coordinates getMidpointIndex appends for edge (i0, i1): the componentwise average. */
  function MidpointOf(v: seq<Coord>, i0: Index, i1: Index): (m: seq<Coord>)
    ensures |m| == 3
  {
    var p, q := VertexAt(v, i0), VertexAt(v, i1);
    [Half(p[0], q[0]), Half(p[1], q[1]), Half(p[2], q[2])]
  }

  /** The midpoint does not depend on the order of the endpoints. */
  lemma MidpointOfUnordered(v: seq<Coord>, i0: Index, i1: Index)
    ensures MidpointOf(v, i0, i1) == MidpointOf(v, i1, i0)
  {
  }

  /** The `midpointIndices` dictionary of one subdivide pass. */
  class EdgeMidpointCache {
    var entries: map<Edge, Index>

    constructor ()
      ensures entries == map[]
    {
      entries := map[];
    }
  }

  /** The growable flat vertex array of one subdivide pass (`vertexList`). */
  class VertexList {
    var coords: seq<Coord>

    /** `new Array(...vertices)`: a copy of the input coordinates. */
    constructor (init: seq<Coord>)
      ensures coords == init
    {
      coords := init;
    }
  }

  /**
   * The state change of one getMidpointIndex(i0, i1) call that returns
   * `index`, taking the cache and vertex array from (midpoints, coords) to
   * (midpoints', coords').
   */
  ghost predicate Lookup(
    midpoints: map<Edge, Index>, coords: seq<Coord>, i0: Index, i1: Index,
    index: Index, midpoints': map<Edge, Index>, coords': seq<Coord>)
  {
    && (EdgeKey(i0, i1) in midpoints ==>
      index == midpoints[EdgeKey(i0, i1)] && midpoints' == midpoints && coords' == coords)
    && (EdgeKey(i0, i1) !in midpoints ==>
      && index == |coords| / 3
      && coords' == coords + MidpointOf(coords, i0, i1)
      && midpoints' == midpoints[EdgeKey(i0, i1) := index])
  }

  /**
   * `getMidpointIndex`: on a miss, append the midpoint of edge (i0, i1) as
   * a new vertex and record its index under the edge's key; on a hit,
   * return the recorded index and change nothing. The effect is the
   * relation `Lookup`; `LookupRecords` and `RepeatedLookupHits` derive
   * from it that the key ends up recorded with the returned index and that
   * a second call with the same unordered pair, in either order, is a hit.
   */
  method GetMidpointIndex(midpointIndices: EdgeMidpointCache, vertices: VertexList, i0: Index, i1: Index)
    returns (midpointIndex: Index)
    requires |vertices.coords| % 3 == 0
    modifies midpointIndices, vertices
    ensures |vertices.coords| % 3 == 0
    ensures Lookup(old(midpointIndices.entries), old(vertices.coords), i0, i1,
                   midpointIndex, midpointIndices.entries, vertices.coords)
  {
    var edgeKey := EdgeKey(i0, i1);
    if edgeKey !in midpointIndices.entries {
      var v0 := [Fetch(vertices.coords, i0 * 3), Fetch(vertices.coords, i0 * 3 + 1), Fetch(vertices.coords, i0 * 3 + 2)];
      var v1 := [Fetch(vertices.coords, i1 * 3), Fetch(vertices.coords, i1 * 3 + 1), Fetch(vertices.coords, i1 * 3 + 2)];
      var midpoint := [Half(v0[0], v1[0]), Half(v0[1], v1[1]), Half(v0[2], v1[2])];
      midpointIndex := |vertices.coords| / 3;
      vertices.coords := vertices.coords + midpoint;
      midpointIndices.entries := midpointIndices.entries[edgeKey := midpointIndex];
    } else {
      midpointIndex := midpointIndices.entries[edgeKey];
    }
  }

  /*
   * One subdivision pass (geo.js:119-155).
   */

  /** Number of whole triangles in `indices`: the loop `i < indices.length - 2; i += 3` visits these. */
  function TriangleCount(indices: seq<Index>): nat
  {
    |indices| / 3
  }

  /** The three edge keys of triangle `t`. */
  function TriangleEdges(indices: seq<Index>, t: nat): set<Edge>
    requires 3 * t + 3 <= |indices|
  {
    var i0, i1, i2 := indices[3 * t], indices[3 * t + 1], indices[3 * t + 2];
    {EdgeKey(i0, i1), EdgeKey(i1, i2), EdgeKey(i2, i0)}
  }

  /** The distinct undirected edges of the first `n` triangles, accumulated triangle by triangle. */
  function EdgesOf(indices: seq<Index>, n: nat): set<Edge>
    requires 3 * n <= |indices|
  {
    if n == 0 then {} else EdgesOf(indices, n - 1) + TriangleEdges(indices, n - 1)
  }

  /** Every undirected edge of some whole triangle of `indices`, stated without accumulation. */
  ghost function DistinctEdges(indices: seq<Index>): set<Edge>
  {
    set t, e | 0 <= t < TriangleCount(indices) && e in TriangleEdges(indices, t) :: e
  }

  /** EdgesOf holds every edge of the first `n` triangles and nothing else. */
  lemma {:induction false} EdgesOfExactly(indices: seq<Index>, n: nat)
    requires 3 * n <= |indices|
    ensures forall t, e :: 0 <= t < n && e in TriangleEdges(indices, t) ==> e in EdgesOf(indices, n)
    ensures forall e :: e in EdgesOf(indices, n) ==> exists t :: 0 <= t < n && e in TriangleEdges(indices, t)
  {
    if n > 0 {
      EdgesOfExactly(indices, n - 1);
    }
  }

  /** Accumulating the edges over all whole triangles gives exactly the distinct edges of the mesh. */
  lemma EdgesOfAllTriangles(indices: seq<Index>)
    ensures EdgesOf(indices, TriangleCount(indices)) == DistinctEdges(indices)
  {
    EdgesOfExactly(indices, TriangleCount(indices));
  }

  /*
   * Creation order: a miss numbers its edge `vertices.length / 3`, the next
   * free index (geo.js:190), so the new vertices are numbered in the order
   * their edges are first looked up.
   */

  /**
   * The edge keys of the getMidpointIndex calls for the first `n`
   * triangles, in call order: (i0, i1), (i1, i2), (i2, i0) per triangle.
   */
  function LookupKeysOf(indices: seq<Index>, n: nat): (keys: seq<Edge>)
    requires 3 * n <= |indices|
    ensures |keys| == 3 * n
  {
    if n == 0 then []
    else
      var t := n - 1;
      var i0, i1, i2 := indices[3 * t], indices[3 * t + 1], indices[3 * t + 2];
      LookupKeysOf(indices, t) + [EdgeKey(i0, i1), EdgeKey(i1, i2), EdgeKey(i2, i0)]
  }

  /**
   * The edge key of the `k`-th getMidpointIndex call of a pass: triangle
   * `k / 3` looks up (i0, i1), (i1, i2) and (i2, i0), in that order.
   */
  function LookupKey(indices: seq<Index>, k: nat): Edge
    requires k < 3 * TriangleCount(indices)
  {
    var t := k / 3;
    var i0, i1, i2 := indices[3 * t], indices[3 * t + 1], indices[3 * t + 2];
    if k % 3 == 0 then EdgeKey(i0, i1) else if k % 3 == 1 then EdgeKey(i1, i2) else EdgeKey(i2, i0)
  }

  /** The edge keys of every getMidpointIndex call of a pass, in call order, stated without recursion. */
  function LookupKeys(indices: seq<Index>): (keys: seq<Edge>)
    ensures |keys| == 3 * TriangleCount(indices)
  {
    seq(3 * TriangleCount(indices), k requires 0 <= k < 3 * TriangleCount(indices) => LookupKey(indices, k))
  }

  /** Accumulating the lookups triangle by triangle gives a prefix of LookupKeys. */
  lemma {:induction false} LookupKeysPrefix(indices: seq<Index>, n: nat)
    requires 3 * n <= |indices|
    ensures 3 * n <= |LookupKeys(indices)| && LookupKeysOf(indices, n) == LookupKeys(indices)[..3 * n]
  {
    if n > 0 {
      var t, keys := n - 1, LookupKeys(indices);
      LookupKeysPrefix(indices, t);
      assert (3 * t) / 3 == t && (3 * t + 1) / 3 == t && (3 * t + 2) / 3 == t;
      assert keys[..3 * n] == keys[..3 * t] + [keys[3 * t], keys[3 * t + 1], keys[3 * t + 2]];
    }
  }

  /** `order` with `e` added at the end, unless `e` already occurs in it. */
  function AddEdge(order: seq<Edge>, e: Edge): seq<Edge>
  {
    if e in order then order else order + [e]
  }

  /** The distinct entries of `s`, in the order of their first occurrence. */
  function Dedup(s: seq<Edge>): seq<Edge>
  {
    if |s| == 0 then [] else AddEdge(Dedup(s[..|s| - 1]), s[|s| - 1])
  }

  /** Extending a prefix by one entry adds that entry unless it occurred. */
  lemma DedupStep(s: seq<Edge>, m: nat)
    requires m < |s|
    ensures Dedup(s[..m + 1]) == AddEdge(Dedup(s[..m]), s[m])
  {
    assert s[..m + 1][..m] == s[..m];
  }

  /** Dedup lists exactly the entries of `s`. */
  lemma {:induction false} DedupMembers(s: seq<Edge>)
    ensures forall e :: e in Dedup(s) <==> e in s
  {
    if |s| > 0 {
      var s' := s[..|s| - 1];
      DedupMembers(s');
      assert s == s' + [s[|s| - 1]];
    }
  }

  /** Deduplicating a prefix gives a prefix of the deduplicated whole. */
  lemma {:induction false} DedupPrefix(s: seq<Edge>, m: nat)
    requires m <= |s|
    ensures Dedup(s[..m]) <= Dedup(s)
  {
    if m < |s| {
      var s' := s[..|s| - 1];
      DedupPrefix(s', m);
      assert s'[..m] == s[..m];
    } else {
      assert s[..m] == s;
    }
  }

  /**
   * If `s[k]` occurs for the first time at `k`, then it comes after every
   * earlier entry in Dedup(s).
   */
  lemma FirstMeeting(s: seq<Edge>, j: nat, k: nat)
    requires j < k < |s| && s[k] !in s[..k]
    ensures var d, p := Dedup(s), |Dedup(s[..k])|;
      && p < |d| && d[p] == s[k]
      && exists q :: 0 <= q < p && d[q] == s[j]
  {
    var d, prefix := Dedup(s), Dedup(s[..k]);
    DedupMembers(s[..k]);
    assert s[..k][j] == s[j];
    assert s[j] in prefix;
    var q :| 0 <= q < |prefix| && prefix[q] == s[j];
    DedupStep(s, k);
    assert Dedup(s[..k + 1]) == prefix + [s[k]];
    DedupPrefix(s, k + 1);
    assert d[q] == prefix[q];
  }

  /**
   * The cache numbers the edges of `order` consecutively from `lo`, in
   * that order, and holds no other edge.
   */
  ghost predicate NumberedInOrder(midpoints: map<Edge, Index>, order: seq<Edge>, lo: nat)
  {
    && |order| == |midpoints.Keys|
    && (forall e :: e in midpoints ==> e in order)
    && (forall k :: 0 <= k < |order| ==> order[k] in midpoints && midpoints[order[k]] == lo + k)
  }

  /**
   * Creation order, stated without recursion: every looked-up edge is
   * cached, and an edge met for the first time at lookup `k` gets a larger
   * index than every edge met before it.
   */
  ghost predicate NumberedAsMet(midpoints: map<Edge, Index>, keys: seq<Edge>)
  {
    && (forall k :: 0 <= k < |keys| ==> keys[k] in midpoints)
    && (forall j, k :: 0 <= j < k < |keys| && keys[k] !in keys[..k] ==> midpoints[keys[j]] < midpoints[keys[k]])
  }

  /** Once every whole triangle is looked up, the cache numbers all lookups in the order they were met. */
  lemma AllLookupsMet(indices: seq<Index>, lo: nat, cache: map<Edge, Index>, coords: seq<Coord>)
    requires MetSoFar(LookupKeysOf(indices, TriangleCount(indices)), lo, cache, coords)
    ensures NumberedAsMet(cache, LookupKeys(indices))
  {
    var keys := LookupKeys(indices);
    LookupKeysPrefix(indices, TriangleCount(indices));
    assert keys[..|keys|] == keys;
    CreationOrder(cache, keys, lo);
  }

  /** Numbering the distinct lookups consecutively is numbering them in the order they are met. */
  lemma CreationOrder(midpoints: map<Edge, Index>, keys: seq<Edge>, lo: nat)
    requires NumberedInOrder(midpoints, Dedup(keys), lo)
    ensures NumberedAsMet(midpoints, keys)
  {
    var d := Dedup(keys);
    DedupMembers(keys);
    forall k | 0 <= k < |keys|
      ensures keys[k] in midpoints
    {
      assert keys[k] in d;
      var p :| 0 <= p < |d| && d[p] == keys[k];
    }
    forall j, k | 0 <= j < k < |keys| && keys[k] !in keys[..k]
      ensures midpoints[keys[j]] < midpoints[keys[k]]
    {
      FirstMeeting(keys, j, k);
      var q :| 0 <= q < |Dedup(keys[..k])| && d[q] == keys[j];
    }
  }

  /**
   * After the lookups `keys`, the cache numbers the edges met so far
   * consecutively from `lo` in the order they were met, and the vertex
   * array ends with exactly those new vertices.
   */
  ghost predicate MetSoFar(keys: seq<Edge>, lo: nat, cache: map<Edge, Index>, coords: seq<Coord>)
  {
    NumberedInOrder(cache, Dedup(keys), lo) && |coords| == 3 * (lo + |Dedup(keys)|)
  }

  /** A lookup numbers an edge it meets for the first time with the next free index. */
  lemma LookupNumbers(
    midpoints: map<Edge, Index>, coords: seq<Coord>, i0: Index, i1: Index,
    index: Index, midpoints': map<Edge, Index>, coords': seq<Coord>, order: seq<Edge>, lo: nat)
    requires NumberedInOrder(midpoints, order, lo) && |coords| == 3 * (lo + |order|)
    requires Lookup(midpoints, coords, i0, i1, index, midpoints', coords')
    ensures var order' := AddEdge(order, EdgeKey(i0, i1));
      NumberedInOrder(midpoints', order', lo) && |coords'| == 3 * (lo + |order'|)
  {
    var key := EdgeKey(i0, i1);
    if key !in midpoints {
      assert key !in order;
      assert midpoints'.Keys == midpoints.Keys + {key};
    }
  }

  /** The three lookups of triangle `t` of a pass number the edges met for the first time in it. */
  lemma TriangleMeets(
    indices: seq<Index>, t: nat, lo: nat,
    cache0: map<Edge, Index>, coords0: seq<Coord>, m01: Index,
    cache1: map<Edge, Index>, coords1: seq<Coord>, m12: Index,
    cache2: map<Edge, Index>, coords2: seq<Coord>, m02: Index,
    cache: map<Edge, Index>, coords: seq<Coord>)
    requires 3 * t + 3 <= |indices|
    requires MetSoFar(LookupKeysOf(indices, t), lo, cache0, coords0)
    requires var i0, i1, i2 := indices[3 * t], indices[3 * t + 1], indices[3 * t + 2];
      && Lookup(cache0, coords0, i0, i1, m01, cache1, coords1)
      && Lookup(cache1, coords1, i1, i2, m12, cache2, coords2)
      && Lookup(cache2, coords2, i2, i0, m02, cache, coords)
    ensures MetSoFar(LookupKeysOf(indices, t + 1), lo, cache, coords)
  {
    TriangleNumbers(
      LookupKeysOf(indices, t), lo, indices[3 * t], indices[3 * t + 1], indices[3 * t + 2],
      cache0, coords0, m01, cache1, coords1, m12, cache2, coords2, m02, cache, coords);
  }

  /** The three lookups of a triangle number the edges it meets for the first time, in lookup order. */
  lemma TriangleNumbers(
    keys: seq<Edge>, lo: nat, i0: Index, i1: Index, i2: Index,
    cache0: map<Edge, Index>, coords0: seq<Coord>, m01: Index,
    cache1: map<Edge, Index>, coords1: seq<Coord>, m12: Index,
    cache2: map<Edge, Index>, coords2: seq<Coord>, m02: Index,
    cache: map<Edge, Index>, coords: seq<Coord>)
    requires MetSoFar(keys, lo, cache0, coords0)
    requires Lookup(cache0, coords0, i0, i1, m01, cache1, coords1)
    requires Lookup(cache1, coords1, i1, i2, m12, cache2, coords2)
    requires Lookup(cache2, coords2, i2, i0, m02, cache, coords)
    ensures MetSoFar(keys + [EdgeKey(i0, i1), EdgeKey(i1, i2), EdgeKey(i2, i0)], lo, cache, coords)
  {
    DedupThree(keys, EdgeKey(i0, i1), EdgeKey(i1, i2), EdgeKey(i2, i0));
    ThreeLookupsNumber(
      Dedup(keys), lo, i0, i1, i2,
      cache0, coords0, m01, cache1, coords1, m12, cache2, coords2, m02, cache, coords);
  }

  /** Appending one entry to `s` adds it to Dedup(s) unless it occurred. */
  lemma DedupAppend(s: seq<Edge>, e: Edge)
    ensures Dedup(s + [e]) == AddEdge(Dedup(s), e)
  {
    assert (s + [e])[..|s|] == s;
  }

  /** Appending three entries adds each in turn unless it occurred. */
  lemma DedupThree(s: seq<Edge>, a: Edge, b: Edge, c: Edge)
    ensures Dedup(s + [a, b, c]) == AddEdge(AddEdge(AddEdge(Dedup(s), a), b), c)
  {
    DedupAppend(s, a);
    DedupAppend(s + [a], b);
    DedupAppend(s + [a, b], c);
    assert s + [a] + [b] == s + [a, b] && s + [a, b] + [c] == s + [a, b, c];
  }

  /** Three lookups in a row number each edge they meet for the first time with the next free index. */
  lemma ThreeLookupsNumber(
    order: seq<Edge>, lo: nat, i0: Index, i1: Index, i2: Index,
    cache0: map<Edge, Index>, coords0: seq<Coord>, m01: Index,
    cache1: map<Edge, Index>, coords1: seq<Coord>, m12: Index,
    cache2: map<Edge, Index>, coords2: seq<Coord>, m02: Index,
    cache: map<Edge, Index>, coords: seq<Coord>)
    requires NumberedInOrder(cache0, order, lo) && |coords0| == 3 * (lo + |order|)
    requires Lookup(cache0, coords0, i0, i1, m01, cache1, coords1)
    requires Lookup(cache1, coords1, i1, i2, m12, cache2, coords2)
    requires Lookup(cache2, coords2, i2, i0, m02, cache, coords)
    ensures var order' := AddEdge(AddEdge(AddEdge(order, EdgeKey(i0, i1)), EdgeKey(i1, i2)), EdgeKey(i2, i0));
      NumberedInOrder(cache, order', lo) && |coords| == 3 * (lo + |order'|)
  {
    var s1 := AddEdge(order, EdgeKey(i0, i1));
    var s2 := AddEdge(s1, EdgeKey(i1, i2));
    LookupNumbers(cache0, coords0, i0, i1, m01, cache1, coords1, order, lo);
    LookupNumbers(cache1, coords1, i1, i2, m12, cache2, coords2, s1, lo);
    LookupNumbers(cache2, coords2, i2, i0, m02, cache, coords, s2, lo);
  }

  /**
   * With 3 vertices and the one triangle (0, 1, 2), a cache whose indices
   * are distinct, lie in [3, 6) and follow the order the edges are met
   * gives (0, 1), (1, 2), (0, 2) the indices 3, 4, 5, so the emitted
   * indices are fixed.
   */
  lemma OneTriangleSplit(midpoints: map<Edge, Index>)
    requires FreshMidpoints(midpoints, 3, 6)
    requires NumberedAsMet(midpoints, LookupKeys([0, 1, 2]))
    ensures Recorded([0, 1, 2], 0, midpoints)
    ensures Split([0, 1, 2], 0, midpoints) == [0, 3, 5, 1, 4, 3, 2, 5, 4, 5, 3, 4]
  {
    var indices: seq<Index> := [0, 1, 2];
    var keys := LookupKeys(indices);
    assert keys[0] == (0, 1) && keys[1] == (1, 2) && keys[2] == (0, 2);
    assert keys[1] !in keys[..1] && keys[2] !in keys[..2];
    assert midpoints[keys[0]] < midpoints[keys[1]] < midpoints[keys[2]];
  }

  /** The cache holds the three edge keys of triangle `t`. */
  predicate Recorded(indices: seq<Index>, t: nat, midpoints: map<Edge, Index>)
    requires 3 * t + 3 <= |indices|
  {
    var i0, i1, i2 := indices[3 * t], indices[3 * t + 1], indices[3 * t + 2];
    EdgeKey(i0, i1) in midpoints && EdgeKey(i1, i2) in midpoints && EdgeKey(i2, i0) in midpoints
  }

  /** The 12 indices emitted for triangle `t`, whose midpoints are recorded in `midpoints`. */
  function Split(indices: seq<Index>, t: nat, midpoints: map<Edge, Index>): (block: seq<Index>)
    requires 3 * t + 3 <= |indices|
    requires Recorded(indices, t, midpoints)
    ensures |block| == 12
  {
    var i0, i1, i2 := indices[3 * t], indices[3 * t + 1], indices[3 * t + 2];
    var m01, m12, m02 := midpoints[EdgeKey(i0, i1)], midpoints[EdgeKey(i1, i2)], midpoints[EdgeKey(i2, i0)];
    [i0, m01, m02,
     i1, m12, m01,
     i2, m02, m12,
     m02, m01, m12]
  }

  /** The 12 output indices of triangle `t`. */
  function Block(s: seq<Index>, t: nat): seq<Index>
    requires 12 * t + 12 <= |s|
  {
    s[12 * t..12 * t + 12]
  }

  /** The cache's indices are distinct and all lie in [lo, hi). */
  ghost predicate FreshMidpoints(midpoints: map<Edge, Index>, lo: nat, hi: nat)
  {
    && (forall e :: e in midpoints ==> lo <= midpoints[e] < hi)
    && (forall e, f :: e in midpoints && f in midpoints && e != f ==> midpoints[e] != midpoints[f])
  }

  /**
   * What holds of the cache and the growing vertex array throughout a pass
   * that started from the flat array `v0`.
   */
  ghost predicate PassInvariant(v0: seq<Coord>, midpoints: map<Edge, Index>, coords: seq<Coord>)
  {
    && |coords| % 3 == 0
    && |v0| <= |coords| && coords[..|v0|] == v0
    && |coords| == |v0| + 3 * |midpoints.Keys|
    && FreshMidpoints(midpoints, |v0| / 3, |coords| / 3)
    && (forall e :: e in midpoints && e.1 < |v0| / 3 ==> VertexAt(coords, midpoints[e]) == MidpointOf(v0, e.0, e.1))
  }

  /** `m2` keeps every entry of `m1`. */
  ghost predicate Extends(m2: map<Edge, Index>, m1: map<Edge, Index>)
  {
    forall e :: e in m1 ==> e in m2 && m2[e] == m1[e]
  }

  /** Reading an original vertex from the grown array gives the original coordinates. */
  lemma VertexOfPrefix(v0: seq<Coord>, coords: seq<Coord>, k: Index)
    requires |v0| <= |coords| && coords[..|v0|] == v0
    requires 3 * k + 3 <= |v0|
    ensures VertexAt(coords, k) == VertexAt(v0, k)
  {
    assert coords[3 * k] == v0[3 * k] && coords[3 * k + 1] == v0[3 * k + 1] && coords[3 * k + 2] == v0[3 * k + 2];
  }

  /** One getMidpointIndex call keeps the pass invariant. */
  lemma LookupKeepsPassInvariant(
    v0: seq<Coord>, midpoints: map<Edge, Index>, coords: seq<Coord>, i0: Index, i1: Index,
    index: Index, midpoints': map<Edge, Index>, coords': seq<Coord>)
    requires |v0| % 3 == 0 && PassInvariant(v0, midpoints, coords)
    requires Lookup(midpoints, coords, i0, i1, index, midpoints', coords')
    ensures PassInvariant(v0, midpoints', coords')
  {
    if EdgeKey(i0, i1) !in midpoints {
      MissKeepsPassInvariant(v0, midpoints, coords, i0, i1);
    }
  }

  /** A miss appends one vertex, the edge's midpoint, and keeps the pass invariant. */
  lemma MissKeepsPassInvariant(v0: seq<Coord>, midpoints: map<Edge, Index>, coords: seq<Coord>, i0: Index, i1: Index)
    requires |v0| % 3 == 0 && PassInvariant(v0, midpoints, coords)
    requires EdgeKey(i0, i1) !in midpoints
    ensures var coords' := coords + MidpointOf(coords, i0, i1);
      PassInvariant(v0, midpoints[EdgeKey(i0, i1) := |coords| / 3], coords')
  {
    if EdgeKey(i0, i1).1 < |v0| / 3 {
      MissGeometry(v0, coords, i0, i1);
    }
    AppendKeepsPassInvariant(v0, midpoints, coords, EdgeKey(i0, i1), MidpointOf(coords, i0, i1));
  }

  /**
   * Caching a new edge at the next free index while appending one vertex
   * keeps the pass invariant, provided that vertex is the edge's midpoint
   * whenever the edge joins two original vertices.
   */
  lemma AppendKeepsPassInvariant(v0: seq<Coord>, midpoints: map<Edge, Index>, coords: seq<Coord>, key: Edge, m: seq<Coord>)
    requires |v0| % 3 == 0 && PassInvariant(v0, midpoints, coords)
    requires key !in midpoints && |m| == 3
    requires key.1 < |v0| / 3 ==> VertexAt(coords + m, |coords| / 3) == MidpointOf(v0, key.0, key.1)
    ensures PassInvariant(v0, midpoints[key := |coords| / 3], coords + m)
  {
    AppendKeepsPrefix(v0, coords, m);
    NewEntryKeepsFresh(midpoints, key, |v0| / 3, |coords| / 3);
    NewEntryKeepsGeometry(v0, midpoints, coords, key, m);
  }

  /** Appending a vertex leaves the vertices of the earlier entries where they were. */
  lemma NewEntryKeepsGeometry(v0: seq<Coord>, midpoints: map<Edge, Index>, coords: seq<Coord>, key: Edge, m: seq<Coord>)
    requires forall e :: e in midpoints ==> 3 * midpoints[e] + 3 <= |coords|
    requires forall e :: e in midpoints && e.1 < |v0| / 3 ==> VertexAt(coords, midpoints[e]) == MidpointOf(v0, e.0, e.1)
    requires key.1 < |v0| / 3 ==> VertexAt(coords + m, |coords| / 3) == MidpointOf(v0, key.0, key.1)
    ensures var midpoints' := midpoints[key := |coords| / 3];
      forall e :: e in midpoints' && e.1 < |v0| / 3 ==> VertexAt(coords + m, midpoints'[e]) == MidpointOf(v0, e.0, e.1)
  {
    var midpoints': map<Edge, Index> := midpoints[key := |coords| / 3];
    forall e | e in midpoints' && e.1 < |v0| / 3
      ensures VertexAt(coords + m, midpoints'[e]) == MidpointOf(v0, e.0, e.1)
    {
      if e != key {
        assert VertexAt(coords + m, midpoints[e]) == VertexAt(coords, midpoints[e]);
      }
    }
  }

  /** Caching a new edge at the next free index keeps the cache's indices distinct and in range. */
  lemma NewEntryKeepsFresh(midpoints: map<Edge, Index>, key: Edge, lo: nat, hi: nat)
    requires FreshMidpoints(midpoints, lo, hi) && lo <= hi
    requires key !in midpoints
    ensures FreshMidpoints(midpoints[key := hi], lo, hi + 1)
    ensures |midpoints[key := hi].Keys| == |midpoints.Keys| + 1
  {
    assert midpoints[key := hi].Keys == midpoints.Keys + {key};
  }

  /** Appending one vertex to a whole-vertex array keeps its prefix and adds one vertex. */
  lemma AppendKeepsPrefix(v0: seq<Coord>, coords: seq<Coord>, m: seq<Coord>)
    requires |coords| % 3 == 0 && |m| == 3
    requires |v0| <= |coords| && coords[..|v0|] == v0
    ensures (coords + m)[..|v0|] == v0
    ensures |coords + m| % 3 == 0 && |coords + m| / 3 == |coords| / 3 + 1
  {
    assert (coords + m)[..|coords|] == coords;
    assert (coords + m)[..|v0|] == coords[..|v0|];
  }

  /** The vertex a miss appends is the midpoint of the edge in the original array. */
  lemma MissGeometry(v0: seq<Coord>, coords: seq<Coord>, i0: Index, i1: Index)
    requires |v0| % 3 == 0 && |coords| % 3 == 0
    requires |v0| <= |coords| && coords[..|v0|] == v0
    requires EdgeKey(i0, i1).1 < |v0| / 3
    ensures VertexAt(coords + MidpointOf(coords, i0, i1), |coords| / 3) == MidpointOf(v0, EdgeKey(i0, i1).0, EdgeKey(i0, i1).1)
  {
    var n0 := |v0| / 3;
    var coords' := coords + MidpointOf(coords, i0, i1);
    assert VertexAt(coords', |coords| / 3) == MidpointOf(coords, i0, i1);
    assert i0 < n0 && i1 < n0;
    VertexOfPrefix(v0, coords, i0);
    VertexOfPrefix(v0, coords, i1);
    assert MidpointOf(coords, i0, i1) == MidpointOf(v0, i0, i1);
    MidpointOfUnordered(v0, i0, i1);
  }

  /**
   * `subdivide`: split every whole triangle (i0, i1, i2) of `mesh` into
   * (i0, m01, m02), (i1, m12, m01), (i2, m02, m12), (m02, m01, m12), where
   * mAB is the cached midpoint vertex of edge {iA, iB}. The ghost result
   * `midpoints` is the pass's cache when the loop ends. New vertices are
   * numbered in creation order: FreshMidpoints and NumberedAsMet together
   * fix every cached index (OneTriangleSplit works one case out).
   */
  method Subdivide(mesh: Mesh) returns (result: Mesh, ghost midpoints: map<Edge, Index>)
    requires |mesh.vertices| % 3 == 0
    ensures PassResult(mesh, result, midpoints)
  {
    var indices := mesh.indices;
    var midpointIndices := new EdgeMidpointCache();
    var indexList: seq<Index> := [];
    var vertexList := new VertexList(mesh.vertices);
    ghost var done := 0;
    var i := 0;
    while i < |indices| - 2
      invariant i == 3 * done && 3 * done <= |indices|
      invariant SplitSoFar(mesh.vertices, indices, done, midpointIndices.entries, vertexList.coords, indexList)
      invariant MetSoFar(LookupKeysOf(indices, done), |mesh.vertices| / 3, midpointIndices.entries, vertexList.coords)
      decreases |indices| - i
    {
      assert 3 * done + 3 <= |indices|;
      ghost var cache0, coords0 := midpointIndices.entries, vertexList.coords;
      var block, cache1, coords1, cache2, coords2 := SplitTriangle(midpointIndices, vertexList, indices, i, done, mesh.vertices);
      TriangleMeets(
        indices, done, |mesh.vertices| / 3,
        cache0, coords0, block[1], cache1, coords1, block[4], cache2, coords2, block[2],
        midpointIndices.entries, vertexList.coords);
      TriangleStep(mesh.vertices, indices, done, cache0, coords0, midpointIndices.entries, vertexList.coords, indexList, block);
      indexList := indexList + block;
      i := i + 3;
      done := done + 1;
    }
    WholeTriangles(|indices|, done);
    midpoints := midpointIndices.entries;
    AllLookupsMet(indices, |mesh.vertices| / 3, midpoints, vertexList.coords);
    result := Mesh(vertexList.coords, None, indexList);
    AllTrianglesSplit(mesh.vertices, indices, midpoints, result.vertices, result.indices);
  }

  /**
   * What one pass of `subdivide` turns `mesh` into, with `midpoints` its
   * cache at the end: no uvs; the input vertices followed by one new vertex
   * per distinct undirected edge, at that edge's midpoint, numbered from the
   * old vertex count in the order the edges are first looked up; and 12
   * indices per whole input triangle, each block the triangle's split.
   */
  ghost predicate PassResult(mesh: Mesh, result: Mesh, midpoints: map<Edge, Index>)
  {
    && result.uvs == None
    && |result.vertices| % 3 == 0
    && |mesh.vertices| <= |result.vertices| && result.vertices[..|mesh.vertices|] == mesh.vertices
    && midpoints.Keys == DistinctEdges(mesh.indices)
    && |result.vertices| == |mesh.vertices| + 3 * |midpoints|
    && FreshMidpoints(midpoints, |mesh.vertices| / 3, |result.vertices| / 3)
    && NumberedAsMet(midpoints, LookupKeys(mesh.indices))
    && (forall e :: e in midpoints && e.1 < |mesh.vertices| / 3 ==>
      VertexAt(result.vertices, midpoints[e]) == MidpointOf(mesh.vertices, e.0, e.1))
    && |result.indices| == 12 * TriangleCount(mesh.indices)
    && (forall t :: 0 <= t < TriangleCount(mesh.indices) ==> Recorded(mesh.indices, t, midpoints))
    && (forall t :: 0 <= t < TriangleCount(mesh.indices) ==>
      Block(result.indices, t) == Split(mesh.indices, t, midpoints))
    && (IndicesBelow(mesh.indices, |mesh.vertices| / 3) ==> IndicesBelow(result.indices, |result.vertices| / 3))
  }

  /**
   * The loop invariant of a pass after `done` triangles: the pass invariant
   * holds, the cache holds exactly the edges seen so far, and each emitted
   * block of 12 is the split of its triangle.
   */
  ghost predicate SplitSoFar(
    v0: seq<Coord>, indices: seq<Index>, done: nat,
    cache: map<Edge, Index>, coords: seq<Coord>, indexList: seq<Index>)
    requires 3 * done <= |indices|
  {
    && PassInvariant(v0, cache, coords)
    && cache.Keys == EdgesOf(indices, done)
    && |indexList| == 12 * done
    && (forall t :: 0 <= t < done ==> Recorded(indices, t, cache))
    && (forall t :: 0 <= t < done ==> Block(indexList, t) == Split(indices, t, cache))
    && (IndicesBelow(indices, |v0| / 3) ==> IndicesBelow(indexList, |coords| / 3))
  }

  /** The loop stops after the last whole triangle. */
  lemma WholeTriangles(n: nat, done: nat)
    requires 3 * done <= n && !(3 * done < n - 2)
    ensures done == n / 3
  {
  }

  /** Appending entries below a larger bound keeps every entry below it. */
  lemma BelowGrows(s: seq<Index>, block: seq<Index>, n: nat, n': nat)
    requires IndicesBelow(s, n) && n <= n'
    requires IndicesBelow(block, n')
    ensures IndicesBelow(s + block, n')
  {
  }

  /**
   * One loop iteration keeps the loop invariant: after the three lookups of
   * triangle `done` the cache holds the edges of one more triangle, and the
   * emitted blocks, old and new, read their midpoints from it.
   */
  lemma TriangleStep(
    v0: seq<Coord>, indices: seq<Index>, done: nat,
    cache0: map<Edge, Index>, coords0: seq<Coord>, cache: map<Edge, Index>, coords: seq<Coord>,
    indexList: seq<Index>, block: seq<Index>)
    requires 3 * done + 3 <= |indices|
    requires SplitSoFar(v0, indices, done, cache0, coords0, indexList)
    requires PassInvariant(v0, cache, coords)
    requires Extends(cache, cache0) && cache.Keys == cache0.Keys + TriangleEdges(indices, done)
    requires Recorded(indices, done, cache) && block == Split(indices, done, cache)
    requires |coords0| <= |coords|
    requires IndicesBelow(indices, |v0| / 3) ==> IndicesBelow(block, |coords| / 3)
    ensures SplitSoFar(v0, indices, done + 1, cache, coords, indexList + block)
  {
    BlocksStep(indices, done, cache0, cache, indexList, block);
    if IndicesBelow(indices, |v0| / 3) {
      BelowGrows(indexList, block, |coords0| / 3, |coords| / 3);
    }
  }

  /** The blocks emitted so far, and the new one, read their midpoints from the grown cache. */
  lemma BlocksStep(
    indices: seq<Index>, done: nat, cache0: map<Edge, Index>, cache: map<Edge, Index>,
    indexList: seq<Index>, block: seq<Index>)
    requires 3 * done + 3 <= |indices|
    requires cache0.Keys == EdgesOf(indices, done)
    requires forall t :: 0 <= t < done ==> Recorded(indices, t, cache0)
    requires |indexList| == 12 * done
    requires forall t :: 0 <= t < done ==> Block(indexList, t) == Split(indices, t, cache0)
    requires Extends(cache, cache0) && cache.Keys == cache0.Keys + TriangleEdges(indices, done)
    requires Recorded(indices, done, cache) && block == Split(indices, done, cache)
    ensures cache.Keys == EdgesOf(indices, done + 1)
    ensures forall t :: 0 <= t < done + 1 ==> Recorded(indices, t, cache)
    ensures |indexList + block| == 12 * (done + 1)
    ensures forall t :: 0 <= t < done + 1 ==> Block(indexList + block, t) == Split(indices, t, cache)
  {
    var s := indexList + block;
    forall t | 0 <= t < done + 1
      ensures Recorded(indices, t, cache) && Block(s, t) == Split(indices, t, cache)
    {
      if t < done {
        assert Block(s, t) == Block(indexList, t);
        SplitStable(indices, t, cache0, cache);
      } else {
        assert Block(s, t) == block;
      }
    }
  }

  /** Once every whole triangle is split, the loop invariant gives what a pass promises. */
  lemma AllTrianglesSplit(
    v0: seq<Coord>, indices: seq<Index>, midpoints: map<Edge, Index>, coords: seq<Coord>, indexList: seq<Index>)
    requires SplitSoFar(v0, indices, TriangleCount(indices), midpoints, coords, indexList)
    ensures |coords| % 3 == 0
    ensures |v0| <= |coords| && coords[..|v0|] == v0
    ensures midpoints.Keys == DistinctEdges(indices)
    ensures |coords| == |v0| + 3 * |midpoints|
    ensures FreshMidpoints(midpoints, |v0| / 3, |coords| / 3)
    ensures forall e :: e in midpoints && e.1 < |v0| / 3 ==>
      VertexAt(coords, midpoints[e]) == MidpointOf(v0, e.0, e.1)
    ensures |indexList| == 12 * TriangleCount(indices)
    ensures forall t :: 0 <= t < TriangleCount(indices) ==> Recorded(indices, t, midpoints)
    ensures forall t :: 0 <= t < TriangleCount(indices) ==>
      Block(indexList, t) == Split(indices, t, midpoints)
    ensures IndicesBelow(indices, |v0| / 3) ==> IndicesBelow(indexList, |coords| / 3)
  {
    EdgesOfAllTriangles(indices);
  }

  /**
   * The body of subdivide's loop for the triangle starting at `indices[i]`:
   * look up the midpoints of its three edges, in the order (i0, i1),
   * (i1, i2), (i2, i0), and return its four sub-triangles.
   */
  method SplitTriangle(
    midpointIndices: EdgeMidpointCache, vertexList: VertexList,
    indices: seq<Index>, i: nat, ghost t: nat, ghost v0: seq<Coord>)
    returns (block: seq<Index>,
             ghost cache1: map<Edge, Index>, ghost coords1: seq<Coord>,
             ghost cache2: map<Edge, Index>, ghost coords2: seq<Coord>)
    requires i == 3 * t && 3 * t + 3 <= |indices|
    requires |v0| % 3 == 0 && PassInvariant(v0, midpointIndices.entries, vertexList.coords)
    modifies midpointIndices, vertexList
    ensures PassInvariant(v0, midpointIndices.entries, vertexList.coords)
    ensures Extends(midpointIndices.entries, old(midpointIndices.entries))
    ensures midpointIndices.entries.Keys == old(midpointIndices.entries.Keys) + TriangleEdges(indices, t)
    ensures Recorded(indices, t, midpointIndices.entries) && block == Split(indices, t, midpointIndices.entries)
    ensures var i0, i1, i2 := indices[3 * t], indices[3 * t + 1], indices[3 * t + 2];
      && Lookup(old(midpointIndices.entries), old(vertexList.coords), i0, i1, block[1], cache1, coords1)
      && Lookup(cache1, coords1, i1, i2, block[4], cache2, coords2)
      && Lookup(cache2, coords2, i2, i0, block[2], midpointIndices.entries, vertexList.coords)
    ensures old(vertexList.coords) <= vertexList.coords
    ensures IndicesBelow(indices, |v0| / 3) ==> IndicesBelow(block, |vertexList.coords| / 3)
  {
    var i0, i1, i2 := indices[i], indices[i + 1], indices[i + 2];
    assert i0 == indices[3 * t] && i1 == indices[3 * t + 1] && i2 == indices[3 * t + 2];
    ghost var cache0, coords0 := midpointIndices.entries, vertexList.coords;
    var m01 := GetMidpointIndex(midpointIndices, vertexList, i0, i1);
    cache1, coords1 := midpointIndices.entries, vertexList.coords;
    var m12 := GetMidpointIndex(midpointIndices, vertexList, i1, i2);
    cache2, coords2 := midpointIndices.entries, vertexList.coords;
    var m02 := GetMidpointIndex(midpointIndices, vertexList, i2, i0);
    block := [i0, m01, m02,
              i1, m12, m01,
              i2, m02, m12,
              m02, m01, m12];
    BlockMidpoints(block, i0, i1, i2, m01, m12, m02);
    TriangleEffects(
      v0, indices, t, cache0, coords0, m01, cache1, coords1, m12, cache2, coords2, m02,
      midpointIndices.entries, vertexList.coords, block);
  }

  /** Where the three midpoints of a triangle first appear in its block. */
  lemma BlockMidpoints(block: seq<Index>, i0: Index, i1: Index, i2: Index, m01: Index, m12: Index, m02: Index)
    requires block == [i0, m01, m02, i1, m12, m01, i2, m02, m12, m02, m01, m12]
    ensures |block| == 12 && block[1] == m01 && block[4] == m12 && block[2] == m02
  {
  }

  /** What the three lookups of triangle `t` do to the cache, the vertex array and the emitted block. */
  lemma TriangleEffects(
    v0: seq<Coord>, indices: seq<Index>, t: nat,
    cache0: map<Edge, Index>, coords0: seq<Coord>, m01: Index,
    cache1: map<Edge, Index>, coords1: seq<Coord>, m12: Index,
    cache2: map<Edge, Index>, coords2: seq<Coord>, m02: Index,
    cache: map<Edge, Index>, coords: seq<Coord>, block: seq<Index>)
    requires 3 * t + 3 <= |indices|
    requires |v0| % 3 == 0 && PassInvariant(v0, cache0, coords0)
    requires var i0, i1, i2 := indices[3 * t], indices[3 * t + 1], indices[3 * t + 2];
      && Lookup(cache0, coords0, i0, i1, m01, cache1, coords1)
      && Lookup(cache1, coords1, i1, i2, m12, cache2, coords2)
      && Lookup(cache2, coords2, i2, i0, m02, cache, coords)
      && block == [i0, m01, m02, i1, m12, m01, i2, m02, m12, m02, m01, m12]
    ensures PassInvariant(v0, cache, coords)
    ensures Extends(cache, cache0)
    ensures cache.Keys == cache0.Keys + TriangleEdges(indices, t)
    ensures Recorded(indices, t, cache) && block == Split(indices, t, cache)
    ensures coords0 <= coords
    ensures IndicesBelow(indices, |v0| / 3) ==> IndicesBelow(block, |coords| / 3)
  {
    TriangleKeepsPassInvariant(
      v0, indices, t, cache0, coords0, m01, cache1, coords1, m12, cache2, coords2, m02, cache, coords);
    TriangleRecords(
      indices, t, cache0, coords0, m01, cache1, coords1, m12, cache2, coords2, m02, cache, coords, block);
    if IndicesBelow(indices, |v0| / 3) {
      TriangleBelow(
        |v0| / 3, indices, t, cache0, coords0, m01, cache1, coords1, m12, cache2, coords2, m02, cache, coords, block);
    }
  }


  /** The three lookups of triangle `t` keep the pass invariant. */
  lemma TriangleKeepsPassInvariant(
    v0: seq<Coord>, indices: seq<Index>, t: nat,
    cache0: map<Edge, Index>, coords0: seq<Coord>, m01: Index,
    cache1: map<Edge, Index>, coords1: seq<Coord>, m12: Index,
    cache2: map<Edge, Index>, coords2: seq<Coord>, m02: Index,
    cache: map<Edge, Index>, coords: seq<Coord>)
    requires 3 * t + 3 <= |indices|
    requires |v0| % 3 == 0 && PassInvariant(v0, cache0, coords0)
    requires var i0, i1, i2 := indices[3 * t], indices[3 * t + 1], indices[3 * t + 2];
      && Lookup(cache0, coords0, i0, i1, m01, cache1, coords1)
      && Lookup(cache1, coords1, i1, i2, m12, cache2, coords2)
      && Lookup(cache2, coords2, i2, i0, m02, cache, coords)
    ensures PassInvariant(v0, cache, coords)
  {
    var i0, i1, i2 := indices[3 * t], indices[3 * t + 1], indices[3 * t + 2];
    LookupKeepsPassInvariant(v0, cache0, coords0, i0, i1, m01, cache1, coords1);
    LookupKeepsPassInvariant(v0, cache1, coords1, i1, i2, m12, cache2, coords2);
    LookupKeepsPassInvariant(v0, cache2, coords2, i2, i0, m02, cache, coords);
  }

  /** A lookup keeps every entry, records its edge with the returned index, and only appends. */
  lemma LookupRecords(
    midpoints: map<Edge, Index>, coords: seq<Coord>, i0: Index, i1: Index,
    index: Index, midpoints': map<Edge, Index>, coords': seq<Coord>)
    requires Lookup(midpoints, coords, i0, i1, index, midpoints', coords')
    ensures Extends(midpoints', midpoints) && coords <= coords'
    ensures midpoints'.Keys == midpoints.Keys + {EdgeKey(i0, i1)}
    ensures EdgeKey(i0, i1) in midpoints' && midpoints'[EdgeKey(i0, i1)] == index
  {
  }

  /**
   * Looking up the same unordered pair again, in either order, is a hit:
   * it returns the first call's index and changes nothing, so two calls
   * append at most one vertex.
   */
  lemma RepeatedLookupHits(
    midpoints: map<Edge, Index>, coords: seq<Coord>, i0: Index, i1: Index, j0: Index, j1: Index,
    first: Index, midpoints1: map<Edge, Index>, coords1: seq<Coord>,
    second: Index, midpoints2: map<Edge, Index>, coords2: seq<Coord>)
    requires {j0, j1} == {i0, i1}
    requires Lookup(midpoints, coords, i0, i1, first, midpoints1, coords1)
    requires Lookup(midpoints1, coords1, j0, j1, second, midpoints2, coords2)
    ensures second == first && midpoints2 == midpoints1 && coords2 == coords1
    ensures |coords2| <= |coords| + 3
  {
    EdgeKeyUnordered(i0, i1, j0, j1);
    LookupRecords(midpoints, coords, i0, i1, first, midpoints1, coords1);
  }

  /**
   * The three lookups of triangle `t` add exactly the triangle's edges to
   * the cache, keep every earlier entry, and yield the triangle's split.
   */
  lemma TriangleRecords(
    indices: seq<Index>, t: nat,
    cache0: map<Edge, Index>, coords0: seq<Coord>, m01: Index,
    cache1: map<Edge, Index>, coords1: seq<Coord>, m12: Index,
    cache2: map<Edge, Index>, coords2: seq<Coord>, m02: Index,
    cache: map<Edge, Index>, coords: seq<Coord>, block: seq<Index>)
    requires 3 * t + 3 <= |indices|
    requires var i0, i1, i2 := indices[3 * t], indices[3 * t + 1], indices[3 * t + 2];
      && Lookup(cache0, coords0, i0, i1, m01, cache1, coords1)
      && Lookup(cache1, coords1, i1, i2, m12, cache2, coords2)
      && Lookup(cache2, coords2, i2, i0, m02, cache, coords)
      && block == [i0, m01, m02, i1, m12, m01, i2, m02, m12, m02, m01, m12]
    ensures Extends(cache, cache0)
    ensures cache.Keys == cache0.Keys + TriangleEdges(indices, t)
    ensures Recorded(indices, t, cache) && block == Split(indices, t, cache)
    ensures coords0 <= coords
  {
    var i0, i1, i2 := indices[3 * t], indices[3 * t + 1], indices[3 * t + 2];
    LookupRecords(cache0, coords0, i0, i1, m01, cache1, coords1);
    LookupRecords(cache1, coords1, i1, i2, m12, cache2, coords2);
    LookupRecords(cache2, coords2, i2, i0, m02, cache, coords);
    TriangleLookups(indices, t, cache0, cache, block);
  }

  /** Every cached index is below `hi`. */
  ghost predicate CachedBelow(midpoints: map<Edge, Index>, hi: nat)
  {
    forall e :: e in midpoints ==> midpoints[e] < hi
  }

  /** A lookup returns an index of the grown array and keeps the cache inside it. */
  lemma LookupBelow(
    midpoints: map<Edge, Index>, coords: seq<Coord>, i0: Index, i1: Index,
    index: Index, midpoints': map<Edge, Index>, coords': seq<Coord>)
    requires CachedBelow(midpoints, |coords| / 3)
    requires Lookup(midpoints, coords, i0, i1, index, midpoints', coords')
    ensures CachedBelow(midpoints', |coords'| / 3) && index < |coords'| / 3 && |coords| <= |coords'|
  {
  }

  /** Given corners below `n0`, every index the three lookups put in the block is a vertex. */
  lemma TriangleBelow(
    n0: nat, indices: seq<Index>, t: nat,
    cache0: map<Edge, Index>, coords0: seq<Coord>, m01: Index,
    cache1: map<Edge, Index>, coords1: seq<Coord>, m12: Index,
    cache2: map<Edge, Index>, coords2: seq<Coord>, m02: Index,
    cache: map<Edge, Index>, coords: seq<Coord>, block: seq<Index>)
    requires 3 * t + 3 <= |indices| && IndicesBelow(indices, n0)
    requires n0 <= |coords0| / 3 && CachedBelow(cache0, |coords0| / 3)
    requires var i0, i1, i2 := indices[3 * t], indices[3 * t + 1], indices[3 * t + 2];
      && Lookup(cache0, coords0, i0, i1, m01, cache1, coords1)
      && Lookup(cache1, coords1, i1, i2, m12, cache2, coords2)
      && Lookup(cache2, coords2, i2, i0, m02, cache, coords)
      && block == [i0, m01, m02, i1, m12, m01, i2, m02, m12, m02, m01, m12]
    ensures IndicesBelow(block, |coords| / 3)
  {
    var i0, i1, i2 := indices[3 * t], indices[3 * t + 1], indices[3 * t + 2];
    LookupBelow(cache0, coords0, i0, i1, m01, cache1, coords1);
    LookupBelow(cache1, coords1, i1, i2, m12, cache2, coords2);
    LookupBelow(cache2, coords2, i2, i0, m02, cache, coords);
    var n := |coords| / 3;
    assert i0 < n && i1 < n && i2 < n;
    assert m01 < n && m12 < n && m02 < n;
    SixBelow(block, i0, i1, i2, m01, m12, m02, n);
  }


  /**
   * Three lookups that each record one edge of triangle `t` add exactly the
   * triangle's edges to the cache, and the block built from the returned
   * indices is the triangle's split.
   */
  lemma TriangleLookups(indices: seq<Index>, t: nat, cache0: map<Edge, Index>, cache: map<Edge, Index>, block: seq<Index>)
    requires 3 * t + 3 <= |indices|
    requires var i0, i1, i2 := indices[3 * t], indices[3 * t + 1], indices[3 * t + 2];
      && cache.Keys == cache0.Keys + {EdgeKey(i0, i1), EdgeKey(i1, i2), EdgeKey(i2, i0)}
      && block == [i0, cache[EdgeKey(i0, i1)], cache[EdgeKey(i2, i0)],
                   i1, cache[EdgeKey(i1, i2)], cache[EdgeKey(i0, i1)],
                   i2, cache[EdgeKey(i2, i0)], cache[EdgeKey(i1, i2)],
                   cache[EdgeKey(i2, i0)], cache[EdgeKey(i0, i1)], cache[EdgeKey(i1, i2)]]
    ensures cache.Keys == cache0.Keys + TriangleEdges(indices, t)
    ensures Recorded(indices, t, cache) && block == Split(indices, t, cache)
  {
  }

  /** A block built from six indices below `n` has every entry below `n`. */
  lemma SixBelow(block: seq<Index>, i0: Index, i1: Index, i2: Index, m01: Index, m12: Index, m02: Index, n: nat)
    requires i0 < n && i1 < n && i2 < n && m01 < n && m12 < n && m02 < n
    requires block == [i0, m01, m02, i1, m12, m01, i2, m02, m12, m02, m01, m12]
    ensures IndicesBelow(block, n)
  {
  }

  /** Entries a triangle's split reads are not changed by extending the cache. */
  lemma SplitStable(indices: seq<Index>, t: nat, cache0: map<Edge, Index>, cache: map<Edge, Index>)
    requires 3 * t + 3 <= |indices|
    requires Recorded(indices, t, cache0) && Extends(cache, cache0)
    ensures Recorded(indices, t, cache)
    ensures Split(indices, t, cache0) == Split(indices, t, cache)
  {
  }

  /*
   * sphere (geo.js:100-116).
   */

  /** The number of passes `sphere` runs when it is not given one. */
  const DefaultIterations := 3

  /**
   * The passes of `for (let i = 0; i < iterations; i++)`: an omitted
   * argument means 3, and a count below 1 runs no pass.
   */
  function Passes(iterations: Option<int>): (n: nat)
    ensures iterations == None ==> n == DefaultIterations
    ensures iterations.Some? ==> (iterations.value <= 0 <==> n == 0)
    ensures iterations.Some? && iterations.value > 0 ==> n == iterations.value
  {
    match iterations
    case None => DefaultIterations
    case Some(k) => if k <= 0 then 0 else k
  }

  /** 4 to the power `n`. */
  function Pow4(n: nat): (p: nat)
    ensures p >= 1
  {
    if n == 0 then 1 else 4 * Pow4(n - 1)
  }

  /**
   * The arithmetic of one pass's index count: 12 indices per whole
   * triangle is four times a whole-triangle count, again a multiple of 3.
   */
  lemma FourfoldTriangles(before: nat, after: nat)
    requires before % 3 == 0 && after == 12 * (before / 3)
    ensures after == 4 * before && after % 3 == 0
  {
    var q := before / 3;
    assert before == 3 * q;
    assert after == 3 * (4 * q);
  }

  /** Scaling by the next power of four is scaling by four once more. */
  lemma Pow4Step(b: nat, n: nat)
    ensures b * Pow4(n + 1) == 4 * (b * Pow4(n))
  {
  }

  /**
   * A pass over a well-formed mesh without uvs gives a well-formed mesh
   * without uvs, with four times the indices and the input vertices as a
   * prefix, and adds one vertex per distinct undirected edge of its input,
   * at least one when the input has a triangle.
   */
  lemma PassShape(mesh: Mesh, result: Mesh, midpoints: map<Edge, Index>)
    requires WellFormed(mesh) && mesh.uvs == None
    requires PassResult(mesh, result, midpoints)
    ensures WellFormed(result) && result.uvs == None
    ensures |result.indices| == 4 * |mesh.indices|
    ensures |mesh.vertices| <= |result.vertices| && result.vertices[..|mesh.vertices|] == mesh.vertices
    ensures |result.vertices| == |mesh.vertices| + 3 * |DistinctEdges(mesh.indices)|
    ensures 3 <= |mesh.indices| ==> |mesh.vertices| < |result.vertices|
  {
    FourfoldTriangles(|mesh.indices|, |result.indices|);
    assert |midpoints| == |midpoints.Keys|;
    if 3 <= |mesh.indices| {
      PassSplitsFirstTriangle(mesh, result, midpoints);
    }
  }

  /**
   * A pass over a mesh with at least one triangle emits that triangle's
   * split first, and the midpoint of its first edge is a new vertex, so
   * the pass adds at least one vertex.
   */
  lemma PassSplitsFirstTriangle(mesh: Mesh, result: Mesh, midpoints: map<Edge, Index>)
    requires PassResult(mesh, result, midpoints) && 3 <= |mesh.indices|
    ensures 12 <= |result.indices|
    ensures result.indices[0] == mesh.indices[0] && result.indices[3] == mesh.indices[1]
    ensures result.indices[6] == mesh.indices[2]
    ensures |mesh.vertices| / 3 <= result.indices[1] < |result.vertices| / 3
    ensures |mesh.vertices| < |result.vertices|
  {
    assert 0 < TriangleCount(mesh.indices);
    FirstBlock(mesh.indices, result.indices, midpoints, |mesh.vertices| / 3, |result.vertices| / 3);
  }

  /** The first emitted block is the first triangle's split, and its midpoints lie in [lo, hi). */
  lemma FirstBlock(indices: seq<Index>, emitted: seq<Index>, midpoints: map<Edge, Index>, lo: nat, hi: nat)
    requires 3 <= |indices| && 12 <= |emitted| && Recorded(indices, 0, midpoints)
    requires Block(emitted, 0) == Split(indices, 0, midpoints)
    requires FreshMidpoints(midpoints, lo, hi)
    ensures emitted[0] == indices[0] && emitted[3] == indices[1] && emitted[6] == indices[2]
    ensures lo <= emitted[1] < hi
  {
    var block := Split(indices, 0, midpoints);
    assert emitted[1] == block[1] == midpoints[EdgeKey(indices[0], indices[1])];
  }

  /**
   * The loop of `sphere`: `passes` subdivisions of `base`, each reassigning
   * the vertex and index lists to the previous pass's result. The ghost
   * results are the meshes before and after every pass, `steps[0]` being
   * `base` and the last being the result, and each pass's final cache.
   */
  method SubdivideRepeatedly(base: Mesh, passes: nat)
    returns (mesh: Mesh, ghost steps: seq<Mesh>, ghost caches: seq<map<Edge, Index>>)
    requires WellFormed(base) && base.uvs == None
    ensures WellFormed(mesh) && mesh.uvs == None
    ensures |mesh.indices| == |base.indices| * Pow4(passes)
    ensures |base.vertices| <= |mesh.vertices| && mesh.vertices[..|base.vertices|] == base.vertices
    ensures passes == 0 ==> mesh == base
    ensures 0 < passes && 3 <= |base.indices| ==> |base.vertices| < |mesh.vertices|
    ensures |steps| == passes + 1 && |caches| == passes
    ensures steps[0] == base && steps[passes] == mesh
    ensures forall k :: 0 <= k < passes ==> PassResult(steps[k], steps[k + 1], caches[k])
  {
    var vertices, indices := base.vertices, base.indices;
    steps, caches := [base], [];
    var i := 0;
    while i < passes
      invariant 0 <= i <= passes
      invariant RepeatedSoFar(base, i, steps, caches, Mesh(vertices, None, indices))
    {
      var result, midpoints := Subdivide(Mesh(vertices, None, indices));
      NextPass(base, i, steps, caches, Mesh(vertices, None, indices), result, midpoints);
      steps, caches := steps + [result], caches + [midpoints];
      vertices := result.vertices;
      indices := result.indices;
      i := i + 1;
    }
    mesh := Mesh(vertices, None, indices);
  }

  /**
   * The loop invariant of `sphere` after `i` passes from `base`, `mesh`
   * being the current vertex and index lists.
   */
  ghost predicate RepeatedSoFar(base: Mesh, i: nat, steps: seq<Mesh>, caches: seq<map<Edge, Index>>, mesh: Mesh)
  {
    && WellFormed(mesh) && mesh.uvs == None
    && |mesh.indices| == |base.indices| * Pow4(i)
    && |base.vertices| <= |mesh.vertices| && mesh.vertices[..|base.vertices|] == base.vertices
    && (i == 0 ==> mesh == base)
    && (0 < i && 3 <= |base.indices| ==> |base.vertices| < |mesh.vertices|)
    && |steps| == i + 1 && |caches| == i
    && steps[0] == base && steps[i] == mesh
    && (forall k :: 0 <= k < i ==> PassResult(steps[k], steps[k + 1], caches[k]))
  }

  /** One more pass keeps the loop invariant of `sphere`. */
  lemma NextPass(
    base: Mesh, i: nat, steps: seq<Mesh>, caches: seq<map<Edge, Index>>, mesh: Mesh,
    result: Mesh, midpoints: map<Edge, Index>)
    requires WellFormed(base) && base.uvs == None
    requires RepeatedSoFar(base, i, steps, caches, mesh)
    requires PassResult(mesh, result, midpoints)
    ensures RepeatedSoFar(base, i + 1, steps + [result], caches + [midpoints], result)
  {
    PassShape(mesh, result, midpoints);
    Pow4Step(|base.indices|, i);
    assert result.vertices[..|base.vertices|] == base.vertices by {
      assert result.vertices[..|base.vertices|] == result.vertices[..|mesh.vertices|][..|base.vertices|];
    }
  }

  /**
   * `sphere`: the icosahedron subdivided `Passes(iterations)` times. Every
   * pass multiplies the triangle count by four and keeps the earlier
   * vertices as a prefix, so the icosahedron's 12 vertices lead the result.
   * The ghost results are the meshes between passes and each pass's cache.
   * The final `normalize` is not part of this model.
   */
  method Sphere(iterations: Option<int>)
    returns (mesh: Mesh, ghost steps: seq<Mesh>, ghost caches: seq<map<Edge, Index>>)
    ensures WellFormed(mesh) && mesh.uvs == None
    ensures |mesh.indices| == 60 * Pow4(Passes(iterations))
    ensures 36 <= |mesh.vertices| && mesh.vertices[..36] == Icosahedron().vertices
    ensures Passes(iterations) == 0 ==> mesh == Icosahedron()
    ensures Passes(iterations) > 0 ==> 36 < |mesh.vertices|
    ensures |steps| == Passes(iterations) + 1 && |caches| == Passes(iterations)
    ensures steps[0] == Icosahedron() && steps[Passes(iterations)] == mesh
    ensures forall k :: 0 <= k < Passes(iterations) ==> PassResult(steps[k], steps[k + 1], caches[k])
  {
    mesh, steps, caches := SubdivideRepeatedly(Icosahedron(), Passes(iterations));
  }
}
