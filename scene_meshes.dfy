/**
 * Index generation of the procedural meshes of the scene generator: the
 * recursive subdivision of a barycentric triangle and the constant index
 * tables of the box, quad and icosahedron meshes.
 *
 * Vertex coordinates are carried around but never inspected; the point
 * computation of the subdivision (`SubDivideTriangle`) is a parameter.
 */
module SceneMeshes {

  /** A vertex position (`Vector3f`); its coordinates are never inspected. */
  datatype Vector3f = Vector3f(x: real, y: real, z: real)

  /** The value a default-constructed `Vector3f` holds (`{}`). */
  const Origin := Vector3f(0.0, 0.0, 0.0)

  /** A position paired with its slot in the vertex buffer (`VertexIndex`, a pair `first`, `second`). */
  datatype VertexIndex = VertexIndex(pos: Vector3f, index: nat)

  /** The vertex and index buffers handed to mesh creation. */
  datatype MeshData = MeshData(vertices: seq<Vector3f>, indices: seq<nat>)

  /** An index-only view of a constant mesh: how many vertices it has and its index table. */
  datatype IndexedMesh = IndexedMesh(vertexCount: nat, indices: seq<nat>)

  /** The point computation of one subdivision step: the three edge points of a triangle. */
  type Subdivision = (Vector3f, Vector3f, Vector3f) -> (Vector3f, Vector3f, Vector3f)

  function Pow4(n: nat): (r: nat)
    ensures r >= 1
  {
    if n == 0 then 1 else 4 * Pow4(n - 1)
  }

  /** The residue `i % 3`, by repeated subtraction; `ResidueIsMod` shows that it is the remainder. */
  function Residue(i: nat): (r: nat)
    ensures r < 3
  {
    if i < 3 then i else Residue(i - 3)
  }

  lemma {:induction false} ResidueIsMod(i: nat)
    ensures Residue(i) == i % 3
  {
    if i >= 3 {
      ResidueIsMod(i - 3);
    }
  }

  predicate DistinctResidues(i: nat, j: nat, k: nat) {
    Residue(i) != Residue(j) && Residue(j) != Residue(k) && Residue(i) != Residue(k)
  }

  /** `s` is a list of whole triangles whose three corners have pairwise-distinct residues mod 3. */
  ghost predicate ResidueTriangles(s: seq<nat>)
    decreases |s|
  {
    |s| == 0 || (|s| >= 3 && DistinctResidues(s[0], s[1], s[2]) && ResidueTriangles(s[3..]))
  }

  /** `s` is a list of whole triangles, each with three pairwise-distinct corners. */
  ghost predicate ProperTriangles(s: seq<nat>)
    decreases |s|
  {
    |s| == 0 || (|s| >= 3 && s[0] != s[1] && s[1] != s[2] && s[0] != s[2] && ProperTriangles(s[3..]))
  }

  /** Every index of `s` names an existing vertex of a buffer with `bound` vertices. */
  ghost predicate IndicesBelow(s: seq<nat>, bound: nat) {
    forall x | x in s :: x < bound
  }

  /** Indices emitted against four growing vertex buffers all name vertices of the last one. */
  lemma IndicesBelowJoin(e1: seq<nat>, e2: seq<nat>, e3: seq<nat>, e4: seq<nat>,
                         b1: nat, b2: nat, b3: nat, b4: nat)
    requires b1 <= b2 <= b3 <= b4
    requires IndicesBelow(e1, b1) && IndicesBelow(e2, b2) && IndicesBelow(e3, b3) && IndicesBelow(e4, b4)
    ensures IndicesBelow(e1 + e2 + e3 + e4, b4)
  {
  }

  /** Four successive appends to a buffer leave its prefix and add the four appended parts in order. */
  lemma ExtendedFourTimes<T>(s0: seq<T>, s1: seq<T>, s2: seq<T>, s3: seq<T>, s4: seq<T>)
    requires |s0| <= |s1| <= |s2| <= |s3| <= |s4|
    requires s1[..|s0|] == s0 && s2[..|s1|] == s1 && s3[..|s2|] == s2 && s4[..|s3|] == s3
    ensures s4[..|s0|] == s0
    ensures s4[|s0|..] == s1[|s0|..] + s2[|s1|..] + s3[|s2|..] + s4[|s3|..]
  {
    assert s4 == s3 + s4[|s3|..];
    assert s3 == s2 + s3[|s2|..];
    assert s2 == s1 + s2[|s1|..];
    assert s1 == s0 + s1[|s0|..];
  }

  lemma {:induction false} ResidueTrianglesAppend(s: seq<nat>, t: seq<nat>)
    requires ResidueTriangles(s) && ResidueTriangles(t)
    ensures ResidueTriangles(s + t)
    decreases |s|
  {
    if |s| == 0 {
      assert s + t == t;
    } else {
      assert (s + t)[3..] == s[3..] + t;
      ResidueTrianglesAppend(s[3..], t);
    }
  }

  /** `after` extends `before` by whole residue triangles whose corners are below `bound`. */
  ghost predicate Emitted(before: seq<nat>, after: seq<nat>, bound: nat) {
    before <= after && IndicesBelow(after[|before|..], bound) && ResidueTriangles(after[|before|..])
  }

  /** Four successive emissions against a growing vertex buffer make one emission against the last buffer. */
  lemma EmittedJoin(s0: seq<nat>, s1: seq<nat>, s2: seq<nat>, s3: seq<nat>, s4: seq<nat>,
                    n1: nat, n2: nat, n3: nat, n4: nat)
    requires n1 <= n2 <= n3 <= n4
    requires Emitted(s0, s1, n1) && Emitted(s1, s2, n2) && Emitted(s2, s3, n3) && Emitted(s3, s4, n4)
    ensures Emitted(s0, s4, n4)
  {
    ExtendedFourTimes(s0, s1, s2, s3, s4);
    var e1, e2, e3, e4 := s1[|s0|..], s2[|s1|..], s3[|s2|..], s4[|s3|..];
    IndicesBelowJoin(e1, e2, e3, e4, n1, n2, n3, n4);
    ResidueTrianglesAppend(e3, e4);
    ResidueTrianglesAppend(e2, e3 + e4);
    ResidueTrianglesAppend(e1, e2 + (e3 + e4));
    assert e1 + e2 + e3 + e4 == e1 + (e2 + (e3 + e4));
    PrefixTrans(s0, s1, s2);
    PrefixTrans(s0, s2, s3);
    PrefixTrans(s0, s3, s4);
  }

  /** Distinct residues make distinct corners, so a residue-triangle list has no degenerate triangle. */
  lemma {:induction false} ResidueTrianglesAreProper(s: seq<nat>)
    requires ResidueTriangles(s)
    ensures ProperTriangles(s) && Residue(|s|) == 0
    decreases |s|
  {
    if |s| > 0 {
      ResidueTrianglesAreProper(s[3..]);
    }
  }

  /** The slot `start + i % 3` of a fresh block of three is one of the block's slots, and keeps the residue of `i`. */
  lemma {:induction false} FreshSlotResidue(start: nat, i: nat)
    requires Residue(start) == 0
    ensures Residue(start + Residue(i)) == Residue(i)
    decreases start
  {
    if start >= 3 {
      FreshSlotResidue(start - 3, i);
    }
  }

  /**
   * The edge points of the triangle `a`, `b`, `c` sit in the block of three
   * slots from `start`, each in the slot picked by its corner's residue mod 3.
   */
  ghost predicate EdgePointsStored(vs: seq<Vector3f>, start: nat, a: VertexIndex, b: VertexIndex, c: VertexIndex,
                                   subdivide: Subdivision)
  {
    start + 3 <= |vs| &&
    vs[start + Residue(a.index)] == subdivide(a.pos, b.pos, c.pos).0 &&
    vs[start + Residue(b.index)] == subdivide(a.pos, b.pos, c.pos).1 &&
    vs[start + Residue(c.index)] == subdivide(a.pos, b.pos, c.pos).2
  }

  lemma PrefixTrans<T>(s: seq<T>, t: seq<T>, u: seq<T>)
    requires s <= t && t <= u
    ensures s <= u
  {
    assert u[..|t|][..|s|] == u[..|s|];
  }

  lemma PrefixAt<T>(s: seq<T>, p: seq<T>, i: nat)
    requires |p| <= |s| && s[..|p|] == p && i < |p|
    ensures s[i] == p[i]
  {
    assert s[..|p|][i] == s[i];
  }

  /** The corner triangle `a`, `b`, `c` may be subdivided against the buffers of `m` without any slot clash. */
  ghost predicate CallableOn(m: MeshData, a: VertexIndex, b: VertexIndex, c: VertexIndex) {
    Residue(|m.vertices|) == 0 &&
    a.index < |m.vertices| && b.index < |m.vertices| && c.index < |m.vertices| &&
    DistinctResidues(a.index, b.index, c.index)
  }

  /**
   * What slot `k` of a fresh block holds once the three edge points have been
   * written in the order A, B, C: the last point whose corner has residue `k`,
   * or the default vertex when no corner has it.
   */
  function SlotPoint(k: nat, a: VertexIndex, b: VertexIndex, c: VertexIndex,
                     points: (Vector3f, Vector3f, Vector3f)): Vector3f
  {
    if Residue(c.index) == k then points.2
    else if Residue(b.index) == k then points.1
    else if Residue(a.index) == k then points.0
    else Origin
  }

  /** The vertex buffer after an inner call has pushed its three slots and written the edge points into them. */
  function FreshBlock(vertices: seq<Vector3f>, a: VertexIndex, b: VertexIndex, c: VertexIndex,
                      subdivide: Subdivision): (w: seq<Vector3f>)
    ensures |w| == |vertices| + 3
  {
    var points := subdivide(a.pos, b.pos, c.pos);
    vertices + [SlotPoint(0, a, b, c, points), SlotPoint(1, a, b, c, points), SlotPoint(2, a, b, c, points)]
  }

  /** The fresh block keeps the old vertices; with distinct residues each edge point survives at `start + residue`. */
  lemma FreshBlockStores(vertices: seq<Vector3f>, a: VertexIndex, b: VertexIndex, c: VertexIndex,
                         subdivide: Subdivision)
    requires DistinctResidues(a.index, b.index, c.index)
    ensures vertices <= FreshBlock(vertices, a, b, c, subdivide)
    ensures EdgePointsStored(FreshBlock(vertices, a, b, c, subdivide), |vertices|, a, b, c, subdivide)
  {
  }

  /** The corner that an inner call creates for edge point `p` of corner `v`: slot `start + v.index % 3`. */
  function EdgeCorner(p: Vector3f, v: VertexIndex, start: nat): (e: VertexIndex)
    ensures start <= e.index < start + 3
  {
    VertexIndex(p, start + Residue(v.index))
  }

  /** Pushing three default vertices and then writing A, B, C in turn at `start + residue` yields the fresh block. */
  lemma WrittenBlock(vertices: seq<Vector3f>, a: VertexIndex, b: VertexIndex, c: VertexIndex,
                     subdivide: Subdivision)
    ensures var points := subdivide(a.pos, b.pos, c.pos);
      var start := |vertices|;
      (vertices + [Origin, Origin, Origin])[start + Residue(a.index) := points.0]
                                           [start + Residue(b.index) := points.1]
                                           [start + Residue(c.index) := points.2]
      == FreshBlock(vertices, a, b, c, subdivide)
  {
  }

  /**
   * What one call of `GenerateTriangles` leaves in the two buffers `m`: a
   * leaf emits the corner triangle, an inner call is `Refined`.
   */
  function Subdivided(level: nat, a: VertexIndex, b: VertexIndex, c: VertexIndex,
                      subdivide: Subdivision, m: MeshData): MeshData
    decreases level, 2
  {
    if level == 0 then
      MeshData(m.vertices, m.indices + [a.index, b.index, c.index])
    else
      Refined(level, a, b, c, subdivide, m)
  }

  /** The corners A, B, C an inner call creates for the edge points of `a`, `b`, `c` in the block at `start`. */
  function EdgeCorners(a: VertexIndex, b: VertexIndex, c: VertexIndex, subdivide: Subdivision,
                       start: nat): (VertexIndex, VertexIndex, VertexIndex)
  {
    var points := subdivide(a.pos, b.pos, c.pos);
    (EdgeCorner(points.0, a, start), EdgeCorner(points.1, b, start), EdgeCorner(points.2, c, start))
  }

  /**
   * The buffers an inner call hands to each of its four recursive calls: the
   * input with the fresh block appended, then what the calls on (a, C, B),
   * (C, b, A) and (B, A, c) leave in turn.
   */
  function Stages(level: nat, a: VertexIndex, b: VertexIndex, c: VertexIndex,
                  subdivide: Subdivision, m: MeshData): (MeshData, MeshData, MeshData, MeshData)
    requires level > 0
    decreases level, 0
  {
    var (A, B, C) := EdgeCorners(a, b, c, subdivide, |m.vertices|);
    var m0 := MeshData(FreshBlock(m.vertices, a, b, c, subdivide), m.indices);
    var m1 := Subdivided(level - 1, a, C, B, subdivide, m0);
    var m2 := Subdivided(level - 1, C, b, A, subdivide, m1);
    var m3 := Subdivided(level - 1, B, A, c, subdivide, m2);
    (m0, m1, m2, m3)
  }

  /** An inner call: the fourth recursive call, on (A, B, C), applied to the last of the `Stages`. */
  function Refined(level: nat, a: VertexIndex, b: VertexIndex, c: VertexIndex,
                   subdivide: Subdivision, m: MeshData): MeshData
    requires level > 0
    decreases level, 1
  {
    var (A, B, C) := EdgeCorners(a, b, c, subdivide, |m.vertices|);
    Subdivided(level - 1, A, B, C, subdivide, Stages(level, a, b, c, subdivide, m).3)
  }

  /** A call at level L appends 4^L - 1 vertices: three per inner call. */
  lemma {:induction false} SubdividedVertexCount(level: nat, a: VertexIndex, b: VertexIndex, c: VertexIndex,
                                  subdivide: Subdivision, m: MeshData)
    ensures |Subdivided(level, a, b, c, subdivide, m).vertices| == |m.vertices| + Pow4(level) - 1
    decreases level
  {
    var r := Subdivided(level, a, b, c, subdivide, m);
    if level == 0 {
    } else {
      var (A, B, C) := EdgeCorners(a, b, c, subdivide, |m.vertices|);
      var (m0, m1, m2, m3) := Stages(level, a, b, c, subdivide, m);
      assert r == Refined(level, a, b, c, subdivide, m);
      SubdividedVertexCount(level - 1, a, C, B, subdivide, m0);
      SubdividedVertexCount(level - 1, C, b, A, subdivide, m1);
      SubdividedVertexCount(level - 1, B, A, c, subdivide, m2);
      SubdividedVertexCount(level - 1, A, B, C, subdivide, m3);
      assert Pow4(level) == 4 * Pow4(level - 1);
    }
  }

  /** A call at level L appends exactly 3 * 4^L indices, that is 4^L triangles. */
  lemma {:induction false} SubdividedIndexCount(level: nat, a: VertexIndex, b: VertexIndex, c: VertexIndex,
                                  subdivide: Subdivision, m: MeshData)
    ensures |Subdivided(level, a, b, c, subdivide, m).indices| == |m.indices| + 3 * Pow4(level)
    decreases level
  {
    var r := Subdivided(level, a, b, c, subdivide, m);
    if level == 0 {
    } else {
      var (A, B, C) := EdgeCorners(a, b, c, subdivide, |m.vertices|);
      var (m0, m1, m2, m3) := Stages(level, a, b, c, subdivide, m);
      assert r == Refined(level, a, b, c, subdivide, m);
      SubdividedIndexCount(level - 1, a, C, B, subdivide, m0);
      SubdividedIndexCount(level - 1, C, b, A, subdivide, m1);
      SubdividedIndexCount(level - 1, B, A, c, subdivide, m2);
      SubdividedIndexCount(level - 1, A, B, C, subdivide, m3);
      assert Pow4(level) == 4 * Pow4(level - 1);
    }
  }

  /** A vertex buffer made of whole blocks of three stays so: every inner call pushes exactly three. */
  lemma {:induction false} SubdividedWholeBlocks(level: nat, a: VertexIndex, b: VertexIndex, c: VertexIndex,
                                  subdivide: Subdivision, m: MeshData)
    requires Residue(|m.vertices|) == 0
    ensures Residue(|Subdivided(level, a, b, c, subdivide, m).vertices|) == 0
    decreases level
  {
    var r := Subdivided(level, a, b, c, subdivide, m);
    if level == 0 {
    } else {
      var (A, B, C) := EdgeCorners(a, b, c, subdivide, |m.vertices|);
      var (m0, m1, m2, m3) := Stages(level, a, b, c, subdivide, m);
      assert r == Refined(level, a, b, c, subdivide, m);
      SubdividedWholeBlocks(level - 1, a, C, B, subdivide, m0);
      SubdividedWholeBlocks(level - 1, C, b, A, subdivide, m1);
      SubdividedWholeBlocks(level - 1, B, A, c, subdivide, m2);
      SubdividedWholeBlocks(level - 1, A, B, C, subdivide, m3);
    }
  }

  /** A call never changes a vertex that existed before it: it only appends. */
  lemma {:induction false} SubdividedKeepsVertices(level: nat, a: VertexIndex, b: VertexIndex, c: VertexIndex,
                                  subdivide: Subdivision, m: MeshData)
    ensures m.vertices <= Subdivided(level, a, b, c, subdivide, m).vertices
    decreases level
  {
    var r := Subdivided(level, a, b, c, subdivide, m);
    if level == 0 {
    } else {
      var (A, B, C) := EdgeCorners(a, b, c, subdivide, |m.vertices|);
      var (m0, m1, m2, m3) := Stages(level, a, b, c, subdivide, m);
      assert r == Refined(level, a, b, c, subdivide, m);
      SubdividedKeepsVertices(level - 1, a, C, B, subdivide, m0);
      SubdividedKeepsVertices(level - 1, C, b, A, subdivide, m1);
      SubdividedKeepsVertices(level - 1, B, A, c, subdivide, m2);
      SubdividedKeepsVertices(level - 1, A, B, C, subdivide, m3);
      assert m.vertices <= m0.vertices;
      PrefixTrans(m.vertices, m0.vertices, m1.vertices);
      PrefixTrans(m.vertices, m1.vertices, m2.vertices);
      PrefixTrans(m.vertices, m2.vertices, m3.vertices);
      PrefixTrans(m.vertices, m3.vertices, r.vertices);
    }
  }

  /** A call never changes an index that existed before it: it only appends. */
  lemma {:induction false} SubdividedKeepsIndices(level: nat, a: VertexIndex, b: VertexIndex, c: VertexIndex,
                                  subdivide: Subdivision, m: MeshData)
    ensures m.indices <= Subdivided(level, a, b, c, subdivide, m).indices
    decreases level
  {
    var r := Subdivided(level, a, b, c, subdivide, m);
    if level == 0 {
      assert r.indices[..|m.indices|] == m.indices;
    } else {
      var (A, B, C) := EdgeCorners(a, b, c, subdivide, |m.vertices|);
      var (m0, m1, m2, m3) := Stages(level, a, b, c, subdivide, m);
      assert r == Refined(level, a, b, c, subdivide, m);
      SubdividedKeepsIndices(level - 1, a, C, B, subdivide, m0);
      SubdividedKeepsIndices(level - 1, C, b, A, subdivide, m1);
      SubdividedKeepsIndices(level - 1, B, A, c, subdivide, m2);
      SubdividedKeepsIndices(level - 1, A, B, C, subdivide, m3);
      PrefixTrans(m.indices, m1.indices, m2.indices);
      PrefixTrans(m.indices, m2.indices, m3.indices);
      PrefixTrans(m.indices, m3.indices, r.indices);
    }
  }

  /**
   * From a callable corner triangle, every index a call appends names a
   * vertex that exists when the call returns, and the appended triangles
   * have corners with pairwise-distinct residues mod 3.
   */
  lemma {:induction false} SubdividedEmitsTriangles(level: nat, a: VertexIndex, b: VertexIndex, c: VertexIndex,
                                  subdivide: Subdivision, m: MeshData)
    requires CallableOn(m, a, b, c)
    ensures var r := Subdivided(level, a, b, c, subdivide, m);
      Emitted(m.indices, r.indices, |r.vertices|)
    decreases level
  {
    var r := Subdivided(level, a, b, c, subdivide, m);
    if level == 0 {
      assert r.indices[..|m.indices|] == m.indices;
      assert r.indices[|m.indices|..] == [a.index, b.index, c.index];
      assert [a.index, b.index, c.index][3..] == [];
    } else {
      var (A, B, C) := EdgeCorners(a, b, c, subdivide, |m.vertices|);
      var (m0, m1, m2, m3) := Stages(level, a, b, c, subdivide, m);
      assert r == Refined(level, a, b, c, subdivide, m);
      ChildrenCallable(level, a, b, c, subdivide, m);
      StillCallable(level - 1, A, B, C, subdivide, m3, A, B, C);
      SubdividedEmitsTriangles(level - 1, a, C, B, subdivide, m0);
      SubdividedEmitsTriangles(level - 1, C, b, A, subdivide, m1);
      SubdividedEmitsTriangles(level - 1, B, A, c, subdivide, m2);
      SubdividedEmitsTriangles(level - 1, A, B, C, subdivide, m3);
      EmittedJoin(m.indices, m1.indices, m2.indices, m3.indices, r.indices,
                  |m1.vertices|, |m2.vertices|, |m3.vertices|, |r.vertices|);
    }
  }

  /** Once the fresh block is pushed, all four triangles of an inner call are callable. */
  lemma FreshChildrenCallable(a: VertexIndex, b: VertexIndex, c: VertexIndex, subdivide: Subdivision, m: MeshData)
    requires CallableOn(m, a, b, c)
    ensures var (A, B, C) := EdgeCorners(a, b, c, subdivide, |m.vertices|);
      var m0 := MeshData(FreshBlock(m.vertices, a, b, c, subdivide), m.indices);
      CallableOn(m0, a, C, B) && CallableOn(m0, C, b, A) && CallableOn(m0, B, A, c) && CallableOn(m0, A, B, C)
  {
    FreshSlotResidue(|m.vertices|, a.index);
    FreshSlotResidue(|m.vertices|, b.index);
    FreshSlotResidue(|m.vertices|, c.index);
  }

  /** A triangle callable on some buffers stays callable on what any call leaves in them, which is no smaller. */
  lemma StillCallable(level: nat, a: VertexIndex, b: VertexIndex, c: VertexIndex, subdivide: Subdivision, m: MeshData,
                      x: VertexIndex, y: VertexIndex, z: VertexIndex)
    requires CallableOn(m, x, y, z)
    ensures var r := Subdivided(level, a, b, c, subdivide, m);
      |m.vertices| <= |r.vertices| && CallableOn(r, x, y, z)
  {
    SubdividedVertexCount(level, a, b, c, subdivide, m);
    SubdividedWholeBlocks(level, a, b, c, subdivide, m);
  }

  /** The four triangles an inner call recurses on are callable on the buffers each of them receives. */
  lemma ChildrenCallable(level: nat, a: VertexIndex, b: VertexIndex, c: VertexIndex,
                         subdivide: Subdivision, m: MeshData)
    requires level > 0 && CallableOn(m, a, b, c)
    ensures var (A, B, C) := EdgeCorners(a, b, c, subdivide, |m.vertices|);
      var (m0, m1, m2, m3) := Stages(level, a, b, c, subdivide, m);
      CallableOn(m0, a, C, B) && CallableOn(m1, C, b, A) && CallableOn(m2, B, A, c) && CallableOn(m3, A, B, C) &&
      |m1.vertices| <= |m2.vertices| <= |m3.vertices|
  {
    var (A, B, C) := EdgeCorners(a, b, c, subdivide, |m.vertices|);
    var (m0, m1, m2, _) := Stages(level, a, b, c, subdivide, m);
    FreshChildrenCallable(a, b, c, subdivide, m);
    StillCallable(level - 1, a, C, B, subdivide, m0, C, b, A);
    StillCallable(level - 1, a, C, B, subdivide, m0, B, A, c);
    StillCallable(level - 1, a, C, B, subdivide, m0, A, B, C);
    StillCallable(level - 1, C, b, A, subdivide, m1, B, A, c);
    StillCallable(level - 1, C, b, A, subdivide, m1, A, B, C);
    StillCallable(level - 1, B, A, c, subdivide, m2, A, B, C);
  }

  /**
   * An inner call on a callable triangle leaves its three edge points A, B,
   * C in three distinct slots of the block it appended, and nothing later
   * overwrites them.
   */
  lemma SubdividedStoresEdgePoints(level: nat, a: VertexIndex, b: VertexIndex, c: VertexIndex,
                                   subdivide: Subdivision, m: MeshData)
    requires level > 0 && CallableOn(m, a, b, c)
    ensures EdgePointsStored(Subdivided(level, a, b, c, subdivide, m).vertices, |m.vertices|, a, b, c, subdivide)
  {
    var r := Subdivided(level, a, b, c, subdivide, m);
    var (A, B, C) := EdgeCorners(a, b, c, subdivide, |m.vertices|);
    var (m0, m1, m2, m3) := Stages(level, a, b, c, subdivide, m);
    assert r == Refined(level, a, b, c, subdivide, m);
    FreshBlockStores(m.vertices, a, b, c, subdivide);
    SubdividedKeepsVertices(level - 1, a, C, B, subdivide, m0);
    SubdividedKeepsVertices(level - 1, C, b, A, subdivide, m1);
    SubdividedKeepsVertices(level - 1, B, A, c, subdivide, m2);
    SubdividedKeepsVertices(level - 1, A, B, C, subdivide, m3);
    PrefixTrans(m0.vertices, m1.vertices, m2.vertices);
    PrefixTrans(m0.vertices, m2.vertices, m3.vertices);
    PrefixTrans(m0.vertices, m3.vertices, r.vertices);
    PrefixAt(r.vertices, m0.vertices, |m.vertices| + Residue(a.index));
    PrefixAt(r.vertices, m0.vertices, |m.vertices| + Residue(b.index));
    PrefixAt(r.vertices, m0.vertices, |m.vertices| + Residue(c.index));
  }

  /**
   * One call of `GenerateTriangles`. The vertex and index vectors that the
   * source passes by reference come in as `vertices`, `indices` and go out
   * as `vs`, `ix`: an inner call pushes three default vertices, writes the
   * edge points into the slots picked by the corners' residues mod 3, and
   * recurses on four triangles.
   */
  method GenerateTriangles(level: nat, a: VertexIndex, b: VertexIndex, c: VertexIndex,
                           subdivide: Subdivision, vertices: seq<Vector3f>, indices: seq<nat>)
    returns (vs: seq<Vector3f>, ix: seq<nat>)
    ensures MeshData(vs, ix) == Subdivided(level, a, b, c, subdivide, MeshData(vertices, indices))
    decreases level
  {
    if level == 0 {
      vs, ix := vertices, indices + [a.index, b.index, c.index];
      return;
    }

    var points := subdivide(a.pos, b.pos, c.pos);
    var startOffset := |vertices|;
    vs := vertices + [Origin, Origin, Origin];

    var A := EdgeCorner(points.0, a, startOffset);
    var B := EdgeCorner(points.1, b, startOffset);
    var C := EdgeCorner(points.2, c, startOffset);
    assert (A, B, C) == EdgeCorners(a, b, c, subdivide, startOffset);

    vs := vs[A.index := A.pos];
    vs := vs[B.index := B.pos];
    vs := vs[C.index := C.pos];
    WrittenBlock(vertices, a, b, c, subdivide);

    ghost var m0 := MeshData(vs, indices);
    vs, ix := GenerateTriangles(level - 1, a, C, B, subdivide, vs, indices);
    ghost var m1 := MeshData(vs, ix);
    vs, ix := GenerateTriangles(level - 1, C, b, A, subdivide, vs, ix);
    ghost var m2 := MeshData(vs, ix);
    vs, ix := GenerateTriangles(level - 1, B, A, c, subdivide, vs, ix);
    ghost var m3 := MeshData(vs, ix);
    vs, ix := GenerateTriangles(level - 1, A, B, C, subdivide, vs, ix);
    assert (m0, m1, m2, m3) == Stages(level, a, b, c, subdivide, MeshData(vertices, indices));
    assert Subdivided(level, a, b, c, subdivide, MeshData(vertices, indices))
        == Refined(level, a, b, c, subdivide, MeshData(vertices, indices));
  }

  /**
   * `GenerateTriangleMesh`: the barycentric corner triangle, subdivided
   * `level` times. The source hands the two buffers to mesh creation, which
   * is not part of this model; the buffers are returned instead.
   */
  method GenerateTriangleMesh(level: nat, subdivide: Subdivision) returns (mesh: MeshData)
    ensures |mesh.indices| == 3 * Pow4(level)
    ensures |mesh.vertices| == Pow4(level) + 2
    ensures IndicesBelow(mesh.indices, |mesh.vertices|)
    ensures ProperTriangles(mesh.indices)
    ensures mesh.vertices[..3] == [Vector3f(1.0, 0.0, 0.0), Vector3f(0.0, 1.0, 0.0), Vector3f(0.0, 0.0, 1.0)]
  {
    var a := VertexIndex(Vector3f(1.0, 0.0, 0.0), 0);
    var b := VertexIndex(Vector3f(0.0, 1.0, 0.0), 1);
    var c := VertexIndex(Vector3f(0.0, 0.0, 1.0), 2);
    var corners := [a.pos, b.pos, c.pos];
    var vertices, indices := GenerateTriangles(level, a, b, c, subdivide, corners, []);
    ghost var m := MeshData(corners, []);
    assert CallableOn(m, a, b, c);
    SubdividedVertexCount(level, a, b, c, subdivide, m);
    SubdividedIndexCount(level, a, b, c, subdivide, m);
    SubdividedKeepsVertices(level, a, b, c, subdivide, m);
    SubdividedEmitsTriangles(level, a, b, c, subdivide, m);
    assert indices[0..] == indices;
    ResidueTrianglesAreProper(indices);
    mesh := MeshData(vertices, indices);
  }

  /** One triangle of a constant index table: three vertex numbers, in winding order. */
  datatype Triangle = Triangle(i0: nat, i1: nat, i2: nat)

  /** The flat index list of a triangle list, three indices per triangle, as the tables are written. */
  function Flatten(ts: seq<Triangle>): (r: seq<nat>)
    ensures |r| == 3 * |ts|
    decreases |ts|
  {
    if |ts| == 0 then [] else [ts[0].i0, ts[0].i1, ts[0].i2] + Flatten(ts[1..])
  }

  /** A non-degenerate triangle whose three corners exist in a mesh with `vertexCount` vertices. */
  predicate ValidTriangle(t: Triangle, vertexCount: nat) {
    t.i0 < vertexCount && t.i1 < vertexCount && t.i2 < vertexCount &&
    t.i0 != t.i1 && t.i1 != t.i2 && t.i0 != t.i2
  }

  /** Valid triangles flatten to an index list of whole, non-degenerate triangles over existing vertices. */
  lemma {:induction false} FlattenValid(ts: seq<Triangle>, vertexCount: nat)
    requires forall k | 0 <= k < |ts| :: ValidTriangle(ts[k], vertexCount)
    ensures IndicesBelow(Flatten(ts), vertexCount) && ProperTriangles(Flatten(ts))
    decreases |ts|
  {
    if |ts| > 0 {
      FlattenValid(ts[1..], vertexCount);
      var r := Flatten(ts);
      assert r[3..] == Flatten(ts[1..]);
      assert forall x | x in r :: x in r[..3] || x in r[3..] by {
        assert r == r[..3] + r[3..];
      }
    }
  }

  /** The cube of `GenerateBoxMesh`: two triangles per face over the 8 shared corners. */
  const BoxTriangles: seq<Triangle> := [
    Triangle(0, 2, 1), Triangle(2, 0, 3),   // front
    Triangle(1, 6, 5), Triangle(6, 1, 2),   // top
    Triangle(7, 5, 6), Triangle(5, 7, 4),   // back
    Triangle(4, 3, 0), Triangle(3, 4, 7),   // bottom
    Triangle(4, 1, 5), Triangle(1, 4, 0),   // left
    Triangle(3, 6, 2), Triangle(6, 3, 7)    // right
  ]

  /** The cube of `GeneratePBRBoxMesh`: two triangles per face, each face with 4 vertices of its own. */
  const PBRBoxTriangles: seq<Triangle> := [
    Triangle(0, 1, 2), Triangle(0, 2, 3),       // front
    Triangle(4, 6, 5), Triangle(4, 7, 6),       // back
    Triangle(8, 10, 9), Triangle(8, 11, 10),    // top
    Triangle(12, 13, 14), Triangle(12, 14, 15), // bottom
    Triangle(16, 17, 18), Triangle(16, 18, 19), // left
    Triangle(20, 22, 21), Triangle(20, 23, 22)  // right
  ]

  /** The quad shared by `GeneratePBRQuadMesh` and `GenerateQuadMesh`. */
  const QuadTriangles: seq<Triangle> := [Triangle(0, 1, 3), Triangle(0, 3, 2)]

  /** The 20 faces of `GenPBRIcosahedronMesh`. */
  const IcosahedronTriangles: seq<Triangle> := [
    Triangle(1, 3, 8), Triangle(3, 1, 9), Triangle(0, 10, 2), Triangle(2, 11, 0),
    Triangle(5, 7, 0), Triangle(7, 5, 1), Triangle(4, 2, 6), Triangle(6, 3, 4),
    Triangle(9, 11, 4), Triangle(11, 9, 5), Triangle(8, 6, 10), Triangle(10, 7, 8),
    Triangle(1, 8, 7), Triangle(5, 9, 1), Triangle(0, 7, 10), Triangle(5, 0, 11),
    Triangle(3, 6, 8), Triangle(4, 3, 9), Triangle(2, 10, 6), Triangle(4, 11, 2)
  ]

  /** The index table of `GenerateBoxMesh`: 36 indices over 8 vertices. */
  function GenerateBoxMesh(): (m: IndexedMesh)
    ensures m.vertexCount == 8 && |m.indices| == 36
    ensures IndicesBelow(m.indices, m.vertexCount) && ProperTriangles(m.indices)
  {
    FlattenValid(BoxTriangles, 8);
    IndexedMesh(8, Flatten(BoxTriangles))
  }

  /** The index table of `GeneratePBRBoxMesh`: 36 indices over 24 vertices. */
  function GeneratePBRBoxMesh(): (m: IndexedMesh)
    ensures m.vertexCount == 24 && |m.indices| == 36
    ensures IndicesBelow(m.indices, m.vertexCount) && ProperTriangles(m.indices)
  {
    FlattenValid(PBRBoxTriangles, 24);
    IndexedMesh(24, Flatten(PBRBoxTriangles))
  }

  /** The index table of `GeneratePBRQuadMesh`: 6 indices over 4 vertices. */
  function GeneratePBRQuadMesh(): (m: IndexedMesh)
    ensures m.vertexCount == 4 && |m.indices| == 6
    ensures IndicesBelow(m.indices, m.vertexCount) && ProperTriangles(m.indices)
  {
    FlattenValid(QuadTriangles, 4);
    IndexedMesh(4, Flatten(QuadTriangles))
  }

  /** The index table of `GenerateQuadMesh`: 6 indices over 4 vertices. */
  function GenerateQuadMesh(): (m: IndexedMesh)
    ensures m.vertexCount == 4 && |m.indices| == 6
    ensures IndicesBelow(m.indices, m.vertexCount) && ProperTriangles(m.indices)
  {
    FlattenValid(QuadTriangles, 4);
    IndexedMesh(4, Flatten(QuadTriangles))
  }

  /** The index table of `GenPBRIcosahedronMesh`: 60 indices over 12 vertices. */
  function GenPBRIcosahedronMesh(): (m: IndexedMesh)
    ensures m.vertexCount == 12 && |m.indices| == 60
    ensures IndicesBelow(m.indices, m.vertexCount) && ProperTriangles(m.indices)
  {
    FlattenValid(IcosahedronTriangles, 12);
    IndexedMesh(12, Flatten(IcosahedronTriangles))
  }
}
