/** The finite-volume operators on the concrete grids of the unit tests in
    tests/unit/test_fv.py: the stored rows of the divergence, the diagonal of
    the mass matrices, the tangential stencils and the values obtained from the
    normal flux 0, 1, 2, ... (numpy's arange).  Cell and face numbers are the
    flat ids of the model, axis 0 running fastest. */
module FvExamples {
  import opened Grids
  import opened Sparse
  import opened Results
  import opened FiniteVolume

  /** The flux 0, 1, ..., n - 1. */
  function Arange(n: nat): (r: seq<real>)
    ensures |r| == n
    ensures forall i :: 0 <= i < n ==> r[i] == i as real
  {
    seq(n, i requires 0 <= i < n => i as real)
  }

  // ---------------------------------------------------------------------------
  // Closed forms of the numbering on 2-D and 3-D grids

  lemma Flatten2(s0: int, s1: int, p0: int, p1: int)
    ensures Flatten([s0, s1], [p0, p1]) == p0 + s0 * p1
  {
    assert [s0, s1][1..] == [s1] && [p0, p1][1..] == [p1];
    assert Flatten([s1], [p1]) == p1 by {
      assert [s1][1..] == [] && [p1][1..] == [];
    }
  }

  lemma Flatten3(s0: int, s1: int, s2: int, p0: int, p1: int, p2: int)
    ensures Flatten([s0, s1, s2], [p0, p1, p2]) == p0 + s0 * p1 + s0 * s1 * p2
  {
    assert [s0, s1, s2][1..] == [s1, s2] && [p0, p1, p2][1..] == [p1, p2];
    Flatten2(s1, s2, p1, p2);
    assert s0 * (p1 + s1 * p2) == s0 * p1 + s0 * s1 * p2;
  }

  lemma Prod2(a: int, b: int)
    ensures Prod([a, b]) == a * b
  {
    assert [a, b][1..] == [b];
    assert Prod([b]) == b by {
      assert [b][1..] == [];
    }
  }

  lemma Prod3(a: int, b: int, c: int)
    ensures Prod([a, b, c]) == a * b * c
  {
    assert [a, b, c][1..] == [b, c];
    Prod2(b, c);
    assert a * (b * c) == a * b * c;
  }

  /** The flat id of face (e, [p0, p1]) on an n0 x n1 grid. */
  function RawId2D(n0: int, n1: int, e: nat, p0: int, p1: int): int
  {
    if e == 0 then p0 + (n0 - 1) * p1 else (n0 - 1) * n1 + p0 + n0 * p1
  }

  /** The flat id of face (e, [p0, p1, p2]) on an n0 x n1 x n2 grid. */
  function RawId3D(n0: int, n1: int, n2: int, e: nat, p0: int, p1: int, p2: int): int
  {
    if e == 0 then p0 + (n0 - 1) * p1 + (n0 - 1) * n1 * p2
    else if e == 1 then (n0 - 1) * n1 * n2 + p0 + n0 * p1 + n0 * (n1 - 1) * p2
    else (n0 - 1) * n1 * n2 + n0 * (n1 - 1) * n2 + p0 + n0 * p1 + n0 * n1 * p2
  }

  /** RawId2D on shape and position sequences, as a column number. */
  function Id2D(m: seq<int>, e: nat, p: seq<int>): nat
    requires |m| == 2 && |p| == 2
  {
    var id := RawId2D(m[0], m[1], e, p[0], p[1]);
    if id < 0 then 0 else id
  }

  /** RawId3D on shape and position sequences, as a column number. */
  function Id3D(m: seq<int>, e: nat, p: seq<int>): nat
    requires |m| == 3 && |p| == 3
  {
    var id := RawId3D(m[0], m[1], m[2], e, p[0], p[1], p[2]);
    if id < 0 then 0 else id
  }

  lemma Offsets2D(n0: int, n1: int)
    ensures Offset([n0, n1], 1) == (n0 - 1) * n1
    ensures NumFaces([n0, n1]) == (n0 - 1) * n1 + n0 * (n1 - 1)
  {
    assert FaceShape([n0, n1], 0) == [n0 - 1, n1];
    assert FaceShape([n0, n1], 1) == [n0, n1 - 1];
    Prod2(n0 - 1, n1);
    Prod2(n0, n1 - 1);
  }

  lemma Offsets3D(n0: int, n1: int, n2: int)
    ensures Offset([n0, n1, n2], 1) == (n0 - 1) * n1 * n2
    ensures Offset([n0, n1, n2], 2) == (n0 - 1) * n1 * n2 + n0 * (n1 - 1) * n2
    ensures NumFaces([n0, n1, n2]) == (n0 - 1) * n1 * n2 + n0 * (n1 - 1) * n2 + n0 * n1 * (n2 - 1)
  {
    assert FaceShape([n0, n1, n2], 0) == [n0 - 1, n1, n2];
    assert FaceShape([n0, n1, n2], 1) == [n0, n1 - 1, n2];
    assert FaceShape([n0, n1, n2], 2) == [n0, n1, n2 - 1];
    Prod3(n0 - 1, n1, n2);
    Prod3(n0, n1 - 1, n2);
    Prod3(n0, n1, n2 - 1);
  }

  /** On an n0 x n1 grid the axis-0 faces come first, numbered like an
      (n0 - 1) x n1 grid, then the axis-1 faces, numbered like an n0 x (n1 - 1) grid. */
  lemma FaceId2D(n0: int, n1: int, e: nat, p0: int, p1: int)
    requires ValidFace([n0, n1], Face(e, [p0, p1]))
    ensures FaceId([n0, n1], Face(e, [p0, p1])) == RawId2D(n0, n1, e, p0, p1)
  {
    Offsets2D(n0, n1);
    if e == 0 {
      assert FaceShape([n0, n1], 0) == [n0 - 1, n1];
      Flatten2(n0 - 1, n1, p0, p1);
    } else {
      assert FaceShape([n0, n1], 1) == [n0, n1 - 1];
      Flatten2(n0, n1 - 1, p0, p1);
    }
  }

  /** The 3-D numbering: axis-0, then axis-1, then axis-2 faces. */
  lemma FaceId3D(n0: int, n1: int, n2: int, e: nat, p0: int, p1: int, p2: int)
    requires ValidFace([n0, n1, n2], Face(e, [p0, p1, p2]))
    ensures FaceId([n0, n1, n2], Face(e, [p0, p1, p2])) == RawId3D(n0, n1, n2, e, p0, p1, p2)
  {
    Offsets3D(n0, n1, n2);
    if e == 0 {
      assert FaceShape([n0, n1, n2], 0) == [n0 - 1, n1, n2];
      Flatten3(n0 - 1, n1, n2, p0, p1, p2);
    } else if e == 1 {
      assert FaceShape([n0, n1, n2], 1) == [n0, n1 - 1, n2];
      Flatten3(n0, n1 - 1, n2, p0, p1, p2);
    } else {
      assert FaceShape([n0, n1, n2], 2) == [n0, n1, n2 - 1];
      Flatten3(n0, n1, n2 - 1, p0, p1, p2);
    }
  }

  lemma CellAt2D(n0: int, n1: int, x0: int, x1: int)
    requires 0 <= x0 < n0 && 0 <= x1 < n1
    ensures 0 <= x0 + n0 * x1 < NumCells([n0, n1])
    ensures Unflatten([n0, n1], x0 + n0 * x1) == [x0, x1]
  {
    Flatten2(n0, n1, x0, x1);
    FlattenBounds([n0, n1], [x0, x1]);
    UnflattenFlatten([n0, n1], [x0, x1]);
  }

  lemma CellAt3D(n0: int, n1: int, n2: int, x0: int, x1: int, x2: int)
    requires 0 <= x0 < n0 && 0 <= x1 < n1 && 0 <= x2 < n2
    ensures 0 <= x0 + n0 * x1 + n0 * n1 * x2 < NumCells([n0, n1, n2])
    ensures Unflatten([n0, n1, n2], x0 + n0 * x1 + n0 * n1 * x2) == [x0, x1, x2]
  {
    Flatten3(n0, n1, n2, x0, x1, x2);
    FlattenBounds([n0, n1, n2], [x0, x1, x2]);
    UnflattenFlatten([n0, n1, n2], [x0, x1, x2]);
  }

  lemma FaceAt2D(n0: int, n1: int, e: nat, p0: int, p1: int)
    requires n0 > 0 && n1 > 0 && e < 2
    requires 0 <= p0 < (if e == 0 then n0 - 1 else n0) && 0 <= p1 < (if e == 1 then n1 - 1 else n1)
    ensures Positive([n0, n1])
    ensures Id2D([n0, n1], e, [p0, p1]) < NumFaces([n0, n1])
    ensures FaceAt([n0, n1], Id2D([n0, n1], e, [p0, p1])) == Face(e, [p0, p1])
  {
    assert ValidFace([n0, n1], Face(e, [p0, p1]));
    Id2DIsFaceId(n0, n1, e, p0, p1);
    FaceAtFaceId([n0, n1], Face(e, [p0, p1]));
  }

  lemma FaceAt3D(n0: int, n1: int, n2: int, e: nat, p0: int, p1: int, p2: int)
    requires n0 > 0 && n1 > 0 && n2 > 0 && e < 3
    requires 0 <= p0 < (if e == 0 then n0 - 1 else n0)
    requires 0 <= p1 < (if e == 1 then n1 - 1 else n1)
    requires 0 <= p2 < (if e == 2 then n2 - 1 else n2)
    ensures Positive([n0, n1, n2])
    ensures Id3D([n0, n1, n2], e, [p0, p1, p2]) < NumFaces([n0, n1, n2])
    ensures FaceAt([n0, n1, n2], Id3D([n0, n1, n2], e, [p0, p1, p2])) == Face(e, [p0, p1, p2])
  {
    assert ValidFace([n0, n1, n2], Face(e, [p0, p1, p2]));
    Id3DIsFaceId(n0, n1, n2, e, p0, p1, p2);
    FaceAtFaceId([n0, n1, n2], Face(e, [p0, p1, p2]));
  }

  lemma Id2DIsFaceId(n0: int, n1: int, e: nat, p0: int, p1: int)
    requires Positive([n0, n1]) && ValidFace([n0, n1], Face(e, [p0, p1]))
    ensures FaceId([n0, n1], Face(e, [p0, p1])) == Id2D([n0, n1], e, [p0, p1])
  {
    FaceId2D(n0, n1, e, p0, p1);
    FaceIdInGroup([n0, n1], Face(e, [p0, p1]));
    var id := RawId2D(n0, n1, e, p0, p1);
    assert id == FaceId([n0, n1], Face(e, [p0, p1])) >= 0;
    assert [n0, n1][0] == n0 && [p0, p1][0] == p0;
    assert Id2D([n0, n1], e, [p0, p1]) == if id < 0 then 0 else id;
  }

  lemma Id3DIsFaceId(n0: int, n1: int, n2: int, e: nat, p0: int, p1: int, p2: int)
    requires Positive([n0, n1, n2]) && ValidFace([n0, n1, n2], Face(e, [p0, p1, p2]))
    ensures FaceId([n0, n1, n2], Face(e, [p0, p1, p2])) == Id3D([n0, n1, n2], e, [p0, p1, p2])
  {
    FaceId3D(n0, n1, n2, e, p0, p1, p2);
    FaceIdInGroup([n0, n1, n2], Face(e, [p0, p1, p2]));
    var id := RawId3D(n0, n1, n2, e, p0, p1, p2);
    assert id == FaceId([n0, n1, n2], Face(e, [p0, p1, p2])) >= 0;
    assert [n0, n1, n2][0] == n0 && [p0, p1, p2][0] == p0;
    assert Id3D([n0, n1, n2], e, [p0, p1, p2]) == if id < 0 then 0 else id;
  }

  /** Along on a 2-D grid in closed form. */
  lemma Along2D(n0: int, n1: int, x0: int, x1: int, e: nat, wBelow: real, wAbove: real)
    requires 0 <= x0 < n0 && 0 <= x1 < n1 && e < 2
    ensures Positive([n0, n1]) && InBounds([n0, n1], [x0, x1])
    ensures var x, m := [x0, x1], [n0, n1];
            Along(m, x, e, wBelow, wAbove) ==
              (if x[e] > 0 then [(Id2D(m, e, x[e := x[e] - 1]), wBelow)] else []) +
              (if x[e] < m[e] - 1 then [(Id2D(m, e, x), wAbove)] else [])
  {
    var x, m := [x0, x1], [n0, n1];
    var p := x[e := x[e] - 1];
    assert p == [p[0], p[1]];
    if x[e] > 0 { Id2DIsFaceId(n0, n1, e, p[0], p[1]); }
    if x[e] < m[e] - 1 { Id2DIsFaceId(n0, n1, e, x0, x1); }
  }

  /** Along on a 3-D grid in closed form. */
  lemma Along3D(n0: int, n1: int, n2: int, x0: int, x1: int, x2: int, e: nat, wBelow: real, wAbove: real)
    requires 0 <= x0 < n0 && 0 <= x1 < n1 && 0 <= x2 < n2 && e < 3
    ensures Positive([n0, n1, n2]) && InBounds([n0, n1, n2], [x0, x1, x2])
    ensures var x, m := [x0, x1, x2], [n0, n1, n2];
            Along(m, x, e, wBelow, wAbove) ==
              (if x[e] > 0 then [(Id3D(m, e, x[e := x[e] - 1]), wBelow)] else []) +
              (if x[e] < m[e] - 1 then [(Id3D(m, e, x), wAbove)] else [])
  {
    var x, m := [x0, x1, x2], [n0, n1, n2];
    var p := x[e := x[e] - 1];
    assert p == [p[0], p[1], p[2]];
    if x[e] > 0 { Id3DIsFaceId(n0, n1, n2, e, p[0], p[1], p[2]); }
    if x[e] < m[e] - 1 { Id3DIsFaceId(n0, n1, n2, e, x0, x1, x2); }
  }

  // ---------------------------------------------------------------------------
  // Each operator at one cell or face whose coordinates are known

  lemma DivRowAt2D(g: Grid, c: nat, x: seq<int>)
    requires g.Valid() && g.Dim() == 2 && c < NumCells(g.shape) && Unflatten(g.shape, c) == x
    ensures InBounds(g.shape, x)
    ensures DivRow(g, c) ==
              Along(g.shape, x, 0, -Area(g, 0), Area(g, 0)) + Along(g.shape, x, 1, -Area(g, 1), Area(g, 1))
  {
    FlattenUnflatten(g.shape, c);
    assert DivRowFrom(g, x, 2) == [];
    assert DivRowFrom(g, x, 1) == Along(g.shape, x, 1, -Area(g, 1), Area(g, 1)) + [];
  }

  lemma DivRowAt3D(g: Grid, c: nat, x: seq<int>)
    requires g.Valid() && g.Dim() == 3 && c < NumCells(g.shape) && Unflatten(g.shape, c) == x
    ensures InBounds(g.shape, x)
    ensures DivRow(g, c) ==
              Along(g.shape, x, 0, -Area(g, 0), Area(g, 0)) + Along(g.shape, x, 1, -Area(g, 1), Area(g, 1)) +
              Along(g.shape, x, 2, -Area(g, 2), Area(g, 2))
  {
    FlattenUnflatten(g.shape, c);
    assert DivRowFrom(g, x, 3) == [];
    assert DivRowFrom(g, x, 2) == Along(g.shape, x, 2, -Area(g, 2), Area(g, 2)) + [];
    assert DivRowFrom(g, x, 1) == Along(g.shape, x, 1, -Area(g, 1), Area(g, 1)) + DivRowFrom(g, x, 2);
  }

  lemma TangentialRowAt(g: Grid, f: nat, face: Face, k: nat)
    requires g.Valid() && f < NumFaces(g.shape) && FaceAt(g.shape, f) == face && k < g.Dim() - 1
    ensures ValidFace(g.shape, face)
    ensures InBounds(g.shape, Lower(face)) && InBounds(g.shape, Upper(face))
    ensures TangentialRow(g, f, k) ==
              Along(g.shape, Lower(face), TangentialAxis(face.axis, k), 0.25, 0.25) +
              Along(g.shape, Upper(face), TangentialAxis(face.axis, k), 0.25, 0.25)
  {
    FaceIdFaceAt(g.shape, f);
    IncidentCellsInBounds(g.shape, face);
  }

  lemma TangentialApplyAt(g: Grid, flux: seq<real>, f: nat, k: nat)
    requires g.Valid() && |flux| == NumFaces(g.shape) && f < NumFaces(g.shape) && k < g.Dim() - 1
    ensures TangentialApply(g, flux)[k][f] == Dot(TangentialRow(g, f, k), flux)
  {
  }

  lemma FaceToCellRowAt(g: Grid, flux: seq<real>, c: nat, x: seq<int>)
    requires g.Valid() && |flux| == NumFaces(g.shape) && c < NumCells(g.shape) && Unflatten(g.shape, c) == x
    ensures InBounds(g.shape, x)
    ensures |FaceToCell(g, flux)[c]| == g.Dim()
    ensures forall d :: 0 <= d < g.Dim() ==> FaceToCell(g, flux)[c][d] == Dot(Along(g.shape, x, d, 0.5, 0.5), flux)
  {
    FlattenUnflatten(g.shape, c);
  }

  // ---------------------------------------------------------------------------
  // Products of short rows

  lemma Dot1(a: nat, wa: real, x: seq<real>)
    requires a < |x|
    ensures Dot([(a, wa)], x) == wa * x[a]
  {
    assert [(a, wa)][1..] == [];
  }

  lemma Dot2(a: nat, wa: real, b: nat, wb: real, x: seq<real>)
    requires a < |x| && b < |x|
    ensures Dot([(a, wa), (b, wb)], x) == wa * x[a] + wb * x[b]
  {
    assert [(a, wa), (b, wb)][1..] == [(b, wb)];
    Dot1(b, wb, x);
  }

  lemma Dot3(a: nat, wa: real, b: nat, wb: real, c: nat, wc: real, x: seq<real>)
    requires a < |x| && b < |x| && c < |x|
    ensures Dot([(a, wa), (b, wb), (c, wc)], x) == wa * x[a] + wb * x[b] + wc * x[c]
  {
    assert [(a, wa), (b, wb), (c, wc)][1..] == [(b, wb), (c, wc)];
    Dot2(b, wb, c, wc, x);
  }

  lemma Dot4(a: nat, wa: real, b: nat, wb: real, c: nat, wc: real, d: nat, wd: real, x: seq<real>)
    requires a < |x| && b < |x| && c < |x| && d < |x|
    ensures Dot([(a, wa), (b, wb), (c, wc), (d, wd)], x) == wa * x[a] + wb * x[b] + wc * x[c] + wd * x[d]
  {
    assert [(a, wa), (b, wb), (c, wc), (d, wd)][1..] == [(b, wb), (c, wc), (d, wd)];
    Dot3(b, wb, c, wc, d, wd, x);
  }

  // ---------------------------------------------------------------------------
  // Sizes and mass matrices

  /** 4 x 5 grid: 20 cells, the axis-1 faces start at 15, 31 faces. */
  lemma Sizes2D(g: Grid)
    requires g.shape == [4, 5] && g.voxelSize == [0.5, 0.25]
    ensures g.Valid()
    ensures NumCells(g.shape) == 20 && Offset(g.shape, 1) == 15 && NumFaces(g.shape) == 31
  {
    var n0, n1 := g.shape[0], g.shape[1];
    assert g.shape == [n0, n1];
    Prod2(n0, n1);
    Offsets2D(n0, n1);
  }

  /** 3 x 4 x 5 grid: 60 cells, face groups start at 0, 40 and 85, 133 faces. */
  lemma Sizes3D(g: Grid)
    requires g.shape == [3, 4, 5] && g.voxelSize == [0.5, 0.25, 2.0]
    ensures g.Valid()
    ensures NumCells(g.shape) == 60
    ensures Offset(g.shape, 1) == 40 && Offset(g.shape, 2) == 85 && NumFaces(g.shape) == 133
  {
    var n0, n1, n2 := g.shape[0], g.shape[1], g.shape[2];
    assert g.shape == [n0, n1, n2];
    Prod3(n0, n1, n2);
    Offsets3D(n0, n1, n2);
  }

  /** 4 x 5 grid: cell volume 0.5 * 0.25 on the diagonal of the cell mass
      matrix (20 rows) and of the lumped face mass matrix (31 rows); unlumped
      face mode is refused. */
  lemma Mass2D(g: Grid)
    requires g.shape == [4, 5] && g.voxelSize == [0.5, 0.25]
    ensures g.Valid()
    ensures Mass(g, Cells, true).Ok? && Mass(g, Cells, true).value.numRows == 20
    ensures Mass(g, Cells, true).value.At(0, 0) == 0.125
    ensures Mass(g, Faces, true).Ok? && Mass(g, Faces, true).value.numRows == 31
    ensures forall i :: 0 <= i < 20 ==> Mass(g, Faces, true).value.At(i, i) == 0.125
    ensures Mass(g, Faces, false) == Err(UnsupportedMode)
  {
    Sizes2D(g);
    Measures2D(g);
  }

  /** 3 x 4 x 5 grid: cell volume 0.5 * 0.25 * 2 on both diagonals. */
  lemma Mass3D(g: Grid)
    requires g.shape == [3, 4, 5] && g.voxelSize == [0.5, 0.25, 2.0]
    ensures g.Valid()
    ensures Mass(g, Cells, true).Ok? && Mass(g, Cells, true).value.numRows == 60
    ensures Mass(g, Cells, true).value.At(0, 0) == 0.25
    ensures Mass(g, Faces, true).Ok? && Mass(g, Faces, true).value.numRows == 133
    ensures forall i :: 0 <= i < 60 ==> Mass(g, Faces, true).value.At(i, i) == 0.25
  {
    Sizes3D(g);
    Measures3D(g);
  }

  /** The stored rows of the 2-D divergence: corner cells 0, 4, 16 and 19, interior cell 6. */
  lemma DivergenceCorner2D(g: Grid)
    requires g.shape == [4, 5] && g.voxelSize == [0.5, 0.25]
    ensures g.Valid() && NumCells(g.shape) == 20
    ensures DivRow(g, 0) == [(0, 0.25), (15, 0.5)]
  {
    var n0, n1 := g.shape[0], g.shape[1];
    assert g.shape == [n0, n1];
    Prod2(n0, n1);
    CellAt2D(n0, n1, 0, 0);
    DivRowAt2D(g, 0, [0, 0]);
    Measures2D(g);
    Along2D(n0, n1, 0, 0, 0, -0.25, 0.25);
    Along2D(n0, n1, 0, 0, 1, -0.5, 0.5);
  }

  lemma DivergenceEdge2D(g: Grid)
    requires g.shape == [4, 5] && g.voxelSize == [0.5, 0.25]
    ensures g.Valid() && NumCells(g.shape) == 20
    ensures DivRow(g, 4) == [(3, 0.25), (15, -0.5), (19, 0.5)]
  {
    var n0, n1 := g.shape[0], g.shape[1];
    assert g.shape == [n0, n1];
    Prod2(n0, n1);
    CellAt2D(n0, n1, 0, 1);
    DivRowAt2D(g, 4, [0, 1]);
    Measures2D(g);
    Along2D(n0, n1, 0, 1, 0, -0.25, 0.25);
    Along2D(n0, n1, 0, 1, 1, -0.5, 0.5);
  }

  lemma DivergenceFarCorner2D(g: Grid)
    requires g.shape == [4, 5] && g.voxelSize == [0.5, 0.25]
    ensures g.Valid() && NumCells(g.shape) == 20
    ensures DivRow(g, 16) == [(12, 0.25), (27, -0.5)]
  {
    var n0, n1 := g.shape[0], g.shape[1];
    assert g.shape == [n0, n1];
    Prod2(n0, n1);
    CellAt2D(n0, n1, 0, 4);
    DivRowAt2D(g, 16, [0, 4]);
    Measures2D(g);
    Along2D(n0, n1, 0, 4, 0, -0.25, 0.25);
    Along2D(n0, n1, 0, 4, 1, -0.5, 0.5);
  }

  lemma DivergenceLastCell2D(g: Grid)
    requires g.shape == [4, 5] && g.voxelSize == [0.5, 0.25]
    ensures g.Valid() && NumCells(g.shape) == 20
    ensures DivRow(g, 19) == [(14, -0.25), (30, -0.5)]
  {
    var n0, n1 := g.shape[0], g.shape[1];
    assert g.shape == [n0, n1];
    Prod2(n0, n1);
    CellAt2D(n0, n1, 3, 4);
    DivRowAt2D(g, 19, [3, 4]);
    Measures2D(g);
    Along2D(n0, n1, 3, 4, 0, -0.25, 0.25);
    Along2D(n0, n1, 3, 4, 1, -0.5, 0.5);
  }

  lemma DivergenceInterior2D(g: Grid)
    requires g.shape == [4, 5] && g.voxelSize == [0.5, 0.25]
    ensures g.Valid() && NumCells(g.shape) == 20
    ensures DivRow(g, 6) == [(4, -0.25), (5, 0.25), (17, -0.5), (21, 0.5)]
  {
    var n0, n1 := g.shape[0], g.shape[1];
    assert g.shape == [n0, n1];
    Prod2(n0, n1);
    CellAt2D(n0, n1, 2, 1);
    DivRowAt2D(g, 6, [2, 1]);
    Measures2D(g);
    Along2D(n0, n1, 2, 1, 0, -0.25, 0.25);
    Along2D(n0, n1, 2, 1, 1, -0.5, 0.5);
  }

  /** The stored rows of the 3-D divergence: corner cells 0, 11 and 59, interior cell 16. */
  lemma DivergenceCorner3D(g: Grid)
    requires g.shape == [3, 4, 5] && g.voxelSize == [0.5, 0.25, 2.0]
    ensures g.Valid() && NumCells(g.shape) == 60
    ensures DivRow(g, 0) == [(0, 0.5), (40, 1.0), (85, 0.125)]
  {
    var n0, n1, n2 := g.shape[0], g.shape[1], g.shape[2];
    assert g.shape == [n0, n1, n2];
    Prod3(n0, n1, n2);
    CellAt3D(n0, n1, n2, 0, 0, 0);
    DivRowAt3D(g, 0, [0, 0, 0]);
    Measures3D(g);
    Along3D(n0, n1, n2, 0, 0, 0, 0, -0.5, 0.5);
    Along3D(n0, n1, n2, 0, 0, 0, 1, -1.0, 1.0);
    Along3D(n0, n1, n2, 0, 0, 0, 2, -0.125, 0.125);
  }

  lemma DivergenceEdge3D(g: Grid)
    requires g.shape == [3, 4, 5] && g.voxelSize == [0.5, 0.25, 2.0]
    ensures g.Valid() && NumCells(g.shape) == 60
    ensures DivRow(g, 11) == [(7, -0.5), (48, -1.0), (96, 0.125)]
  {
    var n0, n1, n2 := g.shape[0], g.shape[1], g.shape[2];
    assert g.shape == [n0, n1, n2];
    Prod3(n0, n1, n2);
    CellAt3D(n0, n1, n2, 2, 3, 0);
    DivRowAt3D(g, 11, [2, 3, 0]);
    Measures3D(g);
    Along3D(n0, n1, n2, 2, 3, 0, 0, -0.5, 0.5);
    Along3D(n0, n1, n2, 2, 3, 0, 1, -1.0, 1.0);
    Along3D(n0, n1, n2, 2, 3, 0, 2, -0.125, 0.125);
  }

  lemma DivergenceLastCell3D(g: Grid)
    requires g.shape == [3, 4, 5] && g.voxelSize == [0.5, 0.25, 2.0]
    ensures g.Valid() && NumCells(g.shape) == 60
    ensures DivRow(g, 59) == [(39, -0.5), (84, -1.0), (132, -0.125)]
  {
    var n0, n1, n2 := g.shape[0], g.shape[1], g.shape[2];
    assert g.shape == [n0, n1, n2];
    Prod3(n0, n1, n2);
    CellAt3D(n0, n1, n2, 2, 3, 4);
    DivRowAt3D(g, 59, [2, 3, 4]);
    Measures3D(g);
    Along3D(n0, n1, n2, 2, 3, 4, 0, -0.5, 0.5);
    Along3D(n0, n1, n2, 2, 3, 4, 1, -1.0, 1.0);
    Along3D(n0, n1, n2, 2, 3, 4, 2, -0.125, 0.125);
  }

  lemma DivergenceInterior3D(g: Grid)
    requires g.shape == [3, 4, 5] && g.voxelSize == [0.5, 0.25, 2.0]
    ensures g.Valid() && NumCells(g.shape) == 60
    ensures DivRow(g, 16) == [(10, -0.5), (11, 0.5), (50, -1.0), (53, 1.0), (89, -0.125), (101, 0.125)]
  {
    var n0, n1, n2 := g.shape[0], g.shape[1], g.shape[2];
    assert g.shape == [n0, n1, n2];
    Prod3(n0, n1, n2);
    CellAt3D(n0, n1, n2, 1, 1, 1);
    DivRowAt3D(g, 16, [1, 1, 1]);
    Measures3D(g);
    Along3D(n0, n1, n2, 1, 1, 1, 0, -0.5, 0.5);
    Along3D(n0, n1, n2, 1, 1, 1, 1, -1.0, 1.0);
    Along3D(n0, n1, n2, 1, 1, 1, 2, -0.125, 0.125);
  }

  /** 2 x 3 grid: the stencils of boundary faces 0 and 4 and of interior face 1. */
  lemma TangentialFace0Of23(g: Grid)
    requires g.shape == [2, 3] && g.voxelSize == [0.5, 0.25]
    ensures g.Valid() && NumFaces(g.shape) == 7
    ensures TangentialRow(g, 0, 0) == [(3, 0.25), (4, 0.25)]
  {
    var n0, n1 := g.shape[0], g.shape[1];
    assert g.shape == [n0, n1];
    Offsets2D(n0, n1);
    FaceAt2D(n0, n1, 0, 0, 0);
    assert [0, 0][0 := 1] == [1, 0];
    TangentialRowAt(g, 0, Face(0, [0, 0]), 0);
    Along2D(n0, n1, 0, 0, 1, 0.25, 0.25);
    Along2D(n0, n1, 1, 0, 1, 0.25, 0.25);
  }

  lemma TangentialFace4Of23(g: Grid)
    requires g.shape == [2, 3] && g.voxelSize == [0.5, 0.25]
    ensures g.Valid() && NumFaces(g.shape) == 7
    ensures TangentialRow(g, 4, 0) == [(0, 0.25), (1, 0.25)]
  {
    var n0, n1 := g.shape[0], g.shape[1];
    assert g.shape == [n0, n1];
    Offsets2D(n0, n1);
    FaceAt2D(n0, n1, 1, 1, 0);
    assert [1, 0][1 := 1] == [1, 1];
    TangentialRowAt(g, 4, Face(1, [1, 0]), 0);
    Along2D(n0, n1, 1, 0, 0, 0.25, 0.25);
    Along2D(n0, n1, 1, 1, 0, 0.25, 0.25);
  }

  lemma TangentialFace1Of23(g: Grid)
    requires g.shape == [2, 3] && g.voxelSize == [0.5, 0.25]
    ensures g.Valid() && NumFaces(g.shape) == 7
    ensures TangentialRow(g, 1, 0) == [(3, 0.25), (5, 0.25), (4, 0.25), (6, 0.25)]
  {
    var n0, n1 := g.shape[0], g.shape[1];
    assert g.shape == [n0, n1];
    Offsets2D(n0, n1);
    FaceAt2D(n0, n1, 0, 0, 1);
    assert [0, 1][0 := 1] == [1, 1];
    TangentialRowAt(g, 1, Face(0, [0, 1]), 0);
    Along2D(n0, n1, 0, 1, 1, 0.25, 0.25);
    Along2D(n0, n1, 1, 1, 1, 0.25, 0.25);
  }

  /** 3 x 4 grid: the stencils behind the nonzero patterns and the values of the unit test. */
  lemma TangentialFace0Of34(g: Grid)
    requires g.shape == [3, 4] && g.voxelSize == [0.5, 0.25]
    ensures g.Valid() && NumFaces(g.shape) == 17
    ensures TangentialRow(g, 0, 0) == [(8, 0.25), (9, 0.25)]
  {
    var n0, n1 := g.shape[0], g.shape[1];
    assert g.shape == [n0, n1];
    Offsets2D(n0, n1);
    FaceAt2D(n0, n1, 0, 0, 0);
    assert [0, 0][0 := 1] == [1, 0];
    TangentialRowAt(g, 0, Face(0, [0, 0]), 0);
    Along2D(n0, n1, 0, 0, 1, 0.25, 0.25);
    Along2D(n0, n1, 1, 0, 1, 0.25, 0.25);
  }

  lemma TangentialFace1Of34(g: Grid)
    requires g.shape == [3, 4] && g.voxelSize == [0.5, 0.25]
    ensures g.Valid() && NumFaces(g.shape) == 17
    ensures TangentialRow(g, 1, 0) == [(9, 0.25), (10, 0.25)]
  {
    var n0, n1 := g.shape[0], g.shape[1];
    assert g.shape == [n0, n1];
    Offsets2D(n0, n1);
    FaceAt2D(n0, n1, 0, 1, 0);
    assert [1, 0][0 := 2] == [2, 0];
    TangentialRowAt(g, 1, Face(0, [1, 0]), 0);
    Along2D(n0, n1, 1, 0, 1, 0.25, 0.25);
    Along2D(n0, n1, 2, 0, 1, 0.25, 0.25);
  }

  lemma TangentialFace2Of34(g: Grid)
    requires g.shape == [3, 4] && g.voxelSize == [0.5, 0.25]
    ensures g.Valid() && NumFaces(g.shape) == 17
    ensures TangentialRow(g, 2, 0) == [(8, 0.25), (11, 0.25), (9, 0.25), (12, 0.25)]
  {
    var n0, n1 := g.shape[0], g.shape[1];
    assert g.shape == [n0, n1];
    Offsets2D(n0, n1);
    FaceAt2D(n0, n1, 0, 0, 1);
    assert [0, 1][0 := 1] == [1, 1];
    TangentialRowAt(g, 2, Face(0, [0, 1]), 0);
    Along2D(n0, n1, 0, 1, 1, 0.25, 0.25);
    Along2D(n0, n1, 1, 1, 1, 0.25, 0.25);
  }

  lemma TangentialFace4Of34(g: Grid)
    requires g.shape == [3, 4] && g.voxelSize == [0.5, 0.25]
    ensures g.Valid() && NumFaces(g.shape) == 17
    ensures TangentialRow(g, 4, 0) == [(11, 0.25), (14, 0.25), (12, 0.25), (15, 0.25)]
  {
    var n0, n1 := g.shape[0], g.shape[1];
    assert g.shape == [n0, n1];
    Offsets2D(n0, n1);
    FaceAt2D(n0, n1, 0, 0, 2);
    assert [0, 2][0 := 1] == [1, 2];
    TangentialRowAt(g, 4, Face(0, [0, 2]), 0);
    Along2D(n0, n1, 0, 2, 1, 0.25, 0.25);
    Along2D(n0, n1, 1, 2, 1, 0.25, 0.25);
  }

  lemma TangentialFace7Of34(g: Grid)
    requires g.shape == [3, 4] && g.voxelSize == [0.5, 0.25]
    ensures g.Valid() && NumFaces(g.shape) == 17
    ensures TangentialRow(g, 7, 0) == [(15, 0.25), (16, 0.25)]
  {
    var n0, n1 := g.shape[0], g.shape[1];
    assert g.shape == [n0, n1];
    Offsets2D(n0, n1);
    FaceAt2D(n0, n1, 0, 1, 3);
    assert [1, 3][0 := 2] == [2, 3];
    TangentialRowAt(g, 7, Face(0, [1, 3]), 0);
    Along2D(n0, n1, 1, 3, 1, 0.25, 0.25);
    Along2D(n0, n1, 2, 3, 1, 0.25, 0.25);
  }

  lemma TangentialFace8Of34(g: Grid)
    requires g.shape == [3, 4] && g.voxelSize == [0.5, 0.25]
    ensures g.Valid() && NumFaces(g.shape) == 17
    ensures TangentialRow(g, 8, 0) == [(0, 0.25), (2, 0.25)]
  {
    var n0, n1 := g.shape[0], g.shape[1];
    assert g.shape == [n0, n1];
    Offsets2D(n0, n1);
    FaceAt2D(n0, n1, 1, 0, 0);
    assert [0, 0][1 := 1] == [0, 1];
    TangentialRowAt(g, 8, Face(1, [0, 0]), 0);
    Along2D(n0, n1, 0, 0, 0, 0.25, 0.25);
    Along2D(n0, n1, 0, 1, 0, 0.25, 0.25);
  }

  lemma TangentialFace12Of34(g: Grid)
    requires g.shape == [3, 4] && g.voxelSize == [0.5, 0.25]
    ensures g.Valid() && NumFaces(g.shape) == 17
    ensures TangentialRow(g, 12, 0) == [(2, 0.25), (3, 0.25), (4, 0.25), (5, 0.25)]
  {
    var n0, n1 := g.shape[0], g.shape[1];
    assert g.shape == [n0, n1];
    Offsets2D(n0, n1);
    FaceAt2D(n0, n1, 1, 1, 1);
    assert [1, 1][1 := 2] == [1, 2];
    TangentialRowAt(g, 12, Face(1, [1, 1]), 0);
    Along2D(n0, n1, 1, 1, 0, 0.25, 0.25);
    Along2D(n0, n1, 1, 2, 0, 0.25, 0.25);
  }

  lemma TangentialFace15Of34(g: Grid)
    requires g.shape == [3, 4] && g.voxelSize == [0.5, 0.25]
    ensures g.Valid() && NumFaces(g.shape) == 17
    ensures TangentialRow(g, 15, 0) == [(4, 0.25), (5, 0.25), (6, 0.25), (7, 0.25)]
  {
    var n0, n1 := g.shape[0], g.shape[1];
    assert g.shape == [n0, n1];
    Offsets2D(n0, n1);
    FaceAt2D(n0, n1, 1, 1, 2);
    assert [1, 2][1 := 3] == [1, 3];
    TangentialRowAt(g, 15, Face(1, [1, 2]), 0);
    Along2D(n0, n1, 1, 2, 0, 0.25, 0.25);
    Along2D(n0, n1, 1, 3, 0, 0.25, 0.25);
  }

  lemma TangentialFace16Of34(g: Grid)
    requires g.shape == [3, 4] && g.voxelSize == [0.5, 0.25]
    ensures g.Valid() && NumFaces(g.shape) == 17
    ensures TangentialRow(g, 16, 0) == [(5, 0.25), (7, 0.25)]
  {
    var n0, n1 := g.shape[0], g.shape[1];
    assert g.shape == [n0, n1];
    Offsets2D(n0, n1);
    FaceAt2D(n0, n1, 1, 2, 2);
    assert [2, 2][1 := 3] == [2, 3];
    TangentialRowAt(g, 16, Face(1, [2, 2]), 0);
    Along2D(n0, n1, 2, 2, 0, 0.25, 0.25);
    Along2D(n0, n1, 2, 3, 0, 0.25, 0.25);
  }

  /** 3 x 3 x 3 grid: corner faces 0, 18, 36 and central faces 8, 25, 40, both tangential axes. */
  lemma TangentialFace0Axis0Of333(g: Grid)
    requires g.shape == [3, 3, 3] && g.voxelSize == [0.5, 0.25, 2.0]
    ensures g.Valid() && NumFaces(g.shape) == 54
    ensures TangentialRow(g, 0, 0) == [(18, 0.25), (19, 0.25)]
  {
    var n0, n1, n2 := g.shape[0], g.shape[1], g.shape[2];
    assert g.shape == [n0, n1, n2];
    Offsets3D(n0, n1, n2);
    FaceAt3D(n0, n1, n2, 0, 0, 0, 0);
    assert [0, 0, 0][0 := 1] == [1, 0, 0];
    TangentialRowAt(g, 0, Face(0, [0, 0, 0]), 0);
    Along3D(n0, n1, n2, 0, 0, 0, 1, 0.25, 0.25);
    Along3D(n0, n1, n2, 1, 0, 0, 1, 0.25, 0.25);
  }

  lemma TangentialFace0Axis1Of333(g: Grid)
    requires g.shape == [3, 3, 3] && g.voxelSize == [0.5, 0.25, 2.0]
    ensures g.Valid() && NumFaces(g.shape) == 54
    ensures TangentialRow(g, 0, 1) == [(36, 0.25), (37, 0.25)]
  {
    var n0, n1, n2 := g.shape[0], g.shape[1], g.shape[2];
    assert g.shape == [n0, n1, n2];
    Offsets3D(n0, n1, n2);
    FaceAt3D(n0, n1, n2, 0, 0, 0, 0);
    assert [0, 0, 0][0 := 1] == [1, 0, 0];
    TangentialRowAt(g, 0, Face(0, [0, 0, 0]), 1);
    Along3D(n0, n1, n2, 0, 0, 0, 2, 0.25, 0.25);
    Along3D(n0, n1, n2, 1, 0, 0, 2, 0.25, 0.25);
  }

  lemma TangentialFace18Axis0Of333(g: Grid)
    requires g.shape == [3, 3, 3] && g.voxelSize == [0.5, 0.25, 2.0]
    ensures g.Valid() && NumFaces(g.shape) == 54
    ensures TangentialRow(g, 18, 0) == [(0, 0.25), (2, 0.25)]
  {
    var n0, n1, n2 := g.shape[0], g.shape[1], g.shape[2];
    assert g.shape == [n0, n1, n2];
    Offsets3D(n0, n1, n2);
    FaceAt3D(n0, n1, n2, 1, 0, 0, 0);
    assert [0, 0, 0][1 := 1] == [0, 1, 0];
    TangentialRowAt(g, 18, Face(1, [0, 0, 0]), 0);
    Along3D(n0, n1, n2, 0, 0, 0, 0, 0.25, 0.25);
    Along3D(n0, n1, n2, 0, 1, 0, 0, 0.25, 0.25);
  }

  lemma TangentialFace18Axis1Of333(g: Grid)
    requires g.shape == [3, 3, 3] && g.voxelSize == [0.5, 0.25, 2.0]
    ensures g.Valid() && NumFaces(g.shape) == 54
    ensures TangentialRow(g, 18, 1) == [(36, 0.25), (39, 0.25)]
  {
    var n0, n1, n2 := g.shape[0], g.shape[1], g.shape[2];
    assert g.shape == [n0, n1, n2];
    Offsets3D(n0, n1, n2);
    FaceAt3D(n0, n1, n2, 1, 0, 0, 0);
    assert [0, 0, 0][1 := 1] == [0, 1, 0];
    TangentialRowAt(g, 18, Face(1, [0, 0, 0]), 1);
    Along3D(n0, n1, n2, 0, 0, 0, 2, 0.25, 0.25);
    Along3D(n0, n1, n2, 0, 1, 0, 2, 0.25, 0.25);
  }

  lemma TangentialFace36Axis0Of333(g: Grid)
    requires g.shape == [3, 3, 3] && g.voxelSize == [0.5, 0.25, 2.0]
    ensures g.Valid() && NumFaces(g.shape) == 54
    ensures TangentialRow(g, 36, 0) == [(0, 0.25), (6, 0.25)]
  {
    var n0, n1, n2 := g.shape[0], g.shape[1], g.shape[2];
    assert g.shape == [n0, n1, n2];
    Offsets3D(n0, n1, n2);
    FaceAt3D(n0, n1, n2, 2, 0, 0, 0);
    assert [0, 0, 0][2 := 1] == [0, 0, 1];
    TangentialRowAt(g, 36, Face(2, [0, 0, 0]), 0);
    Along3D(n0, n1, n2, 0, 0, 0, 0, 0.25, 0.25);
    Along3D(n0, n1, n2, 0, 0, 1, 0, 0.25, 0.25);
  }

  lemma TangentialFace36Axis1Of333(g: Grid)
    requires g.shape == [3, 3, 3] && g.voxelSize == [0.5, 0.25, 2.0]
    ensures g.Valid() && NumFaces(g.shape) == 54
    ensures TangentialRow(g, 36, 1) == [(18, 0.25), (24, 0.25)]
  {
    var n0, n1, n2 := g.shape[0], g.shape[1], g.shape[2];
    assert g.shape == [n0, n1, n2];
    Offsets3D(n0, n1, n2);
    FaceAt3D(n0, n1, n2, 2, 0, 0, 0);
    assert [0, 0, 0][2 := 1] == [0, 0, 1];
    TangentialRowAt(g, 36, Face(2, [0, 0, 0]), 1);
    Along3D(n0, n1, n2, 0, 0, 0, 1, 0.25, 0.25);
    Along3D(n0, n1, n2, 0, 0, 1, 1, 0.25, 0.25);
  }

  lemma TangentialFace8Axis0Of333(g: Grid)
    requires g.shape == [3, 3, 3] && g.voxelSize == [0.5, 0.25, 2.0]
    ensures g.Valid() && NumFaces(g.shape) == 54
    ensures TangentialRow(g, 8, 0) == [(24, 0.25), (27, 0.25), (25, 0.25), (28, 0.25)]
  {
    var n0, n1, n2 := g.shape[0], g.shape[1], g.shape[2];
    assert g.shape == [n0, n1, n2];
    Offsets3D(n0, n1, n2);
    FaceAt3D(n0, n1, n2, 0, 0, 1, 1);
    assert [0, 1, 1][0 := 1] == [1, 1, 1];
    TangentialRowAt(g, 8, Face(0, [0, 1, 1]), 0);
    Along3D(n0, n1, n2, 0, 1, 1, 1, 0.25, 0.25);
    Along3D(n0, n1, n2, 1, 1, 1, 1, 0.25, 0.25);
  }

  lemma TangentialFace8Axis1Of333(g: Grid)
    requires g.shape == [3, 3, 3] && g.voxelSize == [0.5, 0.25, 2.0]
    ensures g.Valid() && NumFaces(g.shape) == 54
    ensures TangentialRow(g, 8, 1) == [(39, 0.25), (48, 0.25), (40, 0.25), (49, 0.25)]
  {
    var n0, n1, n2 := g.shape[0], g.shape[1], g.shape[2];
    assert g.shape == [n0, n1, n2];
    Offsets3D(n0, n1, n2);
    FaceAt3D(n0, n1, n2, 0, 0, 1, 1);
    assert [0, 1, 1][0 := 1] == [1, 1, 1];
    TangentialRowAt(g, 8, Face(0, [0, 1, 1]), 1);
    Along3D(n0, n1, n2, 0, 1, 1, 2, 0.25, 0.25);
    Along3D(n0, n1, n2, 1, 1, 1, 2, 0.25, 0.25);
  }

  lemma TangentialFace25Axis0Of333(g: Grid)
    requires g.shape == [3, 3, 3] && g.voxelSize == [0.5, 0.25, 2.0]
    ensures g.Valid() && NumFaces(g.shape) == 54
    ensures TangentialRow(g, 25, 0) == [(6, 0.25), (7, 0.25), (8, 0.25), (9, 0.25)]
  {
    var n0, n1, n2 := g.shape[0], g.shape[1], g.shape[2];
    assert g.shape == [n0, n1, n2];
    Offsets3D(n0, n1, n2);
    FaceAt3D(n0, n1, n2, 1, 1, 0, 1);
    assert [1, 0, 1][1 := 1] == [1, 1, 1];
    TangentialRowAt(g, 25, Face(1, [1, 0, 1]), 0);
    Along3D(n0, n1, n2, 1, 0, 1, 0, 0.25, 0.25);
    Along3D(n0, n1, n2, 1, 1, 1, 0, 0.25, 0.25);
  }

  lemma TangentialFace25Axis1Of333(g: Grid)
    requires g.shape == [3, 3, 3] && g.voxelSize == [0.5, 0.25, 2.0]
    ensures g.Valid() && NumFaces(g.shape) == 54
    ensures TangentialRow(g, 25, 1) == [(37, 0.25), (46, 0.25), (40, 0.25), (49, 0.25)]
  {
    var n0, n1, n2 := g.shape[0], g.shape[1], g.shape[2];
    assert g.shape == [n0, n1, n2];
    Offsets3D(n0, n1, n2);
    FaceAt3D(n0, n1, n2, 1, 1, 0, 1);
    assert [1, 0, 1][1 := 1] == [1, 1, 1];
    TangentialRowAt(g, 25, Face(1, [1, 0, 1]), 1);
    Along3D(n0, n1, n2, 1, 0, 1, 2, 0.25, 0.25);
    Along3D(n0, n1, n2, 1, 1, 1, 2, 0.25, 0.25);
  }

  lemma TangentialFace40Axis0Of333(g: Grid)
    requires g.shape == [3, 3, 3] && g.voxelSize == [0.5, 0.25, 2.0]
    ensures g.Valid() && NumFaces(g.shape) == 54
    ensures TangentialRow(g, 40, 0) == [(2, 0.25), (3, 0.25), (8, 0.25), (9, 0.25)]
  {
    var n0, n1, n2 := g.shape[0], g.shape[1], g.shape[2];
    assert g.shape == [n0, n1, n2];
    Offsets3D(n0, n1, n2);
    FaceAt3D(n0, n1, n2, 2, 1, 1, 0);
    assert [1, 1, 0][2 := 1] == [1, 1, 1];
    TangentialRowAt(g, 40, Face(2, [1, 1, 0]), 0);
    Along3D(n0, n1, n2, 1, 1, 0, 0, 0.25, 0.25);
    Along3D(n0, n1, n2, 1, 1, 1, 0, 0.25, 0.25);
  }

  lemma TangentialFace40Axis1Of333(g: Grid)
    requires g.shape == [3, 3, 3] && g.voxelSize == [0.5, 0.25, 2.0]
    ensures g.Valid() && NumFaces(g.shape) == 54
    ensures TangentialRow(g, 40, 1) == [(19, 0.25), (22, 0.25), (25, 0.25), (28, 0.25)]
  {
    var n0, n1, n2 := g.shape[0], g.shape[1], g.shape[2];
    assert g.shape == [n0, n1, n2];
    Offsets3D(n0, n1, n2);
    FaceAt3D(n0, n1, n2, 2, 1, 1, 0);
    assert [1, 1, 0][2 := 1] == [1, 1, 1];
    TangentialRowAt(g, 40, Face(2, [1, 1, 0]), 1);
    Along3D(n0, n1, n2, 1, 1, 0, 1, 0.25, 0.25);
    Along3D(n0, n1, n2, 1, 1, 1, 1, 0.25, 0.25);
  }

  /** 3 x 4 grid, normal flux 0, 1, 2, ...: the tangential flux on faces 0, 1, 4, 8, 12 and 16. */
  lemma TangentialArange0Of34(g: Grid, flux: seq<real>)
    requires g.shape == [3, 4] && g.voxelSize == [0.5, 0.25]
    requires flux == Arange(17)
    ensures g.Valid() && NumFaces(g.shape) == 17
    ensures TangentialApply(g, flux)[0][0] == 4.25
  {
    TangentialFace0Of34(g);
    TangentialApplyAt(g, flux, 0, 0);
    Dot2(8, 0.25, 9, 0.25, flux);
    assert flux[8] == 8.0 && flux[9] == 9.0;
  }

  lemma TangentialArange1Of34(g: Grid, flux: seq<real>)
    requires g.shape == [3, 4] && g.voxelSize == [0.5, 0.25]
    requires flux == Arange(17)
    ensures g.Valid() && NumFaces(g.shape) == 17
    ensures TangentialApply(g, flux)[0][1] == 4.75
  {
    TangentialFace1Of34(g);
    TangentialApplyAt(g, flux, 1, 0);
    Dot2(9, 0.25, 10, 0.25, flux);
    assert flux[9] == 9.0 && flux[10] == 10.0;
  }

  lemma TangentialArange4Of34(g: Grid, flux: seq<real>)
    requires g.shape == [3, 4] && g.voxelSize == [0.5, 0.25]
    requires flux == Arange(17)
    ensures g.Valid() && NumFaces(g.shape) == 17
    ensures TangentialApply(g, flux)[0][4] == 13.0
  {
    TangentialFace4Of34(g);
    TangentialApplyAt(g, flux, 4, 0);
    Dot4(11, 0.25, 14, 0.25, 12, 0.25, 15, 0.25, flux);
    assert flux[11] == 11.0 && flux[14] == 14.0 && flux[12] == 12.0 && flux[15] == 15.0;
  }

  lemma TangentialArange8Of34(g: Grid, flux: seq<real>)
    requires g.shape == [3, 4] && g.voxelSize == [0.5, 0.25]
    requires flux == Arange(17)
    ensures g.Valid() && NumFaces(g.shape) == 17
    ensures TangentialApply(g, flux)[0][8] == 0.5
  {
    TangentialFace8Of34(g);
    TangentialApplyAt(g, flux, 8, 0);
    Dot2(0, 0.25, 2, 0.25, flux);
    assert flux[0] == 0.0 && flux[2] == 2.0;
  }

  lemma TangentialArange12Of34(g: Grid, flux: seq<real>)
    requires g.shape == [3, 4] && g.voxelSize == [0.5, 0.25]
    requires flux == Arange(17)
    ensures g.Valid() && NumFaces(g.shape) == 17
    ensures TangentialApply(g, flux)[0][12] == 3.5
  {
    TangentialFace12Of34(g);
    TangentialApplyAt(g, flux, 12, 0);
    Dot4(2, 0.25, 3, 0.25, 4, 0.25, 5, 0.25, flux);
    assert flux[2] == 2.0 && flux[3] == 3.0 && flux[4] == 4.0 && flux[5] == 5.0;
  }

  lemma TangentialArange16Of34(g: Grid, flux: seq<real>)
    requires g.shape == [3, 4] && g.voxelSize == [0.5, 0.25]
    requires flux == Arange(17)
    ensures g.Valid() && NumFaces(g.shape) == 17
    ensures TangentialApply(g, flux)[0][16] == 3.0
  {
    TangentialFace16Of34(g);
    TangentialApplyAt(g, flux, 16, 0);
    Dot2(5, 0.25, 7, 0.25, flux);
    assert flux[5] == 5.0 && flux[7] == 7.0;
  }

  /** The full reconstruction keeps each face's own flux on its own axis and the tangential value on the other. */
  lemma FullArange0Of34(g: Grid, flux: seq<real>)
    requires g.shape == [3, 4] && g.voxelSize == [0.5, 0.25]
    requires flux == Arange(17)
    ensures g.Valid() && NumFaces(g.shape) == 17
    ensures FullReconstruction(g, flux)[0] == [0.0, 4.25]
  {
    var n0, n1 := g.shape[0], g.shape[1];
    assert g.shape == [n0, n1];
    TangentialArange0Of34(g, flux);
    FaceAt2D(n0, n1, 0, 0, 0);
  }

  lemma FullArange1Of34(g: Grid, flux: seq<real>)
    requires g.shape == [3, 4] && g.voxelSize == [0.5, 0.25]
    requires flux == Arange(17)
    ensures g.Valid() && NumFaces(g.shape) == 17
    ensures FullReconstruction(g, flux)[1] == [1.0, 4.75]
  {
    var n0, n1 := g.shape[0], g.shape[1];
    assert g.shape == [n0, n1];
    TangentialArange1Of34(g, flux);
    FaceAt2D(n0, n1, 0, 1, 0);
  }

  lemma FullArange4Of34(g: Grid, flux: seq<real>)
    requires g.shape == [3, 4] && g.voxelSize == [0.5, 0.25]
    requires flux == Arange(17)
    ensures g.Valid() && NumFaces(g.shape) == 17
    ensures FullReconstruction(g, flux)[4] == [4.0, 13.0]
  {
    var n0, n1 := g.shape[0], g.shape[1];
    assert g.shape == [n0, n1];
    TangentialArange4Of34(g, flux);
    FaceAt2D(n0, n1, 0, 0, 2);
  }

  lemma FullArange8Of34(g: Grid, flux: seq<real>)
    requires g.shape == [3, 4] && g.voxelSize == [0.5, 0.25]
    requires flux == Arange(17)
    ensures g.Valid() && NumFaces(g.shape) == 17
    ensures FullReconstruction(g, flux)[8] == [0.5, 8.0]
  {
    var n0, n1 := g.shape[0], g.shape[1];
    assert g.shape == [n0, n1];
    TangentialArange8Of34(g, flux);
    FaceAt2D(n0, n1, 1, 0, 0);
  }

  lemma FullArange12Of34(g: Grid, flux: seq<real>)
    requires g.shape == [3, 4] && g.voxelSize == [0.5, 0.25]
    requires flux == Arange(17)
    ensures g.Valid() && NumFaces(g.shape) == 17
    ensures FullReconstruction(g, flux)[12] == [3.5, 12.0]
  {
    var n0, n1 := g.shape[0], g.shape[1];
    assert g.shape == [n0, n1];
    TangentialArange12Of34(g, flux);
    FaceAt2D(n0, n1, 1, 1, 1);
  }

  lemma FullArange16Of34(g: Grid, flux: seq<real>)
    requires g.shape == [3, 4] && g.voxelSize == [0.5, 0.25]
    requires flux == Arange(17)
    ensures g.Valid() && NumFaces(g.shape) == 17
    ensures FullReconstruction(g, flux)[16] == [3.0, 16.0]
  {
    var n0, n1 := g.shape[0], g.shape[1];
    assert g.shape == [n0, n1];
    TangentialArange16Of34(g, flux);
    FaceAt2D(n0, n1, 1, 2, 2);
  }

  /** 3 x 3 x 3 grid, normal flux 0, 1, 2, ...: both tangential fluxes on faces 0, 18, 36, 8, 25 and 40. */
  lemma TangentialArange0Of333(g: Grid, flux: seq<real>)
    requires g.shape == [3, 3, 3] && g.voxelSize == [0.5, 0.25, 2.0]
    requires flux == Arange(54)
    ensures g.Valid() && NumFaces(g.shape) == 54
    ensures TangentialApply(g, flux)[0][0] == 9.25
    ensures TangentialApply(g, flux)[1][0] == 18.25
  {
    TangentialFace0Axis0Of333(g);
    TangentialApplyAt(g, flux, 0, 0);
    Dot2(18, 0.25, 19, 0.25, flux);
    assert flux[18] == 18.0 && flux[19] == 19.0;
    TangentialFace0Axis1Of333(g);
    TangentialApplyAt(g, flux, 0, 1);
    Dot2(36, 0.25, 37, 0.25, flux);
    assert flux[36] == 36.0 && flux[37] == 37.0;
  }

  lemma TangentialArange18Of333(g: Grid, flux: seq<real>)
    requires g.shape == [3, 3, 3] && g.voxelSize == [0.5, 0.25, 2.0]
    requires flux == Arange(54)
    ensures g.Valid() && NumFaces(g.shape) == 54
    ensures TangentialApply(g, flux)[0][18] == 0.5
    ensures TangentialApply(g, flux)[1][18] == 18.75
  {
    TangentialFace18Axis0Of333(g);
    TangentialApplyAt(g, flux, 18, 0);
    Dot2(0, 0.25, 2, 0.25, flux);
    assert flux[0] == 0.0 && flux[2] == 2.0;
    TangentialFace18Axis1Of333(g);
    TangentialApplyAt(g, flux, 18, 1);
    Dot2(36, 0.25, 39, 0.25, flux);
    assert flux[36] == 36.0 && flux[39] == 39.0;
  }

  lemma TangentialArange36Of333(g: Grid, flux: seq<real>)
    requires g.shape == [3, 3, 3] && g.voxelSize == [0.5, 0.25, 2.0]
    requires flux == Arange(54)
    ensures g.Valid() && NumFaces(g.shape) == 54
    ensures TangentialApply(g, flux)[0][36] == 1.5
    ensures TangentialApply(g, flux)[1][36] == 10.5
  {
    TangentialFace36Axis0Of333(g);
    TangentialApplyAt(g, flux, 36, 0);
    Dot2(0, 0.25, 6, 0.25, flux);
    assert flux[0] == 0.0 && flux[6] == 6.0;
    TangentialFace36Axis1Of333(g);
    TangentialApplyAt(g, flux, 36, 1);
    Dot2(18, 0.25, 24, 0.25, flux);
    assert flux[18] == 18.0 && flux[24] == 24.0;
  }

  lemma TangentialArange8Of333(g: Grid, flux: seq<real>)
    requires g.shape == [3, 3, 3] && g.voxelSize == [0.5, 0.25, 2.0]
    requires flux == Arange(54)
    ensures g.Valid() && NumFaces(g.shape) == 54
    ensures TangentialApply(g, flux)[0][8] == 26.0
    ensures TangentialApply(g, flux)[1][8] == 44.0
  {
    TangentialFace8Axis0Of333(g);
    TangentialApplyAt(g, flux, 8, 0);
    Dot4(24, 0.25, 27, 0.25, 25, 0.25, 28, 0.25, flux);
    assert flux[24] == 24.0 && flux[27] == 27.0 && flux[25] == 25.0 && flux[28] == 28.0;
    TangentialFace8Axis1Of333(g);
    TangentialApplyAt(g, flux, 8, 1);
    Dot4(39, 0.25, 48, 0.25, 40, 0.25, 49, 0.25, flux);
    assert flux[39] == 39.0 && flux[48] == 48.0 && flux[40] == 40.0 && flux[49] == 49.0;
  }

  lemma TangentialArange25Of333(g: Grid, flux: seq<real>)
    requires g.shape == [3, 3, 3] && g.voxelSize == [0.5, 0.25, 2.0]
    requires flux == Arange(54)
    ensures g.Valid() && NumFaces(g.shape) == 54
    ensures TangentialApply(g, flux)[0][25] == 7.5
    ensures TangentialApply(g, flux)[1][25] == 43.0
  {
    TangentialFace25Axis0Of333(g);
    TangentialApplyAt(g, flux, 25, 0);
    Dot4(6, 0.25, 7, 0.25, 8, 0.25, 9, 0.25, flux);
    assert flux[6] == 6.0 && flux[7] == 7.0 && flux[8] == 8.0 && flux[9] == 9.0;
    TangentialFace25Axis1Of333(g);
    TangentialApplyAt(g, flux, 25, 1);
    Dot4(37, 0.25, 46, 0.25, 40, 0.25, 49, 0.25, flux);
    assert flux[37] == 37.0 && flux[46] == 46.0 && flux[40] == 40.0 && flux[49] == 49.0;
  }

  lemma TangentialArange40Of333(g: Grid, flux: seq<real>)
    requires g.shape == [3, 3, 3] && g.voxelSize == [0.5, 0.25, 2.0]
    requires flux == Arange(54)
    ensures g.Valid() && NumFaces(g.shape) == 54
    ensures TangentialApply(g, flux)[0][40] == 5.5
    ensures TangentialApply(g, flux)[1][40] == 23.5
  {
    TangentialFace40Axis0Of333(g);
    TangentialApplyAt(g, flux, 40, 0);
    Dot4(2, 0.25, 3, 0.25, 8, 0.25, 9, 0.25, flux);
    assert flux[2] == 2.0 && flux[3] == 3.0 && flux[8] == 8.0 && flux[9] == 9.0;
    TangentialFace40Axis1Of333(g);
    TangentialApplyAt(g, flux, 40, 1);
    Dot4(19, 0.25, 22, 0.25, 25, 0.25, 28, 0.25, flux);
    assert flux[19] == 19.0 && flux[22] == 22.0 && flux[25] == 25.0 && flux[28] == 28.0;
  }

  /** The full reconstruction on the same faces. */
  lemma FullArange0Of333(g: Grid, flux: seq<real>)
    requires g.shape == [3, 3, 3] && g.voxelSize == [0.5, 0.25, 2.0]
    requires flux == Arange(54)
    ensures g.Valid() && NumFaces(g.shape) == 54
    ensures FullReconstruction(g, flux)[0] == [0.0, 9.25, 18.25]
  {
    var n0, n1, n2 := g.shape[0], g.shape[1], g.shape[2];
    assert g.shape == [n0, n1, n2];
    TangentialArange0Of333(g, flux);
    FaceAt3D(n0, n1, n2, 0, 0, 0, 0);
  }

  lemma FullArange18Of333(g: Grid, flux: seq<real>)
    requires g.shape == [3, 3, 3] && g.voxelSize == [0.5, 0.25, 2.0]
    requires flux == Arange(54)
    ensures g.Valid() && NumFaces(g.shape) == 54
    ensures FullReconstruction(g, flux)[18] == [0.5, 18.0, 18.75]
  {
    var n0, n1, n2 := g.shape[0], g.shape[1], g.shape[2];
    assert g.shape == [n0, n1, n2];
    TangentialArange18Of333(g, flux);
    FaceAt3D(n0, n1, n2, 1, 0, 0, 0);
  }

  lemma FullArange36Of333(g: Grid, flux: seq<real>)
    requires g.shape == [3, 3, 3] && g.voxelSize == [0.5, 0.25, 2.0]
    requires flux == Arange(54)
    ensures g.Valid() && NumFaces(g.shape) == 54
    ensures FullReconstruction(g, flux)[36] == [1.5, 10.5, 36.0]
  {
    var n0, n1, n2 := g.shape[0], g.shape[1], g.shape[2];
    assert g.shape == [n0, n1, n2];
    TangentialArange36Of333(g, flux);
    FaceAt3D(n0, n1, n2, 2, 0, 0, 0);
  }

  lemma FullArange8Of333(g: Grid, flux: seq<real>)
    requires g.shape == [3, 3, 3] && g.voxelSize == [0.5, 0.25, 2.0]
    requires flux == Arange(54)
    ensures g.Valid() && NumFaces(g.shape) == 54
    ensures FullReconstruction(g, flux)[8] == [8.0, 26.0, 44.0]
  {
    var n0, n1, n2 := g.shape[0], g.shape[1], g.shape[2];
    assert g.shape == [n0, n1, n2];
    TangentialArange8Of333(g, flux);
    FaceAt3D(n0, n1, n2, 0, 0, 1, 1);
  }

  lemma FullArange25Of333(g: Grid, flux: seq<real>)
    requires g.shape == [3, 3, 3] && g.voxelSize == [0.5, 0.25, 2.0]
    requires flux == Arange(54)
    ensures g.Valid() && NumFaces(g.shape) == 54
    ensures FullReconstruction(g, flux)[25] == [7.5, 25.0, 43.0]
  {
    var n0, n1, n2 := g.shape[0], g.shape[1], g.shape[2];
    assert g.shape == [n0, n1, n2];
    TangentialArange25Of333(g, flux);
    FaceAt3D(n0, n1, n2, 1, 1, 0, 1);
  }

  lemma FullArange40Of333(g: Grid, flux: seq<real>)
    requires g.shape == [3, 3, 3] && g.voxelSize == [0.5, 0.25, 2.0]
    requires flux == Arange(54)
    ensures g.Valid() && NumFaces(g.shape) == 54
    ensures FullReconstruction(g, flux)[40] == [5.5, 23.5, 40.0]
  {
    var n0, n1, n2 := g.shape[0], g.shape[1], g.shape[2];
    assert g.shape == [n0, n1, n2];
    TangentialArange40Of333(g, flux);
    FaceAt3D(n0, n1, n2, 2, 1, 1, 0);
  }

  /** face_to_cell of the flux 0, 1, 2, ... on cells (0, 0), (2, 3) and (1, 1) of the 3 x 4 grid. */
  lemma FaceToCellCorner2D(g: Grid, flux: seq<real>)
    requires g.shape == [3, 4] && g.voxelSize == [0.5, 0.25]
    requires flux == Arange(17)
    ensures g.Valid() && NumCells(g.shape) == 12 && NumFaces(g.shape) == 17
    ensures FaceToCell(g, flux)[0] == [0.0, 4.0]
  {
    var n0, n1 := g.shape[0], g.shape[1];
    assert g.shape == [n0, n1];
    Prod2(n0, n1);
    Offsets2D(n0, n1);
    CellAt2D(n0, n1, 0, 0);
    FaceToCellRowAt(g, flux, 0, [0, 0]);
    assert FaceToCell(g, flux)[0][0] == 0.0 by {
      Along2D(n0, n1, 0, 0, 0, 0.5, 0.5);
      assert Along(g.shape, [0, 0], 0, 0.5, 0.5) == [(0, 0.5)];
      Dot1(0, 0.5, flux);
      assert flux[0] == 0.0;
    }
    assert FaceToCell(g, flux)[0][1] == 4.0 by {
      Along2D(n0, n1, 0, 0, 1, 0.5, 0.5);
      assert Along(g.shape, [0, 0], 1, 0.5, 0.5) == [(8, 0.5)];
      Dot1(8, 0.5, flux);
      assert flux[8] == 8.0;
    }
  }

  lemma FaceToCellFar2D(g: Grid, flux: seq<real>)
    requires g.shape == [3, 4] && g.voxelSize == [0.5, 0.25]
    requires flux == Arange(17)
    ensures g.Valid() && NumCells(g.shape) == 12 && NumFaces(g.shape) == 17
    ensures FaceToCell(g, flux)[11] == [3.5, 8.0]
  {
    var n0, n1 := g.shape[0], g.shape[1];
    assert g.shape == [n0, n1];
    Prod2(n0, n1);
    Offsets2D(n0, n1);
    CellAt2D(n0, n1, 2, 3);
    FaceToCellRowAt(g, flux, 11, [2, 3]);
    assert FaceToCell(g, flux)[11][0] == 3.5 by {
      Along2D(n0, n1, 2, 3, 0, 0.5, 0.5);
      assert Along(g.shape, [2, 3], 0, 0.5, 0.5) == [(7, 0.5)];
      Dot1(7, 0.5, flux);
      assert flux[7] == 7.0;
    }
    assert FaceToCell(g, flux)[11][1] == 8.0 by {
      Along2D(n0, n1, 2, 3, 1, 0.5, 0.5);
      assert Along(g.shape, [2, 3], 1, 0.5, 0.5) == [(16, 0.5)];
      Dot1(16, 0.5, flux);
      assert flux[16] == 16.0;
    }
  }

  lemma FaceToCellInterior2D(g: Grid, flux: seq<real>)
    requires g.shape == [3, 4] && g.voxelSize == [0.5, 0.25]
    requires flux == Arange(17)
    ensures g.Valid() && NumCells(g.shape) == 12 && NumFaces(g.shape) == 17
    ensures FaceToCell(g, flux)[4] == [2.5, 10.5]
  {
    var n0, n1 := g.shape[0], g.shape[1];
    assert g.shape == [n0, n1];
    Prod2(n0, n1);
    Offsets2D(n0, n1);
    CellAt2D(n0, n1, 1, 1);
    FaceToCellRowAt(g, flux, 4, [1, 1]);
    assert FaceToCell(g, flux)[4][0] == 2.5 by {
      Along2D(n0, n1, 1, 1, 0, 0.5, 0.5);
      assert Along(g.shape, [1, 1], 0, 0.5, 0.5) == [(2, 0.5), (3, 0.5)];
      Dot2(2, 0.5, 3, 0.5, flux);
      assert flux[2] == 2.0 && flux[3] == 3.0;
    }
    assert FaceToCell(g, flux)[4][1] == 10.5 by {
      Along2D(n0, n1, 1, 1, 1, 0.5, 0.5);
      assert Along(g.shape, [1, 1], 1, 0.5, 0.5) == [(9, 0.5), (12, 0.5)];
      Dot2(9, 0.5, 12, 0.5, flux);
      assert flux[9] == 9.0 && flux[12] == 12.0;
    }
  }

  /** The same on cells (0, 0, 0), (2, 3, 4) and (1, 1, 1) of the 3 x 4 x 5 grid. */
  lemma FaceToCellCorner3D(g: Grid, flux: seq<real>)
    requires g.shape == [3, 4, 5] && g.voxelSize == [0.5, 0.25, 2.0]
    requires flux == Arange(133)
    ensures g.Valid() && NumCells(g.shape) == 60 && NumFaces(g.shape) == 133
    ensures FaceToCell(g, flux)[0] == [0.0, 20.0, 42.5]
  {
    var n0, n1, n2 := g.shape[0], g.shape[1], g.shape[2];
    assert g.shape == [n0, n1, n2];
    Prod3(n0, n1, n2);
    Offsets3D(n0, n1, n2);
    CellAt3D(n0, n1, n2, 0, 0, 0);
    FaceToCellRowAt(g, flux, 0, [0, 0, 0]);
    assert FaceToCell(g, flux)[0][0] == 0.0 by {
      Along3D(n0, n1, n2, 0, 0, 0, 0, 0.5, 0.5);
      assert Along(g.shape, [0, 0, 0], 0, 0.5, 0.5) == [(0, 0.5)];
      Dot1(0, 0.5, flux);
      assert flux[0] == 0.0;
    }
    assert FaceToCell(g, flux)[0][1] == 20.0 by {
      Along3D(n0, n1, n2, 0, 0, 0, 1, 0.5, 0.5);
      assert Along(g.shape, [0, 0, 0], 1, 0.5, 0.5) == [(40, 0.5)];
      Dot1(40, 0.5, flux);
      assert flux[40] == 40.0;
    }
    assert FaceToCell(g, flux)[0][2] == 42.5 by {
      Along3D(n0, n1, n2, 0, 0, 0, 2, 0.5, 0.5);
      assert Along(g.shape, [0, 0, 0], 2, 0.5, 0.5) == [(85, 0.5)];
      Dot1(85, 0.5, flux);
      assert flux[85] == 85.0;
    }
  }

  lemma FaceToCellFar3D(g: Grid, flux: seq<real>)
    requires g.shape == [3, 4, 5] && g.voxelSize == [0.5, 0.25, 2.0]
    requires flux == Arange(133)
    ensures g.Valid() && NumCells(g.shape) == 60 && NumFaces(g.shape) == 133
    ensures FaceToCell(g, flux)[59] == [19.5, 42.0, 66.0]
  {
    var n0, n1, n2 := g.shape[0], g.shape[1], g.shape[2];
    assert g.shape == [n0, n1, n2];
    Prod3(n0, n1, n2);
    Offsets3D(n0, n1, n2);
    CellAt3D(n0, n1, n2, 2, 3, 4);
    FaceToCellRowAt(g, flux, 59, [2, 3, 4]);
    assert FaceToCell(g, flux)[59][0] == 19.5 by {
      Along3D(n0, n1, n2, 2, 3, 4, 0, 0.5, 0.5);
      assert Along(g.shape, [2, 3, 4], 0, 0.5, 0.5) == [(39, 0.5)];
      Dot1(39, 0.5, flux);
      assert flux[39] == 39.0;
    }
    assert FaceToCell(g, flux)[59][1] == 42.0 by {
      Along3D(n0, n1, n2, 2, 3, 4, 1, 0.5, 0.5);
      assert Along(g.shape, [2, 3, 4], 1, 0.5, 0.5) == [(84, 0.5)];
      Dot1(84, 0.5, flux);
      assert flux[84] == 84.0;
    }
    assert FaceToCell(g, flux)[59][2] == 66.0 by {
      Along3D(n0, n1, n2, 2, 3, 4, 2, 0.5, 0.5);
      assert Along(g.shape, [2, 3, 4], 2, 0.5, 0.5) == [(132, 0.5)];
      Dot1(132, 0.5, flux);
      assert flux[132] == 132.0;
    }
  }

  lemma FaceToCellInterior3D(g: Grid, flux: seq<real>)
    requires g.shape == [3, 4, 5] && g.voxelSize == [0.5, 0.25, 2.0]
    requires flux == Arange(133)
    ensures g.Valid() && NumCells(g.shape) == 60 && NumFaces(g.shape) == 133
    ensures FaceToCell(g, flux)[16] == [10.5, 51.5, 95.0]
  {
    var n0, n1, n2 := g.shape[0], g.shape[1], g.shape[2];
    assert g.shape == [n0, n1, n2];
    Prod3(n0, n1, n2);
    Offsets3D(n0, n1, n2);
    CellAt3D(n0, n1, n2, 1, 1, 1);
    FaceToCellRowAt(g, flux, 16, [1, 1, 1]);
    assert FaceToCell(g, flux)[16][0] == 10.5 by {
      Along3D(n0, n1, n2, 1, 1, 1, 0, 0.5, 0.5);
      assert Along(g.shape, [1, 1, 1], 0, 0.5, 0.5) == [(10, 0.5), (11, 0.5)];
      Dot2(10, 0.5, 11, 0.5, flux);
      assert flux[10] == 10.0 && flux[11] == 11.0;
    }
    assert FaceToCell(g, flux)[16][1] == 51.5 by {
      Along3D(n0, n1, n2, 1, 1, 1, 1, 0.5, 0.5);
      assert Along(g.shape, [1, 1, 1], 1, 0.5, 0.5) == [(50, 0.5), (53, 0.5)];
      Dot2(50, 0.5, 53, 0.5, flux);
      assert flux[50] == 50.0 && flux[53] == 53.0;
    }
    assert FaceToCell(g, flux)[16][2] == 95.0 by {
      Along3D(n0, n1, n2, 1, 1, 1, 2, 0.5, 0.5);
      assert Along(g.shape, [1, 1, 1], 2, 0.5, 0.5) == [(89, 0.5), (101, 0.5)];
      Dot2(89, 0.5, 101, 0.5, flux);
      assert flux[89] == 89.0 && flux[101] == 101.0;
    }
  }

}
