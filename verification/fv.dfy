/** Finite-volume operators on a structured voxel grid: divergence, mass,
    tangential and full face reconstruction, and face-to-cell reconstruction.

    Each operator is assembled row by row as a list of (column, weight)
    triplets (module Sparse); next to each one stands an entry-wise reference
    definition read off the face/cell incidence of the grid, and a lemma
    proves that the assembled rows and the reference agree.
 */
module FiniteVolume {
  import opened Grids
  import opened Sparse
  import opened Results

  // ---------------------------------------------------------------------------
  // Grid

  datatype Grid = Grid(shape: seq<int>, voxelSize: seq<real>)
  {
    /** A grid of dimension 2 or 3 with positive extents and spacings. */
    predicate Valid()
    {
      && |shape| == |voxelSize|
      && 2 <= |shape| <= 3
      && Positive(shape)
      && forall k :: 0 <= k < |voxelSize| ==> voxelSize[k] > 0.0
    }

    function Dim(): int
    {
      |shape|
    }
  }

  datatype FvError = InvalidGrid | UnsupportedMode

  /** Grid construction: malformed shape or spacing is refused. */
  function MakeGrid(shape: seq<int>, voxelSize: seq<real>): (r: Result<Grid, FvError>)
    ensures r.Ok? <==> Grid(shape, voxelSize).Valid()
    ensures r.Ok? ==> r.value.shape == shape && r.value.voxelSize == voxelSize
    ensures r.Err? ==> r.error == InvalidGrid
  {
    var g := Grid(shape, voxelSize);
    if g.Valid() then Ok(g) else Err(InvalidGrid)
  }

  /** Volume of one cell: the product of all spacings. */
  function CellVolume(g: Grid): real
  {
    ProdReal(g.voxelSize)
  }

  /** Area of a face normal to axis d: the product of the other spacings. */
  function Area(g: Grid, d: nat): real
    requires d < |g.voxelSize|
  {
    ProdReal(g.voxelSize[..d]) * ProdReal(g.voxelSize[d + 1..])
  }

  lemma ProdRealPositive(s: seq<real>)
    requires forall k :: 0 <= k < |s| ==> s[k] > 0.0
    ensures ProdReal(s) > 0.0
  {
    if |s| > 0 {
      ProdRealPositive(s[1..]);
    }
  }

  lemma AreaPositive(g: Grid, d: nat)
    requires g.Valid() && d < g.Dim()
    ensures Area(g, d) > 0.0
  {
    var p, q := ProdReal(g.voxelSize[..d]), ProdReal(g.voxelSize[d + 1..]);
    ProdRealPositive(g.voxelSize[..d]);
    ProdRealPositive(g.voxelSize[d + 1..]);
    assert p * q > 0.0;
  }

  /** Face areas and cell volume of a 2-D grid. */
  lemma Measures2D(g: Grid)
    requires |g.voxelSize| == 2
    ensures Area(g, 0) == g.voxelSize[1] && Area(g, 1) == g.voxelSize[0]
    ensures CellVolume(g) == g.voxelSize[0] * g.voxelSize[1]
  {
    var h := g.voxelSize;
    assert h == [h[0], h[1]];
    assert h[..0] == [] && h[1..] == [h[1]] && h[..1] == [h[0]] && h[2..] == [];
    ProdReal2(h[0], h[1]);
    assert ProdReal([h[1]]) == h[1] by { assert [h[1]][1..] == []; }
    assert ProdReal([h[0]]) == h[0] by { assert [h[0]][1..] == []; }
  }

  /** Face areas and cell volume of a 3-D grid. */
  lemma Measures3D(g: Grid)
    requires |g.voxelSize| == 3
    ensures Area(g, 0) == g.voxelSize[1] * g.voxelSize[2]
    ensures Area(g, 1) == g.voxelSize[0] * g.voxelSize[2]
    ensures Area(g, 2) == g.voxelSize[0] * g.voxelSize[1]
    ensures CellVolume(g) == g.voxelSize[0] * g.voxelSize[1] * g.voxelSize[2]
  {
    var h := g.voxelSize;
    assert h == [h[0], h[1], h[2]];
    assert h[..0] == [] && h[1..] == [h[1], h[2]];
    assert h[..1] == [h[0]] && h[2..] == [h[2]];
    assert h[..2] == [h[0], h[1]] && h[3..] == [];
    ProdReal3(h[0], h[1], h[2]);
    ProdReal2(h[1], h[2]);
    ProdReal2(h[0], h[1]);
    assert ProdReal([h[2]]) == h[2] by { assert [h[2]][1..] == []; }
    assert ProdReal([h[0]]) == h[0] by { assert [h[0]][1..] == []; }
  }

  /** Face area times the spacing along the face normal is the cell volume. */
  lemma AreaTimesSpacing(g: Grid, d: nat)
    requires g.Valid() && d < g.Dim()
    ensures Area(g, d) * g.voxelSize[d] == CellVolume(g)
  {
    if g.Dim() == 2 {
      Measures2D(g);
    } else {
      Measures3D(g);
      Commute3(g.voxelSize[0], g.voxelSize[1], g.voxelSize[2]);
    }
  }

  lemma Commute3(a: real, b: real, c: real)
    ensures b * c * a == a * b * c && a * c * b == a * b * c
  {
  }

  // ---------------------------------------------------------------------------
  // The faces of one cell along one axis

  /** A face touches a cell when the cell is its lower or its upper cell. */
  predicate Touches(f: Face, x: seq<int>)
    requires f.axis < |f.pos|
  {
    Lower(f) == x || Upper(f) == x
  }

  /** The faces of cell x normal to axis e, as a sparse row: the face below x
      (x is its upper cell) with weight wBelow, then the face above x (x is
      its lower cell) with weight wAbove; a face is left out when x lies on
      the domain boundary on that side. */
  function Along(shape: seq<int>, x: seq<int>, e: nat, wBelow: real, wAbove: real): (row: Row)
    requires Positive(shape) && InBounds(shape, x) && e < |shape|
    ensures InRange(row, NumFaces(shape))
    ensures |row| == (if x[e] > 0 then 1 else 0) + (if x[e] < shape[e] - 1 then 1 else 0)
  {
    var below := Face(e, x[e := x[e] - 1]);
    var above := Face(e, x);
    (if x[e] > 0 then (FaceIdInGroup(shape, below); [(FaceId(shape, below) as nat, wBelow)]) else [])
    + (if x[e] < shape[e] - 1 then (FaceIdInGroup(shape, above); [(FaceId(shape, above) as nat, wAbove)]) else [])
  }

  lemma UpperIsCell(f: Face, x: seq<int>)
    requires f.axis < |f.pos| == |x|
    ensures Upper(f) == x <==> f == Face(f.axis, x[f.axis := x[f.axis] - 1])
  {
    if Upper(f) == x {
      assert f.pos == x[f.axis := x[f.axis] - 1] by {
        forall k | 0 <= k < |x|
          ensures f.pos[k] == x[f.axis := x[f.axis] - 1][k]
        {
          assert Upper(f)[k] == x[k];
        }
      }
    }
  }

  /** Entry j of the row Along(x, e, ...) is wBelow when face j is the axis-e
      face below x, wAbove when it is the axis-e face above x, and 0 otherwise. */
  lemma AlongEntry(shape: seq<int>, x: seq<int>, e: nat, wBelow: real, wAbove: real, j: nat)
    requires Positive(shape) && InBounds(shape, x) && e < |shape|
    requires 0 <= j < NumFaces(shape)
    ensures ValidFace(shape, FaceAt(shape, j))
    ensures Entry(Along(shape, x, e, wBelow, wAbove), j) ==
              (var f := FaceAt(shape, j);
               if f.axis == e && Upper(f) == x then wBelow
               else if f.axis == e && Lower(f) == x then wAbove
               else 0.0)
  {
    var f := FaceAt(shape, j);
    FaceIdFaceAt(shape, j);
    var below := Face(e, x[e := x[e] - 1]);
    var above := Face(e, x);
    var pb: Row := if x[e] > 0 then (FaceIdInGroup(shape, below); [(FaceId(shape, below) as nat, wBelow)]) else [];
    var pa: Row := if x[e] < shape[e] - 1 then (FaceIdInGroup(shape, above); [(FaceId(shape, above) as nat, wAbove)]) else [];
    assert Along(shape, x, e, wBelow, wAbove) == pb + pa;
    EntryAppend(pb, pa, j);
    // The part below x.
    if f.axis == e {
      UpperIsCell(f, x);
    }
    if x[e] > 0 {
      EntrySingle(FaceId(shape, below) as nat, wBelow, j);
      FaceIdInjective(shape, below, f);
      assert Entry(pb, j) == if f.axis == e && Upper(f) == x then wBelow else 0.0;
    } else {
      assert Entry(pb, j) == if f.axis == e && Upper(f) == x then wBelow else 0.0;
    }
    // The part above x.
    if x[e] < shape[e] - 1 {
      EntrySingle(FaceId(shape, above) as nat, wAbove, j);
      FaceIdInjective(shape, above, f);
      assert Entry(pa, j) == if f.axis == e && Lower(f) == x then wAbove else 0.0;
    } else {
      assert Entry(pa, j) == if f.axis == e && Lower(f) == x then wAbove else 0.0;
    }
    // A face never has the same lower and upper cell.
    if f.axis == e && Upper(f) == x {
      assert Upper(f)[e] != Lower(f)[e];
    }
  }

  /** Weight w on every axis-e face touching cell x: the dense reference for a
      symmetric Along row. */
  function TouchWeight(shape: seq<int>, x: seq<int>, e: nat, w: real, j: nat): real
  {
    if Positive(shape) && j < NumFaces(shape) && |x| == |shape| then
      var f := FaceAt(shape, j);
      FaceIdFaceAt(shape, j);
      if f.axis == e && Touches(f, x) then w else 0.0
    else 0.0
  }

  lemma AlongSymmetricEntry(shape: seq<int>, x: seq<int>, e: nat, w: real, j: nat)
    requires Positive(shape) && InBounds(shape, x) && e < |shape|
    requires 0 <= j < NumFaces(shape)
    ensures Entry(Along(shape, x, e, w, w), j) == TouchWeight(shape, x, e, w, j)
  {
    AlongEntry(shape, x, e, w, w, j);
  }

  // ---------------------------------------------------------------------------
  // Divergence

  /** Reference: column f holds +A_d at the lower cell of face f and -A_d at
      its upper cell, where d is the face's axis; all else is zero. */
  function DivEntry(g: Grid, c: nat, f: nat): real
    requires g.Valid() && 0 <= c < NumCells(g.shape) && 0 <= f < NumFaces(g.shape)
  {
    var face := FaceAt(g.shape, f);
    var x := Unflatten(g.shape, c);
    FaceIdFaceAt(g.shape, f);
    if Lower(face) == x then Area(g, face.axis)
    else if Upper(face) == x then -Area(g, face.axis)
    else 0.0
  }

  /** Faces of cell x along axes d, d+1, ..., with the divergence signs. */
  function DivRowFrom(g: Grid, x: seq<int>, d: nat): (row: Row)
    requires g.Valid() && InBounds(g.shape, x) && d <= g.Dim()
    ensures InRange(row, NumFaces(g.shape))
    decreases g.Dim() - d
  {
    if d == g.Dim() then []
    else
      var a := Along(g.shape, x, d, -Area(g, d), Area(g, d));
      var b := DivRowFrom(g, x, d + 1);
      InRangeAppend(a, b, NumFaces(g.shape));
      a + b
  }

  /** Row c of the divergence matrix. */
  function DivRow(g: Grid, c: nat): (row: Row)
    requires g.Valid() && 0 <= c < NumCells(g.shape)
    ensures InRange(row, NumFaces(g.shape))
  {
    FlattenUnflatten(g.shape, c);
    DivRowFrom(g, Unflatten(g.shape, c), 0)
  }

  /** The (num_cells x num_faces) divergence matrix. */
  function Divergence(g: Grid): (m: Matrix)
    requires g.Valid()
    ensures m.WellFormed()
    ensures m.numRows == NumCells(g.shape) && m.numCols == NumFaces(g.shape)
  {
    ProdPositive(g.shape);
    var n := NumCells(g.shape);
    Matrix(n, NumFaces(g.shape), seq(n, c requires 0 <= c < n => DivRow(g, c)))
  }

  lemma {:induction false} DivRowFromEntry(g: Grid, x: seq<int>, d: nat, j: nat)
    requires g.Valid() && InBounds(g.shape, x) && d <= g.Dim()
    requires 0 <= j < NumFaces(g.shape)
    ensures ValidFace(g.shape, FaceAt(g.shape, j))
    ensures Entry(DivRowFrom(g, x, d), j) ==
              (var f := FaceAt(g.shape, j);
               if f.axis < d then 0.0
               else if Lower(f) == x then Area(g, f.axis)
               else if Upper(f) == x then -Area(g, f.axis)
               else 0.0)
    decreases g.Dim() - d
  {
    var f := FaceAt(g.shape, j);
    FaceIdFaceAt(g.shape, j);
    if d < g.Dim() {
      var a := Along(g.shape, x, d, -Area(g, d), Area(g, d));
      var b := DivRowFrom(g, x, d + 1);
      assert DivRowFrom(g, x, d) == a + b;
      EntryAppend(a, b, j);
      AlongEntry(g.shape, x, d, -Area(g, d), Area(g, d), j);
      DivRowFromEntry(g, x, d + 1, j);
      if f.axis == d {
        assert Entry(b, j) == 0.0;
        if Upper(f) == x {
          assert Upper(f)[f.axis] != Lower(f)[f.axis];
        }
      } else if f.axis < d {
        assert Entry(a, j) == 0.0 && Entry(b, j) == 0.0;
      } else {
        assert Entry(a, j) == 0.0;
        assert Entry(DivRowFrom(g, x, d), j) == Entry(b, j);
      }
    }
  }

  /** The assembled divergence rows agree with the column-wise reference
      DivEntry at every entry. */
  lemma DivergenceEntries(g: Grid, c: nat, f: nat)
    requires g.Valid() && 0 <= c < NumCells(g.shape) && 0 <= f < NumFaces(g.shape)
    ensures Divergence(g).At(c, f) == DivEntry(g, c, f)
  {
    FlattenUnflatten(g.shape, c);
    DivRowFromEntry(g, Unflatten(g.shape, c), 0, f);
  }

  /** Each face column has +A_d at its lower cell, -A_d at its upper cell and
      zero in every other row: the discrete divergence sign convention. */
  lemma DivergenceColumn(g: Grid, face: Face, c: nat)
    requires g.Valid() && ValidFace(g.shape, face) && 0 <= c < NumCells(g.shape)
    ensures 0 <= FaceId(g.shape, face) < NumFaces(g.shape)
    ensures InBounds(g.shape, Lower(face)) && InBounds(g.shape, Upper(face))
    ensures c == Flatten(g.shape, Lower(face)) ==> Divergence(g).At(c, FaceId(g.shape, face)) == Area(g, face.axis)
    ensures c == Flatten(g.shape, Upper(face)) ==> Divergence(g).At(c, FaceId(g.shape, face)) == -Area(g, face.axis)
    ensures c != Flatten(g.shape, Lower(face)) && c != Flatten(g.shape, Upper(face)) ==>
              Divergence(g).At(c, FaceId(g.shape, face)) == 0.0
  {
    var id := FaceId(g.shape, face);
    FaceAtFaceId(g.shape, face);
    DivergenceEntries(g, c, id);
    FlattenUnflatten(g.shape, c);
    UnflattenFlatten(g.shape, Lower(face));
    UnflattenFlatten(g.shape, Upper(face));
    assert Upper(face)[face.axis] != Lower(face)[face.axis];
  }

  /** Applying the divergence to a flux gives, in every cell, the dense
      reference sum over all faces of DivEntry times the flux. */
  lemma DivergenceApply(g: Grid, flux: seq<real>, c: nat)
    requires g.Valid() && |flux| == NumFaces(g.shape) && 0 <= c < NumCells(g.shape)
    ensures Divergence(g).Apply(flux)[c] ==
              WeightedSum((j: nat) => if j < NumFaces(g.shape) then DivEntry(g, c, j) else 0.0, flux, |flux|)
  {
    var w := (j: nat) => if j < NumFaces(g.shape) then DivEntry(g, c, j) else 0.0;
    forall j | 0 <= j < |flux|
      ensures Entry(DivRow(g, c), j) == w(j)
    {
      DivergenceEntries(g, c, j);
    }
    DotMatchesWeights(DivRow(g, c), w, flux);
  }

  // Row structure ---------------------------------------------------------------

  /** Number of faces of cell x along axes d, d+1, ...: one for each side on
      which the cell has a neighbour. */
  function NeighbourCount(shape: seq<int>, x: seq<int>, d: nat): nat
    requires |x| == |shape| && d <= |shape|
    decreases |shape| - d
  {
    if d == |shape| then 0
    else (if x[d] > 0 then 1 else 0) + (if x[d] < shape[d] - 1 then 1 else 0) + NeighbourCount(shape, x, d + 1)
  }

  lemma {:induction false} DivRowFromLength(g: Grid, x: seq<int>, d: nat)
    requires g.Valid() && InBounds(g.shape, x) && d <= g.Dim()
    ensures |DivRowFrom(g, x, d)| == NeighbourCount(g.shape, x, d)
    decreases g.Dim() - d
  {
    if d < g.Dim() {
      DivRowFromLength(g, x, d + 1);
    }
  }

  /** Columns of Along(x, e) lie in group e and increase. */
  lemma AlongColumns(shape: seq<int>, x: seq<int>, e: nat, wBelow: real, wAbove: real)
    requires Positive(shape) && InBounds(shape, x) && e < |shape|
    ensures StrictlyIncreasing(Columns(Along(shape, x, e, wBelow, wAbove)))
    ensures forall i :: 0 <= i < |Along(shape, x, e, wBelow, wAbove)| ==>
              Offset(shape, e) <= Along(shape, x, e, wBelow, wAbove)[i].0 < Offset(shape, e + 1)
  {
    var below := Face(e, x[e := x[e] - 1]);
    var above := Face(e, x);
    if x[e] > 0 {
      FaceIdInGroup(shape, below);
    }
    if x[e] < shape[e] - 1 {
      FaceIdInGroup(shape, above);
    }
    if x[e] > 0 && x[e] < shape[e] - 1 {
      var fs := FaceShape(shape, e);
      FlattenStep(fs, below.pos, e);
      assert below.pos[e := below.pos[e] + 1] == x;
      ProdPositive(fs[..e]) by {
        assert forall k :: 0 <= k < e ==> fs[..e][k] == shape[k];
      }
    }
  }

  lemma {:induction false} DivRowFromColumns(g: Grid, x: seq<int>, d: nat)
    requires g.Valid() && InBounds(g.shape, x) && d <= g.Dim()
    ensures StrictlyIncreasing(Columns(DivRowFrom(g, x, d)))
    ensures forall i :: 0 <= i < |DivRowFrom(g, x, d)| ==> Offset(g.shape, d) <= DivRowFrom(g, x, d)[i].0
    decreases g.Dim() - d
  {
    if d < g.Dim() {
      var a := Along(g.shape, x, d, -Area(g, d), Area(g, d));
      var b := DivRowFrom(g, x, d + 1);
      AlongColumns(g.shape, x, d, -Area(g, d), Area(g, d));
      DivRowFromColumns(g, x, d + 1);
      assert DivRowFrom(g, x, d) == a + b;
      OffsetMono(g.shape, d, d + 1);
      IncreasingAppend(a, b);
      var r := a + b;
      forall i | 0 <= i < |r|
        ensures Offset(g.shape, d) <= r[i].0
      {
        if i >= |a| {
          assert r[i] == b[i - |a|];
        }
      }
    }
  }

  /** Every divergence row lists its faces in increasing column order, and
      every stored weight is nonzero; so its nonzero columns are exactly the
      stored ones and there are NeighbourCount of them. */
  lemma DivRowStructure(g: Grid, c: nat)
    requires g.Valid() && 0 <= c < NumCells(g.shape)
    ensures StrictlyIncreasing(Columns(DivRow(g, c)))
    ensures NonzeroWeights(DivRow(g, c))
    ensures |DivRow(g, c)| == NeighbourCount(g.shape, Unflatten(g.shape, c), 0)
    ensures forall j :: 0 <= j < NumFaces(g.shape) ==>
              (Divergence(g).At(c, j) != 0.0 <==> j in Columns(DivRow(g, c)))
  {
    FlattenUnflatten(g.shape, c);
    var x := Unflatten(g.shape, c);
    DivRowFromColumns(g, x, 0);
    DivRowFromLength(g, x, 0);
    forall j | 0 <= j < NumFaces(g.shape)
      ensures Divergence(g).At(c, j) != 0.0 <==> j in Columns(DivRow(g, c))
    {
      NonzeroWeightsDivRow(g, x, 0);
      NonzeroIffStored(DivRow(g, c), j);
    }
    NonzeroWeightsDivRow(g, x, 0);
  }

  lemma {:induction false} NonzeroWeightsDivRow(g: Grid, x: seq<int>, d: nat)
    requires g.Valid() && InBounds(g.shape, x) && d <= g.Dim()
    ensures NonzeroWeights(DivRowFrom(g, x, d))
    decreases g.Dim() - d
  {
    if d < g.Dim() {
      AreaPositive(g, d);
      NonzeroWeightsDivRow(g, x, d + 1);
      var a: Row := Along(g.shape, x, d, -Area(g, d), Area(g, d));
      var b: Row := DivRowFrom(g, x, d + 1);
      forall i | 0 <= i < |a + b|
        ensures (a + b)[i].1 != 0.0
      {
        if i >= |a| {
          assert (a + b)[i] == b[i - |a|];
        }
      }
    }
  }

  predicate AllZero(x: seq<int>)
  {
    forall k :: 0 <= k < |x| ==> x[k] == 0
  }

  lemma {:induction false} CornerCount(shape: seq<int>, x: seq<int>, d: nat)
    requires |x| == |shape| && d <= |shape| && AllZero(x)
    requires forall k :: 0 <= k < |shape| ==> shape[k] >= 2
    ensures NeighbourCount(shape, x, d) == |shape| - d
    decreases |shape| - d
  {
    if d < |shape| {
      CornerCount(shape, x, d + 1);
    }
  }

  lemma {:induction false} InteriorCount(shape: seq<int>, x: seq<int>, d: nat)
    requires |x| == |shape| && d <= |shape|
    requires forall k :: 0 <= k < |shape| ==> 0 < x[k] < shape[k] - 1
    ensures NeighbourCount(shape, x, d) == 2 * (|shape| - d)
    decreases |shape| - d
  {
    if d < |shape| {
      InteriorCount(shape, x, d + 1);
    }
  }

  /** The corner cell 0 of a grid with at least two cells per axis has exactly
      one face per axis; a cell with neighbours on every side has 2 * dim. */
  lemma DivRowCounts(g: Grid, c: nat)
    requires g.Valid() && 0 <= c < NumCells(g.shape)
    ensures (forall k :: 0 <= k < g.Dim() ==> g.shape[k] >= 2) && c == 0 ==> |DivRow(g, c)| == g.Dim()
    ensures (forall k :: 0 <= k < g.Dim() ==> 0 < Unflatten(g.shape, c)[k] < g.shape[k] - 1) ==>
              |DivRow(g, c)| == 2 * g.Dim()
  {
    DivRowStructure(g, c);
    var x := Unflatten(g.shape, c);
    if c == 0 {
      ZeroUnflattens(g.shape);
      if forall k :: 0 <= k < g.Dim() ==> g.shape[k] >= 2 {
        CornerCount(g.shape, x, 0);
      }
    }
    if forall k :: 0 <= k < g.Dim() ==> 0 < x[k] < g.shape[k] - 1 {
      InteriorCount(g.shape, x, 0);
    }
  }

  lemma {:induction false} ZeroUnflattens(shape: seq<int>)
    requires Positive(shape)
    ensures AllZero(Unflatten(shape, 0))
  {
    if |shape| > 0 {
      ZeroUnflattens(shape[1..]);
    }
  }

  // ---------------------------------------------------------------------------
  // Mass

  datatype MassMode = Cells | Faces

  /** Mass matrix: cell mode is the num_cells diagonal of cell volumes; face
      mode, lumped, is the num_faces diagonal with the same full cell volume on
      every face whatever its orientation.  Face mode without lumping is not
      supported. */
  function Mass(g: Grid, mode: MassMode, lumping: bool): (r: Result<Matrix, FvError>)
    requires g.Valid()
    ensures r.Err? <==> mode == Faces && !lumping
    ensures r.Err? ==> r.error == UnsupportedMode
    ensures r.Ok? ==> r.value.WellFormed()
    ensures r.Ok? ==> r.value.numRows == r.value.numCols ==
                        (if mode == Cells then NumCells(g.shape) else NumFaces(g.shape))
    ensures r.Ok? ==> r.value.Diagonal()
    ensures r.Ok? ==> forall i :: 0 <= i < r.value.numRows ==> r.value.At(i, i) == CellVolume(g)
  {
    if mode == Faces && !lumping then Err(UnsupportedMode)
    else
      ProdPositive(g.shape);
      OffsetMono(g.shape, 0, g.Dim());
      var n := if mode == Cells then NumCells(g.shape) else NumFaces(g.shape);
      var m := Matrix(n, n, seq(n, i requires 0 <= i < n => DiagRow(i, CellVolume(g))));
      DiagonalRows(n, CellVolume(g));
      Ok(m)
  }

  /** Row i of a diagonal matrix with value v. */
  function DiagRow(i: nat, v: real): Row
  {
    [(i, v)]
  }

  lemma DiagonalRows(n: nat, v: real)
    ensures forall i: nat, j: nat :: i < n ==> Entry(DiagRow(i, v), j) == if j == i then v else 0.0
  {
    forall i: nat, j: nat | i < n
      ensures Entry(DiagRow(i, v), j) == if j == i then v else 0.0
    {
      EntrySingle(i, v, j);
    }
  }

  // ---------------------------------------------------------------------------
  // Tangential face reconstruction

  /** The k-th axis other than d, in increasing order: exactly k of the
      axes other than d lie below it. */
  function TangentialAxis(d: nat, k: nat): (e: nat)
    ensures e != d
    ensures k == (if e < d then e else e - 1)
  {
    if k < d then k else k + 1
  }

  /** The position of axis e among the axes other than d. */
  function TangentialIndex(d: nat, e: nat): (k: nat)
    requires e != d
    ensures TangentialAxis(d, k) == e
  {
    if e < d then e else e - 1
  }

  /** Row f of tangential matrix k: weight 1/4 on every face of the k-th
      tangential axis that bounds the lower or the upper cell of f, with no
      renormalisation when some of them do not exist. */
  function TangentialRow(g: Grid, f: nat, k: nat): (row: Row)
    requires g.Valid() && 0 <= f < NumFaces(g.shape) && k < g.Dim() - 1
    ensures InRange(row, NumFaces(g.shape))
  {
    var face := FaceAt(g.shape, f);
    FaceIdFaceAt(g.shape, f);
    var e := TangentialAxis(face.axis, k);
    var a := Along(g.shape, Lower(face), e, 0.25, 0.25);
    var b := Along(g.shape, Upper(face), e, 0.25, 0.25);
    InRangeAppend(a, b, NumFaces(g.shape));
    a + b
  }

  /** Reference: 1/4 where face j is normal to the k-th tangential axis of
      face f and touches one of f's two cells, 0 elsewhere. */
  function TangentialEntry(g: Grid, f: nat, k: nat, j: nat): real
    requires g.Valid() && 0 <= f < NumFaces(g.shape)
  {
    var face := FaceAt(g.shape, f);
    FaceIdFaceAt(g.shape, f);
    var e := TangentialAxis(face.axis, k);
    if j < NumFaces(g.shape) then
      var other := FaceAt(g.shape, j);
      FaceIdFaceAt(g.shape, j);
      if other.axis == e && (Touches(other, Lower(face)) || Touches(other, Upper(face))) then 0.25 else 0.0
    else 0.0
  }

  /** The list of dim - 1 tangential matrices, each num_faces x num_faces. */
  function Tangential(g: Grid): (ms: seq<Matrix>)
    requires g.Valid()
    ensures |ms| == g.Dim() - 1
    ensures forall k :: 0 <= k < |ms| ==> ms[k].WellFormed()
    ensures forall k :: 0 <= k < |ms| ==> ms[k].numRows == ms[k].numCols == NumFaces(g.shape)
  {
    var n := NumFaces(g.shape);
    seq(g.Dim() - 1, k requires 0 <= k < g.Dim() - 1 =>
      Matrix(n, n, seq(n, f requires 0 <= f < n => TangentialRow(g, f, k))))
  }

  /** No face touches both cells of a face of another axis. */
  lemma NotTouchingBoth(face: Face, other: Face)
    requires face.axis < |face.pos| && other.axis < |other.pos| == |face.pos|
    requires face.axis != other.axis
    ensures !(Touches(other, Lower(face)) && Touches(other, Upper(face)))
  {
  }

  /** The assembled tangential rows agree with the reference at every entry. */
  lemma TangentialEntries(g: Grid, f: nat, k: nat, j: nat)
    requires g.Valid() && 0 <= f < NumFaces(g.shape) && k < g.Dim() - 1
    requires 0 <= j < NumFaces(g.shape)
    ensures Tangential(g)[k].At(f, j) == TangentialEntry(g, f, k, j)
  {
    assert Tangential(g)[k].At(f, j) == Entry(TangentialRow(g, f, k), j);
    TangentialRowEntry(g, f, k, j);
  }

  lemma TangentialRowEntry(g: Grid, f: nat, k: nat, j: nat)
    requires g.Valid() && 0 <= f < NumFaces(g.shape) && k < g.Dim() - 1
    requires 0 <= j < NumFaces(g.shape)
    ensures Entry(TangentialRow(g, f, k), j) == TangentialEntry(g, f, k, j)
  {
    var face := FaceAt(g.shape, f);
    FaceIdFaceAt(g.shape, f);
    FaceIdFaceAt(g.shape, j);
    var e := TangentialAxis(face.axis, k);
    var a := Along(g.shape, Lower(face), e, 0.25, 0.25);
    var b := Along(g.shape, Upper(face), e, 0.25, 0.25);
    assert TangentialRow(g, f, k) == a + b;
    EntryAppend(a, b, j);
    AlongEntry(g.shape, Lower(face), e, 0.25, 0.25, j);
    AlongEntry(g.shape, Upper(face), e, 0.25, 0.25, j);
    var other := FaceAt(g.shape, j);
    if other.axis == e {
      NotTouchingBoth(face, other);
    } else {
      assert Entry(a, j) == 0.0 && Entry(b, j) == 0.0;
    }
  }

  /** Every stored weight of a tangential row is exactly 1/4 (no boundary
      renormalisation), and the row has 4 terms when both cells have
      neighbours on both sides along the tangential axis, fewer otherwise. */
  lemma TangentialRowShape(g: Grid, f: nat, k: nat)
    requires g.Valid() && 0 <= f < NumFaces(g.shape) && k < g.Dim() - 1
    ensures ValidFace(g.shape, FaceAt(g.shape, f))
    ensures forall i :: 0 <= i < |TangentialRow(g, f, k)| ==> TangentialRow(g, f, k)[i].1 == 0.25
    ensures var face := FaceAt(g.shape, f);
            var e := TangentialAxis(face.axis, k);
            |TangentialRow(g, f, k)| ==
              2 * ((if face.pos[e] > 0 then 1 else 0) + (if face.pos[e] < g.shape[e] - 1 then 1 else 0))
  {
    var face := FaceAt(g.shape, f);
    FaceIdFaceAt(g.shape, f);
    var e := TangentialAxis(face.axis, k);
    assert Upper(face)[e] == face.pos[e];
    var a: Row := Along(g.shape, Lower(face), e, 0.25, 0.25);
    var b: Row := Along(g.shape, Upper(face), e, 0.25, 0.25);
    forall i | 0 <= i < |a + b|
      ensures (a + b)[i].1 == 0.25
    {
      if i >= |a| {
        assert (a + b)[i] == b[i - |a|];
      }
    }
  }

  /** Tangential reconstruction applied to a normal flux: for every face and
      every tangential axis, the dense reference sum over all faces. */
  function TangentialApply(g: Grid, flux: seq<real>): (r: seq<seq<real>>)
    requires g.Valid() && |flux| == NumFaces(g.shape)
    ensures |r| == g.Dim() - 1
    ensures forall k :: 0 <= k < |r| ==> |r[k]| == NumFaces(g.shape)
    ensures forall k: nat, f: nat :: k < |r| && f < NumFaces(g.shape) ==>
              r[k][f] == WeightedSum((j: nat) => TangentialEntry(g, f, k, j), flux, |flux|)
  {
    var ms := Tangential(g);
    TangentialMatchesReference(g, flux);
    seq(g.Dim() - 1, k requires 0 <= k < g.Dim() - 1 => ms[k].Apply(flux))
  }

  lemma TangentialMatchesReference(g: Grid, flux: seq<real>)
    requires g.Valid() && |flux| == NumFaces(g.shape)
    ensures forall k: nat, f: nat :: k < g.Dim() - 1 && f < NumFaces(g.shape) ==>
              Tangential(g)[k].Apply(flux)[f] == WeightedSum((j: nat) => TangentialEntry(g, f, k, j), flux, |flux|)
  {
    forall k: nat, f: nat | k < g.Dim() - 1 && f < NumFaces(g.shape)
      ensures Tangential(g)[k].Apply(flux)[f] == WeightedSum((j: nat) => TangentialEntry(g, f, k, j), flux, |flux|)
    {
      var row := TangentialRow(g, f, k);
      forall j | 0 <= j < |flux|
        ensures Entry(row, j) == TangentialEntry(g, f, k, j)
      {
        TangentialEntries(g, f, k, j);
      }
      DenseDotPointwise(row, (j: nat) => TangentialEntry(g, f, k, j), flux, |flux|);
    }
  }

  // ---------------------------------------------------------------------------
  // Full face reconstruction

  /** Row f, column k: the flux itself when k is the face's own normal axis,
      otherwise tangential reconstruction k applied to the flux. */
  function FullReconstruction(g: Grid, flux: seq<real>): (r: seq<seq<real>>)
    requires g.Valid() && |flux| == NumFaces(g.shape)
    ensures |r| == NumFaces(g.shape)
    ensures forall f :: 0 <= f < |r| ==> |r[f]| == g.Dim()
    ensures forall f :: 0 <= f < |r| ==> FaceAt(g.shape, f).axis < g.Dim() && r[f][FaceAt(g.shape, f).axis] == flux[f]
    ensures forall f, k :: 0 <= f < |r| && 0 <= k < g.Dim() && k != FaceAt(g.shape, f).axis ==>
              TangentialIndex(FaceAt(g.shape, f).axis, k) < g.Dim() - 1 &&
              r[f][k] == TangentialApply(g, flux)[TangentialIndex(FaceAt(g.shape, f).axis, k)][f]
  {
    var n := NumFaces(g.shape);
    var t := TangentialApply(g, flux);
    AllFacesValid(g);
    seq(n, f requires 0 <= f < n =>
      var d := FaceAt(g.shape, f).axis;
      seq(g.Dim(), k requires 0 <= k < g.Dim() => if k == d then flux[f] else t[TangentialIndex(d, k)][f]))
  }

  lemma AllFacesValid(g: Grid)
    requires g.Valid()
    ensures forall f :: 0 <= f < NumFaces(g.shape) ==> ValidFace(g.shape, FaceAt(g.shape, f))
    ensures forall f :: 0 <= f < NumFaces(g.shape) ==> FaceAt(g.shape, f).axis < g.Dim()
  {
    forall f | 0 <= f < NumFaces(g.shape)
      ensures ValidFace(g.shape, FaceAt(g.shape, f)) && FaceAt(g.shape, f).axis < g.Dim()
    {
      FaceIdFaceAt(g.shape, f);
    }
  }

  // ---------------------------------------------------------------------------
  // Face to cell

  /** Per cell and per axis d: 1/2 times the sum of the cell's axis-d faces
      (a boundary cell gets half of its single face). */
  function FaceToCell(g: Grid, flux: seq<real>): (r: seq<seq<real>>)
    requires g.Valid() && |flux| == NumFaces(g.shape)
    ensures |r| == NumCells(g.shape)
    ensures forall c :: 0 <= c < |r| ==> |r[c]| == g.Dim()
    ensures forall c: nat, d: nat :: c < |r| && d < g.Dim() ==>
              r[c][d] == WeightedSum((j: nat) => TouchWeight(g.shape, Unflatten(g.shape, c), d, 0.5, j), flux, |flux|)
  {
    var n := NumCells(g.shape);
    ProdPositive(g.shape);
    FaceToCellMatchesReference(g, flux);
    seq(n, c requires 0 <= c < n =>
      seq(g.Dim(), d requires 0 <= d < g.Dim() => FaceToCellAt(g, flux, c, d)))
  }

  /** Entry (c, d) of face_to_cell, on the sparse row of the cell's axis-d faces. */
  function FaceToCellAt(g: Grid, flux: seq<real>, c: nat, d: nat): real
    requires g.Valid() && |flux| == NumFaces(g.shape)
    requires 0 <= c < NumCells(g.shape) && d < g.Dim()
  {
    FlattenUnflatten(g.shape, c);
    Dot(Along(g.shape, Unflatten(g.shape, c), d, 0.5, 0.5), flux)
  }

  lemma FaceToCellMatchesReference(g: Grid, flux: seq<real>)
    requires g.Valid() && |flux| == NumFaces(g.shape)
    ensures forall c: nat, d: nat :: c < NumCells(g.shape) && d < g.Dim() ==>
              FaceToCellAt(g, flux, c, d) ==
              WeightedSum((j: nat) => TouchWeight(g.shape, Unflatten(g.shape, c), d, 0.5, j), flux, |flux|)
  {
    forall c: nat, d: nat | c < NumCells(g.shape) && d < g.Dim()
      ensures FaceToCellAt(g, flux, c, d) ==
              WeightedSum((j: nat) => TouchWeight(g.shape, Unflatten(g.shape, c), d, 0.5, j), flux, |flux|)
    {
      FlattenUnflatten(g.shape, c);
      var x := Unflatten(g.shape, c);
      var row := Along(g.shape, x, d, 0.5, 0.5);
      forall j | 0 <= j < |flux|
        ensures Entry(row, j) == TouchWeight(g.shape, x, d, 0.5, j)
      {
        AlongSymmetricEntry(g.shape, x, d, 0.5, j);
      }
      DotMatchesWeights(row, (j: nat) => TouchWeight(g.shape, x, d, 0.5, j), flux);
    }
  }
}
