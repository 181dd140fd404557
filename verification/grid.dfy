/** Index algebra of a structured voxel grid.

    Cells are addressed by coordinates (c_0, ..., c_{dim-1}) and flattened
    with axis 0 varying fastest.  Only interior faces exist: the faces normal
    to axis d form group d, a face being named by the coordinates of its
    lower cell, so group d has the shape of the grid with n_d replaced by
    n_d - 1.  Each group is flattened by the same rule and the groups are
    concatenated in axis order.
 */
module Grids {

  /** Product of a sequence of integers. */
  function Prod(s: seq<int>): int
  {
    if |s| == 0 then 1 else s[0] * Prod(s[1..])
  }

  /** Product of a sequence of reals. */
  function ProdReal(s: seq<real>): real
  {
    if |s| == 0 then 1.0 else s[0] * ProdReal(s[1..])
  }

  predicate Positive(s: seq<int>)
  {
    forall k :: 0 <= k < |s| ==> s[k] > 0
  }

  predicate NonNegative(s: seq<int>)
  {
    forall k :: 0 <= k < |s| ==> s[k] >= 0
  }

  /** Coordinates c lie inside a box of the given shape. */
  predicate InBounds(shape: seq<int>, c: seq<int>)
  {
    |c| == |shape| && forall k :: 0 <= k < |c| ==> 0 <= c[k] < shape[k]
  }

  /** Linear index of coordinates c, axis 0 varying fastest. */
  function Flatten(shape: seq<int>, c: seq<int>): int
    requires |c| == |shape|
  {
    if |c| == 0 then 0 else c[0] + shape[0] * Flatten(shape[1..], c[1..])
  }

  /** Coordinates of a linear index. */
  function Unflatten(shape: seq<int>, id: int): (c: seq<int>)
    requires Positive(shape)
    ensures |c| == |shape|
  {
    if |shape| == 0 then [] else [id % shape[0]] + Unflatten(shape[1..], id / shape[0])
  }

  // ---------------------------------------------------------------------------
  // Arithmetic helpers

  lemma MulLe(a: int, b: int, c: int)
    requires a >= 0 && b <= c
    ensures a * b <= a * c
  {
    assert a * c - a * b == a * (c - b);
  }

  lemma DivModSplit(a: int, n: int, b: int)
    requires n > 0 && 0 <= a < n
    ensures (a + n * b) / n == b && (a + n * b) % n == a
  {
    var x := a + n * b;
    var q, r := x / n, x % n;
    assert x == n * q + r;
    assert n * (q - b) == a - r;
    if q - b >= 1 {
      MulLe(n, 1, q - b);
    } else if q - b <= -1 {
      MulLe(n, q - b, -1);
    }
  }

  lemma DivBound(id: int, n: int, p: int)
    requires n > 0 && 0 <= id < n * p
    ensures 0 <= id / n < p
  {
    var q := id / n;
    assert id == n * q + id % n;
    if q >= p {
      MulLe(n, p, q);
    }
    if q < 0 {
      MulLe(n, q, -1);
    }
  }

  lemma ProdNonNegative(s: seq<int>)
    requires NonNegative(s)
    ensures Prod(s) >= 0
  {
    if |s| > 0 {
      ProdNonNegative(s[1..]);
      MulLe(s[0], 0, Prod(s[1..]));
    }
  }

  lemma ProdPositive(s: seq<int>)
    requires Positive(s)
    ensures Prod(s) > 0
  {
    if |s| > 0 {
      ProdPositive(s[1..]);
      MulLe(s[0], 1, Prod(s[1..]));
    }
  }

  /** A non-negative shape with a positive product has no zero extent. */
  lemma PositiveFromProd(s: seq<int>)
    requires NonNegative(s) && Prod(s) > 0
    ensures Positive(s)
  {
    if |s| > 0 {
      ProdNonNegative(s[1..]);
      PositiveFromProd(s[1..]);
    }
  }

  /** The product with entry d replaced by v is v times the other entries. */
  lemma ProdUpdate(s: seq<int>, d: nat, v: int)
    requires d < |s|
    ensures Prod(s[d := v]) == v * (Prod(s[..d]) * Prod(s[d + 1..]))
  {
    if d == 0 {
      assert s[0 := v][1..] == s[1..];
      assert s[..0] == [];
    } else {
      assert s[d := v][1..] == s[1..][d - 1 := v];
      ProdUpdate(s[1..], d - 1, v);
      assert s[1..][..d - 1] == s[..d][1..];
      assert s[1..][d..] == s[d + 1..];
    }
  }

  lemma ProdReal2(a: real, b: real)
    ensures ProdReal([a, b]) == a * b
  {
    assert [a, b][1..] == [b];
    assert ProdReal([b]) == b by {
      assert [b][1..] == [];
    }
  }

  lemma ProdReal3(a: real, b: real, c: real)
    ensures ProdReal([a, b, c]) == a * b * c
  {
    assert [a, b, c][1..] == [b, c];
    ProdReal2(b, c);
    assert a * (b * c) == a * b * c;
  }

  // ---------------------------------------------------------------------------
  // Cell flattening is a bijection onto 0 .. Prod(shape) - 1

  lemma {:induction false} FlattenBounds(shape: seq<int>, c: seq<int>)
    requires InBounds(shape, c)
    ensures 0 <= Flatten(shape, c) < Prod(shape)
  {
    if |c| > 0 {
      assert InBounds(shape[1..], c[1..]);
      FlattenBounds(shape[1..], c[1..]);
      var r, p := Flatten(shape[1..], c[1..]), Prod(shape[1..]);
      MulLe(shape[0], 0, r);
      MulLe(shape[0], r, p - 1);
    }
  }

  lemma {:induction false} UnflattenFlatten(shape: seq<int>, c: seq<int>)
    requires InBounds(shape, c)
    ensures Positive(shape)
    ensures Unflatten(shape, Flatten(shape, c)) == c
  {
    if |c| > 0 {
      assert InBounds(shape[1..], c[1..]);
      UnflattenFlatten(shape[1..], c[1..]);
      DivModSplit(c[0], shape[0], Flatten(shape[1..], c[1..]));
      assert c == [c[0]] + c[1..];
    }
  }

  lemma {:induction false} FlattenUnflatten(shape: seq<int>, id: int)
    requires Positive(shape) && 0 <= id < Prod(shape)
    ensures InBounds(shape, Unflatten(shape, id))
    ensures Flatten(shape, Unflatten(shape, id)) == id
  {
    if |shape| > 0 {
      var n := shape[0];
      assert Positive(shape[1..]);
      DivBound(id, n, Prod(shape[1..]));
      FlattenUnflatten(shape[1..], id / n);
      var c := Unflatten(shape, id);
      assert c[1..] == Unflatten(shape[1..], id / n);
      assert id == n * (id / n) + id % n;
    }
  }

  /** Flattening is injective on in-bounds coordinates. */
  lemma FlattenInjective(shape: seq<int>, a: seq<int>, b: seq<int>)
    requires InBounds(shape, a) && InBounds(shape, b)
    ensures Flatten(shape, a) == Flatten(shape, b) <==> a == b
  {
    UnflattenFlatten(shape, a);
    UnflattenFlatten(shape, b);
  }

  /** Moving one coordinate up by one moves the index up by the product of
      the extents of the faster axes (the stride). */
  lemma {:induction false} FlattenStep(shape: seq<int>, c: seq<int>, d: nat)
    requires |c| == |shape| && d < |c|
    ensures Flatten(shape, c[d := c[d] + 1]) == Flatten(shape, c) + Prod(shape[..d])
  {
    if d == 0 {
      assert c[0 := c[0] + 1][1..] == c[1..];
    } else {
      assert c[d := c[d] + 1][1..] == c[1..][d - 1 := c[d] + 1];
      FlattenStep(shape[1..], c[1..], d - 1);
      assert shape[1..][..d - 1] == shape[..d][1..];
    }
  }

  // ---------------------------------------------------------------------------
  // Faces

  /** An interior face: its normal axis and the coordinates of its lower cell. */
  datatype Face = Face(axis: nat, pos: seq<int>)

  /** The shape of face group d: the grid shape with n_d replaced by n_d - 1. */
  function FaceShape(shape: seq<int>, d: nat): seq<int>
    requires d < |shape|
  {
    shape[d := shape[d] - 1]
  }

  function FaceCount(shape: seq<int>, d: nat): int
    requires d < |shape|
  {
    Prod(FaceShape(shape, d))
  }

  /** Global id of the first face of group d. */
  function Offset(shape: seq<int>, d: nat): (r: int)
    requires d <= |shape|
    ensures Positive(shape) ==> r >= 0
  {
    if d == 0 then 0
    else
      FaceCountNonNegative(shape, d - 1);
      Offset(shape, d - 1) + FaceCount(shape, d - 1)
  }

  lemma FaceCountNonNegative(shape: seq<int>, d: nat)
    requires d < |shape|
    ensures Positive(shape) ==> FaceCount(shape, d) >= 0
  {
    if Positive(shape) {
      ProdNonNegative(FaceShape(shape, d));
    }
  }

  function NumCells(shape: seq<int>): int
  {
    Prod(shape)
  }

  function NumFaces(shape: seq<int>): int
  {
    Offset(shape, |shape|)
  }

  predicate ValidFace(shape: seq<int>, f: Face)
  {
    f.axis < |shape| && InBounds(FaceShape(shape, f.axis), f.pos)
  }

  /** Global face id: group offset plus the flattened index inside the group. */
  function FaceId(shape: seq<int>, f: Face): int
    requires ValidFace(shape, f)
  {
    Offset(shape, f.axis) + Flatten(FaceShape(shape, f.axis), f.pos)
  }

  /** The cell below a face (coordinate axis = gap). */
  function Lower(f: Face): seq<int>
  {
    f.pos
  }

  /** The cell above a face (coordinate axis = gap + 1). */
  function Upper(f: Face): seq<int>
    requires f.axis < |f.pos|
  {
    f.pos[f.axis := f.pos[f.axis] + 1]
  }

  /** The group holding global face id f, searched from group d on. */
  function AxisFrom(shape: seq<int>, f: int, d: nat): nat
    requires d < |shape|
    decreases |shape| - d
  {
    if d + 1 == |shape| || f < Offset(shape, d + 1) then d else AxisFrom(shape, f, d + 1)
  }

  /** The face with global id f. */
  function FaceAt(shape: seq<int>, f: int): Face
    requires Positive(shape) && 0 <= f < NumFaces(shape)
  {
    var a := AxisFrom(shape, f, 0);
    AxisFromBounds(shape, f, 0);
    FaceCountPositive(shape, a, f);
    Face(a, Unflatten(FaceShape(shape, a), f - Offset(shape, a)))
  }

  lemma FaceShapeNonNegative(shape: seq<int>, d: nat)
    requires Positive(shape) && d < |shape|
    ensures NonNegative(FaceShape(shape, d))
  {
  }

  lemma {:induction false} OffsetMono(shape: seq<int>, d: nat, e: nat)
    requires Positive(shape) && d <= e <= |shape|
    ensures Offset(shape, d) <= Offset(shape, e)
  {
    if d < e {
      OffsetMono(shape, d, e - 1);
      FaceShapeNonNegative(shape, e - 1);
      ProdNonNegative(FaceShape(shape, e - 1));
    }
  }

  lemma {:induction false} AxisFromBounds(shape: seq<int>, f: int, d: nat)
    requires Positive(shape) && d < |shape|
    requires Offset(shape, d) <= f < NumFaces(shape)
    ensures d <= AxisFrom(shape, f, d) < |shape|
    ensures Offset(shape, AxisFrom(shape, f, d)) <= f < Offset(shape, AxisFrom(shape, f, d) + 1)
    decreases |shape| - d
  {
    if !(d + 1 == |shape| || f < Offset(shape, d + 1)) {
      AxisFromBounds(shape, f, d + 1);
    }
  }

  lemma FaceCountPositive(shape: seq<int>, a: nat, f: int)
    requires Positive(shape) && a < |shape|
    requires Offset(shape, a) <= f < Offset(shape, a + 1)
    ensures Positive(FaceShape(shape, a))
  {
    FaceShapeNonNegative(shape, a);
    PositiveFromProd(FaceShape(shape, a));
  }

  /** Number of faces of group d: (n_d - 1) times the product of the other extents. */
  lemma FaceCountFormula(shape: seq<int>, d: nat)
    requires d < |shape|
    ensures FaceCount(shape, d) == (shape[d] - 1) * (Prod(shape[..d]) * Prod(shape[d + 1..]))
  {
    ProdUpdate(shape, d, shape[d] - 1);
  }

  /** A face id lies in the id range of its group. */
  lemma FaceIdInGroup(shape: seq<int>, f: Face)
    requires Positive(shape) && ValidFace(shape, f)
    ensures Offset(shape, f.axis) <= FaceId(shape, f) < Offset(shape, f.axis + 1)
    ensures 0 <= FaceId(shape, f) < NumFaces(shape)
  {
    FlattenBounds(FaceShape(shape, f.axis), f.pos);
    OffsetMono(shape, 0, f.axis);
    OffsetMono(shape, f.axis + 1, |shape|);
  }

  lemma {:induction false} AxisFromUnique(shape: seq<int>, f: int, d: nat, a: nat)
    requires Positive(shape) && d <= a < |shape|
    requires Offset(shape, a) <= f < Offset(shape, a + 1)
    ensures AxisFrom(shape, f, d) == a
    decreases a - d
  {
    if d < a {
      OffsetMono(shape, d + 1, a);
      AxisFromUnique(shape, f, d + 1, a);
    }
  }

  /** Decoding the id of a valid face gives the face back. */
  lemma FaceAtFaceId(shape: seq<int>, f: Face)
    requires Positive(shape) && ValidFace(shape, f)
    ensures 0 <= FaceId(shape, f) < NumFaces(shape)
    ensures FaceAt(shape, FaceId(shape, f)) == f
  {
    FaceIdInGroup(shape, f);
    AxisFromUnique(shape, FaceId(shape, f), 0, f.axis);
    UnflattenFlatten(FaceShape(shape, f.axis), f.pos);
  }

  /** Every id below NumFaces decodes to a valid face with that id. */
  lemma FaceIdFaceAt(shape: seq<int>, id: int)
    requires Positive(shape) && 0 <= id < NumFaces(shape)
    ensures ValidFace(shape, FaceAt(shape, id))
    ensures FaceId(shape, FaceAt(shape, id)) == id
  {
    var a := AxisFrom(shape, id, 0);
    AxisFromBounds(shape, id, 0);
    FaceCountPositive(shape, a, id);
    FlattenUnflatten(FaceShape(shape, a), id - Offset(shape, a));
  }

  /** Face ids are a bijection between valid faces and 0 .. NumFaces - 1. */
  lemma FaceIdInjective(shape: seq<int>, f: Face, g: Face)
    requires Positive(shape) && ValidFace(shape, f) && ValidFace(shape, g)
    ensures FaceId(shape, f) == FaceId(shape, g) <==> f == g
  {
    FaceAtFaceId(shape, f);
    FaceAtFaceId(shape, g);
  }

  /** Both cells incident to a valid face are cells of the grid. */
  lemma IncidentCellsInBounds(shape: seq<int>, f: Face)
    requires ValidFace(shape, f)
    ensures InBounds(shape, Lower(f)) && InBounds(shape, Upper(f))
  {
  }

  /** A face is valid exactly when both its cells are in the grid. */
  lemma ValidFaceIffCells(shape: seq<int>, f: Face)
    requires f.axis < |shape| && |f.pos| == |shape|
    ensures ValidFace(shape, f) <==> InBounds(shape, Lower(f)) && InBounds(shape, Upper(f))
  {
    if InBounds(shape, Lower(f)) && InBounds(shape, Upper(f)) {
      assert Upper(f)[f.axis] == f.pos[f.axis] + 1;
    }
  }
}
