# DarSIA core in Dafny

This project models the parts of DarSIA (Darcy-scale image analysis) that are
pure decision logic and exact index arithmetic. The file handling, image
processing and numerics around them are not modelled. The modelled parts are:

- **Finite-volume operators on a structured voxel grid** (`grid.dfy`,
  `sparse.dfy`, `fv.dfy`, `fvtests.dfy`):
  - the numbering of cells and of interior faces, with axis 0 running fastest
    and the face groups concatenated in axis order;
  - the divergence matrix;
  - the mass matrix;
  - the tangential and the full face reconstruction;
  - `face_to_cell`.

  Each operator is assembled as rows of (column, weight) triplets, the way a
  sparse matrix is built from triplets. An independent entry-wise reference
  stands next to each operator, read off the face/cell incidence, and a lemma
  proves the two agree. The module holding these operators is not part of this
  model: their behaviour is the one that `tests/unit/test_fv.py` fixes. Every
  concrete value those tests assert is proved, as an exact rational, in
  `fvtests.dfy`.
- **`flatten_parameters`** (`flatten.dfy`, `dicts.dfy`). A nested option
  dictionary becomes a flat dictionary whose keys join the nested keys with a
  separator. The model follows the source's generator `flatten`, its `munge`
  and its assignment loop step by step. It proves them equal to a
  left-to-right reference: each leaf path is joined by `JoinPath`, and a later
  duplicate key overwrites the earlier value.
- **Label post-processing** (`segmentation.dfy`):
  - `_reset_labels`, both as the intended renaming to 0..k-1 and as the
    in-place loop the source runs;
  - `_boundary`, which extends the border strips by constant values;
  - `_dilate_by_size` with a zero footprint, which leaves the labels unchanged.
- **`BaseCorrection.__call__`** (`correction.dfy`, `ndarray.dfy`):
  - the choice between a copy and overwriting;
  - a series handed whole to `correct_array_series`;
  - otherwise, a series corrected time slice by time slice and stacked again;
  - the metadata merge.

  The correction routines are parameters. Each call of a routine is described
  by what it returns and by what its argument holds afterwards, so that
  in-place changes made through numpy views are visible.
- **Pure logic inside `imread`** (`imread.dfy`):
  - the choice of reader from the path suffix;
  - the parser of ImageMagick's `identify -verbose` report;
  - the grouping of DICOM files into chronologically ordered time frames of
    slices sorted by position.

Python dictionaries are sequences of (key, value) pairs in insertion order.
Raised exceptions become the `Err` side of a `Result`. Floating-point values
become exact `real`s, so the tests' `allclose` comparisons become equalities.

Where the documentation and the code disagree, the model follows the code:

- `flatten_parameters` prints "Ignoring duplicate option" but then assigns
  the new value anyway (src/darsia/utils/linalg.py:354-361). The model
  overwrites.
- The explicit `suffix` keyword is not lower-cased
  (src/darsia/image/imread.py:66-76). `".JPG"` passed explicitly is refused,
  while the same suffix inferred from the path is read as an optical image.

## Model

| member | source | states |
|---|---|---|
| Grids.FlattenUnflatten | tests/unit/test_fv.py:17-21 | every cell id below the cell count decodes to in-bounds coordinates that encode back to the id (axis 0 fastest) |
| Grids.UnflattenFlatten | tests/unit/test_fv.py:17-21 | encoding in-bounds coordinates and decoding the id gives the coordinates back |
| Grids.FlattenInjective | tests/unit/test_fv.py:17-21 | two in-bounds cells share an id exactly when they are the same cell |
| Grids.FlattenBounds | tests/unit/test_fv.py:14 | the id of an in-bounds cell lies in 0 .. num_cells-1 |
| Grids.FlattenStep | tests/unit/test_fv.py:30-33 | moving one step up along axis d moves the cell id up by the product of the extents of the faster axes |
| Grids.FaceCountFormula | tests/unit/test_fv.py:14-17 | face group d holds (n_d - 1) times the product of the other extents (interior faces only) |
| Grids.FaceIdInGroup | tests/unit/test_fv.py:17-21 | the id of a face of axis d lies in its group's id range, after all groups of lower axes |
| Grids.FaceAtFaceId | tests/unit/test_fv.py:17-21 | decoding the id of a valid face gives that face back |
| Grids.FaceIdFaceAt | tests/unit/test_fv.py:17-21 | every id below num_faces decodes to a valid face with that id |
| Grids.FaceIdInjective | tests/unit/test_fv.py:17-21 | face ids are a bijection between valid faces and 0 .. num_faces-1 |
| Grids.IncidentCellsInBounds | tests/unit/test_fv.py:20-21 | both cells incident to a valid face are grid cells |
| Grids.ValidFaceIffCells | tests/unit/test_fv.py:20-21 | a face exists exactly when both its lower and its upper cell are in the grid, so only interior faces exist |
| FiniteVolume.MakeGrid | tests/unit/test_fv.py:10 | a grid is built exactly when it has 2 or 3 axes, positive extents and matching positive spacings; otherwise InvalidGrid |
| FiniteVolume.Measures2D | tests/unit/test_fv.py:18 | in 2-D the face area normal to axis 0 is h1, normal to axis 1 is h0, and the cell volume is h0*h1 |
| FiniteVolume.Measures3D | tests/unit/test_fv.py:46 | in 3-D the face areas are h1*h2, h0*h2 and h0*h1, and the cell volume is h0*h1*h2 |
| FiniteVolume.AreaTimesSpacing | tests/unit/test_fv.py:104 | a face area times the spacing along its normal is the cell volume |
| FiniteVolume.AreaPositive | tests/unit/test_fv.py:18 | the face area normal to every axis is positive on a valid grid, so no divergence weight vanishes |
| FiniteVolume.Along | tests/unit/test_fv.py:20-21 | the faces of a cell along one axis: one per side with a neighbour, at most two, all in range |
| FiniteVolume.AlongEntry | tests/unit/test_fv.py:20-21 | the per-axis row of a cell holds wBelow at the face below it, wAbove at the face above it and zero elsewhere |
| FiniteVolume.AlongSymmetricEntry | tests/unit/test_fv.py:257-263 | with equal weights, the row holds the weight at every face of that axis touching the cell and zero elsewhere |
| FiniteVolume.Divergence | tests/unit/test_fv.py:14 | the divergence matrix is well formed with num_cells rows and num_faces columns |
| FiniteVolume.DivRowFromEntry | tests/unit/test_fv.py:18-33 | the partial row over axes d and above holds +A at faces whose lower cell is the cell, -A at faces whose upper cell it is, and zero elsewhere |
| FiniteVolume.DivergenceEntries | tests/unit/test_fv.py:18-33 | every entry of the assembled divergence equals the column-wise reference DivEntry |
| FiniteVolume.DivergenceColumn | tests/unit/test_fv.py:18-33 | column f holds +A_d at the lower cell of face f, -A_d at its upper cell, and zero in every other row |
| FiniteVolume.DivergenceApply | tests/unit/test_fv.py:8-33 | applying the divergence to a flux gives, in each cell, the dense reference sum of DivEntry times flux over all faces |
| FiniteVolume.DivRowFromLength | tests/unit/test_fv.py:17-30 | a divergence row stores one triplet per side on which the cell has a neighbour |
| FiniteVolume.AlongColumns | tests/unit/test_fv.py:17-30 | the columns of a per-axis row increase and lie in that axis's face group |
| FiniteVolume.DivRowFromColumns | tests/unit/test_fv.py:17-30 | the columns of a partial divergence row strictly increase and start at the group of its first axis |
| FiniteVolume.NonzeroWeightsDivRow | tests/unit/test_fv.py:17-30 | no stored divergence weight is zero |
| FiniteVolume.DivRowStructure | tests/unit/test_fv.py:17-30 | a divergence row's nonzero columns are exactly its stored columns, in increasing order, one per neighbouring side |
| FiniteVolume.CornerCount | tests/unit/test_fv.py:17 | the corner cell has one neighbour per axis when every extent is at least 2 |
| FiniteVolume.InteriorCount | tests/unit/test_fv.py:30 | a cell with neighbours on all sides has two per axis |
| FiniteVolume.DivRowCounts | tests/unit/test_fv.py:16-33 | the corner cell's row has dim nonzeros and an interior cell's row has 2*dim |
| FiniteVolume.ZeroUnflattens | tests/unit/test_fv.py:17 | cell 0 has all coordinates zero |
| FiniteVolume.Mass | tests/unit/test_fv.py:62-119 | cell mode gives a num_cells diagonal of the cell volume; lumped face mode gives a num_faces diagonal of the same full cell volume; unlumped face mode gives UnsupportedMode |
| FiniteVolume.DiagonalRows | tests/unit/test_fv.py:70 | a diagonal row has its value on the diagonal and zero off it |
| FiniteVolume.TangentialAxis | tests/unit/test_fv.py:191-208 | the k-th tangential axis of a face is never its own normal axis, and exactly k of the other axes lie below it, so tangential matrix k belongs to the k-th axis other than the normal in increasing order |
| FiniteVolume.TangentialIndex | tests/unit/test_fv.py:171-188 | the column of a non-normal axis in the full reconstruction names the tangential matrix of that axis: TangentialAxis of the index gives the axis back |
| FiniteVolume.TangentialRow | tests/unit/test_fv.py:129-131 | a tangential row's columns are face ids |
| FiniteVolume.Tangential | tests/unit/test_fv.py:122-131 | there are dim-1 tangential matrices, each well formed and num_faces x num_faces |
| FiniteVolume.TangentialEntries | tests/unit/test_fv.py:133-138 | every entry of tangential matrix k equals the reference: 1/4 where face j is normal to the k-th tangential axis and touches a cell of face f, else 0 |
| FiniteVolume.TangentialRowEntry | tests/unit/test_fv.py:133-138 | the same, on the assembled row |
| FiniteVolume.TangentialRowShape | tests/unit/test_fv.py:133-138 | every tangential weight is 1/4 with no boundary renormalisation, and the stencil has 4 terms inside and fewer at the boundary |
| FiniteVolume.TangentialApply | tests/unit/test_fv.py:162-168 | the tangential flux at face f for axis k is the dense reference sum of the 1/4 stencil times the normal flux |
| FiniteVolume.TangentialMatchesReference | tests/unit/test_fv.py:162-168 | each tangential matrix applied to a flux equals that reference sum |
| FiniteVolume.FullReconstruction | tests/unit/test_fv.py:171-188 | row f has dim columns: the face's own flux at its normal axis, so that column gives the input flux back, and the matching tangential value at every other axis |
| FiniteVolume.AllFacesValid | tests/unit/test_fv.py:180 | every face id decodes to a valid face whose axis is below dim |
| FiniteVolume.FaceToCell | tests/unit/test_fv.py:250-263 | entry (cell, d) is 1/2 times the sum of the cell's axis-d faces, so a boundary cell gets half of its single face; cells are indexed by flat id with axis 0 fastest, where the tests index the reshaped (*grid.shape, dim) array, so cell (2, 3) of the 3 x 4 grid is id 11 |
| FiniteVolume.FaceToCellMatchesReference | tests/unit/test_fv.py:250-278 | the sparse per-cell rows of face_to_cell equal the dense 1/2 reference |
| Sparse.IncreasingAppend | tests/unit/test_fv.py:17-30 | two increasing rows, the first entirely below the second, concatenate to an increasing row |
| Sparse.EntryAppend | tests/unit/test_fv.py:11 | the compressed entries of concatenated triplet lists add up |
| Sparse.NonzeroIffStored | tests/unit/test_fv.py:17 | with distinct columns and nonzero weights, the nonzero entries are exactly the stored columns |
| Sparse.DotIsDense | tests/unit/test_fv.py:165 | the triplet row times a vector equals the compressed dense row times the vector |
| Sparse.DotMatchesWeights | tests/unit/test_fv.py:165 | a row whose entries agree with weights w multiplies like the dense sum of w times x |
| FvExamples.Offsets2D | tests/unit/test_fv.py:14-17 | on an n0 x n1 grid the axis-1 faces start at (n0-1)*n1 |
| FvExamples.Offsets3D | tests/unit/test_fv.py:42-45 | on an n0 x n1 x n2 grid the axis-1 and axis-2 faces start at (n0-1)n1n2 and that plus n0(n1-1)n2 |
| FvExamples.FaceId2D | tests/unit/test_fv.py:17-21 | the closed form of the 2-D face numbering |
| FvExamples.FaceId3D | tests/unit/test_fv.py:45-55 | the closed form of the 3-D face numbering |
| FvExamples.CellAt2D | tests/unit/test_fv.py:20 | cell x0 + n0*x1 has coordinates (x0, x1) |
| FvExamples.CellAt3D | tests/unit/test_fv.py:48 | cell x0 + n0*x1 + n0*n1*x2 has coordinates (x0, x1, x2) |
| FvExamples.FaceAt2D | tests/unit/test_fv.py:20-21 | the closed-form 2-D id decodes to its face |
| FvExamples.FaceAt3D | tests/unit/test_fv.py:48-49 | the closed-form 3-D id decodes to its face |
| FvExamples.Sizes2D | tests/unit/test_fv.py:10-17 | the 4 x 5 grid has 20 cells and 31 faces, and its axis-1 faces start at 15 |
| FvExamples.Sizes3D | tests/unit/test_fv.py:38-45 | the 3 x 4 x 5 grid has 60 cells and 133 faces, and its face groups start at 0, 40 and 85 |
| FvExamples.Mass2D | tests/unit/test_fv.py:62-104 | on the 4 x 5 grid the cell mass matrix has 20 rows and the lumped face mass matrix 31, both with the cell volume 0.125 on the diagonal; unlumped face mode is refused |
| FvExamples.Mass3D | tests/unit/test_fv.py:77-119 | on the 3 x 4 x 5 grid the cell mass matrix has 60 rows and the lumped face mass matrix 133, both with the cell volume 0.25 on the diagonal |
| FvExamples.DivergenceCorner2D | tests/unit/test_fv.py:17-18 | divergence row 0 of the 4 x 5 grid is 0.25 at face 0 and 0.5 at face 15 |
| FvExamples.DivergenceEdge2D | tests/unit/test_fv.py:20-21 | row 4 is 0.25, -0.5, 0.5 at faces 3, 15, 19 |
| FvExamples.DivergenceFarCorner2D | tests/unit/test_fv.py:23-24 | row 16 is 0.25, -0.5 at faces 12, 27 |
| FvExamples.DivergenceLastCell2D | tests/unit/test_fv.py:26-27 | row 19 is -0.25, -0.5 at faces 14, 30 |
| FvExamples.DivergenceInterior2D | tests/unit/test_fv.py:30-33 | row 6 is -0.25, 0.25, -0.5, 0.5 at faces 4, 5, 17, 21 |
| FvExamples.DivergenceCorner3D | tests/unit/test_fv.py:45-46 | divergence row 0 of the 3 x 4 x 5 grid is 0.5, 1, 0.125 at faces 0, 40, 85 |
| FvExamples.DivergenceEdge3D | tests/unit/test_fv.py:48-49 | row 11 is -0.5, -1, 0.125 at faces 7, 48, 96 |
| FvExamples.DivergenceLastCell3D | tests/unit/test_fv.py:51-52 | row 59 is -0.5, -1, -0.125 at faces 39, 84, 132 |
| FvExamples.DivergenceInterior3D | tests/unit/test_fv.py:55-59 | row 16 is -0.5, 0.5, -1, 1, -0.125, 0.125 at faces 10, 11, 50, 53, 89, 101 |
| FvExamples.TangentialFace0Of23 | tests/unit/test_fv.py:134 | on the 2 x 3 grid the boundary face 0 has 1/4 at faces 3 and 4 |
| FvExamples.TangentialFace4Of23 | tests/unit/test_fv.py:135 | boundary face 4 has 1/4 at faces 0 and 1 |
| FvExamples.TangentialFace1Of23 | tests/unit/test_fv.py:138 | interior face 1 has 1/4 at faces 3, 4, 5 and 6 |
| FvExamples.TangentialFace0Of34 | tests/unit/test_fv.py:153 | on the 3 x 4 grid face 0's stencil is faces 8 and 9 |
| FvExamples.TangentialFace7Of34 | tests/unit/test_fv.py:154 | face 7's stencil is faces 15 and 16 |
| FvExamples.TangentialFace2Of34 | tests/unit/test_fv.py:157-159 | face 2's stencil is faces 8, 9, 11 and 12 |
| FvExamples.TangentialFace15Of34 | tests/unit/test_fv.py:160 | face 15's stencil is faces 4, 5, 6 and 7 |
| FvExamples.TangentialFace1Of34 | tests/unit/test_fv.py:166-167 | face 1's stencil is faces 9 and 10 |
| FvExamples.TangentialFace4Of34 | tests/unit/test_fv.py:166-167 | face 4's stencil is faces 11, 12, 14 and 15 |
| FvExamples.TangentialFace8Of34 | tests/unit/test_fv.py:166-167 | face 8's stencil is faces 0 and 2 |
| FvExamples.TangentialFace12Of34 | tests/unit/test_fv.py:166-167 | face 12's stencil is faces 2, 3, 4 and 5 |
| FvExamples.TangentialFace16Of34 | tests/unit/test_fv.py:166-167 | face 16's stencil is faces 5 and 7 |
| FvExamples.TangentialFace0Axis0Of333 | tests/unit/test_fv.py:200-202 | on the 3 x 3 x 3 grid face 0's first tangential stencil is faces 18 and 19 |
| FvExamples.TangentialFace0Axis1Of333 | tests/unit/test_fv.py:200-202 | face 0's second tangential stencil is faces 36 and 37 |
| FvExamples.TangentialFace18Axis0Of333 | tests/unit/test_fv.py:203-205 | face 18's first stencil is faces 0 and 2 |
| FvExamples.TangentialFace18Axis1Of333 | tests/unit/test_fv.py:203-205 | face 18's second stencil is faces 36 and 39 |
| FvExamples.TangentialFace36Axis0Of333 | tests/unit/test_fv.py:206-208 | face 36's first stencil is faces 0 and 6 |
| FvExamples.TangentialFace36Axis1Of333 | tests/unit/test_fv.py:206-208 | face 36's second stencil is faces 18 and 24 |
| FvExamples.TangentialFace8Axis0Of333 | tests/unit/test_fv.py:211-214 | face 8's first stencil is faces 24, 25, 27 and 28 |
| FvExamples.TangentialFace8Axis1Of333 | tests/unit/test_fv.py:211-214 | face 8's second stencil is faces 39, 40, 48 and 49 |
| FvExamples.TangentialFace25Axis0Of333 | tests/unit/test_fv.py:215-218 | face 25's first stencil is faces 6, 7, 8 and 9 |
| FvExamples.TangentialFace25Axis1Of333 | tests/unit/test_fv.py:215-218 | face 25's second stencil is faces 37, 40, 46 and 49 |
| FvExamples.TangentialFace40Axis0Of333 | tests/unit/test_fv.py:219-222 | face 40's first stencil is faces 2, 3, 8 and 9 |
| FvExamples.TangentialFace40Axis1Of333 | tests/unit/test_fv.py:219-222 | face 40's second stencil is faces 19, 22, 25 and 28 |
| FvExamples.TangentialArange0Of34 | tests/unit/test_fv.py:166-167 | on the 3 x 4 grid with flux 0, 1, 2, ... the tangential flux at face 0 is 4.25 |
| FvExamples.TangentialArange1Of34 | tests/unit/test_fv.py:166-167 | at face 1 it is 4.75 |
| FvExamples.TangentialArange4Of34 | tests/unit/test_fv.py:166-167 | at face 4 it is 13 |
| FvExamples.TangentialArange8Of34 | tests/unit/test_fv.py:166-167 | at face 8 it is 0.5 |
| FvExamples.TangentialArange12Of34 | tests/unit/test_fv.py:166-167 | at face 12 it is 3.5 |
| FvExamples.TangentialArange16Of34 | tests/unit/test_fv.py:166-167 | at face 16 it is 3 |
| FvExamples.FullArange0Of34 | tests/unit/test_fv.py:183 | the full reconstruction at face 0 is [0, 4.25] |
| FvExamples.FullArange1Of34 | tests/unit/test_fv.py:184 | at face 1 it is [1, 4.75] |
| FvExamples.FullArange4Of34 | tests/unit/test_fv.py:185 | at face 4 it is [4, 13] |
| FvExamples.FullArange8Of34 | tests/unit/test_fv.py:186 | at face 8 it is [0.5, 8] |
| FvExamples.FullArange12Of34 | tests/unit/test_fv.py:187 | at face 12 it is [3.5, 12] |
| FvExamples.FullArange16Of34 | tests/unit/test_fv.py:188 | at face 16 it is [3, 16] |
| FvExamples.TangentialArange0Of333 | tests/unit/test_fv.py:200-202 | on the 3 x 3 x 3 grid the tangential fluxes at face 0 are (18+19)/4 and (36+37)/4 |
| FvExamples.TangentialArange18Of333 | tests/unit/test_fv.py:203-205 | at face 18 they are (0+2)/4 and (36+39)/4 |
| FvExamples.TangentialArange36Of333 | tests/unit/test_fv.py:206-208 | at face 36 they are (0+6)/4 and (18+24)/4 |
| FvExamples.TangentialArange8Of333 | tests/unit/test_fv.py:211-214 | at face 8 they are (24+25+27+28)/4 and (39+40+48+49)/4 |
| FvExamples.TangentialArange25Of333 | tests/unit/test_fv.py:215-218 | at face 25 they are (6+7+8+9)/4 and (37+40+46+49)/4 |
| FvExamples.TangentialArange40Of333 | tests/unit/test_fv.py:219-222 | at face 40 they are (2+3+8+9)/4 and (19+22+25+28)/4 |
| FvExamples.FullArange0Of333 | tests/unit/test_fv.py:234 | the full reconstruction at face 0 is [0, 9.25, 18.25] |
| FvExamples.FullArange18Of333 | tests/unit/test_fv.py:235 | at face 18 it is [0.5, 18, 18.75] |
| FvExamples.FullArange36Of333 | tests/unit/test_fv.py:236 | at face 36 it is [1.5, 10.5, 36] |
| FvExamples.FullArange8Of333 | tests/unit/test_fv.py:239-241 | at face 8 it is [8, 26, 44] |
| FvExamples.FullArange25Of333 | tests/unit/test_fv.py:242-244 | at face 25 it is [7.5, 25, 43] |
| FvExamples.FullArange40Of333 | tests/unit/test_fv.py:245-247 | at face 40 it is [5.5, 23.5, 40] |
| FvExamples.FaceToCellCorner2D | tests/unit/test_fv.py:261 | face_to_cell on the 3 x 4 grid at cell (0, 0) is [0, 4] |
| FvExamples.FaceToCellFar2D | tests/unit/test_fv.py:262 | at cell (2, 3) it is [3.5, 8] |
| FvExamples.FaceToCellInterior2D | tests/unit/test_fv.py:263 | at cell (1, 1) it is [2.5, 10.5] |
| FvExamples.FaceToCellCorner3D | tests/unit/test_fv.py:276 | on the 3 x 4 x 5 grid at cell (0, 0, 0) it is [0, 20, 42.5] |
| FvExamples.FaceToCellFar3D | tests/unit/test_fv.py:277 | at cell (2, 3, 4) it is [19.5, 42, 66] |
| FvExamples.FaceToCellInterior3D | tests/unit/test_fv.py:278 | at cell (1, 1, 1) it is [10.5, 51.5, 95] |
| Parameters.Flatten | src/darsia/utils/linalg.py:324-338 | the generator yields at least one pair; every path extends the prefixes, and strictly when the value is a non-empty dictionary |
| Parameters.FlattenIsLeafPaths | src/darsia/utils/linalg.py:324-338 | the generator yields exactly the reference leaf paths (leaves and empty dictionaries) in order, each innermost key first, followed by the prefixes |
| Parameters.FlattenFromIsLeafPaths | src/darsia/utils/linalg.py:329-332 | the loop over a dictionary's entries from entry i on yields the reference paths of those entries |
| Parameters.ReversedUnder | src/darsia/utils/linalg.py:331 | recursing with the entry's key pushed in front of the prefixes is the same as reading the sub-paths under that key |
| Parameters.WithSep | src/darsia/utils/linalg.py:345-348 | an intermediate key after munging is empty or ends with the separator |
| Parameters.MungeJoins | src/darsia/utils/linalg.py:340-353 | munging an innermost-first path and joining the keys gives JoinPath of the outermost-first path |
| Parameters.MungeOuterInOrder | src/darsia/utils/linalg.py:344 | `reversed(keys[1:])` puts the intermediate keys outermost first |
| Parameters.JoinPathSplit | src/darsia/utils/linalg.py:344-350 | the joined key is the munged intermediates followed by the innermost key verbatim |
| Parameters.JoinedMatches | src/darsia/utils/linalg.py:352-353 | the keys the loop joins are the reference's JoinPath of every leaf path |
| Parameters.FlattenParameters | src/darsia/utils/linalg.py:319-322 | an empty dictionary gives an empty result |
| Parameters.FlattenParametersReference | src/darsia/utils/linalg.py:352-361 | the result is the reference's joined leaf paths assigned in order |
| Parameters.FlattenParametersContents | src/darsia/utils/linalg.py:352-361 | the result's keys are distinct, a key is present exactly when some leaf path joins to it, and it holds the last such leaf's value |
| Parameters.JoinOne | src/darsia/utils/linalg.py:349-350 | a one-key path joins to the key verbatim |
| Parameters.JoinTwo | src/darsia/utils/linalg.py:344-350 | a two-key path joins to WithSep(outer) + inner |
| Parameters.JoinThree | src/darsia/utils/linalg.py:344-350 | a three-key path joins to WithSep(k1) + WithSep(k2) + k3 |
| Parameters.NestedShape | src/darsia/utils/linalg.py:306-307 | {k1: {k2: {k3: c}, k4: d}, k5: e} flattens to the three joined keys in this order when they differ |
| Parameters.DocstringExamples | src/darsia/utils/linalg.py:306-317 | both docstring examples give {"a_b_c": 4, "a_d": 2, "e": 1}, since "a_" gets no second separator |
| Parameters.EmptyNestedKept | src/darsia/utils/linalg.py:333-335 | a nested empty dictionary survives as a value under its joined key |
| Parameters.LaterDuplicateWins | src/darsia/utils/linalg.py:354-361 | two leaves joining to one key leave a single entry with the later value |
| Parameters.DuplicateExample | src/darsia/utils/linalg.py:354-361 | {"a": {"b": 1}, "a_": {"b": 2}} flattens to {"a_b": 2} |
| Dicts.PutAllLookup | src/darsia/utils/linalg.py:361 | after the assignments a key holds the value of its last assignment, or its old value if never assigned |
| Dicts.PutAllKeys | src/darsia/utils/linalg.py:361 | after the assignments the keys are the old and the assigned ones, each once |
| Dicts.LastValueIsLast | src/darsia/utils/linalg.py:361 | the last assigned value of a key comes from a pair after which the key is never assigned again |
| Segmentation.Unique | src/darsia/utils/segmentation.py:429 | np.unique: ascending, and holds exactly the values of the input |
| Segmentation.UniqueCount | src/darsia/utils/segmentation.py:429 | np.unique has one entry per distinct value |
| Segmentation.ResetLabels | src/darsia/utils/segmentation.py:429-432 | every pixel gets the position of its label among the distinct labels in ascending order |
| Segmentation.ResetLabelsValues | src/darsia/utils/segmentation.py:429-433 | the result takes exactly the values 0..k-1, where k is the number of distinct labels |
| Segmentation.ResetLabelsOrder | src/darsia/utils/segmentation.py:429-432 | the renaming keeps the order of labels, and two pixels share a new label exactly when they shared the old one |
| Segmentation.ResetLabelsCounts | src/darsia/utils/segmentation.py:429-432 | new label i covers as many pixels as the i-th smallest old label |
| Segmentation.ResetLabelsConsecutive | src/darsia/utils/segmentation.py:429-432 | labels that are already 0..k-1 are unchanged |
| Segmentation.ResetLabelsIdempotent | src/darsia/utils/segmentation.py:429-432 | resetting twice is resetting once |
| Segmentation.Relabel | src/darsia/utils/segmentation.py:431-432 | after a pass with a new value different from the label, the label no longer occurs |
| Segmentation.RelabelValues | src/darsia/utils/segmentation.py:431-432 | the values after a pass are the old ones without the label, plus i when the label occurred |
| Segmentation.PassesSoFar | src/darsia/utils/segmentation.py:430-432 | on non-negative labels, after n passes, the pixels of the first n labels hold their new label and the others their old one |
| Segmentation.PassStep | src/darsia/utils/segmentation.py:431-432 | pass n-1 renames exactly the pixels of label u[n-1], because renamed pixels hold values below n-1 |
| Segmentation.AtLeastPosition | src/darsia/utils/segmentation.py:429-430 | the i-th smallest of distinct non-negative labels is at least i |
| Segmentation.ResetLabelsAsWrittenCorrect | src/darsia/utils/segmentation.py:429-433 | on non-negative labels the in-place loop computes the intended renaming |
| Segmentation.ResetLabelsInPlace | src/darsia/utils/segmentation.py:429-433 | the in-place loop over an array leaves the as-written result, which is the renaming when the labels are non-negative |
| Segmentation.NegativeLabelsMerge | src/darsia/utils/segmentation.py:430-432 | with labels [-1, 0] the loop gives [1, 1], while the renaming is [0, 1] |
| Segmentation.ExtendTop | src/darsia/utils/segmentation.py:502 | when on, rows 0..t-1 become copies of row t; other rows are unchanged |
| Segmentation.ExtendBottom | src/darsia/utils/segmentation.py:505 | when on, the last t rows become copies of row n-1-t; other rows are unchanged |
| Segmentation.ExtendLeft | src/darsia/utils/segmentation.py:508 | when on, columns 0..t-1 become copies of column t |
| Segmentation.ExtendRight | src/darsia/utils/segmentation.py:511 | when on, the last t columns become copies of column m-1-t |
| Segmentation.Boundary | src/darsia/utils/segmentation.py:499-512 | thickness <= 0 returns the labels unchanged; otherwise it succeeds exactly when every listed strip has a row or column to copy from, and keeps the shape |
| Segmentation.StripSource | src/darsia/utils/segmentation.py:500-511 | the original row (column) a pixel row (column) ends up with after the two strips of its axis is a row (column) of the image |
| Segmentation.BoundaryIsSampling | src/darsia/utils/segmentation.py:499-511 | pixel (i, j) ends up with the original pixel at (top(bottom(i)), left(right(j))), as the steps run in that order |
| Segmentation.BoundaryInterior | src/darsia/utils/segmentation.py:499-511 | a pixel outside every listed strip keeps its label |
| Segmentation.SourceClamps | src/darsia/utils/segmentation.py:500-505 | bottom then top on non-overlapping strips clamps a row into [t, n-1-t] |
| Segmentation.BoundaryClamps | src/darsia/utils/segmentation.py:499-511 | with all four sides and non-overlapping strips every pixel takes the nearest inner pixel; corner blocks take the inner corner |
| Segmentation.BoundaryOverlap | src/darsia/utils/segmentation.py:500-505 | when top and bottom strips overlap (n = 2t) every row ends up a copy of original row t, since top runs first |
| Segmentation.DilateBySize | src/darsia/utils/segmentation.py:470-485 | a zero footprint returns the labels unchanged |
| NdArrays.Take | src/darsia/corrections/basecorrection.py:59-64 | the slice at an index along an axis has the shape with that axis removed |
| NdArrays.Stack | src/darsia/corrections/basecorrection.py:68 | stacking parts of one shape along an axis gives that shape with a new axis of length len(parts) |
| NdArrays.Replace | src/darsia/corrections/basecorrection.py:59-64 | writing a slice through a view keeps the array's shape |
| NdArrays.Slices | src/darsia/corrections/basecorrection.py:55-65 | all slices along an axis, in index order, each of the reduced shape |
| NdArrays.TakeStack | src/darsia/corrections/basecorrection.py:68 | slice t of a stack along the axis is part t |
| NdArrays.StackTake | src/darsia/corrections/basecorrection.py:55-68 | stacking all slices along an axis gives the array back |
| NdArrays.TakeReplace | src/darsia/corrections/basecorrection.py:59-64 | writing slice t changes slice t to the new value and no other slice |
| NdArrays.RemoveInsert | src/darsia/corrections/basecorrection.py:68 | removing the stacked axis from the stacked shape gives the parts' shape |
| NdArrays.ShapeOfHasShape | src/darsia/corrections/basecorrection.py:68 | an array of a shape without zero-length axes reports that shape |
| Corrections.DefaultCorrectMetadata | src/darsia/corrections/basecorrection.py:104-114 | the default correct_metadata returns no keys |
| Corrections.SliceAxis | src/darsia/corrections/basecorrection.py:56-65 | `[..., t]` on scalar data and `[..., t, :]` on vector data both slice the time axis, axis space_dim |
| Corrections.StackSlices | src/darsia/corrections/basecorrection.py:68 | np.stack succeeds exactly for a non-empty list of equally shaped parts and an axis in range, and slice t of the result is part t |
| Corrections.SliceLoop | src/darsia/corrections/basecorrection.py:55-65 | the loop keeps the caller's array shape and collects one corrected slice per pass |
| Corrections.SliceLoopReads | src/darsia/corrections/basecorrection.py:55-65 | corrected slice t is correct_array of original slice t, and the caller's array ends up with each slice replaced by what correct_array left in it |
| Corrections.Call | src/darsia/corrections/basecorrection.py:18-86 | on an array, the result of correct_array on the original or a copy, with the caller's array changed only with overwrite; on an image, the caller's object is returned exactly when overwrite; only np.stack in the slice loop can fail |
| Corrections.CallWhole | src/darsia/corrections/basecorrection.py:44-72 | a single image is corrected by one correct_array call; a series by one correct_array_series call when defined |
| Corrections.CallSeriesSlices | src/darsia/corrections/basecorrection.py:50-68 | otherwise a series is corrected slice by slice and restacked along space_dim in time order; it fails exactly when np.stack refuses, in particular with no time slices |
| Corrections.CallMetadata | src/darsia/corrections/basecorrection.py:74-86 | the returned metadata is the caller's with correct_metadata's keys overriding |
| Corrections.DefaultMetadataUnchanged | src/darsia/corrections/basecorrection.py:104-114 | with the default correct_metadata the metadata comes back unchanged |
| Corrections.CallCaller | src/darsia/corrections/basecorrection.py:35-86 | without overwrite, the caller's array or image is untouched, except in the slice loop; with overwrite, the caller's image is returned holding the new array |
| Corrections.SeriesLoopWritesThrough | src/darsia/corrections/basecorrection.py:55-65 | a correction working in place, called without overwrite on a one-step scalar series, changes the caller's image |
| Corrections.CorrectImageArrayFromCopy | src/darsia/corrections/basecorrection.py:44-72 | reading the time slices from the copy leaves the caller's array as it was |
| Corrections.CallFromCopy | src/darsia/corrections/basecorrection.py:18-86 | with slices read from the copy, a call without overwrite never changes the caller's array or image |
| Corrections.CallFromCopyAgrees | src/darsia/corrections/basecorrection.py:18-86 | the corrected loop fails on the same inputs and returns the same array and metadata, and is identical with overwrite |
| Corrections.IdentityCorrection | src/darsia/corrections/basecorrection.py:44-86 | a correction that changes nothing returns the caller's array and metadata on every path, slice loop included |
| ImageReading.LastIndexOf | src/darsia/image/imread.py:70-73 | rfind: the last position of the character, or none when it does not occur |
| ImageReading.Suffix | src/darsia/image/imread.py:70-73 | pathlib's suffix is empty or a dot with at least one non-dot character after it, ending the name and shorter than it |
| ImageReading.LastIndexOfAppend | src/darsia/image/imread.py:73 | the last dot of a name lies in its tail when the tail has one |
| ImageReading.SuffixOf | src/darsia/image/imread.py:73 | a non-empty stem followed by ".ext" (no dot in ext) has suffix ".ext" |
| ImageReading.NoSuffix | src/darsia/image/imread.py:73 | a name has no suffix exactly when it has no dot, ends in a dot, or has its only dot in front |
| ImageReading.Lower | src/darsia/image/imread.py:76 | the length is kept, no upper-case ASCII letter is left, an upper-case letter becomes the lower-case letter at the same place of the alphabet, and every other character is kept |
| ImageReading.LowerFixed | src/darsia/image/imread.py:76 | a text is its own lower-case form exactly when it has no upper-case letter, so lowering twice is lowering once |
| ImageReading.Dispatch | src/darsia/image/imread.py:79-90 | .npy, .npz, the five optical suffixes, .dcm and .vtu select their readers by exact comparison; anything else is NotImplemented |
| ImageReading.FileSuffix | src/darsia/image/imread.py:66-76 | a given suffix is used verbatim; otherwise the lower-cased suffix of the path, or of every path of a non-empty list whose paths share one suffix; an empty list gives NoPaths |
| ImageReading.ReaderFor | src/darsia/image/imread.py:66-90 | a reader is found exactly when the suffix is known, and it is the table's reader for it |
| ImageReading.UpperCaseSuffix | src/darsia/image/imread.py:66-84 | "x.JPG" is read optically when inferred, but the explicit suffix ".JPG" is NotImplemented |
| ImageReading.MixedCaseList | src/darsia/image/imread.py:69-71 | two paths with different suffixes, even ones differing only in case, fail with MixedSuffixes |
| ImageReading.InferredIgnoresCase | src/darsia/image/imread.py:68-84 | an inferred suffix picks the same reader as any suffix with the same lower-case form |
| ImageReading.FirstBreak | src/darsia/image/imread.py:273 | the first line boundary of a text, if any |
| ImageReading.SplitLines | src/darsia/image/imread.py:273 | splitlines returns lines without line boundaries |
| ImageReading.FirstBreakAfter | src/darsia/image/imread.py:273 | after a line without boundaries, the next boundary is the first |
| ImageReading.SplitLinesStep | src/darsia/image/imread.py:273 | a line and its "\n", "\r" or "\r\n" boundary come off the front as one line |
| ImageReading.JoinedStart | src/darsia/image/imread.py:273 | lines joined with "\r" never start with "\n", so "\r" and "\n" are not merged |
| ImageReading.SplitJoined | src/darsia/image/imread.py:273 | splitting lines that each end in one boundary gives the lines back |
| ImageReading.SplitOnce | src/darsia/image/imread.py:274-275 | split(":", 1) fails to give two parts exactly when there is no colon, and otherwise splits at the first colon |
| ImageReading.SplitOnceJoin | src/darsia/image/imread.py:274-275 | a colon-free key, a colon and any value split back into that key and value |
| ImageReading.LeadingSpace | src/darsia/image/imread.py:276 | the leading white space is white space, followed by a non-space or the end |
| ImageReading.BeforeTrailingSpace | src/darsia/image/imread.py:276 | the trailing white space is white space, preceded by a non-space or the start |
| ImageReading.LStripIsTrim | src/darsia/image/imread.py:276 | lstrip takes exactly the leading white space off |
| ImageReading.RStripIsTrim | src/darsia/image/imread.py:276 | the trailing part strip removes is white space, and what remains ends in a non-space |
| ImageReading.StripIsTrim | src/darsia/image/imread.py:276 | strip leaves the text between the white space at both ends, starting and ending with a non-space |
| ImageReading.LineEntries | src/darsia/image/imread.py:273-276 | every line gives (lstripped key, stripped value), or the parse fails on a line without a colon |
| ImageReading.IdentifyMetadata | src/darsia/image/imread.py:272-276 | the report's lines but the last are assigned into a dictionary in order; it fails exactly when one lacks a colon |
| ImageReading.DateOf | src/darsia/image/imread.py:278-281 | no "date" key fails with NoDate; a colon-free value fails; otherwise the text after the value's first colon less one character |
| ImageReading.ReportBodyJoined | src/darsia/image/imread.py:273 | `splitlines()[:-1]` of a report whose lines end in one boundary is all its lines but the last |
| ImageReading.IdentifyKeys | src/darsia/image/imread.py:272-276 | the parsed report has distinct keys, which are exactly the keys of the body lines |
| ImageReading.IdentifyLastLineWins | src/darsia/image/imread.py:272-276 | a key's value is that of the last body line with that key |
| ImageReading.IdentifyDateLastLine | src/darsia/image/imread.py:272-281 | the date text comes from the last body line with key "date" |
| ImageReading.IdentifyDateOutcome | src/darsia/image/imread.py:272-279 | reading the date fails with LineWithoutColon exactly when a body line has no colon, with NoDate exactly when no body line has key "date", and with DateWithoutColon exactly when the last "date" line's value has no colon |
| ImageReading.InsertBy | src/darsia/image/imread.py:439 | inserting adds exactly the one element |
| ImageReading.InsertBySorted | src/darsia/image/imread.py:439 | inserting into a sorted sequence keeps it sorted |
| ImageReading.SortBy | src/darsia/image/imread.py:439 | sorting by a key gives a permutation that is sorted by the key |
| ImageReading.DistinctPermutation | src/darsia/image/imread.py:435-441 | a permutation of distinct stamps is distinct |
| ImageReading.DistinctCard | src/darsia/image/imread.py:445 | a sequence without repetitions has as many elements as its set |
| ImageReading.DigitsValueInjective | src/darsia/image/imread.py:430-431 | equal-length digit strings with equal value are equal |
| ImageReading.SameTimeSamePrefix | src/darsia/image/imread.py:430-431 | two stamps fall on the same time exactly when their first 14 characters agree |
| ImageReading.FirstBadStamp | src/darsia/image/imread.py:436-438 | none exactly when the first 14 characters of every stamp are digits; otherwise a stamp of the list whose first 14 characters are not all digits |
| ImageReading.DifferingAxes | src/darsia/image/imread.py:444 | the axes in which two positions differ, ascending |
| ImageReading.VaryingAxis | src/darsia/image/imread.py:444 | the one axis in which the first two positions differ, or none when they differ in no axis or in several |
| ImageReading.FilesAt | src/darsia/image/imread.py:458 | the files of one stamp, exactly, in file order |
| ImageReading.Frames | src/darsia/image/imread.py:452-464 | one frame per time stamp |
| ImageReading.Arrange | src/darsia/image/imread.py:445-474 | stamps sorted by time, frames of their files sorted by position, the slice count is the number of distinct positions, FrameSizeMismatch exactly when some frame holds neither one file per slice nor a single file (numpy broadcasts a single file into every slice), series when more than one frame |
| ImageReading.GroupDicom | src/darsia/image/imread.py:419-474 | no files gives NoFiles; a stamp whose first 14 characters are not all digits gives BadStamp naming such a stamp; otherwise one file gives SingleFile, and first two positions that differ in no axis or in several give NoSingleVaryingAxis; grouping succeeds exactly when there are at least two files, every stamp is valid, the first two positions differ in one axis, and every frame along that axis broadcasts (one file per slice or a single file), and then it is the arrangement along that axis |
| ImageReading.DicomTimes | src/darsia/image/imread.py:430-441 | the frames are the distinct stamps, each once, in chronological order of their first 14 characters |
| ImageReading.DicomFrames | src/darsia/image/imread.py:452-467 | frame i holds every file of stamp i and nothing else, each once, ascending along the varying axis; it holds one file per slice or a single file, and every slice stores a file of stamp i |
| ImageReading.DicomSeries | src/darsia/image/imread.py:474 | the result is a series exactly when the files carry more than one distinct stamp |
| ImageReading.OneFileFrameBroadcasts | src/darsia/image/imread.py:445-467 | two files of stamp a at positions z0 < z1 and one file of a later stamp b at z0 give two slices and frames [0, 1] and [2]; the single file of the second frame fills both slices |

## Left out

- File access is not modelled, and neither are the readers themselves. This
  covers cv2, PIL/EXIF, pydicom, meshio and the `identify` subprocess. A path
  is given by its components; folder expansion and the existence checks of
  `imread` are not modelled.
- The `identify` report is given as decoded text; the UTF-8 decoding of each
  line is not modelled.
- `datetime.strptime` is not modelled. The identify date is returned as the
  text it would parse. A DICOM stamp is valid when its first 14 characters are
  digits, and its time is the number YYYYmmddHHMMSS.
- ImageReading.FirstBadStamp: the 14-digit rule differs from
  `datetime.strptime(date_time[:14], "%Y%m%d%H%M%S")` (src/darsia/image/imread.py:431)
  in both directions. strptime accepts one-digit fields, so "202102221335"
  parses as 2021-02-22 13:03:05, but the model refuses it for having only 12
  characters. The model accepts "20211301120000", which strptime refuses for
  month 13; calendar validity (month 13, day 32) is not checked. The comment
  at src/darsia/image/imread.py:426-428 documents the 14-digit form
  '20210222133538.000', which is the form the model reads. ImageReading.GroupDicom
  inherits this in its BadStamp case.
- Parameters.FlattenParameters: keys are strings only. The source applies
  `str` to the innermost key of each leaf path (src/darsia/utils/linalg.py:353),
  and an intermediate key without a length, an integer say, raises TypeError at
  `len(key)` (src/darsia/utils/linalg.py:345). Neither is modelled: the model's
  dictionaries have string keys, so a mixed key type cannot be written down.
- Corrections.StackSlices: arrays with a zero-length axis are not modelled.
  ShapeOf reports [0] for an empty node and loses the axes below it, so a stack
  of parts of shape [0, 5, 3] along axis 2 is refused where `np.stack` accepts
  it. Corrections.Call and Corrections.CallSeriesSlices inherit this: their
  "fails exactly when np.stack refuses" holds for arrays without zero-length
  axes.
- ImageReading.Lower: folds ASCII letters only. Python's `str.lower` also
  folds other Unicode letters.
- ImageReading.DicomFrames: states that each frame is ordered by position,
  not which of two equal positions comes first. `np.argsort` uses an
  unstable sort, while the model sorts stably.
- The DICOM pixel data, voxel sizes, row/column checks and rescaling are not
  modelled. Neither are the reduction of a 2-D result and the reduction of a
  single-frame result to a non-series image.
- The module that defines `Grid`, `FVDivergence`, `FVMass`, the
  reconstructions and `face_to_cell` is not part of this model. The operators
  follow what tests/unit/test_fv.py asserts.
- FiniteVolume.Mass: in cell mode the lumping flag is ignored. Face mode
  without lumping is refused with UnsupportedMode.
- FiniteVolume.MakeGrid: its checks are dimension 2 or 3, positive extents,
  and positive spacings matching the extents. Checks of flux lengths
  against the grid are preconditions instead.
- Sparse-matrix storage formats are not modelled. Operators are lists of
  triplets whose repeated columns add up.
- Floating-point arithmetic is not modelled: weights and spacings are exact
  reals.
- Segmentation: the watershed segmentation, `_fill_holes` and the dilation
  of `_dilate_by_size` are skimage/scipy calls. Only the zero-footprint
  identity is modelled. The dilation is a parameter.
- Segmentation.Boundary: the image is a non-empty rectangle of rows.
  `_reset_labels` works on the flattened image, since only pixel positions
  and values matter to it.
- Corrections: `correct_array`, `correct_array_series` and
  `correct_metadata` are parameters. A routine that writes into its argument
  in place is assumed to keep that argument's shape (KeepsShape). Shape
  changes are only possible in returned values.
- Corrections: `update_metadata` and `dict.update` are modelled as key-wise
  overriding. The image constructor `type(image)(img, **meta)` is modelled as
  a record of class, array and metadata; the constructor's own processing is
  not modelled.
- Solvers (CG, GMRES, KSP), the illumination and colour corrections, the
  TVD denoisers and image arithmetics are not modelled. They are numerics or
  calls into SciPy, PETSc, skimage or cv2.

## Findings

| source | as written | input that shows it | evidently intended | confidence | as-written member | corrected member |
|---|---|---|---|---|---|---|
| src/darsia/utils/segmentation.py:429-432 | the labels are renamed in place, one mask per old label; a pixel already renamed to i is caught again by the mask of a later label equal to i | labels [-1, 0]: the first pass renames -1 to 0, and the second pass renames both pixels to 1, giving [1, 1] | consecutive labels 0..k-1 in the order of the old labels: [0, 1] | not executed | Segmentation.NegativeLabelsMerge | Segmentation.ResetLabels |
| src/darsia/corrections/basecorrection.py:55-65 | with overwrite=False, the slices of a series are read from `image.img`, the caller's array, instead of from the copy `img` | a one-pixel scalar series with one time step and a correction that zeroes its argument in place: the caller's image is zeroed although a copy was asked for | the slices are read from the copy, so the caller's image is never changed | not executed | Corrections.SeriesLoopWritesThrough | Corrections.CallFromCopy |
