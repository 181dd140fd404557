/** Label post-processing of the watershed segmentation.

    A labelled image is a grid of integer labels.  `_reset_labels` renames the
    labels in place to the consecutive values 0, 1, ..., k-1, walking the
    distinct labels in ascending order; `_boundary` overwrites strips along the
    border by constant extension of the first row or column inside the strip;
    `_dilate_by_size` leaves the labels alone when the footprint is zero.

    For `_reset_labels` only the multiset of pixel values and their positions
    matter, so the image is flattened to a sequence here.
 */
module Segmentation {
  import opened Results

  // ---------------------------------------------------------------------------
  // The distinct labels in ascending order (what numpy's `unique` returns)
  // ---------------------------------------------------------------------------

  predicate Increasing(u: seq<int>)
  {
    forall i, j :: 0 <= i < j < |u| ==> u[i] < u[j]
  }

  /** Inserting x into an ascending sequence of distinct values. */
  function Insert(u: seq<int>, x: int): (r: seq<int>)
    requires Increasing(u)
    ensures Increasing(r)
    ensures forall y :: y in r <==> y in u || y == x
  {
    if |u| == 0 then [x]
    else if x < u[0] then [x] + u
    else if x == u[0] then u
    else
      var rest := Insert(u[1..], x);
      assert forall k :: 0 <= k < |rest| ==> u[0] < rest[k] by {
        forall k | 0 <= k < |rest|
          ensures u[0] < rest[k]
        {
          assert rest[k] in rest;
        }
      }
      [u[0]] + rest
  }

  /** The distinct values of s, ascending. */
  function Unique(s: seq<int>): (u: seq<int>)
    ensures Increasing(u)
    ensures forall x :: x in u <==> x in s
  {
    if |s| == 0 then []
    else
      assert s == s[..|s| - 1] + [s[|s| - 1]];
      Insert(Unique(s[..|s| - 1]), s[|s| - 1])
  }

  /** The position of x in u. */
  function Rank(u: seq<int>, x: int): (i: nat)
    requires x in u
    ensures i < |u| && u[i] == x
  {
    if u[0] == x then 0 else 1 + Rank(u[1..], x)
  }

  /** In an ascending sequence, the position of a value is determined by the value. */
  lemma RankOf(u: seq<int>, i: nat)
    requires Increasing(u) && i < |u|
    ensures Rank(u, u[i]) == i
  {
  }

  /** The distinct values of a set of values, counted: the set has exactly |Unique(s)| members. */
  lemma UniqueCount(s: seq<int>)
    ensures |Unique(s)| == |set x | x in s|
  {
    var u := Unique(s);
    assert (set x | x in s) == (set x | x in u);
    IncreasingCount(u);
  }

  lemma {:induction false} IncreasingCount(u: seq<int>)
    requires Increasing(u)
    ensures |set x | x in u| == |u|
  {
    if |u| > 0 {
      IncreasingCount(u[1..]);
      assert (set x | x in u) == {u[0]} + (set x | x in u[1..]);
      assert u[0] !in (set x | x in u[1..]);
    }
  }

  // ---------------------------------------------------------------------------
  // _reset_labels: the intended renaming
  // ---------------------------------------------------------------------------

  /** Every pixel gets the position of its label among the distinct labels in
      ascending order. */
  function ResetLabels(labels: seq<int>): (r: seq<int>)
    ensures |r| == |labels|
    ensures forall p :: 0 <= p < |labels| ==>
              0 <= r[p] < |Unique(labels)| && Unique(labels)[r[p]] == labels[p]
  {
    var u := Unique(labels);
    seq(|labels|, p requires 0 <= p < |labels| => Rank(u, labels[p]))
  }

  /** The result takes exactly the values 0, ..., k-1, where k is the number of
      distinct labels. */
  lemma ResetLabelsValues(labels: seq<int>)
    ensures var r := ResetLabels(labels);
            var k := |set x | x in labels|;
            && (forall p :: 0 <= p < |r| ==> 0 <= r[p] < k)
            && (forall i :: 0 <= i < k ==> i in r)
  {
    var r, u := ResetLabels(labels), Unique(labels);
    UniqueCount(labels);
    forall i | 0 <= i < |u|
      ensures i in r
    {
      assert u[i] in labels;
      var p :| 0 <= p < |labels| && labels[p] == u[i];
      RankOf(u, i);
      assert r[p] == i;
    }
  }

  /** The renaming keeps the order of labels, and pixels share a new label
      exactly when they shared the old one. */
  lemma ResetLabelsOrder(labels: seq<int>, p: nat, q: nat)
    requires p < |labels| && q < |labels|
    ensures var r := ResetLabels(labels);
            && (labels[p] < labels[q] <==> r[p] < r[q])
            && (labels[p] == labels[q] <==> r[p] == r[q])
  {
    var r, u := ResetLabels(labels), Unique(labels);
    if r[p] < r[q] {
      assert u[r[p]] < u[r[q]];
    } else if r[q] < r[p] {
      assert u[r[q]] < u[r[p]];
    }
  }

  /** Each new label i covers exactly as many pixels as the i-th smallest old label. */
  lemma ResetLabelsCounts(labels: seq<int>, i: nat)
    requires i < |Unique(labels)|
    ensures multiset(ResetLabels(labels))[i] == multiset(labels)[Unique(labels)[i]]
  {
    var r, u := ResetLabels(labels), Unique(labels);
    forall p | 0 <= p < |labels|
      ensures r[p] == i <==> labels[p] == u[i]
    {
      RankOf(u, i);
      assert labels[p] == u[r[p]];
      if labels[p] == u[i] {
        RankOf(u, r[p]);
      }
    }
    CountsCorrespond(r, labels, i, u[i]);
  }

  /** Two sequences whose positions holding x and y coincide hold x and y equally often. */
  lemma {:induction false} CountsCorrespond(a: seq<int>, b: seq<int>, x: int, y: int)
    requires |a| == |b|
    requires forall p :: 0 <= p < |a| ==> (a[p] == x <==> b[p] == y)
    ensures multiset(a)[x] == multiset(b)[y]
  {
    if |a| > 0 {
      var n := |a| - 1;
      assert a == a[..n] + [a[n]];
      assert b == b[..n] + [b[n]];
      CountsCorrespond(a[..n], b[..n], x, y);
    }
  }

  /** Labels that are already 0, ..., k-1 are left as they are. */
  lemma {:induction false} ResetLabelsConsecutive(labels: seq<int>, k: nat)
    requires forall p :: 0 <= p < |labels| ==> 0 <= labels[p] < k
    requires forall i :: 0 <= i < k ==> i in labels
    ensures ResetLabels(labels) == labels
  {
    var u := Unique(labels);
    forall i | 0 <= i < |u|
      ensures u[i] == i
    {
      UniqueIsRange(u, k, i);
    }
    forall p | 0 <= p < |labels|
      ensures ResetLabels(labels)[p] == labels[p]
    {
      var r := ResetLabels(labels)[p];
      assert u[r] == r;
    }
  }

  /** An ascending sequence whose values are exactly 0, ..., k-1 is 0, ..., k-1. */
  lemma {:induction false} UniqueIsRange(u: seq<int>, k: nat, i: nat)
    requires Increasing(u)
    requires forall x :: x in u <==> 0 <= x < k
    requires i < |u|
    ensures u[i] == i
  {
    assert 0 <= u[i] < k by { assert u[i] in u; }
    if i > 0 {
      UniqueIsRange(u, k, i - 1);
      assert u[i - 1] < u[i];
    }
    // u[i] is at least i, since u[i-1] == i-1; it is at most i, since i is in u
    // at a position no lower than i.
    assert i in u;
    var m :| 0 <= m < |u| && u[m] == i;
    assert u[i] <= u[m];
  }

  /** Resetting twice is resetting once. */
  lemma ResetLabelsIdempotent(labels: seq<int>)
    ensures ResetLabels(ResetLabels(labels)) == ResetLabels(labels)
  {
    ResetLabelsValues(labels);
    ResetLabelsConsecutive(ResetLabels(labels), |set x | x in labels|);
  }

  // ---------------------------------------------------------------------------
  // _reset_labels as written: the mask is taken on the partly renamed array
  // ---------------------------------------------------------------------------

  /** One pass of the loop body: every pixel currently equal to from becomes i. */
  function Relabel(cur: seq<int>, from: int, i: int): (r: seq<int>)
    ensures |r| == |cur|
    ensures forall p :: 0 <= p < |cur| ==> r[p] == (if cur[p] == from then i else cur[p])
    ensures from != i ==> from !in r
  {
    seq(|cur|, p requires 0 <= p < |cur| => if cur[p] == from then i else cur[p])
  }

  /** A pass takes the value from out of the array and puts i in its place;
      every other value stays. */
  lemma RelabelValues(cur: seq<int>, from: int, i: int)
    ensures (set x | x in Relabel(cur, from, i)) ==
            (set x | x in cur && x != from) + (if from in cur then {i} else {})
  {
    var r := Relabel(cur, from, i);
    var expected := (set x | x in cur && x != from) + (if from in cur then {i} else {});
    forall x | x in r
      ensures x in expected
    {
      var p :| 0 <= p < |r| && r[p] == x;
    }
    forall x | x in expected
      ensures x in r
    {
      if x == i && from in cur {
        var p :| 0 <= p < |cur| && cur[p] == from;
        assert r[p] == i;
      } else {
        var p :| 0 <= p < |cur| && cur[p] == x;
        assert r[p] == x;
      }
    }
  }

  /** The array after the first n passes over the ascending distinct labels u. */
  function RelabelUpTo(labels: seq<int>, u: seq<int>, n: nat): (r: seq<int>)
    requires n <= |u|
    ensures |r| == |labels|
  {
    if n == 0 then labels else Relabel(RelabelUpTo(labels, u, n - 1), u[n - 1], n - 1)
  }

  /** The in-place loop of the source, pass by pass. */
  function ResetLabelsAsWritten(labels: seq<int>): (r: seq<int>)
    ensures |r| == |labels|
  {
    var u := Unique(labels);
    RelabelUpTo(labels, u, |u|)
  }

  predicate NonNegative(labels: seq<int>)
  {
    forall p :: 0 <= p < |labels| ==> labels[p] >= 0
  }

  /** On non-negative labels the in-place loop computes the intended renaming. */
  lemma ResetLabelsAsWrittenCorrect(labels: seq<int>)
    requires NonNegative(labels)
    ensures ResetLabelsAsWritten(labels) == ResetLabels(labels)
  {
    var u := Unique(labels);
    PassesSoFar(labels, u, |u|);
    assert forall p :: 0 <= p < |labels| ==> PartlyRenamed(labels, u, |u|, p) == Rank(u, labels[p]);
  }

  /** After n passes, a pixel whose label is among the first n distinct labels
      holds its new label; every other pixel still holds its old one. */
  lemma {:induction false} PassesSoFar(labels: seq<int>, u: seq<int>, n: nat)
    requires NonNegative(labels) && u == Unique(labels) && n <= |u|
    ensures forall p :: 0 <= p < |labels| ==>
              RelabelUpTo(labels, u, n)[p] == PartlyRenamed(labels, u, n, p)
  {
    if n > 0 {
      PassesSoFar(labels, u, n - 1);
      AtLeastPosition(labels, u, n - 1);
      forall p | 0 <= p < |labels|
        ensures RelabelUpTo(labels, u, n)[p] == PartlyRenamed(labels, u, n, p)
      {
        PassStep(labels, u, n, p);
      }
    }
  }

  /** Pixel p after n passes, as PassesSoFar states it. */
  function PartlyRenamed(labels: seq<int>, u: seq<int>, n: nat, p: nat): int
    requires p < |labels| && labels[p] in u
  {
    var i := Rank(u, labels[p]);
    if i < n then i else labels[p]
  }

  /** Pass n-1 renames exactly the pixels of label u[n-1]: a pixel already
      renamed holds a value below n-1, and u[n-1] is at least n-1. */
  lemma PassStep(labels: seq<int>, u: seq<int>, n: nat, p: nat)
    requires Increasing(u) && 0 < n <= |u| && u[n - 1] >= n - 1
    requires p < |labels| && labels[p] in u
    requires RelabelUpTo(labels, u, n - 1)[p] == PartlyRenamed(labels, u, n - 1, p)
    ensures RelabelUpTo(labels, u, n)[p] == PartlyRenamed(labels, u, n, p)
  {
    var cur := RelabelUpTo(labels, u, n - 1);
    var i := Rank(u, labels[p]);
    assert RelabelUpTo(labels, u, n)[p] == if cur[p] == u[n - 1] then n - 1 else cur[p];
    if i < n - 1 {
      assert cur[p] == i < u[n - 1];
    } else if i == n - 1 {
      assert cur[p] == labels[p] == u[n - 1];
    } else {
      assert cur[p] == u[i] != u[n - 1];
    }
  }

  /** The i-th smallest of distinct non-negative labels is at least i. */
  lemma {:induction false} AtLeastPosition(labels: seq<int>, u: seq<int>, i: nat)
    requires NonNegative(labels) && u == Unique(labels) && i < |u|
    ensures u[i] >= i
  {
    if i == 0 {
      assert u[0] in labels;
    } else {
      AtLeastPosition(labels, u, i - 1);
    }
  }

  /** With a negative label the loop merges labels: [-1, 0] becomes [1, 1]
      instead of [0, 1], because the pixel renamed 0 in the first pass is
      caught again by the mask of label 0 in the second. */
  lemma NegativeLabelsMerge(labels: seq<int>)
    requires labels == [-1, 0]
    ensures ResetLabelsAsWritten(labels) == [1, 1]
    ensures ResetLabels(labels) == [0, 1]
  {
    UniqueNegativePair(labels);
    AsWrittenNegativePair(labels);
    var r := ResetLabels(labels);
    assert Unique(labels)[r[0]] == -1 && Unique(labels)[r[1]] == 0;
  }

  lemma UniqueNegativePair(labels: seq<int>)
    requires labels == [-1, 0]
    ensures Unique(labels) == [-1, 0]
  {
    assert labels[..1] == [-1] && labels[..1][..0] == [];
    assert Unique(labels[..1]) == Insert([], -1) == [-1];
    assert Insert([-1], 0) == [-1] + Insert([], 0);
  }

  lemma AsWrittenNegativePair(labels: seq<int>)
    requires labels == [-1, 0] && Unique(labels) == [-1, 0]
    ensures ResetLabelsAsWritten(labels) == [1, 1]
  {
    var once := Relabel(labels, -1, 0);
    assert once == [0, 0];
    assert RelabelUpTo(labels, Unique(labels), 1) == once;
    assert Relabel(once, 0, 1) == [1, 1];
  }

  /** The in-place loop over an array, pass by pass as in the source. */
  method ResetLabelsInPlace(labels: array<int>)
    modifies labels
    ensures labels[..] == ResetLabelsAsWritten(old(labels[..]))
    ensures NonNegative(old(labels[..])) ==> labels[..] == ResetLabels(old(labels[..]))
  {
    ghost var orig := labels[..];
    var u := Unique(labels[..]);
    var i := 0;
    while i < |u|
      invariant 0 <= i <= |u|
      invariant labels[..] == RelabelUpTo(orig, u, i)
    {
      ghost var cur := labels[..];
      var p := 0;
      while p < labels.Length
        invariant 0 <= p <= labels.Length
        invariant forall q :: 0 <= q < p ==> labels[q] == if cur[q] == u[i] then i else cur[q]
        invariant forall q :: p <= q < labels.Length ==> labels[q] == cur[q]
      {
        if labels[p] == u[i] {
          labels[p] := i;
        }
        p := p + 1;
      }
      assert labels[..] == Relabel(cur, u[i], i);
      i := i + 1;
    }
    if NonNegative(orig) {
      ResetLabelsAsWrittenCorrect(orig);
    }
  }

  // ---------------------------------------------------------------------------
  // _boundary: constant extension of border strips
  // ---------------------------------------------------------------------------

  type Image = seq<seq<int>>

  function Cols(img: Image): nat
  {
    if |img| == 0 then 0 else |img[0]|
  }

  /** All rows have the same length, and there is at least one row and one column. */
  predicate Rectangular(img: Image)
  {
    |img| > 0 && Cols(img) > 0 && forall i :: 0 <= i < |img| ==> |img[i]| == Cols(img)
  }

  predicate SameShape(a: Image, b: Image)
  {
    |a| == |b| && forall i :: 0 <= i < |a| ==> |a[i]| == |b[i]|
  }

  /** The row that row i copies in the top step: row t for the strip 0..t-1. */
  function TopSource(t: nat, on: bool, i: nat): nat
  {
    if on && i < t then t else i
  }

  /** The row that row i copies in the bottom step: row n-1-t for the last t rows. */
  function BottomSource(n: nat, t: nat, on: bool, i: nat): nat
    requires on ==> t < n
  {
    if on && i >= n - t then n - 1 - t else i
  }

  /** labels[:t, :] = labels[t:t+1, :] when on: rows 0..t-1 become copies of row t. */
  function ExtendTop(img: Image, t: nat, on: bool): (r: Image)
    requires Rectangular(img) && 0 < t && (on ==> t < |img|)
    ensures Rectangular(r) && SameShape(r, img)
    ensures forall i :: 0 <= i < |img| ==> TopSource(t, on, i) < |img| && r[i] == img[TopSource(t, on, i)]
  {
    if on then seq(|img|, i requires 0 <= i < |img| => if i < t then img[t] else img[i]) else img
  }

  /** labels[-t:, :] = labels[-t-1:-t, :] when on: the last t rows become copies of row n-1-t. */
  function ExtendBottom(img: Image, t: nat, on: bool): (r: Image)
    requires Rectangular(img) && 0 < t && (on ==> t < |img|)
    ensures Rectangular(r) && SameShape(r, img)
    ensures forall i :: 0 <= i < |img| ==>
              BottomSource(|img|, t, on, i) < |img| && r[i] == img[BottomSource(|img|, t, on, i)]
  {
    var n := |img|;
    if on then seq(n, i requires 0 <= i < n => if i >= n - t then img[n - 1 - t] else img[i]) else img
  }

  /** labels[:, :t] = labels[:, t:t+1] when on: columns 0..t-1 become copies of column t. */
  function ExtendLeft(img: Image, t: nat, on: bool): (r: Image)
    requires Rectangular(img) && 0 < t && (on ==> t < Cols(img))
    ensures Rectangular(r) && SameShape(r, img)
    ensures forall i, j :: 0 <= i < |img| && 0 <= j < Cols(img) ==>
              TopSource(t, on, j) < Cols(img) && r[i][j] == img[i][TopSource(t, on, j)]
  {
    var m := Cols(img);
    if on then
      seq(|img|, i requires 0 <= i < |img| =>
        seq(m, j requires 0 <= j < m => if j < t then img[i][t] else img[i][j]))
    else img
  }

  /** labels[:, -t:] = labels[:, -t-1:-t] when on: the last t columns become copies of column m-1-t. */
  function ExtendRight(img: Image, t: nat, on: bool): (r: Image)
    requires Rectangular(img) && 0 < t && (on ==> t < Cols(img))
    ensures Rectangular(r) && SameShape(r, img)
    ensures forall i, j :: 0 <= i < |img| && 0 <= j < Cols(img) ==>
              BottomSource(Cols(img), t, on, j) < Cols(img) &&
              r[i][j] == img[i][BottomSource(Cols(img), t, on, j)]
  {
    var m := Cols(img);
    if on then
      seq(|img|, i requires 0 <= i < |img| =>
        seq(m, j requires 0 <= j < m => if j >= m - t then img[i][m - 1 - t] else img[i][j]))
    else img
  }

  /** numpy refuses to broadcast an empty slice onto a non-empty strip. */
  datatype BoundaryError = BroadcastError

  /** Whether the strips of the listed sides fit: the row or column copied from
      must exist. */
  predicate Fits(img: Image, t: int, sides: seq<string>)
  {
    && (("top" in sides || "bottom" in sides) ==> t < |img|)
    && (("left" in sides || "right" in sides) ==> t < Cols(img))
  }

  /** _boundary: top, bottom, left and right in this order, each only when listed. */
  function Boundary(img: Image, t: int, sides: seq<string>): (r: Result<Image, BoundaryError>)
    requires Rectangular(img)
    ensures r.Ok? <==> t <= 0 || Fits(img, t, sides)
    ensures t <= 0 ==> r == Ok(img)
    ensures r.Ok? ==> Rectangular(r.value) && SameShape(r.value, img)
  {
    if t <= 0 then Ok(img)
    else if !Fits(img, t, sides) then Err(BroadcastError)
    else
      var a := ExtendTop(img, t, "top" in sides);
      var b := ExtendBottom(a, t, "bottom" in sides);
      var c := ExtendLeft(b, t, "left" in sides);
      Ok(ExtendRight(c, t, "right" in sides))
  }

  /** The original index that index i along one axis ends up with.  The low
      end runs first and the high end then copies from the already extended
      strip, so index i reads index high(i) of the intermediate image, which
      is index low(high(i)) of the original.  Rows use top/bottom, columns
      left/right. */
  function StripSource(n: nat, t: nat, low: bool, high: bool, i: nat): (s: nat)
    requires i < n && 0 < t && ((low || high) ==> t < n)
    ensures s < n
  {
    TopSource(t, low, BottomSource(n, t, high, i))
  }

  /** The boundary extension samples the original image at redirected
      coordinates: pixel (i, j) holds the original pixel at the strip sources of i and j. */
  lemma BoundaryIsSampling(img: Image, t: int, sides: seq<string>, i: nat, j: nat)
    requires Rectangular(img) && t > 0 && Fits(img, t, sides)
    requires i < |img| && j < Cols(img)
    ensures Boundary(img, t, sides).value[i][j] ==
              img[StripSource(|img|, t, "top" in sides, "bottom" in sides, i)]
                 [StripSource(Cols(img), t, "left" in sides, "right" in sides, j)]
  {
    var n, m := |img|, Cols(img);
    var a := ExtendTop(img, t, "top" in sides);
    var b := ExtendBottom(a, t, "bottom" in sides);
    var c := ExtendLeft(b, t, "left" in sides);
    var d := ExtendRight(c, t, "right" in sides);
    var bi := BottomSource(n, t, "bottom" in sides, i);
    var rj := BottomSource(m, t, "right" in sides, j);
    var lj := TopSource(t, "left" in sides, rj);
    assert d[i][j] == c[i][rj];
    assert c[i][rj] == b[i][lj];
    assert b[i] == a[bi];
    assert a[bi] == img[TopSource(t, "top" in sides, bi)];
  }

  /** A pixel outside every listed strip keeps its label. */
  lemma BoundaryInterior(img: Image, t: int, sides: seq<string>, i: nat, j: nat)
    requires Rectangular(img) && t > 0 && Fits(img, t, sides)
    requires i < |img| && j < Cols(img)
    requires !("top" in sides && i < t) && !("bottom" in sides && i >= |img| - t)
    requires !("left" in sides && j < t) && !("right" in sides && j >= Cols(img) - t)
    ensures Boundary(img, t, sides).value[i][j] == img[i][j]
  {
    BoundaryIsSampling(img, t, sides, i, j);
  }

  function Clamp(x: int, lo: int, hi: int): int
  {
    if x < lo then lo else if x > hi then hi else x
  }

  /** With all four sides listed and strips that do not overlap, every pixel
      takes the value of the nearest pixel of the inner rectangle
      [t, n-1-t] x [t, m-1-t]; a corner block takes the inner corner. */
  lemma BoundaryClamps(img: Image, t: int, sides: seq<string>, i: nat, j: nat)
    requires Rectangular(img) && t > 0 && 2 * t < |img| && 2 * t < Cols(img)
    requires "top" in sides && "left" in sides && "bottom" in sides && "right" in sides
    requires i < |img| && j < Cols(img)
    ensures Boundary(img, t, sides).value[i][j] ==
              img[Clamp(i, t, |img| - 1 - t)][Clamp(j, t, Cols(img) - 1 - t)]
  {
    BoundaryIsSampling(img, t, sides, i, j);
    SourceClamps(|img|, t, i);
    SourceClamps(Cols(img), t, j);
  }

  /** Bottom then top on rows that do not overlap is clamping into [t, n-1-t]. */
  lemma SourceClamps(n: nat, t: nat, i: nat)
    requires 0 < t && 2 * t < n && i < n
    ensures TopSource(t, true, BottomSource(n, t, true, i)) == Clamp(i, t, n - 1 - t)
  {
  }

  /** When the strips overlap the order shows: with top and bottom listed, left and
      right not, and n == 2t, bottom copies row t-1, which top has already overwritten with
      row t, so every row ends up a copy of the original row t. */
  lemma BoundaryOverlap(img: Image, t: int, sides: seq<string>, i: nat)
    requires Rectangular(img) && t > 0 && |img| == 2 * t
    requires "top" in sides && "bottom" in sides && "left" !in sides && "right" !in sides
    requires i < |img|
    ensures Boundary(img, t, sides).value[i] == img[t]
  {
    var r := Boundary(img, t, sides).value;
    forall j | 0 <= j < Cols(img)
      ensures r[i][j] == img[t][j]
    {
      BoundaryIsSampling(img, t, sides, i, j);
    }
  }

  // ---------------------------------------------------------------------------
  // _dilate_by_size
  // ---------------------------------------------------------------------------

  /** Dilation of every label region by a disk, in order of region size; the
      morphological dilation itself is a foreign call and stays a parameter. */
  function DilateBySize(labels: Image, footprint: int, decreasing: bool,
                        dilate: (Image, int, bool) -> Image): (r: Image)
    ensures footprint == 0 ==> r == labels
  {
    if footprint != 0 then dilate(labels, footprint, decreasing) else labels
  }
}
