/** The workflow every correction shares (`BaseCorrection.__call__`).

    A correction is called on a bare array or on an image.  It corrects a copy
    or, with `overwrite`, the original; a space-time series is handed whole to
    `correct_array_series` when the correction defines one, and otherwise
    corrected one time slice at a time and stacked again; the metadata of the
    image is merged with what `correct_metadata` returns.

    The correction routines themselves are parameters.  Since a routine may
    change the array it is given in place, one call is described by an
    `Effect`: the array it returns and what its argument holds afterwards.
 */
module Corrections {
  import opened Results
  import opened NdArrays
  import opened Dicts

  /** One call of a correction routine on an array. */
  datatype Effect = Effect(result: Nd, argAfter: Nd)

  type Metadata<V> = seq<(string, V)>

  /** correct_array, correct_array_series when the class defines it, and
      correct_metadata. */
  datatype Correction<!V> = Correction(
    correctArray: Nd -> Effect,
    correctArraySeries: Option<Nd -> Effect>,
    correctMetadata: Metadata<V> -> Metadata<V>)

  /** The default correct_metadata: it changes no metadata. */
  function DefaultCorrectMetadata<V>(metadata: Metadata<V>): (update: Metadata<V>)
    ensures Keys(update) == []
  {
    []
  }

  /** An in-place write keeps the shape of the array written to. */
  ghost predicate KeepsShape(f: Nd -> Effect)
  {
    forall x, s :: HasShape(x, s) ==> HasShape(f(x).argAfter, s)
  }

  /** A darsia image: its class, its array with the array's shape, the
      attributes the workflow reads, and its metadata. */
  datatype Image<V> = Image(
    kind: string,
    arr: Nd,
    shape: seq<nat>,
    spaceDim: nat,
    series: bool,
    scalar: bool,
    timeNum: nat,
    metadata: Metadata<V>)

  /** The layout of a darsia image: the space axes come first; a series has
      its time axis next, followed by one axis of components for vector data. */
  predicate ValidImage<V>(im: Image<V>)
  {
    && HasShape(im.arr, im.shape)
    && (im.series ==>
          && |im.shape| == im.spaceDim + (if im.scalar then 1 else 2)
          && im.shape[im.spaceDim] == im.timeNum)
  }

  /** The axis the source slices at: the last one, `[..., t]`, for scalar data
      and the one before it, `[..., t, :]`, for vector data.  Both are the time
      axis, the axis the slices are stacked along again. */
  function SliceAxis<V>(im: Image<V>): (axis: nat)
    requires ValidImage(im) && im.series
    ensures axis == im.spaceDim && axis < |im.shape|
  {
    if im.scalar then |im.shape| - 1 else |im.shape| - 2
  }

  datatype CallError = StackFailed

  /** np.stack(parts, axis): it refuses an empty list, parts of different
      shapes and an axis beyond the number of axes of the parts. */
  function StackSlices(parts: seq<Nd>, axis: nat): (r: Result<Nd, CallError>)
    ensures r.Ok? <==> |parts| > 0 && axis <= |ShapeOf(parts[0])| &&
                       forall k :: 0 <= k < |parts| ==> HasShape(parts[k], ShapeOf(parts[0]))
    ensures r.Ok? ==> HasShape(r.value, InsertAt(ShapeOf(parts[0]), axis, |parts|)) &&
                      forall t :: 0 <= t < |parts| ==>
                        Take(r.value, InsertAt(ShapeOf(parts[0]), axis, |parts|), axis, t) == parts[t]
  {
    if |parts| == 0 then Err(StackFailed)
    else
      var sh := ShapeOf(parts[0]);
      if axis <= |sh| && forall k :: 0 <= k < |parts| ==> HasShape(parts[k], sh) then
        assert forall t :: 0 <= t < |parts| ==>
                 Take(Stack(parts, sh, axis), InsertAt(sh, axis, |parts|), axis, t) == parts[t] by {
          forall t | 0 <= t < |parts|
            ensures Take(Stack(parts, sh, axis), InsertAt(sh, axis, |parts|), axis, t) == parts[t]
          {
            TakeStack(parts, sh, axis, t);
          }
        }
        Ok(Stack(parts, sh, axis))
      else Err(StackFailed)
  }

  // ---------------------------------------------------------------------------
  // The time-slice loop
  // ---------------------------------------------------------------------------

  /** The first n passes of the loop as written: slice t is a view into the
      caller's array, so what correct_array does to it in place is written
      into that array.  Returns the caller's array afterwards and the
      corrected slices. */
  function SliceLoop(f: Nd -> Effect, a: Nd, shape: seq<nat>, axis: nat, n: nat): (r: (Nd, seq<Nd>))
    requires KeepsShape(f) && HasShape(a, shape) && axis < |shape| && n <= shape[axis]
    ensures HasShape(r.0, shape) && |r.1| == n
    decreases n
  {
    if n == 0 then (a, [])
    else
      var (cur, done) := SliceLoop(f, a, shape, axis, n - 1);
      var e := f(Take(cur, shape, axis, n - 1));
      (Replace(cur, shape, axis, n - 1, e.argAfter), done + [e.result])
  }

  /** The slices are disjoint, so every pass reads its slice as it was before
      the loop: the corrected slices are correct_array of the original slices
      in time order, and the caller's array ends up with each slice replaced
      by what correct_array left in it. */
  lemma {:induction false} SliceLoopReads(f: Nd -> Effect, a: Nd, shape: seq<nat>, axis: nat, n: nat)
    requires KeepsShape(f) && HasShape(a, shape) && axis < |shape| && n <= shape[axis]
    ensures var r := SliceLoop(f, a, shape, axis, n);
            && (forall t :: 0 <= t < n ==> r.1[t] == f(Take(a, shape, axis, t)).result)
            && (forall t :: 0 <= t < shape[axis] ==>
                  Take(r.0, shape, axis, t) ==
                    if t < n then f(Take(a, shape, axis, t)).argAfter else Take(a, shape, axis, t))
    decreases n
  {
    if n > 0 {
      SliceLoopReads(f, a, shape, axis, n - 1);
      var (cur, done) := SliceLoop(f, a, shape, axis, n - 1);
      var e := f(Take(cur, shape, axis, n - 1));
      assert Take(cur, shape, axis, n - 1) == Take(a, shape, axis, n - 1);
      forall t | 0 <= t < shape[axis]
        ensures Take(Replace(cur, shape, axis, n - 1, e.argAfter), shape, axis, t) ==
                  if t < n then f(Take(a, shape, axis, t)).argAfter else Take(a, shape, axis, t)
      {
        TakeReplace(cur, shape, axis, n - 1, e.argAfter, t);
      }
    }
  }

  // ---------------------------------------------------------------------------
  // __call__
  // ---------------------------------------------------------------------------

  /** What the caller may be handed. */
  datatype Input<V> = ArrayInput(a: Nd) | ImageInput(image: Image<V>)

  /** What the call returns and what the caller's object holds afterwards.
      ArrayOut: the returned array and the caller's array.  Overwritten: the
      caller's image itself, changed and returned.  Fresh: a new image of the
      caller's class with the given array and metadata, and the caller's image. */
  datatype Outcome<V> =
    | ArrayOut(returned: Nd, callerArray: Nd)
    | Overwritten(image: Image<V>)
    | Fresh(kind: string, arr: Nd, metadata: Metadata<V>, caller: Image<V>)

  ghost predicate Callable<V>(c: Correction<V>, input: Input<V>)
  {
    KeepsShape(c.correctArray) && (input.ImageInput? ==> ValidImage(input.image))
  }

  /** The corrected array of an image, and the caller's array afterwards when
      the original was not to be overwritten (the copy absorbs in-place changes,
      except in the time-slice loop, which reads the original). */
  function CorrectImageArray<V>(c: Correction<V>, im: Image<V>): (r: Result<(Nd, Nd), CallError>)
    requires KeepsShape(c.correctArray) && ValidImage(im)
  {
    if im.series && c.correctArraySeries.Some? then
      Ok((c.correctArraySeries.value(im.arr).result, im.arr))
    else if im.series then
      var (after, slices) := SliceLoop(c.correctArray, im.arr, im.shape, SliceAxis(im), im.timeNum);
      match StackSlices(slices, im.spaceDim)
      case Ok(stacked) => Ok((stacked, after))
      case Err(e) => Err(e)
    else
      Ok((c.correctArray(im.arr).result, im.arr))
  }

  /** BaseCorrection.__call__(input, overwrite). */
  function Call<V>(c: Correction<V>, input: Input<V>, overwrite: bool): (r: Result<Outcome<V>, CallError>)
    requires Callable(c, input)
    ensures r.Err? ==> input.ImageInput? && input.image.series && c.correctArraySeries.None?
    ensures r.Ok? && input.ArrayInput? ==>
              r.value == ArrayOut(c.correctArray(input.a).result,
                                  if overwrite then c.correctArray(input.a).argAfter else input.a)
    ensures r.Ok? && input.ImageInput? ==> (r.value.Overwritten? <==> overwrite)
  {
    match input
    case ArrayInput(a) =>
      var e := c.correctArray(a);
      Ok(ArrayOut(e.result, if overwrite then e.argAfter else a))
    case ImageInput(im) =>
      match CorrectImageArray(c, im)
      case Err(e) => Err(e)
      case Ok((img, callerArr)) =>
        var update := c.correctMetadata(im.metadata);
        if overwrite then Ok(Overwritten(im.(arr := img, metadata := PutAll(im.metadata, update))))
        else Ok(Fresh(im.kind, img, PutAll(im.metadata, update), im.(arr := callerArr)))
  }

  /** The array of the image the call returns. */
  function ReturnedArray<V>(o: Outcome<V>): Nd
  {
    match o
    case ArrayOut(a, _) => a
    case Overwritten(im) => im.arr
    case Fresh(_, a, _, _) => a
  }

  /** The metadata of the image the call returns. */
  function ReturnedMetadata<V>(o: Outcome<V>): Metadata<V>
    requires !o.ArrayOut?
  {
    if o.Overwritten? then o.image.metadata else o.metadata
  }

  /** A single image is corrected by one call of correct_array; a series by
      one call of correct_array_series when the correction defines it. */
  lemma CallWhole<V>(c: Correction<V>, im: Image<V>, overwrite: bool)
    requires Callable(c, ImageInput(im))
    requires !im.series || c.correctArraySeries.Some?
    ensures Call(c, ImageInput(im), overwrite).Ok?
    ensures ReturnedArray(Call(c, ImageInput(im), overwrite).value) ==
              if im.series then c.correctArraySeries.value(im.arr).result
              else c.correctArray(im.arr).result
  {
  }

  /** Otherwise a series is corrected slice by slice: time slice t of the
      returned array, along axis space_dim, is correct_array of time slice t of
      the original.  The call fails only when np.stack refuses the slices,
      which it does for a series without time slices. */
  lemma CallSeriesSlices<V>(c: Correction<V>, im: Image<V>, overwrite: bool)
    requires Callable(c, ImageInput(im))
    requires im.series && c.correctArraySeries.None?
    ensures var r := Call(c, ImageInput(im), overwrite);
            && (im.timeNum == 0 ==> r.Err?)
            && var slices := seq(im.timeNum, t requires 0 <= t < im.timeNum =>
                                   c.correctArray(Take(im.arr, im.shape, im.spaceDim, t)).result);
               (r.Ok? <==> StackSlices(slices, im.spaceDim).Ok?) &&
               (r.Ok? ==> ReturnedArray(r.value) == StackSlices(slices, im.spaceDim).value)
  {
    var axis := SliceAxis(im);
    var loop := SliceLoop(c.correctArray, im.arr, im.shape, axis, im.timeNum);
    SliceLoopReads(c.correctArray, im.arr, im.shape, axis, im.timeNum);
    var slices := seq(im.timeNum, t requires 0 <= t < im.timeNum =>
                        c.correctArray(Take(im.arr, im.shape, im.spaceDim, t)).result);
    assert loop.1 == slices;
  }

  /** The returned image's metadata is the caller's metadata with the keys
      correct_metadata returns overriding: a key correct_metadata returns
      takes its value from there, every other key keeps its value. */
  lemma CallMetadata<V>(c: Correction<V>, im: Image<V>, overwrite: bool, key: string)
    requires Callable(c, ImageInput(im))
    requires Call(c, ImageInput(im), overwrite).Ok?
    ensures var update := c.correctMetadata(im.metadata);
            Lookup(ReturnedMetadata(Call(c, ImageInput(im), overwrite).value), key) ==
              if key in Keys(update) then LastValue(update, key) else Lookup(im.metadata, key)
  {
    PutAllLookup(im.metadata, c.correctMetadata(im.metadata), key);
  }

  /** With the default correct_metadata the metadata comes back unchanged. */
  lemma DefaultMetadataUnchanged<V>(f: Nd -> Effect, fs: Option<Nd -> Effect>, im: Image<V>, overwrite: bool)
    requires Callable(Correction(f, fs, DefaultCorrectMetadata), ImageInput(im))
    requires Call(Correction(f, fs, DefaultCorrectMetadata), ImageInput(im), overwrite).Ok?
    ensures ReturnedMetadata(Call(Correction(f, fs, DefaultCorrectMetadata), ImageInput(im), overwrite).value)
              == im.metadata
  {
  }

  /** Without overwrite the caller's array or image is left as it was, except
      in the time-slice loop; with overwrite an image comes back as the
      caller's own object, holding the new array. */
  lemma CallCaller<V>(c: Correction<V>, input: Input<V>, overwrite: bool)
    requires Callable(c, input)
    requires Call(c, input, overwrite).Ok?
    ensures var o := Call(c, input, overwrite).value;
            && (!overwrite && input.ArrayInput? ==> o.callerArray == input.a)
            && ((!overwrite && input.ImageInput? &&
                 !(input.image.series && c.correctArraySeries.None?)) ==> o.caller == input.image)
            && (overwrite && input.ImageInput? ==>
                  o.image == input.image.(arr := ReturnedArray(o), metadata := o.image.metadata))
  {
  }

  // ---------------------------------------------------------------------------
  // The time-slice loop reads the original, not the copy
  // ---------------------------------------------------------------------------

  /** The zeroes of the shape of a. */
  function Zero(a: Nd): (z: Nd)
    ensures forall s :: HasShape(a, s) ==> HasShape(z, s)
    decreases a
  {
    match a
    case Entry(_) => Entry(0.0)
    case Node(items) => Node(seq(|items|, i requires 0 <= i < |items| => Zero(items[i])))
  }

  /** A correction that sets its argument to zero in place and returns it. */
  function ZeroInPlace(x: Nd): (e: Effect)
    ensures e.result == e.argAfter == Zero(x)
  {
    Effect(Zero(x), Zero(x))
  }

  /** Called without overwrite on a one-pixel scalar series with one time
      step, a correction working in place zeroes the caller's image although
      a copy was asked for. */
  lemma SeriesLoopWritesThrough<V>(im: Image<V>)
    requires im.arr == Node([Node([Entry(1.0)])]) && im.shape == [1, 1]
    requires im.spaceDim == 1 && im.series && im.scalar && im.timeNum == 1
    ensures var c := Correction(ZeroInPlace, None, DefaultCorrectMetadata);
            var r := Call(c, ImageInput(im), false);
            r.Ok? && r.value.Fresh? && r.value.caller.arr != im.arr
  {
    var c := Correction(ZeroInPlace, None, DefaultCorrectMetadata<V>);
    var after := SliceLoop(ZeroInPlace, im.arr, im.shape, 1, 1).0;
    SliceLoopReads(ZeroInPlace, im.arr, im.shape, 1, 1);
    assert Take(im.arr, im.shape, 1, 0) == Node([Entry(1.0)]);
    assert Take(after, im.shape, 1, 0) == Zero(Node([Entry(1.0)]));
    assert Zero(Node([Entry(1.0)])).items[0] == Entry(0.0);
  }

  /** The evidently intended loop: slice t is read from img, the copy when
      the original is not to be overwritten, so the caller's image is never
      touched by correct_array. */
  function CorrectImageArrayFromCopy<V>(c: Correction<V>, im: Image<V>): (r: Result<(Nd, Nd), CallError>)
    requires KeepsShape(c.correctArray) && ValidImage(im)
    ensures r.Ok? ==> r.value.1 == im.arr
  {
    if im.series && c.correctArraySeries.Some? then
      Ok((c.correctArraySeries.value(im.arr).result, im.arr))
    else if im.series then
      var (_, slices) := SliceLoop(c.correctArray, im.arr, im.shape, SliceAxis(im), im.timeNum);
      match StackSlices(slices, im.spaceDim)
      case Ok(stacked) => Ok((stacked, im.arr))
      case Err(e) => Err(e)
    else
      Ok((c.correctArray(im.arr).result, im.arr))
  }

  /** __call__ with the time slices read from the copy. */
  function CallFromCopy<V>(c: Correction<V>, input: Input<V>, overwrite: bool): (r: Result<Outcome<V>, CallError>)
    requires Callable(c, input)
    ensures r.Ok? && !overwrite && input.ArrayInput? ==> r.value.ArrayOut? && r.value.callerArray == input.a
    ensures r.Ok? && !overwrite && input.ImageInput? ==> r.value.Fresh? && r.value.caller == input.image
  {
    match input
    case ArrayInput(a) =>
      var e := c.correctArray(a);
      Ok(ArrayOut(e.result, if overwrite then e.argAfter else a))
    case ImageInput(im) =>
      match CorrectImageArrayFromCopy(c, im)
      case Err(e) => Err(e)
      case Ok((img, callerArr)) =>
        var update := c.correctMetadata(im.metadata);
        if overwrite then Ok(Overwritten(im.(arr := img, metadata := PutAll(im.metadata, update))))
        else Ok(Fresh(im.kind, img, PutAll(im.metadata, update), im.(arr := callerArr)))
  }

  /** Reading the slices from the copy changes nothing but the caller's image:
      the same calls fail, the same arrays and metadata come back, and with
      overwrite the two agree entirely. */
  lemma CallFromCopyAgrees<V>(c: Correction<V>, input: Input<V>, overwrite: bool)
    requires Callable(c, input)
    ensures var r, r' := Call(c, input, overwrite), CallFromCopy(c, input, overwrite);
            && (r.Ok? <==> r'.Ok?)
            && (r.Ok? ==> ReturnedArray(r.value) == ReturnedArray(r'.value))
            && (r.Ok? && input.ImageInput? ==> ReturnedMetadata(r.value) == ReturnedMetadata(r'.value))
            && (overwrite ==> r == r')
  {
  }

  // ---------------------------------------------------------------------------
  // A correction that changes nothing
  // ---------------------------------------------------------------------------

  function Identity(x: Nd): (e: Effect)
    ensures e.result == x && e.argAfter == x
  {
    Effect(x, x)
  }

  /** A correction that changes nothing returns an image equal to the
      caller's, whichever path it takes: cutting a series into time slices
      and stacking them along space_dim gives the array back. */
  lemma IdentityCorrection<V>(fs: Option<Nd -> Effect>, im: Image<V>, overwrite: bool)
    requires ValidImage(im) && Positive(im.shape)
    requires fs.Some? ==> forall x :: fs.value(x) == Identity(x)
    ensures var c := Correction(Identity, fs, DefaultCorrectMetadata);
            var r := Call(c, ImageInput(im), overwrite);
            && r.Ok?
            && ReturnedArray(r.value) == im.arr
            && ReturnedMetadata(r.value) == im.metadata
  {
    var c := Correction(Identity, fs, DefaultCorrectMetadata<V>);
    assert KeepsShape(Identity);
    if im.series && fs.None? {
      var axis := SliceAxis(im);
      var rest := Remove(im.shape, axis);
      CallSeriesSlices(c, im, overwrite);
      var slices := seq(im.timeNum, t requires 0 <= t < im.timeNum =>
                          c.correctArray(Take(im.arr, im.shape, im.spaceDim, t)).result);
      assert slices == Slices(im.arr, im.shape, axis) by {
        forall t | 0 <= t < im.timeNum
          ensures slices[t] == Slices(im.arr, im.shape, axis)[t]
        {
          assert c.correctArray(Take(im.arr, im.shape, im.spaceDim, t)) ==
                 Identity(Take(im.arr, im.shape, im.spaceDim, t));
        }
      }
      assert Positive(rest) by {
        forall i | 0 <= i < |rest|
          ensures rest[i] > 0
        {
          assert rest[i] == if i < axis then im.shape[i] else im.shape[i + 1];
        }
      }
      assert im.timeNum > 0;
      ShapeOfHasShape(slices[0], rest);
      assert StackSlices(slices, im.spaceDim) == Ok(Stack(slices, rest, axis));
      StackTake(im.arr, im.shape, axis);
    }
  }
}
