/** A minimal model of numpy's n-dimensional arrays, as far as the correction
    workflow uses them: a nested array of a given shape, the slice at one index
    along an axis (`a[..., t]` and `a[..., t, :]` are such slices), writing a
    slice back through a view, and `np.stack` along an axis.

    An array of shape [n0, n1, ...] is a node with n0 children of shape
    [n1, ...]; an array of shape [] is a single entry.
 */
module NdArrays {

  datatype Nd = Entry(v: real) | Node(items: seq<Nd>)

  /** a is a well-formed array of the given shape. */
  predicate HasShape(a: Nd, shape: seq<nat>)
    decreases a
  {
    if |shape| == 0 then a.Entry?
    else a.Node? && |a.items| == shape[0] &&
         forall i :: 0 <= i < |a.items| ==> HasShape(a.items[i], shape[1..])
  }

  /** The shape with the given axis left out. */
  function Remove(shape: seq<nat>, axis: nat): (r: seq<nat>)
    requires axis < |shape|
    ensures |r| == |shape| - 1
  {
    shape[..axis] + shape[axis + 1..]
  }

  /** The shape with an axis of length n put in at the given position. */
  function InsertAt(shape: seq<nat>, axis: nat, n: nat): (r: seq<nat>)
    requires axis <= |shape|
    ensures |r| == |shape| + 1 && r[axis] == n
  {
    shape[..axis] + [n] + shape[axis..]
  }

  lemma RemoveInsert(shape: seq<nat>, axis: nat, n: nat)
    requires axis <= |shape|
    ensures Remove(InsertAt(shape, axis, n), axis) == shape
  {
    assert InsertAt(shape, axis, n)[..axis] == shape[..axis];
    assert InsertAt(shape, axis, n)[axis + 1..] == shape[axis..];
  }

  lemma RemoveTail(shape: seq<nat>, axis: nat)
    requires 0 < axis < |shape|
    ensures Remove(shape, axis) == [shape[0]] + Remove(shape[1..], axis - 1)
  {
    assert shape[..axis] == [shape[0]] + shape[1..][..axis - 1];
    assert shape[axis + 1..] == shape[1..][axis..];
  }

  lemma InsertTail(shape: seq<nat>, axis: nat, n: nat)
    requires 0 < axis <= |shape|
    ensures InsertAt(shape, axis, n) == [shape[0]] + InsertAt(shape[1..], axis - 1, n)
  {
    assert shape[..axis] == [shape[0]] + shape[1..][..axis - 1];
    assert shape[axis..] == shape[1..][axis - 1..];
  }

  /** The slice at index t along the axis (a[t] for axis 0, a[:, t] for axis 1, ...). */
  function Take(a: Nd, shape: seq<nat>, axis: nat, t: nat): (r: Nd)
    requires HasShape(a, shape) && axis < |shape| && t < shape[axis]
    ensures HasShape(r, Remove(shape, axis))
    decreases axis
  {
    if axis == 0 then
      assert Remove(shape, 0) == shape[1..];
      a.items[t]
    else
      RemoveTail(shape, axis);
      Node(seq(shape[0], i requires 0 <= i < shape[0] => Take(a.items[i], shape[1..], axis - 1, t)))
  }

  /** np.stack(parts, axis): the parts, all of one shape, become the slices
      along a new axis. */
  function Stack(parts: seq<Nd>, shape: seq<nat>, axis: nat): (r: Nd)
    requires axis <= |shape|
    requires forall k :: 0 <= k < |parts| ==> HasShape(parts[k], shape)
    ensures HasShape(r, InsertAt(shape, axis, |parts|))
    decreases axis
  {
    if axis == 0 then
      assert InsertAt(shape, 0, |parts|) == [|parts|] + shape;
      Node(parts)
    else
      InsertTail(shape, axis, |parts|);
      Node(seq(shape[0], i requires 0 <= i < shape[0] =>
        Stack(Column(parts, shape, i), shape[1..], axis - 1)))
  }

  /** Entry i along the first axis of every part. */
  function Column(parts: seq<Nd>, shape: seq<nat>, i: nat): (c: seq<Nd>)
    requires |shape| > 0 && i < shape[0]
    requires forall k :: 0 <= k < |parts| ==> HasShape(parts[k], shape)
    ensures |c| == |parts|
    ensures forall k :: 0 <= k < |parts| ==>
              parts[k].Node? && i < |parts[k].items| && c[k] == parts[k].items[i] && HasShape(c[k], shape[1..])
  {
    assert forall k :: 0 <= k < |parts| ==>
             parts[k].Node? && |parts[k].items| == shape[0] && HasShape(parts[k].items[i], shape[1..]) by {
      forall k | 0 <= k < |parts|
        ensures parts[k].Node? && |parts[k].items| == shape[0] && HasShape(parts[k].items[i], shape[1..])
      {
        assert HasShape(parts[k], shape);
      }
    }
    seq(|parts|, k requires 0 <= k < |parts| => parts[k].items[i])
  }

  /** Writing s into the slice at index t along the axis, as an in-place
      operation on a view of that slice does. */
  function Replace(a: Nd, shape: seq<nat>, axis: nat, t: nat, s: Nd): (r: Nd)
    requires HasShape(a, shape) && axis < |shape| && t < shape[axis]
    requires HasShape(s, Remove(shape, axis))
    ensures HasShape(r, shape)
    decreases axis
  {
    if axis == 0 then
      assert Remove(shape, 0) == shape[1..];
      Node(a.items[t := s])
    else
      RemoveTail(shape, axis);
      Node(seq(shape[0], i requires 0 <= i < shape[0] =>
        Replace(a.items[i], shape[1..], axis - 1, t, s.items[i])))
  }

  /** Slice t of a stack is part t. */
  lemma {:induction false} TakeStack(parts: seq<Nd>, shape: seq<nat>, axis: nat, t: nat)
    requires axis <= |shape| && t < |parts|
    requires forall k :: 0 <= k < |parts| ==> HasShape(parts[k], shape)
    ensures Take(Stack(parts, shape, axis), InsertAt(shape, axis, |parts|), axis, t) == parts[t]
    decreases axis
  {
    var full := InsertAt(shape, axis, |parts|);
    if axis > 0 {
      InsertTail(shape, axis, |parts|);
      var st := Stack(parts, shape, axis);
      var tk := Take(st, full, axis, t);
      assert HasShape(parts[t], shape);
      forall i | 0 <= i < shape[0]
        ensures tk.items[i] == parts[t].items[i]
      {
        var column := Column(parts, shape, i);
        TakeStack(column, shape[1..], axis - 1, t);
      }
    }
  }

  /** Stacking all slices along an axis gives the array back. */
  lemma {:induction false} StackTake(a: Nd, shape: seq<nat>, axis: nat)
    requires HasShape(a, shape) && axis < |shape|
    ensures Stack(Slices(a, shape, axis), Remove(shape, axis), axis) == a
    decreases axis
  {
    var slices := Slices(a, shape, axis);
    var rest := Remove(shape, axis);
    if axis == 0 {
      assert Stack(slices, rest, 0).items == a.items;
    } else {
      RemoveTail(shape, axis);
      var st := Stack(slices, rest, axis);
      forall i | 0 <= i < shape[0]
        ensures st.items[i] == a.items[i]
      {
        var column := Column(slices, rest, i);
        assert column == Slices(a.items[i], shape[1..], axis - 1);
        StackTake(a.items[i], shape[1..], axis - 1);
      }
    }
  }

  /** All slices along an axis, in index order. */
  function Slices(a: Nd, shape: seq<nat>, axis: nat): (r: seq<Nd>)
    requires HasShape(a, shape) && axis < |shape|
    ensures |r| == shape[axis]
    ensures forall t :: 0 <= t < |r| ==> HasShape(r[t], Remove(shape, axis))
  {
    seq(shape[axis], t requires 0 <= t < shape[axis] => Take(a, shape, axis, t))
  }

  /** Writing slice t changes slice t to s and no other slice. */
  lemma {:induction false} TakeReplace(a: Nd, shape: seq<nat>, axis: nat, t: nat, s: Nd, t': nat)
    requires HasShape(a, shape) && axis < |shape| && t < shape[axis] && t' < shape[axis]
    requires HasShape(s, Remove(shape, axis))
    ensures Take(Replace(a, shape, axis, t, s), shape, axis, t') ==
            if t' == t then s else Take(a, shape, axis, t')
    decreases axis
  {
    if axis > 0 {
      RemoveTail(shape, axis);
      var rp := Replace(a, shape, axis, t, s);
      var lhs := Take(rp, shape, axis, t');
      var rhs := if t' == t then s else Take(a, shape, axis, t');
      forall i | 0 <= i < shape[0]
        ensures lhs.items[i] == rhs.items[i]
      {
        TakeReplace(a.items[i], shape[1..], axis - 1, t, s.items[i], t');
      }
    }
  }

  /** The shape numpy reports for a well-formed array with no zero-length axis:
      the lengths along the first child at every level. */
  function ShapeOf(a: Nd): (s: seq<nat>)
    decreases a
  {
    if a.Entry? then [] else if |a.items| == 0 then [0] else [|a.items|] + ShapeOf(a.items[0])
  }

  predicate Positive(shape: seq<nat>)
  {
    forall i :: 0 <= i < |shape| ==> shape[i] > 0
  }

  /** An array of a shape without zero-length axes reports that shape. */
  lemma {:induction false} ShapeOfHasShape(a: Nd, shape: seq<nat>)
    requires HasShape(a, shape) && Positive(shape)
    ensures ShapeOf(a) == shape
    decreases a
  {
    if |shape| > 0 {
      ShapeOfHasShape(a.items[0], shape[1..]);
    }
  }
}
