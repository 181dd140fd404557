/** flatten_parameters (src/darsia/utils/linalg.py): a nested option
    dictionary becomes a flat dictionary whose keys join the nested keys
    with a separator.

    A dictionary is an ordered list of (key, value) entries, as Python keeps
    insertion order; a value is a leaf or a nested dictionary.  The source's
    generator `flatten` walks the tree and yields each leaf (or empty nested
    dictionary) with its key path innermost first; `munge` puts the path back
    in order and adds the separator to every intermediate key; the loop at
    the end assigns each joined key in turn, a later duplicate overwriting
    the earlier value. */
module Parameters {
  import opened Results
  import opened Dicts

  datatype Param<V> = Leaf(value: V) | Dict(entries: seq<(string, Param<V>)>)

  type Path = seq<string>

  // ---------------------------------------------------------------------------
  // Strings and sequences

  predicate EndsWith(s: string, suffix: string)
  {
    |suffix| <= |s| && s[|s| - |suffix|..] == suffix
  }

  function Reverse<T>(s: seq<T>): (r: seq<T>)
    ensures |r| == |s|
    ensures forall i :: 0 <= i < |s| ==> r[i] == s[|s| - 1 - i]
  {
    if |s| == 0 then [] else Reverse(s[1..]) + [s[0]]
  }

  function Concat(parts: seq<string>): string
  {
    if |parts| == 0 then "" else parts[0] + Concat(parts[1..])
  }

  lemma ConcatAppend(a: seq<string>, b: seq<string>)
    ensures Concat(a + b) == Concat(a) + Concat(b)
  {
    if |a| > 0 {
      assert (a + b)[1..] == a[1..] + b;
      ConcatAppend(a[1..], b);
    } else {
      assert a + b == b;
    }
  }

  // ---------------------------------------------------------------------------
  // The source's traversal and key munging

  /** The pairs the generator `flatten` yields for value p under the key
      path `prefixes` (innermost key first): a leaf or an empty dictionary
      yields itself; a non-empty dictionary yields the pairs of each entry,
      in entry order, with the entry's key pushed in front of the path. */
  function Flatten<V>(p: Param<V>, prefixes: Path): (r: seq<(Path, Param<V>)>)
    ensures forall i :: 0 <= i < |r| ==> |r[i].0| >= |prefixes|
    ensures p.Dict? && |p.entries| > 0 ==> forall i :: 0 <= i < |r| ==> |r[i].0| > |prefixes|
    ensures |r| > 0
    decreases p, 1
  {
    match p
    case Leaf(_) => [(prefixes, p)]
    case Dict(es) => if |es| == 0 then [(prefixes, p)] else FlattenFrom(p, 0, prefixes)
  }

  function FlattenFrom<V>(p: Param<V>, i: nat, prefixes: Path): (r: seq<(Path, Param<V>)>)
    requires p.Dict? && i <= |p.entries|
    ensures forall k :: 0 <= k < |r| ==> |r[k].0| > |prefixes|
    decreases p, 0, |p.entries| - i
  {
    if i == |p.entries| then []
    else Flatten(p.entries[i].1, [p.entries[i].0] + prefixes) + FlattenFrom(p, i + 1, prefixes)
  }

  /** An intermediate key gets the separator appended, unless it is empty or
      already ends with it. */
  function WithSep(key: string, sep: string): (r: string)
    ensures EndsWith(r, sep) || r == ""
  {
    if |key| > 0 && !EndsWith(key, sep) then
      assert (key + sep)[|key + sep| - |sep|..] == sep;
      key + sep
    else key
  }

  /** `munge`: the path outermost first, every key but the innermost passed
      through WithSep. */
  function Munge(keys: Path, sep: string): (r: seq<string>)
    requires |keys| > 0
    ensures |r| == |keys|
  {
    MungeOuter(keys[1..], sep) + [keys[0]]
  }

  /** The reversed intermediate keys, each through WithSep. */
  function MungeOuter(keys: Path, sep: string): (r: seq<string>)
    ensures |r| == |keys|
  {
    if |keys| == 0 then [] else MungeOuter(keys[1..], sep) + [WithSep(keys[0], sep)]
  }

  /** The joined key and value of every pair the traversal yields. */
  function Joined<V>(pairs: seq<(Path, Param<V>)>, sep: string): (r: seq<(string, Param<V>)>)
    requires forall i :: 0 <= i < |pairs| ==> |pairs[i].0| > 0
    ensures |r| == |pairs|
    ensures forall i :: 0 <= i < |pairs| ==> r[i] == (Concat(Munge(pairs[i].0, sep)), pairs[i].1)
  {
    if |pairs| == 0 then [] else [(Concat(Munge(pairs[0].0, sep)), pairs[0].1)] + Joined(pairs[1..], sep)
  }

  /** flatten_parameters(parameters, sep): an empty dictionary gives an empty
      result; otherwise every yielded pair is assigned under its joined key. */
  function FlattenParameters<V>(params: seq<(string, Param<V>)>, sep: string): (r: seq<(string, Param<V>)>)
    ensures |params| == 0 ==> r == []
  {
    if |params| == 0 then []
    else PutAll([], Joined(Flatten(Dict(params), []), sep))
  }

  // ---------------------------------------------------------------------------
  // Reference: leaf paths read outermost first, keys joined left to right

  /** Every leaf and every empty dictionary below p with its key path,
      outermost key first. */
  function LeafPaths<V>(p: Param<V>): (r: seq<(Path, Param<V>)>)
    decreases p, 1
  {
    match p
    case Leaf(_) => [([], p)]
    case Dict(es) => if |es| == 0 then [([], p)] else LeafPathsFrom(p, 0)
  }

  function LeafPathsFrom<V>(p: Param<V>, i: nat): (r: seq<(Path, Param<V>)>)
    requires p.Dict? && i <= |p.entries|
    decreases p, 0, |p.entries| - i
  {
    if i == |p.entries| then []
    else Under(p.entries[i].0, LeafPaths(p.entries[i].1)) + LeafPathsFrom(p, i + 1)
  }

  /** The paths of a sub-dictionary seen from its parent entry `key`. */
  function Under<V>(key: string, pairs: seq<(Path, Param<V>)>): (r: seq<(Path, Param<V>)>)
    ensures |r| == |pairs|
    ensures forall i :: 0 <= i < |pairs| ==> r[i] == ([key] + pairs[i].0, pairs[i].1)
  {
    if |pairs| == 0 then [] else [([key] + pairs[0].0, pairs[0].1)] + Under(key, pairs[1..])
  }

  /** The flat key of an outermost-first path: each key but the last followed
      by the separator (unless empty or already ending in it), then the last
      key verbatim. */
  function JoinPath(path: Path, sep: string): string
    requires |path| > 0
  {
    if |path| == 1 then path[0] else WithSep(path[0], sep) + JoinPath(path[1..], sep)
  }

  /** The reference's (flat key, value) pairs. */
  function JoinedPaths<V>(pairs: seq<(Path, Param<V>)>, sep: string): (r: seq<(string, Param<V>)>)
    requires forall i :: 0 <= i < |pairs| ==> |pairs[i].0| > 0
    ensures |r| == |pairs|
    ensures forall i :: 0 <= i < |pairs| ==> r[i] == (JoinPath(pairs[i].0, sep), pairs[i].1)
  {
    if |pairs| == 0 then [] else [(JoinPath(pairs[0].0, sep), pairs[0].1)] + JoinedPaths(pairs[1..], sep)
  }

  /** The traversal's innermost-first paths, given the prefixes above p. */
  function Reversed<V>(pairs: seq<(Path, Param<V>)>, prefixes: Path): (r: seq<(Path, Param<V>)>)
    ensures |r| == |pairs|
    ensures forall i :: 0 <= i < |pairs| ==> r[i] == (Reverse(pairs[i].0) + prefixes, pairs[i].1)
  {
    if |pairs| == 0 then [] else [(Reverse(pairs[0].0) + prefixes, pairs[0].1)] + Reversed(pairs[1..], prefixes)
  }

  lemma ReversedAppend<V>(a: seq<(Path, Param<V>)>, b: seq<(Path, Param<V>)>, prefixes: Path)
    ensures Reversed(a + b, prefixes) == Reversed(a, prefixes) + Reversed(b, prefixes)
  {
  }

  lemma ReverseCons<T>(x: T, s: seq<T>)
    ensures Reverse([x] + s) == Reverse(s) + [x]
  {
    assert ([x] + s)[1..] == s;
  }

  lemma ReversedUnder<V>(key: string, pairs: seq<(Path, Param<V>)>, prefixes: Path)
    ensures Reversed(Under(key, pairs), prefixes) == Reversed(pairs, [key] + prefixes)
  {
    forall i | 0 <= i < |pairs|
      ensures Reversed(Under(key, pairs), prefixes)[i] == Reversed(pairs, [key] + prefixes)[i]
    {
      ReverseCons(key, pairs[i].0);
      assert Reverse(pairs[i].0) + [key] + prefixes == Reverse(pairs[i].0) + ([key] + prefixes);
    }
  }

  /** The generator yields exactly the reference's leaf paths, in the same
      order, each reversed (innermost key first) and followed by the keys
      above p. */
  lemma {:induction false} FlattenIsLeafPaths<V>(p: Param<V>, prefixes: Path)
    ensures Flatten(p, prefixes) == Reversed(LeafPaths(p), prefixes)
    decreases p, 1
  {
    assert Reverse<string>([]) + prefixes == prefixes;
    match p
    case Leaf(_) =>
    case Dict(es) =>
      if |es| > 0 {
        FlattenFromIsLeafPaths(p, 0, prefixes);
      }
  }

  lemma {:induction false} FlattenFromIsLeafPaths<V>(p: Param<V>, i: nat, prefixes: Path)
    requires p.Dict? && i <= |p.entries|
    ensures FlattenFrom(p, i, prefixes) == Reversed(LeafPathsFrom(p, i), prefixes)
    decreases p, 0, |p.entries| - i
  {
    if i < |p.entries| {
      var key, child := p.entries[i].0, p.entries[i].1;
      FlattenIsLeafPaths(child, [key] + prefixes);
      FlattenFromIsLeafPaths(p, i + 1, prefixes);
      ReversedAppend(Under(key, LeafPaths(child)), LeafPathsFrom(p, i + 1), prefixes);
      ReversedUnder(key, LeafPaths(child), prefixes);
    }
  }

  /** Munging a reversed path joins it left to right. */
  lemma {:induction false} MungeJoins(path: Path, sep: string)
    requires |path| > 0
    ensures Concat(Munge(Reverse(path), sep)) == JoinPath(path, sep)
  {
    var n := |path|;
    var keys := Reverse(path);
    assert keys[1..] == Reverse(path[..n - 1]);
    MungeOuterInOrder(path[..n - 1], sep);
    JoinPathSplit(path, sep);
    ConcatAppend(MungeOuter(keys[1..], sep), [keys[0]]);
    assert Concat([keys[0]]) == keys[0] by {
      assert [keys[0]][1..] == [];
    }
  }

  /** The intermediate keys, outermost first, each through WithSep. */
  function Intermediates(path: Path, sep: string): (r: seq<string>)
    ensures |r| == |path|
  {
    if |path| == 0 then [] else [WithSep(path[0], sep)] + Intermediates(path[1..], sep)
  }

  lemma {:induction false} MungeOuterInOrder(path: Path, sep: string)
    ensures MungeOuter(Reverse(path), sep) == Intermediates(path, sep)
  {
    if |path| > 0 {
      var n := |path|;
      assert Reverse(path)[0] == path[n - 1];
      assert Reverse(path)[1..] == Reverse(path[..n - 1]);
      MungeOuterInOrder(path[..n - 1], sep);
      IntermediatesSnoc(path[..n - 1], path[n - 1], sep);
      assert path[..n - 1] + [path[n - 1]] == path;
    }
  }

  lemma {:induction false} IntermediatesSnoc(path: Path, key: string, sep: string)
    ensures Intermediates(path + [key], sep) == Intermediates(path, sep) + [WithSep(key, sep)]
  {
    if |path| > 0 {
      assert (path + [key])[1..] == path[1..] + [key];
      IntermediatesSnoc(path[1..], key, sep);
    } else {
      assert path + [key] == [key];
    }
  }

  lemma {:induction false} JoinPathSplit(path: Path, sep: string)
    requires |path| > 0
    ensures JoinPath(path, sep) == Concat(Intermediates(path[..|path| - 1], sep)) + path[|path| - 1]
  {
    if |path| > 1 {
      JoinPathSplit(path[1..], sep);
      assert path[1..][..|path| - 2] == path[..|path| - 1][1..];
    }
  }

  lemma JoinedMatches<V>(pairs: seq<(Path, Param<V>)>, sep: string)
    requires forall i :: 0 <= i < |pairs| ==> |pairs[i].0| > 0
    ensures Joined(Reversed(pairs, []), sep) == JoinedPaths(pairs, sep)
  {
    var rs := Reversed(pairs, []);
    forall i | 0 <= i < |pairs|
      ensures Joined(rs, sep)[i] == JoinedPaths(pairs, sep)[i]
    {
      assert rs[i].0 == Reverse(pairs[i].0);
      MungeJoins(pairs[i].0, sep);
    }
  }

  /** Every leaf path of a non-empty dictionary has at least one key. */
  lemma LeafPathsNonEmpty<V>(params: seq<(string, Param<V>)>)
    requires |params| > 0
    ensures forall i :: 0 <= i < |LeafPaths(Dict(params))| ==> |LeafPaths(Dict(params))[i].0| > 0
  {
    FlattenIsLeafPaths(Dict(params), []);
  }

  /** flatten_parameters assigns, in traversal order, each leaf's
      outermost-first path joined by JoinPath. */
  lemma FlattenParametersReference<V>(params: seq<(string, Param<V>)>, sep: string)
    requires |params| > 0
    ensures forall i :: 0 <= i < |LeafPaths(Dict(params))| ==> |LeafPaths(Dict(params))[i].0| > 0
    ensures FlattenParameters(params, sep) == PutAll([], JoinedPaths(LeafPaths(Dict(params)), sep))
  {
    LeafPathsNonEmpty(params);
    FlattenIsLeafPaths(Dict(params), []);
    JoinedMatches(LeafPaths(Dict(params)), sep);
  }

  /** The flat dictionary has one entry per distinct joined leaf path, and
      each holds the value of the last leaf whose path joins to that key. */
  lemma FlattenParametersContents<V>(params: seq<(string, Param<V>)>, sep: string, key: string)
    requires |params| > 0
    ensures var leaves := LeafPaths(Dict(params));
            && (forall i :: 0 <= i < |leaves| ==> |leaves[i].0| > 0)
            && Distinct(Keys(FlattenParameters(params, sep)))
            && (key in Keys(FlattenParameters(params, sep)) <==>
                  exists i :: 0 <= i < |leaves| && JoinPath(leaves[i].0, sep) == key)
            && Lookup(FlattenParameters(params, sep), key) == LastValue(JoinedPaths(leaves, sep), key)
  {
    var leaves := LeafPaths(Dict(params));
    FlattenParametersReference(params, sep);
    var pairs := JoinedPaths(leaves, sep);
    PutAllKeys([], pairs);
    PutAllLookup([], pairs, key);
    if key in Keys(pairs) {
      var i :| 0 <= i < |pairs| && Keys(pairs)[i] == key;
      assert JoinPath(leaves[i].0, sep) == key;
    }
    if exists i :: 0 <= i < |leaves| && JoinPath(leaves[i].0, sep) == key {
      var i :| 0 <= i < |leaves| && JoinPath(leaves[i].0, sep) == key;
      assert Keys(pairs)[i] == key;
    }
  }

  // ---------------------------------------------------------------------------
  // The examples of the docstring and the edge cases of the traversal

  lemma FlattenOne<V>(k: string, p: Param<V>, prefixes: Path)
    ensures Flatten(Dict([(k, p)]), prefixes) == Flatten(p, [k] + prefixes)
  {
    assert FlattenFrom(Dict([(k, p)]), 1, prefixes) == [];
  }

  lemma FlattenTwo<V>(k1: string, p1: Param<V>, k2: string, p2: Param<V>, prefixes: Path)
    ensures Flatten(Dict([(k1, p1), (k2, p2)]), prefixes) == Flatten(p1, [k1] + prefixes) + Flatten(p2, [k2] + prefixes)
  {
    var d := Dict([(k1, p1), (k2, p2)]);
    assert FlattenFrom(d, 2, prefixes) == [];
    assert FlattenFrom(d, 1, prefixes) == Flatten(p2, [k2] + prefixes);
  }

  lemma ConcatTwo(a: string, b: string)
    ensures Concat([a, b]) == a + b
  {
    assert [a, b][1..] == [b];
    assert [b][1..] == [];
    assert Concat([b]) == b + Concat([]);
    assert b + "" == b;
  }

  lemma ConcatThree(a: string, b: string, c: string)
    ensures Concat([a, b, c]) == a + b + c
  {
    assert [a, b, c][1..] == [b, c];
    ConcatTwo(b, c);
  }

  lemma JoinOne(k: string, sep: string)
    ensures Concat(Munge([k], sep)) == k
  {
    assert [k][1..] == [];
    assert Munge([k], sep) == [k];
    assert Concat([k]) == k + "";
    assert k + "" == k;
  }

  lemma JoinTwo(k1: string, k2: string, sep: string)
    ensures Concat(Munge([k2, k1], sep)) == WithSep(k1, sep) + k2
  {
    assert [k2, k1][1..] == [k1];
    assert MungeOuter([k1], sep) == [WithSep(k1, sep)] by {
      assert [k1][1..] == [];
    }
    assert Munge([k2, k1], sep) == [WithSep(k1, sep), k2];
    ConcatTwo(WithSep(k1, sep), k2);
  }

  lemma JoinThree(k1: string, k2: string, k3: string, sep: string)
    ensures Concat(Munge([k3, k2, k1], sep)) == WithSep(k1, sep) + WithSep(k2, sep) + k3
  {
    assert [k3, k2, k1][1..] == [k2, k1];
    assert MungeOuter([k2, k1], sep) == [WithSep(k1, sep), WithSep(k2, sep)] by {
      assert [k2, k1][1..] == [k1];
      assert [k1][1..] == [];
    }
    assert Munge([k3, k2, k1], sep) == [WithSep(k1, sep), WithSep(k2, sep), k3];
    ConcatThree(WithSep(k1, sep), WithSep(k2, sep), k3);
  }

  lemma PutThree<V>(x: string, u: V, y: string, v: V, z: string, w: V)
    requires x != y && y != z && x != z
    ensures PutAll([], [(x, u), (y, v), (z, w)]) == [(x, u), (y, v), (z, w)]
  {
    var ps := [(x, u), (y, v), (z, w)];
    assert ps[1..] == [(y, v), (z, w)] && ps[1..][1..] == [(z, w)] && ps[1..][1..][1..] == [];
    assert Put([], x, u) == [(x, u)];
    assert Put([(x, u)], y, v) == [(x, u), (y, v)] by {
      assert [(x, u)][1..] == [];
      assert Put([(x, u)], y, v) == [(x, u)] + Put([], y, v);
    }
    assert Put([(x, u), (y, v)], z, w) == [(x, u), (y, v), (z, w)] by {
      assert [(x, u), (y, v)][1..] == [(y, v)];
      assert [(y, v)][1..] == [];
      assert Put([(y, v)], z, w) == [(y, v)] + Put([], z, w);
      assert Put([(x, u), (y, v)], z, w) == [(x, u)] + Put([(y, v)], z, w);
    }
    assert PutAll([], ps) == PutAll([(x, u)], ps[1..]);
    assert PutAll([(x, u)], ps[1..]) == PutAll([(x, u), (y, v)], ps[1..][1..]);
    assert PutAll([(x, u), (y, v)], ps[1..][1..]) == PutAll([(x, u), (y, v), (z, w)], []);
  }

  /** The docstring's shape: {k1: {k2: {k3: c}, k4: d}, k5: e} flattens to
      the three keys k1 k2 k3, k1 k4 and k5 joined by WithSep, in this order,
      when they differ. */
  lemma NestedShape<V>(k1: string, k2: string, k3: string, k4: string, k5: string, c: V, d: V, e: V, sep: string)
    requires var x, y := WithSep(k1, sep) + WithSep(k2, sep) + k3, WithSep(k1, sep) + k4;
             x != y && y != k5 && x != k5
    ensures FlattenParameters([(k1, Dict([(k2, Dict([(k3, Leaf(c))])), (k4, Leaf(d))])), (k5, Leaf(e))], sep)
            == [(WithSep(k1, sep) + WithSep(k2, sep) + k3, Leaf(c)), (WithSep(k1, sep) + k4, Leaf(d)), (k5, Leaf(e))]
  {
    var inner := Dict([(k3, Leaf(c))]);
    var mid := Dict([(k2, inner), (k4, Leaf(d))]);
    FlattenTwo(k1, mid, k5, Leaf(e), []);
    FlattenTwo(k2, inner, k4, Leaf(d), [k1] + []);
    FlattenOne(k3, Leaf(c), [k2] + ([k1] + []));
    assert [k3] + ([k2] + ([k1] + [])) == [k3, k2, k1];
    assert [k4] + ([k1] + []) == [k4, k1];
    assert [k5] + [] == [k5];
    var pairs := [([k3, k2, k1], Leaf(c)), ([k4, k1], Leaf(d)), ([k5], Leaf(e))];
    assert Flatten(Dict([(k1, mid), (k5, Leaf(e))]), []) == pairs;
    JoinThree(k1, k2, k3, sep);
    JoinTwo(k1, k4, sep);
    JoinOne(k5, sep);
    assert Joined(pairs, sep) == [(WithSep(k1, sep) + WithSep(k2, sep) + k3, Leaf(c)), (WithSep(k1, sep) + k4, Leaf(d)), (k5, Leaf(e))];
    PutThree(WithSep(k1, sep) + WithSep(k2, sep) + k3, Leaf(c), WithSep(k1, sep) + k4, Leaf(d), k5, Leaf(e));
  }

  /** {"a": {"b": {"c": 4}, "d": 2}, "e": 1} flattens to
      {"a_b_c": 4, "a_d": 2, "e": 1}, and so does the same dictionary with
      "a_" for "a": a key already ending in the separator gets no second one. */
  lemma DocstringExamples(a: string, aSep: string)
    requires a == "a" && aSep == "a_"
    ensures FlattenParameters([(a, Dict([("b", Dict([("c", Leaf(4))])), ("d", Leaf(2))])), ("e", Leaf(1))], "_")
            == [("a_b_c", Leaf(4)), ("a_d", Leaf(2)), ("e", Leaf(1))]
    ensures FlattenParameters([(aSep, Dict([("b", Dict([("c", Leaf(4))])), ("d", Leaf(2))])), ("e", Leaf(1))], "_")
            == [("a_b_c", Leaf(4)), ("a_d", Leaf(2)), ("e", Leaf(1))]
  {
    assert WithSep(a, "_") == "a_";
    assert WithSep(aSep, "_") == "a_";
    assert WithSep("b", "_") == "b_";
    assert "a_" + "b_" + "c" == "a_b_c" && "a_" + "d" == "a_d";
    assert "a_b_c" != "a_d" && "a_d" != "e" && "a_b_c" != "e";
    NestedShape(a, "b", "c", "d", "e", 4, 2, 1, "_");
    NestedShape(aSep, "b", "c", "d", "e", 4, 2, 1, "_");
  }

  /** A nested empty dictionary is not dropped: it comes back, as an empty
      dictionary, under its joined key. */
  lemma EmptyNestedKept<V>(k1: string, k2: string, sep: string)
    ensures FlattenParameters([(k1, Dict([(k2, Param<V>.Dict([]))]))], sep) == [(WithSep(k1, sep) + k2, Dict([]))]
  {
    var empty: Param<V> := Dict([]);
    FlattenOne(k1, Dict([(k2, empty)]), []);
    FlattenOne(k2, empty, [k1] + []);
    assert [k2] + ([k1] + []) == [k2, k1];
    var pairs := [([k2, k1], empty)];
    assert Flatten(Dict([(k1, Dict([(k2, empty)]))]), []) == pairs;
    JoinTwo(k1, k2, sep);
    assert Joined(pairs, sep) == [(WithSep(k1, sep) + k2, empty)];
    var joined := [(WithSep(k1, sep) + k2, empty)];
    assert joined[1..] == [];
    assert PutAll([], joined) == PutAll(Put([], WithSep(k1, sep) + k2, empty), []);
  }

  /** Two leaves whose paths join to the same key leave one entry, holding
      the later value ("a" and "a_" both join with "b" to "a_b"). */
  lemma LaterDuplicateWins<V>(k1: string, k2: string, k3: string, u: V, v: V, sep: string)
    requires WithSep(k1, sep) == WithSep(k2, sep)
    ensures FlattenParameters([(k1, Dict([(k3, Leaf(u))])), (k2, Dict([(k3, Leaf(v))]))], sep)
            == [(WithSep(k1, sep) + k3, Leaf(v))]
  {
    FlattenTwo(k1, Dict([(k3, Leaf(u))]), k2, Dict([(k3, Leaf(v))]), []);
    FlattenOne(k3, Leaf(u), [k1] + []);
    FlattenOne(k3, Leaf(v), [k2] + []);
    assert [k3] + ([k1] + []) == [k3, k1] && [k3] + ([k2] + []) == [k3, k2];
    var pairs := [([k3, k1], Leaf(u)), ([k3, k2], Leaf(v))];
    assert Flatten(Dict([(k1, Dict([(k3, Leaf(u))])), (k2, Dict([(k3, Leaf(v))]))]), []) == pairs;
    JoinTwo(k1, k3, sep);
    JoinTwo(k2, k3, sep);
    var x := WithSep(k1, sep) + k3;
    var joined := [(x, Leaf(u)), (x, Leaf(v))];
    assert Joined(pairs, sep) == joined;
    assert joined[1..] == [(x, Leaf(v))] && joined[1..][1..] == [];
    assert Put([(x, Leaf(u))], x, Leaf(v)) == [(x, Leaf(v))];
    assert PutAll([], joined) == PutAll([(x, Leaf(u))], joined[1..]);
  }

  /** Concretely: {"a": {"b": 1}, "a_": {"b": 2}} gives {"a_b": 2}. */
  lemma DuplicateExample(a: string, aSep: string)
    requires a == "a" && aSep == "a_"
    ensures FlattenParameters([(a, Dict([("b", Leaf(1))])), (aSep, Dict([("b", Leaf(2))]))], "_")
            == [("a_b", Leaf(2))]
  {
    assert WithSep(a, "_") == "a_";
    assert WithSep(aSep, "_") == "a_";
    assert WithSep(a, "_") + "b" == "a_b";
    LaterDuplicateWins(a, aSep, "b", 1, 2, "_");
  }
}
