/** Default-initialised objects, and references into objects. */
module CdrObjects {
  import opened Options
  import opened CdrTypes

  function Copies<T>(n: nat, v: T): (s: seq<T>)
    ensures |s| == n && forall i | 0 <= i < n :: s[i] == v
  {
    seq(n, _ => v)
  }

  /** A default-initialised object of type t. */
  function Default(t: Type): (v: Value)
    decreases t
  {
    match t
    case Basic(_) => Scalar(0)
    case Text(_) => Chars([])
    case WideText(_) => WideChars([])
    case Named(members) => Record(Defaults(members))
    case Array(elem, size) => List(Copies(size, Default(elem)))
    case Sequence(_, _) => List([])
  }

  function Defaults(types: seq<Type>): seq<Value>
    decreases types
  {
    if types == [] then [] else [Default(types[0])] + Defaults(types[1..])
  }

  /** The members of a message or the elements of a container. */
  function Parts(v: Value): seq<Value> {
    match v
    case Record(fields) => fields
    case List(elems) => elems
    case _ => []
  }

  function WithParts(v: Value, parts: seq<Value>): Value {
    match v
    case Record(_) => Record(parts)
    case List(_) => List(parts)
    case _ => v
  }

  /** A reference into an object: the positions to follow from its root. */
  type Path = seq<nat>

  function At(v: Value, path: Path): Option<Value> {
    if path == [] then Some(v)
    else if path[0] < |Parts(v)| then At(Parts(v)[path[0]], path[1..])
    else None
  }

  function Replace(v: Value, path: Path, part: Value): Value {
    if path == [] then part
    else if path[0] < |Parts(v)| then
      WithParts(v, Parts(v)[path[0] := Replace(Parts(v)[path[0]], path[1..], part)])
    else v
  }

  lemma {:induction false} ReplaceThenAt(v: Value, path: Path, w: Value)
    requires At(v, path).Some?
    ensures At(Replace(v, path, w), path) == Some(w)
  {
    if path != [] {
      ReplaceThenAt(Parts(v)[path[0]], path[1..], w);
    }
  }

  lemma {:induction false} ReplaceAgain(v: Value, path: Path, w: Value, x: Value)
    requires At(v, path).Some?
    ensures Replace(Replace(v, path, w), path, x) == Replace(v, path, x)
  {
    if path != [] {
      ReplaceAgain(Parts(v)[path[0]], path[1..], w, x);
      var parts := Parts(v);
      assert parts[path[0] := Replace(parts[path[0]], path[1..], w)][path[0] := Replace(parts[path[0]], path[1..], x)]
          == parts[path[0] := Replace(parts[path[0]], path[1..], x)];
    }
  }

  lemma {:induction false} ReplaceSame(v: Value, path: Path)
    requires At(v, path).Some?
    ensures Replace(v, path, At(v, path).value) == v
  {
    if path != [] {
      ReplaceSame(Parts(v)[path[0]], path[1..]);
      assert Parts(v)[path[0] := Parts(v)[path[0]]] == Parts(v);
    }
  }

  /** A reference to a part of what a path refers to. */
  lemma {:induction false} AtPart(v: Value, path: Path, k: nat)
    requires At(v, path).Some? && k < |Parts(At(v, path).value)|
    ensures At(v, path + [k]) == Some(Parts(At(v, path).value)[k])
  {
    if path == [] {
      assert (path + [k])[1..] == [];
    } else {
      AtPart(Parts(v)[path[0]], path[1..], k);
      assert (path + [k])[1..] == path[1..] + [k];
    }
  }

  lemma {:induction false} ReplacePart(v: Value, path: Path, k: nat, w: Value)
    requires At(v, path).Some? && k < |Parts(At(v, path).value)|
    ensures var target := At(v, path).value;
            Replace(v, path + [k], w) == Replace(v, path, WithParts(target, Parts(target)[k := w]))
  {
    if path == [] {
      assert (path + [k])[1..] == [];
    } else {
      ReplacePart(Parts(v)[path[0]], path[1..], k, w);
      assert (path + [k])[1..] == path[1..] + [k];
    }
  }

  /** After a part has been filled in, the object at `path` has that part. */
  lemma PartFilled(v: Value, path: Path, k: nat, w: Value)
    requires At(v, path).Some? && k < |Parts(At(v, path).value)|
    ensures var target := At(v, path).value;
            At(Replace(v, path + [k], w), path) == Some(WithParts(target, Parts(target)[k := w]))
  {
    var target := At(v, path).value;
    ReplacePart(v, path, k, w);
    ReplaceThenAt(v, path, WithParts(target, Parts(target)[k := w]));
  }

  /** Filling in a whole object makes up for filling in a part of it before. */
  lemma PartThenWhole(v: Value, path: Path, k: nat, w: Value, x: Value)
    requires At(v, path).Some? && k < |Parts(At(v, path).value)|
    ensures Replace(Replace(v, path + [k], w), path, x) == Replace(v, path, x)
  {
    var target := At(v, path).value;
    ReplacePart(v, path, k, w);
    ReplaceAgain(v, path, WithParts(target, Parts(target)[k := w]), x);
  }

  /** The first n elements a resized sequence keeps, default elements after them. */
  function Resized(elems: seq<Value>, n: nat, elem: Type): (s: seq<Value>)
    ensures |s| == n
  {
    if n <= |elems| then elems[..n] else elems + Copies(n - |elems|, Default(elem))
  }

  lemma {:induction false} DefaultHasShape(t: Type)
    ensures HasShape(t, Default(t))
  {
    match t
    case Named(members) => DefaultsHaveShapes(members);
    case Array(elem, _) => DefaultHasShape(elem);
    case _ =>
  }

  lemma {:induction false} DefaultsHaveShapes(types: seq<Type>)
    ensures HaveShapes(types, Defaults(types))
  {
    if types != [] {
      DefaultHasShape(types[0]);
      DefaultsHaveShapes(types[1..]);
      var values := Defaults(types);
      forall i | 0 <= i < |types| ensures HasShape(types[i], values[i]) {
        if i > 0 {
          assert types[i] == types[1..][i - 1];
        }
      }
    }
  }

  lemma ResizedHasShape(elems: seq<Value>, n: nat, t: Type)
    requires AllHaveShape(t, elems)
    ensures AllHaveShape(t, Resized(elems, n, t))
  {
    DefaultHasShape(t);
  }

  lemma ElementThenRest(original: Value, path: Path, elems: seq<Value>, k: nat, v: Value, values: seq<Value>)
    requires At(original, path) == Some(List(elems)) && k < |elems|
    ensures Replace(Replace(original, path + [k], v), path, List(elems[k := v][..k + 1] + values))
         == Replace(original, path, List(elems[..k] + ([v] + values)))
  {
    PartThenWhole(original, path, k, v, List(elems[k := v][..k + 1] + values));
    assert elems[k := v][..k + 1] + values == elems[..k] + ([v] + values);
  }
}
