/** Decoded JSON values and what is somewhere inside them. */
module JsonTrees {
  import opened Sources

  /** Object fields have no order; walks take them in any. */
  datatype Json =
    | Null
    | Bool(b: bool)
    | Number(n: string)
    | Str(s: string)
    | Arr(items: seq<Json>)
    | Obj(fields: map<string, Json>)

  datatype Step = Item(index: nat) | Field(key: string)

  function Child(v: Json, step: Step): Option<Json> {
    match step
    case Item(i) => if v.Arr? && i < |v.items| then Some(v.items[i]) else None
    case Field(k) => if v.Obj? && k in v.fields then Some(v.fields[k]) else None
  }

  /** The value at the end of a path. */
  function At(v: Json, path: seq<Step>): Option<Json> {
    if path == [] then Some(v)
    else
      var child := Child(v, path[0]);
      if child.None? then None else At(child.value, path[1..])
  }

  /** Some node at some depth, the root included, has the property. */
  ghost predicate Somewhere(v: Json, p: Json -> bool) {
    exists path :: At(v, path).Some? && p(At(v, path).value)
  }

  /** A property is somewhere in a tree exactly if the root or something below a child has it. */
  lemma SomewhereByChildren(v: Json, p: Json -> bool)
    ensures Somewhere(v, p) <==> p(v) || exists step :: Child(v, step).Some? && Somewhere(Child(v, step).value, p)
  {
    if Somewhere(v, p) {
      var path :| At(v, path).Some? && p(At(v, path).value);
      if path != [] {
        assert At(v, path) == At(Child(v, path[0]).value, path[1..]);
        assert Somewhere(Child(v, path[0]).value, p);
      }
    }
    if p(v) {
      assert At(v, []) == Some(v);
    } else if exists step :: Child(v, step).Some? && Somewhere(Child(v, step).value, p) {
      var step :| Child(v, step).Some? && Somewhere(Child(v, step).value, p);
      var path :| At(Child(v, step).value, path).Some? && p(At(Child(v, step).value, path).value);
      assert ([step] + path)[1..] == path;
      assert At(v, [step] + path) == At(Child(v, step).value, path);
    }
  }

  /** The same, by the kind of the root. */
  lemma SomewhereInside(v: Json, p: Json -> bool)
    ensures v.Arr? ==> (Somewhere(v, p) <==> p(v) || exists i: nat :: i < |v.items| && Somewhere(v.items[i], p))
    ensures v.Obj? ==> (Somewhere(v, p) <==> p(v) || exists k :: k in v.fields && Somewhere(v.fields[k], p))
    ensures !v.Arr? && !v.Obj? ==> (Somewhere(v, p) <==> p(v))
  {
    hide Somewhere;
    SomewhereByChildren(v, p);
    forall i: nat | v.Arr? && i < |v.items| ensures Child(v, Item(i)) == Some(v.items[i]) {}
    forall k | v.Obj? && k in v.fields ensures Child(v, Field(k)) == Some(v.fields[k]) {}
  }
}
