/**
 What merging keeps, for every JSON value of every shape: the static type of the instance,
 everything the JSON does not name, and the result itself when the same JSON is merged again.
 */
module FromJsonProperties {
  import opened JsonValues
  import opened Reflection
  import opened FromJson

  // ---------------------------------------------------------------------------------------
  // Types are kept at every depth
  // ---------------------------------------------------------------------------------------

  lemma {:induction false} MergeKeepsType(w: World, t: Type, v: Value, j: Json)
    requires WorldOk(w) && TypeOk(w, t) && HasType(w, v, t)
    ensures HasType(w, MergeProperty(w, t, v, j), t)
    ensures HasType(w, MergeElement(w, t, v, j), t)
    decreases j, 2
  {
    if j.JArray? {
      if t.TSeq? {
        MergeSeqKeepsType(w, t.elem, v.elems, j);
        assert HasType(w, VSeq(MergeSeq(w, t.elem, v.elems, j)), t);
      } else if t.TMap? || t.TSet? {
        MergeAssocKeepsType(w, t, v, j, |j.elems|);
      }
    } else if j.JObject? {
      MergeObjectKeepsType(w, t, v, j);
    }
  }

  lemma {:induction false} MergeSeqKeepsType(w: World, t: Type, elems: seq<Value>, j: Json)
    requires WorldOk(w) && TypeOk(w, t) && j.JArray?
    requires forall i :: 0 <= i < |elems| ==> HasType(w, elems[i], t)
    ensures forall i :: 0 <= i < |MergeSeq(w, t, elems, j)| ==> HasType(w, MergeSeq(w, t, elems, j)[i], t)
    decreases j, 1
  {
    DefaultHasType(w, t);
    var slots := Resized(w, t, elems, |j.elems|);
    forall i | 0 <= i < |j.elems|
      ensures HasType(w, MergeSeq(w, t, elems, j)[i], t)
    {
      MergeKeepsType(w, t, slots[i], j.elems[i]);
    }
  }

  lemma {:induction false} MergeObjectKeepsType(w: World, t: Type, v: Value, j: Json)
    requires WorldOk(w) && TypeOk(w, t) && HasType(w, v, t)
    ensures HasType(w, MergeObject(w, t, v, j), t)
    decreases j, 1
  {
    if v.VObj? && j.JObject? {
      var props := Properties(w, t);
      assert ClassOk(w, t.cls);
      var r := MergeObject(w, t, v, j);
      forall i | 0 <= i < |props|
        ensures props[i].name in r.fields && HasType(w, r.fields[props[i].name], props[i].ty)
      {
        FindPropertyAt(props, i);
        if props[i].name in j.members {
          MergeKeepsType(w, props[i].ty, v.fields[props[i].name], j.members[props[i].name]);
        }
      }
      assert r.fields.Keys == v.fields.Keys;
    }
  }

  lemma {:induction false} ExtractHasType(w: World, t: Type, j: Json)
    requires WorldOk(w) && TypeOk(w, t)
    ensures Extract(w, t, j).Typed? ==> HasType(w, Extract(w, t, j).value, t)
    decreases j, 2
  {
    if t.TClass? {
      assert ClassOk(w, t.cls);
      MergeObjectKeepsType(w, t, w.classes[t.cls].init, j);
    }
  }

  lemma {:induction false} MergeAssocKeepsType(w: World, t: Type, c: Value, j: Json, n: nat)
    requires WorldOk(w) && TypeOk(w, t) && HasType(w, c, t) && (t.TMap? || t.TSet?)
    requires j.JArray? && n <= |j.elems|
    ensures HasType(w, MergeAssoc(w, t, c, j, n), t)
    decreases j, 0, n
  {
    if n > 0 {
      MergeAssocKeepsType(w, t, c, j, n - 1);
      StepKeepsType(w, t, MergeAssoc(w, t, c, j, n - 1), j.elems[n - 1]);
    }
  }

  lemma {:induction false} StepKeepsType(w: World, t: Type, c: Value, e: Json)
    requires WorldOk(w) && TypeOk(w, t) && HasType(w, c, t) && (t.TMap? || t.TSet?)
    ensures HasType(w, AssocStep(w, t, c, e), t)
    decreases e, 3
  {
    if Has(e, "key") && Has(e, "value") {
      var k := Extract(w, t.key, e.members["key"]);
      var v := Extract(w, ValueType(t), e.members["value"]);
      ExtractHasType(w, t.key, e.members["key"]);
      ExtractHasType(w, ValueType(t), e.members["value"]);
      InsertKeepsType(w, t, c, k, v);
    } else if !e.JObject? {
      var k := Convert(w, e, t.key);
    }
  }

  lemma InsertKeepsType(w: World, t: Type, c: Value, k: Variant, v: Variant)
    requires (t.TMap? || t.TSet?) && HasType(w, c, t)
    requires k.Typed? ==> HasType(w, k.value, t.key)
    requires v.Typed? ==> HasType(w, v.value, ValueType(t))
    ensures HasType(w, InsertPair(c, k, v), t)
  {
  }

  // ---------------------------------------------------------------------------------------
  // Merging is idempotent
  // ---------------------------------------------------------------------------------------

  /** Merging the same JSON a second time changes nothing. */
  lemma {:induction false} MergeIdempotent(w: World, t: Type, v: Value, j: Json)
    requires WorldOk(w) && TypeOk(w, t) && HasType(w, v, t)
    ensures MergeProperty(w, t, MergeProperty(w, t, v, j), j) == MergeProperty(w, t, v, j)
    ensures MergeElement(w, t, MergeElement(w, t, v, j), j) == MergeElement(w, t, v, j)
    decreases j, 2
  {
    if j.JArray? {
      if t.TSeq? {
        MergeSeqIdempotent(w, t.elem, v.elems, j);
      } else if t.TMap? || t.TSet? {
        MergeAssocKeepsType(w, t, v, j, |j.elems|);
        MergeAssocAbsorbs(w, t, v, j, |j.elems|);
      }
    } else if j.JObject? {
      MergeObjectIdempotent(w, t, v, j);
    }
  }

  lemma {:induction false} MergeSeqIdempotent(w: World, t: Type, elems: seq<Value>, j: Json)
    requires WorldOk(w) && TypeOk(w, t) && j.JArray?
    requires forall i :: 0 <= i < |elems| ==> HasType(w, elems[i], t)
    ensures MergeSeq(w, t, MergeSeq(w, t, elems, j), j) == MergeSeq(w, t, elems, j)
    decreases j, 1
  {
    DefaultHasType(w, t);
    var slots := Resized(w, t, elems, |j.elems|);
    var once := MergeSeq(w, t, elems, j);
    var twice := MergeSeq(w, t, once, j);
    forall i | 0 <= i < |j.elems|
      ensures twice[i] == once[i]
    {
      MergeIdempotent(w, t, slots[i], j.elems[i]);
    }
  }

  lemma {:induction false} MergeObjectIdempotent(w: World, t: Type, v: Value, j: Json)
    requires WorldOk(w) && TypeOk(w, t) && HasType(w, v, t)
    ensures MergeObject(w, t, MergeObject(w, t, v, j), j) == MergeObject(w, t, v, j)
    decreases j, 1
  {
    if v.VObj? && j.JObject? {
      var props := Properties(w, t);
      assert ClassOk(w, t.cls);
      var once := MergeObject(w, t, v, j);
      forall name | name in v.fields
        ensures MergedField(w, t, once, j, name) == once.fields[name]
      {
        if FindProperty(props, name).Some? && name in j.members {
          FindPropertyListed(props, name);
          MergeIdempotent(w, FindProperty(props, name).value.ty, v.fields[name], j.members[name]);
        }
      }
      FixedFields(w, t, once, j);
    }
  }

  /** What `MergeObject` makes of one field. */
  function MergedField(w: World, t: Type, v: Value, j: Json, name: string): Value
    requires v.VObj? && j.JObject? && name in v.fields
  {
    var p := FindProperty(Properties(w, t), name);
    if p.Some? && name in j.members then MergeProperty(w, p.value.ty, v.fields[name], j.members[name])
    else v.fields[name]
  }

  lemma FixedFields(w: World, t: Type, v: Value, j: Json)
    requires v.VObj? && j.JObject?
    requires forall name :: name in v.fields ==> MergedField(w, t, v, j, name) == v.fields[name]
    ensures MergeObject(w, t, v, j) == v
  {
    var r := MergeObject(w, t, v, j);
    forall name | name in v.fields
      ensures r.fields[name] == v.fields[name]
    {
      assert r.fields[name] == MergedField(w, t, v, j, name);
    }
    assert r.fields == v.fields;
  }

  /** Once `AssocStep` has met an element, meeting it again changes nothing, whatever was
      inserted in between. */
  lemma {:induction false} StepAbsorbed(w: World, t: Type, c: Value, j: Json, n: nat, i: nat)
    requires t.TMap? || t.TSet?
    requires j.JArray? && i < n <= |j.elems|
    requires HasType(w, c, t)
    ensures AssocStep(w, t, MergeAssoc(w, t, c, j, n), j.elems[i]) == MergeAssoc(w, t, c, j, n)
    decreases n
  {
    var c' := MergeAssoc(w, t, c, j, n - 1);
    MergeAssocKeepsKind(w, t, c, j, n - 1);
    if i < n - 1 {
      StepAbsorbed(w, t, c, j, n - 1, i);
    }
    StepTwice(w, t, c', j.elems[n - 1], j.elems[i], i == n - 1);
  }

  lemma StepTwice(w: World, t: Type, c: Value, e: Json, f: Json, same: bool)
    requires t.TMap? || t.TSet?
    requires (c.VMap? && t.TMap?) || (c.VSet? && t.TSet?)
    requires if same then e == f else AssocStep(w, t, c, f) == c
    ensures AssocStep(w, t, AssocStep(w, t, c, e), f) == AssocStep(w, t, c, e)
  {
    if c.VSet? && !f.JObject? && !same {
      var k := Convert(w, f, t.key);
      if k.Some? {
        assert k.value in c.keys;
        var c' := AssocStep(w, t, c, e);
        assert c'.keys + {k.value} == c'.keys;
      }
    }
  }

  lemma {:induction false} MergeAssocKeepsKind(w: World, t: Type, c: Value, j: Json, n: nat)
    requires t.TMap? || t.TSet?
    requires j.JArray? && n <= |j.elems| && HasType(w, c, t)
    ensures if t.TMap? then MergeAssoc(w, t, c, j, n).VMap? else MergeAssoc(w, t, c, j, n).VSet?
    decreases n
  {
    if n > 0 {
      MergeAssocKeepsKind(w, t, c, j, n - 1);
    }
  }

  lemma {:induction false} MergeAssocAbsorbs(w: World, t: Type, c: Value, j: Json, n: nat)
    requires t.TMap? || t.TSet?
    requires j.JArray? && n <= |j.elems| && HasType(w, c, t)
    ensures MergeAssoc(w, t, MergeAssoc(w, t, c, j, |j.elems|), j, n) == MergeAssoc(w, t, c, j, |j.elems|)
    decreases n
  {
    if n > 0 {
      MergeAssocAbsorbs(w, t, c, j, n - 1);
      StepAbsorbed(w, t, c, j, |j.elems|, n - 1);
    }
  }

  // ---------------------------------------------------------------------------------------
  // What the JSON does not name stays as it was, at every depth
  // ---------------------------------------------------------------------------------------

  datatype Place = Field(name: string) | Element(index: nat)

  /** The value at the end of a path of properties and sequence elements. */
  function ValueAt(v: Value, path: seq<Place>): Option<Value> {
    if path == [] then Some(v)
    else
      match path[0]
      case Field(name) => if v.VObj? && name in v.fields then ValueAt(v.fields[name], path[1..]) else None
      case Element(i) => if v.VSeq? && i < |v.elems| then ValueAt(v.elems[i], path[1..]) else None
  }

  /** Along the path, the JSON's nested objects and arrays come to an object without the next
      name; an array on the way is long enough to keep the element. */
  predicate Lacks(j: Json, path: seq<Place>) {
    path != [] &&
    match path[0]
    case Field(name) => j.JObject? && (name in j.members ==> Lacks(j.members[name], path[1..]))
    case Element(i) => j.JArray? && i < |j.elems| && Lacks(j.elems[i], path[1..])
  }

  /** A property that the JSON does not name keeps its value, however deep it lies in nested
      objects and in the elements that a sequence keeps. */
  lemma UnnamedIsUnchanged(w: World, t: Type, v: Value, j: Json, path: seq<Place>)
    requires WorldOk(w) && TypeOk(w, t) && HasType(w, v, t) && j.JObject? && Lacks(j, path) && ValueAt(v, path).Some?
    ensures ValueAt(MergeObject(w, t, v, j), path) == ValueAt(v, path)
  {
    PlaceIsUnchanged(w, t, v, j, path);
  }

  /** The same for whatever property or element is merged with `j`. */
  lemma {:induction false} PlaceIsUnchanged(w: World, t: Type, v: Value, j: Json, path: seq<Place>)
    requires WorldOk(w) && TypeOk(w, t) && HasType(w, v, t) && Lacks(j, path) && ValueAt(v, path).Some?
    ensures ValueAt(MergeProperty(w, t, v, j), path) == ValueAt(v, path)
    decreases path
  {
    if path[0].Element? {
      ElementIsUnchanged(w, t, v, j, path);
    } else if path[0].name in j.members {
      var name, props := path[0].name, Properties(w, t);
      assert ClassOk(w, t.cls);
      if FindProperty(props, name).Some? {
        FindPropertyListed(props, name);
        PlaceIsUnchanged(w, FindProperty(props, name).value.ty, v.fields[name], j.members[name], path[1..]);
      }
    }
  }

  lemma {:induction false} ElementIsUnchanged(w: World, t: Type, v: Value, j: Json, path: seq<Place>)
    requires WorldOk(w) && TypeOk(w, t) && HasType(w, v, t) && Lacks(j, path) && ValueAt(v, path).Some?
    requires path[0].Element?
    ensures ValueAt(MergeProperty(w, t, v, j), path) == ValueAt(v, path)
    decreases path, 0
  {
    var i := path[0].index;
    PlaceIsUnchanged(w, t.elem, v.elems[i], j.elems[i], path[1..]);
    var merged := MergeSeq(w, t.elem, v.elems, j);
    assert merged[i] == MergeElement(w, t.elem, v.elems[i], j.elems[i]);
    assert MergeProperty(w, t, v, j) == VSeq(merged);
  }
}
