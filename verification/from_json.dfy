/**
 The merging reader: it walks a type and a JSON value together and changes an existing
 instance.  The functions say what the outcome is; the classes and methods are the reader
 itself, updating views and instances in place.
 */
module FromJson {
  import opened JsonValues
  import opened Reflection

  /** The slots of a sequence after its view was resized to `n`. */
  function Resized(w: World, t: Type, elems: seq<Value>, n: nat): seq<Value> {
    seq(n, i requires 0 <= i < n => if i < |elems| then elems[i] else Default(w, t))
  }

  /** A property set from JSON. */
  function MergeProperty(w: World, t: Type, v: Value, j: Json): Value
    decreases j, 2
  {
    if j.JArray? then
      if t.TSeq? && v.VSeq? then VSeq(MergeSeq(w, t.elem, v.elems, j))
      else if t.TMap? || t.TSet? then MergeAssoc(w, t, v, j, |j.elems|)
      else v
    else if j.JObject? then MergeObject(w, t, v, j)
    else
      var c := Convert(w, j, t);
      if c.Some? then c.value else v
  }

  /** An element of a sequence set from JSON: an array reaches nested sequences only. */
  function MergeElement(w: World, t: Type, v: Value, j: Json): Value
    decreases j, 3
  {
    if j.JArray? && !(t.TSeq? && v.VSeq?) then v else MergeProperty(w, t, v, j)
  }

  function MergeSeq(w: World, t: Type, elems: seq<Value>, j: Json): seq<Value>
    requires j.JArray?
    decreases j, 1
  {
    var slots := Resized(w, t, elems, |j.elems|);
    seq(|j.elems|, i requires 0 <= i < |j.elems| => MergeElement(w, t, slots[i], j.elems[i]))
  }

  /** An instance merged with an object: the properties that the object names are set, and
      anything that is not a class has no properties. */
  function MergeObject(w: World, t: Type, v: Value, j: Json): Value
    decreases j, 1
  {
    if v.VObj? && j.JObject? then
      VObj(map name | name in v.fields ::
             var p := FindProperty(Properties(w, t), name);
             if p.Some? && name in j.members
             then MergeProperty(w, p.value.ty, v.fields[name], j.members[name])
             else v.fields[name])
    else v
  }

  /** A fresh value read from JSON, as for arguments, keys and mapped values. */
  function Extract(w: World, t: Type, j: Json): Variant
    decreases j, 2
  {
    var c := Convert(w, j, t);
    if c.Some? then Typed(c.value)
    else if j.JObject? then
      if t.TClass? && t.cls in w.classes && w.classes[t.cls].constructible
      then Typed(MergeObject(w, t, w.classes[t.cls].init, j))
      else Invalid
    else if IsBasic(j) then Mistyped(j)
    else Invalid
  }

  /** `insert(key, value)`: only on a key-value view, only for arguments of the right types,
      and never over an existing key. */
  function InsertPair(c: Value, k: Variant, v: Variant): Value {
    if c.VMap? && k.Typed? && v.Typed? && k.value !in c.entries
    then VMap(c.entries[k.value := v.value])
    else c
  }

  /** `insert(key)`: only on a key-only view. */
  function InsertKey(c: Value, k: Value): Value {
    if c.VSet? then VSet(c.keys + {k}) else c
  }

  function ValueType(t: Type): Type
    requires t.TMap? || t.TSet?
  {
    if t.TMap? then t.val else t.key
  }

  /** One element of the JSON array met by an associative view. */
  function AssocStep(w: World, t: Type, c: Value, j: Json): Value
    requires t.TMap? || t.TSet?
    decreases j, 3
  {
    if j.JObject? then
      if Has(j, "key") && Has(j, "value")
      then InsertPair(c, Extract(w, t.key, j.members["key"]), Extract(w, ValueType(t), j.members["value"]))
      else c
    else
      var k := Convert(w, j, t.key);
      if k.Some? then InsertKey(c, k.value) else c
  }

  /** The container after the first `n` elements of the array. */
  function MergeAssoc(w: World, t: Type, c: Value, j: Json, n: nat): Value
    requires t.TMap? || t.TSet?
    requires j.JArray? && n <= |j.elems|
    decreases j, 0, n
  {
    if n == 0 then c else AssocStep(w, t, MergeAssoc(w, t, c, j, n - 1), j.elems[n - 1])
  }

  // ---------------------------------------------------------------------------------------
  // Views and instances
  // ---------------------------------------------------------------------------------------

  /** A view of a sequential container; `elem` is None when the value was no such container,
      and every operation on such an invalid view does nothing. */
  class SequentialView {
    const elem: Option<Type>
    var elems: seq<Value>

    constructor (t: Type, v: Value)
      ensures elem == if t.TSeq? && v.VSeq? then Some(t.elem) else None
      ensures elems == if v.VSeq? then v.elems else []
    {
      elem := if t.TSeq? && v.VSeq? then Some(t.elem) else None;
      elems := if v.VSeq? then v.elems else [];
    }

    method SetSize(w: World, n: nat)
      modifies this
      ensures elems == if elem.Some? then Resized(w, elem.value, old(elems), n) else old(elems)
    {
      if elem.Some? {
        elems := Resized(w, elem.value, elems, n);
      }
    }

    method GetValue(i: nat) returns (v: Variant)
      requires elem.Some? ==> i < |elems|
      ensures v == if elem.Some? then Typed(elems[i]) else Invalid
    {
      v := if elem.Some? then Typed(elems[i]) else Invalid;
    }

    method SetValue(i: nat, v: Variant)
      requires elem.Some? ==> i < |elems|
      modifies this
      ensures elems == if elem.Some? && v.Typed? then old(elems)[i := v.value] else old(elems)
    {
      if elem.Some? && v.Typed? {
        elems := elems[i := v.value];
      }
    }
  }

  /** A view of an associative container. */
  class AssociativeView {
    const ty: Type
    var contents: Value

    constructor (t: Type, v: Value)
      ensures ty == t && contents == v
    {
      ty := t;
      contents := v;
    }

    method Insert(k: Variant, v: Variant)
      modifies this
      ensures contents == InsertPair(old(contents), k, v)
    {
      if contents.VMap? && k.Typed? && v.Typed? && k.value !in contents.entries {
        contents := VMap(contents.entries[k.value := v.value]);
      }
    }

    method InsertOnly(k: Value)
      modifies this
      ensures contents == InsertKey(old(contents), k)
    {
      if contents.VSet? {
        contents := VSet(contents.keys + {k});
      }
    }
  }

  /** An instance: a value of a type, changed in place through its properties. */
  class Instance {
    const ty: Type
    var value: Value

    constructor (t: Type, v: Value)
      ensures ty == t && value == v
    {
      ty := t;
      value := v;
    }

    method GetProperty(p: Property) returns (v: Variant)
      ensures v == if value.VObj? && p.name in value.fields then Typed(value.fields[p.name]) else Invalid
    {
      v := if value.VObj? && p.name in value.fields then Typed(value.fields[p.name]) else Invalid;
    }

    method SetProperty(p: Property, v: Variant)
      modifies this
      ensures value == if old(value).VObj? && p.name in old(value).fields && v.Typed?
                       then VObj(old(value).fields[p.name := v.value]) else old(value)
    {
      if value.VObj? && p.name in value.fields && v.Typed? {
        value := VObj(value.fields[p.name := v.value]);
      }
    }
  }

  // ---------------------------------------------------------------------------------------
  // The reader
  // ---------------------------------------------------------------------------------------

  method WriteArrayRecursively(w: World, view: SequentialView, j: Json)
    requires Registered(w) && j.JArray?
    modifies view
    ensures view.elems == if view.elem.Some? then MergeSeq(w, view.elem.value, old(view.elems), j) else old(view.elems)
    decreases j, 1
  {
    view.SetSize(w, |j.elems|);
    ghost var slots := view.elems;
    for i := 0 to |j.elems|
      invariant |view.elems| == |slots|
      invariant view.elem.None? ==> view.elems == slots
      invariant view.elem.Some? ==>
          forall k :: 0 <= k < i ==> view.elems[k] == MergeElement(w, view.elem.value, slots[k], j.elems[k])
      invariant forall k :: i <= k < |slots| ==> view.elems[k] == slots[k]
    {
      var item := j.elems[i];
      var current := view.GetValue(i);
      if item.JArray? {
        // The nested view is a window into the element; storing it back models that.
        if current.Typed? {
          var sub := new SequentialView(view.elem.value, current.value);
          WriteArrayRecursively(w, sub, item);
          if sub.elem.Some? {
            view.SetValue(i, Typed(VSeq(sub.elems)));
          }
        }
      } else if item.JObject? {
        if current.Typed? {
          var wrapped := new Instance(view.elem.value, current.value);
          FromJsonRecursively(w, wrapped, item);
          view.SetValue(i, Typed(wrapped.value));
        }
      } else if view.elem.Some? {
        var extracted := Convert(w, item, view.elem.value);
        if extracted.Some? {
          view.SetValue(i, Typed(extracted.value));
        }
      }
    }
  }

  method ExtractValue(w: World, t: Type, j: Json) returns (r: Variant)
    requires Registered(w)
    ensures r == Extract(w, t, j)
    decreases j, 1
  {
    var converted := Convert(w, j, t);
    if converted.Some? {
      return Typed(converted.value);
    }
    r := if IsBasic(j) then Mistyped(j) else Invalid;
    if j.JObject? && t.TClass? && t.cls in w.classes && w.classes[t.cls].constructible {
      var built := new Instance(t, w.classes[t.cls].init);
      FromJsonRecursively(w, built, j);
      r := Typed(built.value);
    }
  }

  method WriteAssociativeViewRecursively(w: World, view: AssociativeView, j: Json)
    requires Registered(w) && j.JArray? && (view.ty.TMap? || view.ty.TSet?)
    modifies view
    ensures view.contents == MergeAssoc(w, view.ty, old(view.contents), j, |j.elems|)
    decreases j, 1
  {
    for i := 0 to |j.elems|
      invariant view.contents == MergeAssoc(w, view.ty, old(view.contents), j, i)
    {
      var item := j.elems[i];
      if item.JObject? {
        if Has(item, "key") && Has(item, "value") {
          var k := ExtractValue(w, view.ty.key, item.members["key"]);
          var v := ExtractValue(w, ValueType(view.ty), item.members["value"]);
          if !k.Invalid? && !v.Invalid? {
            view.Insert(k, v);
          }
        }
      } else {
        var extracted := Convert(w, item, view.ty.key);
        if extracted.Some? {
          view.InsertOnly(extracted.value);
        }
      }
    }
  }

  /** What the loop has made of the fields after the first `n` properties. */
  ghost predicate FieldsMerged(
    w: World, props: seq<Property>, was: map<string, Value>, now: map<string, Value>, j: Json, n: nat)
    requires n <= |props|
  {
    && now.Keys == was.Keys
    && (forall k :: 0 <= k < |props| && props[k].name in was ==>
         now[props[k].name] ==
         if k < n && Has(j, props[k].name)
         then MergeProperty(w, props[k].ty, was[props[k].name], j.members[props[k].name])
         else was[props[k].name])
    && (forall name :: name in was && name !in PropertyNames(props) ==> now[name] == was[name])
  }

  lemma FieldsMergedIsMergeObject(w: World, t: Type, was: map<string, Value>, now: map<string, Value>, j: Json)
    requires j.JObject? && DistinctProperties(Properties(w, t))
    requires FieldsMerged(w, Properties(w, t), was, now, j, |Properties(w, t)|)
    ensures VObj(now) == MergeObject(w, t, VObj(was), j)
  {
    var props := Properties(w, t);
    var spec := MergeObject(w, t, VObj(was), j);
    forall name | name in was
      ensures now[name] == spec.fields[name]
    {
      if FindProperty(props, name).Some? {
        FindPropertyListed(props, name);
      } else if name in PropertyNames(props) {
        var i :| 0 <= i < |props| && props[i].name == name;
        FindPropertyAt(props, i);
      }
    }
    assert now == spec.fields;
  }

  /** One round of the reader's loop: the property is set from `j` as its JSON kind says. */
  method SetFromJson(w: World, obj: Instance, prop: Property, j: Json)
    requires Registered(w)
    modifies obj
    ensures obj.value ==
      if old(obj.value).VObj? && prop.name in old(obj.value).fields
      then VObj(old(obj.value).fields[prop.name := MergeProperty(w, prop.ty, old(obj.value).fields[prop.name], j)])
      else old(obj.value)
    decreases j, 2
  {
    var current := obj.GetProperty(prop);
    if current.Invalid? {
      return;
    }
    if j.JArray? {
      var v := Invalid;
      if prop.ty.TSeq? {
        var view := new SequentialView(prop.ty, current.value);
        WriteArrayRecursively(w, view, j);
        if view.elem.Some? {
          v := Typed(VSeq(view.elems));
        }
      } else if prop.ty.TMap? || prop.ty.TSet? {
        var view := new AssociativeView(prop.ty, current.value);
        WriteAssociativeViewRecursively(w, view, j);
        v := Typed(view.contents);
      }
      obj.SetProperty(prop, v);
    } else if j.JObject? {
      var nested := new Instance(prop.ty, current.value);
      FromJsonRecursively(w, nested, j);
      obj.SetProperty(prop, Typed(nested.value));
    } else {
      var converted := Convert(w, j, prop.ty);
      if converted.Some? {
        obj.SetProperty(prop, Typed(converted.value));
      }
    }
  }

  method FromJsonRecursively(w: World, obj: Instance, j: Json)
    requires Registered(w)
    modifies obj
    ensures obj.value == MergeObject(w, obj.ty, old(obj.value), j)
    decreases j, 0
  {
    var props := Properties(w, obj.ty);
    if !obj.value.VObj? || !j.JObject? {
      return;
    }
    ghost var was := obj.value.fields;
    for i := 0 to |props|
      invariant obj.value.VObj? && FieldsMerged(w, props, was, obj.value.fields, j, i)
    {
      var prop := props[i];
      if prop.name in j.members {
        SetFromJson(w, obj, prop, j.members[prop.name]);
      }
    }
    FieldsMergedIsMergeObject(w, obj.ty, was, obj.value.fields, j);
  }
}
