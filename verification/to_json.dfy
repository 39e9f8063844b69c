/**
 The writer: it walks a reflected value.  A container's elements come out in whatever order
 the container iterates, so what the writer promises is a relation between value and JSON.
 */
module ToJson {
  import opened JsonValues
  import opened Reflection

  /** The JSON of a scalar; an enumerator without a name falls back to its unsigned value. */
  function AtomJson(t: Type, v: Value): Json {
    match v
    case VBool(b) => JBool(b)
    case VInt(n) => JInt(n)
    case VFloat(r) => JFloat(r)
    case VString(s) => JString(s)
    case VEnum(code) =>
      var name := if t.TEnum? then NameOf(t.names, code) else None;
      if name.Some? then JString(name.value) else if code >= 0 then JInt(code) else JNull
    case VSeq(_) => JNull
    case VMap(_) => JNull
    case VSet(_) => JNull
    case VObj(_) => JNull
  }

  /** The JSON of a property, of a mapped value or of a key. */
  ghost predicate Writes(w: World, t: Type, v: Value, j: Json)
    decreases j, 1
  {
    match v
    case VSeq(elems) => j.JArray? && t.TSeq? && WritesSeq(w, t.elem, elems, j.elems)
    case VMap(entries) => j.JArray? && t.TMap? && WritesMap(w, t, entries, j.elems)
    case VSet(keys) => j.JArray? && t.TSet? && WritesSet(w, t, keys, j.elems)
    case VObj(_) => if Properties(w, t) == [] then j == TextJson(w, t, v) else WritesObject(w, t, v, j)
    case _ => j == AtomJson(t, v)
  }

  /** A class without properties is written as the text it converts to, or else as null. */
  function TextJson(w: World, t: Type, v: Value): Json {
    var s := w.text(t, v);
    if s.Some? then JString(s.value) else JNull
  }

  /** The JSON of a sequence's element: whatever is no sequence and no scalar is an object. */
  ghost predicate WritesElement(w: World, t: Type, v: Value, j: Json)
    decreases j, 2
  {
    if v.VObj? || v.VMap? || v.VSet? then WritesObject(w, t, v, j) else Writes(w, t, v, j)
  }

  /** An object holds exactly the serialised properties; a value that is no class has none. */
  ghost predicate WritesObject(w: World, t: Type, v: Value, j: Json)
    decreases j, 0
  {
    && j.JObject?
    && j.members.Keys == SerializedNames(Properties(w, t))
    && (forall i :: 0 <= i < |Properties(w, t)| && Properties(w, t)[i].serialized ==>
         var p := Properties(w, t)[i];
         v.VObj? && p.name in v.fields && p.name in j.members && Writes(w, p.ty, v.fields[p.name], j.members[p.name]))
  }

  ghost predicate WritesSeq(w: World, t: Type, elems: seq<Value>, js: seq<Json>)
    decreases js
  {
    |js| == |elems| && forall i :: 0 <= i < |js| ==> WritesElement(w, t, elems[i], js[i])
  }

  /** The elements of `js` are the entries, each once, in some order. */
  ghost predicate WritesMap(w: World, t: Type, entries: map<Value, Value>, js: seq<Json>)
    requires t.TMap?
    decreases js
  {
    if js == [] then entries == map[]
    else
      exists k :: k in entries
               && WritesPair(w, t, k, entries[k], js[|js| - 1])
               && WritesMap(w, t, entries - {k}, js[..|js| - 1])
  }

  ghost predicate WritesPair(w: World, t: Type, k: Value, v: Value, j: Json)
    requires t.TMap?
    decreases j, 2
  {
    && j.JObject? && j.members.Keys == {"key", "value"}
    && Writes(w, t.key, k, j.members["key"])
    && Writes(w, t.val, v, j.members["value"])
  }

  ghost predicate WritesSet(w: World, t: Type, keys: set<Value>, js: seq<Json>)
    requires t.TSet?
    decreases js
  {
    if js == [] then keys == {}
    else exists k :: k in keys && Writes(w, t.key, k, js[|js| - 1]) && WritesSet(w, t, keys - {k}, js[..|js| - 1])
  }

  function SerializedNames(props: seq<Property>): set<string> {
    set i | 0 <= i < |props| && props[i].serialized :: props[i].name
  }

  // ---------------------------------------------------------------------------------------
  // The writer
  // ---------------------------------------------------------------------------------------

  method WriteAtomicTypesToJson(t: Type, v: Value) returns (done: bool, j: Json)
    ensures done == IsAtom(t)
    ensures done ==> j == AtomJson(t, v)
  {
    done := IsAtom(t);
    j := JNull;
    if done {
      j := AtomJson(t, v);
    }
  }

  method WriteArray(w: World, t: Type, v: Value) returns (j: Json)
    requires t.TSeq? && HasType(w, v, t) && Registered(w)
    ensures j.JArray? && WritesSeq(w, t.elem, v.elems, j.elems)
    decreases v, 0
  {
    var out := [];
    for i := 0 to |v.elems|
      invariant WritesSeq(w, t.elem, v.elems[..i], out)
    {
      var item := v.elems[i];
      var child;
      if t.elem.TSeq? {
        child := WriteArray(w, t.elem, item);
      } else {
        var atomic, atom := WriteAtomicTypesToJson(t.elem, item);
        if atomic {
          child := atom;
        } else {
          child := ToJsonRecursively(w, t.elem, item);
        }
      }
      out := out + [child];
    }
    assert v.elems[..|v.elems|] == v.elems;
    j := JArray(out);
  }

  lemma WritesMapAppend(w: World, t: Type, written: map<Value, Value>, js: seq<Json>, k: Value, v: Value, j: Json)
    requires t.TMap? && k !in written
    requires WritesMap(w, t, written, js) && WritesPair(w, t, k, v, j)
    ensures WritesMap(w, t, written[k := v], js + [j])
  {
    var all := js + [j];
    assert written[k := v] - {k} == written;
    assert all[..|all| - 1] == js;
  }

  lemma WritesSetAppend(w: World, t: Type, written: set<Value>, js: seq<Json>, k: Value, j: Json)
    requires t.TSet? && k !in written
    requires WritesSet(w, t, written, js) && Writes(w, t.key, k, j)
    ensures WritesSet(w, t, written + {k}, js + [j])
  {
    var all := js + [j];
    assert written + {k} - {k} == written;
    assert all[..|all| - 1] == js;
  }

  lemma SomethingIsLeft<T>(all: set<T>, done: set<T>)
    requires done <= all && done != all
    ensures exists k :: k in all - done
  {
    var k :| k in all && k !in done;
    assert k in all - done;
  }

  method WriteKeys(w: World, t: Type, v: Value) returns (out: seq<Json>)
    requires t.TSet? && HasType(w, v, t) && Registered(w)
    ensures WritesSet(w, t, v.keys, out)
    decreases v, 0
  {
    out := [];
    var written := {};
    while written != v.keys
      invariant written <= v.keys && WritesSet(w, t, written, out)
      decreases v.keys - written
    {
      SomethingIsLeft(v.keys, written);
      var k :| k in v.keys - written;
      var child := WriteVariant(w, t.key, k);
      WritesSetAppend(w, t, written, out, k, child);
      out := out + [child];
      written := written + {k};
    }
  }

  method WriteEntries(w: World, t: Type, v: Value) returns (out: seq<Json>)
    requires t.TMap? && HasType(w, v, t) && Registered(w)
    ensures WritesMap(w, t, v.entries, out)
    decreases v, 0
  {
    out := [];
    var written := map[];
    while written.Keys != v.entries.Keys
      invariant written.Keys <= v.entries.Keys
      invariant forall k :: k in written ==> written[k] == v.entries[k]
      invariant WritesMap(w, t, written, out)
      decreases v.entries.Keys - written.Keys
    {
      SomethingIsLeft(v.entries.Keys, written.Keys);
      var k :| k in v.entries.Keys - written.Keys;
      var key := WriteVariant(w, t.key, k);
      var val := WriteVariant(w, t.val, v.entries[k]);
      var child := JObject(map["key" := key, "value" := val]);
      WritesMapAppend(w, t, written, out, k, v.entries[k], child);
      out := out + [child];
      written := written[k := v.entries[k]];
    }
    assert written == v.entries;
  }

  method WriteAssociativeContainer(w: World, t: Type, v: Value) returns (j: Json)
    requires (t.TMap? || t.TSet?) && HasType(w, v, t) && Registered(w)
    ensures Writes(w, t, v, j)
    decreases v, 1
  {
    var out;
    if t.TSet? {
      out := WriteKeys(w, t, v);
    } else {
      out := WriteEntries(w, t, v);
    }
    j := JArray(out);
  }

  method WriteVariant(w: World, t: Type, v: Value) returns (j: Json)
    requires HasType(w, v, t) && Registered(w)
    ensures Writes(w, t, v, j)
    decreases v, 3
  {
    var atomic, atom := WriteAtomicTypesToJson(t, v);
    if atomic {
      j := atom;
    } else if t.TSeq? {
      j := WriteArray(w, t, v);
    } else if t.TMap? || t.TSet? {
      j := WriteAssociativeContainer(w, t, v);
    } else if Properties(w, t) != [] {
      j := ToJsonRecursively(w, t, v);
    } else {
      var text := w.text(t, v);
      j := if text.Some? then JString(text.value) else JNull;
    }
  }

  method ToJsonRecursively(w: World, t: Type, v: Value) returns (j: Json)
    requires HasType(w, v, t) && Registered(w)
    ensures t.TClass? || t.TMap? || t.TSet? ==> WritesObject(w, t, v, j)
    decreases v, 2
  {
    var props := Properties(w, t);
    var members: map<string, Json> := map[];
    for i := 0 to |props|
      invariant members.Keys == SerializedNames(props[..i])
      invariant forall k :: 0 <= k < i && props[k].serialized ==>
                  v.VObj? && props[k].name in v.fields && props[k].name in members
                  && Writes(w, props[k].ty, v.fields[props[k].name], members[props[k].name])
    {
      var prop := props[i];
      assert props[..i + 1] == props[..i] + [prop];
      SerializedNamesAppend(props[..i], prop);
      if prop.serialized {
        var child := WriteVariant(w, prop.ty, v.fields[prop.name]);
        assert forall k :: 0 <= k < i ==> props[k].name != prop.name;
        members := members[prop.name := child];
      }
    }
    assert props[..|props|] == props;
    j := JObject(members);
  }

  lemma SerializedNamesAppend(props: seq<Property>, p: Property)
    ensures SerializedNames(props + [p]) == SerializedNames(props) + if p.serialized then {p.name} else {}
  {
    var all := props + [p];
    forall name | name in SerializedNames(props)
      ensures name in SerializedNames(all)
    {
      var i :| 0 <= i < |props| && props[i].serialized && props[i].name == name;
      assert all[i].name == name;
    }
    if p.serialized {
      assert all[|props|].name == p.name;
    }
  }
}
