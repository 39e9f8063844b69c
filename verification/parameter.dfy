/**
 Schema descriptions of types.  Describing a type enters the definition of every class it
 mentions into a shared table, recursively, and the table cuts the recursion short for classes
 it already has.
 */
module Parameters {
  import opened JsonValues
  import opened Reflection

  /** Containers are classes too, without properties; strings are described as scalars. */
  predicate IsClass(t: Type) {
    t.TSeq? || t.TMap? || t.TSet? || t.TClass?
  }

  function Strings(ss: seq<string>): Json {
    JArray(seq(|ss|, i requires 0 <= i < |ss| => JString(ss[i])))
  }

  function EnumNames(names: seq<(string, int)>): seq<string> {
    seq(|names|, i requires 0 <= i < |names| => names[i].0)
  }

  function Reference(w: World, t: Type): Json {
    JString("#/definitions/" + w.typeName(t))
  }

  /** The description of a type; None is `void`. */
  function Description(w: World, desc: string, t: Option<Type>): Json {
    var base := map["description" := JString(desc)];
    JObject(
      if t.None? then base["type" := JString("null")]
      else
        match t.value
        case TBool => base["type" := JString("boolean")]
        case TString => base["type" := JString("string")]
        case TEnum(names) => base["enum" := Strings(EnumNames(names))]["type" := JString("string")]
        case TInt(lo, hi) => base["minimum" := JInt(lo)]["maximum" := JInt(hi)]["type" := JString("integer")]
        case TFloat(single) =>
          base["minimum" := JFloat(-w.largest(single))]["maximum" := JFloat(w.largest(single))]
              ["type" := JString("number")]
        case TSeq(_) => base["$ref" := Reference(w, t.value)]
        case TMap(_, _) => base["$ref" := Reference(w, t.value)]
        case TSet(_) => base["$ref" := Reference(w, t.value)]
        case TClass(_) => base["$ref" := Reference(w, t.value)])
  }

  function PropertyDescriptions(w: World, props: seq<Property>): map<string, Json> {
    if props == [] then map[]
    else
      var last := props[|props| - 1];
      PropertyDescriptions(w, props[..|props| - 1])[last.name := Description(w, last.description, Some(last.ty))]
  }

  function PropertyNameList(props: seq<Property>): seq<string> {
    seq(|props|, i requires 0 <= i < |props| => props[i].name)
  }

  /** The definition of a class, computed without any table. */
  function ClassDefinition(w: World, t: Type): Json {
    JObject(map[
      "type" := JString("object"),
      "properties" := JObject(PropertyDescriptions(w, Properties(w, t))),
      "required" := Strings(PropertyNameList(Properties(w, t)))])
  }

  /** No class holds itself through its properties: ranks fall along the property graph. */
  ghost predicate Ranked(w: World, rank: Type -> nat) {
    forall cls :: cls in w.classes ==> RankedClass(w, rank, cls)
  }

  predicate RankedClass(w: World, rank: Type -> nat, cls: string)
    requires cls in w.classes
  {
    forall i :: 0 <= i < |w.classes[cls].props| && IsClass(w.classes[cls].props[i].ty) ==>
      rank(w.classes[cls].props[i].ty) < rank(TClass(cls))
  }

  // ---------------------------------------------------------------------------------------
  // The table
  // ---------------------------------------------------------------------------------------

  /** The table after describing `t`. */
  ghost function Collect(w: World, rank: Type -> nat, t: Type, table: map<string, Json>): map<string, Json>
    requires Ranked(w, rank)
    decreases rank(t), 1, 0
  {
    if IsClass(t) && w.typeName(t) !in table
    then CollectProperties(w, rank, t, |Properties(w, t)|, table)[w.typeName(t) := ClassDefinition(w, t)]
    else table
  }

  /** The table after describing the first `n` properties of `t`. */
  ghost function CollectProperties(w: World, rank: Type -> nat, t: Type, n: nat, table: map<string, Json>)
    : map<string, Json>
    requires Ranked(w, rank) && n <= |Properties(w, t)|
    decreases rank(t), 0, n
  {
    if n == 0 then table
    else
      var before := CollectProperties(w, rank, t, n - 1, table);
      var ty := Properties(w, t)[n - 1].ty;
      if IsClass(ty) then
        assert RankedClass(w, rank, t.cls);
        Collect(w, rank, ty, before)
      else before
  }

  class Definitions {
    var table: map<string, Json>

    constructor ()
      ensures table == map[]
    {
      table := map[];
    }
  }

  method CreateParameterDescription(w: World, ghost rank: Type -> nat, desc: string, t: Option<Type>, defs: Definitions)
    returns (param: Json)
    requires Ranked(w, rank)
    modifies defs
    ensures param == Description(w, desc, t)
    ensures defs.table == if t.Some? then Collect(w, rank, t.value, old(defs.table)) else old(defs.table)
    decreases if t.Some? && IsClass(t.value) then rank(t.value) + 1 else 0, 1, 0
  {
    var members := map["description" := JString(desc)];
    if t.Some? && t.value.TEnum? {
      members := members["enum" := Strings(EnumNames(t.value.names))];
    }
    if t.Some? && IsClass(t.value) {
      var className := w.typeName(t.value);
      members := members["$ref" := JString("#/definitions/" + className)];
      if className !in defs.table {
        var def := CreateClassDefinition(w, rank, t.value, defs);
        defs.table := defs.table[className := def];
      }
    } else if t.None? {
      members := members["type" := JString("null")];
    } else if t.value.TBool? {
      members := members["type" := JString("boolean")];
    } else if t.value.TString? || t.value.TEnum? {
      members := members["type" := JString("string")];
    } else if t.value.TFloat? {
      members := members["minimum" := JFloat(-w.largest(t.value.single))];
      members := members["maximum" := JFloat(w.largest(t.value.single))];
      members := members["type" := JString("number")];
    } else {
      members := members["minimum" := JInt(t.value.lo)]["maximum" := JInt(t.value.hi)];
      members := members["type" := JString("integer")];
    }
    param := JObject(members);
  }

  lemma OneMoreProperty(w: World, props: seq<Property>, i: nat)
    requires i < |props|
    ensures var was, now, p := props[..i], props[..i + 1], props[i];
            && PropertyDescriptions(w, now)
               == PropertyDescriptions(w, was)[p.name := Description(w, p.description, Some(p.ty))]
            && PropertyNameList(now) == PropertyNameList(was) + [p.name]
  {
    assert props[..i + 1][..i] == props[..i];
  }

  method CreateClassDefinition(w: World, ghost rank: Type -> nat, t: Type, defs: Definitions) returns (def: Json)
    requires Ranked(w, rank) && IsClass(t)
    modifies defs
    ensures def == ClassDefinition(w, t)
    ensures defs.table == CollectProperties(w, rank, t, |Properties(w, t)|, old(defs.table))
    decreases rank(t) + 1, 0, 1
  {
    var props := Properties(w, t);
    var properties: map<string, Json> := map[];
    var required: seq<string> := [];
    for i := 0 to |props|
      invariant properties == PropertyDescriptions(w, props[..i])
      invariant required == PropertyNameList(props[..i])
      invariant defs.table == CollectProperties(w, rank, t, i, old(defs.table))
    {
      var prop := props[i];
      assert RankedClass(w, rank, t.cls);
      var description := CreateParameterDescription(w, rank, prop.description, Some(prop.ty), defs);
      OneMoreProperty(w, props, i);
      properties := properties[prop.name := description];
      required := required + [prop.name];
    }
    assert props[..|props|] == props;
    def := JObject(map["type" := JString("object"), "properties" := JObject(properties),
      "required" := Strings(required)]);
  }

  // ---------------------------------------------------------------------------------------
  // Reachability, on its own
  // ---------------------------------------------------------------------------------------

  ghost predicate Mentions(w: World, a: Type, b: Type) {
    IsClass(b) && exists i :: 0 <= i < |Properties(w, a)| && Properties(w, a)[i].ty == b
  }

  ghost predicate Path(w: World, p: seq<Type>) {
    && p != [] && IsClass(p[0])
    && forall i :: 0 <= i < |p| - 1 ==> Mentions(w, p[i], p[i + 1])
  }

  /** Some chain of properties leads from `a` to the class `c`. */
  ghost predicate Reaches(w: World, a: Type, c: Type) {
    exists p :: Path(w, p) && p[0] == a && p[|p| - 1] == c
  }

  /** Different classes have different names. */
  ghost predicate NamesApart(w: World) {
    forall a, b :: IsClass(a) && IsClass(b) && w.typeName(a) == w.typeName(b) ==> a == b
  }

  /** Every class in the table has its own definition there, and so have the classes it mentions. */
  ghost predicate Closed(w: World, table: map<string, Json>) {
    forall c :: IsClass(c) && w.typeName(c) in table ==> ClosedAt(w, table, c)
  }

  ghost predicate ClosedAt(w: World, table: map<string, Json>, c: Type)
    requires w.typeName(c) in table
  {
    && table[w.typeName(c)] == ClassDefinition(w, c)
    && forall b :: Mentions(w, c, b) ==> w.typeName(b) in table
  }

  /** `after` is `before` with exactly the classes reachable from `t` added. */
  ghost predicate AddsReachable(w: World, t: Type, before: map<string, Json>, after: map<string, Json>) {
    && before.Keys <= after.Keys
    && (forall n :: n in before ==> after[n] == before[n])
    && (forall n :: n in after && n !in before ==> exists c :: Reaches(w, t, c) && w.typeName(c) == n)
  }

  lemma ReachesSelf(w: World, t: Type)
    requires IsClass(t)
    ensures Reaches(w, t, t)
  {
    assert Path(w, [t]);
  }

  lemma ReachesStep(w: World, a: Type, b: Type, c: Type)
    requires IsClass(a) && Mentions(w, a, b) && Reaches(w, b, c)
    ensures Reaches(w, a, c)
  {
    var p :| Path(w, p) && p[0] == b && p[|p| - 1] == c;
    PathStep(w, a, p);
    var q := [a] + p;
    assert Path(w, q) && q[0] == a && q[|q| - 1] == c;
  }

  lemma PathStep(w: World, a: Type, p: seq<Type>)
    requires IsClass(a) && Path(w, p) && Mentions(w, a, p[0])
    ensures Path(w, [a] + p)
  {
    var q := [a] + p;
    forall i | 0 <= i < |q| - 1 ensures Mentions(w, q[i], q[i + 1]) {
      if i > 0 {
        assert q[i] == p[i - 1] && q[i + 1] == p[i - 1 + 1];
      }
    }
  }

  /** A closed table that has a class has everything reachable from it. */
  lemma {:induction false} ClosedHasReachable(w: World, table: map<string, Json>, p: seq<Type>)
    requires Closed(w, table) && Path(w, p) && w.typeName(p[0]) in table
    ensures w.typeName(p[|p| - 1]) in table && IsClass(p[|p| - 1])
    decreases |p|
  {
    if |p| > 1 {
      assert ClosedAt(w, table, p[0]);
      assert Mentions(w, p[0], p[1]);
      ClosedHasReachable(w, table, p[1..]);
    }
  }

  lemma {:induction false} CollectKeepsClosed(w: World, rank: Type -> nat, t: Type, table: map<string, Json>)
    requires Ranked(w, rank) && NamesApart(w) && Closed(w, table)
    ensures var after := Collect(w, rank, t, table);
            && Closed(w, after) && (IsClass(t) ==> w.typeName(t) in after) && AddsReachable(w, t, table, after)
    decreases rank(t), 1, 0
  {
    if IsClass(t) && w.typeName(t) !in table {
      var n := |Properties(w, t)|;
      CollectPropertiesKeepsClosed(w, rank, t, n, table);
      var before := CollectProperties(w, rank, t, n, table);
      var after := before[w.typeName(t) := ClassDefinition(w, t)];
      assert HasFirst(w, t, n, before);
      forall c | IsClass(c) && w.typeName(c) in after
        ensures ClosedAt(w, after, c)
      {
        if c != t {
          assert ClosedAt(w, before, c);
        }
      }
      ReachesSelf(w, t);
    }
  }

  /** The table has the classes among the first `n` property types of `t`. */
  ghost predicate HasFirst(w: World, t: Type, n: nat, table: map<string, Json>)
    requires n <= |Properties(w, t)|
  {
    forall i :: 0 <= i < n && IsClass(Properties(w, t)[i].ty) ==> w.typeName(Properties(w, t)[i].ty) in table
  }

  lemma HasOneMore(w: World, t: Type, n: nat, before: map<string, Json>, after: map<string, Json>)
    requires 0 < n <= |Properties(w, t)| && HasFirst(w, t, n - 1, before) && before.Keys <= after.Keys
    requires IsClass(Properties(w, t)[n - 1].ty) ==> w.typeName(Properties(w, t)[n - 1].ty) in after
    ensures HasFirst(w, t, n, after)
  {
  }

  lemma {:induction false} CollectPropertiesKeepsClosed(
      w: World, rank: Type -> nat, t: Type, n: nat, table: map<string, Json>)
    requires Ranked(w, rank) && NamesApart(w) && Closed(w, table) && IsClass(t) && n <= |Properties(w, t)|
    ensures var after := CollectProperties(w, rank, t, n, table);
            Closed(w, after) && AddsReachable(w, t, table, after) && HasFirst(w, t, n, after)
    decreases rank(t), 0, n
  {
    if n > 0 {
      CollectPropertiesKeepsClosed(w, rank, t, n - 1, table);
      var before := CollectProperties(w, rank, t, n - 1, table);
      var after := CollectProperties(w, rank, t, n, table);
      var ty := Properties(w, t)[n - 1].ty;
      if IsClass(ty) {
        assert RankedClass(w, rank, t.cls);
        CollectKeepsClosed(w, rank, ty, before);
        assert after == Collect(w, rank, ty, before);
        assert Mentions(w, t, ty);
        AddsThroughMention(w, t, ty, table, before, after);
      }
      HasOneMore(w, t, n, before, after);
    }
  }

  lemma AddsThroughMention(
      w: World, t: Type, ty: Type, table: map<string, Json>, before: map<string, Json>, after: map<string, Json>)
    requires IsClass(t) && Mentions(w, t, ty)
    requires AddsReachable(w, t, table, before) && AddsReachable(w, ty, before, after)
    ensures AddsReachable(w, t, table, after)
  {
    forall name | name in after && name !in table
      ensures exists c :: Reaches(w, t, c) && w.typeName(c) == name
    {
      if name !in before {
        var c :| Reaches(w, ty, c) && w.typeName(c) == name;
        ReachesStep(w, t, ty, c);
      }
    }
  }

  // ---------------------------------------------------------------------------------------
  // Several descriptions sharing one table
  // ---------------------------------------------------------------------------------------

  /** The table after describing several types in turn, starting from an empty one. */
  ghost function CollectAll(w: World, rank: Type -> nat, ts: seq<Type>): map<string, Json>
    requires Ranked(w, rank)
  {
    if ts == [] then map[] else Collect(w, rank, ts[|ts| - 1], CollectAll(w, rank, ts[..|ts| - 1]))
  }

  /** `n` is the name of a class reachable from one of the types. */
  ghost predicate Named(w: World, ts: seq<Type>, n: string) {
    exists t, c :: t in ts && Reaches(w, t, c) && w.typeName(c) == n
  }

  lemma NamedFromMore(w: World, ts: seq<Type>, us: seq<Type>, n: string)
    requires Named(w, ts, n) && forall t :: t in ts ==> t in us
    ensures Named(w, us, n)
  {
    var t, c :| t in ts && Reaches(w, t, c) && w.typeName(c) == n;
    assert t in us;
  }

  lemma NamedIsClass(w: World, ts: seq<Type>, n: string) returns (c: Type)
    requires Named(w, ts, n)
    ensures IsClass(c) && w.typeName(c) == n
  {
    var t;
    t, c :| t in ts && Reaches(w, t, c) && w.typeName(c) == n;
    var p :| Path(w, p) && p[0] == t && p[|p| - 1] == c;
    ReachedIsClass(w, p);
  }

  lemma ReachedIsClass(w: World, p: seq<Type>)
    requires Path(w, p)
    ensures IsClass(p[|p| - 1])
  {
    if |p| > 1 {
      assert Mentions(w, p[|p| - 2], p[|p| - 2 + 1]);
    }
  }

  /** The table's keys are exactly the names of the classes reachable from the types described,
      and each entry is what would be computed without a table. */
  lemma {:induction false} TableIsExact(w: World, rank: Type -> nat, ts: seq<Type>)
    requires Ranked(w, rank) && NamesApart(w)
    ensures var table := CollectAll(w, rank, ts);
            && Closed(w, table)
            && (forall n :: n in table <==> Named(w, ts, n))
            && (forall c :: IsClass(c) && w.typeName(c) in table ==> table[w.typeName(c)] == ClassDefinition(w, c))
  {
    var table := CollectAll(w, rank, ts);
    if ts != [] {
      var init, last := ts[..|ts| - 1], ts[|ts| - 1];
      var before := CollectAll(w, rank, init);
      TableIsExact(w, rank, init);
      CollectKeepsClosed(w, rank, last, before);
      forall n | n in table ensures Named(w, ts, n) {
        if n in before {
          NamedFromMore(w, init, ts, n);
        }
      }
      forall n | Named(w, ts, n) ensures n in table {
        NamedIsCollected(w, ts, before, table, n);
      }
    }
    forall c | IsClass(c) && w.typeName(c) in table
      ensures table[w.typeName(c)] == ClassDefinition(w, c)
    {
      assert ClosedAt(w, table, c);
    }
  }

  lemma NamedIsCollected(w: World, ts: seq<Type>, before: map<string, Json>, table: map<string, Json>, n: string)
    requires ts != [] && Named(w, ts, n) && Closed(w, table) && before.Keys <= table.Keys
    requires IsClass(ts[|ts| - 1]) ==> w.typeName(ts[|ts| - 1]) in table
    requires Named(w, ts[..|ts| - 1], n) ==> n in before
    ensures n in table
  {
    var t, c :| t in ts && Reaches(w, t, c) && w.typeName(c) == n;
    if t == ts[|ts| - 1] {
      var p :| Path(w, p) && p[0] == t && p[|p| - 1] == c;
      ClosedHasReachable(w, table, p);
    } else {
      assert t in ts[..|ts| - 1];
    }
  }

  lemma SameEntry(w: World, rank: Type -> nat, ts: seq<Type>, us: seq<Type>, n: string)
    requires Ranked(w, rank) && NamesApart(w) && n in CollectAll(w, rank, ts)
    requires forall t :: t in ts ==> t in us
    ensures n in CollectAll(w, rank, us) && CollectAll(w, rank, us)[n] == CollectAll(w, rank, ts)[n]
  {
    TableIsExact(w, rank, ts);
    TableIsExact(w, rank, us);
    NamedFromMore(w, ts, us, n);
    var c := NamedIsClass(w, ts, n);
  }

  /** The table does not depend on the order in which types are described, nor on repetitions. */
  lemma OrderDoesNotMatter(w: World, rank: Type -> nat, ts: seq<Type>, us: seq<Type>)
    requires Ranked(w, rank) && NamesApart(w)
    requires forall t :: t in ts <==> t in us
    ensures CollectAll(w, rank, ts) == CollectAll(w, rank, us)
  {
    var a, b := CollectAll(w, rank, ts), CollectAll(w, rank, us);
    forall n | n in a ensures n in b && b[n] == a[n] {
      SameEntry(w, rank, ts, us, n);
    }
    forall n | n in b ensures n in a {
      SameEntry(w, rank, us, ts, n);
    }
    assert a == b;
  }
}
