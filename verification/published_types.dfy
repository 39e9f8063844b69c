/**
 What the schema publishes about a type, compared with what the reader accepts and what the
 writer produces.
 */
module PublishedTypes {
  import opened JsonValues
  import opened Reflection
  import opened ToJson
  import opened Parameters
  import opened Methods

  lemma {:induction false} ListedExactly(names: seq<(string, int)>, s: string)
    ensures CodeOf(names, s).Some? <==> s in EnumNames(names)
  {
    if names != [] {
      ListedExactly(names[1..], s);
      assert EnumNames(names) == [names[0].0] + EnumNames(names[1..]);
    }
  }

  lemma StringsHave(ss: seq<string>, s: string)
    ensures JString(s) in Strings(ss).elems <==> s in ss
  {
    if s in ss {
      var i :| 0 <= i < |ss| && ss[i] == s;
      assert Strings(ss).elems[i] == JString(s);
    }
  }

  /** The names published for an enumeration are exactly the strings that the reader takes for
      one of its enumerators. */
  lemma PublishedNamesAreRead(w: World, desc: string, names: seq<(string, int)>, s: string)
    ensures var d := Description(w, desc, Some(TEnum(names)));
            && d.members["enum"].JArray?
            && (JString(s) in d.members["enum"].elems <==> CodeOf(names, s).Some?)
            && (CodeOf(names, s).Some? ==> Convert(w, JString(s), TEnum(names)) == Some(VEnum(CodeOf(names, s).value)))
  {
    ListedExactly(names, s);
    StringsHave(EnumNames(names), s);
  }

  /** The keywords `type`, `enum`, `minimum` and `maximum` of JSON Schema Validation draft-07,
      sections 6.1 and 6.2, as far as descriptions use them. */
  predicate Fits(d: Json, j: Json) {
    && d.JObject?
    && FitsType(Member(d, "type"), j)
    && (Has(d, "enum") ==> d.members["enum"].JArray? && j in d.members["enum"].elems)
    && (Has(d, "minimum") && Has(d, "maximum") ==> InRange(d.members["minimum"], d.members["maximum"], j))
  }

  predicate FitsType(ty: Json, j: Json) {
    ty.JString?
    && (ty.s == "boolean" ==> j.JBool?)
    && (ty.s == "string" ==> j.JString?)
    && (ty.s == "integer" ==> j.JInt?)
    && (ty.s == "number" ==> j.JInt? || j.JFloat?)
    && (ty.s == "null" ==> j.JNull?)
    && (ty.s == "object" ==> j.JObject?)
  }

  predicate IsNumber(j: Json) {
    j.JInt? || j.JFloat?
  }

  function Number(j: Json): real
    requires IsNumber(j)
  {
    if j.JInt? then j.n as real else j.r
  }

  predicate InRange(lo: Json, hi: Json, j: Json) {
    IsNumber(lo) && IsNumber(hi) && (IsNumber(j) ==> Number(lo) <= Number(j) <= Number(hi))
  }

  /** Exactly which JSON is valid against what is published for a scalar: for integers exactly the
      numbers in the type's range, for enumerations exactly the registered names. */
  lemma PublishedScalarsExactly(w: World, desc: string, t: Type, j: Json)
    requires IsAtom(t)
    ensures var d := Description(w, desc, Some(t));
            && Member(d, "description") == JString(desc)
            && (t.TBool? ==> (Fits(d, j) <==> j.JBool?))
            && (t.TString? ==> (Fits(d, j) <==> j.JString?))
            && (t.TInt? ==> (Fits(d, j) <==> j.JInt? && t.lo <= j.n <= t.hi))
            && (t.TFloat? ==> (Fits(d, j) <==> IsNumber(j) && -w.largest(t.single) <= Number(j) <= w.largest(t.single)))
            && (t.TEnum? ==> (Fits(d, j) <==> j.JString? && CodeOf(t.names, j.s).Some?))
  {
    if t.TEnum? {
      var d := Description(w, desc, Some(t));
      assert d.members["enum"] == Strings(EnumNames(t.names)) && d.members["type"] == JString("string");
      if j.JString? {
        PublishedNamesAreRead(w, desc, t.names, j.s);
      }
    }
  }

  /** What is published for nothing is null, and only that. */
  lemma PublishedVoidExactly(w: World, desc: string, j: Json)
    ensures Fits(Description(w, desc, None), j) <==> j.JNull?
    ensures Member(Description(w, desc, None), "description") == JString(desc)
  {
  }

  /** JSON that is valid against what is published for an integer, a boolean, a string or an
      enumeration is read as a value of that type, and no other integer is. */
  lemma ValidScalarIsRead(w: World, desc: string, t: Type, j: Json)
    requires IsAtom(t) && !t.TFloat?
    ensures Fits(Description(w, desc, Some(t)), j) ==> Convert(w, j, t).Some?
    ensures t.TInt? && j.JInt? ==>
              (Convert(w, j, t) == Some(VInt(j.n)) <==> Fits(Description(w, desc, Some(t)), j))
              && (Convert(w, j, t).Some? ==> Convert(w, j, t) == Some(VInt(j.n)))
  {
    PublishedScalarsExactly(w, desc, t, j);
  }

  /** `largest` bounds every value of its type. */
  predicate Finite(w: World, t: Type, v: Value) {
    v.VFloat? && t.TFloat? ==> -w.largest(t.single) <= v.r <= w.largest(t.single)
  }

  /** What the writer makes of a scalar fits the description published for its type, except for
      an enumerator without a name, which is written as a number. */
  lemma WrittenScalarFitsExactly(w: World, desc: string, t: Type, v: Value)
    requires IsAtom(t) && HasType(w, v, t) && Finite(w, t, v)
    ensures Fits(Description(w, desc, Some(t)), AtomJson(t, v)) <==> (t.TEnum? ==> NameOf(t.names, v.code).Some?)
  {
    if t.TEnum? {
      var d := Description(w, desc, Some(t));
      assert d.members["type"] == JString("string");
      if NameOf(t.names, v.code).Some? {
        var name := NameOf(t.names, v.code).value;
        NameIsListed(t.names, v.code);
        var i :| 0 <= i < |t.names| && t.names[i].0 == name;
        assert EnumNames(t.names)[i] == name;
        StringsHave(EnumNames(t.names), name);
      }
    }
  }

  predicate HasRequired(required: Json, j: Json) {
    && required.JArray?
    && forall i :: 0 <= i < |required.elems| ==> required.elems[i].JString? && Has(j, required.elems[i].s)
  }

  /** The object that the writer makes of a class has all the properties that the definition
      published for the class requires if and only if every property is serialised: the
      definition requires also the properties that the writer leaves out. */
  lemma WrittenObjectHasRequiredExactly(w: World, t: Type, v: Value, j: Json)
    requires Registered(w) && t.TClass? && WritesObject(w, t, v, j)
    ensures HasRequired(Member(ClassDefinition(w, t), "required"), j)
            <==> forall i :: 0 <= i < |Properties(w, t)| ==> Properties(w, t)[i].serialized
  {
    var props := Properties(w, t);
    var required := Member(ClassDefinition(w, t), "required");
    assert required == Strings(PropertyNameList(props));
    forall i | 0 <= i < |props|
      ensures required.elems[i] == JString(props[i].name)
      ensures Has(j, props[i].name) <==> props[i].serialized
    {
      if Has(j, props[i].name) {
        var k :| 0 <= k < |props| && props[k].serialized && props[k].name == props[i].name;
      }
    }
  }

  // ---------------------------------------------------------------------------------------
  // Validation
  // ---------------------------------------------------------------------------------------

  /** A value is valid against a description, whose reference, if it has one, stands for an entry
      of the definitions (section 8.3 of JSON Schema Core draft-07). */
  ghost predicate Valid(definitions: map<string, Json>, d: Json, j: Json)
    decreases j, 1
  {
    if Has(d, "$ref") then
      exists n :: n in definitions && d.members["$ref"] == JString("#/definitions/" + n)
                  && ValidObject(definitions, definitions[n], j)
    else Fits(d, j)
  }

  /** The keywords `type`, `required` and `properties` (sections 6.1.1, 6.5.3 and 6.5.4 of JSON
      Schema Validation draft-07). */
  ghost predicate ValidObject(definitions: map<string, Json>, def: Json, j: Json)
    decreases j, 0
  {
    && FitsType(Member(def, "type"), j)
    && HasRequired(Member(def, "required"), j)
    && Member(def, "properties").JObject?
    && forall n :: n in Member(def, "properties").members && Has(j, n) ==>
         Valid(definitions, Member(def, "properties").members[n], j.members[n])
  }

  /** A value that is written as its published schema says: no container, no property that is not
      serialised, no class without properties, no enumerator without a name, and every float
      within the published range. */
  ghost predicate Publishable(w: World, t: Type, v: Value)
    decreases v
  {
    match v
    case VSeq(_) => false
    case VMap(_) => false
    case VSet(_) => false
    case VEnum(code) => t.TEnum? && NameOf(t.names, code).Some?
    case VFloat(_) => Finite(w, t, v)
    case VObj(fields) =>
      && Properties(w, t) != []
      && forall i :: 0 <= i < |Properties(w, t)| ==>
           var p := Properties(w, t)[i];
           p.serialized && p.name in fields && Publishable(w, p.ty, fields[p.name])
    case _ => true
  }

  lemma SameReference(a: string, b: string)
    requires "#/definitions/" + a == "#/definitions/" + b
    ensures a == b
  {
    var prefix := "#/definitions/";
    assert (prefix + a)[|prefix|..] == a && (prefix + b)[|prefix|..] == b;
  }

  /** A reference means the definition of its class. */
  lemma ReferenceMeans(w: World, desc: string, t: Type, definitions: map<string, Json>, j: Json)
    requires IsClass(t) && w.typeName(t) in definitions && ClosedAt(w, definitions, t)
    ensures Valid(definitions, Description(w, desc, Some(t)), j) <==> ValidObject(definitions, ClassDefinition(w, t), j)
  {
    var d := Description(w, desc, Some(t));
    assert d.members["$ref"] == JString("#/definitions/" + w.typeName(t));
    forall n | n in definitions && d.members["$ref"] == JString("#/definitions/" + n)
      ensures n == w.typeName(t)
    {
      SameReference(n, w.typeName(t));
    }
  }

  lemma {:induction false} PropertyDescriptionAt(w: World, props: seq<Property>, n: string)
    ensures n in PropertyDescriptions(w, props) <==> exists i :: 0 <= i < |props| && props[i].name == n
    ensures DistinctProperties(props) ==>
              forall i :: 0 <= i < |props| && props[i].name == n ==>
                n in PropertyDescriptions(w, props)
                && PropertyDescriptions(w, props)[n] == Description(w, props[i].description, Some(props[i].ty))
  {
    if props != [] {
      var init, last := props[..|props| - 1], props[|props| - 1];
      PropertyDescriptionAt(w, init, n);
      if n != last.name && n in PropertyDescriptions(w, init) {
        var i :| 0 <= i < |init| && init[i].name == n;
        assert props[i].name == n;
      }
      forall i | 0 <= i < |props| && props[i].name == n && i < |init| ensures init[i] == props[i] {
      }
    }
  }

  /** The description published for a property, found by its name. */
  lemma DefinitionHas(w: World, t: Type, i: nat)
    requires Registered(w) && i < |Properties(w, t)|
    ensures var p, described := Properties(w, t)[i], Member(ClassDefinition(w, t), "properties");
            && described == JObject(PropertyDescriptions(w, Properties(w, t)))
            && p.name in described.members && described.members[p.name] == Description(w, p.description, Some(p.ty))
  {
    PropertyDescriptionAt(w, Properties(w, t), Properties(w, t)[i].name);
  }

  lemma ContainersAreInvalid(w: World, t: Type, v: Value, definitions: map<string, Json>, j: Json)
    requires HasType(w, v, t) && Writes(w, t, v, j) && (v.VSeq? || v.VMap? || v.VSet?)
    ensures !ValidObject(definitions, ClassDefinition(w, t), j)
  {
    assert Member(ClassDefinition(w, t), "type") == JString("object");
  }

  /** What the writer makes of a value is valid against the description published for its type,
      references resolved, if and only if the value is publishable.  In particular nothing that
      holds a container is: its definition has type "object", but it is written as an array. */
  lemma {:induction false} WrittenIsValidExactly(
      w: World, desc: string, t: Type, v: Value, definitions: map<string, Json>, j: Json)
    requires Registered(w) && Closed(w, definitions) && (IsClass(t) ==> w.typeName(t) in definitions)
    requires HasType(w, v, t) && Writes(w, t, v, j)
    ensures Valid(definitions, Description(w, desc, Some(t)), j) <==> Publishable(w, t, v)
    decreases j
  {
    if IsClass(t) {
      assert ClosedAt(w, definitions, t);
      ReferenceMeans(w, desc, t, definitions, j);
      if v.VObj? {
        ObjectIsValidExactly(w, t, v, definitions, j);
      } else {
        ContainersAreInvalid(w, t, v, definitions, j);
      }
    } else {
      ScalarIsValidExactly(w, desc, t, v, definitions);
    }
  }

  lemma ScalarIsValidExactly(w: World, desc: string, t: Type, v: Value, definitions: map<string, Json>)
    requires IsAtom(t) && HasType(w, v, t)
    ensures Valid(definitions, Description(w, desc, Some(t)), AtomJson(t, v)) <==> Publishable(w, t, v)
  {
    if Finite(w, t, v) {
      WrittenScalarFitsExactly(w, desc, t, v);
    }
  }

  /** From the properties to the object. */
  lemma PropertiesValidExactly(w: World, t: Type, v: Value, definitions: map<string, Json>, j: Json)
    requires Registered(w) && t.TClass? && Properties(w, t) != [] && v.VObj? && WritesObject(w, t, v, j)
    requires HasRequired(Member(ClassDefinition(w, t), "required"), j)
             <==> forall i :: 0 <= i < |Properties(w, t)| ==> Properties(w, t)[i].serialized
    requires forall i :: 0 <= i < |Properties(w, t)| && Properties(w, t)[i].serialized ==>
               var p := Properties(w, t)[i];
               Valid(definitions, Description(w, p.description, Some(p.ty)), j.members[p.name])
               <==> Publishable(w, p.ty, v.fields[p.name])
    ensures ValidObject(definitions, ClassDefinition(w, t), j) <==> Publishable(w, t, v)
  {
    var props, def := Properties(w, t), ClassDefinition(w, t);
    var described := Member(def, "properties");
    assert FitsType(Member(def, "type"), j);
    if ValidObject(definitions, def, j) {
      forall i | 0 <= i < |props| ensures props[i].serialized && Publishable(w, props[i].ty, v.fields[props[i].name]) {
        DefinitionHas(w, t, i);
        assert Has(j, props[i].name);
      }
    }
    if Publishable(w, t, v) {
      forall n | n in described.members && Has(j, n)
        ensures Valid(definitions, described.members[n], j.members[n])
      {
        PropertyDescriptionAt(w, props, n);
        var i :| 0 <= i < |props| && props[i].name == n;
        DefinitionHas(w, t, i);
      }
    }
  }

  lemma {:induction false} ObjectIsValidExactly(w: World, t: Type, v: Value, definitions: map<string, Json>, j: Json)
    requires Registered(w) && Closed(w, definitions) && t.TClass? && w.typeName(t) in definitions
    requires HasType(w, v, t) && Writes(w, t, v, j)
    ensures ValidObject(definitions, ClassDefinition(w, t), j) <==> Publishable(w, t, v)
    decreases j, 0
  {
    var props := Properties(w, t);
    assert Member(ClassDefinition(w, t), "type") == JString("object");
    if props != [] {
      WrittenObjectHasRequiredExactly(w, t, v, j);
      forall i | 0 <= i < |props| && props[i].serialized
        ensures Valid(definitions, Description(w, props[i].description, Some(props[i].ty)), j.members[props[i].name])
                <==> Publishable(w, props[i].ty, v.fields[props[i].name])
      {
        assert ClosedAt(w, definitions, t);
        assert IsClass(props[i].ty) ==> Mentions(w, t, props[i].ty);
        WrittenIsValidExactly(
          w, props[i].description, props[i].ty, v.fields[props[i].name], definitions, j.members[props[i].name]);
      }
      PropertiesValidExactly(w, t, v, definitions, j);
    }
  }

  /** What the schema publishes for each parameter: an entry under its name and under no other, with
      its name as description, valid for exactly what its type's description is, and with a
      default exactly when it has one, which is that one. */
  lemma ParametersArePublished(w: World, m: MethodInfo, definitions: map<string, Json>, i: nat, j: Json)
    requires HasValidNames(m) && DistinctParameters(m.params) && i < |m.params|
    ensures var p, published := m.params[i], Member(Member(Schema(w, m, definitions), "params"), "properties");
            && published.JObject? && p.name in published.members
            && (forall n :: n in published.members ==> exists k :: 0 <= k < |m.params| && m.params[k].name == n)
            && var d := published.members[p.name];
            && (Valid(definitions, d, j) <==> Valid(definitions, Description(w, p.name, Some(p.ty)), j))
            && Member(d, "description") == JString(p.name)
            && (Has(d, "default") <==> p.hasDefault) && (p.hasDefault ==> Member(d, "default") == p.defaultValue)
  {
    SchemaShape(w, m, definitions);
    ParameterAt(w, m.params, i);
    forall n | n in ParameterDescriptions(w, m.params)
      ensures exists k :: 0 <= k < |m.params| && m.params[k].name == n
    {
      DescribedIsParameter(w, m.params, n);
    }
    DefaultDoesNotMatter(w, m.params[i], definitions, j);
  }

  lemma {:induction false} ParameterAt(w: World, params: seq<Parameter>, i: nat)
    requires DistinctParameters(params) && i < |params|
    ensures params[i].name in ParameterDescriptions(w, params)
    ensures ParameterDescriptions(w, params)[params[i].name] == ParameterDescription(w, params[i])
  {
    if i < |params| - 1 {
      ParameterAt(w, params[..|params| - 1], i);
    }
  }

  lemma {:induction false} DescribedIsParameter(w: World, params: seq<Parameter>, n: string)
    requires n in ParameterDescriptions(w, params)
    ensures exists k :: 0 <= k < |params| && params[k].name == n
  {
    var init, last := params[..|params| - 1], params[|params| - 1];
    if n != last.name {
      DescribedIsParameter(w, init, n);
      var k :| 0 <= k < |init| && init[k].name == n;
      assert params[k].name == n;
    } else {
      assert params[|params| - 1].name == n;
    }
  }

  lemma DefaultDoesNotMatter(w: World, p: Parameter, definitions: map<string, Json>, j: Json)
    ensures var d := ParameterDescription(w, p);
            && (Valid(definitions, d, j) <==> Valid(definitions, Description(w, p.name, Some(p.ty)), j))
            && Member(d, "description") == JString(p.name)
            && (Has(d, "default") <==> p.hasDefault) && (p.hasDefault ==> Member(d, "default") == p.defaultValue)
  {
    var plain, d := Description(w, p.name, Some(p.ty)), ParameterDescription(w, p);
    ValidIgnoresDefault(definitions, plain, d, j);
  }

  lemma ValidIgnoresDefault(definitions: map<string, Json>, a: Json, b: Json, j: Json)
    requires a.JObject? && b.JObject?
    requires forall n :: n != "default" ==> (Has(a, n) <==> Has(b, n)) && Member(a, n) == Member(b, n)
    ensures Valid(definitions, a, j) <==> Valid(definitions, b, j)
  {
    assert forall n :: n in {"$ref", "type", "enum", "minimum", "maximum"} ==>
      (Has(a, n) <==> Has(b, n)) && Member(a, n) == Member(b, n);
  }

  /** A result, once written, is valid against the schema published for its method's result if and
      only if it is publishable. */
  lemma ResultIsValidExactly(w: World, rank: Type -> nat, m: MethodInfo, v: Value, j: Json)
    requires Ranked(w, rank) && NamesApart(w) && Registered(w) && HasValidNames(m) && m.result.Some?
    requires HasType(w, v, m.result.value) && Writes(w, m.result.value, v, j)
    ensures var definitions := CollectAll(w, rank, DescribedTypes(m));
            Valid(definitions, Member(Schema(w, m, definitions), "result"), j) <==> Publishable(w, m.result.value, v)
  {
    var definitions := CollectAll(w, rank, DescribedTypes(m));
    var t := m.result.value;
    TableIsExact(w, rank, DescribedTypes(m));
    SchemaShape(w, m, definitions);
    if IsClass(t) {
      assert DescribedTypes(m)[|m.params|] == t;
      DescribedHasName(w, rank, m, t);
    }
    WrittenIsValidExactly(w, "return value", t, v, definitions, j);
  }
}
